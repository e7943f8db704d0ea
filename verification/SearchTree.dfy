/** The LATS search: rollouts of expand, execute, evaluate and backprop over a mutable tree. */
module SearchTree {
  import opened Prelude
  import opened Grounding
  import opened SearchNode
  import opened SearchInvariant
  import opened SearchOrder

  /** What a model call for a score gives: an exception, or a reward and a status string. */
  datatype Judgement = Unavailable | Judged(reward: real, status: string)

  /** What a model call for actions gives. */
  datatype Proposal = NoAnswer | Actions(actions: seq<string>)

  /** A UCB value; an unvisited child scores infinity. */
  datatype Score = Infinite | Finite(r: real)

  datatype SearchResult =
    SearchResult(episode: Option<Episode>, reward: real, trajectory: seq<(string, string)>, rollouts: nat)

  predicate AtMost(a: Score, b: Score) {
    b.Infinite? || (a.Finite? && a.r <= b.r)
  }

  function Listed(p: Proposal): seq<string> {
    if p.Actions? then p.actions else []
  }

  /** The proposed actions that become children: the non-empty ones, first occurrences only. */
  function Kept(actions: seq<string>): (r: seq<string>)
    ensures forall a :: a in r <==> a in actions && a != ""
    ensures forall i, j :: 0 <= i < j < |r| ==> r[i] != r[j]
    ensures |r| <= |actions|
  {
    if actions == [] then []
    else
      var last := actions[|actions| - 1];
      var front := Kept(actions[..|actions| - 1]);
      if last == "" || last in front then front else front + [last]
  }

  lemma KeepOne(actions: seq<string>, i: nat)
    requires i < |actions|
    ensures Kept(actions[..i + 1]) ==
      if actions[i] == "" || actions[i] in Kept(actions[..i]) then Kept(actions[..i])
      else Kept(actions[..i]) + [actions[i]]
  {
    assert actions[..i + 1][..i] == actions[..i];
  }

  /** The blanks that Python strips from text. */
  const SPACES := {
    '\t', '\n', '\U{b}', '\U{c}', '\r', '\U{1c}', '\U{1d}', '\U{1e}', '\U{1f}', ' ', '\U{85}', '\U{a0}', '\U{1680}',
    '\U{2000}', '\U{2001}', '\U{2002}', '\U{2003}', '\U{2004}', '\U{2005}', '\U{2006}', '\U{2007}', '\U{2008}',
    '\U{2009}', '\U{200a}', '\U{2028}', '\U{2029}', '\U{202f}', '\U{205f}', '\U{3000}'
  }

  function LeftStrip(s: string): string {
    if s != "" && s[0] in SPACES then LeftStrip(s[1..]) else s
  }

  function RightStrip(s: string): string {
    if s != "" && s[|s| - 1] in SPACES then RightStrip(s[..|s| - 1]) else s
  }

  function Strip(s: string): string {
    RightStrip(LeftStrip(s))
  }

  predicate IsFinalize(action: string) {
    "finalize" <= Strip(action)
  }

  function FirstFinalize(actions: seq<string>): (r: Option<string>)
    ensures r.Some? ==> r.value in actions && IsFinalize(r.value)
    ensures r.None? ==> forall a :: a in actions ==> !IsFinalize(a)
  {
    if actions == [] then None
    else if IsFinalize(actions[0]) then Some(actions[0])
    else FirstFinalize(actions[1..])
  }

  lemma StrippedFinalize(actions: seq<string>)
    ensures FirstFinalize(actions).Some? ==> Strip(FirstFinalize(actions).value) != ""
  {
  }

  lemma FinalizeSuffix(actions: seq<string>, i: nat)
    requires i < |actions| && !IsFinalize(actions[i])
    ensures FirstFinalize(actions[i..]) == FirstFinalize(actions[i + 1..])
  {
    assert actions[i..][1..] == actions[i + 1..];
  }

  /** The result is the whole text without blanks at its ends. */
  lemma StripIsMiddle(s: string) returns (a: string, b: string)
    ensures s == a + Strip(s) + b && (forall c :: c in a + b ==> c in SPACES)
    ensures Strip(s) != "" ==> Strip(s)[0] !in SPACES && Strip(s)[|Strip(s)| - 1] !in SPACES
  {
    var left, right;
    a, left := LeftIsSuffix(s);
    right, b := RightIsPrefix(LeftStrip(s));
    assert Strip(s) != "" ==> Strip(s)[0] == LeftStrip(s)[0];
  }

  lemma {:induction false} LeftIsSuffix(s: string) returns (a: string, rest: string)
    ensures rest == LeftStrip(s) && s == a + rest && forall c :: c in a ==> c in SPACES
    ensures rest != "" ==> rest[0] !in SPACES
  {
    hide SPACES;
    if s != "" && s[0] in SPACES {
      a, rest := LeftIsSuffix(s[1..]);
      a := [s[0]] + a;
    } else {
      a, rest := "", s;
    }
  }

  lemma {:induction false} RightIsPrefix(s: string) returns (rest: string, b: string)
    ensures rest == RightStrip(s) && s == rest + b && forall c :: c in b ==> c in SPACES
    ensures rest != "" ==> rest[|rest| - 1] !in SPACES
  {
    hide SPACES;
    if s != "" && s[|s| - 1] in SPACES {
      rest, b := RightIsPrefix(s[..|s| - 1]);
      b := b + [s[|s| - 1]];
    } else {
      rest, b := s, "";
    }
  }

  lemma AsciiSpaces(c: char)
    ensures c in SPACES && c as int < 128 <==> 9 <= c as int <= 13 || 28 <= c as int <= 32
  {
  }

  /** A finalize action: blanks, and then the word. */
  ghost predicate SaysFinalize(action: string) {
    exists n :: 0 <= n <= |action| && "finalize" <= action[n..] && forall i :: 0 <= i < n ==> action[i] in SPACES
  }

  lemma FinalizeIsSaid(action: string)
    ensures IsFinalize(action) <==> SaysFinalize(action)
  {
    hide SPACES;
    var a, b := StripIsMiddle(action);
    LettersStay();
    var word := "finalize";
    if IsFinalize(action) {
      assert action[|a|..] == Strip(action) + b;
      assert forall i :: 0 <= i < |a| ==> action[i] == a[i] && a[i] in a + b;
    }
    if n :| 0 <= n <= |action| && word <= action[n..] && forall i :: 0 <= i < n ==> action[i] in SPACES {
      FinalizeFrom(action, a, Strip(action), b, n);
    }
  }

  lemma LettersStay()
    ensures forall c :: c in "finalize" ==> c !in SPACES
  {
  }

  lemma LastIn(word: string, mid: string, b: string)
    requires word <= mid + b && |mid| < |word|
    ensures word[|word| - 1] in b && word[|word| - 1] in word
  {
    assert word[|word| - 1] == (mid + b)[|word| - 1] == b[|word| - 1 - |mid|];
  }

  /** The first character that is no blank is the first of the middle. */
  lemma FirstLetter(s: string, a: string, mid: string, b: string, n: nat)
    requires s == a + mid + b && (forall c :: c in a + b ==> c in SPACES) && (mid != "" ==> mid[0] !in SPACES)
    requires n < |s| && s[n] !in SPACES && forall i :: 0 <= i < n ==> s[i] in SPACES
    ensures n == |a|
  {
    hide SPACES;
    var ab := a + b;
    assert forall i :: 0 <= i < |a| ==> s[i] == ab[i] && ab[i] in ab;
    assert forall i :: |a| + |mid| <= i < |s| ==> s[i] == ab[i - |mid|] && ab[i - |mid|] in ab;
    assert mid != "" ==> s[|a|] == mid[0];
  }

  lemma FinalizeFrom(s: string, a: string, mid: string, b: string, n: nat)
    requires s == a + mid + b && (forall c :: c in a + b ==> c in SPACES) && (mid != "" ==> mid[0] !in SPACES)
    requires n <= |s| && "finalize" <= s[n..] && forall i :: 0 <= i < n ==> s[i] in SPACES
    ensures "finalize" <= mid
  {
    hide SPACES;
    LettersStay();
    var word := "finalize";
    assert s[n] == s[n..][0] == 'f' && 'f' in word;
    FirstLetter(s, a, mid, b, n);
    assert s[n..] == mid + b;
    assert forall c :: c in b ==> c in a + b;
    if |mid| < |word| {
      LastIn(word, mid, b);
      assert false;
    }
  }

  function Text(pairs: seq<(string, string)>): string {
    if pairs == [] then ""
    else
      var last := pairs[|pairs| - 1];
      var line := "action: " + last.0 + "\nobservation: " + last.1;
      if |pairs| == 1 then line else Text(pairs[..|pairs| - 1]) + "\n" + line
  }

  const FORCE_PROMPT :=
    "\nPropose exactly one finalize action from this trajectory: it must end the search now."

  class Tree {
    // The model calls are numbered, so that equal arguments may get different answers.
    const expand: (nat, string, string, nat) -> Proposal
    const evaluate: (nat, string, string) -> Judgement
    const execute: string -> (string, Option<Episode>)
    const explore: (nat, nat) --> real
    const C: real
    const maxDepth: int
    var exitOnComplete: bool
    var calls: nat
    ghost var nodes: set<Node>
    ghost var log: seq<Sample>

    constructor (expand: (nat, string, string, nat) -> Proposal, evaluate: (nat, string, string) -> Judgement,
                 execute: string -> (string, Option<Episode>), explore: (nat, nat) --> real,
                 C: real, maxDepth: int)
      ensures this.expand == expand && this.evaluate == evaluate && this.execute == execute
      ensures this.explore == explore && this.C == C && this.maxDepth == maxDepth
    {
      this.expand, this.evaluate, this.execute, this.explore := expand, evaluate, execute, explore;
      this.C, this.maxDepth, exitOnComplete, calls := C, maxDepth, true, 0;
      nodes, log := {}, [];
    }

    /** `explore(p, c)` stands for sqrt(log(p) / c); it is defined for positive counts only. */
    ghost predicate LogDefined() {
      forall p: nat, c: nat :: p >= 1 && c >= 1 ==> explore.requires(p, c)
    }

    ghost predicate Valid(root: Node)
      reads this`nodes, this`log, nodes`children, nodes`visits, nodes`value
      reads nodes`observation, nodes`episode, nodes`reward
    {
      && Shape(root, nodes) && Stats(nodes, log) && Sampled(nodes, log) && Answers(nodes, execute)
      && root.observation == None
    }

    lemma Parts(root: Node)
      requires Valid(root)
      ensures Shape(root, nodes) && Stats(nodes, log) && Sampled(nodes, log) && Answers(nodes, execute)
    {
    }

    /** Facts about one node of a valid tree. */
    lemma InPlace(root: Node, n: Node)
      requires Valid(root) && n in nodes && Settled(root, nodes)
      ensures root in nodes && n.Chained() && n.Ancestors() <= nodes && (n == root || n.observation.Some?)
      ensures forall c :: c in n.children ==> c in nodes && c.depth == n.depth + 1
    {
      AncestorsInTree(root, nodes, n);
      assert Holds(n, nodes);
      assert forall c :: c in n.children ==> Hangs(c, nodes);
    }

    lemma StillShallow(root: Node, ns: set<Node>, node: Node)
      requires Valid(root) && Shallow(root, ns, maxDepth + 1) && Joined(ns, node.children, nodes)
      requires node in nodes && node.depth <= maxDepth
      ensures Shallow(root, nodes, maxDepth + 1)
    {
      assert Holds(node, nodes);
      assert forall c :: c in node.children ==> Hangs(c, nodes);
    }

    lemma DownFrom(root: Node, node: Node)
      requires Valid(root) && Shallow(root, nodes, maxDepth + 1) && node in nodes
      ensures forall c :: c in node.children ==> c in nodes && node.depth < c.depth <= maxDepth + 1
    {
      assert Holds(node, nodes);
      assert forall c :: c in node.children ==> Hangs(c, nodes);
    }

    lemma EmptyHanded(root: Node)
      requires Valid(root) && NoneCompleted(nodes) && Shallow(root, nodes, maxDepth + 1)
      ensures SetOf([]) == CompletedIn(nodes) && Shallow(root, nodes, maxDepth + 2)
    {
      CompletedWith(nodes, root);
    }

    lemma DepthOf(root: Node, ns: set<Node>, c: Node)
      requires Valid(root) && c in nodes && c.parent != null && c.parent in ns && nodes == ns + {c}
      requires Shallow(root, ns, maxDepth + 1) && c.parent != root
      ensures Shallow(root, nodes, maxDepth + 2)
    {
      assert c != root ==> Hangs(c, nodes);
    }

    lemma StillSettledHere(root: Node)
      requires Settled(root, nodes) && NoneCompleted(nodes)
      ensures Searched(root, nodes, exitOnComplete)
    {
    }

    /** The completed nodes of the whole tree, as collected from the root. */
    lemma WholeTree(root: Node, done: seq<Node>)
      requires Valid(root) && SetOf(done) == SetOf([]) + CompletedIn(Subtree(nodes, root))
      ensures SetOf(done) == CompletedIn(nodes) && (done == [] <==> CompletedIn(nodes) == {})
    {
      RootSubtree(root, nodes);
      SetOfEmpty(done);
      assert SetOf([]) == {};
    }

    lemma GoesOn(root: Node)
      requires Searched(root, nodes, exitOnComplete) && !(exitOnComplete && CompletedIn(nodes) != {})
      ensures Settled(root, nodes) && (exitOnComplete ==> NoneCompleted(nodes))
    {
      if exitOnComplete {
        NothingCompleted(root, nodes, exitOnComplete);
      }
    }

    /** The state before the first rollout. */
    lemma Planted(root: Node)
      requires nodes == {root} && log == [] && root.action == "" && root.depth == 1 && root.parent == null
      requires Unevaluated(root) && root.visits == 0 && root.value == 0.0
      ensures Valid(root) && Barren(root, nodes) && Shallow(root, nodes, maxDepth + 1) && |nodes| == 1
      ensures Settled(root, nodes) && NoneCompleted(nodes) && Searched(root, nodes, exitOnComplete)
    {
      FreshRoot(root, execute);
    }

    lemma AtMostOneSoFar(root: Node)
      requires Searched(root, nodes, exitOnComplete)
      ensures exitOnComplete ==> AtMostOneCompleted(nodes)
    {
    }

    lemma AtMostOneForced(done: seq<Node>)
      requires SetOf(done) == CompletedIn(nodes) && |done| <= 1
      ensures AtMostOneCompleted(nodes)
    {
      forall n | n in nodes && n.episode.Some?
        ensures done != [] && n == done[0]
      {
        assert n in SetOf(done);
      }
    }

    lemma Deeper(root: Node)
      requires Shallow(root, nodes, maxDepth + 1)
      ensures Shallow(root, nodes, maxDepth + 2)
    {
    }

    /** `expand` never proposes more than `b` actions. */
    ghost predicate Bounded(b: nat) {
      forall k, o, t, m :: |Listed(expand(k, o, t, m))| <= b
    }

    function Ucb(parent: Node, child: Node): Score
      requires LogDefined() && (child.visits > 0 ==> parent.visits >= 1)
      reads parent, child
    {
      if child.visits == 0 then Infinite
      else if child.status.Failed? then Finite(0.0)
      else Finite(child.value / child.visits as real + C * explore(parent.visits, child.visits))
    }

    /** A node's reward and status as set by one evaluation. */
    function RewardOf(j: Judgement): real {
      if j.Judged? then j.reward else 0.0
    }

    function StatusOf(j: Judgement, episode: Option<Episode>): Status {
      if episode.Some? then Complete
      else if j.Unavailable? || j.status == "failed" then Failed
      else Incomplete
    }

    /** Backpropagates the reward of `child` and logs the sample. */
    method Record(child: Node, reward: real, ghost root: Node)
      requires Shape(root, nodes) && Stats(nodes, log) && child in nodes
      modifies this`log, nodes`visits, nodes`value
      ensures Stats(nodes, log) && log == old(log) + [Sample(child, reward)]
    {
      hide Mean, Count, Shape;
      AncestorsInTree(root, nodes, child);
      ghost var s := Sample(child, reward);
      child.Backprop(reward, nodes);
      forall n | n in nodes
        ensures n.visits == Count(log + [s], n) && n.value == Mean(log + [s], n)
      {
        RunningMean(log, s, n);
        assert n !in child.Ancestors() ==> n.visits == old(n.visits) && n.value == old(n.value);
      }
      log := log + [s];
    }

    /** The execute step on one node. */
    method Observe(child: Node)
      requires Answers(nodes, execute) && child in nodes
      modifies child`observation, child`episode
      ensures Answers(nodes, execute)
      ensures child.observation == Some(execute(child.action).0) && child.episode == execute(child.action).1
    {
      var (observation, episode) := execute(child.action);
      child.observation := Some(observation);
      child.episode := episode;
    }

    /** The evaluate step: scores the trajectory that ends in `child`. */
    method Evaluate(child: Node, objective: string)
      requires child.Chained()
      modifies this`calls, child`reward, child`status
      ensures calls == old(calls) + 1
      ensures var j := evaluate(old(calls), objective, Text(child.Trajectory()));
              child.reward == RewardOf(j) && child.status == StatusOf(j, child.episode)
    {
      var j := evaluate(calls, objective, Text(child.Trajectory()));
      calls := calls + 1;
      child.reward := RewardOf(j);
      child.status := StatusOf(j, child.episode);
    }

    method ObserveAndEvaluate(child: Node, objective: string, ghost root: Node)
      requires Valid(root) && child in nodes && child != root && child.observation.None?
      modifies this`calls, this`log, child`observation, child`episode, child`reward, child`status
      modifies nodes`visits, nodes`value
      ensures Valid(root) && calls == old(calls) + 1
      ensures child.observation == Some(execute(child.action).0) && child.episode == execute(child.action).1
      ensures child.Chained()
      ensures var j := evaluate(old(calls), objective, Text(child.Trajectory()));
              child.reward == RewardOf(j) && child.status == StatusOf(j, child.episode)
      ensures log == old(log) + [Sample(child, child.reward)]
      ensures JudgedAt(child, old(calls), objective)
    {
      hide Shape, Stats, Answers, Sampled, Node.Trajectory, Text;
      AncestorsInTree(root, nodes, child);
      Unscored(nodes, log, child);
      Observe(child);
      Evaluate(child, objective);
      NewlyScored(nodes, log, child);
      Record(child, child.reward, root);
    }

    /** Hangs a fresh node under its parent. */
    method Attach(node: Node, child: Node, ghost root: Node)
      requires Shape(root, nodes) && node in nodes
      requires child !in nodes && child.children == [] && child.action != ""
      requires child.parent == node && child.depth == node.depth + 1
      modifies this`nodes, node`children
      ensures Shape(root, nodes) && nodes == old(nodes) + {child}
      ensures node.children == old(node.children) + [child]
    {
      DistinctAppend(node.children, child);
      node.children := node.children + [child];
      ghost var grown := nodes + {child};
      forall n | n in grown
        ensures Holds(n, grown)
      {
        assert n != node && n != child ==> old(Holds(n, nodes));
      }
      forall n | n in grown && n != root
        ensures Hangs(n, grown)
      {
        assert n != child ==> old(Hangs(n, nodes));
      }
      nodes := nodes + {child};
    }

    /** Appends one unevaluated child. */
    method AddChild(node: Node, action: string, ghost root: Node) returns (child: Node)
      requires Valid(root) && node in nodes && action != ""
      modifies this`nodes, node`children
      ensures Valid(root) && fresh(child) && nodes == old(nodes) + {child}
      ensures node.children == old(node.children) + [child]
      ensures child.action == action && child.parent == node && Unevaluated(child)
    {
      hide Shape, Stats, Answers, Sampled, Node.Ancestors, Count, Mean, Scored;
      child := new Node(action, node.depth + 1, node);
      ghost var grown := nodes + {child};
      FreshUncounted(root, nodes, log, child);
      GrowUnevaluated(nodes, log, execute, child);
      Attach(node, child, root);
      assert nodes == grown;
      assert Sampled(grown, log) && Stats(grown, log) && Answers(grown, execute);
    }

    /** Appends one more child to those joined to `ns` so far. */
    method AddNext(node: Node, action: string, ghost ns: set<Node>, ghost root: Node)
      requires Valid(root) && node in nodes && action != "" && Joined(ns, node.children, nodes)
      modifies this`nodes, node`children
      ensures Valid(root) && node in nodes && Joined(ns, node.children, nodes) && |nodes| == |old(nodes)| + 1
      ensures Names(node.children) == Names(old(node.children)) + [action]
      ensures exists c :: fresh(c) && Unevaluated(c) && node.children == old(node.children) + [c]
    {
      hide Valid, Joined, Unevaluated, Names, Node.Chained, Node.Ancestors;
      ghost var cs, before := node.children, nodes;
      var child := AddChild(node, action, root);
      JoinOne(ns, cs, before, child);
      NamesAppend(cs, child);
    }

    /** The children made from one proposal. */
    method AddChildren(node: Node, actions: seq<string>, ghost root: Node)
      requires Valid(root) && node in nodes && node.children == []
      modifies this`nodes, node`children
      ensures Valid(root)
      ensures Names(node.children) == Kept(actions) && |nodes| == |old(nodes)| + |node.children|
      ensures Joined(old(nodes), node.children, nodes)
      ensures forall c :: c in node.children ==> fresh(c) && Unevaluated(c)
    {
      hide Valid, Kept, Joined, Unevaluated, Names, Node.Chained, Node.Ancestors;
      NoneJoined(nodes);
      NoNames();
      var seen: set<string> := {};
      for i := 0 to |actions|
        invariant Valid(root) && node in nodes
        invariant forall a :: a in seen <==> a in Kept(actions[..i])
        invariant Names(node.children) == Kept(actions[..i])
        invariant |nodes| == |old(nodes)| + |node.children|
        invariant Joined(old(nodes), node.children, nodes)
        invariant forall c :: c in node.children ==> fresh(c) && Unevaluated(c)
      {
        KeepOne(actions, i);
        if actions[i] != "" && actions[i] !in seen {
          seen := seen + {actions[i]};
          AddNext(node, actions[i], old(nodes), root);
        }
      }
      assert actions[..|actions|] == actions;
    }

    /** The node's reward and status are those of one evaluation of its trajectory. */
    ghost predicate JudgedAt(c: Node, call: nat, objective: string)
      reads c`reward, c`status, c`episode, c.Ancestors()`observation
    {
      c.Chained() &&
      var j := evaluate(call, objective, Text(c.Trajectory()));
      c.reward == RewardOf(j) && c.status == StatusOf(j, c.episode)
    }

    /** Completing takes an episode, and only that; the call sets the reward, and fails a node without one. */
    lemma JudgedMeans(c: Node, call: nat, objective: string)
      requires JudgedAt(c, call, objective)
      ensures c.Chained() && (c.status.Complete? <==> c.episode.Some?)
      ensures match evaluate(call, objective, Text(c.Trajectory()))
              case Unavailable => c.reward == 0.0 && (c.episode.None? ==> c.status.Failed?)
              case Judged(reward, status) =>
                c.reward == reward && (c.episode.None? ==> (c.status.Failed? <==> status == "failed"))
    {
    }

    /** The nodes were judged by consecutive calls. */
    ghost predicate Judged(cs: seq<Node>, first: nat, objective: string)
      reads SetOf(cs)`reward, SetOf(cs)`status, SetOf(cs)`episode, Above(cs)`observation
    {
      forall j :: 0 <= j < |cs| ==> JudgedAt(cs[j], first + j, objective)
    }

    /** Evaluates the next waiting one of a node's children. */
    method EvaluateNext(cs: seq<Node>, i: nat, c: Node, objective: string, ghost root: Node)
      requires Valid(root) && i < |cs| && c == cs[i] && Distinct(cs) && Evaluated(cs[..i]) && Waiting(cs[i..])
      requires forall n :: n in cs ==> n in nodes && n != root
      modifies this`calls, this`log, c`observation, c`episode, c`reward, c`status
      modifies nodes`visits, nodes`value
      ensures Valid(root) && calls == old(calls) + 1 && |log| == |old(log)| + 1
      ensures Evaluated(cs[..i + 1]) && Waiting(cs[i + 1..])
      ensures old(NoEpisode(cs[..i])) ==> NoEpisode(cs[..i])
      ensures JudgedAt(c, old(calls), objective)
    {
      hide Valid, Waiting, Evaluated, NoEpisode, StatusOf, RewardOf, Text, Node.Trajectory, Node.Chained,
        Node.Ancestors;
      NextWaiting(cs, i);
      assert cs[i] !in cs[..i] && cs[i] !in cs[i + 1..];
      ObserveAndEvaluate(c, objective, root);
      NextEvaluated(cs, i);
    }

    lemma NoneJudged(first: nat, objective: string)
      ensures Judged([], first, objective)
    {
    }

    lemma AboveInTree(cs: seq<Node>, root: Node)
      requires Valid(root) && forall n :: n in cs ==> n in nodes
      ensures SetOf(cs) <= nodes && Above(cs) <= nodes
    {
      forall a | a in Above(cs)
        ensures a in nodes
      {
        var n :| n in cs && a in n.Ancestors();
        AncestorsInTree(root, nodes, n);
      }
    }

    /** The same, which leaves the judgements so far as they are. */
    method JudgeNext(cs: seq<Node>, i: nat, c: Node, ghost first: nat, objective: string, ghost root: Node)
      requires Valid(root) && i < |cs| && c == cs[i] && Distinct(cs) && Evaluated(cs[..i]) && Waiting(cs[i..])
      requires SameDepth(cs) && forall n :: n in cs ==> n in nodes && n != root
      requires calls == first + i && Judged(cs[..i], first, objective)
      modifies this`calls, this`log, c`observation, c`episode, c`reward, c`status
      modifies nodes`visits, nodes`value
      ensures Valid(root) && calls == old(calls) + 1 && |log| == |old(log)| + 1
      ensures Evaluated(cs[..i + 1]) && Waiting(cs[i + 1..])
      ensures old(NoEpisode(cs[..i])) ==> NoEpisode(cs[..i])
      ensures Judged(cs[..i + 1], first, objective)
    {
      hide Valid, Waiting, Evaluated, Distinct, NoEpisode, Judged, JudgedAt, SameDepth, Above, SetOf, Node.Ancestors;
      NotAbove(cs, i);
      AboveInTree(cs[..i], root);
      EvaluateNext(cs, i, c, objective, root);
      assert cs[..i + 1] == cs[..i] + [c];
      JudgedMore(cs[..i], c, first, objective);
    }

    lemma JudgedMore(cs: seq<Node>, c: Node, first: nat, objective: string)
      requires Judged(cs, first, objective) && JudgedAt(c, first + |cs|, objective)
      ensures Judged(cs + [c], first, objective)
    {
    }

    /** Evaluates the children in order; with exit-on-complete it stops at the first episode. */
    method EvaluateChildren(cs: seq<Node>, objective: string, ghost kids: set<Node>, ghost root: Node)
      returns (ghost k: nat)
      requires Valid(root) && Distinct(cs) && Waiting(cs) && SameDepth(cs)
      requires forall c :: c in cs ==> c in kids && c in nodes && c != root
      modifies this`calls, this`log, kids`observation, kids`episode
      modifies kids`reward, kids`status, nodes`visits, nodes`value
      ensures Valid(root) && StoppedAt(cs, k, exitOnComplete)
      ensures calls == old(calls) + k && |log| == |old(log)| + k
      ensures k <= |cs| && Judged(cs[..k], old(calls), objective)
    {
      hide Valid, Waiting, Evaluated, Distinct, NoEpisode, StoppedAt, Judged, JudgedAt, SameDepth, Above;
      NoneJudged(calls, objective);
      assert cs[..0] == [];
      NothingYet(cs);
      k := 0;
      for i := 0 to |cs|
        invariant Valid(root) && k == i
        invariant calls == old(calls) + i && |log| == |old(log)| + i
        invariant Judged(cs[..i], old(calls), objective)
        invariant Evaluated(cs[..i]) && Waiting(cs[i..]) && (exitOnComplete ==> NoEpisode(cs[..i]))
      {
        JudgeNext(cs, i, cs[i], old(calls), objective, root);
        k := i + 1;
        if exitOnComplete && cs[i].episode.Some? {
          StopsHere(cs, i);
          return;
        }
        NextWithout(cs, i);
      }
      RanThrough(cs, exitOnComplete);
    }

    /** `child` is the first child of `parent` with the greatest UCB value. */
    ghost predicate FirstBest(parent: Node, child: Node)
      reads parent, parent.children
    {
      && LogDefined()
      && (forall c :: c in parent.children ==> c.visits > 0 ==> parent.visits >= 1)
      && (exists k :: 0 <= k < |parent.children| && parent.children[k] == child
            && (forall j :: 0 <= j < |parent.children| ==>
              AtMost(Ucb(parent, parent.children[j]), Ucb(parent, child)))
            && (forall j :: 0 <= j < k ==> !AtMost(Ucb(parent, child), Ucb(parent, parent.children[j]))))
    }

    /**
     * The choice by the children's statistics: the first unvisited child, if there is one;
     * otherwise none has a greater mean with its exploration added, failed children counting as 0.
     */
    ghost predicate Chosen(parent: Node, best: Node)
      reads parent, parent.children
    {
      && LogDefined() && best in parent.children
      && (best.visits == 0 ==> exists k :: 0 <= k < |parent.children| && parent.children[k] == best
                                           && forall j :: 0 <= j < k ==> parent.children[j].visits > 0)
      && (best.visits > 0 ==>
            && parent.visits >= 1 && (forall d :: d in parent.children ==> d.visits > 0)
            && (best.status.Failed? ==>
                  forall d :: d in parent.children && !d.status.Failed? ==>
                                d.value / d.visits as real + C * explore(parent.visits, d.visits) <= 0.0)
            && (!best.status.Failed? ==>
                  var top := best.value / best.visits as real + C * explore(parent.visits, best.visits);
                  forall d :: d in parent.children ==>
                                if d.status.Failed? then 0.0 <= top
                                else d.value / d.visits as real + C * explore(parent.visits, d.visits) <= top))
    }

    lemma FirstBestIsChosen(parent: Node, best: Node)
      requires FirstBest(parent, best)
      ensures Chosen(parent, best)
    {
      var k :| 0 <= k < |parent.children| && parent.children[k] == best
        && (forall j :: 0 <= j < |parent.children| ==> AtMost(Ucb(parent, parent.children[j]), Ucb(parent, best)))
        && (forall j :: 0 <= j < k ==> !AtMost(Ucb(parent, best), Ucb(parent, parent.children[j])));
      forall d | d in parent.children
        ensures AtMost(Ucb(parent, d), Ucb(parent, best))
      {
        var j :| 0 <= j < |parent.children| && parent.children[j] == d;
      }
    }

    /** Of two equally often visited children that did not fail, one with a lower value is never chosen. */
    lemma LowerIsNotChosen(parent: Node, best: Node, d: Node)
      requires Chosen(parent, best) && d in parent.children && !best.status.Failed? && !d.status.Failed?
      requires best.visits == d.visits > 0
      ensures d.value <= best.value
    {
      var n := d.visits as real;
      assert d.value / n <= best.value / n;
      assert d.value == d.value / n * n && best.value == best.value / n * n;
    }

    /** The first best child, which is also the one that the statistics choose. */
    ghost predicate Picks(parent: Node, best: Node)
      reads parent, parent.children
    {
      FirstBest(parent, best) && Chosen(parent, best)
    }

    method BestChild(node: Node, ghost root: Node) returns (best: Node)
      requires Valid(root) && LogDefined() && node in nodes && node.children != []
      ensures best in node.children && Picks(node, best)
    {
      forall c | c in node.children
        ensures c.visits > 0 ==> node.visits >= 1
      {
        ParentVisited(log, node, c);
      }
      var k := 0;
      for i := 1 to |node.children|
        invariant 0 <= k < i
        invariant forall j :: 0 <= j < i ==> AtMost(Ucb(node, node.children[j]), Ucb(node, node.children[k]))
        invariant forall j :: 0 <= j < k ==> !AtMost(Ucb(node, node.children[k]), Ucb(node, node.children[j]))
      {
        if !AtMost(Ucb(node, node.children[i]), Ucb(node, node.children[k])) {
          k := i;
        }
      }
      best := node.children[k];
      FirstBestIsChosen(node, best);
    }

    /** The expand step; a failing model call proposes nothing. */
    method Propose(node: Node, objective: string, prompt: string, nBranches: nat) returns (actions: seq<string>)
      requires node.Chained()
      modifies this`calls
      ensures calls == old(calls) + 1
      ensures actions == old(Proposed(calls, node, objective, prompt, nBranches))
      ensures actions == match expand(old(calls), objective, Text(node.Trajectory()) + prompt, nBranches)
                         case NoAnswer => []
                         case Actions(proposed) => proposed
    {
      actions := Proposed(calls, node, objective, prompt, nBranches);
      calls := calls + 1;
    }

    function Proposed(call: nat, node: Node, objective: string, prompt: string, nBranches: nat): (r: seq<string>)
      requires node.Chained()
      reads node.Ancestors()`observation
      ensures forall b: nat :: Bounded(b) ==> |r| <= b
    {
      Listed(expand(call, objective, Text(node.Trajectory()) + prompt, nBranches))
    }

    /** A childless node whose expansion gave no action fails. */
    method GiveUp(node: Node, ghost root: Node)
      requires Valid(root) && node in nodes && node.children == []
      requires Settled(root, nodes) && (exitOnComplete ==> NoneCompleted(nodes)) && Barren(root, nodes - {node})
      modifies node`status
      ensures Valid(root) && Barren(root, nodes) && Searched(root, nodes, exitOnComplete) && node.status.Failed?
    {
      node.status := Failed;
    }

    /** Evaluates the children `node` just got. */
    method EvaluateKids(node: Node, objective: string, ghost ns: set<Node>, ghost root: Node) returns (ghost k: nat)
      requires Valid(root) && Joined(ns, node.children, nodes) && root in ns && node in ns
      requires forall c :: c in node.children ==> c !in ns && Unevaluated(c)
      requires Settled(root, ns) && (exitOnComplete ==> NoneCompleted(ns)) && Barren(root, ns - {node})
      requires !node.status.Failed?
      modifies this`calls, this`log, (nodes - ns)`observation, (nodes - ns)`episode
      modifies (nodes - ns)`reward, (nodes - ns)`status, nodes`visits, nodes`value
      ensures Valid(root) && Barren(root, nodes) && Searched(root, nodes, exitOnComplete)
      ensures StoppedAt(node.children, k, exitOnComplete) && calls == old(calls) + k && |log| == |old(log)| + k
      ensures k <= |node.children| && Judged(node.children[..k], old(calls), objective)
    {
      hide Valid, Joined, Barren, Settled, NoneCompleted, Searched, Unevaluated, Leaves, Waiting, Distinct, StoppedAt,
        Shape, Stats, Answers, Sampled, Judged, JudgedAt, SameDepth, SetOf, Above, Node.Ancestors;
      OnlyKids(ns, node.children, nodes);
      SettledAt(root, ns, node);
      Parts(root);
      FreshKids(root, ns, node, nodes);
      AllWaiting(node.children);
      k := EvaluateChildren(node.children, objective, nodes - ns, root);
      BarrenWith(root, ns, node, nodes);
      SearchedAfter(root, ns, node.children, k, nodes, exitOnComplete);
    }

    /** What follows the attachment: no child means failure, otherwise the children are evaluated. */
    method SettleKids(node: Node, objective: string, ghost ns: set<Node>, ghost root: Node) returns (ghost k: nat)
      requires Valid(root) && Joined(ns, node.children, nodes) && root in ns && node in ns
      requires forall c :: c in node.children ==> c !in ns && Unevaluated(c)
      requires Settled(root, ns) && (exitOnComplete ==> NoneCompleted(ns)) && Barren(root, ns - {node})
      requires !node.status.Failed? && (node == root || node.observation.Some?)
      modifies this`calls, this`log, (nodes - ns)`observation, (nodes - ns)`episode
      modifies (nodes - ns)`reward, (nodes - ns)`status, nodes`visits, nodes`value, node`status
      ensures Valid(root) && Barren(root, nodes) && Searched(root, nodes, exitOnComplete)
      ensures node.status == if node.children == [] then Failed else old(node.status)
      ensures StoppedAt(node.children, k, exitOnComplete) && calls == old(calls) + k && |log| == |old(log)| + k
      ensures k <= |node.children| && Judged(node.children[..k], old(calls), objective)
    {
      hide Valid, Joined, Barren, Settled, NoneCompleted, Searched, Unevaluated, StoppedAt, Judged;
      if node.children == [] {
        NothingJoined(ns, nodes);
        NothingStopped(exitOnComplete);
        GiveUp(node, root);
        NoneJudged(old(calls), objective);
        assert node.children[..0] == [];
        k := 0;
      } else {
        k := EvaluateKids(node, objective, ns, root);
      }
    }

    lemma NothingStopped(exitOnComplete: bool)
      ensures StoppedAt([], 0, exitOnComplete)
    {
    }

    /** Expands a childless node: proposes, attaches and evaluates its children. */
    method ExpandLeaf(node: Node, objective: string, nBranches: nat, ghost root: Node) returns (ghost k: nat)
      requires Valid(root) && Barren(root, nodes) && Settled(root, nodes) && (exitOnComplete ==> NoneCompleted(nodes))
      requires node in nodes && root in nodes && node.children == [] && node.Chained()
      requires !node.status.Failed? && (node == root || node.observation.Some?)
      modifies this`calls, this`log, this`nodes, node`children, node`status, nodes`visits, nodes`value
      ensures Valid(root) && Barren(root, nodes) && Searched(root, nodes, exitOnComplete)
      ensures Joined(old(nodes), node.children, nodes) && |nodes| == |old(nodes)| + |node.children|
      ensures forall c :: c in node.children ==> fresh(c)
      ensures Names(node.children) == Kept(old(Proposed(calls, node, objective, "", nBranches)))
      ensures node.status == if node.children == [] then Failed else old(node.status)
      ensures StoppedAt(node.children, k, exitOnComplete) && calls == old(calls) + 1 + k && |log| == |old(log)| + k
      ensures k <= |node.children| && Judged(node.children[..k], old(calls) + 1, objective)
    {
      hide Valid, Joined, Barren, Settled, NoneCompleted, Searched, Proposed, Kept, Unevaluated, Names, StoppedAt,
        Judged, Text, Node.Trajectory, Node.Chained, Node.Ancestors;
      ghost var ns := nodes;
      BarrenBut(root, ns, node);
      var actions := Propose(node, objective, "", nBranches);
      AddChildren(node, actions, root);
      OnlyKids(ns, node.children, nodes);
      k := SettleKids(node, objective, ns, root);
    }

    ghost predicate Stops(n: Node)
      reads n`status, n`children
    {
      n.status.Failed? || n.depth > maxDepth || n.children == []
    }

    /** Following the best UCB child from `n` ends at `leaf`. */
    ghost predicate Selects(n: Node, leaf: Node)
      requires n in nodes
      reads this`nodes, nodes
      decreases maxDepth + 1 - n.depth
    {
      if Stops(n) then leaf == n
      else
        && (forall c :: c in n.children ==> c in nodes)
        && exists best :: best in n.children && best.depth == n.depth + 1 && Picks(n, best) && Selects(best, leaf)
    }

    /** A selected node that is failed or too deep stays or becomes failed. */
    method MarkFailed(node: Node, ghost root: Node)
      requires Valid(root) && Barren(root, nodes) && Shallow(root, nodes, maxDepth + 1) && node in nodes
      requires Settled(root, nodes) && (exitOnComplete ==> NoneCompleted(nodes))
      requires node.status.Failed? || node.depth > maxDepth
      modifies node`status
      ensures Valid(root) && Barren(root, nodes) && Searched(root, nodes, exitOnComplete)
      ensures node.status.Failed? && node.children == []
    {
      hide Valid, Barren, Settled, NoneCompleted, Searched;
      Parts(root);
      ChildlessAtEnd(root, nodes, node, maxDepth);
      BarrenBut(root, nodes, node);
      node.status := Failed;
      NoneJoined(nodes);
      BarrenWith(root, nodes, node, nodes);
      StillSettled(root, nodes, nodes, exitOnComplete);
    }

    /**
     * What a rollout does at the node it stops at: fail it, or give it children and judge them. The
     * last arguments are the node's status, the nodes, calls and samples, and the proposal before.
     */
    ghost predicate EndsAt(leaf: Node, k: nat, objective: string, status0: Status, nodes0: set<Node>, calls0: nat,
                           log0: seq<Sample>, proposed: seq<string>)
      reads this`nodes, this`calls, this`log, this`exitOnComplete, leaf, leaf.children, Above(leaf.children)
    {
      if status0.Failed? || leaf.depth > maxDepth
      then leaf.status.Failed? && leaf.children == [] && nodes == nodes0 && log == log0 && calls == calls0
      else Names(leaf.children) == Kept(proposed)
           && Joined(nodes0, leaf.children, nodes) && |nodes| == |nodes0| + |leaf.children|
           && leaf.status == (if leaf.children == [] then Failed else status0)
           && StoppedAt(leaf.children, k, exitOnComplete) && calls == calls0 + 1 + k && |log| == |log0| + k
           && k <= |leaf.children| && Judged(leaf.children[..k], calls0 + 1, objective)
    }

    /** The end of a rollout, at a node that is failed, too deep or childless. */
    method RolloutEnd(leaf: Node, objective: string, nBranches: nat, ghost root: Node) returns (ghost k: nat)
      requires Valid(root) && Barren(root, nodes) && Shallow(root, nodes, maxDepth + 1)
      requires Settled(root, nodes) && (exitOnComplete ==> NoneCompleted(nodes)) && leaf in nodes && Stops(leaf)
      modifies this`calls, this`log, this`nodes
      modifies leaf`children, leaf`status, nodes`visits, nodes`value
      ensures Valid(root) && Barren(root, nodes) && Shallow(root, nodes, maxDepth + 1)
      ensures Searched(root, nodes, exitOnComplete)
      ensures leaf.Chained() && leaf.Ancestors() <= old(nodes)
      ensures EndsAt(leaf, k, objective, old(leaf.status), old(nodes), old(calls), old(log),
                     old(Proposed(calls, leaf, objective, "", nBranches)))
      ensures forall n :: n in nodes ==> n in old(nodes) || fresh(n)
    {
      hide Valid, Barren, Settled, NoneCompleted, Searched, Shallow, Joined, Names, Kept, Proposed, StoppedAt, Judged,
        Node.Chained, Node.Ancestors;
      InPlace(root, leaf);
      if leaf.status.Failed? || leaf.depth > maxDepth {
        k := 0;
        MarkFailed(leaf, root);
      } else {
        ghost var ns := nodes;
        k := ExpandLeaf(leaf, objective, nBranches, root);
        OnlyKids(ns, leaf.children, nodes);
        StillShallow(root, ns, leaf);
      }
    }

    /**
     * One rollout: walks down the best UCB children and expands at most one node, `leaf`.
     * The recursion ends because every step goes one level deeper.
     */
    method Rollout(node: Node, objective: string, nBranches: nat, ghost root: Node)
      returns (ghost leaf: Node, ghost k: nat)
      requires Valid(root) && Barren(root, nodes) && Shallow(root, nodes, maxDepth + 1) && LogDefined()
      requires Settled(root, nodes) && (exitOnComplete ==> NoneCompleted(nodes)) && node in nodes
      modifies this`calls, this`log, this`nodes
      modifies nodes`children, nodes`status, nodes`visits, nodes`value
      decreases maxDepth + 1 - node.depth
      ensures Valid(root) && Barren(root, nodes) && Shallow(root, nodes, maxDepth + 1)
      ensures Searched(root, nodes, exitOnComplete)
      ensures leaf in old(nodes) && leaf.Chained() && leaf.Ancestors() <= old(nodes) && old(Selects(node, leaf))
      ensures EndsAt(leaf, k, objective, old(leaf.status), old(nodes), old(calls), old(log),
                     old(Proposed(calls, leaf, objective, "", nBranches)))
      ensures forall n :: n in old(nodes) && n != leaf ==>
        n.children == old(n.children) && n.status == old(n.status)
      ensures forall n :: n in nodes ==> n in old(nodes) || fresh(n)
    {
      hide Valid, Barren, Settled, NoneCompleted, Searched, Shallow, Picks, EndsAt, Proposed, Node.Chained,
        Node.Ancestors;
      InPlace(root, node);
      if node.status.Failed? || node.depth > maxDepth || node.children == [] {
        leaf := node;
        k := RolloutEnd(node, objective, nBranches, root);
        return;
      }
      var best := BestChild(node, root);
      leaf, k := Rollout(best, objective, nBranches, root);
    }

    /** Adds the nodes with an episode in the subtree of `node`, in preorder. */
    method Completed(node: Node, acc: seq<Node>, ghost root: Node) returns (r: seq<Node>)
      requires Valid(root) && Shallow(root, nodes, maxDepth + 1) && node in nodes
      decreases maxDepth + 1 - node.depth
      ensures SetOf(r) == SetOf(acc) + CompletedIn(Subtree(nodes, node))
      ensures Shape(root, nodes) && r == acc + DoneBelow(root, nodes, node, maxDepth + 1)
    {
      hide Valid, SetOf, CompletedIn, Subtree, Under, Shape, Shallow, DoneBelow, DoneFrom, Node.Ancestors;
      Parts(root);
      DoneStart(root, nodes, node, maxDepth + 1);
      SubtreeSplit(root, nodes, node);
      CompletedUnion({node}, Under(nodes, node.children));
      CompletedOne(node);
      UnderNone(nodes);
      CompletedNone();
      r := acc;
      if node.episode.Some? {
        r := r + [node];
        SetOfAppend(acc, node);
      }
      ghost var cs := node.children;
      assert cs[..0] == [];
      for i := 0 to |node.children|
        invariant Under(nodes, cs[..i]) <= nodes
        invariant acc + DoneBelow(root, nodes, node, maxDepth + 1) == r + DoneFrom(root, nodes, node, i, maxDepth + 1)
        invariant SetOf(r) == SetOf(acc) + CompletedIn({node}) + CompletedIn(Under(nodes, cs[..i]))
      {
        DownFrom(root, node);
        assert cs[..i + 1] == cs[..i] + [cs[i]];
        UnderOne(nodes, cs[..i], cs[i]);
        DoneStep(root, nodes, node, i, maxDepth + 1);
        r := Completed(node.children[i], r, root);
        CompletedUnion(Under(nodes, cs[..i]), Subtree(nodes, cs[i]));
      }
      assert cs[..|cs|] == cs;
    }

    /** The first of the nodes with the greatest reward. */
    ghost predicate FirstHighest(ns: seq<Node>, best: Node)
      reads ns`reward, best`reward
    {
      exists k :: 0 <= k < |ns| && ns[k] == best
                  && (forall j :: 0 <= j < |ns| ==> ns[j].reward <= best.reward)
                  && (forall j :: 0 <= j < k ==> ns[j].reward < best.reward)
    }

    lemma FoundInPreorder(root: Node, done: seq<Node>)
      requires Shape(root, nodes) && Shallow(root, nodes, maxDepth + 1)
      requires done == DoneBelow(root, nodes, root, maxDepth + 1)
      ensures InPreorder(root, done)
    {
    }

    method MaxReward(ns: seq<Node>) returns (best: Node)
      requires ns != []
      ensures FirstHighest(ns, best) && best in ns && forall n :: n in ns ==> n.reward <= best.reward
    {
      var k := 0;
      for i := 1 to |ns|
        invariant 0 <= k < i && forall j :: 0 <= j < i ==> ns[j].reward <= ns[k].reward
        invariant forall j :: 0 <= j < k ==> ns[j].reward < ns[k].reward
      {
        if ns[k].reward < ns[i].reward {
          k := i;
        }
      }
      best := ns[k];
    }

    /** The first node with the greatest reward, in the worklist's order. */
    ghost predicate FirstSeen(root: Node, best: Node)
      reads this`nodes, nodes, best
    {
      && Shape(root, nodes) && Shallow(root, nodes, maxDepth + 1)
      && var found := SeenUpTo(root, nodes, root, |root.children|, maxDepth + 1);
         SetOf(found) <= nodes && FirstHighest(found, best)
    }

    /** The completed nodes in preorder. */
    ghost predicate InPreorder(root: Node, done: seq<Node>)
      reads this`nodes, nodes
    {
      Shape(root, nodes) && Shallow(root, nodes, maxDepth + 1) && done == DoneBelow(root, nodes, root, maxDepth + 1)
    }

    /** All evaluated nodes below the root, in the order in which a worklist comes to them. */
    method SeenNodes(root: Node) returns (found: seq<Node>)
      requires Valid(root) && Shallow(root, nodes, maxDepth + 1)
      ensures SetOf(found) == EvaluatedIn(nodes - {root}) && AsSeen(root, found)
    {
      hide Valid, SetOf, EvaluatedIn, Under, Incomparable, Shape, Shallow, SeenBelow, SeenUpTo, SeenOn, Node.Ancestors;
      RootStays(root);
      Parts(root);
      ghost var d := maxDepth + 1;
      ghost var order := SeenUpTo(root, nodes, root, |root.children|, d);
      SetOfNone();
      SeenPush(root, nodes, [], root, |root.children|, d);
      assert [] + root.children[..|root.children|] == root.children;
      NothingOn(root, nodes, d);
      StartBelow(root, nodes);
      found := [];
      var stack := root.children;
      ghost var visited: set<Node> := {};
      while stack != []
        invariant Incomparable(stack) && SetOf(stack) <= nodes
        invariant visited !! Under(nodes, stack) && visited + Under(nodes, stack) == nodes - {root}
        invariant SetOf(found) == EvaluatedIn(visited)
        invariant found + SeenOn(root, nodes, stack, d) == order
        decreases Under(nodes, stack)
      {
        var node := stack[|stack| - 1];
        ghost var rest := stack[..|stack| - 1];
        assert stack == rest + [node];
        PopPush(root, nodes, rest, node);
        SeenRound(root, nodes, rest, node, d);
        EvaluatedUnion(visited, node);
        stack := stack[..|stack| - 1];
        if node.observation.Some? {
          SetOfAppend(found, node);
          found := found + [node];
        }
        stack := stack + node.children;
        visited := visited + {node};
      }
      UnderNone(nodes);
      assert found == order;
      assert visited == nodes - {root};
    }

    /** The evaluated nodes in the worklist's order. */
    ghost predicate AsSeen(root: Node, found: seq<Node>)
      reads this`nodes, nodes`children, nodes`observation
    {
      && Shape(root, nodes) && Shallow(root, nodes, maxDepth + 1)
      && found == SeenUpTo(root, nodes, root, |root.children|, maxDepth + 1)
    }

    /** The highest-reward evaluated node below the root: the first such node that a worklist comes to. */
    method BestPartial(root: Node) returns (best: Node?)
      requires Valid(root) && Shallow(root, nodes, maxDepth + 1)
      ensures best == null <==> EvaluatedIn(nodes - {root}) == {}
      ensures best != null ==> Highest(nodes - {root}, best) && FirstSeen(root, best)
    {
      hide Valid, SetOf, EvaluatedIn, Shallow, AsSeen, FirstHighest, FirstSeen;
      var found := SeenNodes(root);
      SetOfEmpty(found);
      if found == [] {
        best := null;
      } else {
        best := MaxReward(found);
        SetOfMember(found, best);
        BestIsFirst(found, best, root);
        forall n | n in EvaluatedIn(nodes - {root})
          ensures n.reward <= best.reward
        {
          SetOfMember(found, n);
        }
      }
    }

    lemma BestIsFirst(found: seq<Node>, best: Node, root: Node)
      requires SetOf(found) == EvaluatedIn(nodes - {root}) && AsSeen(root, found) && FirstHighest(found, best)
      ensures FirstSeen(root, best)
    {
    }

    /** The first finalize action, if there is one. */
    method FindFinalize(actions: seq<string>) returns (action: Option<string>)
      ensures action == FirstFinalize(actions)
      ensures action.None? ==> forall i :: 0 <= i < |actions| ==> !SaysFinalize(actions[i])
      ensures action.Some? ==> exists i :: 0 <= i < |actions| && actions[i] == action.value && SaysFinalize(actions[i])
                                           && forall j :: 0 <= j < i ==> !SaysFinalize(actions[j])
    {
      hide IsFinalize, SaysFinalize;
      assert actions[0..] == actions;
      for i := 0 to |actions|
        invariant FirstFinalize(actions) == FirstFinalize(actions[i..])
        invariant forall j :: 0 <= j < i ==> !SaysFinalize(actions[j])
      {
        FinalizeIsSaid(actions[i]);
        if IsFinalize(actions[i]) {
          return Some(actions[i]);
        }
        FinalizeSuffix(actions, i);
      }
      action := None;
    }

    /** The forced child: a finalize below `top`, evaluated like any other. */
    method EvaluateForced(top: Node, action: string, objective: string, ghost root: Node) returns (child: Node)
      requires Valid(root) && Inner(root, nodes) && NoneCompleted(nodes) && Shallow(root, nodes, maxDepth + 1)
      requires top in nodes && top != root && top.observation.Some? && action != ""
      modifies this`calls, this`log, this`nodes, nodes`children, nodes`visits, nodes`value
      ensures Valid(root) && Inner(root, nodes) && Shallow(root, nodes, maxDepth + 2)
      ensures fresh(child) && nodes == old(nodes) + {child} && child.parent == top && child.action == action
      ensures CompletedIn(nodes) == if child.episode.Some? then {child} else {}
      ensures JudgedAt(child, old(calls), objective)
    {
      hide Valid, Inner, NoneCompleted, Shallow, CompletedIn, Node.Chained;
      ghost var ns := nodes;
      InnerBut(root, ns, top);
      child := AddChild(top, action, root);
      ObserveAndEvaluate(child, objective, root);
      InnerWith(root, ns, top, child);
      CompletedWith(ns, child);
      DepthOf(root, ns, child);
    }

    /** A last finalize on the best partial trajectory, when the rollouts completed nothing. */
    method ForceFinalize(root: Node, objective: string)
      returns (done: seq<Node>, ghost best: Node?, ghost child: Node?)
      requires Valid(root) && Inner(root, nodes) && NoneCompleted(nodes) && Settled(root, nodes)
      requires Shallow(root, nodes, maxDepth + 1)
      modifies this`calls, this`log, this`nodes, nodes`children, nodes`visits, nodes`value
      ensures Valid(root) && Inner(root, nodes) && Shallow(root, nodes, maxDepth + 2)
      ensures SetOf(done) == CompletedIn(nodes)
      ensures best == null <==> old(EvaluatedIn(nodes - {root})) == {}
      ensures best != null ==> best in old(nodes) && best.Chained() && best.Ancestors() <= old(nodes)
      ensures best != null ==> old(Highest(nodes - {root}, best)) && old(FirstSeen(root, best))
      ensures child != null <==>
        best != null && FirstFinalize(old(Proposed(calls, best, objective, FORCE_PROMPT, 1))).Some?
      ensures child != null ==>
        && fresh(child) && nodes == old(nodes) + {child} && child.parent == best
        && child.action == Strip(FirstFinalize(old(Proposed(calls, best, objective, FORCE_PROMPT, 1))).value)
        && done == (if child.episode.Some? then [child] else [])
        && JudgedAt(child, old(calls) + 1, objective)
      ensures child == null ==> nodes == old(nodes) && done == []
    {
      hide Valid, Inner, NoneCompleted, Settled, Shallow, SetOf, CompletedIn, EvaluatedIn, Highest, FirstSeen,
        Proposed, FirstFinalize, SaysFinalize, Strip, JudgedAt, Text, Node.Trajectory, Node.Chained, Node.Ancestors;
      ghost var ns := nodes;
      done, child := [], null;
      var top := BestPartial(root);
      best := top;
      if top == null {
        EmptyHanded(root);
        return;
      }
      EvaluatedMember(ns - {root}, top);
      InPlace(root, top);
      var actions := Propose(top, objective, FORCE_PROMPT, 1);
      var action := FindFinalize(actions);
      if action.None? {
        EmptyHanded(root);
        return;
      }
      StrippedFinalize(actions);
      var c := EvaluateForced(top, Strip(action.value), objective, root);
      child := c;
      Singleton(c);
      if c.episode.Some? {
        done := [c];
      }
    }

    /** What `run` returns says about the tree it leaves. */
    ghost predicate Answered(root: Node, res: SearchResult)
      reads this`nodes, nodes
    {
      if res.episode.None? then CompletedIn(nodes) == {} && res.reward == 0.0 && res.trajectory == []
      else
        exists best :: best in CompletedIn(nodes) && best.episode == res.episode && best.reward == res.reward
          && best.Chained() && best.Ancestors() <= nodes && res.trajectory == best.Trajectory()
          && forall n :: n in CompletedIn(nodes) ==> n.reward <= best.reward
    }

    /** The result is that of the first of the nodes with the greatest reward. */
    ghost predicate PickedFrom(done: seq<Node>, res: SearchResult)
      reads done, Above(done)
    {
      exists best :: best in done && FirstHighest(done, best) && best.Chained() && best.Ancestors() <= Above(done)
                     && res == SearchResult(best.episode, best.reward, best.Trajectory(), res.rollouts)
    }

    /** The result taken from the completed nodes `done`. */
    method Pick(done: seq<Node>, rollouts: nat, ghost root: Node) returns (res: SearchResult)
      requires Valid(root) && SetOf(done) == CompletedIn(nodes)
      ensures Answered(root, res) && res.rollouts == rollouts
      ensures done != [] ==> PickedFrom(done, res)
    {
      hide Valid, SetOf, CompletedIn, FirstHighest, Node.Trajectory, Node.Chained, Node.Ancestors;
      SetOfEmpty(done);
      if done == [] {
        res := SearchResult(None, 0.0, [], rollouts);
      } else {
        Parts(root);
        var best := MaxReward(done);
        SetOfMember(done, best);
        CompletedMember(nodes, best);
        AncestorsInTree(root, nodes, best);
        forall n | n in CompletedIn(nodes)
          ensures n.reward <= best.reward
        {
          SetOfMember(done, n);
        }
        res := SearchResult(best.episode, best.reward, best.Trajectory(), rollouts);
      }
    }

    lemma GrowthBound(leaf: Node, proposed: seq<string>, b: nat)
      requires Names(leaf.children) == Kept(proposed) && (Bounded(b) ==> |proposed| <= b)
      ensures Bounded(b) ==> |leaf.children| <= b
    {
      assert |Names(leaf.children)| == |leaf.children|;
    }

    /** A rollout from the root seen from outside: what it keeps, and how much it grows the tree. */
    method RolloutFromRoot(root: Node, objective: string, nBranches: nat, ghost b: nat)
      requires Valid(root) && Barren(root, nodes) && Shallow(root, nodes, maxDepth + 1) && LogDefined()
      requires Settled(root, nodes) && (exitOnComplete ==> NoneCompleted(nodes)) && root in nodes
      modifies this`calls, this`log, this`nodes
      modifies nodes`children, nodes`status, nodes`visits, nodes`value
      ensures Valid(root) && Barren(root, nodes) && Shallow(root, nodes, maxDepth + 1) && root in nodes
      ensures Searched(root, nodes, exitOnComplete)
      ensures forall n :: n in nodes ==> n in old(nodes) || fresh(n)
      ensures forall n :: n in old(nodes) ==> n in nodes && (old(n.status.Failed?) ==> n.status.Failed?)
      ensures Bounded(b) ==> |nodes| <= |old(nodes)| + b
    {
      hide Valid, Barren, Shallow, Settled, NoneCompleted, Searched, Joined, Kept, Names, Bounded, Proposed, Selects,
        Node.Chained, Node.Ancestors;
      ghost var ns := nodes;
      ghost var leaf, k := Rollout(root, objective, nBranches, root);
      RootStays(root);
      assert leaf.status.Failed? || !old(leaf.status.Failed?);
      if !(old(leaf.status.Failed?) || leaf.depth > maxDepth) {
        OnlyKids(ns, leaf.children, nodes);
        GrowthBound(leaf, old(Proposed(calls, leaf, objective, "", nBranches)), b);
      }
    }

    lemma NewIsUnevaluated(n: Node)
      requires n.observation == None && n.episode == None && n.children == [] && n.status == Incomplete
      ensures Unevaluated(n)
    {
    }

    lemma RootStays(root: Node)
      requires Valid(root)
      ensures root in nodes
    {
    }

    /** The rollouts: at most `maxRollouts`, fewer only when exit-on-complete finds an episode. */
    method RunRollouts(root: Node, objective: string, nBranches: nat, maxRollouts: nat, ghost b: nat)
      returns (rollouts: nat)
      requires Valid(root) && Barren(root, nodes) && Shallow(root, nodes, maxDepth + 1) && LogDefined()
      requires Settled(root, nodes) && NoneCompleted(nodes) && root in nodes
      modifies this`calls, this`log, this`nodes
      modifies nodes`children, nodes`status, nodes`visits, nodes`value
      ensures Valid(root) && Barren(root, nodes) && Shallow(root, nodes, maxDepth + 1) && root in nodes
      ensures Searched(root, nodes, exitOnComplete)
      ensures forall n :: n in nodes ==> n in old(nodes) || fresh(n)
      ensures forall n :: n in old(nodes) ==> n in nodes && (old(n.status.Failed?) ==> n.status.Failed?)
      ensures Bounded(b) ==> |nodes| <= |old(nodes)| + rollouts * b
      ensures rollouts <= maxRollouts
      ensures rollouts < maxRollouts ==> exitOnComplete && CompletedIn(nodes) != {}
    {
      hide Valid, Barren, Shallow, Settled, NoneCompleted, Searched, Bounded, CompletedIn, SetOf, Subtree;
      rollouts := 0;
      StillSettledHere(root);
      var done: seq<Node> := [];
      while rollouts < maxRollouts
        invariant Valid(root) && Barren(root, nodes) && Shallow(root, nodes, maxDepth + 1) && root in nodes
        invariant Settled(root, nodes) && (exitOnComplete ==> NoneCompleted(nodes))
        invariant Searched(root, nodes, exitOnComplete)
        invariant forall n :: n in nodes ==> n in old(nodes) || fresh(n)
        invariant forall n :: n in old(nodes) ==> n in nodes && (old(n.status.Failed?) ==> n.status.Failed?)
        invariant Bounded(b) ==> |nodes| <= |old(nodes)| + rollouts * b
        invariant rollouts <= maxRollouts
      {
        rollouts := rollouts + 1;
        RolloutFromRoot(root, objective, nBranches, b);
        done := Completed(root, [], root);
        WholeTree(root, done);
        if exitOnComplete && done != [] {
          break;
        }
        GoesOn(root);
      }
    }

    /** An episode comes with its trajectory: `execute`'s answers, ending in the action that gave it. */
    ghost predicate Supported(res: SearchResult) {
      && (forall k :: 0 <= k < |res.trajectory| ==> res.trajectory[k].1 == execute(res.trajectory[k].0).0)
      && (res.trajectory != [] ==> |res.trajectory| <= maxDepth + 1)
      && (res.episode.Some? ==>
        res.trajectory != [] && execute(res.trajectory[|res.trajectory| - 1].0).1 == res.episode)
    }

    lemma AnsweredWhen(root: Node, res: SearchResult)
      requires Answered(root, res)
      ensures CompletedIn(nodes) != {} ==> res.episode.Some?
    {
    }

    lemma AnswersAreSupported(root: Node, res: SearchResult)
      requires Valid(root) && Inner(root, nodes) && Shallow(root, nodes, maxDepth + 2) && Answered(root, res)
      ensures Supported(res)
    {
      if res.episode.Some? {
        var best :| best in CompletedIn(nodes) && best.episode == res.episode && best.reward == res.reward
          && best.Chained() && best.Ancestors() <= nodes && res.trajectory == best.Trajectory()
          && forall n :: n in CompletedIn(nodes) ==> n.reward <= best.reward;
        CompletedTrajectory(root, nodes, execute, best);
      }
    }

    /** The completed nodes at the end; only when the rollouts left none, after a forced finalize. */
    method Conclude(root: Node, objective: string) returns (done: seq<Node>, ghost best: Node?, ghost child: Node?)
      requires Valid(root) && Barren(root, nodes) && Shallow(root, nodes, maxDepth + 1) && root in nodes
      requires Searched(root, nodes, exitOnComplete)
      modifies this`calls, this`log, this`nodes, nodes`children, nodes`visits, nodes`value
      ensures Valid(root) && Inner(root, nodes) && Shallow(root, nodes, maxDepth + 2)
      ensures exitOnComplete ==> AtMostOneCompleted(nodes)
      ensures SetOf(done) == CompletedIn(nodes)
      ensures old(CompletedIn(nodes)) != {} ==> child == null && CompletedIn(nodes) == old(CompletedIn(nodes))
      ensures old(CompletedIn(nodes)) != {} ==> InPreorder(root, done)
      ensures old(CompletedIn(nodes)) == {} ==> (best == null <==> old(EvaluatedIn(nodes - {root})) == {})
      ensures best != null ==> best in old(nodes) && best.Chained() && best.Ancestors() <= old(nodes)
      ensures best != null ==> old(Highest(nodes - {root}, best)) && old(FirstSeen(root, best))
      ensures old(CompletedIn(nodes)) == {} ==>
        (child != null <==> best != null && FirstFinalize(old(Proposed(calls, best, objective, FORCE_PROMPT, 1))).Some?)
      ensures child != null ==> best != null && fresh(child) && nodes == old(nodes) + {child} && child.parent == best
      ensures child == null ==> nodes == old(nodes)
    {
      hide Valid, Barren, Inner, Shallow, Settled, NoneCompleted, AtMostOneCompleted, Searched, CompletedIn,
        FirstFinalize,
        SetOf, Subtree, EvaluatedIn, Highest, FirstSeen, Proposed, Shape, DoneBelow, JudgedAt, Strip, InPreorder,
        Node.Chained, Node.Ancestors;
      best, child := null, null;
      BarrenInner(root, nodes);
      done := Completed(root, [], root);
      assert [] + DoneBelow(root, nodes, root, maxDepth + 1) == DoneBelow(root, nodes, root, maxDepth + 1);
      FoundInPreorder(root, done);
      WholeTree(root, done);
      AtMostOneSoFar(root);
      Deeper(root);
      if done == [] {
        NothingCompleted(root, nodes, exitOnComplete);
        done, best, child := ForceFinalize(root, objective);
        AtMostOneForced(done);
      }
    }

    /**
     * The whole search. With no rollout allowed the source fails on its unbound rollout
     * counter, after a search that did nothing.
     */
    method Run(objective: string, nBranches: nat, maxRollouts: int, exitOnComplete: bool, ghost b: nat)
      returns (res: Outcome<SearchResult>, ghost root: Node)
      requires LogDefined()
      modifies this
      ensures Valid(root) && Inner(root, nodes) && Shallow(root, nodes, maxDepth + 2)
      ensures this.exitOnComplete == exitOnComplete && (exitOnComplete ==> AtMostOneCompleted(nodes))
      ensures res.Raised? <==> maxRollouts < 1
      ensures res.Returned? ==> Answered(root, res.value) && Supported(res.value)
      ensures res.Returned? ==> res.value.rollouts <= maxRollouts
      ensures res.Returned? && res.value.rollouts < maxRollouts ==> exitOnComplete && res.value.episode.Some?
      ensures res.Returned? && Bounded(b) ==> |nodes| <= 2 + res.value.rollouts * b
    {
      hide Valid, Barren, Inner, Shallow, Settled, NoneCompleted, AtMostOneCompleted, Searched, Bounded, CompletedIn,
        SetOf, Subtree, Answered, Supported, EvaluatedIn, Highest, FirstSeen, InPreorder, PickedFrom, Proposed,
        FirstFinalize, LogDefined, Unevaluated, Node.Chained, Node.Ancestors, Node.Trajectory;
      this.exitOnComplete := exitOnComplete;
      var top := new Node("", 1, null);
      root := top;
      nodes, log := {top}, [];
      NewIsUnevaluated(top);
      Planted(top);
      var rollouts := 0;
      if maxRollouts >= 1 {
        rollouts := RunRollouts(top, objective, nBranches, maxRollouts, b);
      }
      var done, _, _ := Conclude(top, objective);
      if maxRollouts < 1 {
        return Raised("local variable 'rollouts' is unbound"), root;
      }
      var r := Pick(done, rollouts, top);
      AnswersAreSupported(top, r);
      AnsweredWhen(top, r);
      res := Returned(r);
    }
  }
}

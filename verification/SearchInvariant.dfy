/** What every step of the search keeps true of the tree. */
module SearchInvariant {
  import opened Prelude
  import opened Grounding
  import opened SearchNode

  ghost predicate Waiting(ns: seq<Node>)
    reads ns`observation, ns`episode
  {
    forall n :: n in ns ==> n.observation.None? && n.episode.None?
  }

  ghost predicate Leaves(ns: seq<Node>)
    reads ns`children
  {
    forall n :: n in ns ==> n.children == []
  }

  ghost predicate Evaluated(ns: seq<Node>)
    reads ns`observation
  {
    forall n :: n in ns ==> n.observation.Some?
  }

  ghost predicate NoEpisode(ns: seq<Node>)
    reads ns`episode
  {
    forall n :: n in ns ==> n.episode.None?
  }

  lemma NothingYet(ns: seq<Node>)
    requires Waiting(ns)
    ensures Evaluated(ns[..0]) && NoEpisode(ns[..0]) && Waiting(ns[0..])
  {
  }

  lemma NextWaiting(ns: seq<Node>, i: nat)
    requires i < |ns| && Waiting(ns[i..])
    ensures ns[i].observation.None? && Waiting(ns[i + 1..])
  {
    assert ns[i] in ns[i..];
    assert forall n :: n in ns[i + 1..] ==> n in ns[i..];
  }

  lemma NextEvaluated(ns: seq<Node>, i: nat)
    requires i < |ns| && ns[i].observation.Some? && Evaluated(ns[..i])
    ensures Evaluated(ns[..i + 1])
  {
    assert ns[..i + 1] == ns[..i] + [ns[i]];
  }

  lemma NextWithout(ns: seq<Node>, i: nat)
    requires i < |ns|
    ensures NoEpisode(ns[..i]) && ns[i].episode.None? ==> NoEpisode(ns[..i + 1])
  {
    assert ns[..i + 1] == ns[..i] + [ns[i]];
  }

  /** The first `k` children are evaluated: all of them, or, on exit-on-complete, up to the first episode. */
  ghost predicate StoppedAt(ns: seq<Node>, k: nat, exitOnComplete: bool)
    reads ns`observation, ns`episode
  {
    && k <= |ns| && Evaluated(ns[..k]) && Waiting(ns[k..])
    && (k < |ns| ==> exitOnComplete && k > 0 && ns[k - 1].episode.Some?)
    && (exitOnComplete && k > 0 ==> NoEpisode(ns[..k - 1]))
  }

  lemma StopsHere(ns: seq<Node>, i: nat)
    requires i < |ns| && Evaluated(ns[..i + 1]) && Waiting(ns[i + 1..])
    requires NoEpisode(ns[..i]) && ns[i].episode.Some?
    ensures StoppedAt(ns, i + 1, true)
  {
  }

  lemma RanThrough(ns: seq<Node>, exitOnComplete: bool)
    requires Evaluated(ns[..|ns|]) && Waiting(ns[|ns|..]) && (exitOnComplete ==> NoEpisode(ns[..|ns|]))
    ensures StoppedAt(ns, |ns|, exitOnComplete)
  {
    assert forall n :: n in ns ==> n in ns[..|ns|];
  }

  ghost predicate SameDepth(ns: seq<Node>) {
    forall i, j :: 0 <= i < |ns| && 0 <= j < |ns| ==> ns[i].depth == ns[j].depth
  }

  /** Everything from the nodes up. */
  ghost function Above(ns: seq<Node>): set<Node> {
    set n, a | n in ns && a in n.Ancestors() :: a
  }

  lemma NotAbove(ns: seq<Node>, i: nat)
    requires i < |ns| && Distinct(ns) && SameDepth(ns)
    ensures ns[i] !in SetOf(ns[..i]) && ns[i] !in Above(ns[..i])
  {
    forall n | n in ns[..i]
      ensures ns[i] !in n.Ancestors() && n != ns[i]
    {
    }
  }

  lemma DistinctAppend(ns: seq<Node>, n: Node)
    requires Distinct(ns) && n !in ns
    ensures Distinct(ns + [n])
  {
  }

  /** `n` is among its parent's children, one level below it. */
  ghost predicate Hangs(n: Node, ns: set<Node>)
    reads ns`children
  {
    n.parent != null && n.parent in ns && n.depth == n.parent.depth + 1 && n in n.parent.children && n.action != ""
  }

  /** The children of `n` are distinct nodes of `ns` whose parent is `n`. */
  ghost predicate Holds(n: Node, ns: set<Node>)
    reads n`children
  {
    Distinct(n.children) && forall c :: c in n.children ==> c in ns && c.parent == n
  }

  /** `ns` is a tree with parent links, hanging from `root`. */
  ghost predicate Shape(root: Node, ns: set<Node>)
    reads ns`children
  {
    && root in ns && root.parent == null && root.depth == 1 && root.action == ""
    && (forall n {:trigger Hangs(n, ns)} {:trigger n.parent} :: n in ns && n != root ==> Hangs(n, ns))
    && (forall n {:trigger Holds(n, ns)} {:trigger n.children} :: n in ns ==> Holds(n, ns))
  }

  ghost predicate Distinct(s: seq<Node>) {
    forall i, j :: 0 <= i < j < |s| ==> s[i] != s[j]
  }

  function Names(ns: seq<Node>): seq<string> {
    seq(|ns|, i requires 0 <= i < |ns| => ns[i].action)
  }

  lemma NoNames()
    ensures Names([]) == []
  {
  }

  lemma NamesAppend(ns: seq<Node>, n: Node)
    ensures Names(ns + [n]) == Names(ns) + [n.action]
  {
  }

  /** A node as it is before its evaluation. */
  ghost predicate Unevaluated(n: Node)
    reads n
  {
    n.children == [] && n.observation.None? && n.episode.None? && n.status.Incomplete?
  }

  /** Each node's statistics are those of the samples taken in its subtree. */
  ghost predicate Stats(ns: set<Node>, log: seq<Sample>)
    reads ns`visits, ns`value
  {
    forall n {:trigger n.visits} {:trigger n.value} :: n in ns ==>
      n.visits == Count(log, n) && n.value == Mean(log, n)
  }

  /** Every evaluated node of `ns` was sampled exactly once, with its own reward. */
  ghost predicate Sampled(ns: set<Node>, log: seq<Sample>)
    reads ns`observation, ns`reward
  {
    && (forall n :: n in ns ==> (n.observation.Some? <==> n in Scored(log)))
    && (forall i :: 0 <= i < |log| ==> log[i].node in ns && log[i].node.reward == log[i].reward)
    && (forall i, j :: 0 <= i < j < |log| ==> log[i].node != log[j].node)
  }

  /** Observations and episodes are the answers of `execute`. */
  ghost predicate Answers(ns: set<Node>, execute: string -> (string, Option<Episode>))
    reads ns`observation, ns`episode
  {
    forall n :: n in ns ==>
      if n.observation.Some? then n.observation == Some(execute(n.action).0) && n.episode == execute(n.action).1
      else n.episode == None
  }

  /** Failed nodes and unevaluated nodes below the root have no children. */
  ghost predicate Barren(root: Node, ns: set<Node>)
    reads ns`status, ns`observation, ns`children
  {
    forall n :: n in ns && (n.status.Failed? || (n != root && n.observation.None?)) ==> n.children == []
  }

  ghost predicate Shallow(root: Node, ns: set<Node>, d: int) {
    forall n :: n in ns && n != root ==> n.depth <= d
  }

  /** No node of `ns` below the root is waiting for its evaluation. */
  ghost predicate Settled(root: Node, ns: set<Node>)
    reads ns`observation
  {
    forall n :: n in ns && n != root ==> n.observation.Some?
  }

  ghost predicate NoneCompleted(ns: set<Node>)
    reads ns`episode
  {
    forall n :: n in ns ==> n.episode.None?
  }

  ghost predicate AtMostOneCompleted(ns: set<Node>)
    reads ns`episode
  {
    forall m, n :: m in ns && n in ns && m.episode.Some? && n.episode.Some? ==> m == n
  }

  lemma {:induction false} AncestorsInTree(root: Node, ns: set<Node>, n: Node)
    requires Shape(root, ns) && n in ns
    ensures n.Ancestors() <= ns && root in n.Ancestors() && n.Chained()
    decreases n.depth
  {
    if n != root {
      AncestorsInTree(root, ns, n.parent);
    }
  }

  /** A fresh node has no samples in its subtree. */
  lemma FreshUncounted(root: Node, ns: set<Node>, log: seq<Sample>, n: Node)
    requires Shape(root, ns) && Sampled(ns, log) && n !in ns
    ensures Count(log, n) == 0 && Mean(log, n) == 0.0 && n !in Scored(log)
  {
    forall s | s in log
      ensures n !in s.node.Ancestors()
    {
      var i :| 0 <= i < |log| && log[i] == s;
      AncestorsInTree(root, ns, s.node);
    }
    SampleOutside(log, n);
  }

  /** An evaluation concerns only the node it is about ... */
  lemma Unscored(ns: set<Node>, log: seq<Sample>, n: Node)
    requires Sampled(ns, log) && n in ns && n.observation.None?
    ensures Sampled(ns - {n}, log) && n !in Scored(log)
  {
    forall i | 0 <= i < |log|
      ensures log[i].node != n
    {
      assert log[i].node in Scored(log);
    }
  }

  /** ... which joins the sampled ones with the reward it then has. */
  lemma NewlyScored(ns: set<Node>, log: seq<Sample>, n: Node)
    requires Sampled(ns - {n}, log) && n in ns && n.observation.Some?
    ensures Sampled(ns, log + [Sample(n, n.reward)])
  {
    ScoredAppend(log, Sample(n, n.reward));
  }

  lemma GrowUnevaluated(ns: set<Node>, log: seq<Sample>, execute: string -> (string, Option<Episode>), n: Node)
    requires Stats(ns, log) && Sampled(ns, log) && Answers(ns, execute)
    requires n.visits == 0 && n.value == 0.0 && n.observation.None? && n.episode.None?
    requires Count(log, n) == 0 && n !in Scored(log)
    ensures Stats(ns + {n}, log) && Sampled(ns + {n}, log) && Answers(ns + {n}, execute)
  {
  }

  /** `all` is `ns` together with the nodes `cs`. */
  ghost predicate Joined(ns: set<Node>, cs: seq<Node>, all: set<Node>) {
    all == ns + set c | c in cs
  }

  lemma SettledAt(root: Node, ns: set<Node>, n: Node)
    requires Settled(root, ns) && n in ns
    ensures n == root || n.observation.Some?
  {
  }

  lemma NoneJoined(ns: set<Node>)
    ensures Joined(ns, [], ns)
  {
  }

  lemma NothingJoined(ns: set<Node>, all: set<Node>)
    requires Joined(ns, [], all)
    ensures all == ns
  {
  }

  lemma OnlyKids(ns: set<Node>, cs: seq<Node>, all: set<Node>)
    requires Joined(ns, cs, all)
    ensures ns <= all && forall n :: n in all ==> n in ns || n in cs
  {
  }

  lemma JoinOne(ns: set<Node>, cs: seq<Node>, all: set<Node>, c: Node)
    requires Joined(ns, cs, all)
    ensures Joined(ns, cs + [c], all + {c})
  {
  }

  /**
   * Where a rollout leaves the tree: everything evaluated and, on exit-on-complete,
   * no episode yet; or, on exit-on-complete, exactly one node with an episode.
   */
  ghost predicate Searched(root: Node, ns: set<Node>, exitOnComplete: bool)
    reads ns`observation, ns`episode
  {
    || (Settled(root, ns) && (exitOnComplete ==> NoneCompleted(ns)))
    || (exitOnComplete && AtMostOneCompleted(ns) && !NoneCompleted(ns))
  }

  lemma BarrenBut(root: Node, ns: set<Node>, node: Node)
    requires Barren(root, ns)
    ensures Barren(root, ns - {node})
  {
  }

  lemma AllWaiting(cs: seq<Node>)
    requires forall c :: c in cs ==> Unevaluated(c)
    ensures Waiting(cs) && Leaves(cs)
  {
  }

  lemma BarrenWith(root: Node, ns: set<Node>, node: Node, all: set<Node>)
    requires Barren(root, ns - {node}) && Joined(ns, node.children, all)
    requires Leaves(node.children)
    requires node.children == [] || !(node.status.Failed? || (node != root && node.observation.None?))
    ensures Barren(root, all)
  {
  }

  lemma StillSettled(root: Node, ns: set<Node>, all: set<Node>, exitOnComplete: bool)
    requires Settled(root, ns) && (exitOnComplete ==> NoneCompleted(ns)) && Joined(ns, [], all)
    ensures Searched(root, all, exitOnComplete)
  {
  }

  lemma FreshKids(root: Node, ns: set<Node>, node: Node, all: set<Node>)
    requires Shape(root, all) && Joined(ns, node.children, all) && root in ns && node in all
    requires forall c :: c in node.children ==> c !in ns
    ensures Distinct(node.children) && SameDepth(node.children)
    ensures forall c :: c in node.children ==> c != root && c in all
  {
    assert Holds(node, all);
    forall i | 0 <= i < |node.children|
      ensures node.children[i].depth == node.depth + 1
    {
      assert node.children[i] in node.children && Hangs(node.children[i], all);
    }
  }

  lemma SearchedAfter(root: Node, ns: set<Node>, cs: seq<Node>, k: nat, all: set<Node>, exitOnComplete: bool)
    requires Settled(root, ns) && (exitOnComplete ==> NoneCompleted(ns)) && Joined(ns, cs, all)
    requires StoppedAt(cs, k, exitOnComplete)
    ensures Searched(root, all, exitOnComplete)
  {
    assert cs == cs[..k] + cs[k..];
    if k == |cs| && (exitOnComplete && k > 0 ==> cs[k - 1].episode.None?) {
      assert cs == cs[..k];
      assert k > 0 ==> cs == cs[..k - 1] + [cs[k - 1]];
    } else {
      var last := cs[k - 1];
      assert last in cs && last in all && last.episode.Some?;
      assert cs == cs[..k - 1] + [last] + cs[k..];
      assert forall c :: c in all && c.episode.Some? ==> c == last;
    }
  }

  lemma FirstIsMember(ns: seq<Node>)
    ensures ns != [] ==> ns[0] in ns
  {
  }

  /** A failed node, and one below the depth limit, has no children. */
  lemma ChildlessAtEnd(root: Node, ns: set<Node>, node: Node, maxDepth: int)
    requires Shape(root, ns) && Barren(root, ns) && Shallow(root, ns, maxDepth + 1) && node in ns
    requires node.status.Failed? || node.depth > maxDepth
    ensures node.children == []
  {
    FirstIsMember(node.children);
    assert Holds(node, ns);
    assert forall c :: c in node.children ==> Hangs(c, ns);
  }

  /** The nodes of `ns` that hold an episode. */
  ghost function CompletedIn(ns: set<Node>): set<Node>
    reads ns`episode
  {
    set n | n in ns && n.episode.Some?
  }

  ghost function SetOf(ns: seq<Node>): set<Node> {
    set n | n in ns
  }

  /** The nodes of `ns` in the subtrees of `cs`. */
  ghost function Under(ns: set<Node>, cs: seq<Node>): set<Node> {
    set n | n in ns && n.Ancestors() * SetOf(cs) != {}
  }

  /** Nodes with children are evaluated, the root apart. */
  ghost predicate Inner(root: Node, ns: set<Node>)
    reads ns`observation, ns`children
  {
    forall n :: n in ns && n != root && n.children != [] ==> n.observation.Some?
  }

  ghost predicate Incomparable(ns: seq<Node>) {
    forall i, j :: 0 <= i < |ns| && 0 <= j < |ns| && i != j ==> ns[i] !in ns[j].Ancestors()
  }

  lemma UnderOne(ns: set<Node>, cs: seq<Node>, c: Node)
    ensures Under(ns, cs + [c]) == Under(ns, cs) + Subtree(ns, c) <= ns
  {
    assert SetOf(cs + [c]) == SetOf(cs) + {c};
    forall n | n in ns
      ensures n.Ancestors() * (SetOf(cs) + {c}) == n.Ancestors() * SetOf(cs) + n.Ancestors() * {c}
    {
    }
  }

  lemma UnderNone(ns: set<Node>)
    ensures Under(ns, []) == {}
  {
    assert SetOf([]) == {};
  }

  lemma {:induction false} TowardsAncestor(root: Node, ns: set<Node>, a: Node, n: Node) returns (c: Node)
    requires Shape(root, ns) && n in ns && a in n.Ancestors() && a != n
    ensures c in a.children && c in n.Ancestors() && c in ns
    decreases n.depth
  {
    assert n != root ==> Hangs(n, ns);
    if n.parent == a {
      c := n;
    } else {
      c := TowardsAncestor(root, ns, a, n.parent);
    }
  }

  /** A subtree is its top together with the subtrees of the top's children. */
  lemma SubtreeSplit(root: Node, ns: set<Node>, a: Node)
    requires Shape(root, ns) && a in ns
    ensures Subtree(ns, a) == {a} + Under(ns, a.children)
  {
    forall n | n in Subtree(ns, a) && n != a
      ensures n in Under(ns, a.children)
    {
      var c := TowardsAncestor(root, ns, a, n);
      assert c in n.Ancestors() * SetOf(a.children);
    }
    forall n | n in Under(ns, a.children)
      ensures n in Subtree(ns, a)
    {
      var c :| c in n.Ancestors() * SetOf(a.children);
      assert Holds(a, ns) && Hangs(c, ns);
      AncestorsOfAncestor(n, c);
      assert a in c.Ancestors();
    }
  }

  lemma RootSubtree(root: Node, ns: set<Node>)
    requires Shape(root, ns)
    ensures Subtree(ns, root) == ns && root !in Under(ns, root.children)
  {
    forall n | n in ns
      ensures root in n.Ancestors()
    {
      AncestorsInTree(root, ns, n);
    }
    NotUnderChildren(root, ns, root);
  }

  lemma NotUnderChildren(root: Node, ns: set<Node>, a: Node)
    requires Shape(root, ns) && a in ns
    ensures a !in Under(ns, a.children)
  {
    forall c | c in a.children
      ensures c !in a.Ancestors()
    {
      assert Holds(a, ns) && Hangs(c, ns);
    }
    assert a.Ancestors() * SetOf(a.children) == {};
  }

  lemma KidsIncomparable(root: Node, ns: set<Node>, a: Node)
    requires Shape(root, ns) && a in ns
    ensures Incomparable(a.children)
  {
    assert Holds(a, ns);
    forall i, j | 0 <= i < |a.children| && 0 <= j < |a.children| && i != j
      ensures a.children[i] !in a.children[j].Ancestors()
    {
      var c, d := a.children[i], a.children[j];
      assert c in a.children && d in a.children && c != d;
      assert Hangs(c, ns) && Hangs(d, ns);
    }
  }

  /** The depth-first worklist: popping `a` and pushing its children visits exactly `a`. */
  lemma PopPush(root: Node, ns: set<Node>, rest: seq<Node>, a: Node)
    requires Shape(root, ns) && SetOf(rest + [a]) <= ns && Incomparable(rest + [a])
    ensures Incomparable(rest + a.children) && SetOf(rest + a.children) <= ns && a in ns
    ensures Under(ns, rest + [a]) == {a} + Under(ns, rest + a.children) && a !in Under(ns, rest + a.children)
  {
    assert a in SetOf(rest + [a]) && SetOf(rest + [a]) == SetOf(rest) + {a};
    assert Holds(a, ns) && SetOf(rest + a.children) == SetOf(rest) + SetOf(a.children);
    UnderOne(ns, rest, a);
    SubtreeSplit(root, ns, a);
    NotUnderChildren(root, ns, a);
    UnderBoth(ns, rest, a.children);
    assert a !in Under(ns, rest) by {
      forall c | c in rest
        ensures c !in a.Ancestors()
      {
        var i :| 0 <= i < |rest| && rest[i] == c;
        assert (rest + [a])[i] == c && (rest + [a])[|rest|] == a;
      }
      assert a.Ancestors() * SetOf(rest) == {};
    }
    PushIncomparable(root, ns, rest, a);
  }

  lemma UnderBoth(ns: set<Node>, cs: seq<Node>, ds: seq<Node>)
    ensures Under(ns, cs + ds) == Under(ns, cs) + Under(ns, ds)
  {
    assert SetOf(cs + ds) == SetOf(cs) + SetOf(ds);
    forall n | n in ns
      ensures n.Ancestors() * (SetOf(cs) + SetOf(ds)) == n.Ancestors() * SetOf(cs) + n.Ancestors() * SetOf(ds)
    {
    }
  }

  lemma PushIncomparable(root: Node, ns: set<Node>, rest: seq<Node>, a: Node)
    requires Shape(root, ns) && a in ns && Incomparable(rest + [a])
    ensures Incomparable(rest + a.children)
  {
    KidsIncomparable(root, ns, a);
    var all := rest + a.children;
    var before := rest + [a];
    forall i, j | 0 <= i < |rest| && |rest| <= j < |all|
      ensures all[i] !in all[j].Ancestors() && all[j] !in all[i].Ancestors()
    {
      var t, c := rest[i], all[j];
      assert before[i] == t && before[|rest|] == a;
      assert c == a.children[j - |rest|] && c in a.children && Holds(a, ns) && Hangs(c, ns);
      assert c.Ancestors() == {c} + a.Ancestors();
      if c in t.Ancestors() {
        AncestorsOfAncestor(t, c);
      }
    }
    forall i, j | 0 <= i < |all| && 0 <= j < |all| && i != j
      ensures all[i] !in all[j].Ancestors()
    {
      if i < |rest| && j < |rest| {
        assert before[i] == all[i] && before[j] == all[j];
      } else if i >= |rest| && j >= |rest| {
        assert all[i] == a.children[i - |rest|] && all[j] == a.children[j - |rest|];
      }
    }
  }

  /** What a node's trajectory says: one step per level, each observation being the answer to its action. */
  lemma {:induction false} TrajectorySound(root: Node, ns: set<Node>, execute: string -> (string, Option<Episode>),
                                           n: Node)
    requires Shape(root, ns) && Answers(ns, execute) && Inner(root, ns) && n in ns && n.Chained()
    requires n == root || n.observation.Some?
    ensures |n.Trajectory()| == n.depth - 1
    ensures forall k :: 0 <= k < |n.Trajectory()| ==> n.Trajectory()[k].1 == execute(n.Trajectory()[k].0).0
    ensures n != root ==> n.Trajectory()[n.depth - 2].0 == n.action
    decreases n.depth
  {
    if n != root {
      assert Hangs(n, ns);
      TrajectorySound(root, ns, execute, n.parent);
    }
  }

  /** The trajectory has one step for each node on the way from the root, at its depth. */
  lemma {:induction false} TrajectoryIsPath(root: Node, ns: set<Node>, n: Node)
    requires Shape(root, ns) && n in ns && n.Chained()
    ensures |n.Trajectory()| == n.depth - 1
    ensures forall a :: a in n.Ancestors() && a != root ==>
      2 <= a.depth <= n.depth
      && n.Trajectory()[a.depth - 2] == (a.action, if a.observation.Some? then a.observation.value else "")
    decreases n.depth
  {
    if n != root {
      assert Hangs(n, ns);
      TrajectoryIsPath(root, ns, n.parent);
    }
  }

  lemma CompletedUnion(a: set<Node>, b: set<Node>)
    ensures CompletedIn(a + b) == CompletedIn(a) + CompletedIn(b)
  {
  }

  lemma SetOfAppend(ns: seq<Node>, n: Node)
    ensures SetOf(ns + [n]) == SetOf(ns) + {n}
  {
  }

  lemma CompletedOne(n: Node)
    ensures CompletedIn({n}) == if n.episode.Some? then {n} else {}
  {
  }

  lemma CompletedNone()
    ensures CompletedIn({}) == {}
  {
  }

  /** The nodes of `ns` that have been evaluated. */
  ghost function EvaluatedIn(ns: set<Node>): set<Node>
    reads ns`observation
  {
    set n | n in ns && n.observation.Some?
  }

  /** An evaluated node of `ns` with the highest reward. */
  ghost predicate Highest(ns: set<Node>, best: Node)
    reads ns`observation, ns`reward
  {
    best in EvaluatedIn(ns) && forall n :: n in EvaluatedIn(ns) ==> n.reward <= best.reward
  }

  lemma EvaluatedUnion(a: set<Node>, n: Node)
    ensures EvaluatedIn(a + {n}) == EvaluatedIn(a) + if n.observation.Some? then {n} else {}
  {
  }

  lemma SetOfEmpty(ns: seq<Node>)
    ensures SetOf(ns) == {} <==> ns == []
  {
    FirstIsMember(ns);
    assert ns != [] ==> ns[0] in SetOf(ns);
  }

  lemma SetOfMember(ns: seq<Node>, n: Node)
    ensures n in SetOf(ns) <==> n in ns
  {
  }

  lemma StartBelow(root: Node, ns: set<Node>)
    requires Shape(root, ns)
    ensures Incomparable(root.children) && SetOf(root.children) <= ns && Under(ns, root.children) == ns - {root}
    ensures EvaluatedIn({}) == {} && SetOf([]) == {}
  {
    RootSubtree(root, ns);
    SubtreeSplit(root, ns, root);
    KidsIncomparable(root, ns, root);
    assert Holds(root, ns);
  }

  lemma BarrenInner(root: Node, ns: set<Node>)
    requires Barren(root, ns)
    ensures Inner(root, ns)
  {
  }

  lemma InnerBut(root: Node, ns: set<Node>, n: Node)
    requires Inner(root, ns)
    ensures Inner(root, ns - {n})
  {
  }

  lemma InnerWith(root: Node, ns: set<Node>, n: Node, c: Node)
    requires Inner(root, ns - {n}) && n.observation.Some? && c.children == []
    ensures Inner(root, ns + {c})
  {
  }

  lemma CompletedWith(ns: set<Node>, c: Node)
    requires NoneCompleted(ns)
    ensures CompletedIn(ns) == {} && CompletedIn(ns + {c}) == if c.episode.Some? then {c} else {}
  {
  }

  lemma EvaluatedMember(ns: set<Node>, n: Node)
    requires Highest(ns, n)
    ensures n in ns && n.observation.Some?
  {
  }

  lemma Singleton(n: Node)
    ensures SetOf([n]) == {n} && SetOf([]) == {}
  {
  }

  /** The node set at the start of a search. */
  lemma FreshRoot(root: Node, execute: string -> (string, Option<Episode>))
    requires root.action == "" && root.depth == 1 && root.parent == null && Unevaluated(root)
    requires root.visits == 0 && root.value == 0.0
    ensures Shape(root, {root}) && Stats({root}, []) && Sampled({root}, []) && Answers({root}, execute)
    ensures Barren(root, {root}) && Settled(root, {root}) && NoneCompleted({root})
  {
  }

  lemma NothingCompleted(root: Node, ns: set<Node>, exitOnComplete: bool)
    requires Searched(root, ns, exitOnComplete) && CompletedIn(ns) == {}
    ensures NoneCompleted(ns) && Settled(root, ns)
  {
    assert forall n :: n in ns && n.episode.Some? ==> n in CompletedIn(ns);
  }

  /** A completed node answers with its episode, and its trajectory with what `execute` said. */
  lemma CompletedTrajectory(root: Node, ns: set<Node>, execute: string -> (string, Option<Episode>), n: Node)
    requires Shape(root, ns) && Answers(ns, execute) && Inner(root, ns) && root.observation.None?
    requires n in CompletedIn(ns)
    ensures n in ns && n.Chained() && n != root && n.depth >= 2 && |n.Trajectory()| == n.depth - 1
    ensures forall k :: 0 <= k < |n.Trajectory()| ==> n.Trajectory()[k].1 == execute(n.Trajectory()[k].0).0
    ensures n.episode == execute(n.Trajectory()[|n.Trajectory()| - 1].0).1
  {
    AncestorsInTree(root, ns, n);
    assert Hangs(n, ns);
    assert n.parent.depth >= 1 by {
      AncestorsInTree(root, ns, n.parent);
    }
    TrajectorySound(root, ns, execute, n);
  }

  lemma CompletedMember(ns: set<Node>, n: Node)
    ensures n in CompletedIn(ns) <==> n in ns && n.episode.Some?
  {
  }
}

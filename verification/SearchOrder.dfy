/** The orders in which the tree is walked: preorder for completed nodes, a worklist for evaluated ones. */
module SearchOrder {
  import opened SearchNode
  import opened SearchInvariant

  lemma ChildBelow(root: Node, ns: set<Node>, n: Node, k: nat, d: int)
    requires Shape(root, ns) && Shallow(root, ns, d) && n in ns && k < |n.children|
    ensures n.children[k] in ns && n.children[k].depth == n.depth + 1 <= d
  {
    assert n.children[k] in n.children && Holds(n, ns) && Hangs(n.children[k], ns);
  }

  /** The nodes with an episode from `n` down, each before those below it, children in order. */
  ghost function DoneBelow(root: Node, ns: set<Node>, n: Node, d: int): seq<Node>
    requires Shape(root, ns) && Shallow(root, ns, d) && n in ns
    reads ns`children, ns`episode
    decreases d + 1 - n.depth, |n.children| + 1
  {
    (if n.episode.Some? then [n] else []) + DoneFrom(root, ns, n, 0, d)
  }

  ghost function DoneFrom(root: Node, ns: set<Node>, n: Node, k: nat, d: int): seq<Node>
    requires Shape(root, ns) && Shallow(root, ns, d) && n in ns && k <= |n.children|
    reads ns`children, ns`episode
    decreases d + 1 - n.depth, |n.children| - k
  {
    if k == |n.children| then []
    else
      ChildBelow(root, ns, n, k, d);
      DoneBelow(root, ns, n.children[k], d) + DoneFrom(root, ns, n, k + 1, d)
  }

  lemma DoneStart(root: Node, ns: set<Node>, n: Node, d: int)
    requires Shape(root, ns) && Shallow(root, ns, d) && n in ns
    ensures DoneBelow(root, ns, n, d) == (if n.episode.Some? then [n] else []) + DoneFrom(root, ns, n, 0, d)
    ensures DoneFrom(root, ns, n, |n.children|, d) == []
  {
    hide Shape, Shallow;
  }

  lemma DoneStep(root: Node, ns: set<Node>, n: Node, k: nat, d: int)
    requires Shape(root, ns) && Shallow(root, ns, d) && n in ns && k < |n.children|
    ensures n.children[k] in ns
    ensures DoneFrom(root, ns, n, k, d) == DoneBelow(root, ns, n.children[k], d) + DoneFrom(root, ns, n, k + 1, d)
  {
    hide Shape, Shallow, DoneBelow;
    ChildBelow(root, ns, n, k, d);
  }

  /** The evaluated nodes from `n` down, each before those below it, last children first. */
  ghost function SeenBelow(root: Node, ns: set<Node>, n: Node, d: int): seq<Node>
    requires Shape(root, ns) && Shallow(root, ns, d) && n in ns
    reads ns`children, ns`observation
    decreases d + 1 - n.depth, |n.children| + 1
  {
    (if n.observation.Some? then [n] else []) + SeenUpTo(root, ns, n, |n.children|, d)
  }

  ghost function SeenUpTo(root: Node, ns: set<Node>, n: Node, k: nat, d: int): seq<Node>
    requires Shape(root, ns) && Shallow(root, ns, d) && n in ns && k <= |n.children|
    reads ns`children, ns`observation
    decreases d + 1 - n.depth, k
  {
    if k == 0 then []
    else
      ChildBelow(root, ns, n, k - 1, d);
      SeenBelow(root, ns, n.children[k - 1], d) + SeenUpTo(root, ns, n, k - 1, d)
  }

  /** What a worklist still has to come to: the last entry first. */
  ghost function SeenOn(root: Node, ns: set<Node>, stack: seq<Node>, d: int): seq<Node>
    requires Shape(root, ns) && Shallow(root, ns, d) && SetOf(stack) <= ns
    reads ns`children, ns`observation
  {
    if stack == [] then []
    else
      OnStack(stack);
      SeenBelow(root, ns, stack[|stack| - 1], d) + SeenOn(root, ns, stack[..|stack| - 1], d)
  }

  lemma OnStack(stack: seq<Node>)
    requires stack != []
    ensures stack[|stack| - 1] in SetOf(stack) && SetOf(stack[..|stack| - 1]) <= SetOf(stack)
  {
  }

  lemma SeenStep(root: Node, ns: set<Node>, rest: seq<Node>, n: Node, d: int)
    requires Shape(root, ns) && Shallow(root, ns, d) && SetOf(rest + [n]) <= ns
    ensures n in ns && SetOf(rest) <= ns
    ensures SeenOn(root, ns, rest + [n], d) == SeenBelow(root, ns, n, d) + SeenOn(root, ns, rest, d)
  {
    OnStack(rest + [n]);
    assert (rest + [n])[..|rest|] == rest;
    hide Shape, Shallow, SeenBelow, SetOf;
  }

  lemma {:induction false} SeenPush(root: Node, ns: set<Node>, rest: seq<Node>, n: Node, k: nat, d: int)
    requires Shape(root, ns) && Shallow(root, ns, d) && SetOf(rest) <= ns && n in ns && k <= |n.children|
    ensures SetOf(rest + n.children[..k]) <= ns
    ensures SeenOn(root, ns, rest + n.children[..k], d) == SeenUpTo(root, ns, n, k, d) + SeenOn(root, ns, rest, d)
  {
    hide Shape, Shallow, SeenBelow, SeenUpTo, SeenOn, SetOf;
    if k == 0 {
      assert rest + n.children[..0] == rest;
      NothingSeen(root, ns, n, d);
      assert [] + SeenOn(root, ns, rest, d) == SeenOn(root, ns, rest, d);
    } else {
      SeenPush(root, ns, rest, n, k - 1, d);
      ChildBelow(root, ns, n, k - 1, d);
      var c := n.children[k - 1];
      assert rest + n.children[..k] == (rest + n.children[..k - 1]) + [c];
      SetOfAppend(rest + n.children[..k - 1], c);
      SeenStep(root, ns, rest + n.children[..k - 1], c, d);
      SeenChild(root, ns, n, k, d);
      var a, b, e := SeenBelow(root, ns, c, d), SeenUpTo(root, ns, n, k - 1, d), SeenOn(root, ns, rest, d);
      assert a + (b + e) == (a + b) + e;
    }
  }

  lemma NothingOn(root: Node, ns: set<Node>, d: int)
    requires Shape(root, ns) && Shallow(root, ns, d)
    ensures SetOf([]) <= ns && SeenOn(root, ns, [], d) == []
  {
  }

  lemma SetOfNone()
    ensures SetOf([]) == {}
  {
  }

  lemma NothingSeen(root: Node, ns: set<Node>, n: Node, d: int)
    requires Shape(root, ns) && Shallow(root, ns, d) && n in ns
    ensures SeenUpTo(root, ns, n, 0, d) == []
  {
  }

  lemma SeenChild(root: Node, ns: set<Node>, n: Node, k: nat, d: int)
    requires Shape(root, ns) && Shallow(root, ns, d) && n in ns && 0 < k <= |n.children|
    ensures n.children[k - 1] in ns
    ensures SeenUpTo(root, ns, n, k, d) == SeenBelow(root, ns, n.children[k - 1], d) + SeenUpTo(root, ns, n, k - 1, d)
  {
    hide Shape, Shallow, SeenBelow;
    ChildBelow(root, ns, n, k - 1, d);
  }

  lemma SeenNode(root: Node, ns: set<Node>, n: Node, d: int)
    requires Shape(root, ns) && Shallow(root, ns, d) && n in ns
    ensures SeenBelow(root, ns, n, d)
            == (if n.observation.Some? then [n] else []) + SeenUpTo(root, ns, n, |n.children|, d)
  {
    hide Shape, Shallow;
  }

  /** One round of the worklist: the node goes first, and its children replace it. */
  lemma SeenRound(root: Node, ns: set<Node>, rest: seq<Node>, n: Node, d: int)
    requires Shape(root, ns) && Shallow(root, ns, d) && SetOf(rest + [n]) <= ns
    ensures n in ns && SetOf(rest + n.children) <= ns
    ensures SeenOn(root, ns, rest + [n], d)
            == (if n.observation.Some? then [n] else []) + SeenOn(root, ns, rest + n.children, d)
  {
    hide Shape, Shallow, SeenBelow, SeenUpTo, SeenOn, SetOf;
    SeenStep(root, ns, rest, n, d);
    SeenNode(root, ns, n, d);
    SeenPush(root, ns, rest, n, |n.children|, d);
    assert n.children[..|n.children|] == n.children;
  }
}

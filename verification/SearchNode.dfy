/** Nodes of the LATS tree and the bookkeeping their statistics are measured against. */
module SearchNode {
  import opened Prelude
  import opened Grounding

  datatype Status = Complete | Failed | Incomplete

  /** One evaluation: the node that was scored and the reward it got. */
  datatype Sample = Sample(node: Node, reward: real)

  class Node {
    const action: string
    const depth: nat
    const parent: Node?
    var observation: Option<string>
    var episode: Option<Episode>
    var children: seq<Node>
    var value: real
    var reward: real
    var visits: nat
    var status: Status

    constructor (action: string, depth: nat, parent: Node?)
      ensures this.action == action && this.depth == depth && this.parent == parent
      ensures observation == None && episode == None && children == []
      ensures value == 0.0 && reward == 0.0 && visits == 0 && status == Incomplete
    {
      this.action, this.depth, this.parent := action, depth, parent;
      observation, episode, children := None, None, [];
      value, reward, visits, status := 0.0, 0.0, 0, Incomplete;
    }

    /** The parent links run out: they lead to ever smaller depths. */
    ghost predicate Chained()
      decreases depth
    {
      parent == null || (parent.depth < depth && parent.Chained())
    }

    /** This node and everything above it. */
    ghost function Ancestors(): (r: set<Node>)
      ensures this in r
      ensures forall a :: a in r && a != this ==> a.depth < depth
      decreases depth
    {
      {this} + if parent != null && parent.depth < depth then parent.Ancestors() else {}
    }

    /** The (action, observation) pairs from the root down to this node. */
    function Trajectory(): seq<(string, string)>
      requires Chained()
      reads Ancestors()`observation
      decreases depth
    {
      var pairs := if parent != null then parent.Trajectory() else [];
      if action == "" then pairs
      else pairs + [(action, if observation.Some? then observation.value else "")]
    }

    /** Adds one reward to the running mean of this node and of every node above it. */
    method Backprop(reward: real, ghost nodes: set<Node>)
      requires Chained() && Ancestors() <= nodes
      modifies Ancestors()`visits, Ancestors()`value
      ensures forall a :: a in nodes && a in Ancestors() ==>
        a.visits == old(a.visits) + 1 &&
        a.value == old(a.value) + (reward - old(a.value)) / (old(a.visits) + 1) as real
      decreases depth
    {
      visits := visits + 1;
      value := value + (reward - value) / visits as real;
      if parent != null {
        parent.Backprop(reward, nodes);
      }
    }
  }

  /** Number of samples taken in the subtree of `a`. */
  ghost function Count(log: seq<Sample>, a: Node): nat {
    if log == [] then 0
    else Count(log[..|log| - 1], a) + if a in log[|log| - 1].node.Ancestors() then 1 else 0
  }

  /** Sum of the rewards sampled in the subtree of `a`. */
  ghost function Total(log: seq<Sample>, a: Node): real {
    if log == [] then 0.0
    else Total(log[..|log| - 1], a) + if a in log[|log| - 1].node.Ancestors() then log[|log| - 1].reward else 0.0
  }

  /** The true mean reward of the subtree of `a`; an unvisited node has value 0. */
  ghost function Mean(log: seq<Sample>, a: Node): real {
    if Count(log, a) == 0 then 0.0 else Total(log, a) / Count(log, a) as real
  }

  ghost function Scored(log: seq<Sample>): set<Node> {
    set s | s in log :: s.node
  }

  lemma ScoredAppend(log: seq<Sample>, s: Sample)
    ensures Scored(log + [s]) == Scored(log) + {s.node}
  {
  }

  lemma {:induction false} NothingSampled(log: seq<Sample>, a: Node)
    requires Count(log, a) == 0
    ensures Total(log, a) == 0.0
  {
    if log != [] {
      NothingSampled(log[..|log| - 1], a);
    }
  }

  lemma {:induction false} SampleOutside(log: seq<Sample>, a: Node)
    requires forall s :: s in log ==> a !in s.node.Ancestors()
    ensures Count(log, a) == 0
  {
    if log != [] {
      SampleOutside(log[..|log| - 1], a);
    }
  }

  lemma AddToMean(n: nat, total: real, r: real)
    requires n > 0
    ensures total / n as real + (r - total / n as real) / (n + 1) as real == (total + r) / (n + 1) as real
  {
    var k := n as real;
    var v := total / k;
    assert v * k == total;
    var w := v + (r - v) / (k + 1.0);
    assert w * (k + 1.0) == v * (k + 1.0) + (r - v);
    assert w * (k + 1.0) == total + r;
  }

  /** The incremental update of `Backprop` is the mean over one more sample. */
  lemma RunningMean(log: seq<Sample>, s: Sample, a: Node)
    ensures a in s.node.Ancestors() ==>
      Count(log + [s], a) == Count(log, a) + 1 &&
      Mean(log + [s], a) == Mean(log, a) + (s.reward - Mean(log, a)) / (Count(log, a) + 1) as real
    ensures a !in s.node.Ancestors() ==>
      Count(log + [s], a) == Count(log, a) && Mean(log + [s], a) == Mean(log, a)
  {
    assert (log + [s])[..|log|] == log;
    if a in s.node.Ancestors() {
      if Count(log, a) == 0 {
        NothingSampled(log, a);
      } else {
        AddToMean(Count(log, a), Total(log, a), s.reward);
      }
    }
  }

  lemma {:induction false} AncestorsOfAncestor(n: Node, a: Node)
    requires a in n.Ancestors()
    ensures a.Ancestors() <= n.Ancestors()
    decreases n.depth
  {
    if a != n {
      AncestorsOfAncestor(n.parent, a);
    }
  }

  /** A parent is visited whenever its child is. */
  lemma {:induction false} ParentVisited(log: seq<Sample>, parent: Node, child: Node)
    requires child.parent == parent && parent.depth < child.depth
    ensures Count(log, child) <= Count(log, parent)
  {
    if log != [] {
      ParentVisited(log[..|log| - 1], parent, child);
      var n := log[|log| - 1].node;
      if child in n.Ancestors() {
        AncestorsOfAncestor(n, child);
      }
    }
  }

  /** Those of `nodes` that lie in the subtree of `a`. */
  ghost function Subtree(nodes: set<Node>, a: Node): set<Node> {
    set n | n in nodes && a in n.Ancestors()
  }

  lemma NoSubtree(a: Node)
    ensures Subtree({}, a) == {}
  {
  }

  lemma GrowSubtree(nodes: set<Node>, n: Node, a: Node)
    requires n !in nodes
    ensures |Subtree(nodes + {n}, a)| == |Subtree(nodes, a)| + if a in n.Ancestors() then 1 else 0
  {
    if a in n.Ancestors() {
      assert Subtree(nodes + {n}, a) == Subtree(nodes, a) + {n};
    } else {
      assert Subtree(nodes + {n}, a) == Subtree(nodes, a);
    }
  }

  /** Each node being sampled once, `Count` is the size of the evaluated part of the subtree. */
  lemma {:induction false} CountIsCardinality(log: seq<Sample>, a: Node)
    requires forall i, j :: 0 <= i < j < |log| ==> log[i].node != log[j].node
    ensures Count(log, a) == |Subtree(Scored(log), a)|
  {
    hide Subtree, Node.Ancestors;
    if log == [] {
      NoSubtree(a);
      assert Scored(log) == {};
    } else {
      var rest, last := log[..|log| - 1], log[|log| - 1];
      CountIsCardinality(rest, a);
      assert Scored(log) == Scored(rest) + {last.node} by {
        assert log == rest + [last];
        ScoredAppend(rest, last);
      }
      assert last.node !in Scored(rest);
      GrowSubtree(Scored(rest), last.node, a);
    }
  }
}

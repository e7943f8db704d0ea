/** The search run on one capture: its hypothesis is grounded in the decode. */
module Triage {
  import opened Prelude
  import opened Grounding
  import opened SearchNode
  import opened SearchInvariant
  import opened SearchTree
  import Strings = Text

  /**
   * A hypothesis found by the search cites a decoded message, and the last step of the
   * returned trajectory is the finalize action that carried it.
   */
  lemma HypothesisIsGrounded(box: Toolbox, tree: Tree, res: SearchResult)
    requires forall a :: tree.execute(a) == Execute(box, a)
    requires tree.Supported(res) && res.episode.Some?
    ensures exists ev :: ev in res.episode.value.cited && Grounds(box.inventory, ev)
    ensures res.trajectory != []
    ensures var last := res.trajectory[|res.trajectory| - 1];
            box.split(last.0).0 == "finalize" && box.parse(box.split(last.0).1) == res.episode
            && last.1 == Execute(box, last.0).0
  {
    var last := res.trajectory[|res.trajectory| - 1];
    EpisodesAreGrounded(box, last.0, res.episode.value);
  }

  /** At every point of a search a node's visits count the evaluated nodes of its subtree. */
  lemma VisitsCountEvaluated(tree: Tree, root: Node, n: Node)
    requires tree.Valid(root) && n in tree.nodes
    ensures n.visits == |Subtree(EvaluatedIn(tree.nodes), n)|
    ensures n.value == if n.visits == 0 then 0.0 else Total(tree.log, n) / n.visits as real
    ensures Scored(tree.log) == EvaluatedIn(tree.nodes)
  {
    CountIsCardinality(tree.log, n);
    forall s | s in Scored(tree.log)
      ensures s in EvaluatedIn(tree.nodes)
    {
      var i :| 0 <= i < |tree.log| && tree.log[i].node == s;
    }
    assert Scored(tree.log) == EvaluatedIn(tree.nodes);
  }

  /** Triage of one incident with the decode's own tools; it stops at the first grounded finalize. */
  method RunLats(box: Toolbox, expand: (nat, string, string, nat) -> Proposal,
                 evaluate: (nat, string, string) -> Judgement, explore: (nat, nat) --> real,
                 objective: string, nBranches: nat, maxRollouts: int, maxDepth: int, c: real)
    returns (res: Outcome<SearchResult>)
    requires forall p: nat, q: nat :: p >= 1 && q >= 1 ==> explore.requires(p, q)
    ensures res.Raised? <==> maxRollouts < 1
    ensures res.Returned? && res.value.episode.Some? ==>
      exists ev :: ev in res.value.episode.value.cited && Grounds(box.inventory, ev)
    ensures res.Returned? && res.value.episode.None? ==> res.value.trajectory == [] && res.value.reward == 0.0
  {
    var tree := new Tree(expand, evaluate, a => Execute(box, a), explore, c, maxDepth);
    ghost var root;
    res, root := tree.Run(objective, nBranches, maxRollouts, true, 0);
    if res.Returned? && res.value.episode.Some? {
      HypothesisIsGrounded(box, tree, res.value);
    }
  }

  function StepText(step: (string, string)): string {
    "action: " + step.0 + "\nobservation: " + step.1
  }

  /** The text given to the models is every step of the trajectory, in order. */
  lemma {:induction false} TextIsSteps(steps: seq<(string, string)>, lines: seq<string>)
    requires |lines| == |steps| && forall i :: 0 <= i < |steps| ==> lines[i] == StepText(steps[i])
    ensures SearchTree.Text(steps) == Strings.JoinWith(lines, "\n")
  {
    hide StepText;
    if |steps| > 1 {
      var n := |steps| - 1;
      TextIsSteps(steps[..n], lines[..n]);
    }
    TextEnds(steps);
  }

  lemma TextEnds(steps: seq<(string, string)>)
    ensures SearchTree.Text(steps)
            == if steps == [] then ""
               else if |steps| == 1 then StepText(steps[0])
               else SearchTree.Text(steps[..|steps| - 1]) + "\n" + StepText(steps[|steps| - 1])
  {
  }
}

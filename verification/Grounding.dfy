/** The completeness bar of the search: a hypothesis must cite a decoded message. */
module Grounding {
  import opened Prelude

  datatype Citation = Citation(message: string, cause: Option<int>, ts: Option<real>)

  datatype Episode = Episode(incidentType: string, narrative: string, cited: seq<Citation>)

  /** Every decoded message of a capture by name and time, with its cause code if it has one. */
  type Inventory = map<(string, real), Option<int>>

  /** How far a cited time may be from the decoded one: half of the last printed digit. */
  const TOLERANCE: real := 0.0005

  predicate Matches(key: (string, real), cause: Option<int>, ev: Citation)
    requires ev.ts.Some?
  {
    && key.0 == ev.message
    && -TOLERANCE < key.1 - ev.ts.value < TOLERANCE
    && (ev.cause.None? || ev.cause == cause)
  }

  /** Some decoded message has the cited name, time and, if one is cited, cause. */
  predicate Grounds(inventory: Inventory, ev: Citation) {
    ev.ts.Some? && exists key :: key in inventory && Matches(key, inventory[key], ev)
  }

  /** A decoded message of that name, less than half a millisecond away, and with that cause if one is cited. */
  ghost predicate Cites(inventory: Inventory, ev: Citation) {
    && ev.ts.Some?
    && exists t: real :: && (ev.message, t) in inventory && t - 0.0005 < ev.ts.value < t + 0.0005
                         && (ev.cause == None || inventory[(ev.message, t)] == ev.cause)
  }

  lemma GroundsIsCites(inventory: Inventory, ev: Citation)
    ensures Grounds(inventory, ev) <==> Cites(inventory, ev)
  {
    if Grounds(inventory, ev) {
      var key :| key in inventory && Matches(key, inventory[key], ev);
      assert key == (ev.message, key.1);
    }
    if Cites(inventory, ev) {
      var t: real :| && (ev.message, t) in inventory && t - 0.0005 < ev.ts.value < t + 0.0005
                     && (ev.cause == None || inventory[(ev.message, t)] == ev.cause);
      assert Matches((ev.message, t), inventory[(ev.message, t)], ev);
    }
  }

  function GroundedOf(inventory: Inventory, cited: seq<Citation>): (r: seq<Citation>)
    ensures forall ev :: ev in r <==> ev in cited && Grounds(inventory, ev)
  {
    if cited == [] then []
    else
      var front := GroundedOf(inventory, cited[..|cited| - 1]);
      var last := cited[|cited| - 1];
      if Grounds(inventory, last) then front + [last] else front
  }

  method GroundedEvidence(inventory: Inventory, episode: Episode) returns (grounded: seq<Citation>)
    ensures grounded == GroundedOf(inventory, episode.cited)
    ensures forall ev :: ev in grounded <==> ev in episode.cited && Cites(inventory, ev)
  {
    forall ev: Citation
      ensures Grounds(inventory, ev) <==> Cites(inventory, ev)
    {
      GroundsIsCites(inventory, ev);
    }
    grounded := [];
    for i := 0 to |episode.cited|
      invariant grounded == GroundedOf(inventory, episode.cited[..i])
    {
      var ev := episode.cited[i];
      assert episode.cited[..i + 1][..i] == episode.cited[..i];
      if ev.ts.Some? {
        var left := inventory.Keys;
        var hit := false;
        while left != {} && !hit
          invariant left <= inventory.Keys
          invariant hit ==> Grounds(inventory, ev)
          invariant !hit ==> forall key :: key in inventory && key !in left ==> !Matches(key, inventory[key], ev)
          decreases left
        {
          var key :| key in left;
          hit := Matches(key, inventory[key], ev);
          left := left - {key};
        }
        if hit {
          grounded := grounded + [ev];
        }
      }
    }
    assert episode.cited[..|episode.cited|] == episode.cited;
  }

  /** What surrounds the finalize tool: the decode, the Episode parser, the action splitter and the other tools. */
  datatype Toolbox = Toolbox(inventory: Inventory, parse: string -> Option<Episode>,
                             split: string -> (string, string), observe: (string, string) -> string)

  function Finalize(box: Toolbox, argument: string): (string, Option<Episode>) {
    match box.parse(argument)
    case None => ("finalize rejected: argument is not a valid Episode", None)
    case Some(episode) =>
      if GroundedOf(box.inventory, episode.cited) == [] then
        ("finalize rejected: no cited evidence matches a decoded message", None)
      else ("finalize accepted", Some(episode))
  }

  /** One action goes to one tool; only `finalize` can produce an episode. */
  function Execute(box: Toolbox, action: string): (string, Option<Episode>) {
    var (tool, argument) := box.split(action);
    if tool == "finalize" then Finalize(box, argument) else (box.observe(tool, argument), None)
  }

  /** An action completes a node exactly when it finalizes a valid episode citing a decoded message. */
  lemma EpisodesAreGrounded(box: Toolbox, action: string, episode: Episode)
    ensures Execute(box, action).1 == Some(episode) <==>
      && box.split(action).0 == "finalize"
      && box.parse(box.split(action).1) == Some(episode)
      && exists ev :: ev in episode.cited && Grounds(box.inventory, ev)
  {
    var g := GroundedOf(box.inventory, episode.cited);
    if g != [] {
      assert g[0] in g;
    }
  }
}

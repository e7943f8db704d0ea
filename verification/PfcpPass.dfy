/** The pass over a capture's PFCP messages, with its insertion-ordered dictionary of pending requests. */
module PfcpPass {
  import opened Sorting
  import opened Pfcp
  import opened PfcpFields

  /** The dictionary of the pass: its keys in insertion order, and what they hold. */
  ghost predicate Holds(ms: seq<PfcpMsg>, order: seq<PathKey>, pending: map<PathKey, (PfcpMsg, nat)>, at: seq<nat>)
    requires AreRequests(ms, at)
  {
    && |order| == |at| && (forall key :: key in pending <==> key in order)
    && (forall x, y :: 0 <= x < y < |order| ==> order[x] != order[y])
    && (forall x :: 0 <= x < |at| ==>
      order[x] == LegOf(ms[at[x]]).key && order[x] in pending && pending[order[x]] == (ms[at[x]], at[x]))
  }

  lemma FindInOrder(ms: seq<PfcpMsg>, order: seq<PathKey>, pending: map<PathKey, (PfcpMsg, nat)>, at: seq<nat>,
                    key: PathKey)
    requires AreRequests(ms, at) && Holds(ms, order, pending, at)
    ensures key in pending <==> Find(ms, at, key).Some?
    ensures key in pending ==> order[Find(ms, at, key).value] == key && pending[key].1 == at[Find(ms, at, key).value]
  {
    hide LegOf, Find;
    var f := Find(ms, at, key);
    if key in pending {
      var x :| 0 <= x < |order| && order[x] == key;
      assert Asks(ms[at[x]], key);
    }
  }

  function IndexOf(order: seq<PathKey>, key: PathKey): (x: nat)
    requires key in order
    ensures x < |order| && order[x] == key
  {
    if order[0] == key then 0 else 1 + IndexOf(order[1..], key)
  }

  /** One message of the pass. */
  method Take(ms: seq<PfcpMsg>, i: nat, order: seq<PathKey>, pending: map<PathKey, (PfcpMsg, nat)>,
              procedures: seq<N4Procedure>)
    returns (order': seq<PathKey>, pending': map<PathKey, (PfcpMsg, nat)>, procedures': seq<N4Procedure>)
    requires i < |ms| && AreRequests(ms, Run(ms[..i]).pending) && AreClosed(ms, Run(ms[..i]).closed)
    requires Holds(ms, order, pending, Run(ms[..i]).pending)
    requires procedures == ClosedRecords(ms, Run(ms[..i]).closed)
    ensures AreRequests(ms, Run(ms[..i + 1]).pending) && AreClosed(ms, Run(ms[..i + 1]).closed)
    ensures Holds(ms, order', pending', Run(ms[..i + 1]).pending)
    ensures procedures' == ClosedRecords(ms, Run(ms[..i + 1]).closed)
  {
    hide LegOf, Run, Find, Without;
    ghost var before := Run(ms[..i]);
    RunSound(ms, i + 1);
    order', pending', procedures' := order, pending, procedures;
    var leg := LegOf(ms[i]);
    if leg.Request? {
      RunRequest(ms, i);
      FindInOrder(ms, order, pending, before.pending, leg.key);
      if leg.key !in pending {
        order', pending' := order + [leg.key], pending[leg.key := (ms[i], i)];
      }
    } else if leg.Ignored? {
      RunIgnored(ms, i);
    } else {
      RunResponse(ms, i);
      FindInOrder(ms, order, pending, before.pending, leg.key);
      if leg.key in pending {
        var (_, r) := pending[leg.key];
        procedures' := procedures + [Answered(ms, r, i)];
        var x := IndexOf(order, leg.key);
        order', pending' := Without(order, x), pending - {leg.key};
        HoldsWithout(ms, order, pending, before.pending, x);
      }
    }
  }

  lemma WithoutAt<T>(s: seq<T>, x: nat)
    requires x < |s|
    ensures |Without(s, x)| == |s| - 1
    ensures forall y :: 0 <= y < |s| - 1 ==> Without(s, x)[y] == s[if y < x then y else y + 1]
  {
  }

  lemma WithoutKey(order: seq<PathKey>, x: nat, key: PathKey)
    requires x < |order| && forall i, j :: 0 <= i < j < |order| ==> order[i] != order[j]
    ensures key in Without(order, x) <==> key in order && key != order[x]
  {
    WithoutAt(order, x);
    hide Without;
    var o := Without(order, x);
    if key in order && key != order[x] {
      var y :| 0 <= y < |order| && order[y] == key;
      assert o[if y < x then y else y - 1] == key;
    }
    if key in o {
      var y :| 0 <= y < |o| && o[y] == key;
      assert order[if y < x then y else y + 1] == key;
    }
  }

  lemma HoldsWithout(ms: seq<PfcpMsg>, order: seq<PathKey>, pending: map<PathKey, (PfcpMsg, nat)>, at: seq<nat>, x: nat)
    requires AreRequests(ms, at) && Holds(ms, order, pending, at) && x < |at|
    ensures AreRequests(ms, Without(at, x)) && Holds(ms, Without(order, x), pending - {order[x]}, Without(at, x))
  {
    hide LegOf, Without;
    WithoutAt(order, x);
    WithoutAt(at, x);
    forall key
      ensures key in pending - {order[x]} <==> key in Without(order, x)
    {
      WithoutKey(order, x, key);
    }
  }

  lemma RunIgnored(ms: seq<PfcpMsg>, i: nat)
    requires i < |ms| && LegOf(ms[i]).Ignored?
    ensures Run(ms[..i + 1]) == Run(ms[..i])
  {
    hide LegOf;
    assert ms[..i + 1][..i] == ms[..i];
  }

  lemma RunRequest(ms: seq<PfcpMsg>, i: nat)
    requires i < |ms| && LegOf(ms[i]).Request? && AreRequests(ms, Run(ms[..i]).pending)
    ensures Run(ms[..i + 1]) ==
      if Find(ms, Run(ms[..i]).pending, LegOf(ms[i]).key).Some? then Run(ms[..i])
      else Run(ms[..i]).(pending := Run(ms[..i]).pending + [i])
  {
    hide LegOf, Find;
    assert ms[..i + 1][..i] == ms[..i];
    FindPrefix(ms, i + 1, Run(ms[..i]).pending, LegOf(ms[i]).key);
  }

  lemma RunResponse(ms: seq<PfcpMsg>, i: nat)
    requires i < |ms| && LegOf(ms[i]).Response? && AreRequests(ms, Run(ms[..i]).pending)
    ensures var at := Find(ms, Run(ms[..i]).pending, LegOf(ms[i]).key); var before := Run(ms[..i]);
            Run(ms[..i + 1]) == if at.None? then before
                                else Pass(before.closed + [(before.pending[at.value], i)],
                                          Without(before.pending, at.value))
  {
    hide LegOf, Find, Without;
    assert ms[..i + 1][..i] == ms[..i];
    FindPrefix(ms, i + 1, Run(ms[..i]).pending, LegOf(ms[i]).key);
  }

  lemma RunSound(ms: seq<PfcpMsg>, i: nat)
    requires i <= |ms|
    ensures AreRequests(ms, Run(ms[..i]).pending) && AreClosed(ms, Run(ms[..i]).closed)
  {
    hide LegOf, Run;
  }

  /** The timeouts of the requests still pending at the end. */
  method AddTimeouts(ms: seq<PfcpMsg>, order: seq<PathKey>, pending: map<PathKey, (PfcpMsg, nat)>,
                     procedures0: seq<N4Procedure>, ghost at: seq<nat>)
    returns (procedures: seq<N4Procedure>, unpaired: seq<PfcpMsg>)
    requires AreRequests(ms, at) && Holds(ms, order, pending, at)
    ensures procedures == procedures0 + TimeoutRecords(ms, at)
    ensures |unpaired| == |at| && forall x :: 0 <= x < |at| ==> unpaired[x] == ms[at[x]]
  {
    hide LegOf;
    procedures, unpaired := procedures0, [];
    for x := 0 to |order|
      invariant procedures == procedures0 + TimeoutRecords(ms, at)[..x]
      invariant |unpaired| == x && forall y :: 0 <= y < x ==> unpaired[y] == ms[at[y]]
    {
      var (req, i) := pending[order[x]];
      procedures := procedures + [TimedOut(ms, i)];
      unpaired := unpaired + [req];
    }
    assert TimeoutRecords(ms, at)[..|at|] == TimeoutRecords(ms, at);
  }

  /** Pairs the requests and responses of a capture. */
  method PairProcedures(ms: seq<PfcpMsg>) returns (procedures: seq<N4Procedure>, unpaired: seq<PfcpMsg>)
    ensures procedures == Paired(ms) && unpaired == Unpaired(ms)
    ensures Accounts(ms, procedures, unpaired)
  {
    hide LegOf, Run, Find, Accounts, ClosedRecords, TimeoutRecords, Holds, AreRequests, AreClosed;
    PairedAccounts(ms);
    var pending: map<PathKey, (PfcpMsg, nat)> := map[];
    var order: seq<PathKey> := [];
    procedures, unpaired := [], [];
    AtStart(ms);
    assert ms[..0] == [];
    for i := 0 to |ms|
      invariant AreRequests(ms, Run(ms[..i]).pending) && AreClosed(ms, Run(ms[..i]).closed)
      invariant Holds(ms, order, pending, Run(ms[..i]).pending)
      invariant procedures == ClosedRecords(ms, Run(ms[..i]).closed)
    {
      order, pending, procedures := Take(ms, i, order, pending, procedures);
    }
    assert ms[..|ms|] == ms;
    procedures, unpaired := AddTimeouts(ms, order, pending, procedures, Run(ms).pending);
    procedures := Sort(ByStart, procedures);
  }

  lemma AtStart(ms: seq<PfcpMsg>)
    ensures Run([]) == Pass([], []) && AreRequests(ms, []) && AreClosed(ms, [])
    ensures Holds(ms, [], map[], []) && ClosedRecords(ms, []) == []
  {
  }
}

/** Pairing locality: other traffic never changes what a path's procedures are. */
module PfcpLocality {
  import opened Prelude
  import opened Sorting
  import opened Pfcp
  import opened PfcpPairing
  import opened PfcpTheorems

  /** The messages on one path, in order. */
  function OnPath(ms: seq<PfcpMsg>, key: PathKey): seq<PfcpMsg> {
    if ms == [] then []
    else
      var front := OnPath(ms[..|ms| - 1], key);
      if TouchesPath(ms[|ms| - 1], key) then front + [ms[|ms| - 1]] else front
  }

  /** Where those messages are in the whole capture. */
  function Positions(ms: seq<PfcpMsg>, key: PathKey): (r: seq<nat>)
    ensures |r| == |OnPath(ms, key)| && forall x :: 0 <= x < |r| ==> r[x] < |ms| && ms[r[x]] == OnPath(ms, key)[x]
  {
    if ms == [] then []
    else
      var front := Positions(ms[..|ms| - 1], key);
      if TouchesPath(ms[|ms| - 1], key) then front + [|ms| - 1] else front
  }

  predicate TouchesPath(m: PfcpMsg, key: PathKey) {
    Asks(m, key) || Answers(m, key)
  }

  function At(pos: seq<nat>, x: nat): nat {
    if x < |pos| then pos[x] else 0
  }

  /** A procedure of a sub-capture with its positions in the whole capture. */
  function Renumbered(pos: seq<nat>, p: N4Procedure): N4Procedure {
    p.(reqIndex := At(pos, p.reqIndex), rspIndex := if p.rspIndex.None? then None else Some(At(pos, p.rspIndex.value)))
  }

  /** The request of a procedure is on the path. */
  predicate IsOnPath(ms: seq<PfcpMsg>, key: PathKey, p: N4Procedure) {
    p.reqIndex < |ms| && Asks(ms[p.reqIndex], key)
  }

  function KeepClosed(ms: seq<PfcpMsg>, key: PathKey, cs: seq<(nat, nat)>): seq<(nat, nat)> {
    if cs == [] then []
    else
      var last := cs[|cs| - 1];
      KeepClosed(ms, key, cs[..|cs| - 1]) + if last.0 < |ms| && Asks(ms[last.0], key) then [last] else []
  }

  function KeepPending(ms: seq<PfcpMsg>, key: PathKey, at: seq<nat>): seq<nat> {
    if at == [] then []
    else
      var last := at[|at| - 1];
      KeepPending(ms, key, at[..|at| - 1]) + if last < |ms| && Asks(ms[last], key) then [last] else []
  }

  function MoveClosed(pos: seq<nat>, cs: seq<(nat, nat)>): seq<(nat, nat)> {
    seq(|cs|, x requires 0 <= x < |cs| => (At(pos, cs[x].0), At(pos, cs[x].1)))
  }

  function MovePending(pos: seq<nat>, at: seq<nat>): seq<nat> {
    seq(|at|, x requires 0 <= x < |at| => At(pos, at[x]))
  }

  lemma {:induction false} KeepPendingJoin(ms: seq<PfcpMsg>, key: PathKey, a: seq<nat>, b: seq<nat>)
    ensures KeepPending(ms, key, a + b) == KeepPending(ms, key, a) + KeepPending(ms, key, b)
  {
    if b == [] {
      assert a + b == a;
    } else {
      assert (a + b)[..|a + b| - 1] == a + b[..|b| - 1];
      KeepPendingJoin(ms, key, a, b[..|b| - 1]);
    }
  }

  lemma {:induction false} KeepPrefix(ms: seq<PfcpMsg>, n: nat, key: PathKey, cs: seq<(nat, nat)>, at: seq<nat>)
    requires n <= |ms| && (forall x :: 0 <= x < |cs| ==> cs[x].0 < n) && (forall x :: 0 <= x < |at| ==> at[x] < n)
    ensures KeepClosed(ms[..n], key, cs) == KeepClosed(ms, key, cs)
    ensures KeepPending(ms[..n], key, at) == KeepPending(ms, key, at)
    decreases |cs| + |at|
  {
    if cs != [] {
      KeepPrefix(ms, n, key, cs[..|cs| - 1], at);
    } else if at != [] {
      KeepPrefix(ms, n, key, cs, at[..|at| - 1]);
    }
  }

  /** The pass, seen on one path: the same as the pass on the path's own messages. */
  ghost predicate SameOnPath(ms: seq<PfcpMsg>, key: PathKey) {
    var pos := Positions(ms, key);
    && KeepClosed(ms, key, Run(ms).closed) == MoveClosed(pos, Run(OnPath(ms, key)).closed)
    && KeepPending(ms, key, Run(ms).pending) == MovePending(pos, Run(OnPath(ms, key)).pending)
  }

  lemma {:induction false} OnPathTouches(ms: seq<PfcpMsg>, key: PathKey)
    ensures forall x :: 0 <= x < |OnPath(ms, key)| ==> TouchesPath(OnPath(ms, key)[x], key)
  {
    hide TouchesPath;
    if ms != [] {
      OnPathTouches(ms[..|ms| - 1], key);
    }
  }

  lemma TouchingRequests(m: PfcpMsg, key: PathKey)
    requires TouchesPath(m, key)
    ensures LegOf(m).Request? <==> Asks(m, key)
    ensures LegOf(m).Response? <==> Answers(m, key)
    ensures !LegOf(m).Ignored?
  {
  }

  /** What is kept of the pending requests is the one found, if there is one. */
  lemma {:induction false} KeepIsFind(ms: seq<PfcpMsg>, key: PathKey, at: seq<nat>)
    requires AreRequests(ms, at)
    requires forall x, y :: 0 <= x < y < |at| ==> !(Asks(ms[at[x]], key) && Asks(ms[at[y]], key))
    ensures KeepPending(ms, key, at) ==
      if Find(ms, at, key).None? then [] else [at[Find(ms, at, key).value]]
  {
    hide LegOf, Asks;
    if at != [] {
      var n := |at| - 1;
      KeepIsFind(ms, key, at[..n]);
      if Find(ms, at[..n], key).Some? {
        assert !Asks(ms[at[n]], key);
      }
    }
  }

  lemma {:induction false} KeepWithout(ms: seq<PfcpMsg>, key: PathKey, at: seq<nat>, x: nat)
    requires x < |at| && !(at[x] < |ms| && Asks(ms[at[x]], key))
    ensures KeepPending(ms, key, Without(at, x)) == KeepPending(ms, key, at)
  {
    hide KeepPending, LegOf;
    var before, after := at[..x], at[x + 1..];
    KeepPendingJoin(ms, key, before, after);
    KeepPendingJoin(ms, key, before, [at[x]]);
    KeepPendingJoin(ms, key, before + [at[x]], after);
    KeepsNot(ms, key, at[x]);
    assert at == before + [at[x]] + after;
    assert KeepPending(ms, key, before) + [] == KeepPending(ms, key, before);
  }

  lemma KeepsNot(ms: seq<PfcpMsg>, key: PathKey, i: nat)
    requires !(i < |ms| && Asks(ms[i], key))
    ensures KeepPending(ms, key, [i]) == []
  {
    hide LegOf;
    assert [i][..0] == [];
  }

  lemma RunPendingApart(ms: seq<PfcpMsg>, key: PathKey)
    ensures var at := Run(ms).pending;
            forall x, y :: 0 <= x < y < |at| ==> !(Asks(ms[at[x]], key) && Asks(ms[at[y]], key))
  {
    hide LegOf, Run;
    PassIsDeclared(ms);
    var at := Run(ms).pending;
    forall x, y | 0 <= x < y < |at| && Asks(ms[at[x]], key) && Asks(ms[at[y]], key)
      ensures false
    {
      assert at[x] in at && at[y] in at;
      OnePendingPerPath(ms, at[x], at[y]);
    }
  }

  lemma KeepOneClosed(ms: seq<PfcpMsg>, key: PathKey, cs: seq<(nat, nat)>, c: (nat, nat))
    ensures KeepClosed(ms, key, cs + [c]) ==
      KeepClosed(ms, key, cs) + if c.0 < |ms| && Asks(ms[c.0], key) then [c] else []
  {
    assert (cs + [c])[..|cs|] == cs;
  }

  lemma KeepOnePending(ms: seq<PfcpMsg>, key: PathKey, at: seq<nat>, i: nat)
    ensures KeepPending(ms, key, at + [i]) ==
      KeepPending(ms, key, at) + if i < |ms| && Asks(ms[i], key) then [i] else []
  {
    assert (at + [i])[..|at|] == at;
  }

  lemma KeepFront(ms: seq<PfcpMsg>, key: PathKey)
    requires ms != []
    ensures var before := Run(ms[..|ms| - 1]);
            KeepClosed(ms[..|ms| - 1], key, before.closed) == KeepClosed(ms, key, before.closed) &&
            KeepPending(ms[..|ms| - 1], key, before.pending) == KeepPending(ms, key, before.pending)
  {
    hide LegOf, Run;
    var before := Run(ms[..|ms| - 1]);
    KeepPrefix(ms, |ms| - 1, key, before.closed, before.pending);
  }

  /** A message off the path does not show on it. */
  lemma OffPathStep(ms: seq<PfcpMsg>, key: PathKey)
    requires ms != [] && !TouchesPath(ms[|ms| - 1], key) && SameOnPath(ms[..|ms| - 1], key)
    ensures SameOnPath(ms, key)
  {
    hide LegOf, Run, Find, Without;
    var n := |ms| - 1;
    var before := Run(ms[..n]);
    RunStep(ms);
    KeepFront(ms, key);
    if LegOf(ms[n]).Request? {
      KeepOnePending(ms, key, before.pending, n);
      assert KeepPending(ms, key, before.pending) + [] == KeepPending(ms, key, before.pending);
    } else if LegOf(ms[n]).Response? {
      var at := Find(ms, before.pending, LegOf(ms[n]).key);
      if at.Some? {
        OtherPath(ms, n, before.pending[at.value], key);
        KeepWithout(ms, key, before.pending, at.value);
        KeepOneClosed(ms, key, before.closed, (before.pending[at.value], n));
        assert KeepClosed(ms, key, before.closed) + [] == KeepClosed(ms, key, before.closed);
      }
    }
  }

  lemma OtherPath(ms: seq<PfcpMsg>, n: nat, i: nat, key: PathKey)
    requires n < |ms| && i < |ms| && LegOf(ms[n]).Response? && !TouchesPath(ms[n], key) && Asks(ms[i], LegOf(ms[n]).key)
    ensures !Asks(ms[i], key)
  {
  }

  lemma MoveMore(pos: seq<nat>, n: nat, cs: seq<(nat, nat)>, at: seq<nat>)
    requires (forall x :: 0 <= x < |cs| ==> cs[x].0 < |pos| && cs[x].1 < |pos|)
    requires forall x :: 0 <= x < |at| ==> at[x] < |pos|
    ensures MoveClosed(pos + [n], cs) == MoveClosed(pos, cs) && MovePending(pos + [n], at) == MovePending(pos, at)
  {
  }

  lemma MoveJoin(pos: seq<nat>, cs: seq<(nat, nat)>, c: (nat, nat), at: seq<nat>, i: nat)
    ensures MoveClosed(pos, cs + [c]) == MoveClosed(pos, cs) + [(At(pos, c.0), At(pos, c.1))]
    ensures MovePending(pos, at + [i]) == MovePending(pos, at) + [At(pos, i)]
  {
  }

  /** On the path, the pass finds a pending request exactly when the path's own pass does, and the same one. */
  lemma FindSame(ms: seq<PfcpMsg>, key: PathKey, at: seq<nat>, path: seq<PfcpMsg>, own: seq<nat>, pos: seq<nat>)
    requires AreRequests(ms, at) && AreRequests(path, own)
    requires forall x, y :: 0 <= x < y < |at| ==> !(Asks(ms[at[x]], key) && Asks(ms[at[y]], key))
    requires forall x :: 0 <= x < |own| ==> Asks(path[own[x]], key)
    requires KeepPending(ms, key, at) == MovePending(pos, own)
    ensures var f := Find(ms, at, key); var g := Find(path, own, key);
            if f.None? then g.None? && own == []
            else |own| == 1 && g == Some(0) && At(pos, own[0]) == at[f.value]
  {
    hide LegOf, Find, KeepPending, Asks;
    KeepIsFind(ms, key, at);
    var moved := MovePending(pos, own);
    assert |moved| == |own|;
    if own != [] {
      assert moved[0] == At(pos, own[0]);
    }
  }

  /** The pass before the last message, on the path and on the whole capture. */
  lemma BeforeLast(ms: seq<PfcpMsg>, key: PathKey)
    requires ms != [] && TouchesPath(ms[|ms| - 1], key) && SameOnPath(ms[..|ms| - 1], key)
    ensures var n := |ms| - 1; var before := Run(ms[..n]);
            var path := OnPath(ms, key); var own := Run(path[..|path| - 1]); var pos := Positions(ms[..n], key);
            && path != [] && path[|path| - 1] == ms[n] && path[..|path| - 1] == OnPath(ms[..n], key)
            && |pos| == |path| - 1 && Positions(ms, key) == pos + [n]
            && AreRequests(ms, before.pending) && AreRequests(path, own.pending)
            && KeepClosed(ms, key, before.closed) == MoveClosed(pos + [n], own.closed)
            && KeepPending(ms, key, before.pending) == MovePending(pos + [n], own.pending)
            && (forall x :: 0 <= x < |own.pending| ==> Asks(path[own.pending[x]], key))
  {
    hide LegOf, Run, KeepClosed, KeepPending, MoveClosed, MovePending, TouchesPath;
    var n := |ms| - 1;
    var path := OnPath(ms, key);
    var own := Run(OnPath(ms[..n], key));
    assert path[..|path| - 1] == OnPath(ms[..n], key);
    RunStep(ms);
    RunStep(path);
    KeepFront(ms, key);
    MoveMore(Positions(ms[..n], key), n, own.closed, own.pending);
    OnPathTouches(ms, key);
    forall x | 0 <= x < |own.pending|
      ensures Asks(path[own.pending[x]], key)
    {
      TouchingRequests(path[own.pending[x]], key);
    }
  }

  lemma OnPathRequest(ms: seq<PfcpMsg>, key: PathKey)
    requires ms != [] && Asks(ms[|ms| - 1], key) && SameOnPath(ms[..|ms| - 1], key)
    ensures SameOnPath(ms, key)
  {
    hide LegOf, Run, Find, KeepClosed, KeepPending, MoveClosed, MovePending, Positions, OnPath;
    var n := |ms| - 1;
    var before := Run(ms[..n]);
    BeforeLast(ms, key);
    var path := OnPath(ms, key);
    var own := Run(path[..|path| - 1]);
    var pos := Positions(ms[..n], key) + [n];
    RunStep(ms);
    RunStep(path);
    RunPendingApart(ms[..n], key);
    FindSame(ms, key, before.pending, path, own.pending, pos);
    if Find(ms, before.pending, key).None? {
      KeepOnePending(ms, key, before.pending, n);
      MoveJoin(pos, own.closed, (0, 0), own.pending, |path| - 1);
    }
  }

  lemma OnPathResponse(ms: seq<PfcpMsg>, key: PathKey)
    requires ms != [] && Answers(ms[|ms| - 1], key) && SameOnPath(ms[..|ms| - 1], key)
    ensures SameOnPath(ms, key)
  {
    hide LegOf, Run, Find, KeepClosed, KeepPending, MoveClosed, MovePending, Positions, OnPath, Without;
    var n := |ms| - 1;
    var before := Run(ms[..n]);
    BeforeLast(ms, key);
    var path := OnPath(ms, key);
    var own := Run(path[..|path| - 1]);
    var pos := Positions(ms[..n], key) + [n];
    RunStep(ms);
    RunStep(path);
    RunPendingApart(ms[..n], key);
    FindSame(ms, key, before.pending, path, own.pending, pos);
    if Find(ms, before.pending, key).Some? {
      var at := Find(ms, before.pending, key).value;
      KeepOneClosed(ms, key, before.closed, (before.pending[at], n));
      MoveJoin(pos, own.closed, (own.pending[0], |path| - 1), own.pending, 0);
      NothingLeft(ms, key, before.pending, at);
      LastOut(own.pending, pos);
    }
  }

  lemma LastOut(own: seq<nat>, pos: seq<nat>)
    requires |own| == 1
    ensures Without(own, 0) == [] && MovePending(pos, Without(own, 0)) == []
  {
  }

  lemma {:induction false} NoneKept(ms: seq<PfcpMsg>, key: PathKey, at: seq<nat>)
    requires forall x :: 0 <= x < |at| ==> !(at[x] < |ms| && Asks(ms[at[x]], key))
    ensures KeepPending(ms, key, at) == []
  {
    if at != [] {
      NoneKept(ms, key, at[..|at| - 1]);
    }
  }

  /** Taking the found request leaves nothing pending on its path. */
  lemma NothingLeft(ms: seq<PfcpMsg>, key: PathKey, at: seq<nat>, x: nat)
    requires x < |at| && AreRequests(ms, at) && Asks(ms[at[x]], key)
    requires forall x, y :: 0 <= x < y < |at| ==> !(Asks(ms[at[x]], key) && Asks(ms[at[y]], key))
    ensures KeepPending(ms, key, Without(at, x)) == []
  {
    hide LegOf, Asks;
    var r := Without(at, x);
    forall y | 0 <= y < |r|
      ensures !(r[y] < |ms| && Asks(ms[r[y]], key))
    {
      assert r[y] == at[if y < x then y else y + 1];
    }
    NoneKept(ms, key, r);
  }

  lemma {:induction false} PassOnPath(ms: seq<PfcpMsg>, key: PathKey)
    ensures SameOnPath(ms, key)
  {
    hide LegOf, Run, SameOnPath;
    if ms == [] {
      NothingOnPath(key);
    } else {
      PassOnPath(ms[..|ms| - 1], key);
      if Asks(ms[|ms| - 1], key) {
        OnPathRequest(ms, key);
      } else if Answers(ms[|ms| - 1], key) {
        OnPathResponse(ms, key);
      } else {
        OffPathStep(ms, key);
      }
    }
  }

  lemma NothingOnPath(key: PathKey)
    ensures SameOnPath([], key)
  {
  }

  lemma {:induction false} KeepClosedRecords(ms: seq<PfcpMsg>, key: PathKey, cs: seq<(nat, nat)>,
                                             p: N4Procedure -> bool)
    requires AreClosed(ms, cs) && forall q :: p(q) <==> IsOnPath(ms, key, q)
    ensures AreClosed(ms, KeepClosed(ms, key, cs))
    ensures Filter(p, ClosedRecords(ms, cs)) == ClosedRecords(ms, KeepClosed(ms, key, cs))
  {
    hide LegOf, Asks, Filter;
    FilterNone(p);
    if cs != [] {
      var n := |cs| - 1;
      KeepClosedRecords(ms, key, cs[..n], p);
      var last := Answered(ms, cs[n].0, cs[n].1);
      assert ClosedRecords(ms, cs) == ClosedRecords(ms, cs[..n]) + [last];
      FilterJoin(p, ClosedRecords(ms, cs[..n]), [last]);
      FilterOne(p, last);
    }
  }

  lemma {:induction false} KeepTimeoutRecords(ms: seq<PfcpMsg>, key: PathKey, at: seq<nat>, p: N4Procedure -> bool)
    requires AreRequests(ms, at) && forall q :: p(q) <==> IsOnPath(ms, key, q)
    ensures AreRequests(ms, KeepPending(ms, key, at))
    ensures Filter(p, TimeoutRecords(ms, at)) == TimeoutRecords(ms, KeepPending(ms, key, at))
  {
    hide LegOf, Asks, Filter;
    FilterNone(p);
    if at != [] {
      var n := |at| - 1;
      KeepTimeoutRecords(ms, key, at[..n], p);
      var last := TimedOut(ms, at[n]);
      assert TimeoutRecords(ms, at) == TimeoutRecords(ms, at[..n]) + [last];
      FilterJoin(p, TimeoutRecords(ms, at[..n]), [last]);
      FilterOne(p, last);
    }
  }

  lemma MovedRecords(ms: seq<PfcpMsg>, key: PathKey, cs: seq<(nat, nat)>, at: seq<nat>, f: N4Procedure -> N4Procedure)
    requires var path := OnPath(ms, key); AreClosed(path, cs) && AreRequests(path, at)
    requires forall q :: f(q) == Renumbered(Positions(ms, key), q)
    requires AreClosed(ms, MoveClosed(Positions(ms, key), cs)) && AreRequests(ms, MovePending(Positions(ms, key), at))
    ensures var path := OnPath(ms, key); var pos := Positions(ms, key);
            ClosedRecords(ms, MoveClosed(pos, cs)) == MapSeq(f, ClosedRecords(path, cs)) &&
            TimeoutRecords(ms, MovePending(pos, at)) == MapSeq(f, TimeoutRecords(path, at))
  {
    hide LegOf;
    var path, pos := OnPath(ms, key), Positions(ms, key);
    forall x | 0 <= x < |cs|
      ensures ClosedRecords(ms, MoveClosed(pos, cs))[x] == f(ClosedRecords(path, cs)[x])
    {
      assert ms[pos[cs[x].0]] == path[cs[x].0] && ms[pos[cs[x].1]] == path[cs[x].1];
    }
    forall x | 0 <= x < |at|
      ensures TimeoutRecords(ms, MovePending(pos, at))[x] == f(TimeoutRecords(path, at)[x])
    {
      assert ms[pos[at[x]]] == path[at[x]];
    }
  }

  /**
   * The procedures that pairing a whole capture gives for one path are, in order and up to
   * the numbering of messages, those from pairing the path's messages alone.
   */
  lemma PairingLocality(ms: seq<PfcpMsg>, key: PathKey)
    ensures Filter((p: N4Procedure) => IsOnPath(ms, key, p), Paired(ms)) ==
      MapSeq((p: N4Procedure) => Renumbered(Positions(ms, key), p), Paired(OnPath(ms, key)))
  {
    var p := (q: N4Procedure) => IsOnPath(ms, key, q);
    var f := (q: N4Procedure) => Renumbered(Positions(ms, key), q);
    LocalRecords(ms, key, p, f);
    StartOrder();
    FilterSort(ByStart, p, Records(ms));
    SortMap(ByStart, ByStart, f, Records(OnPath(ms, key)));
  }

  lemma LocalRecords(ms: seq<PfcpMsg>, key: PathKey, p: N4Procedure -> bool, f: N4Procedure -> N4Procedure)
    requires forall q :: p(q) <==> IsOnPath(ms, key, q)
    requires forall q :: f(q) == Renumbered(Positions(ms, key), q)
    ensures Filter(p, Records(ms)) == MapSeq(f, Records(OnPath(ms, key)))
  {
    hide LegOf, Run, IsOnPath, Renumbered, ClosedRecords, TimeoutRecords, KeepClosed, KeepPending, MoveClosed,
      MovePending, OnPath;
    PassOnPath(ms, key);
    var r, own := Run(ms), Run(OnPath(ms, key));
    KeepClosedRecords(ms, key, r.closed, p);
    KeepTimeoutRecords(ms, key, r.pending, p);
    MovedRecords(ms, key, own.closed, own.pending, f);
    FilterJoin(p, ClosedRecords(ms, r.closed), TimeoutRecords(ms, r.pending));
    MapJoin(f, ClosedRecords(OnPath(ms, key), own.closed), TimeoutRecords(OnPath(ms, key), own.pending));
  }
}

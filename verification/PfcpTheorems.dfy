/** Conservation, timeouts and durations of the PFCP pairing. */
module PfcpTheorems {
  import opened Sorting
  import opened Pfcp
  import opened PfcpPairing

  lemma StartOrder()
    ensures TotalPreorder(ByStart)
  {
  }

  /** The procedure that the messages declare for a first send. */
  ghost predicate IsProcedureOf(ms: seq<PfcpMsg>, i: nat, p: N4Procedure) {
    || (exists j: nat :: IsClosed(ms, i, j) && j < |ms| && LegOf(ms[j]).Response? && p == Answered(ms, i, j))
    || (IsPending(ms, i) && p == TimedOut(ms, i))
  }

  predicate DistinctRequests(p: N4Procedure, q: N4Procedure) {
    p.reqIndex != q.reqIndex && (p.rspIndex.Some? ==> p.rspIndex != q.rspIndex)
  }

  lemma RecordIsDeclared(ms: seq<PfcpMsg>, p: N4Procedure) returns (i: nat)
    requires p in Records(ms)
    ensures IsProcedureOf(ms, i, p)
  {
    hide LegOf, Run, IsClosed, IsPending;
    PassIsDeclared(ms);
    var r := Run(ms);
    var cs, ts := ClosedRecords(ms, r.closed), TimeoutRecords(ms, r.pending);
    if p in cs {
      var x :| 0 <= x < |cs| && cs[x] == p;
      i := r.closed[x].0;
      assert r.closed[x] in r.closed && r.closed[x] == (i, r.closed[x].1);
    } else {
      var x :| 0 <= x < |ts| && ts[x] == p;
      i := r.pending[x];
      assert i in r.pending;
    }
  }

  lemma DeclaredIsRecord(ms: seq<PfcpMsg>, i: nat, p: N4Procedure)
    requires IsProcedureOf(ms, i, p)
    ensures p in Records(ms)
  {
    hide LegOf, Run, IsClosed, IsPending;
    PassIsDeclared(ms);
    var r := Run(ms);
    if IsPending(ms, i) && p == TimedOut(ms, i) {
      var x :| 0 <= x < |r.pending| && r.pending[x] == i;
      assert TimeoutRecords(ms, r.pending)[x] == p;
    } else {
      var j: nat :| IsClosed(ms, i, j) && j < |ms| && LegOf(ms[j]).Response? && p == Answered(ms, i, j);
      var x :| 0 <= x < |r.closed| && r.closed[x] == (i, j);
      assert ClosedRecords(ms, r.closed)[x] == p;
    }
  }

  lemma RecordsMembers(ms: seq<PfcpMsg>, p: N4Procedure)
    ensures p in Records(ms) <==> exists i: nat :: IsProcedureOf(ms, i, p)
  {
    hide Records, IsProcedureOf;
    if p in Records(ms) {
      var i := RecordIsDeclared(ms, p);
    }
    if i: nat :| IsProcedureOf(ms, i, p) {
      DeclaredIsRecord(ms, i, p);
    }
  }

  lemma OneEnding(ms: seq<PfcpMsg>, i: nat, j: nat)
    requires IsClosed(ms, i, j)
    ensures !IsPending(ms, i)
    ensures forall j': nat :: IsClosed(ms, i, j') ==> j' == j
    ensures forall i': nat :: IsClosed(ms, i', j) ==> i' == i
  {
    forall i': nat | IsClosed(ms, i', j)
      ensures i' == i
    {
      assert i < i' ==> Asks(ms[i], LegOf(ms[i']).key);
      assert i' < i ==> Asks(ms[i'], LegOf(ms[i]).key);
    }
  }

  lemma RecordsDistinct(ms: seq<PfcpMsg>)
    ensures Pairwise(DistinctRequests, Records(ms))
  {
    hide LegOf, Run, IsClosed, IsPending;
    PassIsDeclared(ms);
    var r := Run(ms);
    var all := Records(ms);
    var n := |r.closed|;
    forall x, y | 0 <= x < y < |all|
      ensures DistinctRequests(all[x], all[y])
    {
      if x < n {
        var c := r.closed[x];
        assert c in r.closed && c == (c.0, c.1);
        OneEnding(ms, c.0, c.1);
        if y < n {
          var d := r.closed[y];
          assert d in r.closed && d == (d.0, d.1);
        } else {
          assert r.pending[y - n] in r.pending;
        }
      }
    }
  }

  lemma FirstSendEnds(ms: seq<PfcpMsg>, i: nat)
    requires FirstSend(ms, i)
    ensures IsPending(ms, i) || exists j: nat :: IsClosed(ms, i, j)
  {
    if !NeverAnswered(ms, i) {
      var m :| i < m < |ms| && Answers(ms[m], LegOf(ms[i]).key);
      var j := FirstAnswer(ms, i, m);
      assert IsClosed(ms, i, j);
    }
  }

  lemma {:induction false} FirstAnswer(ms: seq<PfcpMsg>, i: nat, m: nat) returns (j: nat)
    requires i < m < |ms| && LegOf(ms[i]).Request? && Answers(ms[m], LegOf(ms[i]).key)
    ensures AnsweredBy(ms, i, j)
    decreases m
  {
    if m' :| i < m' < m && Answers(ms[m'], LegOf(ms[i]).key) {
      j := FirstAnswer(ms, i, m');
    } else {
      j := m;
    }
  }

  lemma ClosedLegs(ms: seq<PfcpMsg>, i: nat, j: nat)
    requires IsClosed(ms, i, j)
    ensures i < j < |ms| && FirstSend(ms, i) && LegOf(ms[j]).Response?
  {
  }

  /**
   * Conservation: the procedures are exactly those the messages declare, each first send
   * having one and each response closing at most one, in start order.
   */
  lemma Conservation(ms: seq<PfcpMsg>)
    ensures Sorted(ByStart, Paired(ms))
    ensures forall p :: p in Paired(ms) <==> exists i: nat :: IsProcedureOf(ms, i, p)
    ensures forall i: nat :: FirstSend(ms, i) <==> exists p :: p in Paired(ms) && p.reqIndex == i
    ensures Pairwise(DistinctRequests, Paired(ms))
  {
    hide LegOf, Run, IsClosed, IsPending, FirstSend, Records;
    StartOrder();
    SortSorted(ByStart, Records(ms));
    SortMembers(ByStart, Records(ms));
    RecordsDistinct(ms);
    SortPairwise(ByStart, DistinctRequests, Records(ms));
    forall p
      ensures p in Paired(ms) <==> exists i: nat :: IsProcedureOf(ms, i, p)
    {
      RecordsMembers(ms, p);
    }
    forall i: nat
      ensures FirstSend(ms, i) <==> exists p :: p in Paired(ms) && p.reqIndex == i
    {
      if FirstSend(ms, i) {
        var p := ProcedureFor(ms, i);
        assert p in Paired(ms);
      }
      if p :| p in Paired(ms) && p.reqIndex == i {
        var k: nat :| IsProcedureOf(ms, k, p);
        ProcedureIsFirstSend(ms, k, p);
      }
    }
  }

  lemma ProcedureFor(ms: seq<PfcpMsg>, i: nat) returns (p: N4Procedure)
    requires FirstSend(ms, i)
    ensures IsProcedureOf(ms, i, p) && p.reqIndex == i
  {
    FirstSendEnds(ms, i);
    if IsPending(ms, i) {
      p := TimedOut(ms, i);
    } else {
      var j: nat :| IsClosed(ms, i, j);
      ClosedLegs(ms, i, j);
      p := Answered(ms, i, j);
    }
  }

  lemma ProcedureIsFirstSend(ms: seq<PfcpMsg>, i: nat, p: N4Procedure)
    requires IsProcedureOf(ms, i, p)
    ensures FirstSend(ms, i) && p.reqIndex == i
  {
    if !(IsPending(ms, i) && p == TimedOut(ms, i)) {
      var j: nat :| IsClosed(ms, i, j) && j < |ms| && LegOf(ms[j]).Response? && p == Answered(ms, i, j);
    }
  }

  /** Timeouts are the first sends with no later response on their path. */
  lemma Timeouts(ms: seq<PfcpMsg>, p: N4Procedure)
    requires p in Paired(ms)
    ensures p.outcome.Timeout? <==> FirstSend(ms, p.reqIndex) && NeverAnswered(ms, p.reqIndex)
    ensures p.outcome.Timeout? <==> p.rspIndex.None?
  {
    Conservation(ms);
    var i: nat :| IsProcedureOf(ms, i, p);
    ProcedureIsFirstSend(ms, i, p);
    if !p.outcome.Timeout? {
      var j: nat :| IsClosed(ms, i, j) && j < |ms| && LegOf(ms[j]).Response? && p == Answered(ms, i, j);
      OneEnding(ms, i, j);
    }
  }

  /** Captures that move forward in time give no negative duration. */
  lemma DurationsForward(ms: seq<PfcpMsg>)
    requires forall i, j :: 0 <= i < j < |ms| ==> ms[i].ts <= ms[j].ts
    ensures forall p :: p in Paired(ms) ==> p.startTs <= p.endTs
  {
    Conservation(ms);
    forall p | p in Paired(ms)
      ensures p.startTs <= p.endTs
    {
      var i: nat :| IsProcedureOf(ms, i, p);
      if !(IsPending(ms, i) && p == TimedOut(ms, i)) {
        var j: nat :| IsClosed(ms, i, j) && j < |ms| && LegOf(ms[j]).Response? && p == Answered(ms, i, j);
        ClosedLegs(ms, i, j);
      }
    }
  }
}

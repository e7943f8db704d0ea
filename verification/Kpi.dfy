/** Per-capture KPIs over the flows. */
module Kpi {
  import opened Prelude
  import opened FlowModel
  import opened FlowBuilder
  import opened FlowTheorems

  datatype KpiResult = KpiResult(attachTimesMs: seq<real>, pduSessionTimesMs: seq<real>, successes: nat, failures: nat)

  function Sum(xs: seq<real>): real {
    if xs == [] then 0.0 else Sum(xs[..|xs| - 1]) + xs[|xs| - 1]
  }

  function Mean(xs: seq<real>): Option<real> {
    if xs == [] then None else Some(Sum(xs) / |xs| as real)
  }

  lemma {:induction false} SumJoin(xs: seq<real>, ys: seq<real>)
    ensures Sum(xs + ys) == Sum(xs) + Sum(ys)
    ensures |xs| == 1 ==> Sum(xs) == xs[0]
  {
    if ys == [] {
      assert xs + ys == xs;
    } else {
      assert (xs + ys)[..|xs + ys| - 1] == xs + ys[..|ys| - 1];
      SumJoin(xs, ys[..|ys| - 1]);
    }
  }

  /** No value for no samples; otherwise the samples' sum shared out equally, which lies among them. */
  ghost predicate IsMean(xs: seq<real>, m: Option<real>) {
    if xs == [] then m == None
    else m.Some? && m.value * |xs| as real == Sum(xs) && Among(xs, m.value)
  }

  /** Not below the least and not above the greatest. */
  ghost predicate Among(xs: seq<real>, x: real) {
    exists i, j :: 0 <= i < |xs| && 0 <= j < |xs| && xs[i] <= x <= xs[j]
                   && forall k :: 0 <= k < |xs| ==> xs[i] <= xs[k] <= xs[j]
  }

  lemma {:induction false} Extremes(xs: seq<real>) returns (i: nat, j: nat)
    requires xs != []
    ensures i < |xs| && j < |xs| && forall k :: 0 <= k < |xs| ==> xs[i] <= xs[k] <= xs[j]
  {
    var n := |xs| - 1;
    if n == 0 {
      i, j := 0, 0;
    } else {
      i, j := Extremes(xs[..n]);
      assert forall k :: 0 <= k < n ==> xs[..n][k] == xs[k];
      i, j := if xs[n] < xs[i] then n else i, if xs[n] > xs[j] then n else j;
    }
  }

  lemma {:induction false} SumBetween(xs: seq<real>, low: real, high: real)
    requires forall k :: 0 <= k < |xs| ==> low <= xs[k] <= high
    ensures low * |xs| as real <= Sum(xs) <= high * |xs| as real
  {
    if xs != [] {
      SumBetween(xs[..|xs| - 1], low, high);
    }
  }

  lemma MeanIsMean(xs: seq<real>)
    ensures IsMean(xs, Mean(xs))
  {
    hide Sum;
    if xs != [] {
      var n, s := |xs| as real, Sum(xs);
      var i, j := Extremes(xs);
      SumBetween(xs, xs[i], xs[j]);
      DivideBack(s, n);
      AtMostShare(xs[i], s, n);
      AtLeastShare(xs[j], s, n);
      assert Mean(xs) == Some(s / n);
    }
  }

  lemma DivideBack(s: real, n: real)
    requires n > 0.0
    ensures s / n * n == s
  {
  }

  lemma AtMostShare(low: real, s: real, n: real)
    requires n > 0.0 && low * n <= s
    ensures low <= s / n
  {
  }

  lemma AtLeastShare(high: real, s: real, n: real)
    requires n > 0.0 && s <= high * n
    ensures s / n <= high
  {
  }

  function SuccessRate(r: KpiResult): Option<real> {
    var total := r.successes + r.failures;
    if total == 0 then None else Some(r.successes as real / total as real)
  }

  function Duration(p: Procedure): real
    requires p.endTs.Some?
  {
    (p.endTs.value - p.startTs) * 1000.0
  }

  predicate AllTerminal(ps: seq<Procedure>) {
    forall i :: 0 <= i < |ps| ==> Terminal(ps[i])
  }

  /** The durations of one kind, in order. */
  function Durations(ps: seq<Procedure>, k: Kind): seq<real>
    requires AllTerminal(ps)
  {
    if ps == [] then []
    else
      var last := ps[|ps| - 1];
      Durations(ps[..|ps| - 1], k) + if last.kind == k then [Duration(last)] else []
  }

  /** The durations are those of the procedures of the kind at these places, in milliseconds. */
  ghost predicate Lasts(ps: seq<Procedure>, k: Kind, ds: seq<real>, at: seq<nat>) {
    && |at| == |ds| && (forall x, y :: 0 <= x < y < |at| ==> at[x] < at[y])
    && (forall i: nat :: i in at <==> i < |ps| && ps[i].kind == k)
    && (forall x :: 0 <= x < |at| ==>
          at[x] < |ps| && ps[at[x]].endTs.Some? && ds[x] == 1000.0 * ps[at[x]].endTs.value - 1000.0 * ps[at[x]].startTs)
  }

  lemma {:induction false} DurationsLast(ps: seq<Procedure>, k: Kind) returns (at: seq<nat>)
    requires AllTerminal(ps)
    ensures Lasts(ps, k, Durations(ps, k), at)
  {
    hide Lasts;
    if ps == [] {
      at := [];
      NothingLasts(k);
    } else {
      var n := |ps| - 1;
      at := DurationsLast(ps[..n], k);
      LastsOneMore(ps, k, Durations(ps[..n], k), at);
      if ps[n].kind == k {
        at := at + [n];
      } else {
        assert Durations(ps[..n], k) + [] == Durations(ps[..n], k);
      }
    }
  }

  lemma NothingLasts(k: Kind)
    ensures Lasts([], k, [], [])
  {
  }

  lemma LastsOneMore(ps: seq<Procedure>, k: Kind, ds: seq<real>, at: seq<nat>)
    requires ps != [] && ps[|ps| - 1].endTs.Some? && Lasts(ps[..|ps| - 1], k, ds, at)
    ensures var n := |ps| - 1;
            if ps[n].kind == k then Lasts(ps, k, ds + [Duration(ps[n])], at + [n]) else Lasts(ps, k, ds, at)
  {
    var n := |ps| - 1;
    assert forall x :: 0 <= x < |at| ==> at[x] in at && at[x] < n && ps[..n][at[x]] == ps[at[x]];
    assert forall i: nat :: i < n ==> ps[..n][i] == ps[i];
  }

  function Count(ps: seq<Procedure>, v: Verdict): nat {
    if ps == [] then 0 else Count(ps[..|ps| - 1], v) + if ps[|ps| - 1].outcome == v then 1 else 0
  }

  /** The procedures of the flows, of complete flows only when `complete` is set. */
  function Gathered(fs: seq<FlowState>, complete: bool): seq<Procedure> {
    if fs == [] then []
    else
      var last := fs[|fs| - 1];
      Gathered(fs[..|fs| - 1], complete) + if complete && last.partial then [] else last.procedures
  }

  lemma {:induction false} DurationsJoin(ps: seq<Procedure>, qs: seq<Procedure>, k: Kind)
    requires AllTerminal(ps) && AllTerminal(qs)
    ensures AllTerminal(ps + qs) && Durations(ps + qs, k) == Durations(ps, k) + Durations(qs, k)
  {
    if qs == [] {
      assert ps + qs == ps;
    } else {
      assert (ps + qs)[..|ps + qs| - 1] == ps + qs[..|qs| - 1];
      DurationsJoin(ps, qs[..|qs| - 1], k);
    }
  }

  lemma {:induction false} CountJoin(ps: seq<Procedure>, qs: seq<Procedure>, v: Verdict)
    ensures Count(ps + qs, v) == Count(ps, v) + Count(qs, v)
  {
    if qs == [] {
      assert ps + qs == ps;
    } else {
      assert (ps + qs)[..|ps + qs| - 1] == ps + qs[..|qs| - 1];
      CountJoin(ps, qs[..|qs| - 1], v);
    }
  }

  /** Terminal procedures are successes or failures. */
  lemma {:induction false} OutcomesAddUp(ps: seq<Procedure>)
    requires AllTerminal(ps)
    ensures Count(ps, Accept) + Count(ps, Reject) == |ps|
  {
    if ps != [] {
      OutcomesAddUp(ps[..|ps| - 1]);
    }
  }

  lemma {:induction false} DurationsPartition(ps: seq<Procedure>)
    requires AllTerminal(ps)
    ensures |Durations(ps, Registration)| + |Durations(ps, PduSession)| == |ps|
  {
    if ps != [] {
      DurationsPartition(ps[..|ps| - 1]);
    }
  }

  predicate AllFlowsTerminal(fs: seq<FlowState>) {
    forall i :: 0 <= i < |fs| ==> AllTerminal(fs[i].procedures)
  }

  lemma {:induction false} GatheredTerminal(fs: seq<FlowState>, complete: bool)
    requires AllFlowsTerminal(fs)
    ensures AllTerminal(Gathered(fs, complete))
  {
    if fs != [] {
      GatheredTerminal(fs[..|fs| - 1], complete);
    }
  }

  /** The latencies of one flow's procedures, added to those so far. */
  method FlowLatencies(ps: seq<Procedure>, attach: seq<real>, pdu: seq<real>)
    returns (attach': seq<real>, pdu': seq<real>)
    requires AllTerminal(ps)
    ensures attach' == attach + Durations(ps, Registration) && pdu' == pdu + Durations(ps, PduSession)
  {
    attach', pdu' := attach, pdu;
    for j := 0 to |ps|
      invariant attach' == attach + Durations(ps[..j], Registration)
      invariant pdu' == pdu + Durations(ps[..j], PduSession)
    {
      assert ps[..j + 1][..j] == ps[..j];
      if ps[j].kind == Registration {
        attach' := attach' + [Duration(ps[j])];
      } else {
        pdu' := pdu' + [Duration(ps[j])];
      }
    }
    assert ps[..|ps|] == ps;
  }

  /** The latency pass: complete flows only. */
  method Latencies(fs: seq<FlowState>) returns (attach: seq<real>, pdu: seq<real>)
    requires AllFlowsTerminal(fs)
    ensures AllTerminal(Gathered(fs, true))
    ensures attach == Durations(Gathered(fs, true), Registration) && pdu == Durations(Gathered(fs, true), PduSession)
  {
    attach, pdu := [], [];
    for i := 0 to |fs|
      invariant AllTerminal(Gathered(fs[..i], true))
      invariant attach == Durations(Gathered(fs[..i], true), Registration)
      invariant pdu == Durations(Gathered(fs[..i], true), PduSession)
    {
      assert fs[..i + 1][..i] == fs[..i];
      ghost var before := Gathered(fs[..i], true);
      assert before + [] == before;
      if !fs[i].partial {
        attach, pdu := FlowLatencies(fs[i].procedures, attach, pdu);
        DurationsJoin(before, fs[i].procedures, Registration);
        DurationsJoin(before, fs[i].procedures, PduSession);
      }
    }
    assert fs[..|fs|] == fs;
  }

  /** The outcome pass: partial flows included. */
  method Outcomes(fs: seq<FlowState>) returns (successes: nat, failures: nat)
    ensures successes == Count(Gathered(fs, false), Accept) && failures == Count(Gathered(fs, false), Reject)
  {
    successes, failures := 0, 0;
    for i := 0 to |fs|
      invariant successes == Count(Gathered(fs[..i], false), Accept)
      invariant failures == Count(Gathered(fs[..i], false), Reject)
    {
      assert fs[..i + 1][..i] == fs[..i];
      ghost var before := Gathered(fs[..i], false);
      var ps := fs[i].procedures;
      for j := 0 to |ps|
        invariant successes == Count(before, Accept) + Count(ps[..j], Accept)
        invariant failures == Count(before, Reject) + Count(ps[..j], Reject)
      {
        assert ps[..j + 1][..j] == ps[..j];
        if ps[j].outcome == Accept {
          successes := successes + 1;
        } else if ps[j].outcome == Reject {
          failures := failures + 1;
        }
      }
      assert ps[..|ps|] == ps;
      CountJoin(before, ps, Accept);
      CountJoin(before, ps, Reject);
    }
    assert fs[..|fs|] == fs;
  }

  /** Both passes; the subtraction of the first needs procedures that ended. */
  method Compute(fs: seq<FlowState>) returns (r: KpiResult)
    requires AllFlowsTerminal(fs)
    ensures AllTerminal(Gathered(fs, true))
    ensures r.attachTimesMs == Durations(Gathered(fs, true), Registration)
    ensures r.pduSessionTimesMs == Durations(Gathered(fs, true), PduSession)
    ensures r.successes == Count(Gathered(fs, false), Accept) && r.failures == Count(Gathered(fs, false), Reject)
    ensures r.successes + r.failures == |Gathered(fs, false)|
    ensures SuccessRate(r) == if Gathered(fs, false) == [] then None
                              else Some(Count(Gathered(fs, false), Accept) as real / |Gathered(fs, false)| as real)
    ensures |r.attachTimesMs| + |r.pduSessionTimesMs| == |Gathered(fs, true)|
    ensures exists at :: Lasts(Gathered(fs, true), Registration, r.attachTimesMs, at)
    ensures exists at :: Lasts(Gathered(fs, true), PduSession, r.pduSessionTimesMs, at)
  {
    hide Lasts;
    var attach, pdu := Latencies(fs);
    var successes, failures := Outcomes(fs);
    GatheredTerminal(fs, false);
    OutcomesAddUp(Gathered(fs, false));
    DurationsPartition(Gathered(fs, true));
    var _ := DurationsLast(Gathered(fs, true), Registration);
    var _ := DurationsLast(Gathered(fs, true), PduSession);
    r := KpiResult(attach, pdu, successes, failures);
  }

  /** The subtraction in `Compute` is total on every capture's flows. */
  lemma FlowsAreTerminal(decode: NasDecoder, ms: seq<NgapMsg>)
    ensures AllFlowsTerminal(Flows(decode, ms))
  {
    forall i | 0 <= i < |Keys(ms)|
      ensures AllTerminal(Flows(decode, ms)[i].procedures)
    {
      assert Keys(ms)[i] in Keys(ms);
      PairingDiscipline(decode, OnKey(ms, Keys(ms)[i]));
    }
  }

  /** From messages to KPIs: every procedure found is a success or a failure. */
  method Analyze(decode: NasDecoder, ms: seq<NgapMsg>) returns (r: KpiResult)
    ensures r.successes + r.failures == |Gathered(Flows(decode, ms), false)|
    ensures AllTerminal(Gathered(Flows(decode, ms), true))
    ensures r.attachTimesMs == Durations(Gathered(Flows(decode, ms), true), Registration)
    ensures r.pduSessionTimesMs == Durations(Gathered(Flows(decode, ms), true), PduSession)
    ensures r.successes == Count(Gathered(Flows(decode, ms), false), Accept)
    ensures exists at :: Lasts(Gathered(Flows(decode, ms), true), Registration, r.attachTimesMs, at)
    ensures exists at :: Lasts(Gathered(Flows(decode, ms), true), PduSession, r.pduSessionTimesMs, at)
  {
    hide Lasts;
    FlowsAreTerminal(decode, ms);
    var b := BuildFlows(decode, ms);
    var views := seq(|b.order|, i requires 0 <= i < |b.order| reads b, b.order => b.View(b.order[i]));
    assert views == Flows(decode, ms);
    r := Compute(views);
  }
}

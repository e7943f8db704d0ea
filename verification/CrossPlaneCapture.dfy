/** From a capture's messages to the cross-plane means: flows, correlation and KPIs put together. */
module CrossPlaneCapture {
  import opened Prelude
  import opened FlowModel
  import opened FlowBuilder
  import opened Pfcp
  import opened Correlate
  import opened Kpi
  import opened CrossPlane
  import opened CrossPlaneTheorems

  /** The flows as the joins see them: ids from one, in order of first appearance. */
  function UeFlows(fs: seq<FlowState>): (r: seq<UeFlow>)
    ensures |r| == |fs|
    ensures forall i :: 0 <= i < |fs| ==> r[i] == UeFlow(i + 1, fs[i].partial, fs[i].messages)
    ensures forall i, j :: 0 <= i < j < |r| ==> r[i].id != r[j].id
  {
    seq(|fs|, i requires 0 <= i < |fs| => UeFlow(i + 1, fs[i].partial, fs[i].messages))
  }

  /** No create and no establishment response is a leg of two units. */
  ghost predicate Exclusive(w: Planes, fs: seq<UeFlow>) {
    forall p: nat, x: nat, q: nat, y: nat ::
      p < |fs| && q < |fs| && x < |FlowUnits(w, fs[p])| && y < |FlowUnits(w, fs[q])| && (p, x) != (q, y) ==>
        var u, v := FlowUnits(w, fs[p])[x], FlowUnits(w, fs[q])[y];
        && (u.create.Some? && v.create.Some? ==> u.create.value.index != v.create.value.index)
        && (u.est.Some? && v.est.Some? ==> u.est.value.index != v.est.value.index)
  }

  /** The builder's flow objects, read for the joins. */
  method ReadFlows(b: Builder, ghost ms: seq<NgapMsg>) returns (fs: seq<UeFlow>)
    requires b.Valid(ms)
    ensures fs == UeFlows(Flows(b.decode, ms))
  {
    hide Builder.Valid, Flows;
    ShownFlows(b, ms);
    fs := [];
    for i := 0 to |b.order|
      invariant |fs| == i && fs == UeFlows(Flows(b.decode, ms))[..i]
    {
      fs := fs + [UeFlow(b.order[i].flowId, b.order[i].partial, b.order[i].messages)];
    }
  }

  lemma ShownFlows(b: Builder, ms: seq<NgapMsg>)
    requires b.Valid(ms)
    ensures var views := Flows(b.decode, ms);
            |b.order| == |views|
            && forall j :: 0 <= j < |views| ==>
                 UeFlow(b.order[j].flowId, b.order[j].partial, b.order[j].messages)
                 == UeFlow(j + 1, views[j].partial, views[j].messages)
  {
    hide Flows, Unassociated, Keys, Builder.KnownIds, IsOf;
    forall j | 0 <= j < |b.order|
      ensures var v := Flows(b.decode, ms)[j];
              b.order[j].flowId == j + 1 && b.order[j].partial == v.partial && b.order[j].messages == v.messages
    {
      assert b.View(b.order[j]) == Flows(b.decode, ms)[j] && Keys(ms)[j] in b.flows;
    }
  }

  lemma UnitsAreExclusive(w: Planes, fs: seq<UeFlow>, sbiFlow: map<nat, Option<nat>>, n4Flow: map<nat, Option<nat>>)
    requires Inverse(sbiFlow, w.sbiRefs) && Inverse(n4Flow, w.n4Refs)
    requires forall i, j :: 0 <= i < j < |fs| ==> fs[i].id != fs[j].id
    ensures Exclusive(w, fs)
  {
    hide Inverse, FlowUnits;
    forall p: nat, x: nat, q: nat, y: nat |
      p < |fs| && q < |fs| && x < |FlowUnits(w, fs[p])| && y < |FlowUnits(w, fs[q])| && (p, x) != (q, y)
      ensures var u, v := FlowUnits(w, fs[p])[x], FlowUnits(w, fs[q])[y];
              && (u.create.Some? && v.create.Some? ==> u.create.value.index != v.create.value.index)
              && (u.est.Some? && v.est.Some? ==> u.est.value.index != v.est.value.index)
    {
      LegsAreExclusive(w, fs, sbiFlow, n4Flow, p, x, q, y);
    }
  }

  /** For every capture: the joins are the declared ones, no leg is used twice, and the means are over all units. */
  method MeasureCapture(decode: NasDecoder, ms: seq<NgapMsg>, sbi: seq<SbiMsg>, n4: seq<PfcpMsg>)
    returns (c: Correlation, m: Means)
    ensures var fs := UeFlows(Flows(decode, ms)); var w := Planes(sbi, n4, c.flowSbiRefs, c.flowN4Refs);
            && Follows(c.sbiFlow, SbiLinks(fs, sbi)) && Inverse(c.sbiFlow, c.flowSbiRefs)
            && Follows(c.n4Flow, N4Links(fs, n4)) && Inverse(c.n4Flow, c.flowN4Refs)
            && InRange(w) && RefsDistinct(w) && Exclusive(w, fs)
            && m == Means(Mean(Samples(SbiToN4, Units(w, fs))), Mean(Samples(N4ToN2, Units(w, fs))),
                          Mean(Samples(SbiToN2, Units(w, fs))))
            && IsMean(Samples(SbiToN4, Units(w, fs)), m.sbiToN4) && IsMean(Samples(N4ToN2, Units(w, fs)), m.n4ToN2)
            && IsMean(Samples(SbiToN2, Units(w, fs)), m.sbiToN2)
  {
    hide Follows, Inverse, SbiLinks, N4Links, InRange, RefsDistinct, Exclusive, Units, Samples, Mean, IsMean, Flows,
      Builder.Valid;
    var b := BuildFlows(decode, ms);
    var fs := ReadFlows(b, ms);
    c := CorrelateFlows(fs, sbi, n4);
    ghost var w := Planes(sbi, n4, c.flowSbiRefs, c.flowN4Refs);
    CorrelatedPlanes(fs, w, c.sbiFlow, c.n4Flow);
    UnitsAreExclusive(w, fs, c.sbiFlow, c.n4Flow);
    m := CrossPlaneKpis(fs, c, sbi, n4);
  }
}

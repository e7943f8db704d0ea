/** Partial flows in the cross-plane KPIs: they count, and when that makes no difference. */
module CrossPlanePartial {
  import opened Prelude
  import opened FlowModel
  import opened Pfcp
  import opened Correlate
  import opened CorrelateTheorems
  import opened CrossPlane

  /** The flows whose latencies the documentation promises. */
  function CompleteOnly(fs: seq<UeFlow>): seq<UeFlow> {
    if fs == [] then []
    else
      var last := fs[|fs| - 1];
      CompleteOnly(fs[..|fs| - 1]) + if last.partial then [] else [last]
  }

  /** No unit of a partial flow has the KPI. */
  predicate NoPartialSample(kpi: Legs -> Option<real>, w: Planes, fs: seq<UeFlow>) {
    forall i, x :: 0 <= i < |fs| && fs[i].partial && 0 <= x < |FlowUnits(w, fs[i])| ==>
      kpi(FlowUnits(w, fs[i])[x]).None?
  }

  lemma {:induction false} NoSamples(kpi: Legs -> Option<real>, us: seq<Legs>)
    ensures Samples(kpi, us) == [] <==> forall x :: 0 <= x < |us| ==> kpi(us[x]).None?
  {
    if us != [] {
      var n := |us| - 1;
      NoSamples(kpi, us[..n]);
      assert forall x :: 0 <= x < n ==> us[..n][x] == us[x];
    }
  }

  lemma UnitsOneMore(w: Planes, fs: seq<UeFlow>, f: UeFlow)
    ensures Units(w, fs + [f]) == Units(w, fs) + FlowUnits(w, f)
  {
    assert (fs + [f])[..|fs|] == fs;
  }

  /** Leaving out the partial flows only takes samples away, and takes none exactly when they give none. */
  lemma {:induction false} PartialSamples(kpi: Legs -> Option<real>, w: Planes, fs: seq<UeFlow>)
    ensures var all, promised := Samples(kpi, Units(w, fs)), Samples(kpi, Units(w, CompleteOnly(fs)));
            && |promised| <= |all|
            && (all == promised <==> |all| == |promised|)
            && (all == promised <==> NoPartialSample(kpi, w, fs))
  {
    hide FlowUnits, Units, Samples, NoPartialSample, CompleteOnly;
    if fs == [] {
      NoFlows(kpi, w);
    } else {
      var n := |fs| - 1;
      var f := fs[n];
      var front := CompleteOnly(fs[..n]);
      PartialSamples(kpi, w, fs[..n]);
      assert fs == fs[..n] + [f];
      UnitsOneMore(w, fs[..n], f);
      SamplesJoin(kpi, Units(w, fs[..n]), FlowUnits(w, f));
      CompleteOneMore(fs[..n], f);
      UnitsOneMore(w, front, f);
      SamplesJoin(kpi, Units(w, front), FlowUnits(w, f));
      NoSamples(kpi, FlowUnits(w, f));
      LastPartial(kpi, w, fs);
      Appended(Samples(kpi, Units(w, fs[..n])), Samples(kpi, Units(w, front)), Samples(kpi, FlowUnits(w, f)));
    }
  }

  lemma NoFlows(kpi: Legs -> Option<real>, w: Planes)
    ensures CompleteOnly([]) == [] && Units(w, []) == [] && NoPartialSample(kpi, w, [])
  {
  }

  lemma CompleteOneMore(fs: seq<UeFlow>, f: UeFlow)
    ensures CompleteOnly(fs + [f]) == if f.partial then CompleteOnly(fs) else CompleteOnly(fs) + [f]
  {
    assert (fs + [f])[..|fs|] == fs;
  }

  lemma Appended(a: seq<real>, b: seq<real>, c: seq<real>)
    ensures |b| <= |a| && (a == b <==> |a| == |b|) ==>
              && (a + c == b + c <==> a == b) && (a + c == b + c <==> |a + c| == |b + c|)
              && (a + c == b <==> a == b && c == []) && (a + c == b <==> |a + c| == |b|)
  {
    assert c == [] ==> a + c == a;
    assert a + c == b + c ==> |a| == |b|;
  }

  lemma LastPartial(kpi: Legs -> Option<real>, w: Planes, fs: seq<UeFlow>)
    requires fs != []
    ensures var n := |fs| - 1;
            NoPartialSample(kpi, w, fs)
            <==> NoPartialSample(kpi, w, fs[..n])
                 && (fs[n].partial ==> forall x :: 0 <= x < |FlowUnits(w, fs[n])| ==> kpi(FlowUnits(w, fs[n])[x]).None?)
  {
    hide FlowUnits;
    var n := |fs| - 1;
    assert forall i :: 0 <= i < n ==> fs[..n][i] == fs[i];
  }

  /** Some unit of a partial flow has both legs. */
  ghost predicate PartialUnit(w: Planes, fs: seq<UeFlow>, both: Legs -> bool) {
    exists i, x :: 0 <= i < |fs| && fs[i].partial && 0 <= x < |FlowUnits(w, fs[i])| && both(FlowUnits(w, fs[i])[x])
  }

  /**
   * A KPI is taken over complete flows only exactly when no partial flow has a unit with
   * both legs of it.
   */
  lemma CompleteFlowsOnly(w: Planes, fs: seq<UeFlow>)
    ensures var us, promised := Units(w, fs), Units(w, CompleteOnly(fs));
            && (Samples(SbiToN4, us) == Samples(SbiToN4, promised)
                <==> !PartialUnit(w, fs, (u: Legs) => u.create.Some? && u.est.Some?))
            && (Samples(N4ToN2, us) == Samples(N4ToN2, promised)
                <==> !PartialUnit(w, fs, (u: Legs) => u.est.Some? && u.setup.Some?))
            && (Samples(SbiToN2, us) == Samples(SbiToN2, promised)
                <==> !PartialUnit(w, fs, (u: Legs) => u.create.Some? && u.setup.Some?))
  {
    hide FlowUnits, Units, Samples;
    PartialSamples(SbiToN4, w, fs);
    PartialSamples(N4ToN2, w, fs);
    PartialSamples(SbiToN2, w, fs);
  }

  /** A flow with a single setup response that carries no session items has no session anchors. */
  lemma NoAnchors(w: Planes, f: UeFlow, setup: NgapMsg, nas: Option<NasMsg>)
    requires f.messages == [(setup, nas)] && setup.name == Some(SETUP_RESPONSE) && setup.rspSessionCounts == map[]
    requires w.sbiRefs == map[]
    ensures Named(f.messages, SETUP_RESPONSE) == [setup] && Creates(w, f) == []
    ensures Sessions(w, f) == {}
  {
    var ms := f.messages;
    assert ms[..0] == [] && Named([], SETUP_RESPONSE) == [] && Named([], SETUP_REQUEST) == [];
    assert Named(ms, SETUP_RESPONSE) == [setup] && Named(ms, SETUP_REQUEST) == [];
    assert [setup][..0] == [] && RspTimes([setup]) == map[];
  }

  lemma UnitsOfOne(w: Planes, f: UeFlow)
    requires Sessions(w, f) == {}
    ensures Units(w, [f]) == [BareLegs(w, f)] && Units(w, []) == []
    ensures f.partial ==> CompleteOnly([f]) == []
  {
    hide BareLegs, Sessions;
    assert [f][..0] == [];
  }

  lemma BareN4ToN2(w: Planes, f: UeFlow, est: PfcpMsg, setup: NgapMsg)
    requires w.n4 == [est] && Ests(w, f) == [0] && Named(f.messages, SETUP_RESPONSE) == [setup]
    ensures N4ToN2(BareLegs(w, f)) == Some((setup.ts - est.ts) * 1000.0)
  {
    hide BareCreate, Ests, Named;
  }

  lemma OneEst(w: Planes, f: UeFlow, est: PfcpMsg)
    requires est.name == Some(EST_RESPONSE) && w.n4 == [est] && w.n4Refs == map[f.id := [0]]
    ensures Ests(w, f) == [0]
  {
    assert RefsOf(w.n4Refs, f.id) == [0] && [0][1..] == [];
  }

  /** A flow alone in declaring the only tunnel of a message is its flow. */
  lemma SoleFlowLinks(f: UeFlow, setup: NgapMsg, nas: Option<NasMsg>, est: PfcpMsg, t: Tunnel)
    requires f.messages == [(setup, nas)] && setup.fTeids == [t] && est.fTeids == [t] && est.unparsed.None?
    ensures N4Links([f], [est]) == [Some(f.id)] && Inverse(map[0 := Some(f.id)], map[f.id := [0]])
  {
    var fs := [f];
    assert Claimants(fs, TunnelsOf, t) == {f.id} by {
      assert fs[0] == f && t in TunnelsOf(f.messages[0]);
    }
    SoleIsOnly(fs, TunnelsOf, t, f.id);
    N4LinksUnambiguousTunnels(fs, est, f.id);
  }

  /** One partial flow with an establishment response and a setup response, joined by a tunnel, gives a sample. */
  lemma PartialFlowCounts(est: PfcpMsg, setup: NgapMsg, nas: Option<NasMsg>, t: Tunnel)
    requires est.name == Some(EST_RESPONSE) && setup.name == Some(SETUP_RESPONSE) && setup.rspSessionCounts == map[]
    requires est.unparsed.None? && est.fTeids == [t] && setup.fTeids == [t]
    ensures var f := UeFlow(1, true, [(setup, nas)]);
            var w := Planes([], [est], map[], map[1 := [0]]);
            && N4Links([f], [est]) == [Some(1)] && Inverse(map[0 := Some(1)], w.n4Refs)
            && Samples(N4ToN2, Units(w, [f])) == [(setup.ts - est.ts) * 1000.0]
            && Samples(N4ToN2, Units(w, CompleteOnly([f]))) == []
  {
    var f := UeFlow(1, true, [(setup, nas)]);
    var w := Planes([], [est], map[], map[1 := [0]]);
    hide Units, Sessions, Named, Samples, CompleteOnly, Creates, Ests, BareLegs, N4ToN2, N4Links, Inverse;
    SoleFlowLinks(f, setup, nas, est, t);
    NoAnchors(w, f, setup, nas);
    UnitsOfOne(w, f);
    OneEst(w, f, est);
    BareN4ToN2(w, f, est, setup);
    OneUnit(BareLegs(w, f));
    NoUnits();
  }
}

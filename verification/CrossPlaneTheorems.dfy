/** Legs are exact and belong to one session; the means add up. */
module CrossPlaneTheorems {
  import opened Prelude
  import opened Sorting
  import opened FlowModel
  import opened Correlate
  import opened Kpi
  import opened CrossPlane

  lemma {:induction false} FilterDistinct(p: nat -> bool, s: seq<nat>)
    requires Distinct(s)
    ensures Distinct(Filter(p, s))
  {
    if s != [] {
      FilterDistinct(p, s[1..]);
      FilterMembers(p, s[1..]);
      var rest := Filter(p, s[1..]);
      forall j | 0 <= j < |rest|
        ensures rest[j] != s[0]
      {
        assert rest[j] in rest && rest[j] in s[1..];
      }
    }
  }

  /** The one member of a filtered list is the only member with the property. */
  lemma OnlyOneIsOnly(p: nat -> bool, s: seq<nat>, i: nat)
    requires Distinct(s)
    ensures OnlyOne(Filter(p, s)) == Some(i) <==> i in s && p(i) && forall j :: j in s && p(j) ==> j == i
  {
    hide Filter, Distinct, OnlyOne;
    var r := Filter(p, s);
    FilterDistinct(p, s);
    forall j: nat
      ensures j in r <==> j in s && p(j)
    {
      FilterHas(p, s, j);
    }
    OnlyMember(r, i);
  }

  lemma {:induction false} FilterHas(p: nat -> bool, s: seq<nat>, j: nat)
    ensures j in Filter(p, s) <==> j in s && p(j)
  {
    if s != [] {
      FilterHas(p, s[1..], j);
      assert s == [s[0]] + s[1..];
    }
  }

  lemma OnlyMember(r: seq<nat>, i: nat)
    requires Distinct(r)
    ensures OnlyOne(r) == Some(i) <==> i in r && forall j: nat :: j in r ==> j == i
  {
    if i in r && forall j: nat :: j in r ==> j == i {
      forall k | 0 <= k < |r|
        ensures r[k] == i
      {
        assert r[k] in r;
      }
      OneValue(r, i);
    }
  }

  lemma OneValue(r: seq<nat>, i: nat)
    requires Distinct(r) && i in r && forall k :: 0 <= k < |r| ==> r[k] == i
    ensures r == [i]
  {
    if |r| > 1 {
      TwoDiffer(r, 0, 1);
    }
  }

  lemma TwoDiffer(r: seq<nat>, i: nat, j: nat)
    requires Distinct(r) && i < j < |r|
    ensures r[i] != r[j]
  {
  }

  predicate RefsDistinct(w: Planes) {
    (forall f :: f in w.sbiRefs ==> Distinct(w.sbiRefs[f])) && forall f :: f in w.n4Refs ==> Distinct(w.n4Refs[f])
  }

  /** A session's establishment leg is the only one of the flow's responses whose tunnels name this session alone. */
  lemma EstIsExact(w: Planes, f: UeFlow, sid: int, i: nat)
    requires RefsDistinct(w)
    ensures var tunnels := ReqTunnels(Named(f.messages, SETUP_REQUEST));
            SessionEst(w, f, sid) == Some(i)
            <==> && i in RefsOf(w.n4Refs, f.id) && IsEst(w, i) && Anchors(w, tunnels, sid, i)
                 && forall j :: j in RefsOf(w.n4Refs, f.id) && IsEst(w, j) && Anchors(w, tunnels, sid, j) ==> j == i
  {
    hide Filter, Anchors, IsEst;
    FilterDistinct(EstIn(w), RefsOf(w.n4Refs, f.id));
    FilterMembers(EstIn(w), RefsOf(w.n4Refs, f.id));
    var tunnels := ReqTunnels(Named(f.messages, SETUP_REQUEST));
    OnlyOneIsOnly(Anchoring(w, tunnels, sid), Ests(w, f), i);
  }

  /** A session's create leg is the only one of the flow's creates for it, at the session's SMF if that is known. */
  lemma CreateIsExact(w: Planes, f: UeFlow, sid: int, i: nat)
    requires RefsDistinct(w)
    ensures var est := SessionEst(w, f, sid);
            SessionCreate(w, f, sid) == Some(i)
            <==> && i in RefsOf(w.sbiRefs, f.id) && IsCreate(w, i) && CreatesSession(w, sid, est, i)
                 && forall j :: j in RefsOf(w.sbiRefs, f.id) && IsCreate(w, j) && CreatesSession(w, sid, est, j)
                              ==> j == i
  {
    hide Filter, SessionEst, CreatesSession, IsCreate;
    FilterDistinct(CreateIn(w), RefsOf(w.sbiRefs, f.id));
    FilterMembers(CreateIn(w), RefsOf(w.sbiRefs, f.id));
    var est := SessionEst(w, f, sid);
    OnlyOneIsOnly(Creating(w, sid, est), Creates(w, f), i);
  }

  ghost predicate Carries(ms: seq<Event>, ng: NgapMsg) {
    exists i :: 0 <= i < |ms| && ms[i].0 == ng
  }

  lemma CarriesOneMore(ms: seq<Event>, ng: NgapMsg)
    requires ms != []
    ensures Carries(ms, ng) <==> ng == ms[|ms| - 1].0 || Carries(ms[..|ms| - 1], ng)
  {
    var n := |ms| - 1;
    assert forall i :: 0 <= i < n ==> ms[..n][i] == ms[i];
  }

  /** The messages of a name are those of the flow with that name. */
  lemma {:induction false} NamedMembers(ms: seq<Event>, name: string, ng: NgapMsg)
    ensures ng in Named(ms, name) <==> ng.name == Some(name) && Carries(ms, ng)
  {
    if ms != [] {
      NamedMembers(ms[..|ms| - 1], name, ng);
      CarriesOneMore(ms, ng);
    }
  }

  /** One response has the only item of the session, at the time. */
  ghost predicate OnlyItem(rsps: seq<NgapMsg>, sid: int, t: real) {
    exists n :: 0 <= n < |rsps| && rsps[n].ts == t && ItemsIn(rsps[n], sid) == 1
                && forall m :: 0 <= m < |rsps| && m != n ==> ItemsIn(rsps[m], sid) == 0
  }

  lemma {:induction false} OneTimeIsOnlyItem(rsps: seq<NgapMsg>, sid: int, t: real)
    ensures TimesOf(RspTimes(rsps), sid) == [t] <==> OnlyItem(rsps, sid, t)
  {
    if rsps != [] {
      var n := |rsps| - 1;
      OneTimeIsOnlyItem(rsps[..n], sid, t);
      TimesAreItems(rsps[..n], sid);
      TimesStep(rsps, sid);
      OnlyItemStep(rsps, sid, t);
      hide RspTimes, OnlyItem, ItemsOf, ItemsIn, Times;
      SplitOne(TimesOf(RspTimes(rsps[..n]), sid), Times(rsps[n].ts, ItemsIn(rsps[n], sid)), t);
      TimesOne(rsps[n].ts, ItemsIn(rsps[n], sid), t);
    }
  }

  lemma SplitOne(front: seq<real>, last: seq<real>, t: real)
    ensures front + last == [t] <==> (front == [t] && last == []) || (front == [] && last == [t])
  {
    assert front + last == [t] ==> |front| + |last| == 1;
    assert front == [] ==> front + last == last;
    assert last == [] ==> front + last == front;
  }

  lemma TimesOne(ts: real, n: nat, t: real)
    ensures Times(ts, n) == [] <==> n == 0
    ensures Times(ts, n) == [t] <==> n == 1 && ts == t
  {
    assert n == 1 ==> Times(ts, n)[0] == ts;
  }

  lemma OnlyItemStep(rsps: seq<NgapMsg>, sid: int, t: real)
    requires rsps != []
    ensures var n := |rsps| - 1; var c := ItemsIn(rsps[n], sid);
            OnlyItem(rsps, sid, t)
            <==> (c == 0 && OnlyItem(rsps[..n], sid, t))
                 || (c == 1 && rsps[n].ts == t && forall m :: 0 <= m < n ==> ItemsIn(rsps[..n][m], sid) == 0)
  {
    var n := |rsps| - 1;
    var front := rsps[..n];
    assert forall m :: 0 <= m < n ==> front[m] == rsps[m];
    if m :| 0 <= m < n && front[m].ts == t && ItemsIn(front[m], sid) == 1
            && forall x :: 0 <= x < n && x != m ==> ItemsIn(front[x], sid) == 0 {
      assert ItemsIn(rsps[n], sid) == 0 ==> rsps[m].ts == t;
    }
  }

  /** A session's N2 leg is t exactly when one setup response has the session's only item, at t. */
  lemma SetupIsExact(f: UeFlow, sid: int, t: real)
    ensures SessionSetup(f, sid) == Some(t) <==> OnlyItem(Named(f.messages, SETUP_RESPONSE), sid, t)
  {
    hide OnlyItem, Named, RspTimes;
    OneTimeIsOnlyItem(Named(f.messages, SETUP_RESPONSE), sid, t);
  }

  /** Which flow and which session a unit's legs are of. */
  lemma UnitLegs(w: Planes, f: UeFlow, x: nat)
    requires x < |FlowUnits(w, f)|
    ensures var u := FlowUnits(w, f)[x]; var sids := SortedInts(Sessions(w, f));
            && |FlowUnits(w, f)| == (if sids == [] then 1 else |sids|)
            && (u.create.Some? ==> u.create.value.index in RefsOf(w.sbiRefs, f.id))
            && (u.est.Some? ==> u.est.value.index in RefsOf(w.n4Refs, f.id))
            && (u.create.Some? && sids != [] ==>
                  u.create.value.index < |w.sbi| && w.sbi[u.create.value.index].pduSessionId == Some(sids[x]))
            && (u.est.Some? && sids != [] ==>
                  && u.est.value.index < |w.n4|
                  && Hits(ReqTunnels(Named(f.messages, SETUP_REQUEST)), w.n4[u.est.value.index].fTeids) == {sids[x]})
  {
    var sids := SortedInts(Sessions(w, f));
    hide Filter, Sessions, SortedInts, Named, ReqTunnels, SessionSetup;
    if sids == [] {
      OnlyOneMember(Reaching(w, BareSmf(w, f)), Creates(w, f));
      OneInList(Ests(w, f));
    } else {
      var est := SessionEst(w, f, sids[x]);
      OnlyOneMember(Creating(w, sids[x], est), Creates(w, f));
      OnlyOneMember(Anchoring(w, ReqTunnels(Named(f.messages, SETUP_REQUEST)), sids[x]), Ests(w, f));
    }
    FilterMembers(CreateIn(w), RefsOf(w.sbiRefs, f.id));
    FilterMembers(EstIn(w), RefsOf(w.n4Refs, f.id));
  }

  lemma OnlyOneMember(p: nat -> bool, s: seq<nat>)
    ensures var i := OnlyOne(Filter(p, s)); i.Some? ==> i.value in s && p(i.value)
  {
    FilterMembers(p, s);
    OneInList(Filter(p, s));
  }

  /** Across the whole capture, no create and no establishment response is a leg of two sessions. */
  lemma LegsAreExclusive(w: Planes, fs: seq<UeFlow>, sbiFlow: map<nat, Option<nat>>, n4Flow: map<nat, Option<nat>>,
                         p: nat, x: nat, q: nat, y: nat)
    requires Inverse(sbiFlow, w.sbiRefs) && Inverse(n4Flow, w.n4Refs)
    requires forall i, j :: 0 <= i < j < |fs| ==> fs[i].id != fs[j].id
    requires p < |fs| && q < |fs| && x < |FlowUnits(w, fs[p])| && y < |FlowUnits(w, fs[q])| && (p, x) != (q, y)
    ensures var u, v := FlowUnits(w, fs[p])[x], FlowUnits(w, fs[q])[y];
            && (u.create.Some? && v.create.Some? ==> u.create.value.index != v.create.value.index)
            && (u.est.Some? && v.est.Some? ==> u.est.value.index != v.est.value.index)
  {
    hide FlowUnits, Sessions, SortedInts, Hits, Named, ReqTunnels;
    UnitLegs(w, fs[p], x);
    UnitLegs(w, fs[q], y);
    var sids := SortedInts(Sessions(w, fs[p]));
    if p == q {
      Increasing(Sessions(w, fs[p]));
    } else {
      RefsApart(sbiFlow, w.sbiRefs, fs[p].id, fs[q].id);
      RefsApart(n4Flow, w.n4Refs, fs[p].id, fs[q].id);
    }
  }

  lemma Increasing(s: set<int>)
    ensures var r := SortedInts(s); forall i, j :: 0 <= i < |r| && 0 <= j < |r| && i != j ==> r[i] != r[j]
  {
  }

  lemma RefsApart(flowOf: map<nat, Option<nat>>, refs: map<nat, seq<nat>>, f: nat, g: nat)
    requires Inverse(flowOf, refs) && f != g
    ensures forall i :: i in RefsOf(refs, f) ==> i !in RefsOf(refs, g)
  {
    forall i | i in RefsOf(refs, f)
      ensures i !in RefsOf(refs, g)
    {
      assert flowOf[i] == Some(f);
    }
  }

  /** What the correlation hands over: its references are indexes of messages, each once. */
  lemma CorrelatedPlanes(fs: seq<UeFlow>, w: Planes, sbiFlow: map<nat, Option<nat>>, n4Flow: map<nat, Option<nat>>)
    requires Follows(sbiFlow, SbiLinks(fs, w.sbi)) && Inverse(sbiFlow, w.sbiRefs)
    requires Follows(n4Flow, N4Links(fs, w.n4)) && Inverse(n4Flow, w.n4Refs)
    ensures InRange(w) && RefsDistinct(w)
  {
    forall f, i | f in w.sbiRefs && i in w.sbiRefs[f]
      ensures i < |w.sbi|
    {
      assert i in sbiFlow;
    }
    forall f, i | f in w.n4Refs && i in w.n4Refs[f]
      ensures i < |w.n4|
    {
      assert i in n4Flow;
    }
  }

  /** A unit that gives any sample has all three legs. */
  predicate AllOrNothing(us: seq<Legs>) {
    forall i :: 0 <= i < |us| ==>
                  (SbiToN4(us[i]).Some? || N4ToN2(us[i]).Some? || SbiToN2(us[i]).Some?)
                  ==> us[i].create.Some? && us[i].est.Some? && us[i].setup.Some?
  }

  /** The units that have a KPI. */
  ghost function Samplers(kpi: Legs -> Option<real>, us: seq<Legs>): set<nat> {
    set i: nat | i < |us| && kpi(us[i]).Some?
  }

  lemma SamplersGrow(kpi: Legs -> Option<real>, us: seq<Legs>)
    requires us != []
    ensures var n := |us| - 1; var was := Samplers(kpi, us[..n]);
            n !in was && Samplers(kpi, us) == was + if kpi(us[n]).Some? then {n} else {}
  {
    var n := |us| - 1;
    assert forall i: nat :: i < n ==> us[..n][i] == us[i];
  }

  /** Each unit gives a KPI at most one sample, exactly when it has both legs. */
  lemma {:induction false} OneSampleEach(kpi: Legs -> Option<real>, us: seq<Legs>)
    ensures |Samples(kpi, us)| == |Samplers(kpi, us)|
  {
    if us != [] {
      var n := |us| - 1;
      OneSampleEach(kpi, us[..n]);
      SamplersGrow(kpi, us);
    }
  }

  lemma {:induction false} SamplesTelescope(us: seq<Legs>)
    requires AllOrNothing(us)
    ensures var a, b, c := Samples(SbiToN4, us), Samples(N4ToN2, us), Samples(SbiToN2, us);
            |a| == |b| == |c| && Sum(c) == Sum(a) + Sum(b)
  {
    if us != [] {
      var n := |us| - 1;
      SamplesTelescope(us[..n]);
      SumOneMore(Samples(SbiToN4, us[..n]), SbiToN4(us[n]));
      SumOneMore(Samples(N4ToN2, us[..n]), N4ToN2(us[n]));
      SumOneMore(Samples(SbiToN2, us[..n]), SbiToN2(us[n]));
    }
  }

  lemma SumOneMore(xs: seq<real>, x: Option<real>)
    ensures Sum(xs + if x.Some? then [x.value] else []) == Sum(xs) + if x.Some? then x.value else 0.0
  {
    if x.Some? {
      assert (xs + [x.value])[..|xs|] == xs;
    } else {
      assert xs + [] == xs;
    }
  }

  lemma QuotientOfSum(a: real, b: real, n: real)
    requires n > 0.0
    ensures (a + b) / n == a / n + b / n
  {
  }

  /** With three legs in every contributing session, the means telescope. */
  lemma MeansTelescope(w: Planes, fs: seq<UeFlow>)
    requires AllOrNothing(Units(w, fs))
    ensures var us := Units(w, fs);
            var a, b, c := Mean(Samples(SbiToN4, us)), Mean(Samples(N4ToN2, us)), Mean(Samples(SbiToN2, us));
            (a.Some? <==> c.Some?) && (b.Some? <==> c.Some?) && (c.Some? ==> c.value == a.value + b.value)
  {
    hide Units, Samples, Sum;
    var us := Units(w, fs);
    SamplesTelescope(us);
    var a, b := Samples(SbiToN4, us), Samples(N4ToN2, us);
    if a != [] {
      QuotientOfSum(Sum(a), Sum(b), |a| as real);
    }
  }
}

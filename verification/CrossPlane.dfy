/** Cross-plane latencies: the three legs of each session, and the means over the sessions that have them. */
module CrossPlane {
  import opened Prelude
  import opened Sorting
  import opened FlowModel
  import opened Pfcp
  import opened Correlate
  import opened Kpi

  /** The messages of both planes and the references of the flows to them. */
  datatype Planes = Planes(sbi: seq<SbiMsg>, n4: seq<PfcpMsg>, sbiRefs: map<nat, seq<nat>>, n4Refs: map<nat, seq<nat>>)

  /** A message that can be a leg: its index and its time. */
  datatype Stamp = Stamp(index: nat, ts: real)

  datatype Legs = Legs(create: Option<Stamp>, est: Option<Stamp>, setup: Option<real>)

  datatype Means = Means(sbiToN4: Option<real>, n4ToN2: Option<real>, sbiToN2: Option<real>)

  const SETUP_REQUEST := "PDUSessionResourceSetupRequest"
  const SETUP_RESPONSE := "PDUSessionResourceSetupResponse"
  const EST_RESPONSE := "PFCP Session Establishment Response"
  const CREATE_PATH := "/nsmf-pdusession/v1/sm-contexts"

  function RefsOf(refs: map<nat, seq<nat>>, f: nat): seq<nat> {
    if f in refs then refs[f] else []
  }

  predicate InRange(w: Planes) {
    && (forall f, i :: f in w.sbiRefs && i in w.sbiRefs[f] ==> i < |w.sbi|)
    && (forall f, i :: f in w.n4Refs && i in w.n4Refs[f] ==> i < |w.n4|)
  }

  function Named(ms: seq<Event>, name: string): seq<NgapMsg> {
    if ms == [] then []
    else
      var ng := ms[|ms| - 1].0;
      Named(ms[..|ms| - 1], name) + if ng.name == Some(name) then [ng] else []
  }

  predicate IsEst(w: Planes, i: nat) {
    i < |w.n4| && w.n4[i].name == Some(EST_RESPONSE)
  }

  predicate IsCreate(w: Planes, i: nat) {
    && i < |w.sbi| && w.sbi[i].direction == REQUEST && w.sbi[i].httpMethod == Some("POST")
    && w.sbi[i].path == Some(CREATE_PATH)
  }

  function EstIn(w: Planes): nat -> bool {
    (i: nat) => IsEst(w, i)
  }

  function CreateIn(w: Planes): nat -> bool {
    (i: nat) => IsCreate(w, i)
  }

  function Ests(w: Planes, f: UeFlow): seq<nat> {
    Filter(EstIn(w), RefsOf(w.n4Refs, f.id))
  }

  function Creates(w: Planes, f: UeFlow): seq<nat> {
    Filter(CreateIn(w), RefsOf(w.sbiRefs, f.id))
  }

  function AddTunnels(m: map<int, set<Tunnel>>, add: map<int, seq<Tunnel>>): map<int, set<Tunnel>> {
    map sid | sid in m.Keys + add.Keys
      :: (if sid in m then m[sid] else {}) + (if sid in add then set t | t in add[sid] else {})
  }

  /** The UPF endpoints of every session of the setup requests. */
  function ReqTunnels(reqs: seq<NgapMsg>): map<int, set<Tunnel>> {
    if reqs == [] then map[]
    else AddTunnels(ReqTunnels(reqs[..|reqs| - 1]), reqs[|reqs| - 1].reqSessionTunnels)
  }

  function Times(ts: real, n: nat): seq<real> {
    seq(n, i => ts)
  }

  function AddTimes(m: map<int, seq<real>>, add: map<int, nat>, ts: real): map<int, seq<real>> {
    map sid | sid in m.Keys + add.Keys
      :: (if sid in m then m[sid] else []) + (if sid in add then Times(ts, add[sid]) else [])
  }

  /** The times of every session's items in the setup responses. */
  function RspTimes(rsps: seq<NgapMsg>): map<int, seq<real>> {
    if rsps == [] then map[]
    else AddTimes(RspTimes(rsps[..|rsps| - 1]), rsps[|rsps| - 1].rspSessionCounts, rsps[|rsps| - 1].ts)
  }

  /** The value of a list of one. */
  function OnlyOne<T>(s: seq<T>): Option<T> {
    if |s| == 1 then Some(s[0]) else None
  }

  /** The sessions with a tunnel of the message. */
  function Hits(tunnels: map<int, set<Tunnel>>, fTeids: seq<Tunnel>): set<int> {
    set sid | sid in tunnels && exists t :: t in fTeids && t in tunnels[sid]
  }

  predicate Anchors(w: Planes, tunnels: map<int, set<Tunnel>>, sid: int, i: nat) {
    i < |w.n4| && Hits(tunnels, w.n4[i].fTeids) == {sid}
  }

  /** A create of the session; of the establishment's SMF, if there is an establishment. */
  predicate CreatesSession(w: Planes, sid: int, est: Option<nat>, i: nat) {
    && i < |w.sbi| && w.sbi[i].pduSessionId == Some(sid)
    && (est.Some? ==> est.value < |w.n4| && w.sbi[i].dstIp == w.n4[est.value].dstIp)
  }

  predicate ReachesSmf(w: Planes, smf: Option<string>, i: nat) {
    i < |w.sbi| && (smf.None? || w.sbi[i].dstIp == smf)
  }

  function Anchoring(w: Planes, tunnels: map<int, set<Tunnel>>, sid: int): nat -> bool {
    (i: nat) => Anchors(w, tunnels, sid, i)
  }

  function Creating(w: Planes, sid: int, est: Option<nat>): nat -> bool {
    (i: nat) => CreatesSession(w, sid, est, i)
  }

  function Reaching(w: Planes, smf: Option<string>): nat -> bool {
    (i: nat) => ReachesSmf(w, smf, i)
  }

  function SbiStamp(w: Planes, i: Option<nat>): Option<Stamp> {
    if i.Some? && i.value < |w.sbi| then Some(Stamp(i.value, w.sbi[i.value].ts)) else None
  }

  function N4Stamp(w: Planes, i: Option<nat>): Option<Stamp> {
    if i.Some? && i.value < |w.n4| then Some(Stamp(i.value, w.n4[i.value].ts)) else None
  }

  /** The sessions with an anchor on some plane. */
  function Sessions(w: Planes, f: UeFlow): set<int> {
    ReqTunnels(Named(f.messages, SETUP_REQUEST)).Keys + RspTimes(Named(f.messages, SETUP_RESPONSE)).Keys
    + set i | i in Creates(w, f) && i < |w.sbi| && w.sbi[i].pduSessionId.Some? :: w.sbi[i].pduSessionId.value
  }

  /** The session's establishment response, if just one names this session alone. */
  function SessionEst(w: Planes, f: UeFlow, sid: int): Option<nat> {
    OnlyOne(Filter(Anchoring(w, ReqTunnels(Named(f.messages, SETUP_REQUEST)), sid), Ests(w, f)))
  }

  function SessionCreate(w: Planes, f: UeFlow, sid: int): Option<nat> {
    var est := SessionEst(w, f, sid);
    OnlyOne(Filter(Creating(w, sid, est), Creates(w, f)))
  }

  function SessionSetup(f: UeFlow, sid: int): Option<real> {
    var times := RspTimes(Named(f.messages, SETUP_RESPONSE));
    if sid in times then OnlyOne(times[sid]) else None
  }

  function SessionLegs(w: Planes, f: UeFlow, sid: int): Legs {
    Legs(SbiStamp(w, SessionCreate(w, f, sid)), N4Stamp(w, SessionEst(w, f, sid)), SessionSetup(f, sid))
  }

  /** The SMF of a flow's only establishment response. */
  function BareSmf(w: Planes, f: UeFlow): Option<string> {
    var est := OnlyOne(Ests(w, f));
    if est.Some? && est.value < |w.n4| then w.n4[est.value].dstIp else None
  }

  function BareCreate(w: Planes, f: UeFlow): Option<nat> {
    OnlyOne(Filter(Reaching(w, BareSmf(w, f)), Creates(w, f)))
  }

  /** The legs of a flow without session anchors: each plane's only message. */
  function BareLegs(w: Planes, f: UeFlow): Legs {
    var setup := OnlyOne(Named(f.messages, SETUP_RESPONSE));
    Legs(SbiStamp(w, BareCreate(w, f)), N4Stamp(w, OnlyOne(Ests(w, f))),
         if setup.Some? then Some(setup.value.ts) else None)
  }

  function Least(s: set<int>): (m: int)
    requires s != {}
    ensures m in s && forall x :: x in s ==> m <= x
  {
    HasLeast(s);
    var m :| m in s && forall x :: x in s ==> m <= x;
    m
  }

  lemma SomeMember(s: set<int>)
    ensures s == {} || exists x :: x in s
  {
    if forall x :: x !in s {
      assert s == {};
    }
  }

  lemma HasLeast(s: set<int>)
    requires s != {}
    ensures exists m :: m in s && forall x :: x in s ==> m <= x
  {
    SomeMember(s);
    var x :| x in s;
    if s - {x} != {} {
      HasLeast(s - {x});
      var m :| m in s - {x} && forall y :: y in s - {x} ==> m <= y;
      assert forall y :: y in s ==> y == x || y in s - {x};
      assert if m <= x then forall y :: y in s ==> m <= y else forall y :: y in s ==> x <= y;
    } else {
      assert s == {x};
    }
  }

  /** Python's `sorted` of a set. */
  function SortedInts(s: set<int>): (r: seq<int>)
    ensures forall x :: x in r <==> x in s
    ensures forall i, j :: 0 <= i < j < |r| ==> r[i] < r[j]
  {
    if s == {} then [] else [Least(s)] + SortedInts(s - {Least(s)})
  }

  function LegsIn(w: Planes, f: UeFlow): int -> Legs {
    (sid: int) => SessionLegs(w, f, sid)
  }

  function FlowUnits(w: Planes, f: UeFlow): seq<Legs> {
    var sids := SortedInts(Sessions(w, f));
    if sids == [] then [BareLegs(w, f)] else MapSeq(LegsIn(w, f), sids)
  }

  function Units(w: Planes, fs: seq<UeFlow>): seq<Legs> {
    if fs == [] then [] else Units(w, fs[..|fs| - 1]) + FlowUnits(w, fs[|fs| - 1])
  }

  function SbiToN4(u: Legs): Option<real> {
    if u.create.Some? && u.est.Some? then Some((u.est.value.ts - u.create.value.ts) * 1000.0) else None
  }

  function N4ToN2(u: Legs): Option<real> {
    if u.est.Some? && u.setup.Some? then Some((u.setup.value - u.est.value.ts) * 1000.0) else None
  }

  function SbiToN2(u: Legs): Option<real> {
    if u.create.Some? && u.setup.Some? then Some((u.setup.value - u.create.value.ts) * 1000.0) else None
  }

  /** The samples of one KPI: one from each unit that has both its legs. */
  function Samples(kpi: Legs -> Option<real>, us: seq<Legs>): seq<real> {
    if us == [] then []
    else
      var x := kpi(us[|us| - 1]);
      Samples(kpi, us[..|us| - 1]) + if x.Some? then [x.value] else []
  }

  function AsList(x: Option<real>): seq<real> {
    if x.Some? then [x.value] else []
  }

  lemma SamplesOneMore(kpi: Legs -> Option<real>, us: seq<Legs>, u: Legs)
    ensures Samples(kpi, us + [u]) == Samples(kpi, us) + AsList(kpi(u))
  {
    assert (us + [u])[..|us|] == us;
  }

  /** The keys of a dictionary that are done. */
  function Without<V>(m: map<int, V>, todo: set<int>): map<int, V> {
    map sid | sid in m && sid !in todo :: m[sid]
  }

  lemma WithoutAll<V>(m: map<int, V>)
    ensures Without(m, m.Keys) == map[] && Without(m, {}) == m
  {
  }

  lemma WithoutOneLess<V>(m: map<int, V>, todo: set<int>, sid: int)
    requires sid in todo && todo <= m.Keys
    ensures sid !in Without(m, todo) && sid in m
    ensures Without(m, todo - {sid}) == Without(m, todo)[sid := m[sid]]
  {
  }

  lemma AddNothing(m: map<int, set<Tunnel>>, times: map<int, seq<real>>, ts: real)
    ensures AddTunnels(m, map[]) == m && AddTimes(times, map[], ts) == times
  {
    forall k | k in m
      ensures k in AddTunnels(m, map[]) && AddTunnels(m, map[])[k] == m[k]
    {
      assert m[k] + {} == m[k];
    }
    forall k | k in times
      ensures k in AddTimes(times, map[], ts) && AddTimes(times, map[], ts)[k] == times[k]
    {
      assert times[k] + [] == times[k];
    }
  }

  lemma AddTunnelsOneMore(m: map<int, set<Tunnel>>, add: map<int, seq<Tunnel>>, sid: int, ts: seq<Tunnel>)
    requires sid !in add
    ensures var was := AddTunnels(m, add);
            AddTunnels(m, add[sid := ts]) == was[sid := (if sid in was then was[sid] else {}) + set t | t in ts]
  {
    var was := AddTunnels(m, add);
    var more := set t | t in ts;
    var now := AddTunnels(m, add[sid := ts]);
    forall k | k in now
      ensures k in was[sid := (if sid in was then was[sid] else {}) + more]
      ensures now[k] == was[sid := (if sid in was then was[sid] else {}) + more][k]
    {
    }
  }

  lemma AddTimesOneMore(m: map<int, seq<real>>, add: map<int, nat>, ts: real, sid: int, n: nat)
    requires sid !in add
    ensures var was := AddTimes(m, add, ts);
            AddTimes(m, add[sid := n], ts) == was[sid := (if sid in was then was[sid] else []) + Times(ts, n)]
  {
    hide Times;
    var was := AddTimes(m, add, ts);
    var now := AddTimes(m, add[sid := n], ts);
    forall k | k in now
      ensures k in was[sid := (if sid in was then was[sid] else []) + Times(ts, n)]
      ensures now[k] == was[sid := (if sid in was then was[sid] else []) + Times(ts, n)][k]
    {
    }
  }

  /** One setup request's items join the sessions' tunnels. */
  method MergeTunnels(before: map<int, set<Tunnel>>, items: map<int, seq<Tunnel>>)
    returns (tunnels: map<int, set<Tunnel>>)
    ensures tunnels == AddTunnels(before, items)
  {
    hide AddTunnels, Without;
    tunnels := before;
    var todo := items.Keys;
    WithoutAll(items);
    AddNothing(before, map[], 0.0);
    while todo != {}
      invariant todo <= items.Keys && tunnels == AddTunnels(before, Without(items, todo))
      decreases |todo|
    {
      SomeMember(todo);
      var sid :| sid in todo;
      WithoutOneLess(items, todo, sid);
      AddTunnelsOneMore(before, Without(items, todo), sid, items[sid]);
      tunnels := tunnels[sid := (if sid in tunnels then tunnels[sid] else {}) + set t | t in items[sid]];
      todo := todo - {sid};
    }
  }

  /** One setup response's items join the sessions' times. */
  method MergeTimes(before: map<int, seq<real>>, items: map<int, nat>, ts: real) returns (times: map<int, seq<real>>)
    ensures times == AddTimes(before, items, ts)
  {
    hide AddTimes, Without, Times;
    times := before;
    var todo := items.Keys;
    WithoutAll(items);
    AddNothing(map[], before, ts);
    while todo != {}
      invariant todo <= items.Keys && times == AddTimes(before, Without(items, todo), ts)
      decreases |todo|
    {
      SomeMember(todo);
      var sid :| sid in todo;
      WithoutOneLess(items, todo, sid);
      AddTimesOneMore(before, Without(items, todo), ts, sid, items[sid]);
      times := times[sid := (if sid in times then times[sid] else []) + Times(ts, items[sid])];
      todo := todo - {sid};
    }
  }

  ghost predicate Requested(reqs: seq<NgapMsg>, sid: int) {
    exists n :: 0 <= n < |reqs| && sid in reqs[n].reqSessionTunnels
  }

  ghost predicate RequestedWith(reqs: seq<NgapMsg>, sid: int, t: Tunnel) {
    exists n :: 0 <= n < |reqs| && sid in reqs[n].reqSessionTunnels && t in reqs[n].reqSessionTunnels[sid]
  }

  /** A session has exactly the tunnels that some setup request gives it. */
  lemma {:induction false} TunnelsAreRequested(reqs: seq<NgapMsg>)
    ensures forall sid :: sid in ReqTunnels(reqs) <==> Requested(reqs, sid)
    ensures forall sid, t :: sid in ReqTunnels(reqs) && t in ReqTunnels(reqs)[sid] <==> RequestedWith(reqs, sid, t)
  {
    if reqs != [] {
      var n := |reqs| - 1;
      TunnelsAreRequested(reqs[..n]);
      forall sid
        ensures Requested(reqs, sid) <==> Requested(reqs[..n], sid) || sid in reqs[n].reqSessionTunnels
      {
        if m :| 0 <= m < n && sid in reqs[..n][m].reqSessionTunnels {
          assert reqs[m] == reqs[..n][m];
        }
      }
      forall sid, t
        ensures RequestedWith(reqs, sid, t)
                <==> RequestedWith(reqs[..n], sid, t)
                     || (sid in reqs[n].reqSessionTunnels && t in reqs[n].reqSessionTunnels[sid])
      {
        if m :| 0 <= m < n && sid in reqs[..n][m].reqSessionTunnels && t in reqs[..n][m].reqSessionTunnels[sid] {
          assert reqs[m] == reqs[..n][m];
        }
      }
    }
  }

  /** The items of a session in one setup response. */
  function ItemsIn(ng: NgapMsg, sid: int): nat {
    if sid in ng.rspSessionCounts then ng.rspSessionCounts[sid] else 0
  }

  function ItemsOf(rsps: seq<NgapMsg>, sid: int): nat {
    if rsps == [] then 0 else ItemsOf(rsps[..|rsps| - 1], sid) + ItemsIn(rsps[|rsps| - 1], sid)
  }

  function TimesOf(times: map<int, seq<real>>, sid: int): seq<real> {
    if sid in times then times[sid] else []
  }

  lemma TimesStep(rsps: seq<NgapMsg>, sid: int)
    requires rsps != []
    ensures var last := rsps[|rsps| - 1];
            TimesOf(RspTimes(rsps), sid)
            == TimesOf(RspTimes(rsps[..|rsps| - 1]), sid) + Times(last.ts, ItemsIn(last, sid))
  {
  }

  /** A session has one time for each of its items. */
  lemma {:induction false} TimesAreItems(rsps: seq<NgapMsg>, sid: int)
    ensures |TimesOf(RspTimes(rsps), sid)| == ItemsOf(rsps, sid)
    ensures ItemsOf(rsps, sid) == 0 <==> forall n :: 0 <= n < |rsps| ==> ItemsIn(rsps[n], sid) == 0
  {
    if rsps != [] {
      var n := |rsps| - 1;
      TimesAreItems(rsps[..n], sid);
      TimesStep(rsps, sid);
      assert forall m :: 0 <= m < n ==> rsps[..n][m] == rsps[m];
    }
  }

  method CollectTunnels(reqs: seq<NgapMsg>) returns (tunnels: map<int, set<Tunnel>>)
    ensures tunnels == ReqTunnels(reqs)
    ensures forall sid :: sid in tunnels <==> Requested(reqs, sid)
    ensures forall sid, t :: sid in tunnels && t in tunnels[sid] <==> RequestedWith(reqs, sid, t)
  {
    hide AddTunnels, Requested, RequestedWith;
    TunnelsAreRequested(reqs);
    tunnels := map[];
    for n := 0 to |reqs|
      invariant tunnels == ReqTunnels(reqs[..n])
    {
      tunnels := MergeTunnels(tunnels, reqs[n].reqSessionTunnels);
      assert reqs[..n + 1][..n] == reqs[..n];
    }
    assert reqs[..|reqs|] == reqs;
  }

  method CollectTimes(rsps: seq<NgapMsg>) returns (times: map<int, seq<real>>)
    ensures times == RspTimes(rsps)
    ensures forall sid :: |TimesOf(times, sid)| == ItemsOf(rsps, sid)
  {
    hide AddTimes, ItemsOf;
    forall sid
      ensures |TimesOf(RspTimes(rsps), sid)| == ItemsOf(rsps, sid)
    {
      TimesAreItems(rsps, sid);
    }
    times := map[];
    for n := 0 to |rsps|
      invariant times == RspTimes(rsps[..n])
    {
      times := MergeTimes(times, rsps[n].rspSessionCounts, rsps[n].ts);
      assert rsps[..n + 1][..n] == rsps[..n];
    }
    assert rsps[..|rsps|] == rsps;
  }

  /** Every session's establishment responses: those whose tunnels name it alone. */
  method AnchorEsts(w: Planes, tunnels: map<int, set<Tunnel>>, ests: seq<nat>) returns (bySession: map<int, seq<nat>>)
    requires forall i :: i in ests ==> i < |w.n4|
    ensures forall sid :: (if sid in bySession then bySession[sid] else []) == Filter(Anchoring(w, tunnels, sid), ests)
  {
    hide Filter, Hits;
    bySession := map[];
    FilterNothing(w, tunnels);
    assert ests[..0] == [];
    for n := 0 to |ests|
      invariant forall sid ::
                  (if sid in bySession then bySession[sid] else []) == Filter(Anchoring(w, tunnels, sid), ests[..n])
    {
      var e := ests[n];
      assert e in ests && ests[..n + 1] == ests[..n] + [e];
      forall sid
        ensures Filter(Anchoring(w, tunnels, sid), ests[..n + 1])
                == Filter(Anchoring(w, tunnels, sid), ests[..n]) + if Anchors(w, tunnels, sid, e) then [e] else []
      {
        FilterOneMore(Anchoring(w, tunnels, sid), ests[..n], e);
      }
      var hits := Hits(tunnels, w.n4[e].fTeids);
      if |hits| == 1 {
        var sid := Single(hits);
        bySession := bySession[sid := (if sid in bySession then bySession[sid] else []) + [e]];
      }
    }
    assert ests[..|ests|] == ests;
  }

  lemma FilterNothing(w: Planes, tunnels: map<int, set<Tunnel>>)
    ensures forall sid :: Filter(Anchoring(w, tunnels, sid), []) == []
  {
  }

  lemma FilterOneMore(p: nat -> bool, s: seq<nat>, x: nat)
    ensures Filter(p, s + [x]) == Filter(p, s) + if p(x) then [x] else []
  {
    FilterJoin(p, s, [x]);
  }

  /** A unit's samples go to the KPIs that have both their legs. */
  method AddSamples(u: Legs, a0: seq<real>, b0: seq<real>, c0: seq<real>)
    returns (a: seq<real>, b: seq<real>, c: seq<real>)
    ensures a == a0 + AsList(SbiToN4(u)) && b == b0 + AsList(N4ToN2(u)) && c == c0 + AsList(SbiToN2(u))
  {
    a, b, c := a0, b0, c0;
    if u.create.Some? && u.est.Some? {
      a := a + [(u.est.value.ts - u.create.value.ts) * 1000.0];
    }
    if u.est.Some? && u.setup.Some? {
      b := b + [(u.setup.value - u.est.value.ts) * 1000.0];
    }
    if u.create.Some? && u.setup.Some? {
      c := c + [(u.setup.value - u.create.value.ts) * 1000.0];
    }
  }

  lemma JoinedIndexes(w: Planes, f: UeFlow)
    requires InRange(w)
    ensures forall i :: i in Ests(w, f) ==> i < |w.n4|
    ensures forall i :: i in Creates(w, f) ==> i < |w.sbi|
  {
    FilterMembers(EstIn(w), RefsOf(w.n4Refs, f.id));
    FilterMembers(CreateIn(w), RefsOf(w.sbiRefs, f.id));
  }

  /** One flow's samples: of each of its sessions, or of the flow itself when it has no session anchors. */
  method FlowSamples(w: Planes, f: UeFlow, a0: seq<real>, b0: seq<real>, c0: seq<real>)
    returns (a: seq<real>, b: seq<real>, c: seq<real>)
    requires InRange(w)
    ensures var us := FlowUnits(w, f);
            a == a0 + Samples(SbiToN4, us) && b == b0 + Samples(N4ToN2, us) && c == c0 + Samples(SbiToN2, us)
  {
    hide Filter, Named, ReqTunnels, RspTimes, Samples, SbiToN4, N4ToN2, SbiToN2, IsEst, IsCreate, Hits, MapSeq,
      SortedInts;
    var setupReqs := Named(f.messages, SETUP_REQUEST);
    var setupRsps := Named(f.messages, SETUP_RESPONSE);
    var ests, creates := Ests(w, f), Creates(w, f);
    JoinedIndexes(w, f);
    var tunnels := CollectTunnels(setupReqs);
    var times := CollectTimes(setupRsps);
    var sessionIds := tunnels.Keys + times.Keys
    + set i | i in creates && w.sbi[i].pduSessionId.Some? :: w.sbi[i].pduSessionId.value;
    assert sessionIds == Sessions(w, f);
    var sids := SortedInts(sessionIds);
    if sids == [] {
      var est, setup := OnlyOne(ests), OnlyOne(setupRsps);
      OneInList(ests);
      var smf := if est.Some? then w.n4[est.value].dstIp else None;
      var create := OnlyOne(Filter(Reaching(w, smf), creates));
      var u := Legs(SbiStamp(w, create), N4Stamp(w, est), if setup.Some? then Some(setup.value.ts) else None);
      a, b, c := AddSamples(u, a0, b0, c0);
      assert u == BareLegs(w, f);
      OneUnit(u);
    } else {
      var bySession := AnchorEsts(w, tunnels, ests);
      a, b, c := SessionSamples(w, f, sids, bySession, times, creates, a0, b0, c0);
    }
  }

  lemma OneInList(s: seq<nat>)
    ensures OnlyOne(s).Some? ==> OnlyOne(s).value in s
  {
  }

  lemma OneUnit(u: Legs)
    ensures Samples(SbiToN4, [u]) == AsList(SbiToN4(u)) && Samples(N4ToN2, [u]) == AsList(N4ToN2(u))
    ensures Samples(SbiToN2, [u]) == AsList(SbiToN2(u))
  {
    assert [u][..0] == [];
  }

  method SessionSamples(w: Planes, f: UeFlow, sids: seq<int>, bySession: map<int, seq<nat>>, times: map<int, seq<real>>,
                        creates: seq<nat>, a0: seq<real>, b0: seq<real>, c0: seq<real>)
    returns (a: seq<real>, b: seq<real>, c: seq<real>)
    requires creates == Creates(w, f) && times == RspTimes(Named(f.messages, SETUP_RESPONSE))
    requires var tunnels := ReqTunnels(Named(f.messages, SETUP_REQUEST));
             forall sid ::
               (if sid in bySession then bySession[sid] else []) == Filter(Anchoring(w, tunnels, sid), Ests(w, f))
    ensures var us := MapSeq(LegsIn(w, f), sids);
            a == a0 + Samples(SbiToN4, us) && b == b0 + Samples(N4ToN2, us) && c == c0 + Samples(SbiToN2, us)
  {
    hide Filter, Named, ReqTunnels, RspTimes, Samples, SbiToN4, N4ToN2, SbiToN2, Ests, Creates, MapSeq;
    ghost var us := MapSeq(LegsIn(w, f), sids);
    a, b, c := a0, b0, c0;
    NoUnits();
    assert us[..0] == [];
    for n := 0 to |sids|
      invariant a == a0 + Samples(SbiToN4, us[..n]) && b == b0 + Samples(N4ToN2, us[..n])
      invariant c == c0 + Samples(SbiToN2, us[..n])
    {
      var sid := sids[n];
      var est := OnlyOne(if sid in bySession then bySession[sid] else []);
      var create := OnlyOne(Filter(Creating(w, sid, est), creates));
      var setup := OnlyOne(if sid in times then times[sid] else []);
      var u := Legs(SbiStamp(w, create), N4Stamp(w, est), setup);
      assert u == us[n];
      SamplesOneMore(SbiToN4, us[..n], u);
      SamplesOneMore(N4ToN2, us[..n], u);
      SamplesOneMore(SbiToN2, us[..n], u);
      assert us[..n + 1] == us[..n] + [u];
      a, b, c := AddSamples(u, a, b, c);
    }
    assert us[..|sids|] == us;
  }

  lemma NoUnits()
    ensures Samples(SbiToN4, []) == [] && Samples(N4ToN2, []) == [] && Samples(SbiToN2, []) == []
  {
  }

  lemma {:induction false} SamplesJoin(kpi: Legs -> Option<real>, us: seq<Legs>, vs: seq<Legs>)
    ensures Samples(kpi, us + vs) == Samples(kpi, us) + Samples(kpi, vs)
  {
    if vs == [] {
      assert us + vs == us;
    } else {
      assert (us + vs)[..|us + vs| - 1] == us + vs[..|vs| - 1];
      SamplesJoin(kpi, us, vs[..|vs| - 1]);
    }
  }

  /** The three means over all units of all flows. */
  method CrossPlaneKpis(fs: seq<UeFlow>, corr: Correlation, sbi: seq<SbiMsg>, n4: seq<PfcpMsg>) returns (m: Means)
    requires InRange(Planes(sbi, n4, corr.flowSbiRefs, corr.flowN4Refs))
    ensures var us := Units(Planes(sbi, n4, corr.flowSbiRefs, corr.flowN4Refs), fs);
            m == Means(Mean(Samples(SbiToN4, us)), Mean(Samples(N4ToN2, us)), Mean(Samples(SbiToN2, us)))
            && IsMean(Samples(SbiToN4, us), m.sbiToN4) && IsMean(Samples(N4ToN2, us), m.n4ToN2)
            && IsMean(Samples(SbiToN2, us), m.sbiToN2)
  {
    hide Samples, FlowUnits, InRange, Mean, IsMean;
    var w := Planes(sbi, n4, corr.flowSbiRefs, corr.flowN4Refs);
    var a, b, c := [], [], [];
    NoUnits();
    for n := 0 to |fs|
      invariant a == Samples(SbiToN4, Units(w, fs[..n])) && b == Samples(N4ToN2, Units(w, fs[..n]))
      invariant c == Samples(SbiToN2, Units(w, fs[..n]))
    {
      ghost var before := Units(w, fs[..n]);
      assert fs[..n + 1][..n] == fs[..n];
      SamplesJoin(SbiToN4, before, FlowUnits(w, fs[n]));
      SamplesJoin(N4ToN2, before, FlowUnits(w, fs[n]));
      SamplesJoin(SbiToN2, before, FlowUnits(w, fs[n]));
      a, b, c := FlowSamples(w, fs[n], a, b, c);
    }
    assert fs[..|fs|] == fs;
    MeanIsMean(a);
    MeanIsMean(b);
    MeanIsMean(c);
    m := Means(Mean(a), Mean(b), Mean(c));
  }
}

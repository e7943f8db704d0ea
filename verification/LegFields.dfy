/** The legs of a unit by the fields of the messages on the three planes. */
module LegFields {
  import opened Prelude
  import opened Sorting
  import opened FlowModel
  import opened Pfcp
  import opened Correlate
  import opened CrossPlane
  import opened CrossPlaneTheorems

  /** An establishment response that was joined to the flow. */
  predicate Establishes(w: Planes, f: UeFlow, i: nat) {
    && f.id in w.n4Refs && i in w.n4Refs[f.id]
    && i < |w.n4| && w.n4[i].name == Some("PFCP Session Establishment Response")
  }

  /** A request that creates a session context and was joined to the flow. */
  predicate Creation(w: Planes, f: UeFlow, i: nat) {
    && f.id in w.sbiRefs && i in w.sbiRefs[f.id] && i < |w.sbi|
    && w.sbi[i].direction == "request" && w.sbi[i].httpMethod == Some("POST")
    && w.sbi[i].path == Some("/nsmf-pdusession/v1/sm-contexts")
  }

  /** Some setup request of the flow gives the session this tunnel. */
  ghost predicate Gives(f: UeFlow, sid: int, t: Tunnel) {
    exists n :: 0 <= n < |f.messages| && GivesAt(f.messages[n].0, sid, t)
  }

  predicate GivesAt(ng: NgapMsg, sid: int, t: Tunnel) {
    && ng.name == Some("PDUSessionResourceSetupRequest")
    && sid in ng.reqSessionTunnels && t in ng.reqSessionTunnels[sid]
  }

  ghost predicate Meets(f: UeFlow, sid: int, m: PfcpMsg) {
    exists t :: t in m.fTeids && Gives(f, sid, t)
  }

  /** The message has a tunnel of this session, and of no other. */
  ghost predicate MeetsOnly(f: UeFlow, sid: int, m: PfcpMsg) {
    forall s :: Meets(f, s, m) <==> s == sid
  }

  ghost predicate EstOf(w: Planes, f: UeFlow, sid: int, i: nat) {
    Establishes(w, f, i) && MeetsOnly(f, sid, w.n4[i])
  }

  /** The session's create; at the SMF of its establishment response, if it has one. */
  predicate CreateOf(w: Planes, f: UeFlow, sid: int, est: Option<Stamp>, i: nat) {
    && Creation(w, f, i) && w.sbi[i].pduSessionId == Some(sid)
    && (est.Some? ==> est.value.index < |w.n4| && w.sbi[i].dstIp == w.n4[est.value.index].dstIp)
  }

  predicate Responds(ng: NgapMsg, sid: int, items: nat) {
    && ng.name == Some("PDUSessionResourceSetupResponse")
    && items == if sid in ng.rspSessionCounts then ng.rspSessionCounts[sid] else 0
  }

  /** No setup response with an item of the session. */
  predicate Silent(ng: NgapMsg, sid: int) {
    ng.name == Some("PDUSessionResourceSetupResponse") ==> Responds(ng, sid, 0)
  }

  ghost predicate NoItems(ms: seq<Event>, sid: int) {
    forall m :: 0 <= m < |ms| ==> Silent(ms[m].0, sid)
  }

  ghost predicate OnlyAt(ms: seq<Event>, n: nat, sid: int, t: real) {
    && n < |ms| && Responds(ms[n].0, sid, 1) && ms[n].0.ts == t
    && forall m :: 0 <= m < |ms| && m != n ==> Silent(ms[m].0, sid)
  }

  /** One setup response of the flow has the session's only item, and came at `t`. */
  ghost predicate SetupOf(ms: seq<Event>, sid: int, t: real) {
    exists n :: OnlyAt(ms, n, sid, t)
  }

  lemma JoinsByFields(w: Planes, f: UeFlow, i: nat)
    ensures i in RefsOf(w.n4Refs, f.id) && IsEst(w, i) <==> Establishes(w, f, i)
    ensures i in RefsOf(w.sbiRefs, f.id) && IsCreate(w, i) <==> Creation(w, f, i)
  {
  }

  lemma GivesByFields(f: UeFlow, sid: int, t: Tunnel)
    ensures var tunnels := ReqTunnels(Named(f.messages, SETUP_REQUEST));
            sid in tunnels && t in tunnels[sid] <==> Gives(f, sid, t)
  {
    hide Named, ReqTunnels;
    var reqs := Named(f.messages, SETUP_REQUEST);
    TunnelsAreRequested(reqs);
    if RequestedWith(reqs, sid, t) {
      var n :| 0 <= n < |reqs| && sid in reqs[n].reqSessionTunnels && t in reqs[n].reqSessionTunnels[sid];
      assert reqs[n] in reqs;
      NamedMembers(f.messages, SETUP_REQUEST, reqs[n]);
      var k :| 0 <= k < |f.messages| && f.messages[k].0 == reqs[n];
      assert GivesAt(f.messages[k].0, sid, t);
    }
    if n :| 0 <= n < |f.messages| && GivesAt(f.messages[n].0, sid, t) {
      NamedMembers(f.messages, SETUP_REQUEST, f.messages[n].0);
      assert Carries(f.messages, f.messages[n].0);
      var k :| 0 <= k < |reqs| && reqs[k] == f.messages[n].0;
    }
  }

  lemma HitsByFields(f: UeFlow, sid: int, m: PfcpMsg)
    ensures sid in Hits(ReqTunnels(Named(f.messages, SETUP_REQUEST)), m.fTeids) <==> Meets(f, sid, m)
  {
    hide Named, ReqTunnels, Gives;
    forall t
      ensures var tunnels := ReqTunnels(Named(f.messages, SETUP_REQUEST));
              sid in tunnels && t in tunnels[sid] <==> Gives(f, sid, t)
    {
      GivesByFields(f, sid, t);
    }
  }

  lemma AnchorsByFields(w: Planes, f: UeFlow, sid: int, i: nat)
    requires i < |w.n4|
    ensures Anchors(w, ReqTunnels(Named(f.messages, SETUP_REQUEST)), sid, i) <==> MeetsOnly(f, sid, w.n4[i])
  {
    hide Named, ReqTunnels, Gives, Hits, Meets;
    var tunnels := ReqTunnels(Named(f.messages, SETUP_REQUEST));
    var m := w.n4[i];
    forall s
      ensures s in Hits(tunnels, m.fTeids) <==> Meets(f, s, m)
    {
      HitsByFields(f, s, m);
    }
    OnlyMemberOf(Hits(tunnels, m.fTeids), sid);
  }

  lemma OnlyMemberOf(s: set<int>, x: int)
    ensures s == {x} <==> forall y :: y in s <==> y == x
  {
    if forall y :: y in s <==> y == x {
      assert s == {x};
    }
  }

  /** The session's N4 leg. */
  lemma EstByFields(w: Planes, f: UeFlow, sid: int, i: nat, t: real)
    requires RefsDistinct(w)
    ensures SessionLegs(w, f, sid).est == Some(Stamp(i, t))
            <==> EstOf(w, f, sid, i) && t == w.n4[i].ts && forall j: nat :: EstOf(w, f, sid, j) ==> j == i
  {
    hide RefsDistinct, Establishes, MeetsOnly, Anchors, IsEst, RefsOf, Named, ReqTunnels, SessionCreate, SessionSetup,
      SessionEst;
    var tunnels := ReqTunnels(Named(f.messages, SETUP_REQUEST));
    EstIsExact(w, f, sid, i);
    forall j: nat
      ensures j in RefsOf(w.n4Refs, f.id) && IsEst(w, j) && Anchors(w, tunnels, sid, j) <==> EstOf(w, f, sid, j)
    {
      JoinsByFields(w, f, j);
      EstInRange(w, f, j);
      if j < |w.n4| {
        AnchorsByFields(w, f, sid, j);
      }
    }
    EstInRange(w, f, i);
  }

  lemma EstInRange(w: Planes, f: UeFlow, i: nat)
    ensures Establishes(w, f, i) || IsEst(w, i) ==> i < |w.n4|
    ensures Creation(w, f, i) || IsCreate(w, i) ==> i < |w.sbi|
  {
  }

  /** The session's SBI leg. */
  lemma CreateByFields(w: Planes, f: UeFlow, sid: int, i: nat, t: real)
    requires RefsDistinct(w)
    ensures var u := SessionLegs(w, f, sid);
            u.create == Some(Stamp(i, t))
            <==> CreateOf(w, f, sid, u.est, i) && t == w.sbi[i].ts
                 && forall j: nat :: CreateOf(w, f, sid, u.est, j) ==> j == i
  {
    hide RefsDistinct, Creation, IsCreate, RefsOf, SessionCreate, SessionSetup, SessionEst;
    var est := SessionEst(w, f, sid);
    EstIsInRange(w, f, sid);
    CreateIsExact(w, f, sid, i);
    forall j: nat
      ensures j in RefsOf(w.sbiRefs, f.id) && IsCreate(w, j) && CreatesSession(w, sid, est, j)
              <==> CreateOf(w, f, sid, N4Stamp(w, est), j)
    {
      JoinsByFields(w, f, j);
      EstInRange(w, f, j);
    }
    EstInRange(w, f, i);
  }

  lemma EstIsInRange(w: Planes, f: UeFlow, sid: int)
    ensures SessionEst(w, f, sid).Some? ==> SessionEst(w, f, sid).value < |w.n4|
  {
    hide Filter, Named, ReqTunnels, Hits;
    OnlyOneMember(Anchoring(w, ReqTunnels(Named(f.messages, SETUP_REQUEST)), sid), Ests(w, f));
  }

  lemma {:induction false} OnlyItemByFields(ms: seq<Event>, sid: int, t: real)
    ensures OnlyItem(Named(ms, SETUP_RESPONSE), sid, t) <==> SetupOf(ms, sid, t)
    ensures (forall n :: 0 <= n < |Named(ms, SETUP_RESPONSE)| ==> ItemsIn(Named(ms, SETUP_RESPONSE)[n], sid) == 0)
            <==> NoItems(ms, sid)
  {
    if ms != [] {
      hide OnlyItem, SetupOf, NoItems, ItemsIn, Silent, Responds;
      var n := |ms| - 1;
      var rsps := Named(ms[..n], SETUP_RESPONSE);
      OnlyItemByFields(ms[..n], sid, t);
      SetupOfStep(ms, sid, t);
      ItemsByFields(ms[n].0, sid);
      if ms[n].0.name == Some(SETUP_RESPONSE) {
        var more := rsps + [ms[n].0];
        assert Named(ms, SETUP_RESPONSE) == more && more[..|rsps|] == rsps;
        OnlyItemStep(more, sid, t);
      } else {
        assert Named(ms, SETUP_RESPONSE) == rsps;
      }
    }
  }

  lemma OnlyAtStep(ms: seq<Event>, k: nat, sid: int, t: real)
    requires ms != [] && k < |ms|
    ensures var n := |ms| - 1;
            OnlyAt(ms, k, sid, t)
            <==> if k == n then Responds(ms[n].0, sid, 1) && ms[n].0.ts == t && NoItems(ms[..n], sid)
                 else Silent(ms[n].0, sid) && OnlyAt(ms[..n], k, sid, t)
  {
    hide Responds, Silent;
    var n := |ms| - 1;
    assert forall m :: 0 <= m < n ==> ms[..n][m] == ms[m];
  }

  lemma SetupOfStep(ms: seq<Event>, sid: int, t: real)
    requires ms != []
    ensures var n := |ms| - 1; var last := ms[n].0;
            && (NoItems(ms, sid) <==> NoItems(ms[..n], sid) && Silent(last, sid))
            && (SetupOf(ms, sid, t)
                <==> (Silent(last, sid) && SetupOf(ms[..n], sid, t))
                     || (Responds(last, sid, 1) && last.ts == t && NoItems(ms[..n], sid)))
  {
    hide Responds, Silent, OnlyAt;
    var n := |ms| - 1;
    assert forall m :: 0 <= m < n ==> ms[..n][m] == ms[m];
    if k :| OnlyAt(ms, k, sid, t) {
      OnlyAtInRange(ms, k, sid, t);
      OnlyAtStep(ms, k, sid, t);
    }
    if k :| OnlyAt(ms[..n], k, sid, t) {
      OnlyAtInRange(ms[..n], k, sid, t);
      OnlyAtStep(ms, k, sid, t);
    }
    OnlyAtStep(ms, n, sid, t);
  }

  lemma OnlyAtInRange(ms: seq<Event>, k: nat, sid: int, t: real)
    requires OnlyAt(ms, k, sid, t)
    ensures k < |ms|
  {
  }

  lemma ItemsByFields(ng: NgapMsg, sid: int)
    ensures Silent(ng, sid) <==> (ng.name == Some(SETUP_RESPONSE) ==> ItemsIn(ng, sid) == 0)
    ensures Responds(ng, sid, 1) <==> ng.name == Some(SETUP_RESPONSE) && ItemsIn(ng, sid) == 1
  {
  }

  /** The session's N2 leg. */
  lemma SetupByFields(w: Planes, f: UeFlow, sid: int, t: real)
    ensures SessionLegs(w, f, sid).setup == Some(t) <==> SetupOf(f.messages, sid, t)
  {
    hide SessionSetup, SessionEst, SessionCreate, OnlyItem, SetupOf, Named;
    SetupIsExact(f, sid, t);
    OnlyItemByFields(f.messages, sid, t);
  }

  /** Some setup request or response of the flow, or a create joined to it, names the session. */
  ghost predicate NamesSession(w: Planes, f: UeFlow, sid: int) {
    || SomeRequests(f.messages, sid) || SomeReports(f.messages, sid)
    || (exists i: nat :: Creation(w, f, i) && w.sbi[i].pduSessionId == Some(sid))
  }

  predicate Requests(ng: NgapMsg, sid: int) {
    ng.name == Some("PDUSessionResourceSetupRequest") && sid in ng.reqSessionTunnels
  }

  predicate Reports(ng: NgapMsg, sid: int) {
    ng.name == Some("PDUSessionResourceSetupResponse") && sid in ng.rspSessionCounts
  }

  ghost predicate SomeRequests(ms: seq<Event>, sid: int) {
    exists n :: 0 <= n < |ms| && Requests(ms[n].0, sid)
  }

  ghost predicate SomeReports(ms: seq<Event>, sid: int) {
    exists n :: 0 <= n < |ms| && Reports(ms[n].0, sid)
  }

  lemma SomeOneMore(ms: seq<Event>, sid: int)
    requires ms != []
    ensures var n := |ms| - 1;
            && (SomeRequests(ms, sid) <==> SomeRequests(ms[..n], sid) || Requests(ms[n].0, sid))
            && (SomeReports(ms, sid) <==> SomeReports(ms[..n], sid) || Reports(ms[n].0, sid))
  {
    hide Requests, Reports;
    assert forall m :: 0 <= m < |ms| - 1 ==> ms[..|ms| - 1][m] == ms[m];
  }

  lemma NamedOneMore(ms: seq<Event>, name: string)
    requires ms != []
    ensures var n := |ms| - 1;
            Named(ms, name)
            == if ms[n].0.name == Some(name) then Named(ms[..n], name) + [ms[n].0] else Named(ms[..n], name)
  {
  }

  lemma KeysOneMore(ngs: seq<NgapMsg>, ng: NgapMsg, sid: int)
    ensures sid in ReqTunnels(ngs + [ng]) <==> sid in ReqTunnels(ngs) || sid in ng.reqSessionTunnels
    ensures sid in RspTimes(ngs + [ng]) <==> sid in RspTimes(ngs) || sid in ng.rspSessionCounts
  {
    assert (ngs + [ng])[..|ngs|] == ngs;
  }

  lemma NoKeys()
    ensures ReqTunnels([]) == map[] && RspTimes([]) == map[]
  {
  }

  lemma {:induction false} RequestsByFields(ms: seq<Event>, sid: int)
    ensures sid in ReqTunnels(Named(ms, SETUP_REQUEST)) <==> SomeRequests(ms, sid)
  {
    hide ReqTunnels, RspTimes, SomeRequests, SomeReports;
    if ms == [] {
      NoKeys();
      NothingNamed(sid);
    } else {
      hide Named;
      var n := |ms| - 1;
      RequestsByFields(ms[..n], sid);
      SomeOneMore(ms, sid);
      NamedOneMore(ms, SETUP_REQUEST);
      KeysOneMore(Named(ms[..n], SETUP_REQUEST), ms[n].0, sid);
    }
  }

  lemma NothingNamed(sid: int)
    ensures !SomeRequests([], sid) && !SomeReports([], sid)
  {
  }

  lemma {:induction false} ReportsByFields(ms: seq<Event>, sid: int)
    ensures sid in RspTimes(Named(ms, SETUP_RESPONSE)) <==> SomeReports(ms, sid)
  {
    hide ReqTunnels, RspTimes, SomeRequests, SomeReports;
    if ms == [] {
      NoKeys();
      NothingNamed(sid);
    } else {
      hide Named;
      var n := |ms| - 1;
      ReportsByFields(ms[..n], sid);
      SomeOneMore(ms, sid);
      NamedOneMore(ms, SETUP_RESPONSE);
      KeysOneMore(Named(ms[..n], SETUP_RESPONSE), ms[n].0, sid);
    }
  }

  /** The sessions measured are those that some message names. */
  lemma SessionsByFields(w: Planes, f: UeFlow, sid: int)
    ensures sid in Sessions(w, f) <==> NamesSession(w, f, sid)
  {
    hide Named, ReqTunnels, RspTimes, Creation, IsCreate, Requests, Reports, RefsOf, Filter;
    RequestsByFields(f.messages, sid);
    ReportsByFields(f.messages, sid);
    FilterMembers(CreateIn(w), RefsOf(w.sbiRefs, f.id));
    forall i: nat
      ensures i in Creates(w, f) <==> Creation(w, f, i)
      ensures Creation(w, f, i) ==> i < |w.sbi|
    {
      JoinsByFields(w, f, i);
      EstInRange(w, f, i);
    }
  }

  /** The create reaches the SMF of the flow's establishment response, if both are known. */
  predicate CreateAt(w: Planes, f: UeFlow, est: Option<Stamp>, i: nat) {
    && Creation(w, f, i)
    && (est.Some? && est.value.index < |w.n4| && w.n4[est.value.index].dstIp.Some? ==>
          w.sbi[i].dstIp == w.n4[est.value.index].dstIp)
  }

  /** Without a session: the flow's only establishment response, and its only create at that SMF. */
  lemma BareByFields(w: Planes, f: UeFlow, i: nat, t: real)
    requires RefsDistinct(w)
    ensures var u := BareLegs(w, f);
            && (u.est == Some(Stamp(i, t))
                <==> Establishes(w, f, i) && t == w.n4[i].ts && forall j: nat :: Establishes(w, f, j) ==> j == i)
            && (u.create == Some(Stamp(i, t))
                <==> CreateAt(w, f, u.est, i) && t == w.sbi[i].ts
                     && forall j: nat :: CreateAt(w, f, u.est, j) ==> j == i)
  {
    hide Filter, RefsDistinct, Establishes, Creation, IsEst, IsCreate, RefsOf, Named;
    OnlyEstByFields(w, f, i);
    OneInList(Ests(w, f));
    FilterDistinct(CreateIn(w), RefsOf(w.sbiRefs, f.id)) by {
      CreatesDistinct(w, f);
    }
    FilterMembers(CreateIn(w), RefsOf(w.sbiRefs, f.id));
    OnlyOneIsOnly(Reaching(w, BareSmf(w, f)), Creates(w, f), i);
    OnlyEstInRange(w, f);
    forall j: nat
      ensures j in Creates(w, f) && ReachesSmf(w, BareSmf(w, f), j) <==> CreateAt(w, f, BareLegs(w, f).est, j)
    {
      JoinsByFields(w, f, j);
      EstInRange(w, f, j);
    }
    EstInRange(w, f, i);
  }

  lemma CreatesDistinct(w: Planes, f: UeFlow)
    requires RefsDistinct(w)
    ensures Distinct(RefsOf(w.sbiRefs, f.id)) && Distinct(RefsOf(w.n4Refs, f.id))
  {
  }

  lemma OnlyEstByFields(w: Planes, f: UeFlow, i: nat)
    requires RefsDistinct(w)
    ensures OnlyOne(Ests(w, f)) == Some(i)
            <==> Establishes(w, f, i) && forall j: nat :: Establishes(w, f, j) ==> j == i
  {
    hide Filter, RefsDistinct, Establishes, Creation, IsEst, IsCreate, RefsOf;
    CreatesDistinct(w, f);
    OnlyOneIsOnly(EstIn(w), RefsOf(w.n4Refs, f.id), i);
    forall j: nat
      ensures j in RefsOf(w.n4Refs, f.id) && IsEst(w, j) <==> Establishes(w, f, j)
    {
      JoinsByFields(w, f, j);
    }
  }

  lemma OnlyEstInRange(w: Planes, f: UeFlow)
    ensures OnlyOne(Ests(w, f)).Some? ==> OnlyOne(Ests(w, f)).value < |w.n4|
  {
    hide Filter, RefsOf;
    OnlyOneMember(EstIn(w), RefsOf(w.n4Refs, f.id));
  }

  predicate IsSetup(ng: NgapMsg) {
    ng.name == Some("PDUSessionResourceSetupResponse")
  }

  /** The flow's only setup response came at `t`. */
  ghost predicate OnlySetup(ms: seq<Event>, t: real) {
    exists n :: 0 <= n < |ms| && IsSetup(ms[n].0) && ms[n].0.ts == t
                && forall m :: 0 <= m < |ms| && IsSetup(ms[m].0) ==> m == n
  }

  lemma BareSetupByFields(w: Planes, f: UeFlow, t: real)
    ensures BareLegs(w, f).setup == Some(t) <==> OnlySetup(f.messages, t)
  {
    hide OnlySetup, Named, Ests, BareCreate;
    OneNamedByFields(f.messages, t);
  }

  lemma {:induction false} OneNamedByFields(ms: seq<Event>, t: real)
    ensures |Named(ms, SETUP_RESPONSE)| == 1 && Named(ms, SETUP_RESPONSE)[0].ts == t <==> OnlySetup(ms, t)
    ensures Named(ms, SETUP_RESPONSE) == [] <==> forall m :: 0 <= m < |ms| ==> !IsSetup(ms[m].0)
  {
    if ms != [] {
      var n := |ms| - 1;
      OneNamedByFields(ms[..n], t);
      assert forall m :: 0 <= m < n ==> ms[..n][m] == ms[m];
      if k :| 0 <= k < n && IsSetup(ms[..n][k].0) && ms[..n][k].0.ts == t
              && forall m :: 0 <= m < n && IsSetup(ms[..n][m].0) ==> m == k {
        assert IsSetup(ms[k].0);
      }
    }
  }
}

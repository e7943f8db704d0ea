/** What the flows of a capture say about the fields of its messages. */
module FlowFields {
  import opened Prelude
  import opened FlowModel
  import opened FlowPairing
  import opened FlowTheorems

  /** The NAS message of the event carries a ciphering algorithm. */
  predicate Carries(e: Event) {
    e.1.Some? && e.1.value.ciphAlgo.Some?
  }

  /** `a` is the first ciphering algorithm that the events carry. */
  ghost predicate FirstCipher(ev: seq<Event>, a: Option<int>) {
    if a.None? then forall j :: 0 <= j < |ev| ==> !Carries(ev[j])
    else exists j :: 0 <= j < |ev| && Carries(ev[j]) && ev[j].1.value.ciphAlgo == a
                     && forall k :: 0 <= k < j ==> !Carries(ev[k])
  }

  /** `a` is the first AMF id in the events' messages. */
  ghost predicate FirstAmf(ev: seq<Event>, a: Option<int>) {
    if a.None? then forall j :: 0 <= j < |ev| ==> ev[j].0.amfUeId.None?
    else exists j :: 0 <= j < |ev| && ev[j].0.amfUeId == a && forall k :: 0 <= k < j ==> ev[k].0.amfUeId.None?
  }

  /** Every NAS message was decoded from its bytes with the first algorithm carried before it. */
  ghost predicate Decoded(decode: NasDecoder, ev: seq<Event>) {
    forall i :: 0 <= i < |ev| ==> DecodedAt(decode, ev, i)
  }

  ghost predicate DecodedAt(decode: NasDecoder, ev: seq<Event>, i: nat)
    requires i < |ev|
  {
    if ev[i].0.nasPdu == [] then ev[i].1 == None
    else exists a :: FirstCipher(ev[..i], a) && ev[i].1 == Some(decode(ev[i].0.nasPdu, a))
  }

  /** What a flow's fields are by its messages. */
  ghost predicate FieldsAre(decode: NasDecoder, ev: seq<Event>, ciphAlgo: Option<int>, amfUeId: Option<int>,
                            partial: bool) {
    && Decoded(decode, ev) && FirstCipher(ev, ciphAlgo) && FirstAmf(ev, amfUeId)
    && (ev != [] ==> (partial <==> ev[0].0.name != Some("InitialUEMessage")))
  }

  lemma FirstCipherOneMore(ev: seq<Event>, a: Option<int>, e: Event)
    requires FirstCipher(ev, a)
    ensures FirstCipher(ev + [e], if a.None? && Carries(e) then e.1.value.ciphAlgo else a)
  {
    var more := ev + [e];
    assert more[|ev|] == e && forall j :: 0 <= j < |ev| ==> more[j] == ev[j];
    if a.Some? {
      var j :| 0 <= j < |ev| && Carries(ev[j]) && ev[j].1.value.ciphAlgo == a
        && forall k :: 0 <= k < j ==> !Carries(ev[k]);
      assert Carries(more[j]);
    } else if Carries(e) {
      assert Carries(more[|ev|]);
    }
  }

  lemma FirstAmfOneMore(ev: seq<Event>, a: Option<int>, e: Event)
    requires FirstAmf(ev, a)
    ensures FirstAmf(ev + [e], if a.None? then e.0.amfUeId else a)
  {
    var more := ev + [e];
    assert more[|ev|] == e && forall j :: 0 <= j < |ev| ==> more[j] == ev[j];
    if a.Some? {
      var j :| 0 <= j < |ev| && ev[j].0.amfUeId == a && forall k :: 0 <= k < j ==> ev[k].0.amfUeId.None?;
      assert more[j].0.amfUeId == a;
    } else if e.0.amfUeId.Some? {
      assert more[|ev|].0.amfUeId == e.0.amfUeId;
    }
  }

  lemma DecodedOneMore(decode: NasDecoder, ev: seq<Event>, e: Event, a: Option<int>)
    requires Decoded(decode, ev) && FirstCipher(ev, a)
    requires e.1 == if e.0.nasPdu == [] then None else Some(decode(e.0.nasPdu, a))
    ensures Decoded(decode, ev + [e])
  {
    hide FirstCipher;
    var more := ev + [e];
    forall i | 0 <= i < |more|
      ensures DecodedAt(decode, more, i)
    {
      if i < |ev| {
        assert DecodedAt(decode, ev, i) && more[..i] == ev[..i];
      } else {
        assert more[..i] == ev;
      }
    }
  }

  /** One message's effect on the fields that do not concern procedures. */
  lemma StepFields(decode: NasDecoder, f: FlowState, ng: NgapMsg)
    ensures var g := StepFlow(decode, f, ng);
            var nas := if ng.nasPdu == [] then None else Some(decode(ng.nasPdu, f.ciphAlgo));
            && g.messages == f.messages + [(ng, nas)] && g.partial == f.partial
            && g.amfUeId == (if f.amfUeId.None? then ng.amfUeId else f.amfUeId)
            && g.ciphAlgo == if f.ciphAlgo.None? && nas.Some? then nas.value.ciphAlgo else f.ciphAlgo
  {
    hide Release, NasStep, NgapStep;
    var nas := NasOf(decode, ng, f.ciphAlgo);
    var a := Receive(decode, f, ng);
    var b := Release(a, ng);
    var c := NasStep(b, ng, nas);
    ReleaseKeeps(a, ng);
    NasStepKeeps(b, ng, nas);
    NgapStepKeeps(c, ng);
  }

  predicate SameFields(f: FlowState, g: FlowState) {
    f.messages == g.messages && f.partial == g.partial && f.amfUeId == g.amfUeId && f.ciphAlgo == g.ciphAlgo
  }

  lemma ReleaseKeeps(f: FlowState, ng: NgapMsg)
    ensures SameFields(f, Release(f, ng))
  {
    hide NgapRole;
  }

  lemma NasStepKeeps(f: FlowState, ng: NgapMsg, nas: Option<NasMsg>)
    ensures SameFields(f, NasStep(f, ng, nas))
  {
    hide NasRole;
  }

  lemma NgapStepKeeps(f: FlowState, ng: NgapMsg)
    ensures SameFields(f, NgapStep(f, ng))
  {
    hide NgapRole, HasKind;
  }

  lemma StepKeepsFields(decode: NasDecoder, f: FlowState, ng: NgapMsg, amf: Option<int>)
    requires FieldsAre(decode, f.messages, f.ciphAlgo, amf, f.partial)
    requires f.amfUeId == amf || (amf.None? && f.amfUeId == ng.amfUeId)
    requires f.messages == [] ==> (f.partial <==> ng.name != Some("InitialUEMessage"))
    ensures var g := StepFlow(decode, f, ng); FieldsAre(decode, g.messages, g.ciphAlgo, g.amfUeId, g.partial)
  {
    hide StepFlow, Decoded, FirstCipher, FirstAmf;
    StepFields(decode, f, ng);
    var e := StepFlow(decode, f, ng).messages[|f.messages|];
    DecodedOneMore(decode, f.messages, e, f.ciphAlgo);
    FirstCipherOneMore(f.messages, f.ciphAlgo, e);
    FirstAmfOneMore(f.messages, amf, e);
  }

  /** Every flow's fields are those that its messages give, and the algorithm it has reaches the decoder. */
  lemma {:induction false} FlowFieldsAre(decode: NasDecoder, ms: seq<NgapMsg>)
    requires ms != []
    ensures var f := FlowOf(decode, ms); FieldsAre(decode, f.messages, f.ciphAlgo, f.amfUeId, f.partial)
  {
    hide StepFlow, FieldsAre;
    var front, last := ms[..|ms| - 1], ms[|ms| - 1];
    if front == [] {
      NewFields(decode, ms[0]);
      StepKeepsFields(decode, NewFlow(ms[0]), last, None);
    } else {
      FlowFieldsAre(decode, front);
      MessagesInOrder(decode, front);
      StepKeepsFields(decode, FlowOf(decode, front), last, FlowOf(decode, front).amfUeId);
    }
  }

  lemma NewFields(decode: NasDecoder, ng: NgapMsg)
    ensures var f := NewFlow(ng);
            FieldsAre(decode, f.messages, f.ciphAlgo, None, f.partial)
            && f.messages == [] && (f.partial <==> ng.name != Some("InitialUEMessage"))
  {
  }

  predicate Blank(s: Option<string>) {
    s == None || s == Some("")
  }

  /** The decoded NAS message goes by this name: its inner one if it has one, else its own. */
  predicate Says(e: Event, name: string) {
    && e.1.Some? && e.1.value.name.Some? && Blank(e.1.value.unparsed)
    && if Blank(e.1.value.inner) then e.1.value.name == Some(name) else e.1.value.inner == Some(name)
  }

  predicate SaysNas(e: Event, k: Kind, registration: string, session: string) {
    Says(e, if k == Registration then registration else session)
  }

  predicate NamedNgap(e: Event, k: Kind, registration: string, session: string) {
    e.0.name == Some(if k == Registration then registration else session)
  }

  /** Which messages start, end and drop procedures, by their names. */
  lemma RolesByName(e: Event, k: Kind)
    ensures NasStarts(e, k) <==> SaysNas(e, k, "5GMMRegistrationRequest", "5GSMPDUSessionEstabRequest")
    ensures NasEnds(e, k) <==> SaysNas(e, k, "5GMMRegistrationAccept", "5GSMPDUSessionEstabAccept")
                               || SaysNas(e, k, "5GMMRegistrationReject", "5GSMPDUSessionEstabReject")
    ensures NgapStarts(e, k) <==> NamedNgap(e, k, "InitialUEMessage", "PDUSessionResourceSetupRequest")
    ensures NgapEnds(e, k) <==> NamedNgap(e, k, "InitialContextSetupRequest", "PDUSessionResourceSetupResponse")
                                || NamedNgap(e, k, "InitialContextSetupFailure", "PDUSessionResourceSetupFailure")
    ensures Releases(e) <==> e.0.name in {Some("UEContextReleaseRequest"), Some("UEContextReleaseCommand"),
                                          Some("UEContextReleaseComplete")}
  {
    hide NasStarts, NasEnds, NgapStarts, NgapEnds, Releases, SaysNas, NamedNgap;
    NasStartsByName(e, k);
    NasEndsByName(e, k);
    NgapStartsByName(e, k);
    NgapEndsByName(e, k);
    ReleasesByName(e);
  }

  lemma NasStartsByName(e: Event, k: Kind)
    ensures NasStarts(e, k) <==> SaysNas(e, k, "5GMMRegistrationRequest", "5GSMPDUSessionEstabRequest")
  {
    hide NasName, Says;
    SaysIsName(e);
  }

  lemma NasEndsByName(e: Event, k: Kind)
    ensures NasEnds(e, k) <==> SaysNas(e, k, "5GMMRegistrationAccept", "5GSMPDUSessionEstabAccept")
                               || SaysNas(e, k, "5GMMRegistrationReject", "5GSMPDUSessionEstabReject")
  {
    hide NasName, Says;
    SaysIsName(e);
  }

  lemma NgapStartsByName(e: Event, k: Kind)
    ensures NgapStarts(e, k) <==> NamedNgap(e, k, "InitialUEMessage", "PDUSessionResourceSetupRequest")
  {
  }

  lemma NgapEndsByName(e: Event, k: Kind)
    ensures NgapEnds(e, k) <==> NamedNgap(e, k, "InitialContextSetupRequest", "PDUSessionResourceSetupResponse")
                                || NamedNgap(e, k, "InitialContextSetupFailure", "PDUSessionResourceSetupFailure")
  {
  }

  lemma ReleasesByName(e: Event)
    ensures Releases(e) <==> e.0.name in {Some("UEContextReleaseRequest"), Some("UEContextReleaseCommand"),
                                          Some("UEContextReleaseComplete")}
  {
  }

  lemma SaysIsName(e: Event)
    ensures forall name :: Says(e, name) <==> NasName(e.1) == Some(name)
  {
  }

  /** The procedure runs from one message to the other and was accepted, by the messages' names and times. */
  ghost predicate Runs(x: Event, y: Event, p: Procedure) {
    && p.startTs == x.0.ts && p.endTs == Some(y.0.ts) && p.endMsg.Some?
    && ((Says(x, p.startMsg) && Says(y, p.endMsg.value)
         && SaysNas(x, p.kind, "5GMMRegistrationRequest", "5GSMPDUSessionEstabRequest")
         && match p.outcome
            case Accept => SaysNas(y, p.kind, "5GMMRegistrationAccept", "5GSMPDUSessionEstabAccept")
            case Reject => SaysNas(y, p.kind, "5GMMRegistrationReject", "5GSMPDUSessionEstabReject")
            case Open => false)
        || (x.0.name == Some(p.startMsg) && y.0.name == p.endMsg
            && NamedNgap(x, p.kind, "InitialUEMessage", "PDUSessionResourceSetupRequest")
            && match p.outcome
               case Accept => NamedNgap(y, p.kind, "InitialContextSetupRequest", "PDUSessionResourceSetupResponse")
               case Reject => NamedNgap(y, p.kind, "InitialContextSetupFailure", "PDUSessionResourceSetupFailure")
               case Open => false))
  }

  lemma ClosingRuns(ev: seq<Event>, c: Closing)
    requires Within(ev, c)
    ensures Runs(ev[c.from], ev[c.to], ProcedureOf(ev, c))
  {
    hide NasName, NasRole, NgapRole, Says;
    RolesByName(ev[c.from], c.kind);
    RolesByName(ev[c.to], c.kind);
    SaysIsName(ev[c.from]);
    SaysIsName(ev[c.to]);
    if c.nas {
      NasVerdict(ev[c.to], c.kind);
    } else {
      NgapVerdict(ev[c.to], c.kind);
    }
  }

  lemma NasVerdict(e: Event, k: Kind)
    requires NasEnds(e, k)
    ensures var accepts := SaysNas(e, k, "5GMMRegistrationAccept", "5GSMPDUSessionEstabAccept");
            NasRole(e.1).verdict == if accepts then Accept else Reject
  {
    hide NasName, Says;
    SaysIsName(e);
  }

  lemma NgapVerdict(e: Event, k: Kind)
    requires NgapEnds(e, k)
    ensures var accepts := NamedNgap(e, k, "InitialContextSetupRequest", "PDUSessionResourceSetupResponse");
            NgapRole(e.0.name).verdict == if accepts then Accept else Reject
  {
  }

  /** Every procedure of every flow runs from one of its messages to a later one. */
  lemma ProceduresRun(decode: NasDecoder, ms: seq<NgapMsg>)
    requires ms != []
    ensures var f := FlowOf(decode, ms); AllRun(f.messages, f.procedures)
  {
    hide FlowOf, Closings, Within, ProcedureOf, Runs;
    PairingDiscipline(decode, ms);
    var f := FlowOf(decode, ms);
    forall x | 0 <= x < |f.procedures|
      ensures exists i, j :: 0 <= i < j < |f.messages| && Runs(f.messages[i], f.messages[j], f.procedures[x])
    {
      var c := Closings(f.messages)[x];
      assert c in Closings(f.messages);
      ClosingSpan(f.messages, c);
      ClosingRuns(f.messages, c);
    }
  }

  lemma ClosingSpan(ev: seq<Event>, c: Closing)
    requires Within(ev, c)
    ensures c.from < c.to < |ev|
  {
  }

  ghost predicate AllRun(ev: seq<Event>, ps: seq<Procedure>) {
    forall x :: 0 <= x < |ps| ==> exists i, j :: 0 <= i < j < |ev| && Runs(ev[i], ev[j], ps[x])
  }

  predicate HasId(m: NgapMsg) {
    m.ranUeId != None || m.amfUeId != None
  }

  /** Between the same two ports, whichever way, and with the same RAN id. */
  predicate SameUe(a: NgapMsg, b: NgapMsg) {
    (a.assoc == b.assoc || a.assoc == (b.assoc.1, b.assoc.0)) && a.ranUeId == b.ranUeId
  }

  lemma {:induction false} OnKeyMembers(ms: seq<NgapMsg>, key: Key, m: NgapMsg)
    ensures m in OnKey(ms, key) <==> m in ms && Associated(m) && KeyOf(m) == key
    ensures m in Unassociated(ms) <==> m in ms && !Associated(m)
  {
    hide Associated, KeyOf;
    if ms != [] {
      var front, last := ms[..|ms| - 1], ms[|ms| - 1];
      OnKeyMembers(front, key, m);
      assert ms == front + [last];
    }
  }

  lemma KeyByFields(a: NgapMsg, b: NgapMsg)
    ensures KeyOf(a) == KeyOf(b) <==> SameUe(a, b)
    ensures Associated(a) <==> HasId(a)
  {
    var x, y := {a.assoc.0, a.assoc.1}, {b.assoc.0, b.assoc.1};
    if x == y {
      assert a.assoc.0 in y && a.assoc.1 in y && b.assoc.0 in x && b.assoc.1 in x;
    }
  }

  /** Two messages with an id share a flow exactly when they are of the same UE. */
  lemma FlowsByFields(ms: seq<NgapMsg>, a: NgapMsg, b: NgapMsg)
    requires a in ms && b in ms && HasId(a) && HasId(b)
    ensures (exists i :: 0 <= i < |Keys(ms)| && a in OnKey(ms, Keys(ms)[i]) && b in OnKey(ms, Keys(ms)[i]))
            <==> SameUe(a, b)
  {
    hide OnKey, KeyOf, Associated, SameUe, HasId;
    KeyByFields(a, b);
    KeyByFields(b, a);
    forall key
      ensures a in OnKey(ms, key) <==> key == KeyOf(a)
      ensures b in OnKey(ms, key) <==> key == KeyOf(b)
    {
      OnKeyMembers(ms, key, a);
      OnKeyMembers(ms, key, b);
    }
    assert OnKey(ms, KeyOf(a)) != [] && KeyOf(a) in Keys(ms);
    var i :| 0 <= i < |Keys(ms)| && Keys(ms)[i] == KeyOf(a);
  }

  /** A message is left out of all flows exactly when it has no id. */
  lemma UnassociatedByFields(ms: seq<NgapMsg>, m: NgapMsg)
    ensures m in Unassociated(ms) <==> m in ms && !HasId(m)
  {
    hide Unassociated, KeyOf, OnKey;
    OnKeyMembers(ms, KeyOf(m), m);
    KeyByFields(m, m);
  }
}

/** The builder's procedures are exactly the declared pairings. */
module FlowRefinement {
  import opened Prelude
  import opened FlowModel
  import opened FlowPairing

  predicate AllWithin(ev: seq<Event>, cs: seq<Closing>) {
    forall c :: c in cs ==> Within(ev, c)
  }

  function OpenProcedure(ev: seq<Event>, k: Kind, at: Option<nat>): Option<Procedure>
    requires at.Some? ==> at.value < |ev|
  {
    if at.None? then None else Some(Started(k, ev[at.value].0.ts, NasStartName(k)))
  }

  function StartProcedures(ev: seq<Event>, k: Kind, at: seq<nat>): seq<Procedure>
    requires forall i :: i in at ==> i < |ev| && ev[i].0.name.Some?
  {
    seq(|at|, x requires 0 <= x < |at| => assert at[x] in at; Started(k, ev[at[x]].0.ts, ev[at[x]].0.name.value))
  }

  predicate Named(ev: seq<Event>, at: seq<nat>) {
    forall i :: i in at ==> i < |ev| && ev[i].0.name.Some?
  }

  /** The pending state of one kind, as the messages `ev` and the closings `cs` determine it. */
  ghost predicate PendingIs(p: Pending, ev: seq<Event>, k: Kind, at: Option<nat>, live: seq<nat>, cs: seq<Closing>) {
    && (at.Some? ==> at.value < |ev|) && Named(ev, live)
    && p.open == OpenProcedure(ev, k, at)
    && (!Has(cs, k) ==> p.starts == StartProcedures(ev, k, live))
  }

  /** The flow state after the messages `ev`. */
  ghost predicate Follows(f: FlowState, ev: seq<Event>) {
    && f.messages == ev && AllWithin(ev, Closings(ev)) && f.procedures == Procedures(ev, Closings(ev))
    && PendingIs(f.reg, ev, Registration, OpenAt(ev, Registration), LiveStarts(ev, Registration), Closings(ev))
    && PendingIs(f.pdu, ev, PduSession, OpenAt(ev, PduSession), LiveStarts(ev, PduSession), Closings(ev))
  }

  lemma AppendProcedure(ev: seq<Event>, cs: seq<Closing>, c: Closing)
    requires AllWithin(ev, cs) && Within(ev, c)
    ensures AllWithin(ev, cs + [c]) && Procedures(ev, cs + [c]) == Procedures(ev, cs) + [ProcedureOf(ev, c)]
  {
    assert (cs + [c])[..|cs|] == cs;
  }

  lemma ProceduresPrefix(ev: seq<Event>, e: Event, cs: seq<Closing>)
    requires AllWithin(ev, cs)
    ensures AllWithin(ev + [e], cs) && Procedures(ev + [e], cs) == Procedures(ev, cs)
  {
    forall c | c in cs
      ensures Within(ev + [e], c) && ProcedureOf(ev + [e], c) == ProcedureOf(ev, c)
    {
    }
    assert forall x :: 0 <= x < |cs| ==> cs[x] in cs;
  }

  lemma ProcedureKinds(ev: seq<Event>, cs: seq<Closing>, k: Kind)
    requires AllWithin(ev, cs)
    ensures HasKind(Procedures(ev, cs), k) <==> Has(cs, k)
  {
    var ps := Procedures(ev, cs);
    if c :| c in cs && c.kind == k {
      var x :| 0 <= x < |cs| && cs[x] == c;
      assert ps[x] in ps && ps[x].kind == k;
    }
  }

  lemma PendingKept(p: Pending, ev: seq<Event>, e: Event, k: Kind, at: Option<nat>, live: seq<nat>, cs: seq<Closing>)
    requires PendingIs(p, ev, k, at, live, cs)
    ensures PendingIs(p, ev + [e], k, at, live, cs)
  {
    assert StartProcedures(ev + [e], k, live) == StartProcedures(ev, k, live);
  }

  /** The NGAP starts of one kind left after the release step of the last message. */
  function Remaining(ev: seq<Event>, k: Kind): seq<nat>
    requires ev != []
  {
    if Releases(ev[|ev| - 1]) then [] else LiveStarts(ev[..|ev| - 1], k)
  }

  /** Between two steps on the last message of `ev`: the NAS opens are at `reg` and `pdu`, the closings `cs`. */
  ghost predicate Between(f: FlowState, ev: seq<Event>, reg: Option<nat>, pdu: Option<nat>, cs: seq<Closing>)
    requires ev != []
  {
    && f.messages == ev && AllWithin(ev, cs) && f.procedures == Procedures(ev, cs)
    && PendingIs(f.reg, ev, Registration, reg, Remaining(ev, Registration), cs)
    && PendingIs(f.pdu, ev, PduSession, pdu, Remaining(ev, PduSession), cs)
  }

  lemma ReceiveRefines(decode: NasDecoder, f: FlowState, ev: seq<Event>, ng: NgapMsg)
    requires Follows(f, ev)
    ensures var ev' := ev + [(ng, NasOf(decode, ng, f.ciphAlgo))];
            Between(Release(Receive(decode, f, ng), ng), ev', OpenAt(ev, Registration), OpenAt(ev, PduSession),
                    Closings(ev))
  {
    hide Closings, LiveStarts, OpenAt, Within, ProcedureOf;
    var e := (ng, NasOf(decode, ng, f.ciphAlgo));
    assert (ev + [e])[..|ev|] == ev;
    ProceduresPrefix(ev, e, Closings(ev));
    PendingKept(f.reg, ev, e, Registration, OpenAt(ev, Registration), LiveStarts(ev, Registration), Closings(ev));
    PendingKept(f.pdu, ev, e, PduSession, OpenAt(ev, PduSession), LiveStarts(ev, PduSession), Closings(ev));
  }

  lemma NoNewClosing(cs: seq<Closing>)
    ensures cs + [] == cs
  {
  }

  lemma HasAppend(cs: seq<Closing>, c: Closing, k: Kind)
    ensures Has(cs + [c], k) <==> Has(cs, k) || c.kind == k
  {
    assert c in cs + [c];
    assert forall d :: d in cs ==> d in cs + [c];
  }

  /** A new closing of another kind leaves the pending state of `k`. */
  lemma OtherKindCloses(p: Pending, ev: seq<Event>, k: Kind, at: Option<nat>, live: seq<nat>, cs: seq<Closing>,
                        c: Closing)
    requires PendingIs(p, ev, k, at, live, cs) && c.kind != k
    ensures PendingIs(p, ev, k, at, live, cs + [c])
  {
    HasAppend(cs, c, k);
  }

  /** Once a kind has a closing, only its NAS open matters. */
  lemma SameKindCloses(p: Pending, ev: seq<Event>, at: Option<nat>, live: seq<nat>, cs: seq<Closing>, c: Closing)
    requires Named(ev, live) && (at.Some? ==> at.value < |ev|)
    requires p.open == OpenProcedure(ev, c.kind, at)
    ensures PendingIs(p, ev, c.kind, at, live, cs + [c])
  {
    HasAppend(cs, c, c.kind);
  }

  lemma KindStarts(p: Pending, ev: seq<Event>, k: Kind, at: Option<nat>, live: seq<nat>, cs: seq<Closing>)
    requires PendingIs(p, ev, k, at, live, cs) && ev != [] && NasStarts(ev[|ev| - 1], k)
    ensures NasName(ev[|ev| - 1].1).value == NasStartName(k)
    ensures PendingIs(p.(open := Some(Started(k, ev[|ev| - 1].0.ts, NasStartName(k)))), ev, k, Some(|ev| - 1), live, cs)
  {
  }

  /** The head of an unmeasured kind's open or queue is the start of the closing it makes. */
  lemma NasCloses(p: Pending, ev: seq<Event>, k: Kind, at: nat, live: seq<nat>, cs: seq<Closing>)
    requires ev != [] && at < |ev| - 1 && NasStarts(ev[at], k) && NasEnds(ev[|ev| - 1], k)
    requires PendingIs(p, ev, k, Some(at), live, cs)
    ensures var c := Closing(k, true, at, |ev| - 1); var e := ev[|ev| - 1];
            Within(ev, c) && p.open.Some?
            && ProcedureOf(ev, c) == Closed(p.open.value, e.0.ts, NasName(e.1).value, NasRole(e.1).verdict)
  {
    KindStarts'(ev[at], k);
  }

  lemma KindStarts'(e: Event, k: Kind)
    requires NasStarts(e, k)
    ensures NasName(e.1).value == NasStartName(k)
  {
  }

  lemma OpenStep(ev: seq<Event>, k: Kind)
    requires ev != []
    ensures OpenAt(ev, k) ==
      if NasStarts(ev[|ev| - 1], k) then Some(|ev| - 1)
      else if NasEnds(ev[|ev| - 1], k) then None
      else OpenAt(ev[..|ev| - 1], k)
  {
  }

  lemma NasStartRefines(f: FlowState, ev: seq<Event>, k: Kind, reg: Option<nat>, pdu: Option<nat>, cs: seq<Closing>)
    requires ev != [] && Between(f, ev, reg, pdu, cs) && NasStarts(ev[|ev| - 1], k)
    ensures var e := ev[|ev| - 1]; var n := |ev| - 1;
            Between(NasStep(f, e.0, e.1), ev,
                    if k.Registration? then Some(n) else reg, if k.PduSession? then Some(n) else pdu, cs)
  {
    hide Procedures, Remaining, PendingIs, AllWithin;
    if k == Registration {
      KindStarts(f.reg, ev, k, reg, Remaining(ev, k), cs);
    } else {
      KindStarts(f.pdu, ev, k, pdu, Remaining(ev, k), cs);
    }
    KindStarts'(ev[|ev| - 1], k);
  }

  lemma NasEndRefines(f: FlowState, ev: seq<Event>, k: Kind, reg: Option<nat>, pdu: Option<nat>, cs: seq<Closing>,
                      at: nat)
    requires ev != [] && Between(f, ev, reg, pdu, cs) && NasEnds(ev[|ev| - 1], k)
    requires Some(at) == (if k.Registration? then reg else pdu) && at < |ev| - 1 && NasStarts(ev[at], k)
    ensures var e := ev[|ev| - 1];
            Between(NasStep(f, e.0, e.1), ev,
                    if k.Registration? then None else reg, if k.PduSession? then None else pdu,
                    cs + [Closing(k, true, at, |ev| - 1)])
  {
    hide Procedures, Remaining, PendingIs, AllWithin, Within, ProcedureOf, OpenProcedure;
    var c := Closing(k, true, at, |ev| - 1);
    NasCloses(f.Of(k), ev, k, at, Remaining(ev, k), cs);
    AppendProcedure(ev, cs, c);
    NamedRemaining(f, ev, reg, pdu, cs);
    NoneOpen(ev, k);
    if k == Registration {
      SameKindCloses(f.reg.(open := None), ev, None, Remaining(ev, k), cs, c);
      OtherKindCloses(f.pdu, ev, PduSession, pdu, Remaining(ev, PduSession), cs, c);
    } else {
      SameKindCloses(f.pdu.(open := None), ev, None, Remaining(ev, k), cs, c);
      OtherKindCloses(f.reg, ev, Registration, reg, Remaining(ev, Registration), cs, c);
    }
  }

  lemma NoneOpen(ev: seq<Event>, k: Kind)
    ensures OpenProcedure(ev, k, None) == None
  {
  }

  lemma NasClosingIs(ev: seq<Event>)
    requires ev != []
    ensures var r := NasRole(ev[|ev| - 1].1); var n := |ev| - 1;
            NasClosing(ev) == if r.Ends? && OpenAt(ev[..n], r.kind).Some?
                              then [Closing(r.kind, true, OpenAt(ev[..n], r.kind).value, n)] else []
  {
  }

  lemma NasRefines(f: FlowState, ev: seq<Event>, reg: Option<nat>, pdu: Option<nat>, cs: seq<Closing>)
    requires ev != [] && Between(f, ev, reg, pdu, cs)
    requires reg == OpenAt(ev[..|ev| - 1], Registration) && pdu == OpenAt(ev[..|ev| - 1], PduSession)
    ensures var e := ev[|ev| - 1];
            Between(NasStep(f, e.0, e.1), ev, OpenAt(ev, Registration), OpenAt(ev, PduSession), cs + NasClosing(ev))
  {
    hide OpenAt, Between, NasStep, Closed, NasName, NasClosing, NasRole;
    OpenStep(ev, Registration);
    OpenStep(ev, PduSession);
    NasClosingIs(ev);
    NoNewClosing(cs);
    var n := |ev| - 1;
    var r := NasRole(ev[n].1);
    if r.Starts? {
      NasStartRefines(f, ev, r.kind, reg, pdu, cs);
    } else if r.Ends? && OpenAt(ev[..n], r.kind).Some? {
      OpenIsLatest(ev[..n], r.kind);
      NasEndRefines(f, ev, r.kind, reg, pdu, cs, OpenAt(ev[..n], r.kind).value);
    } else {
      if r.Ends? {
        StaysClosed(f, ev, r.kind, reg, pdu, cs);
      }
      NasIdle(f, ev[n]);
    }
  }

  lemma NasIdle(f: FlowState, e: Event)
    requires NasRole(e.1).Drops? || NasRole(e.1).Neither? || (NasRole(e.1).Ends? && f.Of(NasRole(e.1).kind).open.None?)
    ensures NasStep(f, e.0, e.1) == f
  {
  }

  lemma NamedRemaining(f: FlowState, ev: seq<Event>, reg: Option<nat>, pdu: Option<nat>, cs: seq<Closing>)
    requires ev != [] && Between(f, ev, reg, pdu, cs)
    ensures Named(ev, Remaining(ev, Registration)) && Named(ev, Remaining(ev, PduSession))
  {
  }

  lemma StaysClosed(f: FlowState, ev: seq<Event>, k: Kind, reg: Option<nat>, pdu: Option<nat>, cs: seq<Closing>)
    requires ev != [] && Between(f, ev, reg, pdu, cs) && (if k.Registration? then reg else pdu).None?
    ensures f.Of(k).open.None?
  {
  }

  lemma LiveStep(ev: seq<Event>, k: Kind)
    requires ev != []
    ensures LiveStarts(ev, k) == if NgapStarts(ev[|ev| - 1], k) then Remaining(ev, k) + [|ev| - 1] else Remaining(ev, k)
  {
  }

  lemma RemainingStarts(ev: seq<Event>, k: Kind, i: nat)
    requires ev != [] && i in Remaining(ev, k)
    ensures i < |ev| - 1 && NgapStarts(ev[i], k)
  {
    var n := |ev| - 1;
    LiveStartsAreLive(ev[..n], k);
    assert Live(ev[..n], k, i, n);
  }

  lemma LiveNamed(ev: seq<Event>, k: Kind)
    ensures Named(ev, LiveStarts(ev, k))
  {
    LiveStartsAreLive(ev, k);
    forall i | i in LiveStarts(ev, k)
      ensures i < |ev| && ev[i].0.name.Some?
    {
      assert Live(ev, k, i, |ev|);
    }
  }

  lemma NgapClosingIs(ev: seq<Event>, cs: seq<Closing>)
    requires ev != []
    ensures var r := NgapRole(ev[|ev| - 1].0.name); var n := |ev| - 1;
            NgapClosing(ev, cs) == if r.Ends? && !Has(cs, r.kind) && Remaining(ev, r.kind) != []
                                   then [Closing(r.kind, false, Remaining(ev, r.kind)[0], n)] else []
  {
  }

  /** Other kinds keep their NGAP starts. */
  lemma QueueKept(p: Pending, ev: seq<Event>, k: Kind, at: Option<nat>, cs: seq<Closing>)
    requires ev != [] && PendingIs(p, ev, k, at, Remaining(ev, k), cs) && !NgapStarts(ev[|ev| - 1], k)
    ensures PendingIs(p, ev, k, at, LiveStarts(ev, k), cs)
  {
    LiveStep(ev, k);
  }

  lemma StartsAppend(ev: seq<Event>, k: Kind, live: seq<nat>)
    requires ev != [] && Named(ev, live) && ev[|ev| - 1].0.name.Some?
    ensures Named(ev, live + [|ev| - 1])
    ensures var ng := ev[|ev| - 1].0;
            StartProcedures(ev, k, live + [|ev| - 1])
            == StartProcedures(ev, k, live) + [Started(k, ng.ts, ng.name.value)]
  {
  }

  lemma QueueGrows(p: Pending, ev: seq<Event>, k: Kind, at: Option<nat>, cs: seq<Closing>)
    requires ev != [] && PendingIs(p, ev, k, at, Remaining(ev, k), cs) && NgapStarts(ev[|ev| - 1], k)
    ensures var ng := ev[|ev| - 1].0;
            ng.name.Some? &&
            PendingIs(p.(starts := p.starts + [Started(k, ng.ts, ng.name.value)]), ev, k, at, LiveStarts(ev, k), cs)
  {
    hide LiveStarts, Remaining, Has;
    LiveStep(ev, k);
    LiveNamed(ev, k);
    if !Has(cs, k) {
      StartsAppend(ev, k, Remaining(ev, k));
    }
  }

  /** Whatever is queued for a kind that has a closing, its pending state is only the NAS open. */
  lemma QueueIgnored(p: Pending, ev: seq<Event>, k: Kind, at: Option<nat>, live: seq<nat>, cs: seq<Closing>,
                     q: seq<Procedure>)
    requires ev != [] && PendingIs(p, ev, k, at, live, cs) && Has(cs, k)
    ensures PendingIs(p.(starts := q), ev, k, at, LiveStarts(ev, k), cs)
  {
    LiveNamed(ev, k);
  }

  lemma NgapCloses(p: Pending, ev: seq<Event>, k: Kind, at: Option<nat>, cs: seq<Closing>)
    requires ev != [] && NgapEnds(ev[|ev| - 1], k) && !Has(cs, k)
    requires PendingIs(p, ev, k, at, Remaining(ev, k), cs)
    ensures p.starts == [] <==> Remaining(ev, k) == []
    ensures p.starts != [] ==>
      var c := Closing(k, false, Remaining(ev, k)[0], |ev| - 1); var e := ev[|ev| - 1];
      Within(ev, c) && ProcedureOf(ev, c) == Closed(p.starts[0], e.0.ts, e.0.name.value, NgapRole(e.0.name).verdict)
      && forall q :: PendingIs(p.(starts := q), ev, k, at, LiveStarts(ev, k), cs + [c])
  {
    hide LiveStarts, Remaining, Has, StartProcedures, Within, ProcedureOf;
    LiveStep(ev, k);
    LiveNamed(ev, k);
    StartsFor(ev, k, Remaining(ev, k));
    if p.starts != [] {
      EarliestCloses(ev, k);
      HasAppend(cs, Closing(k, false, Remaining(ev, k)[0], |ev| - 1), k);
    }
  }

  lemma StartsFor(ev: seq<Event>, k: Kind, at: seq<nat>)
    requires Named(ev, at)
    ensures |StartProcedures(ev, k, at)| == |at|
    ensures at != [] ==> at[0] in at
                         && StartProcedures(ev, k, at)[0] == Started(k, ev[at[0]].0.ts, ev[at[0]].0.name.value)
  {
  }

  lemma EarliestCloses(ev: seq<Event>, k: Kind)
    requires ev != [] && NgapEnds(ev[|ev| - 1], k) && Remaining(ev, k) != []
    ensures var i := Remaining(ev, k)[0]; var c := Closing(k, false, i, |ev| - 1); var e := ev[|ev| - 1];
            Within(ev, c)
            && ProcedureOf(ev, c) == Closed(Started(k, ev[i].0.ts, ev[i].0.name.value), e.0.ts, e.0.name.value,
                                            NgapRole(e.0.name).verdict)
  {
    hide LiveStarts, Remaining;
    RemainingStarts(ev, k, Remaining(ev, k)[0]);
  }

  lemma NgapStartRefines(f: FlowState, ev: seq<Event>, k: Kind, reg: Option<nat>, pdu: Option<nat>, cs: seq<Closing>)
    requires ev != [] && Between(f, ev, reg, pdu, cs) && NgapStarts(ev[|ev| - 1], k)
    ensures After(NgapStep(f, ev[|ev| - 1].0), ev, reg, pdu, cs)
  {
    hide Procedures, Remaining, PendingIs, AllWithin;
    if k == Registration {
      QueueGrows(f.reg, ev, k, reg, cs);
      QueueKept(f.pdu, ev, PduSession, pdu, cs);
    } else {
      QueueGrows(f.pdu, ev, k, pdu, cs);
      QueueKept(f.reg, ev, Registration, reg, cs);
    }
  }

  /** The state after the last message of `ev`, with its NAS opens and closings given. */
  ghost predicate After(f: FlowState, ev: seq<Event>, reg: Option<nat>, pdu: Option<nat>, cs: seq<Closing>) {
    && f.messages == ev && AllWithin(ev, cs) && f.procedures == Procedures(ev, cs)
    && PendingIs(f.reg, ev, Registration, reg, LiveStarts(ev, Registration), cs)
    && PendingIs(f.pdu, ev, PduSession, pdu, LiveStarts(ev, PduSession), cs)
  }

  lemma NgapIdleRefines(f: FlowState, ev: seq<Event>, reg: Option<nat>, pdu: Option<nat>, cs: seq<Closing>)
    requires ev != [] && Between(f, ev, reg, pdu, cs) && !NgapRole(ev[|ev| - 1].0.name).Starts?
    ensures After(f, ev, reg, pdu, cs)
  {
    hide Procedures, Remaining, PendingIs, AllWithin;
    QueueKept(f.reg, ev, Registration, reg, cs);
    QueueKept(f.pdu, ev, PduSession, pdu, cs);
  }

  lemma NgapEndRefines(f: FlowState, ev: seq<Event>, k: Kind, reg: Option<nat>, pdu: Option<nat>, cs: seq<Closing>)
    requires ev != [] && Between(f, ev, reg, pdu, cs) && NgapEnds(ev[|ev| - 1], k)
    ensures After(NgapStep(f, ev[|ev| - 1].0), ev, reg, pdu, cs + NgapClosing(ev, cs))
  {
    hide Procedures, Remaining, PendingIs, AllWithin, NgapClosing, Has, HasKind, LiveStarts, Within, ProcedureOf;
    ProcedureKinds(ev, cs, k);
    NgapClosingIs(ev, cs);
    NoNewClosing(cs);
    NgapIdleRefines(f, ev, reg, pdu, cs);
    if Has(cs, k) {
      if k == Registration {
        QueueIgnored(f.reg, ev, k, reg, Remaining(ev, k), cs, []);
      } else {
        QueueIgnored(f.pdu, ev, k, pdu, Remaining(ev, k), cs, []);
      }
    } else {
      NgapCloses(f.Of(k), ev, k, if k.Registration? then reg else pdu, cs);
      if f.Of(k).starts != [] {
        var c := Closing(k, false, Remaining(ev, k)[0], |ev| - 1);
        AppendProcedure(ev, cs, c);
        if k == Registration {
          OtherKindCloses(f.pdu, ev, PduSession, pdu, LiveStarts(ev, PduSession), cs, c);
        } else {
          OtherKindCloses(f.reg, ev, Registration, reg, LiveStarts(ev, Registration), cs, c);
        }
      }
    }
  }

  lemma NoNgapClosing(ev: seq<Event>, cs: seq<Closing>)
    requires ev != [] && !NgapRole(ev[|ev| - 1].0.name).Ends?
    ensures cs + NgapClosing(ev, cs) == cs
  {
  }

  lemma NgapRefines(f: FlowState, ev: seq<Event>, reg: Option<nat>, pdu: Option<nat>, cs: seq<Closing>)
    requires ev != [] && Between(f, ev, reg, pdu, cs)
    ensures After(NgapStep(f, ev[|ev| - 1].0), ev, reg, pdu, cs + NgapClosing(ev, cs))
  {
    hide Between, After, NgapClosing;
    match NgapRole(ev[|ev| - 1].0.name)
    case Starts(k) =>
      NoNgapClosing(ev, cs);
      NgapStartRefines(f, ev, k, reg, pdu, cs);
    case Ends(k, v) =>
      NgapEndRefines(f, ev, k, reg, pdu, cs);
    case _ =>
      NoNgapClosing(ev, cs);
      NgapIdleRefines(f, ev, reg, pdu, cs);
  }

  /** One message keeps the builder's flow equal to the declared pairing. */
  lemma StepRefines(decode: NasDecoder, f: FlowState, ev: seq<Event>, ng: NgapMsg)
    requires Follows(f, ev)
    ensures Follows(StepFlow(decode, f, ng), ev + [(ng, NasOf(decode, ng, f.ciphAlgo))])
  {
    hide OpenAt, NasClosing, NgapClosing, NasStep, NgapStep, Between, PendingIs, AllWithin, Procedures, Within;
    var e := (ng, NasOf(decode, ng, f.ciphAlgo));
    var ev' := ev + [e];
    assert ev'[..|ev|] == ev;
    ReceiveRefines(decode, f, ev, ng);
    var f1 := Release(Receive(decode, f, ng), ng);
    NasRefines(f1, ev', OpenAt(ev, Registration), OpenAt(ev, PduSession), Closings(ev));
    NgapRefines(NasStep(f1, ng, e.1), ev', OpenAt(ev', Registration), OpenAt(ev', PduSession),
                Closings(ev) + NasClosing(ev'));
  }

  /** The procedures of a flow are exactly its declared pairings, in closing order. */
  lemma {:induction false} FlowRefines(decode: NasDecoder, ms: seq<NgapMsg>)
    requires ms != []
    ensures Follows(FlowOf(decode, ms), FlowOf(decode, ms).messages)
  {
    hide StepFlow, Follows;
    var front := ms[..|ms| - 1];
    var ng := ms[|ms| - 1];
    if front == [] {
      NewFollows(ms[0]);
      StepRefines(decode, NewFlow(ms[0]), [], ng);
      StepMessages(decode, NewFlow(ms[0]), ng);
    } else {
      FlowRefines(decode, front);
      StepRefines(decode, FlowOf(decode, front), FlowOf(decode, front).messages, ng);
      StepMessages(decode, FlowOf(decode, front), ng);
    }
  }

  lemma NewFollows(ng: NgapMsg)
    ensures Follows(NewFlow(ng), []) && NewFlow(ng).messages == []
  {
  }

  lemma StepMessages(decode: NasDecoder, f: FlowState, ng: NgapMsg)
    ensures StepFlow(decode, f, ng).messages == f.messages + [(ng, NasOf(decode, ng, f.ciphAlgo))]
  {
    hide NasRole, NgapRole, HasKind, NasOf, Closed, Started;
  }
}

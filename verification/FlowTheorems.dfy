/** What flow building promises about every capture. */
module FlowTheorems {
  import opened FlowModel
  import opened FlowPairing
  import opened FlowRefinement

  /** A procedure with an outcome and an end time. */
  predicate Terminal(p: Procedure) {
    p.endTs.Some? && p.endMsg.Some? && !p.outcome.Open?
  }

  lemma ProcedureTerminal(ev: seq<Event>, c: Closing)
    requires Within(ev, c)
    ensures Terminal(ProcedureOf(ev, c))
  {
    RoleVerdicts(ev[c.to]);
  }

  lemma RoleVerdicts(e: Event)
    ensures NasRole(e.1).Ends? ==> !NasRole(e.1).verdict.Open?
    ensures NgapRole(e.0.name).Ends? ==> !NgapRole(e.0.name).verdict.Open?
  {
  }

  /**
   * The procedures of a flow are its declared pairings: every pairing once, nothing else,
   * in the order of their closing messages, all with an outcome.
   */
  lemma PairingDiscipline(decode: NasDecoder, ms: seq<NgapMsg>)
    requires ms != []
    ensures var f := FlowOf(decode, ms); var ev := f.messages;
            && AllWithin(ev, Closings(ev)) && f.procedures == Procedures(ev, Closings(ev))
            && (forall c :: c in Closings(ev) <==> Pairs(ev, c))
            && Ordered(Closings(ev))
            && (forall p :: p in f.procedures ==> Terminal(p))
  {
    hide FlowOf, Closings, Within, ProcedureOf;
    FlowRefines(decode, ms);
    var f := FlowOf(decode, ms);
    var ev := f.messages;
    ClosingsArePairs(ev);
    forall p | p in f.procedures
      ensures Terminal(p)
    {
      var x :| 0 <= x < |f.procedures| && f.procedures[x] == p;
      assert Closings(ev)[x] in Closings(ev);
      ProcedureTerminal(ev, Closings(ev)[x]);
    }
  }

  /** No message closes two procedures of one kind, and no start opens two NAS procedures. */
  lemma OneClosingPerMessage(ev: seq<Event>, c: Closing, d: Closing)
    requires Pairs(ev, c) && Pairs(ev, d) && c.kind == d.kind
    ensures c.to == d.to ==> c == d
    ensures c.nas && d.nas && c.from == d.from ==> c == d
  {
    assert c.nas ==> NasPair(ev, c.kind, c.from, c.to);
    assert d.nas ==> NasPair(ev, d.kind, d.from, d.to);
  }

  /** An NGAP procedure is the first of its kind in its flow, hence the only NGAP one. */
  lemma NgapComesFirst(ev: seq<Event>, c: Closing, d: Closing)
    requires Pairs(ev, c) && Pairs(ev, d) && c.kind == d.kind && !c.nas && d != c
    ensures d.nas && c.to < d.to
  {
    OneClosingPerMessage(ev, c, d);
    assert d.nas ==> NasPair(ev, d.kind, d.from, d.to);
    assert LiveEnd(ev, c.kind, c.to);
    assert !d.nas ==> LiveEnd(ev, d.kind, d.to);
  }

  lemma {:induction false} OnKeyTwice(ms: seq<NgapMsg>, key: Key, other: Key)
    ensures OnKey(OnKey(ms, key), other) == if other == key then OnKey(ms, key) else []
    ensures Unassociated(OnKey(ms, key)) == []
  {
    if ms != [] {
      var front, last := ms[..|ms| - 1], ms[|ms| - 1];
      OnKeyTwice(front, key, other);
      if Associated(last) && KeyOf(last) == key {
        OneMoreOnKey(OnKey(front, key), last, other);
        OneMore(OnKey(front, key), last);
      }
    }
  }

  /**
   * Flow isolation: the flow of a key is what running on that key's messages alone gives,
   * whatever other traffic is interleaved.
   */
  lemma FlowIsolation(decode: NasDecoder, ms: seq<NgapMsg>, i: nat)
    requires i < |Keys(ms)|
    ensures Flows(decode, OnKey(ms, Keys(ms)[i])) == [Flows(decode, ms)[i]]
    ensures Unassociated(OnKey(ms, Keys(ms)[i])) == []
  {
    hide OnKey, FlowOf, Unassociated;
    var key := Keys(ms)[i];
    var own := OnKey(ms, key);
    assert key in Keys(ms);
    forall other
      ensures other in Keys(own) <==> other == key
    {
      OnKeyTwice(ms, key, other);
    }
    OnKeyTwice(ms, key, key);
    OnlyOne(Keys(own), key);
  }

  lemma OnlyOne(ks: seq<Key>, key: Key)
    requires Distinct(ks) && forall k :: k in ks <==> k == key
    ensures ks == [key]
  {
    assert key in ks;
    assert forall i :: 0 <= i < |ks| ==> ks[i] in ks;
    TwoDiffer(ks);
  }

  lemma TwoDiffer(ks: seq<Key>)
    requires Distinct(ks)
    ensures |ks| > 1 ==> ks[0] != ks[1]
  {
  }

  /** A flow holds its key's messages, in order. */
  lemma {:induction false} MessagesInOrder(decode: NasDecoder, ms: seq<NgapMsg>)
    requires ms != []
    ensures |FlowOf(decode, ms).messages| == |ms|
    ensures forall i :: 0 <= i < |ms| ==> FlowOf(decode, ms).messages[i].0 == ms[i]
  {
    hide StepFlow;
    var front := ms[..|ms| - 1];
    if front == [] {
      StepMessages(decode, NewFlow(ms[0]), ms[0]);
      NewFollows(ms[0]);
    } else {
      MessagesInOrder(decode, front);
      StepMessages(decode, FlowOf(decode, front), ms[|ms| - 1]);
    }
  }

  /** Everything that landed in the flows of `ks`. */
  function Landed(ms: seq<NgapMsg>, ks: seq<Key>): multiset<NgapMsg> {
    if ks == [] then multiset{}
    else Landed(ms, ks[..|ks| - 1]) + multiset(OnKey(ms, ks[|ks| - 1]))
  }

  lemma {:induction false} LandedOneMore(ms: seq<NgapMsg>, ng: NgapMsg, ks: seq<Key>)
    requires Distinct(ks)
    ensures Landed(ms + [ng], ks) ==
      Landed(ms, ks) + if Associated(ng) && KeyOf(ng) in ks then multiset{ng} else multiset{}
  {
    hide OnKey, KeyOf, Associated;
    if ks != [] {
      var front, last := ks[..|ks| - 1], ks[|ks| - 1];
      assert ks == front + [last] && last !in front;
      LandedOneMore(ms, ng, front);
      OneMoreOnKey(ms, ng, last);
      if Associated(ng) && KeyOf(ng) == last {
        assert multiset(OnKey(ms + [ng], last)) == multiset(OnKey(ms, last)) + multiset{ng};
      } else {
        assert OnKey(ms + [ng], last) == OnKey(ms, last);
      }
    }
  }

  lemma NothingLanded(ms: seq<NgapMsg>, ks: seq<Key>, key: Key)
    requires OnKey(ms, key) == []
    ensures Landed(ms, ks + [key]) == Landed(ms, ks)
  {
    assert (ks + [key])[..|ks|] == ks;
  }

  lemma LandsOneMore(front: seq<NgapMsg>, last: NgapMsg)
    requires multiset(front) == multiset(Unassociated(front)) + Landed(front, Keys(front))
    ensures multiset(front + [last])
            == multiset(Unassociated(front + [last])) + Landed(front + [last], Keys(front + [last]))
  {
    hide OnKey, KeyOf, Associated, Keys, Unassociated, Landed;
    OneMore(front, last);
    LandedOneMore(front, last, AddKey(Keys(front), last));
    if Associated(last) {
      assert Unassociated(front) + [] == Unassociated(front);
      if KeyOf(last) !in Keys(front) {
        NothingLanded(front, Keys(front), KeyOf(last));
      }
    } else {
      assert multiset(Unassociated(front) + [last]) == multiset(Unassociated(front)) + multiset{last};
    }
  }

  /** Every message lands exactly once: in one flow, or unassociated. */
  lemma {:induction false} EveryMessageLandsOnce(ms: seq<NgapMsg>)
    ensures multiset(ms) == multiset(Unassociated(ms)) + Landed(ms, Keys(ms))
  {
    hide Unassociated, Landed, Keys, OnKey;
    if ms == [] {
      NoMessages();
    } else {
      var n := |ms| - 1;
      EveryMessageLandsOnce(ms[..n]);
      assert ms == ms[..n] + [ms[n]];
      LandsOneMore(ms[..n], ms[n]);
    }
  }

  lemma NoMessages()
    ensures Unassociated([]) == [] && Landed([], Keys([])) == multiset{}
  {
  }
}

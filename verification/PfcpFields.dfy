/** What the PFCP procedures say about the fields of the messages they pair. */
module PfcpFields {
  import opened Prelude
  import opened Pfcp
  import opened PfcpPairing
  import opened PfcpTheorems

  predicate Decoded(m: PfcpMsg) {
    (m.unparsed == None || m.unparsed == Some("")) && m.msgType.Some?
  }

  predicate IsRequest(m: PfcpMsg) {
    Decoded(m) && m.msgType.value in {1, 3, 5, 7, 9, 12, 14, 50, 52, 54, 56}
  }

  predicate IsResponse(m: PfcpMsg) {
    Decoded(m) && m.msgType.value in {2, 4, 6, 8, 10, 13, 15, 51, 53, 55, 57}
  }

  /** The request with this type starts a procedure of this kind. */
  predicate Kind(requestType: int, kind: string) {
    match requestType
    case 1 => kind == "heartbeat"
    case 3 => kind == "pfd_management"
    case 5 => kind == "association_setup"
    case 7 => kind == "association_update"
    case 9 => kind == "association_release"
    case 12 => kind == "node_report"
    case 14 => kind == "session_set_deletion"
    case 50 => kind == "session_establishment"
    case 52 => kind == "session_modification"
    case 54 => kind == "session_deletion"
    case 56 => kind == "session_report"
    case _ => false
  }

  /** From the same end to the same end, with the same sequence number. */
  predicate SameWay(a: PfcpMsg, b: PfcpMsg) {
    && a.srcIp == b.srcIp && a.srcPort == b.srcPort && a.dstIp == b.dstIp && a.dstPort == b.dstPort
    && a.seqNo == b.seqNo
  }

  /** Back from where the other went, with its sequence number. */
  predicate Mirrors(response: PfcpMsg, request: PfcpMsg) {
    && response.srcIp == request.dstIp && response.srcPort == request.dstPort
    && response.dstIp == request.srcIp && response.dstPort == request.srcPort
    && response.seqNo == request.seqNo
  }

  /** The response at `j` is for the request at `i`. */
  predicate RespondsTo(ms: seq<PfcpMsg>, j: nat, i: nat) {
    i < j < |ms| && IsResponse(ms[j]) && Mirrors(ms[j], ms[i])
  }

  predicate OutcomeIs(outcome: Result, cause: Option<int>) {
    match outcome
    case Accepted => cause in {Some(1), Some(2), Some(3)}
    case Rejected => cause.Some? && cause.value !in {1, 2, 3}
    case Unknown => cause.None?
    case Timeout => false
  }

  /** The procedure's request is sent anew: every earlier one the same way was answered before it. */
  ghost predicate SentAnew(ms: seq<PfcpMsg>, i: nat) {
    && i < |ms| && IsRequest(ms[i])
    && forall e :: 0 <= e < i && IsRequest(ms[e]) && SameWay(ms[e], ms[i]) ==>
         exists j: nat :: j < i && RespondsTo(ms, j, e)
  }

  /** The record is that of its messages: the request, and the first response on the way back, or none. */
  ghost predicate Recorded(ms: seq<PfcpMsg>, p: N4Procedure) {
    var i := p.reqIndex;
    && SentAnew(ms, i) && p.startTs == ms[i].ts && p.startMsg == ms[i].name
    && match p.rspIndex
       case Some(j) =>
         && RespondsTo(ms, j, i) && (forall m: nat :: i < m < j ==> !RespondsTo(ms, m, i))
         && Kind(ms[j].msgType.value - 1, p.kind) && p.endTs == ms[j].ts && p.endMsg == ms[j].name
         && OutcomeIs(p.outcome, ms[j].cause) && p.cause == ms[j].cause && p.causeName == ms[j].causeName
       case None =>
         && (forall m: nat :: m < |ms| ==> !RespondsTo(ms, m, i))
         && Kind(ms[i].msgType.value, p.kind) && p.endTs == ms[i].ts && p.endMsg == None
         && p.outcome == Timeout && p.cause == None && p.causeName == None
  }

  lemma LegsByFields(m: PfcpMsg)
    ensures LegOf(m).Request? <==> IsRequest(m)
    ensures LegOf(m).Response? <==> IsResponse(m)
    ensures LegOf(m).Request? ==> Kind(m.msgType.value, LegOf(m).kind)
    ensures LegOf(m).Response? ==> Kind(m.msgType.value - 1, LegOf(m).kind)
  {
  }

  lemma PathsByFields(a: PfcpMsg, b: PfcpMsg)
    requires LegOf(a).Request?
    ensures Asks(b, LegOf(a).key) <==> IsRequest(b) && SameWay(b, a)
    ensures Answers(b, LegOf(a).key) <==> IsResponse(b) && Mirrors(b, a)
  {
    LegsByFields(b);
  }

  lemma RespondsByFields(ms: seq<PfcpMsg>, i: nat, j: nat)
    requires i < |ms| && LegOf(ms[i]).Request?
    ensures i < j < |ms| && Answers(ms[j], LegOf(ms[i]).key) <==> RespondsTo(ms, j, i)
  {
    hide LegOf, IsResponse, IsRequest, Asks, Answers;
    if j < |ms| {
      PathsByFields(ms[i], ms[j]);
    }
  }

  lemma SentByFields(ms: seq<PfcpMsg>, i: nat)
    ensures FirstSend(ms, i) <==> SentAnew(ms, i)
  {
    hide LegOf, IsRequest, IsResponse, SameWay, Mirrors, Asks, Answers, RespondsTo;
    if i < |ms| {
      LegsByFields(ms[i]);
    }
    if i < |ms| && IsRequest(ms[i]) {
      forall e: nat | e < i
        ensures Asks(ms[e], LegOf(ms[i]).key) <==> IsRequest(ms[e]) && SameWay(ms[e], ms[i])
        ensures Asks(ms[e], LegOf(ms[i]).key) ==>
          forall j: nat :: e < j < i && Answers(ms[j], LegOf(ms[i]).key) <==> j < i && RespondsTo(ms, j, e)
      {
        PathsByFields(ms[i], ms[e]);
        if Asks(ms[e], LegOf(ms[i]).key) {
          SameKey(ms, e, i);
        }
      }
    }
  }

  lemma SameKey(ms: seq<PfcpMsg>, e: nat, i: nat)
    requires e < i < |ms| && LegOf(ms[i]).Request? && Asks(ms[e], LegOf(ms[i]).key)
    ensures forall j: nat :: e < j < i && Answers(ms[j], LegOf(ms[i]).key) <==> j < i && RespondsTo(ms, j, e)
  {
    hide LegOf, IsRequest, IsResponse, Answers, RespondsTo;
    forall j: nat
      ensures e < j < i && Answers(ms[j], LegOf(ms[i]).key) <==> j < i && RespondsTo(ms, j, e)
    {
      RespondsByFields(ms, e, j);
    }
  }

  lemma AnsweredIsRecorded(ms: seq<PfcpMsg>, i: nat, j: nat)
    requires IsClosed(ms, i, j) && j < |ms| && LegOf(ms[j]).Response?
    ensures Recorded(ms, Answered(ms, i, j))
  {
    hide LegOf, FirstSend, SentAnew, IsResponse, IsRequest, Kind, Answers, RespondsTo;
    SentByFields(ms, i);
    SentIsRequest(ms, i);
    LegsByFields(ms[i]);
    LegsByFields(ms[j]);
    ResponseHasType(ms[j]);
    forall m: nat
      ensures i < m < |ms| && Answers(ms[m], LegOf(ms[i]).key) <==> RespondsTo(ms, m, i)
    {
      RespondsByFields(ms, i, m);
    }
  }

  lemma SentIsRequest(ms: seq<PfcpMsg>, i: nat)
    requires SentAnew(ms, i)
    ensures i < |ms| && IsRequest(ms[i]) && ms[i].msgType.Some?
  {
  }

  lemma ResponseHasType(m: PfcpMsg)
    ensures IsResponse(m) ==> m.msgType.Some?
  {
  }

  lemma TimedOutIsRecorded(ms: seq<PfcpMsg>, i: nat)
    requires IsPending(ms, i) && i < |ms| && LegOf(ms[i]).Request?
    ensures Recorded(ms, TimedOut(ms, i))
  {
    hide LegOf, FirstSend, SentAnew, IsResponse, IsRequest, Kind, Answers, RespondsTo;
    SentByFields(ms, i);
    SentIsRequest(ms, i);
    LegsByFields(ms[i]);
    forall m: nat
      ensures i < m < |ms| && Answers(ms[m], LegOf(ms[i]).key) <==> RespondsTo(ms, m, i)
      ensures RespondsTo(ms, m, i) ==> i < m
    {
      RespondsByFields(ms, i, m);
    }
  }

  /** Every procedure is the record of its messages. */
  lemma PairedIsRecorded(ms: seq<PfcpMsg>, p: N4Procedure)
    requires p in Paired(ms)
    ensures Recorded(ms, p)
  {
    hide LegOf, Paired, IsClosed, IsPending, Recorded, FirstSend;
    Conservation(ms);
    var i: nat :| IsProcedureOf(ms, i, p);
    ProcedureIsFirstSend(ms, i, p);
    FirstIsRequest(ms, i);
    if j: nat :| IsClosed(ms, i, j) && j < |ms| && LegOf(ms[j]).Response? && p == Answered(ms, i, j) {
      AnsweredIsRecorded(ms, i, j);
    } else {
      TimedOutIsRecorded(ms, i);
    }
  }

  /** Every request is that of a procedure, or a repetition of one that was not answered yet. */
  ghost predicate Covered(ms: seq<PfcpMsg>, ps: seq<N4Procedure>, i: nat) {
    exists p :: p in ps && p.reqIndex <= i < |ms| && (p.reqIndex == i || SameWay(ms[p.reqIndex], ms[i]))
                && forall j: nat :: j < i ==> !RespondsTo(ms, j, p.reqIndex)
  }

  lemma EveryRequestIsCovered(ms: seq<PfcpMsg>, i: nat)
    requires i < |ms| && IsRequest(ms[i])
    ensures Covered(ms, Paired(ms), i)
  {
    hide LegOf, Paired, FirstSend, IsRequest, Asks, Answers, RespondsTo, SameWay;
    LegsByFields(ms[i]);
    var first := Absorber(ms, i);
    Conservation(ms);
    var p :| p in Paired(ms) && p.reqIndex == first;
    FirstIsRequest(ms, first);
    PathsByFields(ms[first], ms[i]);
    AsksItself(ms[i]);
    WayBack(ms[first], ms[i]);
    forall j: nat | j < i
      ensures !RespondsTo(ms, j, first)
    {
      RespondsByFields(ms, first, j);
    }
  }

  lemma FirstIsRequest(ms: seq<PfcpMsg>, i: nat)
    requires FirstSend(ms, i)
    ensures i < |ms| && LegOf(ms[i]).Request?
  {
  }

  lemma AsksItself(m: PfcpMsg)
    requires LegOf(m).Request?
    ensures Asks(m, LegOf(m).key)
  {
  }

  lemma WayBack(a: PfcpMsg, b: PfcpMsg)
    ensures SameWay(a, b) <==> SameWay(b, a)
  {
  }

  /** The unpaired messages are the requests of the timeouts, in order. */
  ghost predicate AreUnanswered(ms: seq<PfcpMsg>, ps: seq<N4Procedure>, unpaired: seq<PfcpMsg>, at: seq<nat>) {
    && |at| == |unpaired| && Increasing(at)
    && (forall x :: 0 <= x < |at| ==> at[x] < |ms| && unpaired[x] == ms[at[x]])
    && (forall i: nat :: i in at <==> exists p :: p in ps && p.reqIndex == i && p.rspIndex.None?)
  }

  lemma UnpairedByFields(ms: seq<PfcpMsg>)
    ensures AreUnanswered(ms, Paired(ms), Unpaired(ms), Run(ms).pending)
  {
    hide LegOf, Run, Paired, IsPending, IsClosed;
    PassIsDeclared(ms);
    var at := Run(ms).pending;
    forall i: nat
      ensures i in at <==> exists p :: p in Paired(ms) && p.reqIndex == i && p.rspIndex.None?
    {
      PendingIsTimeout(ms, i);
    }
  }

  lemma PendingIsTimeout(ms: seq<PfcpMsg>, i: nat)
    ensures IsPending(ms, i) <==> exists p :: p in Paired(ms) && p.reqIndex == i && p.rspIndex.None?
  {
    hide LegOf, Paired, FirstSend, NeverAnswered;
    Conservation(ms);
    if IsPending(ms, i) {
      var p :| p in Paired(ms) && p.reqIndex == i;
      Timeouts(ms, p);
    }
    if p :| p in Paired(ms) && p.reqIndex == i && p.rspIndex.None? {
      Timeouts(ms, p);
    }
  }

  /** Everything about a pairing that a reader of the capture can check. */
  ghost predicate Accounts(ms: seq<PfcpMsg>, ps: seq<N4Procedure>, unpaired: seq<PfcpMsg>) {
    && (forall p :: p in ps ==> Recorded(ms, p))
    && (forall i: nat :: i < |ms| && IsRequest(ms[i]) ==> Covered(ms, ps, i))
    && (forall a, b :: 0 <= a < b < |ps| ==> ps[a].startTs <= ps[b].startTs && ps[a].reqIndex != ps[b].reqIndex)
    && exists at :: AreUnanswered(ms, ps, unpaired, at)
  }

  /** The pairing by the messages' own fields. */
  lemma PairedAccounts(ms: seq<PfcpMsg>)
    ensures Accounts(ms, Paired(ms), Unpaired(ms))
  {
    hide Paired, Unpaired, Recorded, Covered, IsRequest, FirstSend, IsProcedureOf, AreUnanswered;
    forall p | p in Paired(ms)
      ensures Recorded(ms, p)
    {
      PairedIsRecorded(ms, p);
    }
    forall i: nat | i < |ms| && IsRequest(ms[i])
      ensures Covered(ms, Paired(ms), i)
    {
      EveryRequestIsCovered(ms, i);
    }
    InStartOrder(ms);
    UnpairedByFields(ms);
  }

  lemma InStartOrder(ms: seq<PfcpMsg>)
    ensures var ps := Paired(ms);
            forall a, b :: 0 <= a < b < |ps| ==> ps[a].startTs <= ps[b].startTs && ps[a].reqIndex != ps[b].reqIndex
  {
    hide Paired, FirstSend, IsProcedureOf;
    Conservation(ms);
  }
}

/** N2 messages, procedures, and how one UE's flow advances with one message. */
module FlowModel {
  import opened Prelude

  type Tunnel = (int, string)

  datatype NgapMsg = NgapMsg(
    ts: real, assoc: (int, int), name: Option<string>, ranUeId: Option<int>, amfUeId: Option<int>,
    nasPdu: seq<int>, fTeids: seq<Tunnel>,
    reqSessionTunnels: map<int, seq<Tunnel>>, rspSessionCounts: map<int, nat>)

  datatype NasMsg = NasMsg(
    name: Option<string>, inner: Option<string>, unparsed: Option<string>, ciphAlgo: Option<int>,
    supi: Option<string>)

  /** The NAS decoder: bytes and the flow's ciphering algorithm to a decoded message. */
  type NasDecoder = (seq<int>, Option<int>) -> NasMsg

  datatype Kind = Registration | PduSession

  datatype Verdict = Open | Accept | Reject

  datatype Procedure = Procedure(
    kind: Kind, startTs: real, startMsg: string, endTs: Option<real>, endMsg: Option<string>, outcome: Verdict)

  type Event = (NgapMsg, Option<NasMsg>)

  const REG_START := "5GMMRegistrationRequest"
  const REG_ACCEPT := "5GMMRegistrationAccept"
  const REG_REJECT := "5GMMRegistrationReject"
  const PDU_START := "5GSMPDUSessionEstabRequest"
  const PDU_ACCEPT := "5GSMPDUSessionEstabAccept"
  const PDU_REJECT := "5GSMPDUSessionEstabReject"
  const INITIAL_UE := "InitialUEMessage"

  function NasStartName(k: Kind): string {
    if k.Registration? then REG_START else PDU_START
  }

  /** What a message name means for procedures. */
  datatype Role = Starts(kind: Kind) | Ends(kind: Kind, verdict: Verdict) | Drops | Neither

  function NasRoleOf(name: string): Role {
    if name == REG_START then Starts(Registration)
    else if name == PDU_START then Starts(PduSession)
    else if name == REG_ACCEPT then Ends(Registration, Accept)
    else if name == REG_REJECT then Ends(Registration, Reject)
    else if name == PDU_ACCEPT then Ends(PduSession, Accept)
    else if name == PDU_REJECT then Ends(PduSession, Reject)
    else Neither
  }

  /** The NGAP carriers of starts and outcomes; the context releases end a signaling cycle. */
  function NgapRole(name: Option<string>): (r: Role)
    ensures !r.Neither? ==> name.Some?
  {
    if name == Some(INITIAL_UE) then Starts(Registration)
    else if name == Some("PDUSessionResourceSetupRequest") then Starts(PduSession)
    else if name == Some("InitialContextSetupRequest") then Ends(Registration, Accept)
    else if name == Some("InitialContextSetupFailure") then Ends(Registration, Reject)
    else if name == Some("PDUSessionResourceSetupResponse") then Ends(PduSession, Accept)
    else if name == Some("PDUSessionResourceSetupFailure") then Ends(PduSession, Reject)
    else if name == Some("UEContextReleaseRequest") || name == Some("UEContextReleaseCommand")
            || name == Some("UEContextReleaseComplete") then Drops
    else Neither
  }

  /** Python truth of an optional string: absent and empty are both false. */
  predicate Truthy(s: Option<string>) {
    s.Some? && s.value != ""
  }

  /** The NAS name a procedure can start or end with; a refused message has none. */
  function NasName(nas: Option<NasMsg>): Option<string> {
    if nas.None? || nas.value.name.None? || Truthy(nas.value.unparsed) then None
    else if Truthy(nas.value.inner) then nas.value.inner
    else nas.value.name
  }

  function NasRole(nas: Option<NasMsg>): (r: Role)
    ensures !r.Drops? && (!r.Neither? ==> NasName(nas).Some?)
  {
    match NasName(nas)
    case None => Neither
    case Some(name) => NasRoleOf(name)
  }

  function Started(k: Kind, ts: real, msg: string): Procedure {
    Procedure(k, ts, msg, None, None, Verdict.Open)
  }

  function Closed(p: Procedure, ts: real, msg: string, v: Verdict): Procedure {
    p.(endTs := Some(ts), endMsg := Some(msg), outcome := v)
  }

  /** What is still open in one flow for one kind of procedure. */
  datatype Pending = Pending(open: Option<Procedure>, starts: seq<Procedure>)

  datatype FlowState = FlowState(
    amfUeId: Option<int>, partial: bool, messages: seq<Event>, procedures: seq<Procedure>,
    ciphAlgo: Option<int>, reg: Pending, pdu: Pending)
  {
    function Of(k: Kind): Pending {
      if k.Registration? then reg else pdu
    }

    function With(k: Kind, p: Pending): FlowState {
      if k.Registration? then this.(reg := p) else this.(pdu := p)
    }
  }

  function NewFlow(ng: NgapMsg): FlowState {
    FlowState(ng.amfUeId, ng.name != Some(INITIAL_UE), [], [], None, Pending(None, []), Pending(None, []))
  }

  function NasOf(decode: NasDecoder, ng: NgapMsg, ciphAlgo: Option<int>): Option<NasMsg> {
    if ng.nasPdu == [] then None else Some(decode(ng.nasPdu, ciphAlgo))
  }

  /** Identity, cipher state and message list. */
  function Receive(decode: NasDecoder, f: FlowState, ng: NgapMsg): FlowState {
    var nas := NasOf(decode, ng, f.ciphAlgo);
    f.(amfUeId := if f.amfUeId.None? then ng.amfUeId else f.amfUeId,
       ciphAlgo := if f.ciphAlgo.None? && nas.Some? then nas.value.ciphAlgo else f.ciphAlgo,
       messages := f.messages + [(ng, nas)])
  }

  /** A context release forgets the NGAP starts of both kinds. */
  function Release(f: FlowState, ng: NgapMsg): FlowState {
    if NgapRole(ng.name).Drops? then f.(reg := f.reg.(starts := []), pdu := f.pdu.(starts := [])) else f
  }

  /** NAS starts replace each other; an end closes the open one of its kind. */
  function NasStep(f: FlowState, ng: NgapMsg, nas: Option<NasMsg>): FlowState {
    match NasRole(nas)
    case Starts(k) => f.With(k, f.Of(k).(open := Some(Started(k, ng.ts, NasName(nas).value))))
    case Ends(k, v) =>
      if f.Of(k).open.None? then f
      else
        f.With(k, f.Of(k).(open := None))
         .(procedures := f.procedures + [Closed(f.Of(k).open.value, ng.ts, NasName(nas).value, v)])
    case _ => f
  }

  predicate HasKind(ps: seq<Procedure>, k: Kind) {
    exists p :: p in ps && p.kind == k
  }

  /** The fallback pairing: queued starts, closed first in first out, unless the kind is already measured. */
  function NgapStep(f: FlowState, ng: NgapMsg): FlowState {
    match NgapRole(ng.name)
    case Starts(k) => f.With(k, f.Of(k).(starts := f.Of(k).starts + [Started(k, ng.ts, ng.name.value)]))
    case Ends(k, v) =>
      if HasKind(f.procedures, k) then f.With(k, f.Of(k).(starts := []))
      else if f.Of(k).starts == [] then f
      else
        f.With(k, f.Of(k).(starts := f.Of(k).starts[1..]))
         .(procedures := f.procedures + [Closed(f.Of(k).starts[0], ng.ts, ng.name.value, v)])
    case _ => f
  }

  function StepFlow(decode: NasDecoder, f: FlowState, ng: NgapMsg): FlowState {
    var nas := NasOf(decode, ng, f.ciphAlgo);
    NgapStep(NasStep(Release(Receive(decode, f, ng), ng), ng, nas), ng)
  }

  /** The flow of one key, from that key's messages alone. */
  function FlowOf(decode: NasDecoder, ms: seq<NgapMsg>): FlowState
    requires ms != []
  {
    var front := ms[..|ms| - 1];
    StepFlow(decode, if front == [] then NewFlow(ms[0]) else FlowOf(decode, front), ms[|ms| - 1])
  }

  /** The association key: the unordered port pair and the RAN's id for the UE. */
  type Key = (set<int>, Option<int>)

  predicate Associated(ng: NgapMsg) {
    ng.ranUeId.Some? || ng.amfUeId.Some?
  }

  function KeyOf(ng: NgapMsg): Key {
    ({ng.assoc.0, ng.assoc.1}, ng.ranUeId)
  }

  /** The messages of one key, in order. */
  function OnKey(ms: seq<NgapMsg>, key: Key): seq<NgapMsg> {
    if ms == [] then []
    else
      var front := OnKey(ms[..|ms| - 1], key);
      var last := ms[|ms| - 1];
      if Associated(last) && KeyOf(last) == key then front + [last] else front
  }

  function Unassociated(ms: seq<NgapMsg>): seq<NgapMsg> {
    if ms == [] then []
    else
      var front := Unassociated(ms[..|ms| - 1]);
      var last := ms[|ms| - 1];
      if Associated(last) then front else front + [last]
  }

  predicate Distinct<T(==)>(ks: seq<T>) {
    forall i, j :: 0 <= i < j < |ks| ==> ks[i] != ks[j]
  }

  /** The keys in order of first appearance. */
  function Keys(ms: seq<NgapMsg>): (r: seq<Key>)
    ensures forall key :: key in r <==> OnKey(ms, key) != []
    ensures Distinct(r)
  {
    if ms == [] then []
    else
      var front := Keys(ms[..|ms| - 1]);
      var last := ms[|ms| - 1];
      if Associated(last) && KeyOf(last) !in front then front + [KeyOf(last)] else front
  }

  /** All flows of a capture, each computed from its own messages only. */
  function Flows(decode: NasDecoder, ms: seq<NgapMsg>): seq<FlowState> {
    seq(|Keys(ms)|, i requires 0 <= i < |Keys(ms)| => FlowOf(decode, OnKey(ms, Keys(ms)[i])))
  }

  /** The keys after one more message. */
  function AddKey(ks: seq<Key>, ng: NgapMsg): seq<Key> {
    if Associated(ng) && KeyOf(ng) !in ks then ks + [KeyOf(ng)] else ks
  }

  lemma OneMore(ms: seq<NgapMsg>, ng: NgapMsg)
    ensures Keys(ms + [ng]) == AddKey(Keys(ms), ng)
    ensures Distinct(AddKey(Keys(ms), ng))
    ensures forall key :: key in Keys(ms) <==> OnKey(ms, key) != []
    ensures Unassociated(ms + [ng]) == Unassociated(ms) + if Associated(ng) then [] else [ng]
  {
    assert (ms + [ng])[..|ms|] == ms;
  }

  lemma OneMoreOnKey(ms: seq<NgapMsg>, ng: NgapMsg, key: Key)
    ensures OnKey(ms + [ng], key) ==
      OnKey(ms, key) + if Associated(ng) && KeyOf(ng) == key then [ng] else []
  {
    assert (ms + [ng])[..|ms|] == ms;
  }

  lemma OneMoreInFlow(decode: NasDecoder, ms: seq<NgapMsg>, ng: NgapMsg)
    ensures FlowOf(decode, ms + [ng]) ==
      StepFlow(decode, if ms == [] then NewFlow(ng) else FlowOf(decode, ms), ng)
  {
    assert (ms + [ng])[..|ms|] == ms;
  }

  lemma OneMoreAt(decode: NasDecoder, ms: seq<NgapMsg>, ng: NgapMsg, key: Key)
    requires OnKey(ms + [ng], key) != []
    ensures OnKey(ms, key) == [] ==> Associated(ng) && KeyOf(ng) == key
    ensures FlowOf(decode, OnKey(ms + [ng], key)) ==
      if Associated(ng) && KeyOf(ng) == key
      then StepFlow(decode, if OnKey(ms, key) == [] then NewFlow(ng) else FlowOf(decode, OnKey(ms, key)), ng)
      else FlowOf(decode, OnKey(ms, key))
  {
    hide StepFlow, NewFlow, FlowOf, OnKey;
    OneMoreOnKey(ms, ng, key);
    OneMoreInFlow(decode, OnKey(ms, key), ng);
    assert OnKey(ms, key) + [] == OnKey(ms, key);
  }

  /** The flows before `ng`, with a new one if `ng` opens it. */
  function WithNew(decode: NasDecoder, ms: seq<NgapMsg>, ng: NgapMsg): (r: seq<FlowState>)
    requires Associated(ng)
    ensures |r| == |AddKey(Keys(ms), ng)|
  {
    if KeyOf(ng) in Keys(ms) then Flows(decode, ms) else Flows(decode, ms) + [NewFlow(ng)]
  }

  lemma OneMoreFlowAt(decode: NasDecoder, ms: seq<NgapMsg>, ng: NgapMsg, i: nat)
    requires Associated(ng) && i < |AddKey(Keys(ms), ng)|
    ensures var ks := AddKey(Keys(ms), ng); var before := WithNew(decode, ms, ng)[i];
            OnKey(ms + [ng], ks[i]) != [] &&
            FlowOf(decode, OnKey(ms + [ng], ks[i]))
            == if ks[i] == KeyOf(ng) then StepFlow(decode, before, ng) else before
  {
    hide StepFlow, NewFlow, FlowOf, OnKey, KeyOf, Associated;
    OneMore(ms, ng);
    var ks := AddKey(Keys(ms), ng);
    assert ks[i] in Keys(ms + [ng]);
    OneMoreAt(decode, ms, ng, ks[i]);
    if i < |Keys(ms)| {
      assert Keys(ms)[i] in Keys(ms);
    }
  }

  /** The flows after one more associated message: only the flow at its key's position `j` moves. */
  lemma OneMoreFlow(decode: NasDecoder, ms: seq<NgapMsg>, ng: NgapMsg, j: nat)
    requires Associated(ng) && j < |AddKey(Keys(ms), ng)| && AddKey(Keys(ms), ng)[j] == KeyOf(ng)
    ensures var before := WithNew(decode, ms, ng);
            Flows(decode, ms + [ng]) == before[j := StepFlow(decode, before[j], ng)]
  {
    hide StepFlow, NewFlow, FlowOf, OnKey, KeyOf, Associated, WithNew;
    OneMore(ms, ng);
    var ks := AddKey(Keys(ms), ng);
    var before := WithNew(decode, ms, ng);
    forall i | 0 <= i < |ks|
      ensures Flows(decode, ms + [ng])[i] == before[j := StepFlow(decode, before[j], ng)][i]
    {
      OneMoreFlowAt(decode, ms, ng, i);
    }
  }

  /** A message of no flow leaves the flows as they are. */
  lemma OneMoreOutside(decode: NasDecoder, ms: seq<NgapMsg>, ng: NgapMsg)
    requires !Associated(ng)
    ensures Flows(decode, ms + [ng]) == Flows(decode, ms)
  {
    OneMore(ms, ng);
    forall i | 0 <= i < |Keys(ms)|
      ensures OnKey(ms + [ng], Keys(ms)[i]) == OnKey(ms, Keys(ms)[i])
    {
      OneMoreOnKey(ms, ng, Keys(ms)[i]);
    }
  }
}

/** Pairing of PFCP requests and responses, with retransmissions and timeouts. */
module Pfcp {
  import opened Prelude
  import opened Sorting
  import opened FlowModel

  datatype PfcpMsg = PfcpMsg(
    ts: real, unparsed: Option<string>, msgType: Option<int>, name: Option<string>, seqNo: Option<int>,
    cause: Option<int>, causeName: Option<string>, fTeids: seq<Tunnel>,
    srcIp: Option<string>, srcPort: Option<int>, dstIp: Option<string>, dstPort: Option<int>)

  /** The request's path and sequence number. */
  datatype PathKey = PathKey(
    srcIp: Option<string>, srcPort: Option<int>, dstIp: Option<string>, dstPort: Option<int>, seqNo: Option<int>)

  datatype Result = Accepted | Rejected | Unknown | Timeout

  datatype N4Procedure = N4Procedure(
    kind: string, startTs: real, endTs: real, startMsg: Option<string>, endMsg: Option<string>, outcome: Result,
    cause: Option<int>, causeName: Option<string>, reqIndex: nat, rspIndex: Option<nat>)

  /** Request message types; a response has the type after its request's. */
  const REQ_KIND: map<int, string> := map[
    1 := "heartbeat", 3 := "pfd_management", 5 := "association_setup", 7 := "association_update",
    9 := "association_release", 12 := "node_report", 14 := "session_set_deletion",
    50 := "session_establishment", 52 := "session_modification", 54 := "session_deletion", 56 := "session_report"]

  /** What a message is to the pairing. A response names the path of its request, in reverse. */
  datatype Leg = Request(key: PathKey, kind: string) | Response(key: PathKey, kind: string) | Ignored

  function LegOf(m: PfcpMsg): Leg {
    if Truthy(m.unparsed) || m.msgType.None? then Ignored
    else if m.msgType.value in REQ_KIND then
      Request(PathKey(m.srcIp, m.srcPort, m.dstIp, m.dstPort, m.seqNo), REQ_KIND[m.msgType.value])
    else if m.msgType.value - 1 in REQ_KIND then
      Response(PathKey(m.dstIp, m.dstPort, m.srcIp, m.srcPort, m.seqNo), REQ_KIND[m.msgType.value - 1])
    else Ignored
  }

  predicate Asks(m: PfcpMsg, key: PathKey) {
    LegOf(m).Request? && LegOf(m).key == key
  }

  predicate Answers(m: PfcpMsg, key: PathKey) {
    LegOf(m).Response? && LegOf(m).key == key
  }

  function Verdict(cause: Option<int>): Result {
    if cause.None? then Unknown
    else if cause.value in {1, 2, 3} then Accepted
    else Rejected
  }

  /** The record of a request and its response; the kind is the response type's. */
  function Answered(ms: seq<PfcpMsg>, i: nat, j: nat): N4Procedure
    requires i < |ms| && j < |ms| && LegOf(ms[j]).Response?
  {
    N4Procedure(LegOf(ms[j]).kind, ms[i].ts, ms[j].ts, ms[i].name, ms[j].name, Verdict(ms[j].cause),
                ms[j].cause, ms[j].causeName, i, Some(j))
  }

  /** The record of a request nobody answered. */
  function TimedOut(ms: seq<PfcpMsg>, i: nat): N4Procedure
    requires i < |ms| && LegOf(ms[i]).Request?
  {
    N4Procedure(LegOf(ms[i]).kind, ms[i].ts, ms[i].ts, ms[i].name, None, Timeout, None, None, i, None)
  }

  /** A request with no unanswered request on its path before it. */
  ghost predicate FirstSend(ms: seq<PfcpMsg>, i: nat) {
    && i < |ms| && LegOf(ms[i]).Request?
    && forall i' :: 0 <= i' < i && Asks(ms[i'], LegOf(ms[i]).key) ==>
      exists j :: i' < j < i && Answers(ms[j], LegOf(ms[i]).key)
  }

  /** `j` is the first response after `i` on the path of `i`. */
  ghost predicate AnsweredBy(ms: seq<PfcpMsg>, i: nat, j: nat) {
    && i < j < |ms| && LegOf(ms[i]).Request? && Answers(ms[j], LegOf(ms[i]).key)
    && forall m :: i < m < j ==> !Answers(ms[m], LegOf(ms[i]).key)
  }

  ghost predicate NeverAnswered(ms: seq<PfcpMsg>, i: nat) {
    && i < |ms| && LegOf(ms[i]).Request?
    && forall m :: i < m < |ms| ==> !Answers(ms[m], LegOf(ms[i]).key)
  }

  /** The state of the pass: (request, response) positions closed so far, and requests pending. */
  datatype Pass = Pass(closed: seq<(nat, nat)>, pending: seq<nat>)

  predicate AreRequests(ms: seq<PfcpMsg>, pending: seq<nat>) {
    forall x :: 0 <= x < |pending| ==> pending[x] < |ms| && LegOf(ms[pending[x]]).Request?
  }

  /** The place of the pending request on a path. */
  function Find(ms: seq<PfcpMsg>, pending: seq<nat>, key: PathKey): (r: Option<nat>)
    requires AreRequests(ms, pending)
    ensures r.Some? ==> r.value < |pending| && Asks(ms[pending[r.value]], key)
    ensures r.None? ==> forall x :: 0 <= x < |pending| ==> !Asks(ms[pending[x]], key)
  {
    if pending == [] then None
    else if Asks(ms[pending[|pending| - 1]], key) then Some(|pending| - 1)
    else Find(ms, pending[..|pending| - 1], key)
  }

  function Without<T>(s: seq<T>, x: nat): seq<T>
    requires x < |s|
  {
    s[..x] + s[x + 1..]
  }

  predicate AreClosed(ms: seq<PfcpMsg>, cs: seq<(nat, nat)>) {
    forall x :: 0 <= x < |cs| ==>
      cs[x].0 < cs[x].1 < |ms| && LegOf(ms[cs[x].0]).Request? && LegOf(ms[cs[x].1]).Response?
  }

  predicate ArePaired(ms: seq<PfcpMsg>, p: Pass) {
    AreRequests(ms, p.pending) && AreClosed(ms, p.closed)
  }

  lemma StillPaired(ms: seq<PfcpMsg>, n: nat, p: Pass)
    requires n <= |ms| && ArePaired(ms[..n], p)
    ensures ArePaired(ms, p)
  {
    hide LegOf;
    assert forall m :: 0 <= m < n ==> ms[..n][m] == ms[m];
  }

  lemma RequestPairs(ms: seq<PfcpMsg>, p: Pass, n: nat)
    requires n < |ms| && LegOf(ms[n]).Request? && ArePaired(ms, p)
    ensures ArePaired(ms, p.(pending := p.pending + [n]))
  {
    hide LegOf;
  }

  lemma ResponsePairs(ms: seq<PfcpMsg>, p: Pass, x: nat, n: nat)
    requires n < |ms| && LegOf(ms[n]).Response? && ArePaired(ms, p) && x < |p.pending| && p.pending[x] < n
    ensures ArePaired(ms, Pass(p.closed + [(p.pending[x], n)], Without(p.pending, x)))
  {
    hide LegOf;
  }

  function Run(ms: seq<PfcpMsg>): (r: Pass)
    ensures AreRequests(ms, r.pending) && AreClosed(ms, r.closed)
  {
    hide LegOf, Find;
    if ms == [] then Pass([], [])
    else
      var n := |ms| - 1;
      var before := Run(ms[..n]);
      StillPaired(ms, n, before);
      match LegOf(ms[n])
      case Request(key, _) =>
        RequestPairs(ms, before, n);
        if Find(ms, before.pending, key).Some? then before else before.(pending := before.pending + [n])
      case Response(key, _) =>
        var at := Find(ms, before.pending, key);
        if at.None? then before
        else
          ResponsePairs(ms, before, at.value, n);
          Pass(before.closed + [(before.pending[at.value], n)], Without(before.pending, at.value))
      case Ignored => before
  }

  function ClosedRecords(ms: seq<PfcpMsg>, cs: seq<(nat, nat)>): seq<N4Procedure>
    requires AreClosed(ms, cs)
  {
    seq(|cs|, x requires 0 <= x < |cs| => Answered(ms, cs[x].0, cs[x].1))
  }

  function TimeoutRecords(ms: seq<PfcpMsg>, pending: seq<nat>): seq<N4Procedure>
    requires AreRequests(ms, pending)
  {
    seq(|pending|, x requires 0 <= x < |pending| => TimedOut(ms, pending[x]))
  }

  predicate ByStart(p: N4Procedure, q: N4Procedure) {
    p.startTs <= q.startTs
  }

  /** The procedures before sorting: in order of completion, then the timeouts. */
  function Records(ms: seq<PfcpMsg>): seq<N4Procedure> {
    ClosedRecords(ms, Run(ms).closed) + TimeoutRecords(ms, Run(ms).pending)
  }

  function Paired(ms: seq<PfcpMsg>): seq<N4Procedure> {
    Sort(ByStart, Records(ms))
  }

  function Unpaired(ms: seq<PfcpMsg>): seq<PfcpMsg> {
    var pending := Run(ms).pending;
    seq(|pending|, x requires 0 <= x < |pending| => ms[pending[x]])
  }

  lemma FindPrefix(ms: seq<PfcpMsg>, n: nat, pending: seq<nat>, key: PathKey)
    requires n <= |ms| && AreRequests(ms[..n], pending)
    ensures AreRequests(ms, pending) && Find(ms[..n], pending, key) == Find(ms, pending, key)
    decreases pending
  {
    if pending != [] {
      FindPrefix(ms, n, pending[..|pending| - 1], key);
    }
  }
}

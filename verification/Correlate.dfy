/** Joining the planes by strict key equality: SBI by SUPI, N4 by tunnel. */
module Correlate {
  import opened Prelude
  import opened Sorting
  import opened FlowModel
  import opened Pfcp

  /** What the joins use of a flow. */
  datatype UeFlow = UeFlow(id: nat, partial: bool, messages: seq<Event>)

  type Connection = set<(string, int)>

  datatype SbiMsg = SbiMsg(
    ts: real, streamId: int, direction: string, httpMethod: Option<string>, path: Option<string>, supi: Option<string>,
    pduSessionId: Option<int>, unparsed: Option<string>, conn: Option<Connection>, dstIp: Option<string>)

  type Stream = (Connection, int)

  const REQUEST := "request"
  const RESPONSE := "response"

  /** The SUPI an event declares. */
  function SupiOf(e: Event): set<string> {
    if e.1.Some? && Truthy(e.1.value.supi) then {e.1.value.supi.value} else {}
  }

  /** The tunnels an event declares. */
  function TunnelsOf(e: Event): set<Tunnel> {
    set t | t in e.0.fTeids
  }

  /** The flows with a message that declares the key. */
  function Claimants<K>(fs: seq<UeFlow>, of: Event -> set<K>, k: K): set<nat> {
    set i, j | 0 <= i < |fs| && 0 <= j < |fs[i].messages| && k in of(fs[i].messages[j]) :: fs[i].id
  }

  function Single<T(==)>(s: set<T>): (x: T)
    requires |s| == 1
    ensures s == {x}
  {
    OneMember(s);
    var x :| x in s;
    x
  }

  lemma OneMember<T>(s: set<T>)
    requires |s| == 1
    ensures forall x, y :: x in s && y in s ==> x == y
    ensures exists x :: x in s
  {
    var x :| x in s;
    assert |s - {x}| == 0;
    assert forall y :: y in s ==> y == x || y in s - {x};
  }

  /** The only flow that claims the key, if there is just one. */
  function Sole(claimants: set<nat>): Option<nat> {
    if |claimants| == 1 then Some(Single(claimants)) else None
  }

  lemma SoleClaimant(claimants: set<nat>, f: nat)
    ensures Sole(claimants) == Some(f) <==> claimants == {f}
  {
  }

  /** What a request links by its declared SUPI. */
  function RequestLink(fs: seq<UeFlow>, m: SbiMsg): Option<nat> {
    if m.direction == REQUEST && m.unparsed.None? && m.conn.Some? && m.supi.Some?
    then Sole(Claimants(fs, SupiOf, m.supi.value)) else None
  }

  predicate OnStream(m: SbiMsg, s: Stream) {
    m.conn == Some(s.0) && m.streamId == s.1
  }

  /** The flow of the last linked request on the stream. */
  function StreamLink(fs: seq<UeFlow>, ms: seq<SbiMsg>, s: Stream): Option<nat> {
    if ms == [] then None
    else
      var last := ms[|ms| - 1];
      if OnStream(last, s) && RequestLink(fs, last).Some? then RequestLink(fs, last)
      else StreamLink(fs, ms[..|ms| - 1], s)
  }

  function SbiLink(fs: seq<UeFlow>, ms: seq<SbiMsg>, i: nat): Option<nat>
    requires i < |ms|
  {
    if ms[i].direction == RESPONSE && ms[i].conn.Some? then StreamLink(fs, ms, (ms[i].conn.value, ms[i].streamId))
    else RequestLink(fs, ms[i])
  }

  function Owners(fs: seq<UeFlow>, m: PfcpMsg): set<nat> {
    set t | t in m.fTeids && |Claimants(fs, TunnelsOf, t)| == 1 :: Single(Claimants(fs, TunnelsOf, t))
  }

  function N4Link(fs: seq<UeFlow>, m: PfcpMsg): Option<nat> {
    if m.unparsed.Some? then None else Sole(Owners(fs, m))
  }

  /** A dictionary from every claimed key to its claimants. */
  ghost predicate IsClaims<K(!new)>(claims: map<K, set<nat>>, fs: seq<UeFlow>, of: Event -> set<K>) {
    forall k: K ::
      if k in claims then claims[k] == Claimants(fs, of, k) && claims[k] != {} else Claimants(fs, of, k) == {}
  }

  lemma ClaimantsGrow<K>(before: seq<UeFlow>, flow: UeFlow, events: seq<Event>, e: Event, of: Event -> set<K>, k: K)
    ensures Claimants(before + [flow.(messages := events + [e])], of, k)
            == Claimants(before + [flow.(messages := events)], of, k) + if k in of(e) then {flow.id} else {}
  {
    var was, now := before + [flow.(messages := events)], before + [flow.(messages := events + [e])];
    var n := |before|;
    forall f | f in Claimants(was, of, k)
      ensures f in Claimants(now, of, k)
    {
      var i, j :| 0 <= i < |was| && 0 <= j < |was[i].messages| && k in of(was[i].messages[j]) && was[i].id == f;
      assert now[i].id == f && now[i].messages[j] == was[i].messages[j];
    }
    if k in of(e) {
      assert now[n].messages[|events|] == e;
    }
    forall f | f in Claimants(now, of, k)
      ensures f in Claimants(was, of, k) || (k in of(e) && f == flow.id)
    {
      var i, j :| 0 <= i < |now| && 0 <= j < |now[i].messages| && k in of(now[i].messages[j]) && now[i].id == f;
      if i < n || j < |events| {
        assert was[i].id == f && was[i].messages[j] == now[i].messages[j];
      }
    }
  }

  lemma NoEventsYet<K>(before: seq<UeFlow>, flow: UeFlow, of: Event -> set<K>, k: K)
    ensures Claimants(before + [flow.(messages := [])], of, k) == Claimants(before, of, k)
  {
    var now := before + [flow.(messages := [])];
    forall f | f in Claimants(before, of, k)
      ensures f in Claimants(now, of, k)
    {
      var i, j :| 0 <= i < |before| && 0 <= j < |before[i].messages| && k in of(before[i].messages[j])
                  && before[i].id == f;
      assert now[i] == before[i];
    }
  }

  lemma NothingClaimed<K>(of: Event -> set<K>, k: K)
    ensures Claimants([], of, k) == {}
  {
  }

  function Claimed<K>(claims: map<K, set<nat>>, k: K, f: nat): map<K, set<nat>> {
    claims[k := (if k in claims then claims[k] else {}) + {f}]
  }

  method FlowSupis(fs: seq<UeFlow>) returns (claims: map<string, set<nat>>)
    ensures IsClaims(claims, fs, SupiOf)
  {
    hide Claimants;
    claims := map[];
    forall k
      ensures Claimants([], SupiOf, k) == {}
    {
      NothingClaimed(SupiOf, k);
    }
    assert fs[..0] == [];
    for i := 0 to |fs|
      invariant IsClaims(claims, fs[..i], SupiOf)
    {
      var f := fs[i];
      forall k
        ensures Claimants(fs[..i] + [f.(messages := [])], SupiOf, k) == Claimants(fs[..i], SupiOf, k)
      {
        NoEventsYet(fs[..i], f, SupiOf, k);
      }
      assert f.messages[..0] == [];
      for j := 0 to |f.messages|
        invariant IsClaims(claims, fs[..i] + [f.(messages := f.messages[..j])], SupiOf)
      {
        var nas := f.messages[j].1;
        forall k
          ensures Claimants(fs[..i] + [f.(messages := f.messages[..j] + [f.messages[j]])], SupiOf, k)
                  == Claimants(fs[..i] + [f.(messages := f.messages[..j])], SupiOf, k)
                     + if k in SupiOf(f.messages[j]) then {f.id} else {}
        {
          ClaimantsGrow(fs[..i], f, f.messages[..j], f.messages[j], SupiOf, k);
        }
        assert f.messages[..j + 1] == f.messages[..j] + [f.messages[j]];
        if nas.Some? && Truthy(nas.value.supi) {
          claims := Claimed(claims, nas.value.supi.value, f.id);
        }
      }
      assert f.(messages := f.messages[..|f.messages|]) == f;
      assert fs[..i + 1] == fs[..i] + [f];
    }
    assert fs[..|fs|] == fs;
  }

  method FlowTunnels(fs: seq<UeFlow>) returns (claims: map<Tunnel, set<nat>>)
    ensures IsClaims(claims, fs, TunnelsOf)
  {
    hide Claimants;
    claims := map[];
    forall k
      ensures Claimants([], TunnelsOf, k) == {}
    {
      NothingClaimed(TunnelsOf, k);
    }
    assert fs[..0] == [];
    for i := 0 to |fs|
      invariant IsClaims(claims, fs[..i], TunnelsOf)
    {
      var f := fs[i];
      forall k
        ensures Claimants(fs[..i] + [f.(messages := [])], TunnelsOf, k) == Claimants(fs[..i], TunnelsOf, k)
      {
        NoEventsYet(fs[..i], f, TunnelsOf, k);
      }
      assert f.messages[..0] == [];
      for j := 0 to |f.messages|
        invariant IsClaims(claims, fs[..i] + [f.(messages := f.messages[..j])], TunnelsOf)
      {
        claims := ClaimTunnels(fs[..i], f, f.messages[..j], f.messages[j], claims);
        assert f.messages[..j + 1] == f.messages[..j] + [f.messages[j]];
      }
      assert f.(messages := f.messages[..|f.messages|]) == f;
      assert fs[..i + 1] == fs[..i] + [f];
    }
    assert fs[..|fs|] == fs;
  }

  /** One event's tunnels, each claimed by its flow. */
  method ClaimTunnels(ghost before: seq<UeFlow>, flow: UeFlow, ghost events: seq<Event>, e: Event,
                      claims0: map<Tunnel, set<nat>>)
    returns (claims: map<Tunnel, set<nat>>)
    requires IsClaims(claims0, before + [flow.(messages := events)], TunnelsOf)
    ensures IsClaims(claims, before + [flow.(messages := events + [e])], TunnelsOf)
  {
    hide Claimants, IsClaims, Adds;
    claims := claims0;
    var ts := e.0.fTeids;
    NothingAdded(claims0, flow.id);
    assert ts[..0] == [];
    for n := 0 to |ts|
      invariant Adds(claims0, claims, ts[..n], flow.id)
    {
      AddsOneMore(claims0, claims, ts[..n], ts[n], flow.id);
      claims := Claimed(claims, ts[n], flow.id);
      assert ts[..n + 1] == ts[..n] + [ts[n]];
    }
    assert ts[..|ts|] == ts;
    TunnelsClaimed(before, flow, events, e, claims0, claims);
  }

  /** The claims `now` are those of before and the flow's on the keys. */
  ghost predicate Adds<K(!new)>(was: map<K, set<nat>>, now: map<K, set<nat>>, keys: seq<K>, f: nat) {
    && (forall k :: k in now <==> k in was || k in keys)
    && (forall k :: k in now ==>
          now[k] == (if k in was then was[k] else {}) + (if k in keys then {f} else {}))
  }

  lemma NothingAdded<K(!new)>(was: map<K, set<nat>>, f: nat)
    ensures Adds(was, was, [], f)
  {
  }

  lemma AddsOneMore<K(!new)>(was: map<K, set<nat>>, now: map<K, set<nat>>, keys: seq<K>, key: K, f: nat)
    requires Adds(was, now, keys, f)
    ensures Adds(was, Claimed(now, key, f), keys + [key], f)
  {
  }

  lemma TunnelsClaimed(before: seq<UeFlow>, flow: UeFlow, events: seq<Event>, e: Event,
                       was: map<Tunnel, set<nat>>, now: map<Tunnel, set<nat>>)
    requires IsClaims(was, before + [flow.(messages := events)], TunnelsOf)
    requires Adds(was, now, e.0.fTeids, flow.id)
    ensures IsClaims(now, before + [flow.(messages := events + [e])], TunnelsOf)
  {
    hide Claimants;
    forall k
      ensures Claimants(before + [flow.(messages := events + [e])], TunnelsOf, k)
              == Claimants(before + [flow.(messages := events)], TunnelsOf, k)
                 + if k in e.0.fTeids then {flow.id} else {}
    {
      ClaimantsGrow(before, flow, events, e, TunnelsOf, k);
    }
  }

  /** The keys with one claimant, and that claimant. */
  method Unambiguous<K(==,!new)>(claims: map<K, set<nat>>, ghost fs: seq<UeFlow>, ghost of: Event -> set<K>)
    returns (owner: map<K, nat>)
    requires IsClaims(claims, fs, of)
    ensures forall k :: (if k in owner then Some(owner[k]) else None) == Sole(Claimants(fs, of, k))
  {
    owner := map k | k in claims && |claims[k]| == 1 :: Single(claims[k]);
  }

  predicate Ascending(s: seq<nat>) {
    forall p, q :: 0 <= p < q < |s| ==> s[p] < s[q]
  }

  /** Every flow's references are the indexes linked to it, each once. */
  ghost predicate Listed(flowOf: map<nat, Option<nat>>, refs: map<nat, seq<nat>>) {
    && (forall f :: f in refs ==> refs[f] != [] && Distinct(refs[f]))
    && (forall f, i :: f in refs && i in refs[f] ==> i in flowOf && flowOf[i] == Some(f))
    && (forall i :: i in flowOf && flowOf[i].Some? ==> flowOf[i].value in refs && i in refs[flowOf[i].value])
  }

  /** The references are the strictly increasing inverse of the links. */
  ghost predicate Inverse(flowOf: map<nat, Option<nat>>, refs: map<nat, seq<nat>>) {
    Listed(flowOf, refs) && forall f :: f in refs ==> Ascending(refs[f])
  }

  function Appended(refs: map<nat, seq<nat>>, f: nat, i: nat): map<nat, seq<nat>> {
    refs[f := (if f in refs then refs[f] else []) + [i]]
  }

  lemma ListedOneMore(flowOf: map<nat, Option<nat>>, refs: map<nat, seq<nat>>, f: nat, i: nat)
    requires Listed(flowOf, refs) && (i in flowOf ==> flowOf[i].None?)
    ensures Listed(flowOf[i := Some(f)], Appended(refs, f, i))
  {
    var more := Appended(refs, f, i);
    assert i in more[f];
    assert forall g, j :: g in more && j in more[g] ==> (j == i && g == f) || (g in refs && j in refs[g]);
    assert forall g, j :: g in refs && j in refs[g] ==> j in more[g];
  }

  predicate AtMost(x: nat, y: nat) {
    x <= y
  }

  lemma SortedList(s: seq<nat>)
    requires Distinct(s)
    ensures |Sort(AtMost, s)| == |s| && forall i :: i in Sort(AtMost, s) <==> i in s
    ensures Ascending(Sort(AtMost, s))
  {
    SortMembers(AtMost, s);
    SortSorted(AtMost, s);
    SortPairwise(AtMost, (x: nat, y: nat) => x != y, s);
  }

  lemma SortOne(flowOf: map<nat, Option<nat>>, refs: map<nat, seq<nat>>, f: nat)
    requires Listed(flowOf, refs) && f in refs
    ensures Listed(flowOf, refs[f := Sort(AtMost, refs[f])]) && Ascending(Sort(AtMost, refs[f]))
  {
    hide Sort;
    SortedList(refs[f]);
  }

  /** Sorts every reference list in place. */
  method SortRefs(ghost flowOf: map<nat, Option<nat>>, refs0: map<nat, seq<nat>>) returns (refs: map<nat, seq<nat>>)
    requires Listed(flowOf, refs0)
    ensures Inverse(flowOf, refs)
  {
    hide Listed, Ascending, Sort;
    refs := refs0;
    var todo := refs.Keys;
    while todo != {}
      invariant todo <= refs.Keys && Listed(flowOf, refs)
      invariant forall f :: f in refs && f !in todo ==> Ascending(refs[f])
      decreases |todo|
    {
      var f :| f in todo;
      SortOne(flowOf, refs, f);
      refs := refs[f := Sort(AtMost, refs[f])];
      todo := todo - {f};
    }
  }

  lemma ListedNone(flowOf: map<nat, Option<nat>>, refs: map<nat, seq<nat>>, i: nat)
    requires Listed(flowOf, refs) && i !in flowOf
    ensures Listed(flowOf[i := None], refs)
  {
  }

  ghost predicate StreamsUpTo(reqFlow: map<Stream, nat>, fs: seq<UeFlow>, ms: seq<SbiMsg>) {
    forall s :: (if s in reqFlow then Some(reqFlow[s]) else None) == StreamLink(fs, ms, s)
  }

  lemma StreamsOneMore(reqFlow: map<Stream, nat>, fs: seq<UeFlow>, ms: seq<SbiMsg>, m: SbiMsg)
    requires StreamsUpTo(reqFlow, fs, ms)
    ensures var link := RequestLink(fs, m);
            && (link.None? ==> StreamsUpTo(reqFlow, fs, ms + [m]))
            && (link.Some? ==>
                  m.conn.Some? && StreamsUpTo(reqFlow[(m.conn.value, m.streamId) := link.value], fs, ms + [m]))
  {
    assert (ms + [m])[..|ms|] == ms;
  }

  /** Every message of the list has the link of its place. */
  ghost predicate Follows(flowOf: map<nat, Option<nat>>, links: seq<Option<nat>>) {
    (forall i :: i in flowOf <==> 0 <= i < |links|) && forall i :: 0 <= i < |links| ==> flowOf[i] == links[i]
  }

  lemma FollowsOneMore(flowOf: map<nat, Option<nat>>, links: seq<Option<nat>>, link: Option<nat>)
    requires Follows(flowOf, links)
    ensures Follows(flowOf[|links| := link], links + [link]) && |links| !in flowOf
  {
  }

  lemma FollowsChange(flowOf: map<nat, Option<nat>>, links: seq<Option<nat>>, i: nat, link: Option<nat>)
    requires Follows(flowOf, links) && i < |links|
    ensures Follows(flowOf[i := link], links[i := link]) && i in flowOf && flowOf[i] == links[i]
  {
  }

  function RequestLinks(fs: seq<UeFlow>, ms: seq<SbiMsg>): (r: seq<Option<nat>>)
    ensures |r| == |ms| && forall i :: 0 <= i < |ms| ==> r[i] == RequestLink(fs, ms[i])
  {
    seq(|ms|, i requires 0 <= i < |ms| => RequestLink(fs, ms[i]))
  }

  function SbiLinks(fs: seq<UeFlow>, ms: seq<SbiMsg>): (r: seq<Option<nat>>)
    ensures |r| == |ms| && forall i :: 0 <= i < |ms| ==> r[i] == SbiLink(fs, ms, i)
  {
    seq(|ms|, i requires 0 <= i < |ms| => SbiLink(fs, ms, i))
  }

  function N4Links(fs: seq<UeFlow>, ms: seq<PfcpMsg>): (r: seq<Option<nat>>)
    ensures |r| == |ms| && forall i :: 0 <= i < |ms| ==> r[i] == N4Link(fs, ms[i])
  {
    seq(|ms|, i requires 0 <= i < |ms| => N4Link(fs, ms[i]))
  }

  lemma LinksOneMore(fs: seq<UeFlow>, ms: seq<SbiMsg>, i: nat)
    requires i < |ms|
    ensures RequestLinks(fs, ms[..i + 1]) == RequestLinks(fs, ms[..i]) + [RequestLink(fs, ms[i])]
    ensures (SbiLinks(fs, ms)[..i] + RequestLinks(fs, ms)[i..])[i := SbiLink(fs, ms, i)]
            == SbiLinks(fs, ms)[..i + 1] + RequestLinks(fs, ms)[i + 1..]
  {
    hide RequestLink, SbiLink;
  }

  lemma NothingJoined(fs: seq<UeFlow>)
    ensures Listed(map[], map[]) && Follows(map[], RequestLinks(fs, [])) && Follows(map[], N4Links(fs, []))
    ensures Follows(map[], SbiLinks(fs, [])) && StreamsUpTo(map[], fs, [])
  {
  }

  class Correlation {
    var sbiFlow: map<nat, Option<nat>>
    var flowSbiRefs: map<nat, seq<nat>>
    var n4Flow: map<nat, Option<nat>>
    var flowN4Refs: map<nat, seq<nat>>

    constructor ()
      ensures sbiFlow == map[] && flowSbiRefs == map[] && n4Flow == map[] && flowN4Refs == map[]
    {
      sbiFlow, flowSbiRefs, n4Flow, flowN4Refs := map[], map[], map[], map[];
    }

    /** Message `i` belongs to flow `f`. */
    method LinkSbi(i: nat, f: nat)
      requires Listed(sbiFlow, flowSbiRefs) && (i in sbiFlow ==> sbiFlow[i].None?)
      modifies this`sbiFlow, this`flowSbiRefs
      ensures sbiFlow == old(sbiFlow)[i := Some(f)] && Listed(sbiFlow, flowSbiRefs)
    {
      ListedOneMore(sbiFlow, flowSbiRefs, f, i);
      sbiFlow := sbiFlow[i := Some(f)];
      flowSbiRefs := Appended(flowSbiRefs, f, i);
    }

    method LinkN4(i: nat, f: nat)
      requires Listed(n4Flow, flowN4Refs) && (i in n4Flow ==> n4Flow[i].None?)
      modifies this`n4Flow, this`flowN4Refs
      ensures n4Flow == old(n4Flow)[i := Some(f)] && Listed(n4Flow, flowN4Refs)
    {
      ListedOneMore(n4Flow, flowN4Refs, f, i);
      n4Flow := n4Flow[i := Some(f)];
      flowN4Refs := Appended(flowN4Refs, f, i);
    }

    /** Requests join by their declared SUPI. */
    method JoinRequests(ms: seq<SbiMsg>, owner: map<string, nat>, ghost fs: seq<UeFlow>)
      returns (reqFlow: map<Stream, nat>)
      requires sbiFlow == map[] && flowSbiRefs == map[]
      requires forall k :: (if k in owner then Some(owner[k]) else None) == Sole(Claimants(fs, SupiOf, k))
      modifies this`sbiFlow, this`flowSbiRefs
      ensures Follows(sbiFlow, RequestLinks(fs, ms)) && Listed(sbiFlow, flowSbiRefs) && StreamsUpTo(reqFlow, fs, ms)
    {
      hide Listed, StreamsUpTo, Sole, Claimants, Follows, RequestLinks;
      reqFlow := map[];
      NothingJoined(fs);
      assert ms[..0] == [];
      for i := 0 to |ms|
        invariant Follows(sbiFlow, RequestLinks(fs, ms[..i])) && Listed(sbiFlow, flowSbiRefs)
        invariant StreamsUpTo(reqFlow, fs, ms[..i])
      {
        var m := ms[i];
        assert ms[..i + 1] == ms[..i] + [m];
        StreamsOneMore(reqFlow, fs, ms[..i], m);
        FollowsOneMore(sbiFlow, RequestLinks(fs, ms[..i]), RequestLink(fs, m));
        LinksOneMore(fs, ms, i);
        ListedNone(sbiFlow, flowSbiRefs, i);
        ghost var before := sbiFlow;
        sbiFlow := sbiFlow[i := None];
        if m.direction == REQUEST && m.unparsed.None? && m.conn.Some? && m.supi.Some? && m.supi.value in owner {
          var f := owner[m.supi.value];
          LinkSbi(i, f);
          reqFlow := reqFlow[(m.conn.value, m.streamId) := f];
        }
        assert sbiFlow == before[i := RequestLink(fs, m)];
      }
      assert ms[..|ms|] == ms;
    }

    /** A response inherits its request's flow by connection and stream. */
    method JoinResponses(ms: seq<SbiMsg>, reqFlow: map<Stream, nat>, ghost fs: seq<UeFlow>)
      requires Follows(sbiFlow, RequestLinks(fs, ms)) && Listed(sbiFlow, flowSbiRefs) && StreamsUpTo(reqFlow, fs, ms)
      modifies this`sbiFlow, this`flowSbiRefs
      ensures Follows(sbiFlow, SbiLinks(fs, ms)) && Listed(sbiFlow, flowSbiRefs)
    {
      hide Listed, StreamLink, Sole, Claimants, Follows, RequestLinks, SbiLinks;
      assert SbiLinks(fs, ms)[..0] + RequestLinks(fs, ms)[0..] == RequestLinks(fs, ms);
      for i := 0 to |ms|
        invariant Follows(sbiFlow, SbiLinks(fs, ms)[..i] + RequestLinks(fs, ms)[i..]) && Listed(sbiFlow, flowSbiRefs)
      {
        var m := ms[i];
        ghost var before := sbiFlow;
        FollowsChange(sbiFlow, SbiLinks(fs, ms)[..i] + RequestLinks(fs, ms)[i..], i, SbiLink(fs, ms, i));
        LinksOneMore(fs, ms, i);
        if m.direction == RESPONSE && m.conn.Some? && (m.conn.value, m.streamId) in reqFlow {
          LinkSbi(i, reqFlow[(m.conn.value, m.streamId)]);
        }
        assert sbiFlow == before[i := SbiLink(fs, ms, i)];
      }
      assert SbiLinks(fs, ms)[..|ms|] + RequestLinks(fs, ms)[|ms|..] == SbiLinks(fs, ms);
    }

    method JoinSbi(ms: seq<SbiMsg>, claims: map<string, set<nat>>, ghost fs: seq<UeFlow>)
      requires sbiFlow == map[] && flowSbiRefs == map[] && IsClaims(claims, fs, SupiOf)
      modifies this`sbiFlow, this`flowSbiRefs
      ensures Follows(sbiFlow, SbiLinks(fs, ms)) && Inverse(sbiFlow, flowSbiRefs)
    {
      hide Listed, StreamsUpTo, IsClaims, SbiLinks, Follows, Inverse;
      var owner := Unambiguous(claims, fs, SupiOf);
      var reqFlow := JoinRequests(ms, owner, fs);
      JoinResponses(ms, reqFlow, fs);
      flowSbiRefs := SortRefs(sbiFlow, flowSbiRefs);
    }

    method JoinN4(ms: seq<PfcpMsg>, claims: map<Tunnel, set<nat>>, ghost fs: seq<UeFlow>)
      requires n4Flow == map[] && flowN4Refs == map[] && IsClaims(claims, fs, TunnelsOf)
      modifies this`n4Flow, this`flowN4Refs
      ensures Follows(n4Flow, N4Links(fs, ms)) && Inverse(n4Flow, flowN4Refs)
    {
      hide Listed, IsClaims, Claimants, Follows, N4Links, Inverse;
      var owner := Unambiguous(claims, fs, TunnelsOf);
      NothingJoined(fs);
      assert ms[..0] == [];
      for i := 0 to |ms|
        invariant Follows(n4Flow, N4Links(fs, ms[..i])) && Listed(n4Flow, flowN4Refs)
      {
        var m := ms[i];
        FollowsOneMore(n4Flow, N4Links(fs, ms[..i]), N4Link(fs, m));
        assert N4Links(fs, ms[..i + 1]) == N4Links(fs, ms[..i]) + [N4Link(fs, m)];
        ListedNone(n4Flow, flowN4Refs, i);
        ghost var before := n4Flow;
        n4Flow := n4Flow[i := None];
        if m.unparsed.None? {
          var fids := set t | t in m.fTeids && t in owner :: owner[t];
          OwnersAre(fs, m, owner);
          if |fids| == 1 {
            LinkN4(i, Single(fids));
          }
        }
        assert n4Flow == before[i := N4Link(fs, m)];
      }
      assert ms[..|ms|] == ms;
      flowN4Refs := SortRefs(n4Flow, flowN4Refs);
    }
  }

  lemma OwnersAre(fs: seq<UeFlow>, m: PfcpMsg, owner: map<Tunnel, nat>)
    requires forall k :: (if k in owner then Some(owner[k]) else None) == Sole(Claimants(fs, TunnelsOf, k))
    ensures (set t | t in m.fTeids && t in owner :: owner[t]) == Owners(fs, m)
  {
  }

  /** Joins the planes; an absent or empty plane has no links. */
  method CorrelateFlows(fs: seq<UeFlow>, sbi: seq<SbiMsg>, n4: seq<PfcpMsg>) returns (c: Correlation)
    ensures fresh(c)
    ensures Follows(c.sbiFlow, SbiLinks(fs, sbi)) && Inverse(c.sbiFlow, c.flowSbiRefs)
    ensures Follows(c.n4Flow, N4Links(fs, n4)) && Inverse(c.n4Flow, c.flowN4Refs)
  {
    hide Follows, SbiLinks, N4Links, IsClaims;
    c := new Correlation();
    NothingJoined(fs);
    if sbi != [] {
      var claims := FlowSupis(fs);
      c.JoinSbi(sbi, claims, fs);
    }
    if n4 != [] {
      var claims := FlowTunnels(fs);
      c.JoinN4(n4, claims, fs);
    }
  }
}

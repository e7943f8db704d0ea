/** What the joins promise: sole claimants, inherited responses, and no dependence on the order of flows. */
module CorrelateTheorems {
  import opened Prelude
  import opened Sorting
  import opened FlowModel
  import opened Pfcp
  import opened Correlate

  ghost predicate Claims<K>(fs: seq<UeFlow>, of: Event -> set<K>, k: K, f: nat) {
    exists i, j :: 0 <= i < |fs| && 0 <= j < |fs[i].messages| && k in of(fs[i].messages[j]) && fs[i].id == f
  }

  ghost predicate OnlyClaims<K>(fs: seq<UeFlow>, of: Event -> set<K>, k: K, f: nat) {
    Claims(fs, of, k, f) && forall g: nat :: Claims(fs, of, k, g) ==> g == f
  }

  lemma SoleIsOnly<K>(fs: seq<UeFlow>, of: Event -> set<K>, k: K, f: nat)
    ensures Sole(Claimants(fs, of, k)) == Some(f) <==> OnlyClaims(fs, of, k, f)
  {
    var c := Claimants(fs, of, k);
    forall g: nat
      ensures g in c <==> Claims(fs, of, k, g)
    {
    }
    SoleClaimant(c, f);
    if OnlyClaims(fs, of, k, f) {
      assert c == {f};
    }
    if c == {f} {
      assert f in c;
    }
  }

  /** A request links a flow exactly when it is decoded, has a connection, and no other flow claims its SUPI. */
  lemma RequestsLinkSoleClaimants(fs: seq<UeFlow>, ms: seq<SbiMsg>, i: nat, f: nat)
    requires i < |ms| && ms[i].direction == REQUEST
    ensures SbiLink(fs, ms, i) == Some(f)
            <==> ms[i].unparsed.None? && ms[i].conn.Some? && ms[i].supi.Some?
                 && OnlyClaims(fs, SupiOf, ms[i].supi.value, f)
  {
    hide OnlyClaims, Sole, Claimants;
    if ms[i].supi.Some? {
      SoleIsOnly(fs, SupiOf, ms[i].supi.value, f);
    }
  }

  /** The request is on the stream and has a flow. */
  predicate Joins(fs: seq<UeFlow>, m: SbiMsg, s: Stream) {
    OnStream(m, s) && RequestLink(fs, m).Some?
  }

  /** The last such request of the list. */
  ghost predicate LastJoin(fs: seq<UeFlow>, ms: seq<SbiMsg>, s: Stream, j: nat) {
    j < |ms| && Joins(fs, ms[j], s) && forall k :: j < k < |ms| ==> !Joins(fs, ms[k], s)
  }

  lemma {:induction false} SomeLastJoin(fs: seq<UeFlow>, ms: seq<SbiMsg>, s: Stream) returns (j: nat)
    requires StreamLink(fs, ms, s).Some?
    ensures LastJoin(fs, ms, s, j) && RequestLink(fs, ms[j]) == StreamLink(fs, ms, s)
  {
    hide RequestLink;
    var n := |ms| - 1;
    if Joins(fs, ms[n], s) {
      j := n;
    } else {
      j := SomeLastJoin(fs, ms[..n], s);
    }
  }

  lemma {:induction false} LastJoinLinks(fs: seq<UeFlow>, ms: seq<SbiMsg>, s: Stream, j: nat)
    requires LastJoin(fs, ms, s, j)
    ensures StreamLink(fs, ms, s) == RequestLink(fs, ms[j])
  {
    hide RequestLink;
    var n := |ms| - 1;
    if j < n {
      LastJoinLinks(fs, ms[..n], s, j);
    }
  }

  lemma StreamLinkIsLast(fs: seq<UeFlow>, ms: seq<SbiMsg>, s: Stream, f: nat)
    ensures StreamLink(fs, ms, s) == Some(f)
            <==> exists j: nat :: LastJoin(fs, ms, s, j) && RequestLink(fs, ms[j]) == Some(f)
  {
    hide StreamLink, RequestLink;
    if StreamLink(fs, ms, s) == Some(f) {
      var j := SomeLastJoin(fs, ms, s);
    }
    if j: nat :| LastJoin(fs, ms, s, j) && RequestLink(fs, ms[j]) == Some(f) {
      LastJoinLinks(fs, ms, s, j);
    }
  }

  /** A response links the flow of the last linked request on its connection and stream, decoded or not. */
  lemma ResponsesInherit(fs: seq<UeFlow>, ms: seq<SbiMsg>, i: nat, f: nat)
    requires i < |ms| && ms[i].direction == RESPONSE
    ensures SbiLink(fs, ms, i) == Some(f)
            <==> ms[i].conn.Some?
                 && var s := (ms[i].conn.value, ms[i].streamId);
                    exists j: nat :: LastJoin(fs, ms, s, j) && RequestLink(fs, ms[j]) == Some(f)
  {
    if ms[i].conn.Some? {
      StreamLinkIsLast(fs, ms, (ms[i].conn.value, ms[i].streamId), f);
    }
  }

  /** A refused message joins only as a response to a linked request. */
  lemma RefusedJoinOnlyAsResponses(fs: seq<UeFlow>, ms: seq<SbiMsg>, i: nat)
    requires i < |ms| && ms[i].unparsed.Some?
    ensures SbiLink(fs, ms, i).Some?
            <==> ms[i].direction == RESPONSE && ms[i].conn.Some?
                 && exists j :: 0 <= j < |ms| && Joins(fs, ms[j], (ms[i].conn.value, ms[i].streamId))
  {
    if ms[i].conn.Some? {
      SomeStreamLink(fs, ms, (ms[i].conn.value, ms[i].streamId));
    }
  }

  lemma {:induction false} SomeStreamLink(fs: seq<UeFlow>, ms: seq<SbiMsg>, s: Stream)
    ensures StreamLink(fs, ms, s).Some? <==> exists j :: 0 <= j < |ms| && Joins(fs, ms[j], s)
  {
    hide RequestLink;
    if ms != [] {
      var n := |ms| - 1;
      SomeStreamLink(fs, ms[..n], s);
      if j :| 0 <= j < n && Joins(fs, ms[j], s) {
        assert Joins(fs, ms[..n][j], s);
      }
      if j :| 0 <= j < n && Joins(fs, ms[..n][j], s) {
        assert Joins(fs, ms[j], s);
      }
    }
  }

  /** A refused response does join: one flow, its request, and an unparsed answer on the same stream. */
  lemma RefusedResponseJoins(e: Event, conn: Connection)
    requires SupiOf(e) == {"imsi-1"}
    ensures var fs := [UeFlow(7, false, [e])];
            var request := SbiMsg(0.0, 1, REQUEST, None, None, Some("imsi-1"), None, None, Some(conn), None);
            var refused := SbiMsg(1.0, 1, RESPONSE, None, None, None, None, Some("bad"), Some(conn), None);
            SbiLink(fs, [request, refused], 1) == Some(7)
  {
    var fs := [UeFlow(7, false, [e])];
    var request := SbiMsg(0.0, 1, REQUEST, None, None, Some("imsi-1"), None, None, Some(conn), None);
    var refused := SbiMsg(1.0, 1, RESPONSE, None, None, None, None, Some("bad"), Some(conn), None);
    assert fs[0].messages[0] == e && fs[0].id == 7;
    assert Claims(fs, SupiOf, "imsi-1", 7);
    SoleIsOnly(fs, SupiOf, "imsi-1", 7);
    assert LastJoin(fs, [request, refused], (conn, 1), 0);
    ResponsesInherit(fs, [request, refused], 1, 7);
  }

  /** An N4 message links a flow exactly when it is decoded and its unambiguous tunnels name just that flow. */
  lemma N4LinksUnambiguousTunnels(fs: seq<UeFlow>, m: PfcpMsg, f: nat)
    ensures N4Link(fs, m) == Some(f)
            <==> m.unparsed.None?
                 && (exists t :: t in m.fTeids && OnlyClaims(fs, TunnelsOf, t, f))
                 && (forall t, g: nat :: t in m.fTeids && OnlyClaims(fs, TunnelsOf, t, g) ==> g == f)
  {
    hide Claimants, OnlyClaims;
    var owners := Owners(fs, m);
    forall t, g: nat
      ensures OnlyClaims(fs, TunnelsOf, t, g) <==> Sole(Claimants(fs, TunnelsOf, t)) == Some(g)
    {
      SoleIsOnly(fs, TunnelsOf, t, g);
    }
    SoleClaimant(owners, f);
    if owners == {f} {
      assert f in owners;
    }
    forall t, g: nat | t in m.fTeids && OnlyClaims(fs, TunnelsOf, t, g)
      ensures g in owners
    {
    }
  }

  lemma {:induction false} AscendingUnique(s: seq<nat>, t: seq<nat>)
    requires Ascending(s) && Ascending(t) && forall x :: x in s <==> x in t
    ensures s == t
  {
    if s == [] || t == [] {
      HeadIsMember(s);
      HeadIsMember(t);
    } else {
      var m, n := |s| - 1, |t| - 1;
      assert s[m] in t && t[n] in s;
      LastIsGreatest(s);
      LastIsGreatest(t);
      assert s[m] == t[n];
      forall x
        ensures x in s[..m] <==> x in t[..n]
      {
        assert x in s[..m] <==> x in s && x != s[m];
        assert x in t[..n] <==> x in t && x != t[n];
      }
      AscendingUnique(s[..m], t[..n]);
    }
  }

  lemma LastIsGreatest(s: seq<nat>)
    requires Ascending(s) && s != []
    ensures forall x :: x in s ==> x <= s[|s| - 1]
    ensures forall x :: x in s[..|s| - 1] <==> x in s && x != s[|s| - 1]
  {
  }

  /** The links determine the references. */
  lemma InverseUnique(flowOf: map<nat, Option<nat>>, r: map<nat, seq<nat>>, q: map<nat, seq<nat>>)
    requires Inverse(flowOf, r) && Inverse(flowOf, q)
    ensures r == q
  {
    InverseKeys(flowOf, r, q);
    InverseKeys(flowOf, q, r);
    forall f | f in r
      ensures r[f] == q[f]
    {
      AscendingUnique(r[f], q[f]);
    }
  }

  lemma InverseKeys(flowOf: map<nat, Option<nat>>, r: map<nat, seq<nat>>, q: map<nat, seq<nat>>)
    requires Inverse(flowOf, r) && Inverse(flowOf, q)
    ensures forall f :: f in r ==> f in q && forall i :: i in r[f] ==> i in q[f]
  {
    forall f: nat | f in r
      ensures f in q
    {
      var i := r[f][0];
      assert i in r[f] && i in flowOf && flowOf[i] == Some(f);
    }
    forall f: nat, i | f in r && i in r[f]
      ensures f in q && i in q[f]
    {
      assert i in flowOf && flowOf[i] == Some(f);
    }
  }

  lemma ClaimantsOfPermutation<K>(fs: seq<UeFlow>, gs: seq<UeFlow>, of: Event -> set<K>, k: K)
    requires multiset(fs) == multiset(gs)
    ensures Claimants(fs, of, k) == Claimants(gs, of, k)
  {
    SameMembers(fs, gs);
    ClaimantsIncluded(fs, gs, of, k);
    ClaimantsIncluded(gs, fs, of, k);
  }

  lemma ClaimantsIncluded<K>(fs: seq<UeFlow>, gs: seq<UeFlow>, of: Event -> set<K>, k: K)
    requires forall f :: f in fs ==> f in gs
    ensures Claimants(fs, of, k) <= Claimants(gs, of, k)
  {
    forall x | x in Claimants(fs, of, k)
      ensures x in Claimants(gs, of, k)
    {
      var i, j :| 0 <= i < |fs| && 0 <= j < |fs[i].messages| && k in of(fs[i].messages[j]) && fs[i].id == x;
      assert fs[i] in fs && fs[i] in gs;
      var n :| 0 <= n < |gs| && gs[n] == fs[i];
      assert k in of(gs[n].messages[j]);
    }
  }

  lemma RequestLinkOfPermutation(fs: seq<UeFlow>, gs: seq<UeFlow>, m: SbiMsg)
    requires multiset(fs) == multiset(gs)
    ensures RequestLink(fs, m) == RequestLink(gs, m)
  {
    if m.supi.Some? {
      ClaimantsOfPermutation(fs, gs, SupiOf, m.supi.value);
    }
  }

  lemma {:induction false} StreamLinkOfPermutation(fs: seq<UeFlow>, gs: seq<UeFlow>, ms: seq<SbiMsg>, s: Stream)
    requires multiset(fs) == multiset(gs)
    ensures StreamLink(fs, ms, s) == StreamLink(gs, ms, s)
  {
    if ms != [] {
      hide RequestLink;
      StreamLinkOfPermutation(fs, gs, ms[..|ms| - 1], s);
      RequestLinkOfPermutation(fs, gs, ms[|ms| - 1]);
    }
  }

  lemma SbiLinksOfPermutation(fs: seq<UeFlow>, gs: seq<UeFlow>, ms: seq<SbiMsg>)
    requires multiset(fs) == multiset(gs)
    ensures SbiLinks(fs, ms) == SbiLinks(gs, ms)
  {
    hide RequestLink, StreamLink;
    forall i: nat | i < |ms|
      ensures SbiLink(fs, ms, i) == SbiLink(gs, ms, i)
    {
      RequestLinkOfPermutation(fs, gs, ms[i]);
      if ms[i].conn.Some? {
        StreamLinkOfPermutation(fs, gs, ms, (ms[i].conn.value, ms[i].streamId));
      }
    }
  }

  lemma N4LinksOfPermutation(fs: seq<UeFlow>, gs: seq<UeFlow>, ms: seq<PfcpMsg>)
    requires multiset(fs) == multiset(gs)
    ensures N4Links(fs, ms) == N4Links(gs, ms)
  {
    forall t
      ensures Claimants(fs, TunnelsOf, t) == Claimants(gs, TunnelsOf, t)
    {
      ClaimantsOfPermutation(fs, gs, TunnelsOf, t);
    }
    forall i: nat | i < |ms|
      ensures N4Link(fs, ms[i]) == N4Link(gs, ms[i])
    {
      assert Owners(fs, ms[i]) == Owners(gs, ms[i]);
    }
  }

  lemma FollowsUnique(flowOf: map<nat, Option<nat>>, other: map<nat, Option<nat>>, links: seq<Option<nat>>)
    requires Follows(flowOf, links) && Follows(other, links)
    ensures flowOf == other
  {
  }

  /** Correlating the same flows in another order gives the same links and the same references. */
  method CorrelateTwice(fs: seq<UeFlow>, gs: seq<UeFlow>, sbi: seq<SbiMsg>, n4: seq<PfcpMsg>)
    returns (c: Correlation, d: Correlation)
    requires multiset(fs) == multiset(gs)
    ensures c.sbiFlow == d.sbiFlow && c.flowSbiRefs == d.flowSbiRefs
    ensures c.n4Flow == d.n4Flow && c.flowN4Refs == d.flowN4Refs
  {
    hide Follows, Inverse, SbiLinks, N4Links;
    c := CorrelateFlows(fs, sbi, n4);
    d := CorrelateFlows(gs, sbi, n4);
    SbiLinksOfPermutation(fs, gs, sbi);
    N4LinksOfPermutation(fs, gs, n4);
    FollowsUnique(c.sbiFlow, d.sbiFlow, SbiLinks(fs, sbi));
    FollowsUnique(c.n4Flow, d.n4Flow, N4Links(fs, n4));
    InverseUnique(c.sbiFlow, c.flowSbiRefs, d.flowSbiRefs);
    InverseUnique(c.n4Flow, c.flowN4Refs, d.flowN4Refs);
  }

  /** A message of the flow carries this SUPI in its NAS message. */
  ghost predicate HasSupi(f: UeFlow, supi: string) {
    supi != "" && exists j :: 0 <= j < |f.messages| && f.messages[j].1.Some? && f.messages[j].1.value.supi == Some(supi)
  }

  /** A message of the flow carries this tunnel. */
  ghost predicate HasTunnel(f: UeFlow, t: Tunnel) {
    exists j :: 0 <= j < |f.messages| && t in f.messages[j].0.fTeids
  }

  /** This flow has the SUPI, and no other. */
  ghost predicate OnlySupi(fs: seq<UeFlow>, supi: string, f: nat) {
    && (exists i :: 0 <= i < |fs| && fs[i].id == f && HasSupi(fs[i], supi))
    && forall i :: 0 <= i < |fs| && HasSupi(fs[i], supi) ==> fs[i].id == f
  }

  ghost predicate OnlyTunnel(fs: seq<UeFlow>, t: Tunnel, f: nat) {
    && (exists i :: 0 <= i < |fs| && fs[i].id == f && HasTunnel(fs[i], t))
    && forall i :: 0 <= i < |fs| && HasTunnel(fs[i], t) ==> fs[i].id == f
  }

  lemma SupiByFields(fs: seq<UeFlow>, supi: string, f: nat)
    ensures OnlyClaims(fs, SupiOf, supi, f) <==> OnlySupi(fs, supi, f)
  {
    forall g: nat
      ensures Claims(fs, SupiOf, supi, g) <==> exists i :: 0 <= i < |fs| && fs[i].id == g && HasSupi(fs[i], supi)
    {
      if i, j :| 0 <= i < |fs| && 0 <= j < |fs[i].messages| && supi in SupiOf(fs[i].messages[j]) && fs[i].id == g {
        assert HasSupi(fs[i], supi);
      }
      if i :| 0 <= i < |fs| && fs[i].id == g && HasSupi(fs[i], supi) {
        var j :| 0 <= j < |fs[i].messages| && fs[i].messages[j].1.Some? && fs[i].messages[j].1.value.supi == Some(supi);
        assert supi in SupiOf(fs[i].messages[j]);
      }
    }
    hide Claims, HasSupi;
    forall i | 0 <= i < |fs| && HasSupi(fs[i], supi)
      ensures Claims(fs, SupiOf, supi, fs[i].id)
    {
    }
  }

  lemma TunnelByFields(fs: seq<UeFlow>, t: Tunnel, f: nat)
    ensures OnlyClaims(fs, TunnelsOf, t, f) <==> OnlyTunnel(fs, t, f)
  {
    forall g: nat
      ensures Claims(fs, TunnelsOf, t, g) <==> exists i :: 0 <= i < |fs| && fs[i].id == g && HasTunnel(fs[i], t)
    {
      if i, j :| 0 <= i < |fs| && 0 <= j < |fs[i].messages| && t in TunnelsOf(fs[i].messages[j]) && fs[i].id == g {
        assert HasTunnel(fs[i], t);
      }
      if i :| 0 <= i < |fs| && fs[i].id == g && HasTunnel(fs[i], t) {
        var j :| 0 <= j < |fs[i].messages| && t in fs[i].messages[j].0.fTeids;
        assert t in TunnelsOf(fs[i].messages[j]);
      }
    }
    hide Claims, HasTunnel;
    forall i | 0 <= i < |fs| && HasTunnel(fs[i], t)
      ensures Claims(fs, TunnelsOf, t, fs[i].id)
    {
    }
  }

  /** The request names a SUPI that just this flow has. */
  ghost predicate RequestOf(fs: seq<UeFlow>, m: SbiMsg, f: nat) {
    && m.direction == "request" && m.unparsed == None && m.conn != None
    && m.supi.Some? && OnlySupi(fs, m.supi.value, f)
  }

  lemma RequestsByFields(fs: seq<UeFlow>, m: SbiMsg, f: nat)
    ensures RequestLink(fs, m) == Some(f) <==> RequestOf(fs, m, f)
  {
    hide OnlyClaims, OnlySupi, Sole, Claimants;
    if m.supi.Some? {
      SoleIsOnly(fs, SupiOf, m.supi.value, f);
      SupiByFields(fs, m.supi.value, f);
    }
  }

  /** The last request of some flow on the message's connection and stream. */
  ghost predicate LastRequest(fs: seq<UeFlow>, ms: seq<SbiMsg>, m: SbiMsg, j: nat, f: nat) {
    && j < |ms| && SameStream(ms[j], m) && RequestOf(fs, ms[j], f)
    && forall k, g: nat :: j < k < |ms| && SameStream(ms[k], m) ==> !RequestOf(fs, ms[k], g)
  }

  predicate SameStream(a: SbiMsg, b: SbiMsg) {
    a.conn.Some? && a.conn == b.conn && a.streamId == b.streamId
  }

  /** The link of every SBI message by the fields of the messages. */
  lemma SbiLinksByFields(fs: seq<UeFlow>, ms: seq<SbiMsg>, i: nat, f: nat)
    requires i < |ms|
    ensures SbiLink(fs, ms, i) == Some(f)
            <==> if ms[i].direction == "response" && ms[i].conn.Some?
                 then exists j: nat :: LastRequest(fs, ms, ms[i], j, f)
                 else RequestOf(fs, ms[i], f)
  {
    hide RequestOf, RequestLink, StreamLink;
    RequestsByFields(fs, ms[i], f);
    if ms[i].direction == "response" && ms[i].conn.Some? {
      var s := (ms[i].conn.value, ms[i].streamId);
      StreamLinkIsLast(fs, ms, s, f);
      forall j: nat
        ensures LastJoin(fs, ms, s, j) && RequestLink(fs, ms[j]) == Some(f) <==> LastRequest(fs, ms, ms[i], j, f)
      {
        LastJoinByFields(fs, ms, ms[i], j, f);
      }
    }
  }

  lemma JoinsByFields(fs: seq<UeFlow>, m: SbiMsg, r: SbiMsg)
    requires r.conn.Some?
    ensures Joins(fs, m, (r.conn.value, r.streamId)) <==> SameStream(m, r) && exists g: nat :: RequestOf(fs, m, g)
  {
    hide RequestOf, RequestLink;
    forall g: nat
      ensures RequestLink(fs, m) == Some(g) <==> RequestOf(fs, m, g)
    {
      RequestsByFields(fs, m, g);
    }
  }

  lemma LastJoinByFields(fs: seq<UeFlow>, ms: seq<SbiMsg>, r: SbiMsg, j: nat, f: nat)
    requires r.conn.Some?
    ensures LastJoin(fs, ms, (r.conn.value, r.streamId), j) && RequestLink(fs, ms[j]) == Some(f)
            <==> LastRequest(fs, ms, r, j, f)
  {
    hide RequestOf, RequestLink, SameStream, Joins;
    if j < |ms| {
      forall k | 0 <= k < |ms|
        ensures Joins(fs, ms[k], (r.conn.value, r.streamId))
                <==> SameStream(ms[k], r) && exists g: nat :: RequestOf(fs, ms[k], g)
      {
        JoinsByFields(fs, ms[k], r);
      }
      RequestsByFields(fs, ms[j], f);
    }
  }

  /** The link of an N4 message: just one flow is the only one with some of the message's tunnels. */
  lemma N4LinksByFields(fs: seq<UeFlow>, m: PfcpMsg, f: nat)
    ensures N4Link(fs, m) == Some(f)
            <==> && m.unparsed == None && (exists t :: t in m.fTeids && OnlyTunnel(fs, t, f))
                 && forall t, g: nat :: t in m.fTeids && OnlyTunnel(fs, t, g) ==> g == f
  {
    hide OnlyClaims, OnlyTunnel;
    N4LinksUnambiguousTunnels(fs, m, f);
    forall t, g: nat
      ensures OnlyClaims(fs, TunnelsOf, t, g) <==> OnlyTunnel(fs, t, g)
    {
      TunnelByFields(fs, t, g);
    }
  }
}

/** Which messages of a flow start and end its procedures, stated without the builder's state. */
module FlowPairing {
  import opened Prelude
  import opened FlowModel

  predicate NasStarts(e: Event, k: Kind) {
    NasRole(e.1) == Starts(k)
  }

  predicate NasEnds(e: Event, k: Kind) {
    NasRole(e.1).Ends? && NasRole(e.1).kind == k
  }

  predicate NgapStarts(e: Event, k: Kind) {
    NgapRole(e.0.name) == Starts(k)
  }

  predicate NgapEnds(e: Event, k: Kind) {
    NgapRole(e.0.name).Ends? && NgapRole(e.0.name).kind == k
  }

  predicate Releases(e: Event) {
    NgapRole(e.0.name).Drops?
  }

  /** A NAS end answers the latest NAS start of its kind, if no end came in between. */
  ghost predicate NasPair(ev: seq<Event>, k: Kind, i: nat, j: nat) {
    && i < j < |ev| && NasStarts(ev[i], k) && NasEnds(ev[j], k)
    && forall m :: i < m < j ==> !NasStarts(ev[m], k) && !NasEnds(ev[m], k)
  }

  /** An NGAP start before `j` with no context release since. */
  ghost predicate Live(ev: seq<Event>, k: Kind, i: nat, j: nat) {
    && i < j <= |ev| && NgapStarts(ev[i], k)
    && forall m :: i < m < j ==> !Releases(ev[m])
  }

  /** An NGAP end that could answer some live start. */
  ghost predicate LiveEnd(ev: seq<Event>, k: Kind, j: nat) {
    j < |ev| && NgapEnds(ev[j], k) && exists i :: Live(ev, k, i, j)
  }

  /** The earliest live start at `j`. */
  ghost predicate EarliestAt(ev: seq<Event>, k: Kind, i: nat, j: nat) {
    Live(ev, k, i, j) && forall i' :: 0 <= i' < i ==> !Live(ev, k, i', j)
  }

  /**
   * An NGAP end answers the earliest live start; it is the first end of its kind that has
   * one, and no NAS procedure of the kind has ended up to then.
   */
  ghost predicate NgapPair(ev: seq<Event>, k: Kind, i: nat, j: nat) {
    && j < |ev| && NgapEnds(ev[j], k) && EarliestAt(ev, k, i, j)
    && (forall j' :: 0 <= j' < j ==> !LiveEnd(ev, k, j'))
    && (forall i', j' :: 0 <= i' < j' <= j ==> !NasPair(ev, k, i', j'))
  }

  /** One procedure by the positions of its two messages. */
  datatype Closing = Closing(kind: Kind, nas: bool, from: nat, to: nat)

  ghost predicate Pairs(ev: seq<Event>, c: Closing) {
    if c.nas then NasPair(ev, c.kind, c.from, c.to) else NgapPair(ev, c.kind, c.from, c.to)
  }

  /** Positions from and to are such as a closing of `ev` has. */
  predicate Within(ev: seq<Event>, c: Closing) {
    && c.from < c.to < |ev|
    && if c.nas then NasStarts(ev[c.from], c.kind) && NasEnds(ev[c.to], c.kind)
       else NgapStarts(ev[c.from], c.kind) && NgapEnds(ev[c.to], c.kind)
  }

  function StartOf(ev: seq<Event>, c: Closing): Procedure
    requires Within(ev, c)
  {
    var e := ev[c.from];
    Started(c.kind, e.0.ts, if c.nas then NasName(e.1).value else e.0.name.value)
  }

  /** The procedure record of a pairing. */
  function ProcedureOf(ev: seq<Event>, c: Closing): Procedure
    requires Within(ev, c)
  {
    var e := ev[c.to];
    if c.nas then Closed(StartOf(ev, c), e.0.ts, NasName(e.1).value, NasRole(e.1).verdict)
    else Closed(StartOf(ev, c), e.0.ts, e.0.name.value, NgapRole(e.0.name).verdict)
  }

  function Procedures(ev: seq<Event>, cs: seq<Closing>): (r: seq<Procedure>)
    requires forall c :: c in cs ==> Within(ev, c)
    ensures |r| == |cs|
    ensures forall x :: 0 <= x < |cs| ==> r[x] == ProcedureOf(ev, cs[x])
  {
    if cs == [] then [] else Procedures(ev, cs[..|cs| - 1]) + [ProcedureOf(ev, cs[|cs| - 1])]
  }

  /** The NAS start still waiting for its end. */
  function OpenAt(ev: seq<Event>, k: Kind): Option<nat> {
    if ev == [] then None
    else
      var n := |ev| - 1;
      if NasStarts(ev[n], k) then Some(n)
      else if NasEnds(ev[n], k) then None
      else OpenAt(ev[..n], k)
  }

  /** The NGAP starts since the last release. */
  function LiveStarts(ev: seq<Event>, k: Kind): seq<nat> {
    if ev == [] then []
    else
      var n := |ev| - 1;
      if Releases(ev[n]) then []
      else if NgapStarts(ev[n], k) then LiveStarts(ev[..n], k) + [n]
      else LiveStarts(ev[..n], k)
  }

  predicate Has(cs: seq<Closing>, k: Kind) {
    exists c :: c in cs && c.kind == k
  }

  /** What the last message of `ev` closes on the NAS level. */
  function NasClosing(ev: seq<Event>): (r: seq<Closing>)
    requires ev != []
    ensures |r| <= 1 && forall c :: c in r ==> c.nas && c.to == |ev| - 1
  {
    var n := |ev| - 1;
    if !NasRole(ev[n].1).Ends? then []
    else
      var k := NasRole(ev[n].1).kind;
      if OpenAt(ev[..n], k).None? then [] else [Closing(k, true, OpenAt(ev[..n], k).value, n)]
  }

  /** What the last message of `ev` closes on the NGAP level, after the closings `cs`. */
  function NgapClosing(ev: seq<Event>, cs: seq<Closing>): (r: seq<Closing>)
    requires ev != []
    ensures |r| <= 1 && forall c :: c in r ==> !c.nas && c.to == |ev| - 1
  {
    var n := |ev| - 1;
    if !NgapRole(ev[n].0.name).Ends? then []
    else
      var k := NgapRole(ev[n].0.name).kind;
      if Has(cs, k) || LiveStarts(ev[..n], k) == [] then []
      else [Closing(k, false, LiveStarts(ev[..n], k)[0], n)]
  }

  /** All closings in the order the builder makes them. */
  function Closings(ev: seq<Event>): seq<Closing> {
    if ev == [] then []
    else
      var cs := Closings(ev[..|ev| - 1]) + NasClosing(ev);
      cs + NgapClosing(ev, cs)
  }

  lemma {:induction false} OpenIsLatest(ev: seq<Event>, k: Kind)
    ensures OpenAt(ev, k).Some? ==>
      var i := OpenAt(ev, k).value;
      i < |ev| && NasStarts(ev[i], k) && forall m :: i < m < |ev| ==> !NasStarts(ev[m], k) && !NasEnds(ev[m], k)
    ensures OpenAt(ev, k).None? ==> forall i :: 0 <= i < |ev| && NasStarts(ev[i], k) ==>
      exists m :: i < m < |ev| && NasEnds(ev[m], k)
  {
    if ev != [] {
      var n := |ev| - 1;
      OpenIsLatest(ev[..n], k);
      if OpenAt(ev, k).None? && !NasEnds(ev[n], k) {
        forall i | 0 <= i < |ev| && NasStarts(ev[i], k)
          ensures exists m :: i < m < |ev| && NasEnds(ev[m], k)
        {
          assert NasStarts(ev[..n][i], k);
          var m :| i < m < n && NasEnds(ev[..n][m], k);
          assert NasEnds(ev[m], k);
        }
      }
    }
  }

  lemma {:induction false} LiveStartsAreLive(ev: seq<Event>, k: Kind)
    ensures forall x :: 0 <= x < |LiveStarts(ev, k)| ==> LiveStarts(ev, k)[x] < |ev|
    ensures forall i :: 0 <= i ==> (i in LiveStarts(ev, k) <==> Live(ev, k, i, |ev|))
    ensures forall x, y :: 0 <= x < y < |LiveStarts(ev, k)| ==> LiveStarts(ev, k)[x] < LiveStarts(ev, k)[y]
  {
    if ev != [] {
      var n := |ev| - 1;
      LiveStartsAreLive(ev[..n], k);
      forall i | 0 <= i
        ensures i in LiveStarts(ev, k) <==> Live(ev, k, i, |ev|)
      {
        LiveOneMore(ev, k, i);
      }
    }
  }

  lemma LiveOneMore(ev: seq<Event>, k: Kind, i: nat)
    requires ev != []
    ensures Live(ev, k, i, |ev|) <==>
      if i == |ev| - 1 then NgapStarts(ev[i], k)
      else !Releases(ev[|ev| - 1]) && Live(ev[..|ev| - 1], k, i, |ev| - 1)
  {
    var n := |ev| - 1;
    if i < n {
      assert forall m :: 0 <= m < n ==> ev[..n][m] == ev[m];
      if Live(ev, k, i, |ev|) {
        assert !Releases(ev[n]);
      }
    }
  }

  /** Pairs among the first messages do not depend on the later ones. */
  lemma PairsPrefix(ev: seq<Event>, n: nat, c: Closing)
    requires n <= |ev| && c.to < n
    ensures Pairs(ev[..n], c) <==> Pairs(ev, c)
  {
    var front := ev[..n];
    assert forall m :: 0 <= m < n ==> front[m] == ev[m];
    assert forall k, i: nat, j: nat :: j < n ==> (NasPair(front, k, i, j) <==> NasPair(ev, k, i, j));
    assert forall k, i: nat, j: nat :: j < n ==> (Live(front, k, i, j) <==> Live(ev, k, i, j));
    forall k, j: nat | j < n
      ensures LiveEnd(front, k, j) <==> LiveEnd(ev, k, j)
    {
      if LiveEnd(front, k, j) {
        var i :| Live(front, k, i, j);
        assert Live(ev, k, i, j);
      }
    }
  }

  lemma PairsWithin(ev: seq<Event>, c: Closing)
    requires Pairs(ev, c)
    ensures Within(ev, c)
  {
  }

  lemma NasClosingIsPair(ev: seq<Event>, c: Closing)
    requires ev != []
    ensures c in NasClosing(ev) <==> c.nas && c.to == |ev| - 1 && NasPair(ev, c.kind, c.from, c.to)
  {
    hide NasRole, OpenAt;
    var n := |ev| - 1;
    var front := ev[..n];
    assert forall m :: 0 <= m < n ==> front[m] == ev[m];
    OpenIsLatest(front, c.kind);
    if NasEnds(ev[n], c.kind) {
      if c.nas && c.to == n && NasPair(ev, c.kind, c.from, n) {
        assert NasStarts(front[c.from], c.kind);
        assert OpenAt(front, c.kind).Some? && OpenAt(front, c.kind).value == c.from;
      }
    }
  }

  /** If no NAS procedure of the kind ended up to `j`, a live end at `j` means an NGAP procedure up to `j`. */
  lemma {:induction false} LiveEndPairs(ev: seq<Event>, k: Kind, j: nat)
    requires LiveEnd(ev, k, j)
    requires forall i', j' :: 0 <= i' < j' <= j ==> !NasPair(ev, k, i', j')
    ensures exists c: Closing :: c.to <= j && c.kind == k && !c.nas && Pairs(ev, c)
    decreases j
  {
    if j' :| 0 <= j' < j && LiveEnd(ev, k, j') {
      LiveEndPairs(ev, k, j');
    } else {
      var i :| Live(ev, k, i, j);
      var first := EarliestLive(ev, k, i, j);
      assert Pairs(ev, Closing(k, false, first, j));
    }
  }

  lemma {:induction false} EarliestLive(ev: seq<Event>, k: Kind, i: nat, j: nat) returns (first: nat)
    requires Live(ev, k, i, j)
    ensures EarliestAt(ev, k, first, j)
    decreases i
  {
    if i' :| 0 <= i' < i && Live(ev, k, i', j) {
      first := EarliestLive(ev, k, i', j);
    } else {
      first := i;
    }
  }

  lemma NgapClosingIsPair(ev: seq<Event>, cs: seq<Closing>, c: Closing)
    requires ev != []
    requires forall d :: d in cs <==> Pairs(ev, d) && (d.to < |ev| - 1 || (d.nas && d.to == |ev| - 1))
    ensures c in NgapClosing(ev, cs) <==> !c.nas && c.to == |ev| - 1 && NgapPair(ev, c.kind, c.from, c.to)
  {
    var n := |ev| - 1;
    var k := c.kind;
    LiveStartsAreLive(ev[..n], k);
    assert forall m :: 0 <= m < n ==> ev[..n][m] == ev[m];
    assert forall i: nat :: Live(ev[..n], k, i, n) <==> Live(ev, k, i, n);
    if NgapEnds(ev[n], k) && !c.nas && c.to == n {
      if Has(cs, k) {
        var d :| d in cs && d.kind == k;
        if d.nas {
          assert NasPair(ev, k, d.from, d.to);
        } else {
          assert LiveEnd(ev, k, d.to);
        }
      } else {
        forall i', j' | 0 <= i' < j' <= n
          ensures !NasPair(ev, k, i', j')
        {
          assert Closing(k, true, i', j') !in cs;
        }
        forall j' | 0 <= j' < n
          ensures !LiveEnd(ev, k, j')
        {
          if LiveEnd(ev, k, j') {
            LiveEndPairs(ev, k, j');
          }
        }
        FirstLive(ev, k, c.from);
      }
    }
  }

  /** The head of the live starts is the earliest live start. */
  lemma FirstLive(ev: seq<Event>, k: Kind, i: nat)
    requires ev != []
    ensures var starts := LiveStarts(ev[..|ev| - 1], k);
            (starts != [] && starts[0] == i) <==> EarliestAt(ev, k, i, |ev| - 1)
  {
    var n := |ev| - 1;
    var starts := LiveStarts(ev[..n], k);
    LiveStartsAreLive(ev[..n], k);
    assert forall m :: 0 <= m < n ==> ev[..n][m] == ev[m];
    assert forall i: nat :: Live(ev[..n], k, i, n) <==> Live(ev, k, i, n);
    if starts != [] {
      assert starts[0] in starts;
      assert forall x :: x in starts ==> starts[0] <= x;
    }
  }

  /** A closing list is ordered by the closing message, NAS before NGAP on one message. */
  predicate Ordered(cs: seq<Closing>) {
    forall x, y :: 0 <= x < y < |cs| ==> Before(cs[x], cs[y])
  }

  lemma NasStage(ev: seq<Event>, c: Closing)
    requires ev != []
    requires c in Closings(ev[..|ev| - 1]) <==> Pairs(ev[..|ev| - 1], c)
    ensures c in Closings(ev[..|ev| - 1]) + NasClosing(ev) <==>
      Pairs(ev, c) && (c.to < |ev| - 1 || (c.nas && c.to == |ev| - 1))
  {
    var n := |ev| - 1;
    hide NasClosing, Closings, NasPair, NgapPair;
    NasClosingIsPair(ev, c);
    if c.to < n {
      PairsPrefix(ev, n, c);
    } else if Pairs(ev[..n], c) {
      PairsWithin(ev[..n], c);
    }
  }

  /** The closings are exactly the declared pairs, each once, in order. */
  lemma {:induction false} ClosingsArePairs(ev: seq<Event>)
    ensures forall c :: c in Closings(ev) <==> Pairs(ev, c)
    ensures Ordered(Closings(ev))
  {
    hide NasClosing, NgapClosing, NasPair, NgapPair, Within;
    if ev == [] {
      forall c | Pairs(ev, c)
        ensures false
      {
        PairsWithin(ev, c);
        assert Within(ev, c) ==> c.to < |ev| by {
          WithinBounds(ev, c);
        }
      }
    } else {
      var n := |ev| - 1;
      ClosingsArePairs(ev[..n]);
      var cs := Closings(ev[..n]) + NasClosing(ev);
      forall c
        ensures c in cs <==> Pairs(ev, c) && (c.to < n || (c.nas && c.to == n))
      {
        NasStage(ev, c);
      }
      forall c
        ensures c in Closings(ev) <==> Pairs(ev, c)
      {
        NgapClosingIsPair(ev, cs, c);
        if Pairs(ev, c) {
          PairsWithin(ev, c);
          WithinBounds(ev, c);
        }
      }
      forall c | c in Closings(ev[..n])
        ensures c.to < n
      {
        PairsWithin(ev[..n], c);
        WithinBounds(ev[..n], c);
      }
      OrderGrows(ev, Closings(ev[..n]));
    }
  }

  lemma WithinBounds(ev: seq<Event>, c: Closing)
    requires Within(ev, c)
    ensures c.from < c.to < |ev|
  {
  }

  predicate Before(c: Closing, d: Closing) {
    c.to < d.to || (c.to == d.to && c.nas && !d.nas)
  }

  lemma OrderedAppend(cs: seq<Closing>, ds: seq<Closing>)
    requires Ordered(cs) && |ds| <= 1
    requires forall c, d :: c in cs && d in ds ==> Before(c, d)
    ensures Ordered(cs + ds)
  {
  }

  lemma OrderGrows(ev: seq<Event>, front: seq<Closing>)
    requires ev != [] && Ordered(front) && forall c :: c in front ==> c.to < |ev| - 1
    ensures Ordered(front + NasClosing(ev) + NgapClosing(ev, front + NasClosing(ev)))
  {
    hide NasClosing, NgapClosing;
    OrderedAppend(front, NasClosing(ev));
    OrderedAppend(front + NasClosing(ev), NgapClosing(ev, front + NasClosing(ev)));
  }
}

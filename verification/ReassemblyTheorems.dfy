/** The reader undoes fragmentation, interleaving and retransmission. */
module ReassemblyTheorems {
  import opened Reassembly

  function Tsns(fs: seq<Fragment>): set<TsnKey> {
    set f | f in fs :: TsnOf(f)
  }

  /** The fragments whose TSN was not seen before on their association. */
  function Fresh(fs: seq<Fragment>): seq<Fragment> {
    if fs == [] then []
    else
      var front, last := fs[..|fs| - 1], fs[|fs| - 1];
      Fresh(front) + if TsnOf(last) in Tsns(front) then [] else [last]
  }

  function OnStream(fs: seq<Fragment>, key: StreamKey): seq<Fragment> {
    if fs == [] then []
    else OnStream(fs[..|fs| - 1], key) + if StreamOf(fs[|fs| - 1]) == key then [fs[|fs| - 1]] else []
  }

  function Delivered(msgs: seq<N2Message>, key: StreamKey): seq<N2Message> {
    if msgs == [] then []
    else
      var last := msgs[|msgs| - 1];
      Delivered(msgs[..|msgs| - 1], key) + if (last.assoc, last.stream) == key then [last] else []
  }

  /** A piece of a message on the wire: its bytes and whether it is the last one. */
  type Piece = (Bytes, bool)

  function Pieces(fs: seq<Fragment>): seq<Piece> {
    seq(|fs|, i requires 0 <= i < |fs| => (fs[i].data, fs[i].ending))
  }

  function Join(parts: seq<Bytes>): Bytes {
    if parts == [] then [] else Join(parts[..|parts| - 1]) + parts[|parts| - 1]
  }

  /** How a sender puts one message, cut into parts, on its stream. */
  function WireOne(parts: seq<Bytes>): seq<Piece> {
    seq(|parts|, i requires 0 <= i < |parts| => (parts[i], i == |parts| - 1))
  }

  /** All messages of a stream, one after the other. */
  function Wire(msgs: seq<seq<Bytes>>): seq<Piece> {
    if msgs == [] then [] else Wire(msgs[..|msgs| - 1]) + WireOne(msgs[|msgs| - 1])
  }

  function Payloads(msgs: seq<N2Message>): seq<Bytes> {
    seq(|msgs|, i requires 0 <= i < |msgs| => msgs[i].data)
  }

  function Joined(msgs: seq<seq<Bytes>>): seq<Bytes> {
    seq(|msgs|, i requires 0 <= i < |msgs| => Join(msgs[i]))
  }

  /** A stream read back: the finished messages, and the parts of an unfinished one. */
  datatype Cut = Cut(done: seq<seq<Bytes>>, tail: seq<Bytes>)

  function CutOf(ps: seq<Piece>): Cut {
    if ps == [] then Cut([], [])
    else
      var before, last := CutOf(ps[..|ps| - 1]), ps[|ps| - 1];
      if last.1 then Cut(before.done + [before.tail + [last.0]], []) else Cut(before.done, before.tail + [last.0])
  }

  function Open(tail: seq<Bytes>): seq<Piece> {
    seq(|tail|, i requires 0 <= i < |tail| => (tail[i], false))
  }

  lemma CutOneMore(ps: seq<Piece>, p: Piece)
    ensures CutOf(ps + [p]) ==
      if p.1 then Cut(CutOf(ps).done + [CutOf(ps).tail + [p.0]], []) else Cut(CutOf(ps).done, CutOf(ps).tail + [p.0])
  {
    assert (ps + [p])[..|ps|] == ps;
  }

  lemma {:induction false} SeenIsTsns(fs: seq<Fragment>)
    ensures Read(fs).seen == Tsns(fs)
  {
    if fs != [] {
      var n := |fs| - 1;
      SeenIsTsns(fs[..n]);
      assert fs == fs[..n] + [fs[n]];
    }
  }

  /** Dropping every retransmission changes nothing at all. */
  lemma {:induction false} OnlyFreshMatters(fs: seq<Fragment>)
    ensures Read(fs) == Read(Fresh(fs))
  {
    if fs != [] {
      var n := |fs| - 1;
      OnlyFreshMatters(fs[..n]);
      SeenIsTsns(fs[..n]);
      if TsnOf(fs[n]) in Tsns(fs[..n]) {
        assert Fresh(fs) == Fresh(fs[..n]);
      } else {
        ReadOneMore(Fresh(fs[..n]), fs[n]);
      }
    }
  }

  /** A later duplicate of a seen TSN can be inserted anywhere. */
  lemma {:induction false} LaterDuplicate(a: seq<Fragment>, dup: Fragment, b: seq<Fragment>)
    requires TsnOf(dup) in Tsns(a)
    ensures Read(a + [dup] + b) == Read(a + b)
  {
    if b == [] {
      assert a + [dup] + b == a + [dup] && a + b == a;
      SeenIsTsns(a);
      ReadOneMore(a, dup);
    } else {
      var n := |b| - 1;
      LaterDuplicate(a, dup, b[..n]);
      assert a + [dup] + b == (a + [dup] + b[..n]) + [b[n]] && a + b == (a + b[..n]) + [b[n]];
      ReadOneMore(a + [dup] + b[..n], b[n]);
      ReadOneMore(a + b[..n], b[n]);
    }
  }

  lemma DeliveredOneMore(msgs: seq<N2Message>, m: N2Message, key: StreamKey)
    ensures Delivered(msgs + [m], key) == Delivered(msgs, key) + if (m.assoc, m.stream) == key then [m] else []
  {
    assert (msgs + [m])[..|msgs|] == msgs;
  }

  /** What the reader has on one stream, as the stream's fresh fragments determine it. */
  ghost predicate StreamIs(r: Reader, key: StreamKey, fs: seq<Fragment>) {
    var cut := CutOf(Pieces(fs));
    && Payloads(Delivered(r.msgs, key)) == Joined(cut.done)
    && Buffered(r, key) == Join(cut.tail)
  }

  lemma JoinOneMore(parts: seq<Bytes>, p: Bytes)
    ensures Join(parts + [p]) == Join(parts) + p
  {
    assert (parts + [p])[..|parts|] == parts;
  }

  lemma PiecesOneMore(fs: seq<Fragment>, f: Fragment)
    ensures Pieces(fs + [f]) == Pieces(fs) + [(f.data, f.ending)]
  {
  }

  lemma PayloadsOneMore(msgs: seq<N2Message>, m: N2Message)
    ensures Payloads(msgs + [m]) == Payloads(msgs) + [m.data]
  {
  }

  lemma JoinedOneMore(done: seq<seq<Bytes>>, parts: seq<Bytes>)
    ensures Joined(done + [parts]) == Joined(done) + [Join(parts)]
  {
    hide Join;
  }

  /** A fresh fragment lengthens its stream's buffer, or delivers and clears it. */
  lemma AcceptFresh(r: Reader, f: Fragment)
    requires TsnOf(f) !in r.seen
    ensures var data := Buffered(r, StreamOf(f)) + f.data; var r' := Accept(r, f);
            if f.ending
            then r'.msgs == r.msgs + [N2Message(f.ts, f.assoc, f.stream, data, f.srcIp, f.dstIp)]
                 && Buffered(r', StreamOf(f)) == []
            else r'.msgs == r.msgs && Buffered(r', StreamOf(f)) == data
  {
  }

  lemma AcceptOnStream(r: Reader, f: Fragment, fs: seq<Fragment>)
    requires StreamIs(r, StreamOf(f), fs) && TsnOf(f) !in r.seen
    ensures StreamIs(Accept(r, f), StreamOf(f), fs + [f])
  {
    hide CutOf, Pieces, Delivered, Payloads, Joined, Join, Accept, Buffered, TsnOf;
    var cut := CutOf(Pieces(fs));
    AcceptFresh(r, f);
    PiecesOneMore(fs, f);
    CutOneMore(Pieces(fs), (f.data, f.ending));
    JoinOneMore(cut.tail, f.data);
    if f.ending {
      var m := N2Message(f.ts, f.assoc, f.stream, Buffered(r, StreamOf(f)) + f.data, f.srcIp, f.dstIp);
      DeliveredOneMore(r.msgs, m, StreamOf(f));
      PayloadsOneMore(Delivered(r.msgs, StreamOf(f)), m);
      JoinedOneMore(cut.done, cut.tail + [f.data]);
      NothingJoined();
    }
  }

  lemma NothingJoined()
    ensures Join([]) == []
  {
  }

  lemma AcceptOffStream(r: Reader, f: Fragment, key: StreamKey, fs: seq<Fragment>)
    requires StreamIs(r, key, fs) && StreamOf(f) != key
    ensures StreamIs(Accept(r, f), key, fs)
  {
    if TsnOf(f) !in r.seen && f.ending {
      var m := N2Message(f.ts, f.assoc, f.stream, Buffered(r, StreamOf(f)) + f.data, f.srcIp, f.dstIp);
      DeliveredOneMore(r.msgs, m, key);
      assert Delivered(r.msgs, key) + [] == Delivered(r.msgs, key);
    }
  }

  /**
   * Whatever is captured, each stream gets exactly the messages its fresh fragments spell,
   * and holds back exactly the unfinished rest.
   */
  lemma {:induction false} StreamsAreSeparate(fs: seq<Fragment>, key: StreamKey)
    ensures StreamIs(Read(fs), key, OnStream(Fresh(fs), key))
  {
    hide StreamIs, Accept;
    if fs == [] {
      EmptyStream(key);
    } else {
      var n := |fs| - 1;
      var before := OnStream(Fresh(fs[..n]), key);
      StreamsAreSeparate(fs[..n], key);
      SeenIsTsns(fs[..n]);
      if TsnOf(fs[n]) in Tsns(fs[..n]) {
        assert Fresh(fs) == Fresh(fs[..n]);
        SeenAlready(Read(fs[..n]), fs[n]);
      } else {
        assert Fresh(fs)[..|Fresh(fs)| - 1] == Fresh(fs[..n]);
        if StreamOf(fs[n]) == key {
          AcceptOnStream(Read(fs[..n]), fs[n], before);
        } else {
          assert before + [] == before;
          AcceptOffStream(Read(fs[..n]), fs[n], key, before);
        }
      }
    }
  }

  lemma SeenAlready(r: Reader, f: Fragment)
    requires TsnOf(f) in r.seen
    ensures Accept(r, f) == r
  {
  }

  lemma EmptyStream(key: StreamKey)
    ensures StreamIs(Read([]), key, OnStream(Fresh([]), key))
  {
    assert Pieces([]) == [];
  }

  lemma {:induction false} CutOfOpen(ps: seq<Piece>, tail: seq<Bytes>)
    ensures CutOf(ps + Open(tail)) == Cut(CutOf(ps).done, CutOf(ps).tail + tail)
  {
    hide CutOf, Open;
    if tail == [] {
      NothingOpen();
      assert ps + Open(tail) == ps && CutOf(ps).tail + tail == CutOf(ps).tail;
    } else {
      var n := |tail| - 1;
      CutOfOpen(ps, tail[..n]);
      OpenOneMore(tail);
      assert ps + Open(tail) == ps + Open(tail[..n]) + [(tail[n], false)];
      CutOneMore(ps + Open(tail[..n]), (tail[n], false));
      assert CutOf(ps).tail + tail == CutOf(ps).tail + tail[..n] + [tail[n]];
    }
  }

  lemma OpenOneMore(tail: seq<Bytes>)
    requires tail != []
    ensures Open(tail) == Open(tail[..|tail| - 1]) + [(tail[|tail| - 1], false)]
  {
  }

  lemma WireOneMore(msgs: seq<seq<Bytes>>, tail: seq<Bytes>, p: Bytes)
    ensures Wire(msgs + [tail + [p]]) == Wire(msgs) + Open(tail) + [(p, true)]
    ensures Open(tail + [p]) == Open(tail) + [(p, false)]
  {
    assert (msgs + [tail + [p]])[..|msgs|] == msgs;
    assert WireOne(tail + [p]) == Open(tail) + [(p, true)];
  }

  /** Reading back what a sender put on the wire gives its messages, part by part. */
  lemma {:induction false} CutOfWire(msgs: seq<seq<Bytes>>)
    requires forall m :: m in msgs ==> m != []
    ensures CutOf(Wire(msgs)) == Cut(msgs, [])
  {
    hide Wire, Open, CutOf;
    if msgs == [] {
      NothingOpen();
    } else {
      var n := |msgs| - 1;
      var front, m := msgs[..n], msgs[n];
      assert m in msgs && forall x :: x in front ==> x in msgs;
      CutOfWire(front);
      var k := |m| - 1;
      assert m == m[..k] + [m[k]] && msgs == front + [m];
      WireOneMore(front, m[..k], m[k]);
      CutOfOpen(Wire(front), m[..k]);
      CutOneMore(Wire(front) + Open(m[..k]), (m[k], true));
      assert [] + m[..k] == m[..k];
    }
  }

  /** And every stream is the wire form of what is read from it. */
  lemma {:induction false} WireOfCut(ps: seq<Piece>)
    ensures ps == Wire(CutOf(ps).done) + Open(CutOf(ps).tail)
  {
    hide Wire, Open;
    if ps == [] {
      NothingOpen();
    } else {
      var n := |ps| - 1;
      var before, last := CutOf(ps[..n]), ps[n];
      WireOfCut(ps[..n]);
      assert ps == ps[..n] + [last];
      WireOneMore(before.done, before.tail, last.0);
      NothingOpen();
      if !last.1 {
        assert last == (last.0, false);
        assert Wire(before.done) + Open(before.tail) + [last] == Wire(before.done) + (Open(before.tail) + [last]);
      } else {
        assert last == (last.0, true);
        assert ps == Wire(before.done + [before.tail + [last.0]]) + [];
      }
    }
  }

  lemma NothingOpen()
    ensures Open([]) == [] && Wire([]) == [] && CutOf([]) == Cut([], [])
  {
  }

  /**
   * The round trip: messages cut into parts come back complete and in order on every
   * stream, however the streams are interleaved and whatever is retransmitted.
   */
  lemma RoundTrip(fs: seq<Fragment>, key: StreamKey, msgs: seq<seq<Bytes>>)
    requires forall m :: m in msgs ==> m != []
    requires Pieces(OnStream(Fresh(fs), key)) == Wire(msgs)
    ensures Payloads(Delivered(Read(fs).msgs, key)) == Joined(msgs)
    ensures Buffered(Read(fs), key) == []
  {
    StreamsAreSeparate(fs, key);
    CutOfWire(msgs);
  }

  predicate DistinctTsns(fs: seq<Fragment>) {
    forall i, j :: 0 <= i < j < |fs| ==> TsnOf(fs[i]) != TsnOf(fs[j])
  }

  /** What is captured is what was sent, with repetitions of earlier TSNs put in anywhere. */
  ghost predicate WithDuplicates(sent: seq<Fragment>, captured: seq<Fragment>) {
    if captured == [] then sent == []
    else
      var front, last := captured[..|captured| - 1], captured[|captured| - 1];
      || (TsnOf(last) in Tsns(front) && WithDuplicates(sent, front))
      || (sent != [] && sent[|sent| - 1] == last && WithDuplicates(sent[..|sent| - 1], front))
  }

  lemma TsnsOneMore(fs: seq<Fragment>)
    requires fs != []
    ensures Tsns(fs) == Tsns(fs[..|fs| - 1]) + {TsnOf(fs[|fs| - 1])}
  {
    assert fs == fs[..|fs| - 1] + [fs[|fs| - 1]];
  }

  lemma FreshStep(fs: seq<Fragment>)
    requires fs != []
    ensures var front, last := fs[..|fs| - 1], fs[|fs| - 1];
            Fresh(fs) == if TsnOf(last) in Tsns(front) then Fresh(front) else Fresh(front) + [last]
  {
  }

  lemma DistinctFront(sent: seq<Fragment>)
    requires DistinctTsns(sent) && sent != []
    ensures DistinctTsns(sent[..|sent| - 1])
  {
  }

  lemma DuplicatesStep(sent: seq<Fragment>, captured: seq<Fragment>)
    requires WithDuplicates(sent, captured) && captured != []
    ensures var front, last := captured[..|captured| - 1], captured[|captured| - 1];
            || (TsnOf(last) in Tsns(front) && WithDuplicates(sent, front))
            || (sent != [] && sent[|sent| - 1] == last && WithDuplicates(sent[..|sent| - 1], front))
  {
    hide Tsns, TsnOf;
  }

  lemma NothingSent(sent: seq<Fragment>)
    requires WithDuplicates(sent, [])
    ensures sent == [] && Fresh([]) == []
  {
  }

  /** With distinct TSNs, what is fresh of a capture is what was sent. */
  lemma {:induction false} FreshIsSent(sent: seq<Fragment>, captured: seq<Fragment>)
    requires DistinctTsns(sent) && WithDuplicates(sent, captured)
    ensures Fresh(captured) == sent && Tsns(captured) == Tsns(sent)
  {
    hide Tsns, Fresh, DistinctTsns, TsnOf, WithDuplicates;
    if captured == [] {
      NothingSent(sent);
    } else {
      var front, last := captured[..|captured| - 1], captured[|captured| - 1];
      DuplicatesStep(sent, captured);
      TsnsOneMore(captured);
      FreshStep(captured);
      if TsnOf(last) in Tsns(front) && WithDuplicates(sent, front) {
        FreshIsSent(sent, front);
        assert Tsns(front) + {TsnOf(last)} == Tsns(front);
      } else {
        var n := |sent| - 1;
        DistinctFront(sent);
        FreshIsSent(sent[..n], front);
        TsnsOneMore(sent);
        LastIsFresh(sent);
        assert sent == sent[..n] + [sent[n]];
      }
    }
  }

  lemma LastIsFresh(sent: seq<Fragment>)
    requires DistinctTsns(sent) && sent != []
    ensures TsnOf(sent[|sent| - 1]) !in Tsns(sent[..|sent| - 1])
  {
  }

  lemma {:induction false} SentAsIs(sent: seq<Fragment>)
    ensures WithDuplicates(sent, sent)
  {
    if sent != [] {
      SentAsIs(sent[..|sent| - 1]);
    }
  }

  /** A capture is all fresh exactly when its TSNs are distinct. */
  lemma {:induction false} FreshIffDistinct(fs: seq<Fragment>)
    ensures |Fresh(fs)| <= |fs| && (Fresh(fs) == fs <==> DistinctTsns(fs))
  {
    hide Fresh, Tsns, TsnOf;
    if DistinctTsns(fs) {
      SentAsIs(fs);
      FreshIsSent(fs, fs);
    }
    if fs == [] {
      NothingSent(fs);
    } else {
      var front := fs[..|fs| - 1];
      FreshIffDistinct(front);
      FreshStep(fs);
      if Fresh(fs) == fs {
        assert Fresh(fs)[..|fs| - 1] == Fresh(front);
        DistinctOneMore(fs);
      }
    }
  }

  lemma DistinctOneMore(fs: seq<Fragment>)
    requires fs != [] && DistinctTsns(fs[..|fs| - 1]) && TsnOf(fs[|fs| - 1]) !in Tsns(fs[..|fs| - 1])
    ensures DistinctTsns(fs)
  {
    hide TsnOf;
    forall i | 0 <= i < |fs| - 1
      ensures TsnOf(fs[i]) != TsnOf(fs[|fs| - 1])
    {
      assert fs[i] in fs[..|fs| - 1];
    }
  }

  /**
   * The sender's side: messages cut into parts and sent with distinct TSNs per association, captured
   * in any interleaving of the streams and with any later duplicates, come back in order.
   */
  lemma SentComesBack(sent: seq<Fragment>, captured: seq<Fragment>, key: StreamKey, msgs: seq<seq<Bytes>>)
    requires DistinctTsns(sent) && WithDuplicates(sent, captured)
    requires forall m :: m in msgs ==> m != []
    requires Pieces(OnStream(sent, key)) == Wire(msgs)
    ensures Payloads(Delivered(Read(captured).msgs, key)) == Joined(msgs)
    ensures Buffered(Read(captured), key) == []
  {
    FreshIsSent(sent, captured);
    RoundTrip(captured, key, msgs);
  }

  function Endings(fs: seq<Fragment>): seq<Fragment> {
    if fs == [] then []
    else Endings(fs[..|fs| - 1]) + if fs[|fs| - 1].ending then [fs[|fs| - 1]] else []
  }

  /** Messages come out in the order of their ending fragments, with those fragments' time and addresses. */
  lemma {:induction false} StampedByEnding(fs: seq<Fragment>)
    ensures |Read(fs).msgs| == |Endings(Fresh(fs))|
    ensures forall i :: 0 <= i < |Read(fs).msgs| ==>
      var m, f := Read(fs).msgs[i], Endings(Fresh(fs))[i];
      m.ts == f.ts && (m.assoc, m.stream) == StreamOf(f) && m.srcIp == f.srcIp && m.dstIp == f.dstIp
  {
    if fs != [] {
      var n := |fs| - 1;
      StampedByEnding(fs[..n]);
      SeenIsTsns(fs[..n]);
      if TsnOf(fs[n]) in Tsns(fs[..n]) {
        assert Fresh(fs) == Fresh(fs[..n]);
      } else {
        assert Fresh(fs)[..|Fresh(fs)| - 1] == Fresh(fs[..n]);
      }
    }
  }

  /** A fragment that repeats the TSN of an earlier one of its association. */
  predicate Repeats(fs: seq<Fragment>, f: Fragment) {
    exists i :: 0 <= i < |fs| && fs[i].assoc == f.assoc && fs[i].tsn == f.tsn
  }

  /**
   * What one fragment does, by its fields: nothing if it repeats a TSN; otherwise its data go
   * to its association's stream, and an ending one gives all that is there as a message.
   */
  lemma ReadByFields(fs: seq<Fragment>, f: Fragment, key: StreamKey)
    ensures Repeats(fs, f) ==> Read(fs + [f]) == Read(fs)
    ensures !Repeats(fs, f) ==>
      var own := (f.assoc, f.stream);
      var data := Buffered(Read(fs), own) + f.data;
      && Buffered(Read(fs + [f]), key)
         == (if key != own then Buffered(Read(fs), key) else if f.ending then [] else data)
      && Read(fs + [f]).msgs
         == Read(fs).msgs
            + if f.ending then [N2Message(f.ts, f.assoc, f.stream, data, f.srcIp, f.dstIp)] else []
  {
    ReadOneMore(fs, f);
    SeenIsTsns(fs);
    if TsnOf(f) in Tsns(fs) {
      var g :| g in fs && TsnOf(g) == TsnOf(f);
      var i :| 0 <= i < |fs| && fs[i] == g;
    }
    if i :| 0 <= i < |fs| && fs[i].assoc == f.assoc && fs[i].tsn == f.tsn {
      assert TsnOf(fs[i]) in Tsns(fs);
    }
    hide Read;
    assert Read(fs).msgs + [] == Read(fs).msgs;
  }

  /** The layer is an NGAP data chunk with data, in a packet with ports. */
  predicate CarriesData(pk: Packet, layer: Layer) {
    pk.ports.Some? && layer.Data? && layer.ppid == 60 && layer.data != []
  }

  /** The fragment has the fields of its layer, and the time, ports and addresses of its packet. */
  predicate TakenFrom(f: Fragment, pk: Packet, layer: Layer) {
    && CarriesData(pk, layer) && f.ts == pk.time && f.assoc == pk.ports.value
    && f.tsn == layer.tsn && f.stream == layer.stream && f.data == layer.data && f.ending == layer.ending
    && f.srcIp == pk.srcIp && f.dstIp == pk.dstIp
  }

  predicate Before(a: (nat, nat), b: (nat, nat)) {
    a.0 < b.0 || (a.0 == b.0 && a.1 < b.1)
  }

  predicate InOrder(at: seq<(nat, nat)>) {
    forall x, y :: 0 <= x < y < |at| ==> Before(at[x], at[y])
  }

  predicate TakenThere(pks: seq<Packet>, f: Fragment, place: (nat, nat)) {
    && place.0 < |pks| && place.1 < |pks[place.0].layers|
    && TakenFrom(f, pks[place.0], pks[place.0].layers[place.1])
  }

  ghost predicate AllTaken(pks: seq<Packet>, at: seq<(nat, nat)>) {
    forall p: nat, l: nat :: p < |pks| && l < |pks[p].layers| && CarriesData(pks[p], pks[p].layers[l]) ==> (p, l) in at
  }

  /** The fragments are those of the layers at these places, in order. */
  ghost predicate TakenAt(pks: seq<Packet>, fs: seq<Fragment>, at: seq<(nat, nat)>) {
    && |at| == |fs| && InOrder(at) && AllTaken(pks, at)
    && forall x :: 0 <= x < |at| ==> TakenThere(pks, fs[x], at[x])
  }

  /** The places in one packet. */
  ghost predicate TakenIn(pk: Packet, layers: seq<Layer>, fs: seq<Fragment>, at: seq<nat>) {
    && |at| == |fs| && (forall x, y :: 0 <= x < y < |at| ==> at[x] < at[y])
    && (forall x :: 0 <= x < |at| ==> at[x] < |layers| && TakenFrom(fs[x], pk, layers[at[x]]))
    && (forall l: nat :: l < |layers| && CarriesData(pk, layers[l]) ==> l in at)
  }

  lemma {:induction false} LayersTaken(pk: Packet, layers: seq<Layer>) returns (at: seq<nat>)
    ensures TakenIn(pk, layers, OfLayers(pk, layers), at)
  {
    hide TakenIn, CarriesData;
    if layers == [] {
      at := [];
      NoneTaken(pk);
    } else {
      var n := |layers| - 1;
      at := LayersTaken(pk, layers[..n]);
      LayersOneMore(pk, layers, OfLayers(pk, layers[..n]), at);
      FragmentIsTaken(pk, layers[n]);
      if CarriesData(pk, layers[n]) {
        at := at + [n];
      } else {
        assert OfLayers(pk, layers[..n]) + [] == OfLayers(pk, layers[..n]);
      }
    }
  }

  lemma NoneTaken(pk: Packet)
    ensures TakenIn(pk, [], [], [])
  {
  }

  lemma FragmentIsTaken(pk: Packet, layer: Layer)
    ensures FragmentOf(pk, layer).Some? <==> CarriesData(pk, layer)
    ensures FragmentOf(pk, layer).Some? ==> TakenFrom(FragmentOf(pk, layer).value, pk, layer)
  {
  }

  lemma LayersOneMore(pk: Packet, layers: seq<Layer>, fs: seq<Fragment>, at: seq<nat>)
    requires layers != [] && TakenIn(pk, layers[..|layers| - 1], fs, at)
    ensures var n := |layers| - 1;
            && (!CarriesData(pk, layers[n]) ==> TakenIn(pk, layers, fs, at))
            && forall f :: CarriesData(pk, layers[n]) && TakenFrom(f, pk, layers[n]) ==>
                 TakenIn(pk, layers, fs + [f], at + [n])
  {
    hide TakenFrom, CarriesData;
    var n := |layers| - 1;
    assert forall l :: 0 <= l < n ==> layers[..n][l] == layers[l];
  }

  function Places(p: nat, at: seq<nat>): (r: seq<(nat, nat)>)
    ensures |r| == |at| && forall x :: 0 <= x < |at| ==> r[x] == (p, at[x])
  {
    seq(|at|, x requires 0 <= x < |at| => (p, at[x]))
  }

  /** Every layer with NGAP data is one fragment, in the order of packets and layers, and nothing else is. */
  lemma {:induction false} FragmentsByFields(pks: seq<Packet>) returns (at: seq<(nat, nat)>)
    ensures TakenAt(pks, Fragments(pks), at)
  {
    if pks == [] {
      at := [];
    } else {
      var n := |pks| - 1;
      var front := FragmentsByFields(pks[..n]);
      var last := LayersTaken(pks[n], pks[n].layers);
      at := front + Places(n, last);
      PlacesJoin(pks, Fragments(pks[..n]), front, OfLayers(pks[n], pks[n].layers), last);
    }
  }

  lemma PlacesJoin(pks: seq<Packet>, fs: seq<Fragment>, front: seq<(nat, nat)>, gs: seq<Fragment>, last: seq<nat>)
    requires pks != [] && TakenAt(pks[..|pks| - 1], fs, front)
    requires TakenIn(pks[|pks| - 1], pks[|pks| - 1].layers, gs, last)
    ensures TakenAt(pks, fs + gs, front + Places(|pks| - 1, last))
  {
    hide TakenFrom, CarriesData, InOrder, AllTaken, TakenThere;
    var n := |pks| - 1;
    var at := front + Places(n, last);
    forall x | 0 <= x < |front|
      ensures front[x].0 < n && TakenThere(pks, fs[x], front[x])
    {
      StillThere(pks, fs[x], front[x]);
    }
    forall x | 0 <= x < |last|
      ensures TakenThere(pks, gs[x], (n, last[x]))
    {
      ThereInLast(pks, gs[x], last[x]);
    }
    OrderJoins(front, n, last);
    AllTakenJoins(pks, front, last);
    assert forall x :: 0 <= x < |at| ==>
      at[x] == (if x < |front| then front[x] else (n, last[x - |front|]))
      && (fs + gs)[x] == if x < |front| then fs[x] else gs[x - |front|];
  }

  lemma StillThere(pks: seq<Packet>, f: Fragment, place: (nat, nat))
    requires pks != [] && TakenThere(pks[..|pks| - 1], f, place)
    ensures place.0 < |pks| - 1 && TakenThere(pks, f, place)
  {
    hide TakenFrom;
  }

  lemma ThereInLast(pks: seq<Packet>, f: Fragment, l: nat)
    requires pks != [] && l < |pks[|pks| - 1].layers| && TakenFrom(f, pks[|pks| - 1], pks[|pks| - 1].layers[l])
    ensures TakenThere(pks, f, (|pks| - 1, l))
  {
    hide TakenFrom;
  }

  lemma OrderJoins(front: seq<(nat, nat)>, n: nat, last: seq<nat>)
    requires InOrder(front) && forall x :: 0 <= x < |front| ==> front[x].0 < n
    requires forall x, y :: 0 <= x < y < |last| ==> last[x] < last[y]
    ensures InOrder(front + Places(n, last))
  {
  }

  lemma AllTakenJoins(pks: seq<Packet>, front: seq<(nat, nat)>, last: seq<nat>)
    requires pks != [] && AllTaken(pks[..|pks| - 1], front)
    requires var pk := pks[|pks| - 1];
             forall l: nat :: l < |pk.layers| && CarriesData(pk, pk.layers[l]) ==> l in last
    ensures AllTaken(pks, front + Places(|pks| - 1, last))
  {
    hide CarriesData;
    var n := |pks| - 1;
    forall p: nat, l: nat | p < |pks| && l < |pks[p].layers| && CarriesData(pks[p], pks[p].layers[l])
      ensures (p, l) in front + Places(n, last)
    {
      if p == n {
        var x :| 0 <= x < |last| && last[x] == l;
        assert Places(n, last)[x] == (p, l);
      } else {
        assert pks[..n][p] == pks[p];
      }
    }
  }
}

/** SCTP DATA reassembly: fragments to N2 messages, retransmissions dropped by TSN. */
module Reassembly {
  import opened Prelude

  type Bytes = seq<int>

  const NGAP_PPID := 60

  /** A layer below the SCTP header: a DATA chunk, or something else. */
  datatype Layer = Data(ppid: int, data: Bytes, tsn: int, stream: int, ending: bool) | Other

  /** A captured packet; without an SCTP header it is skipped. */
  datatype Packet = Packet(
    time: real, ports: Option<(int, int)>, layers: seq<Layer>, srcIp: Option<string>, dstIp: Option<string>)

  datatype N2Message = N2Message(
    ts: real, assoc: (int, int), stream: int, data: Bytes, srcIp: Option<string>, dstIp: Option<string>)

  /** An NGAP fragment with what it takes from its packet. */
  datatype Fragment = Fragment(
    ts: real, assoc: (int, int), tsn: int, stream: int, data: Bytes, ending: bool,
    srcIp: Option<string>, dstIp: Option<string>)

  type StreamKey = ((int, int), int)
  type TsnKey = ((int, int), int)

  function StreamOf(f: Fragment): StreamKey {
    (f.assoc, f.stream)
  }

  function TsnOf(f: Fragment): TsnKey {
    (f.assoc, f.tsn)
  }

  /** The fragments of a layer: an NGAP DATA chunk with data is one. */
  function FragmentOf(pk: Packet, layer: Layer): Option<Fragment> {
    if pk.ports.Some? && layer.Data? && layer.ppid == NGAP_PPID && layer.data != [] then
      Some(Fragment(pk.time, pk.ports.value, layer.tsn, layer.stream, layer.data, layer.ending, pk.srcIp, pk.dstIp))
    else None
  }

  function OfLayers(pk: Packet, layers: seq<Layer>): seq<Fragment> {
    if layers == [] then []
    else
      var last := FragmentOf(pk, layers[|layers| - 1]);
      OfLayers(pk, layers[..|layers| - 1]) + if last.Some? then [last.value] else []
  }

  /** All fragments of a capture, in order. */
  function Fragments(pks: seq<Packet>): seq<Fragment> {
    if pks == [] then []
    else Fragments(pks[..|pks| - 1]) + OfLayers(pks[|pks| - 1], pks[|pks| - 1].layers)
  }

  /** The state of the reader: what is buffered per stream, the TSNs seen, the messages out. */
  datatype Reader = Reader(buffers: map<StreamKey, Bytes>, seen: set<TsnKey>, msgs: seq<N2Message>)

  function Buffered(r: Reader, key: StreamKey): Bytes {
    if key in r.buffers then r.buffers[key] else []
  }

  function Accept(r: Reader, f: Fragment): Reader {
    if TsnOf(f) in r.seen then r
    else
      var data := Buffered(r, StreamOf(f)) + f.data;
      if f.ending then
        Reader(r.buffers - {StreamOf(f)}, r.seen + {TsnOf(f)},
               r.msgs + [N2Message(f.ts, f.assoc, f.stream, data, f.srcIp, f.dstIp)])
      else r.(buffers := r.buffers[StreamOf(f) := data], seen := r.seen + {TsnOf(f)})
  }

  function Read(fs: seq<Fragment>): Reader {
    if fs == [] then Reader(map[], {}, []) else Accept(Read(fs[..|fs| - 1]), fs[|fs| - 1])
  }

  /** One chunk: its TSN is remembered, its data buffered, and an ending one completes a message. */
  method TakeChunk(f: Fragment, r: Reader) returns (r': Reader)
    ensures r' == Accept(r, f)
  {
    r' := r;
    if TsnOf(f) !in r.seen {
      var key := StreamOf(f);
      var buf := (if key in r.buffers then r.buffers[key] else []) + f.data;
      r' := r'.(seen := r.seen + {TsnOf(f)}, buffers := r.buffers[key := buf]);
      if f.ending {
        assert r.buffers[key := buf] - {key} == r.buffers - {key};
        r' := r'.(msgs := r.msgs + [N2Message(f.ts, f.assoc, f.stream, buf, f.srcIp, f.dstIp)],
                  buffers := r'.buffers - {key});
      }
    }
  }

  /** The chunks stacked in one packet. */
  method TakePacket(pk: Packet, r: Reader, ghost before: seq<Fragment>) returns (r': Reader)
    requires r == Read(before)
    ensures r' == Read(before + OfLayers(pk, pk.layers))
  {
    hide Read, Accept;
    r' := r;
    assert before + [] == before;
    if pk.ports.None? {
      NoFragments(pk, pk.layers);
      return;
    }
    for j := 0 to |pk.layers|
      invariant r' == Read(before + OfLayers(pk, pk.layers[..j]))
    {
      assert pk.layers[..j + 1][..j] == pk.layers[..j];
      ghost var sofar := before + OfLayers(pk, pk.layers[..j]);
      var f := FragmentOf(pk, pk.layers[j]);
      if f.Some? {
        assert before + OfLayers(pk, pk.layers[..j + 1]) == sofar + [f.value];
        ReadOneMore(sofar, f.value);
        r' := TakeChunk(f.value, r');
      } else {
        assert OfLayers(pk, pk.layers[..j + 1]) == OfLayers(pk, pk.layers[..j]);
      }
    }
    assert pk.layers[..|pk.layers|] == pk.layers;
  }

  /** The whole reader: packets, then the layers of each, then the buffer of the layer's stream. */
  method ReadCapture(pks: seq<Packet>) returns (msgs: seq<N2Message>)
    ensures msgs == Read(Fragments(pks)).msgs
  {
    var r := Reader(map[], {}, []);
    for i := 0 to |pks|
      invariant r == Read(Fragments(pks[..i]))
    {
      assert pks[..i + 1][..i] == pks[..i];
      r := TakePacket(pks[i], r, Fragments(pks[..i]));
    }
    assert pks[..|pks|] == pks;
    msgs := r.msgs;
  }

  lemma ReadOneMore(fs: seq<Fragment>, f: Fragment)
    ensures Read(fs + [f]) == Accept(Read(fs), f)
  {
    assert (fs + [f])[..|fs|] == fs;
  }

  lemma {:induction false} NoFragments(pk: Packet, layers: seq<Layer>)
    requires pk.ports.None?
    ensures OfLayers(pk, layers) == []
  {
    if layers != [] {
      NoFragments(pk, layers[..|layers| - 1]);
    }
  }
}

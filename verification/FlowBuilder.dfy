/** The one-pass flow builder: mutable flows, and dictionaries keyed by flow id. */
module FlowBuilder {
  import opened Prelude
  import opened FlowModel
  import opened FlowFields

  class Flow {
    const flowId: nat
    const assoc: seq<int>
    const ranUeId: Option<int>
    const partial: bool
    var amfUeId: Option<int>
    var messages: seq<Event>
    var procedures: seq<Procedure>
    var ciphAlgo: Option<int>

    constructor (flowId: nat, ng: NgapMsg)
      ensures this.flowId == flowId && partial == (ng.name != Some(INITIAL_UE))
      ensures ranUeId == ng.ranUeId && amfUeId == ng.amfUeId
      ensures assoc == if ng.assoc.0 <= ng.assoc.1 then [ng.assoc.0, ng.assoc.1] else [ng.assoc.1, ng.assoc.0]
      ensures messages == [] && procedures == [] && ciphAlgo == None
    {
      this.flowId := flowId;
      assoc := if ng.assoc.0 <= ng.assoc.1 then [ng.assoc.0, ng.assoc.1] else [ng.assoc.1, ng.assoc.0];
      ranUeId, amfUeId, partial := ng.ranUeId, ng.amfUeId, ng.name != Some(INITIAL_UE);
      messages, procedures, ciphAlgo := [], [], None;
    }
  }

  /** The flow carries its key: the association's ports in order, and the RAN id. */
  predicate IsOf(f: Flow, key: Key) {
    |f.assoc| == 2 && f.assoc[0] <= f.assoc[1] && {f.assoc[0], f.assoc[1]} == key.0 && f.ranUeId == key.1
  }

  class Builder {
    const decode: NasDecoder
    var flows: map<Key, Flow>
    var order: seq<Flow>
    var unassociated: seq<NgapMsg>
    var nextId: nat
    var openProcs: map<(nat, string), Procedure>
    var ngapStarts: map<(nat, Kind), seq<Procedure>>

    constructor (decode: NasDecoder)
      ensures this.decode == decode && Valid([]) && order == []
    {
      this.decode := decode;
      flows, order, unassociated, nextId := map[], [], [], 1;
      openProcs, ngapStarts := map[], map[];
    }

    /** What the dictionaries hold for one flow and kind. */
    function PendingOf(id: nat, k: Kind): Pending
      reads this`openProcs, this`ngapStarts
    {
      Pending(if (id, NasStartName(k)) in openProcs then Some(openProcs[(id, NasStartName(k))]) else None,
              if (id, k) in ngapStarts then ngapStarts[(id, k)] else [])
    }

    /** One flow's whole state: its object and its entries in the dictionaries. */
    function View(f: Flow): FlowState
      reads this`openProcs, this`ngapStarts, f
    {
      FlowState(f.amfUeId, f.partial, f.messages, f.procedures, f.ciphAlgo,
                PendingOf(f.flowId, Registration), PendingOf(f.flowId, PduSession))
    }

    /** Only known flows have entries. */
    ghost predicate KnownIds()
      reads this`openProcs, this`ngapStarts, this`nextId
    {
      && (forall x :: x in openProcs ==> x.0 < nextId)
      && (forall x :: x in ngapStarts ==> x.0 < nextId)
    }

    /** The flow objects and their ids follow the keys `ks`. */
    ghost predicate Indexed(ks: seq<Key>)
      reads this`flows, this`order, this`nextId
    {
      && |order| == |ks| && nextId == |order| + 1
      && (forall key :: key in flows <==> key in ks)
      && (forall i :: 0 <= i < |ks| ==>
            ks[i] in flows && flows[ks[i]] == order[i] && order[i].flowId == i + 1 && IsOf(order[i], ks[i]))
    }

    /** The flows have the states `views`, in order. */
    ghost predicate Shows(views: seq<FlowState>)
      reads this`order, this`openProcs, this`ngapStarts, order
    {
      |views| == |order| && forall i :: 0 <= i < |order| ==> View(order[i]) == views[i]
    }

    /** After `seen`, every flow is what its own messages make of it. */
    ghost predicate Valid(seen: seq<NgapMsg>)
      reads this, order
    {
      && Indexed(Keys(seen)) && KnownIds() && unassociated == Unassociated(seen)
      && Shows(Flows(decode, seen))
    }

    /** A first message opens a flow with the next id. */
    method OpenFlow(ng: NgapMsg, ghost ks: seq<Key>) returns (f: Flow)
      requires Indexed(ks) && KnownIds() && KeyOf(ng) !in ks
      modifies this`flows, this`order, this`nextId
      ensures Indexed(ks + [KeyOf(ng)]) && KnownIds()
      ensures fresh(f) && View(f) == NewFlow(ng) && order == old(order) + [f]
    {
      f := new Flow(nextId, ng);
      assert View(f) == NewFlow(ng) && IsOf(f, KeyOf(ng));
      hide KeyOf, IsOf;
      nextId := nextId + 1;
      flows := flows[KeyOf(ng) := f];
      order := order + [f];
    }

    method FlowFor(ng: NgapMsg, ghost ks: seq<Key>, ghost views: seq<FlowState>) returns (f: Flow, ghost j: nat)
      requires Indexed(ks) && Associated(ng) && KnownIds() && Shows(views)
      modifies this`flows, this`order, this`nextId
      ensures Indexed(AddKey(ks, ng)) && KnownIds()
      ensures j < |order| == |AddKey(ks, ng)| && order[j] == f && AddKey(ks, ng)[j] == KeyOf(ng) && IsOf(f, KeyOf(ng))
      ensures Shows(if KeyOf(ng) in ks then views else views + [NewFlow(ng)])
      ensures order == old(order) || (fresh(f) && order == old(order) + [f])
    {
      hide KeyOf, NewFlow, View, KnownIds, IsOf;
      if KeyOf(ng) in flows {
        f := flows[KeyOf(ng)];
        j :| 0 <= j < |ks| && ks[j] == KeyOf(ng);
        return;
      }
      f := OpenFlow(ng, ks);
      j := |ks|;
    }

    method Receive(f: Flow, ng: NgapMsg) returns (nas: Option<NasMsg>)
      modifies f`amfUeId, f`messages, f`ciphAlgo
      ensures View(f) == FlowModel.Receive(decode, old(View(f)), ng)
      ensures nas == NasOf(decode, ng, old(f.ciphAlgo))
    {
      if f.amfUeId.None? && ng.amfUeId.Some? {
        f.amfUeId := ng.amfUeId;
      }
      nas := NasOf(decode, ng, f.ciphAlgo);
      if nas.Some? && f.ciphAlgo.None? && nas.value.ciphAlgo.Some? {
        f.ciphAlgo := nas.value.ciphAlgo;
      }
      f.messages := f.messages + [(ng, nas)];
    }

    method Release(f: Flow, ng: NgapMsg)
      requires KnownIds()
      modifies this`ngapStarts
      ensures KnownIds() && View(f) == FlowModel.Release(old(View(f)), ng)
      ensures forall id, k :: id != f.flowId ==> PendingOf(id, k) == old(PendingOf(id, k))
    {
      if NgapRole(ng.name).Drops? {
        ngapStarts := ngapStarts - {(f.flowId, Registration), (f.flowId, PduSession)};
      }
    }

    method NasStep(f: Flow, ng: NgapMsg, nas: Option<NasMsg>)
      requires KnownIds() && f.flowId < nextId
      modifies this`openProcs, f`procedures
      ensures KnownIds() && View(f) == FlowModel.NasStep(old(View(f)), ng, nas)
      ensures forall id, k :: id != f.flowId ==> PendingOf(id, k) == old(PendingOf(id, k))
    {
      hide NasRoleOf, NasName;
      match NasRole(nas)
      case Starts(kind) =>
        openProcs := openProcs[(f.flowId, NasStartName(kind)) := Started(kind, ng.ts, NasName(nas).value)];
      case Ends(kind, verdict) =>
        var pkey := (f.flowId, NasStartName(kind));
        if pkey in openProcs {
          var p := openProcs[pkey];
          openProcs := openProcs - {pkey};
          f.procedures := f.procedures + [Closed(p, ng.ts, NasName(nas).value, verdict)];
        }
      case _ =>
    }

    method CompleteNgap(f: Flow, kind: Kind, endName: string, verdict: Verdict, ts: real)
      requires KnownIds() && f.flowId < nextId
      modifies this`ngapStarts, f`procedures
      ensures KnownIds()
      ensures PendingOf(f.flowId, kind).open == old(PendingOf(f.flowId, kind)).open
      ensures var q := old(PendingOf(f.flowId, kind).starts);
              if HasKind(old(f.procedures), kind)
              then PendingOf(f.flowId, kind).starts == [] && f.procedures == old(f.procedures)
              else if q == [] then PendingOf(f.flowId, kind).starts == [] && f.procedures == old(f.procedures)
              else PendingOf(f.flowId, kind).starts == q[1..]
                   && f.procedures == old(f.procedures) + [Closed(q[0], ts, endName, verdict)]
      ensures forall id, k :: id != f.flowId || k != kind ==> PendingOf(id, k) == old(PendingOf(id, k))
    {
      if HasKind(f.procedures, kind) {
        ngapStarts := ngapStarts - {(f.flowId, kind)};
        return;
      }
      var starts := if (f.flowId, kind) in ngapStarts then ngapStarts[(f.flowId, kind)] else [];
      if starts == [] {
        return;
      }
      var p := starts[0];
      ngapStarts := ngapStarts[(f.flowId, kind) := starts[1..]];
      f.procedures := f.procedures + [Closed(p, ts, endName, verdict)];
    }

    method NgapStep(f: Flow, ng: NgapMsg)
      requires KnownIds() && f.flowId < nextId
      modifies this`ngapStarts, f`procedures
      ensures KnownIds() && View(f) == FlowModel.NgapStep(old(View(f)), ng)
      ensures forall id, k :: id != f.flowId ==> PendingOf(id, k) == old(PendingOf(id, k))
    {
      hide NgapRole, HasKind;
      match NgapRole(ng.name)
      case Starts(kind) =>
        var starts := if (f.flowId, kind) in ngapStarts then ngapStarts[(f.flowId, kind)] else [];
        ngapStarts := ngapStarts[(f.flowId, kind) := starts + [Started(kind, ng.ts, ng.name.value)]];
      case Ends(kind, verdict) =>
        CompleteNgap(f, kind, ng.name.value, verdict, ng.ts);
      case _ =>
    }

    /** All that one message does to its flow. */
    method Advance(f: Flow, ng: NgapMsg)
      requires KnownIds() && f.flowId < nextId
      modifies this`openProcs, this`ngapStarts
      modifies f`amfUeId, f`messages, f`ciphAlgo, f`procedures
      ensures KnownIds() && View(f) == StepFlow(decode, old(View(f)), ng)
      ensures forall id, k :: id != f.flowId ==> PendingOf(id, k) == old(PendingOf(id, k))
    {
      var nas := Receive(f, ng);
      Release(f, ng);
      NasStep(f, ng, nas);
      NgapStep(f, ng);
    }

    /** Advances the `j`th flow; the others stay as they are. */
    method AdvanceOne(f: Flow, ng: NgapMsg, ghost ks: seq<Key>, ghost views: seq<FlowState>, ghost j: nat)
      requires Indexed(ks) && KnownIds() && Shows(views) && j < |order| && order[j] == f
      modifies this`openProcs, this`ngapStarts
      modifies f`amfUeId, f`messages, f`ciphAlgo, f`procedures
      ensures Indexed(ks) && KnownIds() && Shows(views[j := StepFlow(decode, views[j], ng)])
    {
      hide StepFlow, KnownIds, PendingOf;
      Advance(f, ng);
      forall i | 0 <= i < |order| && i != j
        ensures View(order[i]) == views[i]
      {
        assert order[i].flowId == i + 1 && flows[ks[i]] == order[i];
      }
    }

    method Process(ng: NgapMsg, ghost seen: seq<NgapMsg>)
      requires Valid(seen)
      modifies this, order
      ensures Valid(seen + [ng]) && (order == old(order) || exists f :: fresh(f) && order == old(order) + [f])
    {
      hide Keys, Unassociated, Flows, StepFlow, NewFlow, KeyOf, KnownIds, Shows, Indexed;
      OneMore(seen, ng);
      if !Associated(ng) {
        OneMoreOutside(decode, seen, ng);
        unassociated := unassociated + [ng];
        return;
      }
      ghost var views := Flows(decode, seen);
      var f; ghost var j;
      f, j := FlowFor(ng, Keys(seen), views);
      OneMoreFlow(decode, seen, ng, j);
      AdvanceOne(f, ng, AddKey(Keys(seen), ng), WithNew(decode, seen, ng), j);
    }
  }

  /** The flow's fields and procedures are those that its messages tell. */
  ghost predicate Told(decode: NasDecoder, f: Flow)
    reads f
  {
    FieldsAre(decode, f.messages, f.ciphAlgo, f.amfUeId, f.partial) && AllRun(f.messages, f.procedures)
  }

  lemma FlowsAreTold(b: Builder, ms: seq<NgapMsg>)
    requires b.Valid(ms)
    ensures forall f :: f in b.order ==> Told(b.decode, f)
  {
    hide FlowOf, OnKey, Unassociated, Builder.KnownIds, FieldsAre, AllRun;
    forall i | 0 <= i < |b.order|
      ensures Told(b.decode, b.order[i])
    {
      var own := OnKey(ms, Keys(ms)[i]);
      assert Keys(ms)[i] in Keys(ms);
      assert b.View(b.order[i]) == FlowOf(b.decode, own);
      FlowFieldsAre(b.decode, own);
      ProceduresRun(b.decode, own);
    }
  }

  /** Groups the messages of a capture into flows. */
  method BuildFlows(decode: NasDecoder, msgs: seq<NgapMsg>) returns (b: Builder)
    ensures b.decode == decode && b.Valid(msgs) && forall f :: f in b.order ==> Told(decode, f)
  {
    hide Builder.Valid, Told;
    b := new Builder(decode);
    assert msgs[..0] == [];
    for i := 0 to |msgs|
      invariant fresh(b) && fresh(b.order) && b.decode == decode && b.Valid(msgs[..i])
    {
      assert msgs[..i + 1] == msgs[..i] + [msgs[i]];
      b.Process(msgs[i], msgs[..i]);
    }
    assert msgs[..|msgs|] == msgs;
    FlowsAreTold(b, msgs);
  }
}

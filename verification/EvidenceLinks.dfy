/** Linking evidence items that alone share a key value. */
module EvidenceLinks {
  import opened Prelude
  import opened Sorting
  import opened Text

  /** An evidence item; its keys in the order of its dictionary. */
  datatype Item<V> = Item(ts: real, keys: seq<(string, Option<V>)>)

  type KeyValue<V> = (string, V)

  datatype Link<V> = Link(a: nat, b: nat, key: string, value: V)

  datatype Window = Window(start: real, end: real)

  /** No dictionary has a key twice. */
  predicate OneEach<V>(item: Item<V>) {
    forall i, j :: 0 <= i < j < |item.keys| ==> item.keys[i].0 != item.keys[j].0
  }

  predicate Has<V(==)>(item: Item<V>, kv: KeyValue<V>) {
    (kv.0, Some(kv.1)) in item.keys
  }

  /** These two items have the key value, and no other item has. */
  ghost predicate Only<V>(evidence: seq<Item<V>>, kv: KeyValue<V>, a: nat, b: nat) {
    && a < b < |evidence|
    && forall i :: 0 <= i < |evidence| ==> (Has(evidence[i], kv) <==> i == a || i == b)
  }

  ghost predicate Disagree<V(!new)>(x: Item<V>, y: Item<V>) {
    exists k: string, v: V, w: V :: (k, Some(v)) in x.keys && (k, Some(w)) in y.keys && v != w
  }

  predicate InWindow<V>(item: Item<V>, window: Window) {
    window.start <= item.ts <= window.end
  }

  ghost predicate Eligible<V(!new)>(evidence: seq<Item<V>>, window: Window, a: nat, b: nat)
    requires a < |evidence| && b < |evidence|
  {
    InWindow(evidence[a], window) && InWindow(evidence[b], window) && !Disagree(evidence[a], evidence[b])
  }

  /** The indexes of the items with the key value. */
  ghost function Holders<V>(evidence: seq<Item<V>>, kv: KeyValue<V>): seq<nat> {
    if evidence == [] then []
    else
      var n := |evidence| - 1;
      Holders(evidence[..n], kv) + if Has(evidence[n], kv) then [n] else []
  }

  lemma {:induction false} HoldersHold<V>(evidence: seq<Item<V>>, kv: KeyValue<V>)
    ensures forall i :: i in Holders(evidence, kv) <==> 0 <= i < |evidence| && Has(evidence[i], kv)
    ensures forall p, q :: 0 <= p < q < |Holders(evidence, kv)| ==> Holders(evidence, kv)[p] < Holders(evidence, kv)[q]
  {
    if evidence != [] {
      var n := |evidence| - 1;
      HoldersHold(evidence[..n], kv);
      var r := Holders(evidence[..n], kv);
      forall p | 0 <= p < |r|
        ensures r[p] < n
      {
        assert r[p] in r;
      }
    }
  }

  lemma HoldersOfTwo<V(!new)>(evidence: seq<Item<V>>, kv: KeyValue<V>, a: nat, b: nat)
    ensures Only(evidence, kv, a, b) <==> Holders(evidence, kv) == [a, b]
  {
    hide Holders, Has;
    HoldersHold(evidence, kv);
    var r := Holders(evidence, kv);
    if Only(evidence, kv, a, b) {
      OnlyTwo(r, a, b);
    }
    if r == [a, b] {
      assert r[0] < r[1];
      assert a in r && b in r;
    }
  }

  lemma Three(r: seq<nat>)
    requires forall p, q :: 0 <= p < q < |r| ==> r[p] < r[q]
    ensures |r| > 2 ==> exists x, y, z :: x in r && y in r && z in r && x < y < z
  {
    if |r| > 2 {
      assert r[0] in r && r[1] in r && r[2] in r && r[0] < r[1] < r[2];
    }
  }

  lemma OnlyTwo(r: seq<nat>, a: nat, b: nat)
    requires a < b && (forall i: nat :: i in r <==> i == a || i == b)
    requires forall p, q :: 0 <= p < q < |r| ==> r[p] < r[q]
    ensures r == [a, b]
  {
    assert a in r && b in r;
    assert forall p :: 0 <= p < |r| ==> r[p] in r;
    Three(r);
  }

  /** Where a key value comes first: item, then place among its keys. */
  ghost predicate FirstAt<V>(evidence: seq<Item<V>>, kv: KeyValue<V>, at: (nat, nat)) {
    && at.0 < |evidence| && at.1 < |evidence[at.0].keys|
    && evidence[at.0].keys[at.1] == (kv.0, Some(kv.1))
    && forall i :: 0 <= i < at.0 ==> !Has(evidence[i], kv)
  }

  predicate Earlier(x: (nat, nat), y: (nat, nat)) {
    x.0 < y.0 || (x.0 == y.0 && x.1 < y.1)
  }

  /** The keys in insertion order and the groups of a dictionary from key values to their holders. */
  ghost predicate Grouped<V(!new)>(evidence: seq<Item<V>>, order: seq<KeyValue<V>>,
                                   groups: map<KeyValue<V>, seq<nat>>)
  {
    && (forall kv :: kv in groups <==> kv in order)
    && (forall kv :: kv in groups <==> Holders(evidence, kv) != [])
    && (forall kv :: kv in groups ==> groups[kv] == Holders(evidence, kv))
  }

  /** The insertion order is that of the places where the key values come first. */
  ghost predicate InOrder<V>(evidence: seq<Item<V>>, order: seq<KeyValue<V>>, at: seq<(nat, nat)>) {
    && |at| == |order|
    && (forall s :: 0 <= s < |order| ==> FirstAt(evidence, order[s], at[s]))
    && (forall s, t :: 0 <= s < t < |at| ==> Earlier(at[s], at[t]))
  }

  lemma HoldersGrow<V>(before: seq<Item<V>>, ts: real, keys: seq<(string, Option<V>)>, k: string, v: Option<V>,
                       kv: KeyValue<V>)
    requires forall i :: 0 <= i < |keys| ==> keys[i].0 != k
    ensures Holders(before + [Item(ts, keys + [(k, v)])], kv)
            == Holders(before + [Item(ts, keys)], kv) + if k == kv.0 && v == Some(kv.1) then [|before|] else []
  {
    hide Holders;
    var x, y := Item(ts, keys), Item(ts, keys + [(k, v)]);
    HoldersOneMore(before, x, kv);
    HoldersOneMore(before, y, kv);
    assert Has(y, kv) <==> Has(x, kv) || (k == kv.0 && v == Some(kv.1));
    assert Has(x, kv) ==> kv.0 != k;
  }

  lemma HoldersOneMore<V>(before: seq<Item<V>>, x: Item<V>, kv: KeyValue<V>)
    ensures Holders(before + [x], kv) == Holders(before, kv) + if Has(x, kv) then [|before|] else []
  {
    hide Has;
    assert (before + [x])[..|before|] == before;
  }

  lemma FirstsStay<V>(before: seq<Item<V>>, ts: real, keys: seq<(string, Option<V>)>, k: string, v: Option<V>,
                      order: seq<KeyValue<V>>, at: seq<(nat, nat)>)
    requires InOrder(before + [Item(ts, keys)], order, at)
    ensures InOrder(before + [Item(ts, keys + [(k, v)])], order, at)
  {
    var was, now := before + [Item(ts, keys)], before + [Item(ts, keys + [(k, v)])];
    forall s | 0 <= s < |order|
      ensures FirstAt(now, order[s], at[s])
    {
      assert FirstAt(was, order[s], at[s]);
      assert forall i :: 0 <= i < |before| ==> was[i] == now[i];
      assert at[s].0 == |before| ==> now[at[s].0].keys[at[s].1] == keys[at[s].1];
    }
  }

  lemma NewIsFirst<V(!new)>(before: seq<Item<V>>, ts: real, keys: seq<(string, Option<V>)>, kv: KeyValue<V>)
    requires Holders(before + [Item(ts, keys)], kv) == []
    ensures FirstAt(before + [Item(ts, keys + [(kv.0, Some(kv.1))])], kv, (|before|, |keys|))
  {
    hide Holders;
    var was := before + [Item(ts, keys)];
    HoldersHold(was, kv);
    forall i | 0 <= i < |before|
      ensures !Has(before[i], kv)
    {
      assert was[i] == before[i] && i !in Holders(was, kv);
    }
  }

  /** One key of one item joins its group, or starts one. */
  method AddKey<V(==,!new)>(ghost before: seq<Item<V>>, ghost ts: real, ghost keys: seq<(string, Option<V>)>,
                            index: nat, k: string, v: Option<V>,
                            order0: seq<KeyValue<V>>, groups0: map<KeyValue<V>, seq<nat>>, ghost at0: seq<(nat, nat)>)
    returns (order: seq<KeyValue<V>>, groups: map<KeyValue<V>, seq<nat>>, ghost at: seq<(nat, nat)>)
    requires index == |before| && forall i :: 0 <= i < |keys| ==> keys[i].0 != k
    requires Grouped(before + [Item(ts, keys)], order0, groups0) && InOrder(before + [Item(ts, keys)], order0, at0)
    requires forall s :: 0 <= s < |at0| ==> Earlier(at0[s], (index, |keys|))
    ensures var evidence := before + [Item(ts, keys + [(k, v)])];
            Grouped(evidence, order, groups) && InOrder(evidence, order, at)
    ensures forall s :: 0 <= s < |at| ==> Earlier(at[s], (index, |keys| + 1))
  {
    hide Holders, FirstAt;
    order, groups, at := order0, groups0, at0;
    ghost var was, now := before + [Item(ts, keys)], before + [Item(ts, keys + [(k, v)])];
    forall kv
      ensures Holders(now, kv) == Holders(was, kv) + if k == kv.0 && v == Some(kv.1) then [|before|] else []
    {
      HoldersGrow(before, ts, keys, k, v, kv);
    }
    FirstsStay(before, ts, keys, k, v, order, at);
    if v.Some? {
      var kv := (k, v.value);
      if kv in groups {
        groups := groups[kv := groups[kv] + [index]];
      } else {
        NewIsFirst(before, ts, keys, kv);
        order := order + [kv];
        groups := groups[kv := [index]];
        at := at + [(index, |keys|)];
      }
    }
  }

  lemma NoKeysYet<V(!new)>(before: seq<Item<V>>, ts: real, order: seq<KeyValue<V>>, groups: map<KeyValue<V>, seq<nat>>,
                           at: seq<(nat, nat)>)
    requires Grouped(before, order, groups) && InOrder(before, order, at)
    ensures Grouped(before + [Item(ts, [])], order, groups) && InOrder(before + [Item(ts, [])], order, at)
  {
    var now := before + [Item(ts, [])];
    assert now[..|before|] == before;
    forall kv
      ensures Holders(now, kv) == Holders(before, kv)
    {
      assert !Has(Item(ts, []), kv);
    }
    forall s | 0 <= s < |order|
      ensures FirstAt(now, order[s], at[s])
    {
      assert FirstAt(before, order[s], at[s]);
      assert forall i :: 0 <= i < |before| ==> before[i] == now[i];
    }
  }

  method AddItem<V(==,!new)>(ghost before: seq<Item<V>>, index: nat, item: Item<V>,
                             order0: seq<KeyValue<V>>, groups0: map<KeyValue<V>, seq<nat>>, ghost at0: seq<(nat, nat)>)
    returns (order: seq<KeyValue<V>>, groups: map<KeyValue<V>, seq<nat>>, ghost at: seq<(nat, nat)>)
    requires index == |before| && OneEach(item)
    requires Grouped(before, order0, groups0) && InOrder(before, order0, at0)
    requires forall s :: 0 <= s < |at0| ==> Earlier(at0[s], (index, 0))
    ensures Grouped(before + [item], order, groups) && InOrder(before + [item], order, at)
    ensures forall s :: 0 <= s < |at| ==> Earlier(at[s], (index + 1, 0))
  {
    hide Grouped, InOrder, FirstAt;
    order, groups, at := order0, groups0, at0;
    NoKeysYet(before, item.ts, order, groups, at);
    assert item.keys[..0] == [];
    for j := 0 to |item.keys|
      invariant Grouped(before + [Item(item.ts, item.keys[..j])], order, groups)
      invariant InOrder(before + [Item(item.ts, item.keys[..j])], order, at)
      invariant forall s :: 0 <= s < |at| ==> Earlier(at[s], (index, j))
    {
      assert item.keys[..j + 1] == item.keys[..j] + [item.keys[j]];
      order, groups, at := AddKey(before, item.ts, item.keys[..j], index, item.keys[j].0, item.keys[j].1,
                                  order, groups, at);
    }
    assert Item(item.ts, item.keys[..|item.keys|]) == item;
  }

  method GroupByValue<V(==,!new)>(evidence: seq<Item<V>>)
    returns (order: seq<KeyValue<V>>, groups: map<KeyValue<V>, seq<nat>>, ghost at: seq<(nat, nat)>)
    requires forall i :: 0 <= i < |evidence| ==> OneEach(evidence[i])
    ensures Grouped(evidence, order, groups) && InOrder(evidence, order, at)
  {
    order, groups, at := [], map[], [];
    for i := 0 to |evidence|
      invariant Grouped(evidence[..i], order, groups) && InOrder(evidence[..i], order, at)
      invariant forall s :: 0 <= s < |at| ==> Earlier(at[s], (i, 0))
    {
      hide Grouped, InOrder;
      assert evidence[..i + 1] == evidence[..i] + [evidence[i]];
      order, groups, at := AddItem(evidence[..i], i, evidence[i], order, groups, at);
    }
    assert evidence[..|evidence|] == evidence;
  }

  function Lookup<V>(keys: seq<(string, Option<V>)>, k: string): Option<Option<V>> {
    if keys == [] then None
    else
      var n := |keys| - 1;
      if keys[n].0 == k then Some(keys[n].1) else Lookup(keys[..n], k)
  }

  lemma {:induction false} LookupFinds<V>(item: Item<V>, k: string)
    requires OneEach(item)
    decreases |item.keys|
    ensures Lookup(item.keys, k).None? ==> forall v :: (k, v) !in item.keys
    ensures Lookup(item.keys, k).Some? ==> forall v :: (k, v) in item.keys <==> v == Lookup(item.keys, k).value
  {
    if item.keys != [] {
      var n := |item.keys| - 1;
      LookupFinds(item.(keys := item.keys[..n]), k);
      assert item.keys == item.keys[..n] + [item.keys[n]];
      assert forall v :: (k, v) in item.keys <==> (k, v) in item.keys[..n] || item.keys[n] == (k, v);
    }
  }

  method Disagrees<V(==,!new)>(x: Item<V>, y: Item<V>) returns (r: bool)
    requires OneEach(x) && OneEach(y)
    ensures r <==> Disagree(x, y)
  {
    r := false;
    for i := 0 to |x.keys|
      invariant r <==> exists j: nat, w: V :: j < i && x.keys[j].1.Some? && (x.keys[j].0, Some(w)) in y.keys
                                               && x.keys[j].1 != Some(w)
    {
      LookupFinds(y, x.keys[i].0);
      var other := Lookup(y.keys, x.keys[i].0);
      if other.Some? && x.keys[i].1.Some? && other.value.Some? && x.keys[i].1 != other.value {
        assert (x.keys[i].0, Some(other.value.value)) in y.keys;
        r := true;
      }
    }
    if r {
      var j: nat, w: V :| j < |x.keys| && x.keys[j].1.Some? && (x.keys[j].0, Some(w)) in y.keys
                          && x.keys[j].1 != Some(w);
      assert (x.keys[j].0, Some(x.keys[j].1.value)) in x.keys;
    }
  }

  ghost predicate Wanted<V(!new)>(evidence: seq<Item<V>>, window: Window, idx: seq<nat>, seen: set<(nat, nat)>) {
    && |idx| == 2 && idx[0] < |evidence| && idx[1] < |evidence|
    && (idx[0], idx[1]) !in seen && Eligible(evidence, window, idx[0], idx[1])
  }

  /** The pairs of one group: only the ordered pair of two holders can be new and wanted. */
  method LinkGroup<V(==,!new)>(evidence: seq<Item<V>>, window: Window, kv: KeyValue<V>, idx: seq<nat>,
                               links0: seq<Link<V>>, seen0: set<(nat, nat)>)
    returns (links: seq<Link<V>>, seen: set<(nat, nat)>)
    requires forall i :: 0 <= i < |evidence| ==> OneEach(evidence[i])
    requires |idx| <= 2 && forall p :: 0 <= p < |idx| ==> idx[p] < |evidence|
    requires |idx| == 2 ==> idx[0] < idx[1]
    ensures if Wanted(evidence, window, idx, seen0)
            then links == links0 + [Link(idx[0], idx[1], kv.0, kv.1)] && seen == seen0 + {(idx[0], idx[1])}
            else links == links0 && seen == seen0
  {
    links, seen := links0, seen0;
    for p := 0 to |idx|
      invariant if p > 0 && Wanted(evidence, window, idx, seen0)
                then links == links0 + [Link(idx[0], idx[1], kv.0, kv.1)] && seen == seen0 + {(idx[0], idx[1])}
                else links == links0 && seen == seen0
    {
      for q := 0 to |idx|
        invariant if (p > 0 || q > 1) && Wanted(evidence, window, idx, seen0)
                  then links == links0 + [Link(idx[0], idx[1], kv.0, kv.1)] && seen == seen0 + {(idx[0], idx[1])}
                  else links == links0 && seen == seen0
      {
        var a, b := idx[p], idx[q];
        if a < b && (a, b) !in seen && InWindow(evidence[a], window) && InWindow(evidence[b], window) {
          var disagree := Disagrees(evidence[a], evidence[b]);
          if !disagree {
            seen := seen + {(a, b)};
            links := links + [Link(a, b, kv.0, kv.1)];
          }
        }
      }
    }
  }

  /** A link is the first key value, in insertion order, that its two items alone share. */
  ghost predicate Justified<V(!new)>(evidence: seq<Item<V>>, window: Window, order: seq<KeyValue<V>>, s: nat,
                                     l: Link<V>)
  {
    && s < |order| && order[s] == (l.key, l.value)
    && Only(evidence, order[s], l.a, l.b) && Eligible(evidence, window, l.a, l.b)
    && forall t :: 0 <= t < s ==> !Only(evidence, order[t], l.a, l.b)
  }

  predicate SamePair<V>(x: Link<V>, y: Link<V>) {
    x.a == y.a && x.b == y.b
  }

  ghost function PairsOf<V>(links: seq<Link<V>>): set<(nat, nat)> {
    set i | 0 <= i < |links| :: (links[i].a, links[i].b)
  }

  lemma PairsOneMore<V>(links: seq<Link<V>>, l: Link<V>)
    ensures PairsOf(links + [l]) == PairsOf(links) + {(l.a, l.b)}
  {
    var more := links + [l];
    forall p | p in PairsOf(links) + {(l.a, l.b)}
      ensures p in PairsOf(more)
    {
      assert p == (l.a, l.b) ==> more[|links|] == l;
      assert forall i :: 0 <= i < |links| ==> more[i] == links[i];
    }
  }

  /** What is linked after the first `n` groups. */
  ghost predicate Collected<V(!new)>(evidence: seq<Item<V>>, window: Window, order: seq<KeyValue<V>>, n: nat,
                                     links: seq<Link<V>>, seen: set<(nat, nat)>, from: seq<nat>)
    requires n <= |order|
  {
    && |from| == |links|
    && seen == PairsOf(links)
    && (forall i :: 0 <= i < |links| ==> from[i] < n && Justified(evidence, window, order, from[i], links[i]))
    && (forall i, j :: 0 <= i < j < |links| ==> !SamePair(links[i], links[j]))
    && (forall t: nat, a: nat, b: nat :: t < n && Only(evidence, order[t], a, b) && Eligible(evidence, window, a, b)
                                         ==> (a, b) in seen)
  }

  lemma CollectMore<V(!new)>(evidence: seq<Item<V>>, window: Window, order: seq<KeyValue<V>>, n: nat,
                             links: seq<Link<V>>, seen: set<(nat, nat)>, from: seq<nat>, a: nat, b: nat)
    requires n < |order| && Collected(evidence, window, order, n, links, seen, from)
    requires Only(evidence, order[n], a, b) && Eligible(evidence, window, a, b) && (a, b) !in seen
    requires forall c: nat, d: nat :: Only(evidence, order[n], c, d) ==> c == a && d == b
    ensures Collected(evidence, window, order, n + 1, links + [Link(a, b, order[n].0, order[n].1)], seen + {(a, b)},
                      from + [n])
  {
    hide Only, Eligible, PairsOf;
    var l := Link(a, b, order[n].0, order[n].1);
    PairsOneMore(links, l);
    forall i | 0 <= i < |links|
      ensures !SamePair(links[i], l)
    {
      PairsHold(links, i);
    }
    assert Justified(evidence, window, order, n, l);
  }

  lemma PairsHold<V>(links: seq<Link<V>>, i: nat)
    requires i < |links|
    ensures (links[i].a, links[i].b) in PairsOf(links)
  {
  }

  lemma CollectNoMore<V(!new)>(evidence: seq<Item<V>>, window: Window, order: seq<KeyValue<V>>, n: nat,
                               links: seq<Link<V>>, seen: set<(nat, nat)>, from: seq<nat>)
    requires n < |order| && Collected(evidence, window, order, n, links, seen, from)
    requires forall a: nat, b: nat :: Only(evidence, order[n], a, b) && Eligible(evidence, window, a, b) ==>
               (a, b) in seen
    ensures Collected(evidence, window, order, n + 1, links, seen, from)
  {
    hide Only, Eligible, PairsOf, Justified;
  }

  /** The group of one key value is what its two holders, if it has just two, ask for. */
  lemma WantedIsOnly<V(!new)>(evidence: seq<Item<V>>, window: Window, kv: KeyValue<V>, seen: set<(nat, nat)>)
    ensures var idx := Holders(evidence, kv);
            && (forall p :: 0 <= p < |idx| ==> idx[p] < |evidence|)
            && (|idx| == 2 ==> idx[0] < idx[1])
            && (Wanted(evidence, window, idx, seen) ==>
                  && Only(evidence, kv, idx[0], idx[1])
                  && forall c: nat, d: nat :: Only(evidence, kv, c, d) ==> c == idx[0] && d == idx[1])
            && (!Wanted(evidence, window, idx, seen) ==>
                  forall a: nat, b: nat :: Only(evidence, kv, a, b) && Eligible(evidence, window, a, b) ==>
                    (a, b) in seen)
  {
    hide Holders, Has, Eligible;
    var idx := Holders(evidence, kv);
    HoldersHold(evidence, kv);
    assert forall p :: 0 <= p < |idx| ==> idx[p] in idx;
    forall a: nat, b: nat
      ensures Only(evidence, kv, a, b) <==> idx == [a, b]
    {
      HoldersOfTwo(evidence, kv, a, b);
    }
    if |idx| == 2 {
      assert idx == [idx[0], idx[1]];
    }
  }

  method CollectLinks<V(==,!new)>(evidence: seq<Item<V>>, window: Window,
                                  order: seq<KeyValue<V>>, groups: map<KeyValue<V>, seq<nat>>)
    returns (links: seq<Link<V>>, ghost seen: set<(nat, nat)>, ghost from: seq<nat>)
    requires forall i :: 0 <= i < |evidence| ==> OneEach(evidence[i])
    requires Grouped(evidence, order, groups)
    ensures Collected(evidence, window, order, |order|, links, seen, from)
  {
    links, from := [], [];
    var found: set<(nat, nat)> := {};
    for n := 0 to |order|
      invariant Collected(evidence, window, order, n, links, found, from)
    {
      hide Collected, Holders, Only, Wanted, Eligible;
      var idx := groups[order[n]];
      WantedIsOnly(evidence, window, order[n], found);
      ghost var links0, found0 := links, found;
      if |idx| <= 2 {
        links, found := LinkGroup(evidence, window, order[n], idx, links, found);
      }
      if Wanted(evidence, window, idx, found0) {
        WantedIs(evidence, window, idx, found0);
        CollectMore(evidence, window, order, n, links0, found0, from, idx[0], idx[1]);
        from := from + [n];
      } else {
        CollectNoMore(evidence, window, order, n, links0, found0, from);
      }
    }
    seen := found;
  }

  lemma WantedIs<V(!new)>(evidence: seq<Item<V>>, window: Window, idx: seq<nat>, seen: set<(nat, nat)>)
    requires Wanted(evidence, window, idx, seen)
    ensures |idx| == 2 && idx[0] < |evidence| && idx[1] < |evidence|
    ensures (idx[0], idx[1]) !in seen && Eligible(evidence, window, idx[0], idx[1])
  {
  }

  predicate PairBefore<V>(x: Link<V>, y: Link<V>) {
    x.a < y.a || (x.a == y.a && x.b < y.b)
  }

  /** The sort key: both indexes, then the key. */
  predicate InPlace<V>(x: Link<V>, y: Link<V>) {
    PairBefore(x, y) || (SamePair(x, y) && StringAtMost(x.key, y.key))
  }

  lemma InPlaceIsPreorder<V(!new)>(le: (Link<V>, Link<V>) -> bool)
    requires forall x, y :: le(x, y) <==> InPlace(x, y)
    ensures TotalPreorder(le)
  {
    forall x: Link<V>, y: Link<V>
      ensures InPlace(x, y) || InPlace(y, x)
    {
      StringOrder(x.key, y.key, "");
    }
    forall x: Link<V>, y: Link<V>, z: Link<V> | InPlace(x, y) && InPlace(y, z)
      ensures InPlace(x, z)
    {
      StringOrder(x.key, y.key, z.key);
    }
  }

  /** No earlier key of the first item is shared by just these two. */
  ghost predicate FirstChoice<V(!new)>(evidence: seq<Item<V>>, l: Link<V>)
    requires l.a < |evidence|
  {
    var keys := evidence[l.a].keys;
    forall i, j :: 0 <= i < j < |keys| && keys[j] == (l.key, Some(l.value)) && keys[i].1.Some?
                   ==> !Only(evidence, (keys[i].0, keys[i].1.value), l.a, l.b)
  }

  ghost predicate Sound<V(!new)>(evidence: seq<Item<V>>, window: Window, l: Link<V>) {
    Only(evidence, (l.key, l.value), l.a, l.b) && Eligible(evidence, window, l.a, l.b) && FirstChoice(evidence, l)
  }

  /** The two items are in the window, agree, and alone share some key value. */
  ghost predicate Linked<V(!new)>(evidence: seq<Item<V>>, window: Window, a: nat, b: nat) {
    a < |evidence| && b < |evidence| && Eligible(evidence, window, a, b) && exists kv :: Only(evidence, kv, a, b)
  }

  ghost predicate HasPair<V>(links: seq<Link<V>>, a: nat, b: nat) {
    exists i :: 0 <= i < |links| && links[i].a == a && links[i].b == b
  }

  lemma FirstChoiceWins<V(!new)>(evidence: seq<Item<V>>, window: Window, order: seq<KeyValue<V>>,
                                 groups: map<KeyValue<V>, seq<nat>>, at: seq<(nat, nat)>, s: nat, l: Link<V>)
    requires forall i :: 0 <= i < |evidence| ==> OneEach(evidence[i])
    requires Grouped(evidence, order, groups) && InOrder(evidence, order, at)
    requires Justified(evidence, window, order, s, l)
    ensures FirstChoice(evidence, l)
  {
    hide Holders, Eligible, InOrder, Earlier;
    var keys := evidence[l.a].keys;
    forall i, j | 0 <= i < j < |keys| && keys[j] == (l.key, Some(l.value)) && keys[i].1.Some?
      ensures !Only(evidence, (keys[i].0, keys[i].1.value), l.a, l.b)
    {
      var kv := (keys[i].0, keys[i].1.value);
      if Only(evidence, kv, l.a, l.b) {
        var t := PlaceOf(evidence, order, groups, kv, l.a, l.b);
        EarlierKeyEarlierPlace(evidence, order, at, t, s, l.a, l.b, i, j);
      }
    }
  }

  /** Of two key values first seen in one item, the one with the earlier key has the earlier place. */
  lemma EarlierKeyEarlierPlace<V(!new)>(evidence: seq<Item<V>>, order: seq<KeyValue<V>>, at: seq<(nat, nat)>,
                                        t: nat, s: nat, a: nat, b: nat, i: nat, j: nat)
    requires InOrder(evidence, order, at) && t < |order| && s < |order|
    requires Only(evidence, order[t], a, b) && Only(evidence, order[s], a, b) && OneEach(evidence[a])
    requires i < j < |evidence[a].keys|
    requires evidence[a].keys[i] == (order[t].0, Some(order[t].1))
    requires evidence[a].keys[j] == (order[s].0, Some(order[s].1))
    ensures t < s
  {
    FirstPlace(evidence, order, at, t, a, b);
    FirstPlace(evidence, order, at, s, a, b);
    assert at[t] == (a, i) && at[s] == (a, j);
  }

  lemma PlaceOf<V(!new)>(evidence: seq<Item<V>>, order: seq<KeyValue<V>>, groups: map<KeyValue<V>, seq<nat>>,
                         kv: KeyValue<V>, a: nat, b: nat) returns (t: nat)
    requires Grouped(evidence, order, groups) && Only(evidence, kv, a, b)
    ensures t < |order| && order[t] == kv
  {
    HoldersOfTwo(evidence, kv, a, b);
    t :| t < |order| && order[t] == kv;
  }

  lemma FirstPlace<V(!new)>(evidence: seq<Item<V>>, order: seq<KeyValue<V>>, at: seq<(nat, nat)>, s: nat, a: nat,
                            b: nat)
    requires InOrder(evidence, order, at) && s < |order| && Only(evidence, order[s], a, b)
    ensures at[s].0 == a && at[s].1 < |evidence[a].keys| && evidence[a].keys[at[s].1] == (order[s].0, Some(order[s].1))
  {
    assert FirstAt(evidence, order[s], at[s]);
    assert evidence[at[s].0].keys[at[s].1] in evidence[at[s].0].keys;
    assert Has(evidence[at[s].0], order[s]);
    assert Has(evidence[a], order[s]);
  }

  lemma CollectedIsSound<V(!new)>(evidence: seq<Item<V>>, window: Window, order: seq<KeyValue<V>>,
                                  groups: map<KeyValue<V>, seq<nat>>, at: seq<(nat, nat)>,
                                  links: seq<Link<V>>, seen: set<(nat, nat)>, from: seq<nat>)
    requires forall i :: 0 <= i < |evidence| ==> OneEach(evidence[i])
    requires Grouped(evidence, order, groups) && InOrder(evidence, order, at)
    requires Collected(evidence, window, order, |order|, links, seen, from)
    ensures forall i :: 0 <= i < |links| ==> Sound(evidence, window, links[i])
    ensures forall a: nat, b: nat :: Linked(evidence, window, a, b) ==> HasPair(links, a, b)
  {
    hide Grouped, InOrder, Only, Eligible, FirstChoice;
    forall i | 0 <= i < |links|
      ensures Sound(evidence, window, links[i])
    {
      FirstChoiceWins(evidence, window, order, groups, at, from[i], links[i]);
    }
    forall a: nat, b: nat | Linked(evidence, window, a, b)
      ensures HasPair(links, a, b)
    {
      var kv :| Only(evidence, kv, a, b);
      var t := PlaceOf(evidence, order, groups, kv, a, b);
      assert (a, b) in PairsOf(links);
    }
  }

  lemma PairsSurviveSorting<V>(links: seq<Link<V>>, sorted: seq<Link<V>>, a: nat, b: nat)
    requires forall i :: 0 <= i < |links| ==> links[i] in sorted
    requires HasPair(links, a, b)
    ensures HasPair(sorted, a, b)
  {
    var i :| 0 <= i < |links| && links[i].a == a && links[i].b == b;
    assert links[i] in sorted;
  }

  lemma LinkedPairs<V(!new)>(evidence: seq<Item<V>>, window: Window, links: seq<Link<V>>, a: nat, b: nat)
    requires forall i :: 0 <= i < |links| ==> Sound(evidence, window, links[i])
    requires HasPair(links, a, b)
    ensures Linked(evidence, window, a, b)
  {
    hide Eligible, FirstChoice;
    var i :| 0 <= i < |links| && links[i].a == a && links[i].b == b;
    assert Sound(evidence, window, links[i]);
  }

  lemma SortedByPair<V(!new)>(le: (Link<V>, Link<V>) -> bool, links: seq<Link<V>>)
    requires forall x, y :: le(x, y) <==> InPlace(x, y)
    requires forall i, j :: 0 <= i < j < |links| ==> !SamePair(links[i], links[j])
    ensures var sorted := Sort(le, links);
            && (forall i :: 0 <= i < |sorted| ==> sorted[i] in links)
            && (forall i :: 0 <= i < |links| ==> links[i] in sorted)
            && forall i, j :: 0 <= i < j < |sorted| ==> PairBefore(sorted[i], sorted[j])
  {
    hide Sort;
    InPlaceIsPreorder(le);
    var sorted := Sort(le, links);
    forall i | 0 <= i < |sorted|
      ensures sorted[i] in links
    {
      SortMember(le, links, sorted[i]);
    }
    SortMembers(le, links);
    SortSorted(le, links);
    SortPairwise(le, (x: Link<V>, y: Link<V>) => !SamePair(x, y), links);
  }

  /**
   * A pair is linked exactly when both items are in the window, agree, and alone share some key
   * value; once, by the first such key value of the earlier item; and the pairs come in order.
   */
  method LinkEvidence<V(==,!new)>(evidence: seq<Item<V>>, window: Window) returns (links: seq<Link<V>>)
    requires forall i :: 0 <= i < |evidence| ==> OneEach(evidence[i])
    ensures forall i :: 0 <= i < |links| ==> Sound(evidence, window, links[i])
    ensures forall a: nat, b: nat :: HasPair(links, a, b) <==> Linked(evidence, window, a, b)
    ensures forall i, j :: 0 <= i < j < |links| ==>
              links[i].a < links[j].a || (links[i].a == links[j].a && links[i].b < links[j].b)
  {
    hide Sound, Linked, HasPair, Grouped, InOrder, Justified, Only;
    var order, groups, at := GroupByValue(evidence);
    var found, seen, from := CollectLinks(evidence, window, order, groups);
    CollectedIsSound(evidence, window, order, groups, at, found, seen, from);
    var le := (x: Link<V>, y: Link<V>) => InPlace(x, y);
    links := Sort(le, found);
    SortedByPair(le, found);
    forall i | 0 <= i < |links|
      ensures Sound(evidence, window, links[i])
    {
      assert links[i] in found;
    }
    forall a: nat, b: nat
      ensures HasPair(links, a, b) <==> Linked(evidence, window, a, b)
    {
      if HasPair(links, a, b) {
        LinkedPairs(evidence, window, links, a, b);
      }
      if Linked(evidence, window, a, b) {
        PairsSurviveSorting(found, links, a, b);
      }
    }
  }

  /** The item holds the value under the key. */
  predicate Holds<V(==)>(item: Item<V>, k: string, v: V) {
    (k, Some(v)) in item.keys
  }

  /** A pair is linked exactly when its items are in the window, differ in no key, and alone hold some key value. */
  lemma LinkedByFields<V(!new)>(evidence: seq<Item<V>>, window: Window, a: nat, b: nat)
    ensures Linked(evidence, window, a, b)
            <==> && a < b < |evidence|
                 && window.start <= evidence[a].ts && evidence[a].ts <= window.end
                 && window.start <= evidence[b].ts && evidence[b].ts <= window.end
                 && (forall k, v, w :: Holds(evidence[a], k, v) && Holds(evidence[b], k, w) ==> v == w)
                 && exists k, v :: Holds(evidence[a], k, v) && Holds(evidence[b], k, v)
                                   && forall i :: 0 <= i < |evidence| && Holds(evidence[i], k, v) ==> i == a || i == b
  {
    if Linked(evidence, window, a, b) {
      var kv :| Only(evidence, kv, a, b);
      assert Holds(evidence[a], kv.0, kv.1) && Holds(evidence[b], kv.0, kv.1);
      forall k, v, w | Holds(evidence[a], k, v) && Holds(evidence[b], k, w)
        ensures v == w
      {
        assert (k, Some(v)) in evidence[a].keys && (k, Some(w)) in evidence[b].keys;
      }
    }
    if a < b < |evidence| {
      forall k, v | Holds(evidence[a], k, v) && Holds(evidence[b], k, v)
                    && forall i :: 0 <= i < |evidence| && Holds(evidence[i], k, v) ==> i == a || i == b
        ensures Only(evidence, (k, v), a, b)
      {
        forall i | 0 <= i < |evidence|
          ensures Has(evidence[i], (k, v)) <==> i == a || i == b
        {
          assert Has(evidence[i], (k, v)) <==> Holds(evidence[i], k, v);
        }
      }
      if Disagree(evidence[a], evidence[b]) {
        var k: string, v: V, w: V :| (k, Some(v)) in evidence[a].keys && (k, Some(w)) in evidence[b].keys && v != w;
        assert Holds(evidence[a], k, v) && Holds(evidence[b], k, w);
      }
    }
  }
}

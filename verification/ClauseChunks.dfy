/** The chunks of a clause tree: one walk, in document order, with the headings above each clause. */
module ClauseChunks {
  import opened Prelude
  import opened Packing
  import opened Slicing
  import opened ClauseTree
  import opened Chunking

  method BuildTree(syn: Syntax, units: seq<Unit>) returns (root: ClauseNode, ghost nodes: seq<ClauseNode>)
    ensures nodes != [] && nodes[0] == root && (forall n :: 0 <= n < |nodes| ==> fresh(nodes[n]))
    ensures Built(nodes) && Heads(nodes, Headings(syn, units)) && Texts(nodes) == TextsOf(syn, units)
    ensures Flatten(Texts(nodes)) == Body(syn, units)
  {
    hide Growing, Built, Rising, Complete, Heads, Flatten, Texts, TextsOf;
    root := new ClauseNode(None, "", 0, false, (0, 0));
    nodes := [root];
    var stack := [root];
    RootOnly(syn, root);
    assert units[..0] == [];
    for i := 0 to |units|
      invariant nodes != [] && nodes[0] == root && (forall n :: 0 <= n < |nodes| ==> fresh(nodes[n]))
      invariant Growing(syn, units[..i], nodes, stack)
    {
      assert units[..i + 1] == units[..i] + [units[i]];
      if units[i].kind == "h" && syn.token(units[i].text).Some? {
        var node;
        node, stack := AddHeading(syn, units[..i], units[i], nodes, stack);
        nodes := nodes + [node];
      } else {
        AddText(syn, units[..i], units[i], nodes, root, stack);
      }
    }
    assert units[..|units|] == units;
    GrowingTop(syn, units, nodes, stack);
    TextsFlatten(syn, units);
  }

  lemma RootBuilt(root: ClauseNode)
    requires root.clause == None && root.serial == 0 && !root.attached && root.children == []
    ensures Built([root])
  {
    hide Below, Open, Placed;
    var nodes := [root];
    assert Placed(nodes, Lists(nodes)) by {
      RootPlaced(nodes, Lists(nodes));
    }
  }

  lemma RootPlaced(nodes: seq<ClauseNode>, lists: seq<seq<ClauseNode>>)
    requires |nodes| == 1 && !nodes[0].attached && lists == [[]]
    ensures Placed(nodes, lists)
  {
  }

  lemma RootTops(root: ClauseNode)
    requires root.serial == 0
    ensures Rising([root], [root]) && Complete([root], [root])
  {
    assert Open([root], 0, 1);
  }

  lemma RootOnly(syn: Syntax, root: ClauseNode)
    requires root.clause == None && root.serial == 0 && !root.attached && root.units == [] && root.children == []
    ensures Growing(syn, [], [root], [root])
  {
    hide Built, Rising, Complete;
    RootBuilt(root);
    RootTops(root);
    assert Texts([root]) == [[]];
  }

  ghost function VisitOf(n: ClauseNode, crumbs: seq<Crumb>): Visit
    reads n`units
  {
    Visit(n.serial, n.clause, n.heading, n.units, crumbs)
  }

  function CrumbsBelow(clause: Option<string>, heading: string, crumbs: seq<Crumb>): seq<Crumb> {
    if clause.Some? then crumbs + [Crumb(clause.value, heading)] else crumbs
  }

  /** The nodes of a subtree, each before those below it, siblings in order. */
  ghost function Visits(nodes: seq<ClauseNode>, i: nat, crumbs: seq<Crumb>): seq<Visit>
    requires Built(nodes) && i < |nodes|
    reads nodes`children, nodes`units
    decreases |nodes| - i, |nodes[i].children| + 1
  {
    [VisitOf(nodes[i], crumbs)] + VisitsFrom(nodes, i, 0, CrumbsBelow(nodes[i].clause, nodes[i].heading, crumbs))
  }

  ghost function VisitsFrom(nodes: seq<ClauseNode>, i: nat, k: nat, crumbs: seq<Crumb>): seq<Visit>
    requires Built(nodes) && i < |nodes| && k <= |nodes[i].children|
    reads nodes`children, nodes`units
    decreases |nodes| - i, |nodes[i].children| - k
  {
    if k == |nodes[i].children| then []
    else
      ChildIsLater(nodes, i, k);
      Visits(nodes, nodes[i].children[k].serial, crumbs) + VisitsFrom(nodes, i, k + 1, crumbs)
  }

  lemma ChildIsLater(nodes: seq<ClauseNode>, i: nat, k: nat)
    requires Built(nodes) && i < |nodes| && k < |nodes[i].children|
    ensures var c := nodes[i].children[k];
            i < c.serial < |nodes| && nodes[c.serial] == c && c.attached && c.place == (i, k)
    ensures Below(nodes[i].clause, nodes[i].children[k].clause) && nodes[i].children[k].clause.Some?
  {
    hide Nested, Innermost, Below;
    var c := Lists(nodes)[i][k];
    assert c.place.0 == i;
  }

  /** One clause's chunks, unless its whole text is too short. */
  method EmitClause(doc: Document, node: ClauseNode, crumbs: seq<Crumb>, chunks0: seq<Chunk>)
    returns (chunks: seq<Chunk>)
    requires node.clause.Some?
    ensures chunks == chunks0 + ChunksOf(doc, VisitOf(node, crumbs))
  {
    hide Fill, PiecesOf, Bodies, HeadingLine, Lengths, ChunkText;
    chunks := chunks0;
    var c := Crumb(node.clause.value, node.heading);
    var bodies := Pack(node.units, MAX_CHARS);
    if |HeadingLine(c)| + Lengths(bodies) >= MIN_CHARS {
      ghost var all := ChunksOf(doc, VisitOf(node, crumbs));
      for i := 0 to |bodies|
        invariant chunks == chunks0 + all[..i]
      {
        chunks := chunks + [Chunk(doc, c.clause, c.heading, crumbs, ChunkText(doc, c, crumbs, bodies[i]), |bodies[i]|)];
      }
    }
  }

  lemma VisitsStart(nodes: seq<ClauseNode>, i: nat, crumbs: seq<Crumb>)
    requires Built(nodes) && i < |nodes|
    ensures Visits(nodes, i, crumbs)
            == [VisitOf(nodes[i], crumbs)]
               + VisitsFrom(nodes, i, 0, CrumbsBelow(nodes[i].clause, nodes[i].heading, crumbs))
  {
    hide Built;
  }

  lemma VisitsStep(nodes: seq<ClauseNode>, i: nat, k: nat, crumbs: seq<Crumb>)
    requires Built(nodes) && i < |nodes| && k < |nodes[i].children|
    ensures var c := nodes[i].children[k];
            && i < c.serial < |nodes| && nodes[c.serial] == c
            && VisitsFrom(nodes, i, k, crumbs) == Visits(nodes, c.serial, crumbs) + VisitsFrom(nodes, i, k + 1, crumbs)
  {
    hide Built, Visits;
    ChildIsLater(nodes, i, k);
  }

  lemma VisitsEnd(nodes: seq<ClauseNode>, i: nat, crumbs: seq<Crumb>)
    requires Built(nodes) && i < |nodes|
    ensures VisitsFrom(nodes, i, |nodes[i].children|, crumbs) == []
  {
    hide Built;
  }

  /** The recursive walk appends the chunks of every visit of the subtree. */
  method Emit(doc: Document, node: ClauseNode, crumbs0: seq<Crumb>, ghost nodes: seq<ClauseNode>, chunks0: seq<Chunk>)
    returns (chunks: seq<Chunk>)
    requires Built(nodes) && node.serial < |nodes| && nodes[node.serial] == node
    ensures chunks == chunks0 + AllChunks(doc, Visits(nodes, node.serial, crumbs0))
    decreases |nodes| - node.serial
  {
    hide Built, ChunksOf, AllChunks, Visits, VisitsFrom;
    ghost var i := node.serial;
    chunks := chunks0;
    var crumbs := crumbs0;
    if node.clause.Some? {
      chunks := EmitClause(doc, node, crumbs, chunks);
      crumbs := crumbs + [Crumb(node.clause.value, node.heading)];
    }
    NoClauseNoChunks(doc, VisitOf(node, crumbs0));
    ChunksOfOne(doc, VisitOf(node, crumbs0));
    VisitsStart(nodes, i, crumbs0);
    ghost var done: seq<Visit> := [VisitOf(node, crumbs0)];
    for k := 0 to |node.children|
      invariant chunks == chunks0 + AllChunks(doc, done)
      invariant Visits(nodes, i, crumbs0) == done + VisitsFrom(nodes, i, k, crumbs)
    {
      VisitsStep(nodes, i, k, crumbs);
      ghost var more := Visits(nodes, node.children[k].serial, crumbs);
      chunks := Emit(doc, node.children[k], crumbs, nodes, chunks);
      ChunksJoin(doc, done, more);
      assert done + (more + VisitsFrom(nodes, i, k + 1, crumbs)) == (done + more) + VisitsFrom(nodes, i, k + 1, crumbs);
      done := done + more;
    }
    VisitsEnd(nodes, i, crumbs);
    assert done + [] == done;
  }

  predicate Ascending(vs: seq<Visit>) {
    forall a, b :: 0 <= a < b < |vs| ==> vs[a].serial < vs[b].serial
  }

  predicate Within(vs: seq<Visit>, low: nat, high: nat) {
    forall a :: 0 <= a < |vs| ==> low <= vs[a].serial < high
  }

  /** No node attached before `i` splits the subtree of `i`: a sibling or later clause comes after all of it. */
  lemma SubtreeBeforeSibling(nodes: seq<ClauseNode>, i: nat, k: nat, d: nat)
    requires Built(nodes) && i < d < |nodes| && nodes[d].attached && nodes[d].place.0 < i && k < |nodes[i].children|
    ensures nodes[i].children[k].serial < d
  {
    hide Innermost, Placed, Enclosed, Ordered;
    ChildIsLater(nodes, i, k);
    NestedPair(nodes, d, nodes[i].children[k].serial);
  }

  lemma NestedPair(nodes: seq<ClauseNode>, d: nat, y: nat)
    requires Nested(nodes) && d < |nodes| && y < |nodes| && nodes[d].attached && nodes[y].attached
    ensures nodes[y].place.0 < d < y ==> nodes[y].place.0 <= nodes[d].place.0
  {
    assert Open(nodes, nodes[y].place.0, y);
  }

  /** The walk of a subtree is in document order, and ends before any node attached above it. */
  lemma {:induction false} VisitsAscend(nodes: seq<ClauseNode>, i: nat, crumbs: seq<Crumb>, d: nat)
    requires Built(nodes) && i < |nodes| && i < d <= |nodes|
    requires d < |nodes| ==> nodes[d].attached && nodes[d].place.0 < i
    ensures Ascending(Visits(nodes, i, crumbs)) && Within(Visits(nodes, i, crumbs), i, d)
    decreases |nodes| - i, |nodes[i].children| + 1
  {
    hide Built, Visits, VisitsFrom, Ascending, Within;
    var below := CrumbsBelow(nodes[i].clause, nodes[i].heading, crumbs);
    VisitsStart(nodes, i, crumbs);
    SerialOf(nodes, i);
    if nodes[i].children != [] {
      ChildIsLater(nodes, i, 0);
    }
    VisitsFromAscend(nodes, i, 0, below, d, i + 1);
    JoinAscending([VisitOf(nodes[i], crumbs)], VisitsFrom(nodes, i, 0, below), i, i + 1, d);
    OneAscends(VisitOf(nodes[i], crumbs));
  }

  lemma SerialOf(nodes: seq<ClauseNode>, i: nat)
    requires Built(nodes) && i < |nodes|
    ensures nodes[i].serial == i
  {
  }

  lemma OneAscends(v: Visit)
    ensures Ascending([v]) && Within([v], v.serial, v.serial + 1)
  {
  }

  lemma JoinAscending(us: seq<Visit>, vs: seq<Visit>, low: nat, mid: nat, high: nat)
    ensures Ascending(us) && Ascending(vs) && Within(us, low, mid) && Within(vs, mid, high) && low <= mid <= high
            ==> Ascending(us + vs) && Within(us + vs, low, high)
  {
  }

  lemma {:induction false} VisitsFromAscend(nodes: seq<ClauseNode>, i: nat, k: nat, crumbs: seq<Crumb>, d: nat,
                                            low: nat)
    requires Built(nodes) && i < |nodes| && k <= |nodes[i].children| && i < low <= d <= |nodes|
    requires k < |nodes[i].children| ==> low <= nodes[i].children[k].serial
    requires d < |nodes| ==> nodes[d].attached && nodes[d].place.0 < i
    ensures Ascending(VisitsFrom(nodes, i, k, crumbs)) && Within(VisitsFrom(nodes, i, k, crumbs), low, d)
    decreases |nodes| - i, |nodes[i].children| - k
  {
    hide Built, Visits, VisitsFrom, Ascending, Within;
    if k == |nodes[i].children| {
      VisitsEnd(nodes, i, crumbs);
      NoneAscend(low, d);
    } else {
      VisitsStep(nodes, i, k, crumbs);
      ChildIsLater(nodes, i, k);
      var c := nodes[i].children[k].serial;
      if d < |nodes| {
        SubtreeBeforeSibling(nodes, i, k, d);
      }
      if k + 1 < |nodes[i].children| {
        ChildIsLater(nodes, i, k + 1);
        SiblingsAscend(nodes, i, k);
        var next := nodes[i].children[k + 1].serial;
        if d < |nodes| {
          SubtreeBeforeSibling(nodes, i, k + 1, d);
        }
        VisitsAscend(nodes, c, crumbs, next);
        VisitsFromAscend(nodes, i, k + 1, crumbs, d, next);
        JoinAscending(Visits(nodes, c, crumbs), VisitsFrom(nodes, i, k + 1, crumbs), c, next, d);
      } else {
        VisitsAscend(nodes, c, crumbs, d);
        VisitsEnd(nodes, i, crumbs);
        assert Visits(nodes, c, crumbs) + [] == Visits(nodes, c, crumbs);
      }
      WithinWider(VisitsFrom(nodes, i, k, crumbs), c, low, d);
    }
  }

  lemma NoneAscend(low: nat, d: nat)
    ensures Ascending([]) && Within([], low, d)
  {
  }

  lemma WithinWider(vs: seq<Visit>, c: nat, low: nat, d: nat)
    requires low <= c && Within(vs, c, d)
    ensures Within(vs, low, d)
  {
  }

  lemma SiblingsAscend(nodes: seq<ClauseNode>, i: nat, k: nat)
    requires Built(nodes) && i < |nodes| && k + 1 < |nodes[i].children|
    ensures nodes[i].children[k].serial < nodes[i].children[k + 1].serial
  {
    hide Ordered, Enclosed, Nested, Innermost;
    assert Lists(nodes)[i][k].serial < Lists(nodes)[i][k + 1].serial;
  }

  predicate IsChain(crumbs: seq<Crumb>) {
    forall a :: 0 < a < |crumbs| ==> crumbs[a - 1].clause + "." <= crumbs[a].clause
  }

  /** A chain of clauses, each a strict dotted prefix of the next, the last one of `clause`. */
  predicate LeadsTo(crumbs: seq<Crumb>, clause: Option<string>) {
    IsChain(crumbs) && (crumbs != [] ==> clause.Some? && crumbs[|crumbs| - 1].clause + "." <= clause.value)
  }

  lemma ChainGoesOn(crumbs: seq<Crumb>, clause: Option<string>, heading: string, child: Option<string>)
    requires LeadsTo(crumbs, clause) && Below(clause, child) && child.Some?
    ensures LeadsTo(CrumbsBelow(clause, heading, crumbs), child)
  {
  }

  predicate AllChained(vs: seq<Visit>) {
    forall a :: 0 <= a < |vs| ==> LeadsTo(vs[a].crumbs, vs[a].clause)
  }

  lemma {:induction false} VisitsChain(nodes: seq<ClauseNode>, i: nat, crumbs: seq<Crumb>)
    requires Built(nodes) && i < |nodes| && LeadsTo(crumbs, nodes[i].clause)
    ensures AllChained(Visits(nodes, i, crumbs))
    decreases |nodes| - i, |nodes[i].children| + 1
  {
    hide Built, Visits, VisitsFrom, LeadsTo;
    VisitsStart(nodes, i, crumbs);
    VisitsFromChain(nodes, i, 0, crumbs);
  }

  lemma {:induction false} VisitsFromChain(nodes: seq<ClauseNode>, i: nat, k: nat, crumbs: seq<Crumb>)
    requires Built(nodes) && i < |nodes| && k <= |nodes[i].children| && LeadsTo(crumbs, nodes[i].clause)
    ensures AllChained(VisitsFrom(nodes, i, k, CrumbsBelow(nodes[i].clause, nodes[i].heading, crumbs)))
    decreases |nodes| - i, |nodes[i].children| - k
  {
    hide Built, Visits, VisitsFrom, LeadsTo, CrumbsBelow, Below;
    var below := CrumbsBelow(nodes[i].clause, nodes[i].heading, crumbs);
    if k == |nodes[i].children| {
      VisitsEnd(nodes, i, below);
    } else {
      VisitsStep(nodes, i, k, below);
      ChildIsLater(nodes, i, k);
      var c := nodes[i].children[k];
      ChainGoesOn(crumbs, nodes[i].clause, nodes[i].heading, c.clause);
      VisitsChain(nodes, c.serial, below);
      VisitsFromChain(nodes, i, k + 1, crumbs);
    }
  }

  /** The walk comes to every attached node whose parent it comes to. */
  lemma {:induction false} VisitsReachChildren(nodes: seq<ClauseNode>, i: nat, crumbs: seq<Crumb>, m: nat)
    requires Built(nodes) && i < |nodes| && m < |nodes| && nodes[m].attached
    requires Reaches(Visits(nodes, i, crumbs), nodes[m].place.0)
    ensures Reaches(Visits(nodes, i, crumbs), m)
    decreases |nodes| - i, |nodes[i].children| + 1
  {
    hide Built, Visits, VisitsFrom, Reaches;
    var below := CrumbsBelow(nodes[i].clause, nodes[i].heading, crumbs);
    VisitsStart(nodes, i, crumbs);
    SerialOf(nodes, i);
    ReachesEither([VisitOf(nodes[i], crumbs)], VisitsFrom(nodes, i, 0, below), m);
    ReachesEither([VisitOf(nodes[i], crumbs)], VisitsFrom(nodes, i, 0, below), nodes[m].place.0);
    ReachesOne(VisitOf(nodes[i], crumbs), nodes[m].place.0);
    VisitsFromReach(nodes, i, 0, below, m);
  }

  ghost predicate Reaches(vs: seq<Visit>, m: nat) {
    exists a :: 0 <= a < |vs| && vs[a].serial == m
  }

  lemma ReachesEither(us: seq<Visit>, vs: seq<Visit>, m: nat)
    ensures Reaches(us + vs, m) <==> Reaches(us, m) || Reaches(vs, m)
  {
    var all := us + vs;
    if a :| 0 <= a < |us| && us[a].serial == m {
      assert all[a] == us[a];
    }
    if a :| 0 <= a < |vs| && vs[a].serial == m {
      assert all[|us| + a] == vs[a];
    }
  }

  lemma ReachesOne(v: Visit, m: nat)
    ensures Reaches([v], m) <==> m == v.serial
    ensures !Reaches([], m)
  {
    assert [v][0] == v;
  }

  lemma {:induction false} VisitsFromReach(nodes: seq<ClauseNode>, i: nat, k: nat, crumbs: seq<Crumb>, m: nat)
    requires Built(nodes) && i < |nodes| && k <= |nodes[i].children| && m < |nodes| && nodes[m].attached
    ensures (nodes[m].place.0 == i && k <= nodes[m].place.1)
            || Reaches(VisitsFrom(nodes, i, k, crumbs), nodes[m].place.0)
            ==> Reaches(VisitsFrom(nodes, i, k, crumbs), m)
    decreases |nodes| - i, |nodes[i].children| - k
  {
    hide Built, Visits, VisitsFrom, Reaches;
    AtItsPlace(nodes, m);
    if k == |nodes[i].children| {
      VisitsEnd(nodes, i, crumbs);
      ReachesOne(VisitOf(nodes[i], crumbs), nodes[m].place.0);
    } else {
      VisitsStep(nodes, i, k, crumbs);
      var c := nodes[i].children[k];
      VisitsStart(nodes, c.serial, crumbs);
      ReachesOne(VisitOf(c, crumbs), m);
      ReachesEither([VisitOf(c, crumbs)], VisitsFrom(nodes, c.serial, 0, CrumbsBelow(c.clause, c.heading, crumbs)), m);
      ReachesEither(Visits(nodes, c.serial, crumbs), VisitsFrom(nodes, i, k + 1, crumbs), m);
      ReachesEither(Visits(nodes, c.serial, crumbs), VisitsFrom(nodes, i, k + 1, crumbs), nodes[m].place.0);
      VisitsFromReach(nodes, i, k + 1, crumbs, m);
      if Reaches(Visits(nodes, c.serial, crumbs), nodes[m].place.0) {
        VisitsReachChildren(nodes, c.serial, crumbs, m);
      }
    }
  }

  lemma AtItsPlace(nodes: seq<ClauseNode>, m: nat)
    requires Built(nodes) && m < |nodes| && nodes[m].attached
    ensures var p := nodes[m].place;
            p.0 < m && p.1 < |nodes[p.0].children| && nodes[p.0].children[p.1] == nodes[m] && nodes[m].serial == m
  {
    hide Nested, Innermost;
    assert Lists(nodes)[nodes[m].place.0][nodes[m].place.1] == nodes[m];
  }

  /** And it comes to no other: only to attached nodes, below parents it comes to. */
  lemma {:induction false} VisitsOnlyChildren(nodes: seq<ClauseNode>, i: nat, crumbs: seq<Crumb>, m: nat)
    requires Built(nodes) && i < |nodes| && m != i && Reaches(Visits(nodes, i, crumbs), m)
    ensures m < |nodes| && nodes[m].attached && Reaches(Visits(nodes, i, crumbs), nodes[m].place.0)
    decreases |nodes| - i, |nodes[i].children| + 1
  {
    hide Built, Visits, VisitsFrom, Reaches;
    var below := CrumbsBelow(nodes[i].clause, nodes[i].heading, crumbs);
    VisitsStart(nodes, i, crumbs);
    SerialOf(nodes, i);
    ReachesEither([VisitOf(nodes[i], crumbs)], VisitsFrom(nodes, i, 0, below), m);
    ReachesOne(VisitOf(nodes[i], crumbs), m);
    VisitsFromOnly(nodes, i, 0, below, m);
    ReachesEither([VisitOf(nodes[i], crumbs)], VisitsFrom(nodes, i, 0, below), nodes[m].place.0);
    ReachesOne(VisitOf(nodes[i], crumbs), nodes[m].place.0);
  }

  lemma {:induction false} VisitsFromOnly(nodes: seq<ClauseNode>, i: nat, k: nat, crumbs: seq<Crumb>, m: nat)
    requires Built(nodes) && i < |nodes| && k <= |nodes[i].children| && Reaches(VisitsFrom(nodes, i, k, crumbs), m)
    ensures m < |nodes| && nodes[m].attached
    ensures nodes[m].place.0 == i || Reaches(VisitsFrom(nodes, i, k, crumbs), nodes[m].place.0)
    decreases |nodes| - i, |nodes[i].children| - k
  {
    hide Built, Visits, VisitsFrom, Reaches;
    if k == |nodes[i].children| {
      VisitsEnd(nodes, i, crumbs);
      ReachesOne(VisitOf(nodes[i], crumbs), m);
    } else {
      VisitsStep(nodes, i, k, crumbs);
      ChildIsLater(nodes, i, k);
      var c := nodes[i].children[k].serial;
      ReachesEither(Visits(nodes, c, crumbs), VisitsFrom(nodes, i, k + 1, crumbs), m);
      if Reaches(VisitsFrom(nodes, i, k + 1, crumbs), m) {
        VisitsFromOnly(nodes, i, k + 1, crumbs, m);
      } else if m != c {
        VisitsOnlyChildren(nodes, c, crumbs, m);
      }
      ReachesEither(Visits(nodes, c, crumbs), VisitsFrom(nodes, i, k + 1, crumbs), nodes[m].place.0);
    }
  }

  /** The walk from the root comes to exactly the nodes attached below nodes it comes to. */
  ghost predicate WalksTree(nodes: seq<ClauseNode>, visits: seq<Visit>) {
    && nodes != [] && Reaches(visits, 0)
    && (forall m: nat :: m >= |nodes| ==> !Reaches(visits, m))
    && (forall m: nat :: 0 < m < |nodes| ==>
          (Reaches(visits, m) <==> nodes[m].attached && Reaches(visits, nodes[m].place.0)))
  }

  lemma WalkIsTree(nodes: seq<ClauseNode>)
    requires Built(nodes)
    ensures nodes != [] && WalksTree(nodes, Visits(nodes, 0, []))
  {
    RootFirst(nodes);
    hide Built, Visits, VisitsFrom, Reaches;
    var visits := Visits(nodes, 0, []);
    VisitsStart(nodes, 0, []);
    var below := CrumbsBelow(nodes[0].clause, nodes[0].heading, []);
    ReachesEither([VisitOf(nodes[0], [])], VisitsFrom(nodes, 0, 0, below), 0);
    ReachesOne(VisitOf(nodes[0], []), 0);
    forall m: nat | m > 0 && Reaches(visits, m)
      ensures m < |nodes| && nodes[m].attached && Reaches(visits, nodes[m].place.0)
    {
      VisitsOnlyChildren(nodes, 0, [], m);
    }
    forall m: nat | m < |nodes| && nodes[m].attached && Reaches(visits, nodes[m].place.0)
      ensures Reaches(visits, m)
    {
      VisitsReachChildren(nodes, 0, [], m);
    }
  }

  lemma {:induction false} ChunksChain(doc: Document, vs: seq<Visit>)
    requires AllChained(vs)
    ensures forall i :: 0 <= i < |AllChunks(doc, vs)| ==>
                          LeadsTo(AllChunks(doc, vs)[i].breadcrumb, Some(AllChunks(doc, vs)[i].clause))
  {
    hide LeadsTo, ChunksOf;
    if vs != [] {
      var n := |vs| - 1;
      ChunksChain(doc, vs[..n]);
      ChunksOfVisit(doc, vs[n]);
      assert LeadsTo(vs[n].crumbs, vs[n].clause);
    }
  }

  lemma ChunksOfVisit(doc: Document, v: Visit)
    ensures forall i :: 0 <= i < |ChunksOf(doc, v)| ==>
                          ChunksOf(doc, v)[i].breadcrumb == v.crumbs && Some(ChunksOf(doc, v)[i].clause) == v.clause
  {
    hide Fill, PiecesOf, Bodies, HeadingLine, Lengths, ChunkText;
  }

  /** Each visit shows the node with its serial. */
  ghost predicate Shown(nodes: seq<ClauseNode>, vs: seq<Visit>)
    reads nodes`units
  {
    forall a :: 0 <= a < |vs| ==> vs[a].serial < |nodes| && vs[a] == VisitOf(nodes[vs[a].serial], vs[a].crumbs)
  }

  lemma {:induction false} VisitsShown(nodes: seq<ClauseNode>, i: nat, crumbs: seq<Crumb>)
    requires Built(nodes) && i < |nodes|
    ensures Shown(nodes, Visits(nodes, i, crumbs))
    decreases |nodes| - i, |nodes[i].children| + 1
  {
    hide Built, Visits, VisitsFrom;
    VisitsStart(nodes, i, crumbs);
    SerialOf(nodes, i);
    VisitsFromShown(nodes, i, 0, CrumbsBelow(nodes[i].clause, nodes[i].heading, crumbs));
  }

  lemma {:induction false} VisitsFromShown(nodes: seq<ClauseNode>, i: nat, k: nat, crumbs: seq<Crumb>)
    requires Built(nodes) && i < |nodes| && k <= |nodes[i].children|
    ensures Shown(nodes, VisitsFrom(nodes, i, k, crumbs))
    decreases |nodes| - i, |nodes[i].children| - k
  {
    hide Built, Visits, VisitsFrom;
    if k == |nodes[i].children| {
      VisitsEnd(nodes, i, crumbs);
    } else {
      VisitsStep(nodes, i, k, crumbs);
      VisitsShown(nodes, nodes[i].children[k].serial, crumbs);
      VisitsFromShown(nodes, i, k + 1, crumbs);
    }
  }

  /** Each visit has the heading, and the text up to the next heading, of its place in the document. */
  predicate ReadsOff(syn: Syntax, units: seq<Unit>, vs: seq<Visit>) {
    var heads, texts := Headings(syn, units), TextsOf(syn, units);
    forall a :: 0 <= a < |vs| ==>
                  && vs[a].serial <= |heads| && vs[a].units == texts[vs[a].serial]
                  && if vs[a].serial == 0 then vs[a].clause.None?
                     else vs[a].clause == Some(heads[vs[a].serial - 1].0.clause)
                          && vs[a].heading == heads[vs[a].serial - 1].0.heading
  }

  lemma ShownReadsOff(syn: Syntax, units: seq<Unit>, nodes: seq<ClauseNode>, vs: seq<Visit>)
    requires Shown(nodes, vs) && Ordered(nodes) && Heads(nodes, Headings(syn, units))
    requires Texts(nodes) == TextsOf(syn, units)
    ensures ReadsOff(syn, units, vs)
  {
    hide Headings, TextsOf;
    forall a | 0 <= a < |vs| && vs[a].serial > 0
      ensures vs[a].clause == Some(Headings(syn, units)[vs[a].serial - 1].0.clause)
              && vs[a].heading == Headings(syn, units)[vs[a].serial - 1].0.heading
    {
      assert nodes[vs[a].serial - 1 + 1] == nodes[vs[a].serial];
    }
  }

  /**
   * From units to chunks: the walk is in document order, comes to exactly the clauses attached
   * below clauses it comes to, each with its own text, and every chunk's breadcrumb is a chain of
   * enclosing clauses.
   */
  method BuildChunks(doc: Document, syn: Syntax, units: seq<Unit>)
    returns (chunks: seq<Chunk>, ghost nodes: seq<ClauseNode>, ghost visits: seq<Visit>)
    ensures Built(nodes) && Heads(nodes, Headings(syn, units)) && Flatten(Texts(nodes)) == Body(syn, units)
    ensures Texts(nodes) == TextsOf(syn, units) && ReadsOff(syn, units, visits)
    ensures nodes != [] && visits == Visits(nodes, 0, []) && chunks == AllChunks(doc, visits)
    ensures ShowsEach(doc, visits, chunks)
    ensures Ascending(visits) && AllChained(visits) && WalksTree(nodes, visits)
    ensures forall i :: 0 <= i < |chunks| ==> LeadsTo(chunks[i].breadcrumb, Some(chunks[i].clause))
  {
    hide Built, Heads, Flatten, Texts, Visits, AllChunks, Reaches, Ascending, Within, AllChained, LeadsTo, Headings,
      Body, TextsOf, Shown, ReadsOff, WalksTree, ShowsEach;
    var root;
    root, nodes := BuildTree(syn, units);
    RootFirst(nodes);
    chunks := Emit(doc, root, [], nodes, []);
    visits := Visits(nodes, 0, []);
    VisitsAscend(nodes, 0, [], |nodes|);
    VisitsChain(nodes, 0, []);
    ChunksChain(doc, visits);
    AllChunksShown(doc, visits);
    WalkIsTree(nodes);
    VisitsShown(nodes, 0, []);
    BuiltIsOrdered(nodes);
    ShownReadsOff(syn, units, nodes, visits);
    assert [] + AllChunks(doc, visits) == AllChunks(doc, visits);
  }

  lemma BuiltIsOrdered(nodes: seq<ClauseNode>)
    requires Built(nodes)
    ensures Ordered(nodes)
  {
  }

  lemma RootFirst(nodes: seq<ClauseNode>)
    requires Built(nodes)
    ensures nodes != [] && nodes[0].serial == 0 && LeadsTo([], nodes[0].clause)
  {
  }
}

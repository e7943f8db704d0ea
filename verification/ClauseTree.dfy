/** The clause tree of a specification document, and its chunks in document order. */
module ClauseTree {
  import opened Prelude
  import opened Packing

  datatype Unit = Unit(kind: string, text: string)

  /** How headings are read: their clause number, their title, and which titles are skipped. */
  datatype Syntax = Syntax(token: string -> Option<string>, title: string -> string, skip: string -> bool)

  datatype Crumb = Crumb(clause: string, heading: string)

  function HeadingLine(c: Crumb): string {
    c.clause + "\t" + c.heading
  }

  /** A clause strictly below another has its number and a dot as prefix. */
  predicate Below(clause: Option<string>, child: Option<string>) {
    clause.None? || (child.Some? && clause.value + "." <= child.value)
  }

  class ClauseNode {
    const clause: Option<string>
    const heading: string
    /** The place in document order. */
    ghost const serial: nat
    /** Whether the node has a parent; if so which, and as which child. */
    ghost const attached: bool
    ghost const place: (nat, nat)
    var units: seq<string>
    var children: seq<ClauseNode>

    constructor (clause: Option<string>, heading: string, ghost serial: nat, ghost attached: bool,
                 ghost place: (nat, nat))
      ensures this.clause == clause && this.heading == heading && this.serial == serial && this.attached == attached
      ensures this.place == place && units == [] && children == []
    {
      this.clause, this.heading, this.serial, this.attached, this.place := clause, heading, serial, attached, place;
      units, children := [], [];
    }
  }

  /** The nodes in document order: the root, then one for each numbered heading. */
  ghost predicate Ordered(nodes: seq<ClauseNode>) {
    && nodes != [] && nodes[0].clause.None?
    && (forall i :: 0 <= i < |nodes| ==> nodes[i].serial == i)
    && (forall i :: 0 < i < |nodes| ==> nodes[i].clause.Some?)
  }

  /** Parents come first, and enclose the clauses of their children. */
  ghost predicate Enclosed(nodes: seq<ClauseNode>) {
    forall m :: 0 <= m < |nodes| && nodes[m].attached ==>
                  nodes[m].place.0 < m && Below(nodes[nodes[m].place.0].clause, nodes[m].clause)
  }

  /** Nothing after `m` and before `b` is attached to anything before `m`. */
  ghost predicate Open(nodes: seq<ClauseNode>, m: nat, b: nat) {
    forall x :: m < x < b && x < |nodes| && nodes[x].attached ==> m <= nodes[x].place.0
  }

  /** Every parent is still open where its child comes. */
  ghost predicate Nested(nodes: seq<ClauseNode>) {
    forall b: nat :: b < |nodes| && nodes[b].attached ==> Open(nodes, nodes[b].place.0, b)
  }

  /** No later clause still open there encloses the child. */
  ghost predicate Innermost(nodes: seq<ClauseNode>) {
    forall b: nat, m: nat :: b < |nodes| && nodes[b].attached && nodes[b].place.0 < m < b && Open(nodes, m, b)
                             ==> !Below(nodes[m].clause, nodes[b].clause)
  }

  ghost function Lists(nodes: seq<ClauseNode>): (r: seq<seq<ClauseNode>>)
    reads nodes`children
    ensures |r| == |nodes| && forall i :: 0 <= i < |nodes| ==> r[i] == nodes[i].children
  {
    if nodes == [] then [] else Lists(nodes[..|nodes| - 1]) + [nodes[|nodes| - 1].children]
  }

  /** Every child is attached, at its place. */
  ghost predicate ChildrenPlaced(nodes: seq<ClauseNode>, lists: seq<seq<ClauseNode>>) {
    forall i, k :: 0 <= i < |lists| && 0 <= k < |lists[i]| ==>
                     var c := lists[i][k];
                     c.serial < |nodes| && nodes[c.serial] == c && c.attached && c.place == (i, k)
  }

  /** Every attached node is the child at its place. */
  ghost predicate NodesPlaced(nodes: seq<ClauseNode>, lists: seq<seq<ClauseNode>>) {
    forall m :: 0 <= m < |nodes| && nodes[m].attached ==>
                  && nodes[m].place.0 < |lists| && nodes[m].place.1 < |lists[nodes[m].place.0]|
                  && lists[nodes[m].place.0][nodes[m].place.1] == nodes[m]
  }

  ghost predicate ChildrenAscend(lists: seq<seq<ClauseNode>>) {
    forall i, k, l :: 0 <= i < |lists| && 0 <= k < l < |lists[i]| ==> lists[i][k].serial < lists[i][l].serial
  }

  /** The children lists hold exactly the attached nodes, each at its place, in document order. */
  ghost predicate Placed(nodes: seq<ClauseNode>, lists: seq<seq<ClauseNode>>) {
    |lists| == |nodes| && ChildrenPlaced(nodes, lists) && NodesPlaced(nodes, lists) && ChildrenAscend(lists)
  }

  ghost predicate Built(nodes: seq<ClauseNode>)
    reads nodes`children
  {
    Ordered(nodes) && Enclosed(nodes) && Nested(nodes) && Innermost(nodes) && Placed(nodes, Lists(nodes))
  }

  /** The stack starts at the root and rises to the newest node; it holds just the open nodes. */
  ghost predicate Rising(nodes: seq<ClauseNode>, stack: seq<ClauseNode>) {
    && stack != [] && nodes != [] && stack[0] == nodes[0]
    && (forall s :: 0 <= s < |stack| ==> stack[s].serial < |nodes| && nodes[stack[s].serial] == stack[s])
    && (forall s, t :: 0 <= s < t < |stack| ==> stack[s].serial < stack[t].serial)
    && (forall s :: 0 <= s < |stack| ==> Open(nodes, stack[s].serial, |nodes|))
  }

  ghost predicate Complete(nodes: seq<ClauseNode>, stack: seq<ClauseNode>) {
    forall m: nat :: m < |nodes| && Open(nodes, m, |nodes|) ==> nodes[m] in stack
  }

  lemma OpenBefore(nodes: seq<ClauseNode>, node: ClauseNode)
    ensures forall m: nat, b: nat :: b <= |nodes| ==> (Open(nodes + [node], m, b) <==> Open(nodes, m, b))
    ensures forall m: nat :: Open(nodes + [node], m, |nodes| + 1)
                             <==> Open(nodes, m, |nodes|) && (m < |nodes| && node.attached ==> m <= node.place.0)
  {
    var more := nodes + [node];
    assert forall x :: 0 <= x < |nodes| ==> more[x] == nodes[x];
    forall m: nat, b: nat | b <= |nodes|
      ensures Open(more, m, b) <==> Open(nodes, m, b)
    {
    }
    forall m: nat
      ensures Open(more, m, |nodes| + 1)
              <==> Open(nodes, m, |nodes|) && (m < |nodes| && node.attached ==> m <= node.place.0)
    {
      if Open(more, m, |nodes| + 1) {
        assert m < |nodes| && node.attached ==> more[|nodes|].attached;
      }
    }
  }

  lemma PushRises(nodes: seq<ClauseNode>, stack: seq<ClauseNode>, node: ClauseNode)
    requires Rising(nodes, stack) && node.serial == |nodes|
    requires node.attached ==> node.place.0 == stack[|stack| - 1].serial
    ensures Rising(nodes + [node], stack + [node])
  {
    hide Open;
    OpenBefore(nodes, node);
    NothingAfter(nodes);
    var higher := stack + [node];
    forall s | 0 <= s < |higher|
      ensures Open(nodes + [node], higher[s].serial, |nodes| + 1)
    {
    }
  }

  lemma NothingAfter(nodes: seq<ClauseNode>)
    ensures Open(nodes, |nodes|, |nodes|)
  {
  }

  lemma AroundTop(nodes: seq<ClauseNode>, stack0: seq<ClauseNode>, stack: seq<ClauseNode>, s: nat)
    requires Rising(nodes, stack0) && stack != [] && stack <= stack0 && s < |stack0|
    ensures if s < |stack| then stack0[s] == stack[s] && stack0[s].serial <= stack[|stack| - 1].serial
            else stack0[s].serial > stack[|stack| - 1].serial
  {
    assert stack[|stack| - 1] == stack0[|stack| - 1];
  }

  /** What is popped is closed by the new node. */
  lemma PushCompletes(nodes: seq<ClauseNode>, stack0: seq<ClauseNode>, stack: seq<ClauseNode>, node: ClauseNode)
    requires Ordered(nodes) && Rising(nodes, stack0) && Complete(nodes, stack0)
    requires stack != [] && stack <= stack0 && (!node.attached ==> stack == stack0)
    requires node.attached ==> node.place.0 == stack[|stack| - 1].serial
    ensures Complete(nodes + [node], stack + [node])
  {
    hide Open;
    OpenBefore(nodes, node);
    forall m: nat | m < |nodes| && Open(nodes + [node], m, |nodes| + 1)
      ensures nodes[m] in stack
    {
      var s :| 0 <= s < |stack0| && stack0[s] == nodes[m];
      AroundTop(nodes, stack0, stack, s);
    }
  }

  lemma InnermostGrows(nodes: seq<ClauseNode>, stack0: seq<ClauseNode>, stack: seq<ClauseNode>, node: ClauseNode)
    requires Ordered(nodes) && Innermost(nodes) && Rising(nodes, stack0) && Complete(nodes, stack0)
    requires stack != [] && stack <= stack0
    requires node.attached ==> node.place.0 == stack[|stack| - 1].serial
    requires node.attached ==> forall s :: |stack| <= s < |stack0| ==> !Below(stack0[s].clause, node.clause)
    ensures Innermost(nodes + [node])
  {
    hide Open, Below;
    var more := nodes + [node];
    OpenBefore(nodes, node);
    forall b: nat, m: nat | b < |more| && more[b].attached && more[b].place.0 < m < b && Open(more, m, b)
      ensures !Below(more[m].clause, more[b].clause)
    {
      assert more[m] == nodes[m];
      if b == |nodes| {
        var s :| 0 <= s < |stack0| && stack0[s] == nodes[m];
        AroundTop(nodes, stack0, stack, s);
      }
    }
  }

  lemma NestingGrows(nodes: seq<ClauseNode>, stack: seq<ClauseNode>, node: ClauseNode)
    requires Nested(nodes) && Rising(nodes, stack)
    requires node.attached ==> node.place.0 == stack[|stack| - 1].serial
    ensures Nested(nodes + [node])
  {
    hide Open;
    OpenBefore(nodes, node);
    var more := nodes + [node];
    forall b: nat | b < |more| && more[b].attached
      ensures Open(more, more[b].place.0, b)
    {
      assert b < |nodes| ==> more[b] == nodes[b];
    }
  }

  lemma ShapeGrows(nodes: seq<ClauseNode>, stack: seq<ClauseNode>, node: ClauseNode)
    requires Ordered(nodes) && Enclosed(nodes) && Rising(nodes, stack)
    requires node.serial == |nodes| && node.clause.Some?
    requires node.attached ==>
               node.place.0 == stack[|stack| - 1].serial && Below(stack[|stack| - 1].clause, node.clause)
    ensures Ordered(nodes + [node]) && Enclosed(nodes + [node])
  {
    hide Open, Below;
    assert nodes[stack[|stack| - 1].serial] == stack[|stack| - 1];
  }

  lemma PopRises(nodes: seq<ClauseNode>, stack: seq<ClauseNode>)
    requires Rising(nodes, stack) && |stack| > 1
    ensures Rising(nodes, stack[..|stack| - 1])
  {
    hide Open;
  }

  /** A new last child, or a node without a parent, keeps every place. */
  lemma PlacesGrow(nodes: seq<ClauseNode>, lists: seq<seq<ClauseNode>>, node: ClauseNode)
    requires Placed(nodes, lists) && node.serial == |nodes|
    requires node.attached ==> node.place.0 < |lists| && node.place.1 == |lists[node.place.0]|
    ensures var p := node.place.0;
            Placed(nodes + [node], (if node.attached then lists[p := lists[p] + [node]] else lists) + [[]])
  {
    var p := node.place.0;
    var longer := if node.attached then lists[p := lists[p] + [node]] else lists;
    ChildrenPlacesGrow(nodes, lists, node);
    NodePlacesGrow(nodes, lists, node);
    var all: seq<seq<ClauseNode>> := longer + [[]];
    forall i, k, l | 0 <= i < |all| && 0 <= k < l < |all[i]|
      ensures all[i][k].serial < all[i][l].serial
    {
      assert all[i] == longer[i] && longer[i][k] == lists[i][k];
      assert l < |lists[i]| ==> longer[i][l] == lists[i][l];
    }
  }

  lemma ChildrenPlacesGrow(nodes: seq<ClauseNode>, lists: seq<seq<ClauseNode>>, node: ClauseNode)
    requires Placed(nodes, lists) && node.serial == |nodes|
    requires node.attached ==> node.place.0 < |lists| && node.place.1 == |lists[node.place.0]|
    ensures var p := node.place.0;
            ChildrenPlaced(nodes + [node], (if node.attached then lists[p := lists[p] + [node]] else lists) + [[]])
  {
    hide NodesPlaced, ChildrenAscend;
  }

  lemma NodePlacesGrow(nodes: seq<ClauseNode>, lists: seq<seq<ClauseNode>>, node: ClauseNode)
    requires Placed(nodes, lists) && node.serial == |nodes|
    requires node.attached ==> node.place.0 < |lists| && node.place.1 == |lists[node.place.0]|
    ensures var p := node.place.0;
            NodesPlaced(nodes + [node], (if node.attached then lists[p := lists[p] + [node]] else lists) + [[]])
  {
    hide ChildrenPlaced, ChildrenAscend;
  }

  /** The new node becomes the last child of its parent. */
  method AddChild(top: ClauseNode, node: ClauseNode, ghost nodes: seq<ClauseNode>)
    requires Ordered(nodes) && Placed(nodes, Lists(nodes)) && top.serial < |nodes| && nodes[top.serial] == top
    requires node !in nodes && node.serial == |nodes| && node.children == []
    requires node.attached && node.place == (top.serial, |top.children|)
    modifies top`children
    ensures Placed(nodes + [node], Lists(nodes + [node]))
  {
    PlacesGrow(nodes, Lists(nodes), node);
    ghost var was := Lists(nodes);
    top.children := top.children + [node];
    hide Placed;
    ghost var p := top.serial;
    assert forall i :: 0 <= i < |nodes| && i != p ==> nodes[i] != top;
    assert Lists(nodes + [node]) == was[p := was[p] + [node]] + [[]];
  }

  /** The stack's nodes that do not enclose the clause come off. */
  method PopTo(tok: string, ghost nodes: seq<ClauseNode>, stack0: seq<ClauseNode>) returns (stack: seq<ClauseNode>)
    requires Ordered(nodes) && Rising(nodes, stack0)
    ensures Rising(nodes, stack) && stack <= stack0 && Below(stack[|stack| - 1].clause, Some(tok))
    ensures forall s :: |stack| <= s < |stack0| ==> !Below(stack0[s].clause, Some(tok))
  {
    hide Open;
    var root := stack0[0];
    stack := stack0;
    while stack[|stack| - 1] != root
          && (stack[|stack| - 1].clause.None? || !(stack[|stack| - 1].clause.value + "." <= tok))
      invariant Rising(nodes, stack) && stack[0] == root && stack <= stack0
      invariant forall s :: |stack| <= s < |stack0| ==> !Below(stack0[s].clause, Some(tok))
      decreases |stack|
    {
      assert stack[|stack| - 1].serial > 0;
      PopRises(nodes, stack);
      stack := stack[..|stack| - 1];
    }
  }

  /** A numbered heading becomes the last child of the innermost open clause that encloses it. */
  method Attach(tok: string, title: string, ghost nodes: seq<ClauseNode>, stack0: seq<ClauseNode>)
    returns (node: ClauseNode, stack: seq<ClauseNode>)
    requires Built(nodes) && Rising(nodes, stack0) && Complete(nodes, stack0)
    modifies nodes`children
    ensures fresh(node) && node.serial == |nodes| && node.attached && node.clause == Some(tok) && node.heading == title
    ensures node.units == []
    ensures Built(nodes + [node]) && Rising(nodes + [node], stack) && Complete(nodes + [node], stack)
    ensures stack[|stack| - 1] == node
  {
    hide Ordered, Enclosed, Nested, Innermost, Placed, Lists, Rising, Below, Complete;
    stack := PopTo(tok, nodes, stack0);
    StackTop(nodes, stack);
    var top := stack[|stack| - 1];
    NewestSerial(nodes, |nodes|);
    node := new ClauseNode(Some(tok), title, |nodes|, true, (top.serial, |top.children|));
    ShapeGrows(nodes, stack, node);
    NestingGrows(nodes, stack, node);
    InnermostGrows(nodes, stack0, stack, node);
    PushRises(nodes, stack, node);
    PushCompletes(nodes, stack0, stack, node);
    AddChild(top, node, nodes);
    stack := stack + [node];
  }

  /** A skipped heading goes on the stack without a parent. */
  method Absorb(tok: string, title: string, ghost nodes: seq<ClauseNode>, stack0: seq<ClauseNode>)
    returns (node: ClauseNode, stack: seq<ClauseNode>)
    requires Built(nodes) && Rising(nodes, stack0) && Complete(nodes, stack0)
    ensures fresh(node) && node.serial == |nodes| && !node.attached && node.clause == Some(tok) && node.heading == title
    ensures node.units == []
    ensures Built(nodes + [node]) && Rising(nodes + [node], stack) && Complete(nodes + [node], stack)
    ensures stack[|stack| - 1] == node
  {
    hide Ordered, Enclosed, Nested, Innermost, Placed, Lists, Rising, Below, Complete;
    StackTop(nodes, stack0);
    node := new ClauseNode(Some(tok), title, |nodes|, false, (0, 0));
    ShapeGrows(nodes, stack0, node);
    NestingGrows(nodes, stack0, node);
    InnermostGrows(nodes, stack0, stack0, node);
    PushRises(nodes, stack0, node);
    PushCompletes(nodes, stack0, stack0, node);
    PlacesGrow(nodes, Lists(nodes), node);
    ListsOneMore(nodes, node);
    stack := stack0 + [node];
  }

  lemma StackTop(nodes: seq<ClauseNode>, stack: seq<ClauseNode>)
    requires Rising(nodes, stack)
    ensures stack != [] && stack[|stack| - 1].serial < |nodes|
    ensures nodes[stack[|stack| - 1].serial] == stack[|stack| - 1] && stack[|stack| - 1] in nodes
  {
  }

  lemma NewestSerial(nodes: seq<ClauseNode>, serial: nat)
    requires Ordered(nodes) && serial >= |nodes|
    ensures forall n :: n in nodes ==> n.serial != serial
  {
  }

  lemma ListsOneMore(nodes: seq<ClauseNode>, node: ClauseNode)
    ensures Lists(nodes + [node]) == Lists(nodes) + [node.children]
  {
    assert (nodes + [node])[..|nodes|] == nodes;
  }

  predicate IsClause(syn: Syntax, u: Unit) {
    u.kind == "h" && syn.token(u.text).Some?
  }

  function HeadingOf(syn: Syntax, u: Unit): (Crumb, bool)
    requires IsClause(syn, u)
  {
    (Crumb(syn.token(u.text).value, syn.title(u.text)), !syn.skip(syn.title(u.text)))
  }

  /** The numbered headings, and whether they are attached. */
  function Headings(syn: Syntax, us: seq<Unit>): seq<(Crumb, bool)> {
    if us == [] then []
    else
      var u := us[|us| - 1];
      Headings(syn, us[..|us| - 1])
      + if IsClause(syn, u) then [HeadingOf(syn, u)] else []
  }

  /** The other units that come after some numbered heading. */
  function Body(syn: Syntax, us: seq<Unit>): seq<string> {
    if us == [] then []
    else
      var n := |us| - 1;
      Body(syn, us[..n]) + if !IsClause(syn, us[n]) && Headings(syn, us[..n]) != [] then [us[n].text] else []
  }

  /** The text of the root, which stays empty, and of each numbered heading: what comes before the next one. */
  function TextsOf(syn: Syntax, us: seq<Unit>): (r: seq<seq<string>>)
    ensures |r| == |Headings(syn, us)| + 1 && r[0] == []
  {
    if us == [] then [[]]
    else
      var n := |us| - 1;
      var front := TextsOf(syn, us[..n]);
      if IsClause(syn, us[n]) then front + [[]]
      else if |front| > 1 then front[..|front| - 1] + [front[|front| - 1] + [us[n].text]]
      else front
  }

  /** The nodes after the root are the numbered headings, in order. */
  ghost predicate Heads(nodes: seq<ClauseNode>, heads: seq<(Crumb, bool)>) {
    && |nodes| == |heads| + 1
    && forall i :: 0 <= i < |heads| ==>
                     nodes[i + 1].clause == Some(heads[i].0.clause) && nodes[i + 1].heading == heads[i].0.heading
                     && nodes[i + 1].attached == heads[i].1
  }

  ghost function Texts(nodes: seq<ClauseNode>): (r: seq<seq<string>>)
    reads nodes`units
    ensures |r| == |nodes| && forall i :: 0 <= i < |nodes| ==> r[i] == nodes[i].units
  {
    if nodes == [] then [] else Texts(nodes[..|nodes| - 1]) + [nodes[|nodes| - 1].units]
  }

  /** What holds between units: the tree is built, the newest node is on top, and each node has its text so far. */
  ghost predicate Growing(syn: Syntax, us: seq<Unit>, nodes: seq<ClauseNode>, stack: seq<ClauseNode>)
    reads nodes`children, nodes`units
  {
    && Built(nodes) && Rising(nodes, stack) && Complete(nodes, stack) && stack[|stack| - 1] == nodes[|nodes| - 1]
    && Heads(nodes, Headings(syn, us)) && Texts(nodes) == TextsOf(syn, us)
  }

  lemma HeadingsOneMore(syn: Syntax, us: seq<Unit>, u: Unit)
    ensures Headings(syn, us + [u])
            == Headings(syn, us)
               + if IsClause(syn, u) then [HeadingOf(syn, u)] else []
    ensures TextsOf(syn, us + [u])
            == var ts := TextsOf(syn, us); var k := |ts| - 1;
               if IsClause(syn, u) then ts + [[]] else if k > 0 then ts[..k] + [ts[k] + [u.text]] else ts
  {
    assert (us + [u])[..|us|] == us;
  }

  lemma HeadsGrow(nodes: seq<ClauseNode>, heads: seq<(Crumb, bool)>, node: ClauseNode, c: Crumb, attached: bool)
    requires Heads(nodes, heads) && node.clause == Some(c.clause) && node.heading == c.heading
    requires node.attached == attached
    ensures Heads(nodes + [node], heads + [(c, attached)])
  {
  }

  method AddHeading(syn: Syntax, ghost us: seq<Unit>, u: Unit, ghost nodes: seq<ClauseNode>, stack0: seq<ClauseNode>)
    returns (node: ClauseNode, stack: seq<ClauseNode>)
    requires Growing(syn, us, nodes, stack0) && IsClause(syn, u)
    modifies nodes`children
    ensures fresh(node) && Growing(syn, us + [u], nodes + [node], stack)
  {
    hide Built, Rising, Complete, Headings, Heads, TextsOf;
    var tok, title := syn.token(u.text).value, syn.title(u.text);
    ghost var texts := Texts(nodes);
    HeadingsOneMore(syn, us, u);
    if syn.skip(title) {
      node, stack := Absorb(tok, title, nodes, stack0);
    } else {
      node, stack := Attach(tok, title, nodes, stack0);
    }
    HeadsGrow(nodes, Headings(syn, us), node, Crumb(tok, title), !syn.skip(title));
    assert Texts(nodes + [node]) == texts + [[]];
  }

  /** Text goes to the newest node, if there is one besides the root. */
  method AddText(syn: Syntax, ghost us: seq<Unit>, u: Unit, ghost nodes: seq<ClauseNode>, root: ClauseNode,
                 stack: seq<ClauseNode>)
    requires Growing(syn, us, nodes, stack) && !IsClause(syn, u) && nodes[0] == root
    modifies nodes`units
    ensures Growing(syn, us + [u], nodes, stack)
  {
    hide Growing, Built, Rising, Complete, Headings, Heads, TextsOf, Ordered;
    GrowingTop(syn, us, nodes, stack);
    HeadingsOneMore(syn, us, u);
    var top := stack[|stack| - 1];
    ghost var texts := Texts(nodes);
    if top != root {
      top.units := top.units + [u.text];
      TextGrows(texts, nodes, u.text);
    }
    StillGrowing(syn, us, u, nodes, stack);
  }

  lemma GrowingTop(syn: Syntax, us: seq<Unit>, nodes: seq<ClauseNode>, stack: seq<ClauseNode>)
    requires Growing(syn, us, nodes, stack)
    ensures nodes != [] && stack != [] && stack[|stack| - 1] == nodes[|nodes| - 1] && Ordered(nodes)
    ensures nodes[|nodes| - 1] != nodes[0] <==> Headings(syn, us) != []
    ensures forall i :: 0 <= i < |nodes| - 1 ==> nodes[i] != nodes[|nodes| - 1]
    ensures Texts(nodes) == TextsOf(syn, us)
    ensures Built(nodes) && Rising(nodes, stack) && Complete(nodes, stack) && Heads(nodes, Headings(syn, us))
  {
    hide Enclosed, Nested, Innermost, Placed, Complete, TextsOf, Headings;
  }

  lemma StillGrowing(syn: Syntax, us: seq<Unit>, u: Unit, nodes: seq<ClauseNode>, stack: seq<ClauseNode>)
    requires stack != [] && nodes != [] && stack[|stack| - 1] == nodes[|nodes| - 1]
    requires Built(nodes) && Rising(nodes, stack) && Complete(nodes, stack) && Heads(nodes, Headings(syn, us))
    requires !IsClause(syn, u) && Texts(nodes) == TextsOf(syn, us + [u])
    ensures Growing(syn, us + [u], nodes, stack)
  {
    hide Built, Rising, Complete, TextsOf, Heads, Headings;
    HeadingsOneMore(syn, us, u);
    assert Headings(syn, us) + [] == Headings(syn, us);
  }

  lemma TextGrows(texts: seq<seq<string>>, nodes: seq<ClauseNode>, text: string)
    requires Ordered(nodes) && |texts| == |nodes|
    requires forall i :: 0 <= i < |nodes| - 1 ==> nodes[i].units == texts[i]
    requires nodes[|nodes| - 1].units == texts[|nodes| - 1] + [text]
    ensures var k := |texts| - 1; Texts(nodes) == texts[..k] + [texts[k] + [text]]
  {
    var k := |nodes| - 1;
    var now := Texts(nodes);
    assert now[..k] == texts[..k];
  }

  /** Nothing is lost or moved: in order, the clauses hold all the text after the first heading. */
  lemma {:induction false} TextsFlatten(syn: Syntax, us: seq<Unit>)
    ensures Flatten(TextsOf(syn, us)) == Body(syn, us)
  {
    hide Flatten, IsClause;
    FlattenEmpty<string>();
    var none: seq<seq<string>> := [];
    FlattenOneMore(none, []);
    assert none + [[]] == [[]];
    if us != [] {
      var n := |us| - 1;
      var front := TextsOf(syn, us[..n]);
      var k := |front| - 1;
      TextsFlatten(syn, us[..n]);
      assert front == front[..k] + [front[k]];
      FlattenOneMore(front, []);
      FlattenOneMore(front[..k], front[k]);
      FlattenOneMore(front[..k], front[k] + [us[n].text]);
    }
  }

  function TextsIn(us: seq<Unit>): seq<string> {
    if us == [] then [] else TextsIn(us[..|us| - 1]) + [us[|us| - 1].text]
  }

  lemma NoTexts()
    ensures TextsIn([]) == []
  {
  }

  lemma TextsInOneMore(us: seq<Unit>, u: Unit)
    ensures TextsIn(us + [u]) == TextsIn(us) + [u.text]
  {
    assert (us + [u])[..|us|] == us;
  }

  lemma SameSlice(us: seq<Unit>, n: nat, a: nat, b: nat)
    requires a <= b <= n <= |us|
    ensures us[..n][a..b] == us[a..b]
  {
  }

  /** A numbered heading's place among the headings is the number of those before it. */
  lemma {:induction false} PlaceOfHeading(syn: Syntax, us: seq<Unit>, p: nat)
    requires p < |us| && IsClause(syn, us[p])
    ensures var i := |Headings(syn, us[..p])|;
            i < |Headings(syn, us)| && Headings(syn, us)[i] == HeadingOf(syn, us[p])
  {
    hide IsClause, HeadingOf;
    var n := |us| - 1;
    if p < n {
      assert us[..n][..p] == us[..p];
      PlaceOfHeading(syn, us[..n], p);
    }
  }

  /** A clause holds exactly the units between its heading and the next numbered one, or the end. */
  lemma {:induction false} TextBetween(syn: Syntax, us: seq<Unit>, p: nat, q: nat)
    requires p < q <= |us| && IsClause(syn, us[p]) && (q < |us| ==> IsClause(syn, us[q]))
    requires forall r :: p < r < q ==> !IsClause(syn, us[r])
    ensures var i := |Headings(syn, us[..p])|;
            && i < |Headings(syn, us)| && Headings(syn, us)[i] == HeadingOf(syn, us[p])
            && TextsOf(syn, us)[i + 1] == TextsIn(us[p + 1..q])
            && (q == |us| ==> i + 1 == |Headings(syn, us)|)
  {
    hide IsClause, HeadingOf, Headings, TextsOf, TextsIn;
    PlaceOfHeading(syn, us, p);
    var n := |us| - 1;
    var front := us[..n];
    assert us == front + [us[n]];
    HeadingsOneMore(syn, front, us[n]);
    if p == n {
      assert us[p + 1..q] == [];
      NoTexts();
    } else {
      assert front[..p] == us[..p];
      TextBetween(syn, front, p, if q <= n then q else n);
      if q <= n {
        SameSlice(us, n, p + 1, q);
        if q < n {
          TwoHeadings(syn, front, p, q);
        }
      } else {
        SameSlice(us, n, p + 1, n);
        TextsInOneMore(us[p + 1..n], us[n]);
        assert us[p + 1..q] == us[p + 1..n] + [us[n]];
      }
    }
  }

  lemma TwoHeadings(syn: Syntax, us: seq<Unit>, p: nat, q: nat)
    requires p < q < |us| && IsClause(syn, us[p]) && IsClause(syn, us[q])
    ensures |Headings(syn, us[..p])| + 1 < |Headings(syn, us)|
  {
    hide IsClause, HeadingOf, Headings;
    PlaceOfHeading(syn, us, q);
    assert us[..q][..p] == us[..p];
    PlaceOfHeading(syn, us[..q], p);
  }

  /** The number is the other one, a dot, and more. */
  ghost predicate Dotted(above: string, below: string) {
    exists rest: string :: below == above + "." + rest
  }

  lemma BelowIsDotted(above: string, below: string)
    ensures Below(Some(above), Some(below)) <==> Dotted(above, below)
  {
    if Below(Some(above), Some(below)) {
      assert below == above + "." + below[|above + "."|..];
    }
  }

  /**
   * A clause's parent is the root or has a number that the clause's continues after a dot; no
   * clause between the two with such a number was still open.
   */
  lemma PlacedByNumber(nodes: seq<ClauseNode>, b: nat)
    requires Built(nodes) && b < |nodes| && nodes[b].attached
    ensures var p := nodes[b].place.0;
            && p < b && nodes[b].clause.Some? && Open(nodes, p, b)
            && (nodes[p].clause.Some? ==> Dotted(nodes[p].clause.value, nodes[b].clause.value))
            && forall m: nat ::
                 p < m < b && nodes[m].clause.Some? && Dotted(nodes[m].clause.value, nodes[b].clause.value)
                 ==> !Open(nodes, m, b)
  {
    hide Placed, Dotted, Open, Below;
    var p := nodes[b].place.0;
    assert Below(nodes[p].clause, nodes[b].clause);
    if nodes[p].clause.Some? {
      BelowIsDotted(nodes[p].clause.value, nodes[b].clause.value);
    }
    forall m: nat | p < m < b && nodes[m].clause.Some? && Dotted(nodes[m].clause.value, nodes[b].clause.value)
      ensures !Open(nodes, m, b)
    {
      BelowIsDotted(nodes[m].clause.value, nodes[b].clause.value);
    }
  }
}

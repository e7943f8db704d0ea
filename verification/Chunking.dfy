/** The chunks of one clause: its packed text under a header and a breadcrumb. */
module Chunking {
  import opened Prelude
  import opened Text
  import opened Packing
  import opened Slicing
  import opened ClauseTree

  /** The document's identification, written on each of its chunks. */
  datatype Document = Document(spec: string, title: string, token: string, version: string)

  /** A chunk; each crumb of its breadcrumb stands for that clause's heading line. */
  datatype Chunk = Chunk(
    doc: Document, clause: string, heading: string, breadcrumb: seq<Crumb>, text: string, chars: nat)

  const MAX_CHARS := 6000
  const MIN_CHARS := 80

  /** A clause as the walk comes to it: where it is, its text, and the headings above it. */
  datatype Visit = Visit(serial: nat, clause: Option<string>, heading: string, units: seq<string>, crumbs: seq<Crumb>)

  function Under(crumbs: seq<Crumb>): string {
    if crumbs == [] then ""
    else Under(crumbs[..|crumbs| - 1]) + "[under: " + HeadingLine(crumbs[|crumbs| - 1]) + "] "
  }

  /** The header, the breadcrumb on a line of its own if there is one, and the body. */
  function ChunkText(doc: Document, c: Crumb, crumbs: seq<Crumb>, body: string): string {
    var header := doc.title + " V" + doc.version + " | " + HeadingLine(c);
    if crumbs == [] then header + "\n" + body else header + "\n" + Under(crumbs) + "\n" + body
  }

  function ChunkOf(doc: Document, c: Crumb, crumbs: seq<Crumb>, body: string): Chunk {
    Chunk(doc, c.clause, c.heading, crumbs, ChunkText(doc, c, crumbs, body), |body|)
  }

  function ChunksOf(doc: Document, v: Visit): seq<Chunk> {
    if v.clause.None? then []
    else
      var c := Crumb(v.clause.value, v.heading);
      var bodies := Bodies(Fill(PiecesOf(v.units, MAX_CHARS), 0, MAX_CHARS).All());
      if |HeadingLine(c)| + Lengths(bodies) < MIN_CHARS then []
      else seq(|bodies|, i requires 0 <= i < |bodies| => ChunkOf(doc, c, v.crumbs, bodies[i]))
  }

  function Lengths(bodies: seq<string>): nat {
    if bodies == [] then 0 else Lengths(bodies[..|bodies| - 1]) + |bodies[|bodies| - 1]|
  }

  function AllChunks(doc: Document, vs: seq<Visit>): seq<Chunk> {
    if vs == [] then [] else AllChunks(doc, vs[..|vs| - 1]) + ChunksOf(doc, vs[|vs| - 1])
  }

  lemma {:induction false} ChunksJoin(doc: Document, us: seq<Visit>, vs: seq<Visit>)
    ensures AllChunks(doc, us + vs) == AllChunks(doc, us) + AllChunks(doc, vs)
  {
    hide ChunksOf;
    if vs == [] {
      assert us + vs == us;
    } else {
      assert (us + vs)[..|us + vs| - 1] == us + vs[..|vs| - 1];
      ChunksJoin(doc, us, vs[..|vs| - 1]);
    }
  }

  lemma ChunksOfOne(doc: Document, v: Visit)
    ensures AllChunks(doc, [v]) == ChunksOf(doc, v)
  {
    assert [v][..0] == [];
  }

  lemma NoClauseNoChunks(doc: Document, v: Visit)
    ensures v.clause.None? ==> ChunksOf(doc, v) == []
  {
  }

  function Labelled(c: Crumb): string {
    "[under: " + (c.clause + "\t" + c.heading) + "] "
  }

  /** The breadcrumb line: the headings above, outermost first. */
  ghost predicate Crumbs(line: string, crumbs: seq<Crumb>) {
    exists items: seq<string> :: |items| == |crumbs| && line == JoinWith(items, "")
                                 && forall i :: 0 <= i < |crumbs| ==> items[i] == Labelled(crumbs[i])
  }

  /** The chunk is of this clause and ends in this body, after the header and the breadcrumb, if there is one. */
  ghost predicate Shows(doc: Document, v: Visit, body: string, ch: Chunk) {
    && ch.doc == doc && Some(ch.clause) == v.clause && ch.heading == v.heading && ch.breadcrumb == v.crumbs
    && ch.chars == |body|
    && exists header: string, under: string ::
         && ch.text == header + "\n" + under + body
         && header == doc.title + " V" + doc.version + " | " + (ch.clause + "\t" + ch.heading)
         && if v.crumbs == [] then under == ""
            else under != "" && under[|under| - 1] == '\n' && Crumbs(under[..|under| - 1], v.crumbs)
  }

  /** The parts hold all the pieces of the text, in order, as many as 6000 characters have room for. */
  predicate Packs(units: seq<string>, parts: seq<seq<string>>) {
    && Flatten(parts) == PiecesOf(units, 6000)
    && forall i :: 0 <= i < |parts| ==> Fits(parts[i], 0, 6000)
  }

  /** The chunks are all of the clause's text, unless that and the heading are shorter than 80 characters. */
  ghost predicate ShowsAll(doc: Document, v: Visit, cs: seq<Chunk>) {
    if v.clause.None? then cs == []
    else exists parts, bodies ::
           && Packs(v.units, parts) && |bodies| == |parts|
           && (forall i :: 0 <= i < |parts| ==> bodies[i] == JoinWith(parts[i], "\n\n"))
           && if |v.clause.value| + 1 + |v.heading| + |JoinWith(bodies, "")| < 80 then cs == []
              else |cs| == |bodies| && forall i :: 0 <= i < |cs| ==> Shows(doc, v, bodies[i], cs[i])
  }

  ghost function Items(crumbs: seq<Crumb>): (r: seq<string>)
    ensures |r| == |crumbs| && forall i :: 0 <= i < |crumbs| ==> r[i] == Labelled(crumbs[i])
  {
    seq(|crumbs|, i requires 0 <= i < |crumbs| => Labelled(crumbs[i]))
  }

  lemma {:induction false} UnderIsItems(crumbs: seq<Crumb>)
    ensures Under(crumbs) == JoinWith(Items(crumbs), "")
  {
    hide JoinWith, Labelled;
    NothingJoins();
    if crumbs != [] {
      var n := |crumbs| - 1;
      UnderIsItems(crumbs[..n]);
      UnderOneMore(crumbs);
      assert Items(crumbs) == Items(crumbs[..n]) + [Labelled(crumbs[n])];
      JoinOneMore(Items(crumbs[..n]), Labelled(crumbs[n]), "");
      assert Under(crumbs[..n]) + "" == Under(crumbs[..n]) && "" + Labelled(crumbs[n]) == Labelled(crumbs[n]);
    } else {
      assert Items(crumbs) == [];
    }
  }

  lemma UnderOneMore(crumbs: seq<Crumb>)
    requires crumbs != []
    ensures Under(crumbs) == Under(crumbs[..|crumbs| - 1]) + Labelled(crumbs[|crumbs| - 1])
  {
    var c := crumbs[|crumbs| - 1];
    Regroup(Under(crumbs[..|crumbs| - 1]), "[under: ", c.clause + "\t" + c.heading, "] ");
  }

  lemma Regroup(a: string, b: string, c: string, d: string)
    ensures a + b + c + d == a + (b + c + d)
  {
  }

  lemma UnderIsJoined(crumbs: seq<Crumb>)
    ensures Crumbs(Under(crumbs), crumbs)
  {
    hide Under, JoinWith, Labelled;
    UnderIsItems(crumbs);
    assert |Items(crumbs)| == |crumbs|;
  }

  lemma NothingJoins()
    ensures JoinWith([], "") == ""
  {
  }

  lemma {:induction false} LengthsAreJoined(bodies: seq<string>)
    ensures Lengths(bodies) == |JoinWith(bodies, "")|
  {
    if |bodies| > 1 {
      LengthsAreJoined(bodies[..|bodies| - 1]);
    }
  }

  lemma ChunkShows(doc: Document, v: Visit, body: string)
    requires v.clause.Some?
    ensures Shows(doc, v, body, ChunkOf(doc, Crumb(v.clause.value, v.heading), v.crumbs, body))
  {
    hide Under, Crumbs;
    UnderIsJoined(v.crumbs);
    var header := doc.title + " V" + doc.version + " | " + (v.clause.value + "\t" + v.heading);
    var under := if v.crumbs == [] then "" else Under(v.crumbs) + "\n";
    EndOf(Under(v.crumbs), '\n');
    Insert(header + "\n", Under(v.crumbs), "\n", body);
    assert ChunkOf(doc, Crumb(v.clause.value, v.heading), v.crumbs, body).text == header + "\n" + under + body;
  }

  lemma EndOf(s: string, c: char)
    ensures (s + [c])[..|s + [c]| - 1] == s && (s + [c])[|s + [c]| - 1] == c
  {
  }

  lemma Insert(a: string, b: string, c: string, d: string)
    ensures a + b + c + d == a + (b + c) + d && a + d == a + "" + d
  {
    assert a + "" == a;
  }

  /** The chunks of a visit show all its text. */
  lemma ChunksShowAll(doc: Document, v: Visit)
    ensures ShowsAll(doc, v, ChunksOf(doc, v))
  {
    hide Fill, PiecesOf, JoinWith, Shows, Flatten, Size, ChunkOf, Lengths;
    if v.clause.Some? {
      var pieces := PiecesOf(v.units, MAX_CHARS);
      var parts := Fill(pieces, 0, MAX_CHARS).All();
      var bodies := Bodies(parts);
      GreedyFlattens(pieces, 0, MAX_CHARS);
      GreedyFits(pieces, 0, MAX_CHARS);
      LengthsAreJoined(bodies);
      forall i | 0 <= i < |bodies|
        ensures Shows(doc, v, bodies[i], ChunkOf(doc, Crumb(v.clause.value, v.heading), v.crumbs, bodies[i]))
      {
        ChunkShows(doc, v, bodies[i]);
      }
      assert Packs(v.units, parts);
    }
  }

  /** The chunks of each visit, one after another. */
  ghost predicate ShowsEach(doc: Document, vs: seq<Visit>, chunks: seq<Chunk>) {
    exists groups: seq<seq<Chunk>> ::
      |groups| == |vs| && Flatten(groups) == chunks && forall a :: 0 <= a < |vs| ==> ShowsAll(doc, vs[a], groups[a])
  }

  lemma {:induction false} AllChunksShown(doc: Document, vs: seq<Visit>)
    ensures ShowsEach(doc, vs, AllChunks(doc, vs))
  {
    hide ChunksOf, ShowsAll, Flatten;
    if vs == [] {
      FlattenEmpty<Chunk>();
      var none: seq<seq<Chunk>> := [];
      assert |none| == 0;
    } else {
      var n := |vs| - 1;
      AllChunksShown(doc, vs[..n]);
      var groups: seq<seq<Chunk>> :| |groups| == n && Flatten(groups) == AllChunks(doc, vs[..n])
        && forall a :: 0 <= a < n ==> ShowsAll(doc, vs[..n][a], groups[a]);
      ChunksShowAll(doc, vs[n]);
      FlattenOneMore(groups, ChunksOf(doc, vs[n]));
      var more := groups + [ChunksOf(doc, vs[n])];
      assert |more| == |vs| && forall a :: 0 <= a < n ==> more[a] == groups[a] && vs[a] == vs[..n][a];
    }
  }
}

/** Slicing an oversized unit at its spaces, and packing units into bodies. */
module Slicing {
  import opened Packing
  import opened Text

  /** Finished slices, and the text being gathered for the next one. */
  datatype Cut = Cut(out: seq<string>, buf: string)
  {
    function All(): seq<string> {
      if buf == "" then out else out + [buf]
    }
  }

  function NextWord(c: Cut, word: string, max: int): Cut {
    if c.buf != "" && |c.buf| + |word| + 1 > max then Cut(c.out + [c.buf], word)
    else Cut(c.out, if c.buf == "" then word else c.buf + " " + word)
  }

  function CutWords(words: seq<string>, max: int): Cut {
    if words == [] then Cut([], "") else NextWord(CutWords(words[..|words| - 1], max), words[|words| - 1], max)
  }

  function SlicesOf(text: string, max: int): seq<string> {
    if |text| <= max then [text] else CutWords(SplitOn(text, ' '), max).All()
  }

  /** No empty word comes when a slice begins: none comes first, after such a word, or where the bound is hit. */
  predicate Lossless(words: seq<string>, max: int) {
    words == [] ||
    var before, word := words[..|words| - 1], words[|words| - 1];
    && Lossless(before, max)
    && (word == "" ==> before != [] && |CutWords(before, max).buf| + 1 <= max)
  }

  lemma NextWordJoins(c: Cut, word: string, max: int)
    requires c.buf != "" && (word == "" ==> |c.buf| + 1 <= max)
    ensures NextWord(c, word, max).buf != ""
    ensures JoinWith(NextWord(c, word, max).All(), " ") == JoinWith(c.All(), " ") + " " + word
  {
    hide JoinWith;
    if |c.buf| + |word| + 1 > max {
      JoinOneMore(c.out + [c.buf], word, " ");
    } else {
      JoinOneMore(c.out, c.buf, " ");
      JoinOneMore(c.out, c.buf + " " + word, " ");
      assert c.buf + " " + word == c.buf + (" " + word);
    }
  }

  lemma {:induction false} CutIsLossless(words: seq<string>, max: int)
    requires words != [] && Lossless(words, max)
    ensures CutWords(words, max).buf != ""
    ensures JoinWith(CutWords(words, max).All(), " ") == JoinWith(words, " ")
  {
    var n := |words| - 1;
    var c := CutWords(words[..n], max);
    if n > 0 {
      hide JoinWith, Lossless, NextWord;
      LosslessStep(words, max);
      CutIsLossless(words[..n], max);
      NextWordJoins(c, words[n], max);
      assert words == words[..n] + [words[n]];
      JoinOneMore(words[..n], words[n], " ");
    }
  }

  /** A dropped empty word takes its space with it. */
  lemma {:induction false} CutIsShorter(words: seq<string>, max: int)
    requires words != [] && !Lossless(words, max)
    ensures words == [""] || |JoinWith(CutWords(words, max).All(), " ")| < |JoinWith(words, " ")|
  {
    var n := |words| - 1;
    var c := CutWords(words[..n], max);
    assert words == words[..n] + [words[n]];
    if n > 0 {
      hide JoinWith, Lossless;
      JoinOneMore(words[..n], words[n], " ");
      JoinOneMore(c.out, c.buf, " ");
      JoinOneMore(c.out, words[n], " ");
      JoinOneMore(c.out, c.buf + " " + words[n], " ");
      JoinOneMore(c.out + [c.buf], words[n], " ");
      JoinOfNone();
      LosslessStep(words, max);
      if Lossless(words[..n], max) {
        CutIsLossless(words[..n], max);
      } else {
        CutIsShorter(words[..n], max);
        CutOfNothing(max);
      }
    }
  }

  lemma LosslessStep(words: seq<string>, max: int)
    requires words != []
    ensures var before, word := words[..|words| - 1], words[|words| - 1];
            Lossless(words, max) <==>
            Lossless(before, max) && (word == "" ==> before != [] && |CutWords(before, max).buf| + 1 <= max)
  {
  }

  lemma JoinOfNone()
    ensures JoinWith([], " ") == "" && JoinWith([""], " ") == ""
  {
  }

  /** The slices joined by spaces are the text, unless an empty word comes where a slice begins. */
  lemma SlicesRejoin(text: string, max: int)
    ensures JoinWith(SlicesOf(text, max), " ") == text
            <==> |text| <= max || text == "" || Lossless(SplitOn(text, ' '), max)
  {
    hide Lossless, CutWords, JoinWith, SplitOn;
    var words := SplitOn(text, ' ');
    JoinOfSplit(text, ' ');
    JoinOneMore([], text, " ");
    assert [] + [text] == [text];
    JoinOfNone();
    assert [' '] == " ";
    if |text| > max {
      CutOfNothing(max);
      if Lossless(words, max) {
        CutIsLossless(words, max);
      } else {
        CutIsShorter(words, max);
        SplitEmpty(' ');
      }
    }
  }

  lemma CutOfNothing(max: int)
    ensures CutWords([""], max) == Cut([], "")
  {
    assert CutWords([], max) == Cut([], "");
  }

  /** A leading space is lost. */
  lemma LeadingSpaceIsLost()
    ensures JoinWith(SlicesOf(" ab", 2), " ") == "ab"
  {
    hide SplitOn;
    SplitEmpty(' ');
    SplitSeparator("", ' ');
    SplitAppend(" ", "ab", ' ');
    assert "" + [' '] == " " && " " + "ab" == " ab";
    assert SplitOn(" ", ' ') == ["", ""] && "" + "ab" == "ab";
    assert SplitOn(" ab", ' ') == ["", "ab"];
    assert ["", "ab"][..1] == [""] && [""][..0] == [];
    assert CutWords([""], 2) == Cut([], "");
    assert CutWords(["", "ab"], 2) == Cut([], "ab");
  }

  function SizedTexts(parts: seq<seq<string>>): (r: seq<string>)
    ensures |r| == |parts| && forall i :: 0 <= i < |r| ==> r[i] == JoinWith(parts[i], " ")
  {
    seq(|parts|, i requires 0 <= i < |parts| => JoinWith(parts[i], " "))
  }

  lemma {:induction false} SizeOfJoin(part: seq<string>)
    ensures Size(part, 1) == |JoinWith(part, " ")|
  {
    if |part| > 1 {
      SizeOfJoin(part[..|part| - 1]);
    }
  }

  lemma {:induction false} LosslessWithoutEmptyWords(words: seq<string>, max: int)
    requires "" !in words
    ensures Lossless(words, max)
  {
    if words != [] {
      LosslessWithoutEmptyWords(words[..|words| - 1], max);
    }
  }

  /** Without empty words, slicing is greedy filling with one-space gaps. */
  lemma {:induction false} CutIsFill(words: seq<string>, max: int)
    requires "" !in words
    ensures var c, f := CutWords(words, max), Fill(words, 1, max);
            c.out == SizedTexts(f.parts) && c.buf == JoinWith(f.current, " ") && (c.buf == "" <==> f.current == [])
  {
    if words != [] {
      hide JoinWith, Size;
      var n := |words| - 1;
      assert words[n] in words;
      CutIsFill(words[..n], max);
      var f := Fill(words[..n], 1, max);
      SizeOfJoin(f.current);
      JoinOneMore(f.current, words[n], " ");
      JoinOneMore([], words[n], " ");
      assert SizedTexts(f.parts + [f.current]) == SizedTexts(f.parts) + [JoinWith(f.current, " ")];
      assert [] + [words[n]] == [words[n]];
    } else {
      JoinOfNone();
    }
  }

  /**
   * A text without empty words whose words all fit: the slices rejoin to it, each is within the
   * bound, and no way of cutting the words in order into slices within it gives fewer.
   */
  lemma SlicesAreFewest(text: string, max: int, parts: seq<seq<string>>)
    requires "" !in SplitOn(text, ' ')
    requires forall w :: w in SplitOn(text, ' ') ==> |w| <= max
    requires IsSplit(parts, SplitOn(text, ' '), 1, max)
    ensures JoinWith(SlicesOf(text, max), " ") == text
    ensures forall s :: s in SlicesOf(text, max) ==> 0 < |s| <= max
    ensures |SlicesOf(text, max)| <= |parts|
  {
    hide SplitOn, Fill, CutWords, JoinWith, Lossless, IsSplit, Flatten;
    var words := SplitOn(text, ' ');
    LosslessWithoutEmptyWords(words, max);
    SlicesRejoin(text, max);
    if |text| > max {
      CutIsFill(words, max);
      GreedyIsOptimal(parts, words, 1, max);
      GreedyWithinBound(words, 1, max);
      var all := Fill(words, 1, max).All();
      forall i | 0 <= i < |all|
        ensures |JoinWith(all[i], " ")| <= max
      {
        SizeOfJoin(all[i]);
      }
      SlicesAreNotEmpty(words, max);
      var slices := SlicesOf(text, max);
      forall i | 0 <= i < |slices|
        ensures 0 < |slices[i]| <= max
      {
        assert slices[i] == JoinWith(all[i], " ");
        assert i < |CutWords(words, max).out| ==> slices[i] in CutWords(words, max).out;
      }
    } else {
      SplitEmpty(' ');
      SplitIsNotEmpty(parts, words, 1, max);
    }
  }

  lemma {:induction false} SlicesAreNotEmpty(words: seq<string>, max: int)
    ensures "" !in CutWords(words, max).out
  {
    if words != [] {
      SlicesAreNotEmpty(words[..|words| - 1], max);
    }
  }

  method Slices(text: string, max: int) returns (out: seq<string>)
    ensures out == SlicesOf(text, max)
  {
    if |text| <= max {
      return [text];
    }
    var words := SplitOn(text, ' ');
    var buf := "";
    out := [];
    for i := 0 to |words|
      invariant Cut(out, buf) == CutWords(words[..i], max)
    {
      assert words[..i + 1][..i] == words[..i];
      var word := words[i];
      if buf != "" && |buf| + |word| + 1 > max {
        out := out + [buf];
        buf := word;
      } else {
        buf := if buf != "" then buf + " " + word else word;
      }
    }
    assert words[..|words|] == words;
    if buf != "" {
      out := out + [buf];
    }
  }

  function PiecesOf(units: seq<string>, max: int): seq<string> {
    if units == [] then [] else PiecesOf(units[..|units| - 1], max) + SlicesOf(units[|units| - 1], max)
  }

  function Bodies(parts: seq<seq<string>>): (r: seq<string>)
    ensures |r| == |parts| && forall i :: 0 <= i < |r| ==> r[i] == JoinWith(parts[i], "\n\n")
  {
    seq(|parts|, i requires 0 <= i < |parts| => JoinWith(parts[i], "\n\n"))
  }

  lemma BodiesOneMore(parts: seq<seq<string>>, part: seq<string>)
    ensures Bodies(parts + [part]) == Bodies(parts) + [JoinWith(part, "\n\n")]
  {
  }

  lemma NothingPacked(max: int)
    ensures PiecesOf([], max) == [] && Fill([], 0, max) == Filling([], []) && Bodies([]) == []
  {
  }

  lemma PiecesOneMore(units: seq<string>, unit: string, max: int)
    ensures PiecesOf(units + [unit], max) == PiecesOf(units, max) + SlicesOf(unit, max)
  {
    assert (units + [unit])[..|units|] == units;
  }

  /** Adds the pieces of one unit, in order, to the bodies and the part being filled. */
  method PackUnit(pieces: seq<string>, max: int, parts0: seq<string>, current0: seq<string>, size0: nat,
                  ghost before: seq<string>)
    returns (parts: seq<string>, current: seq<string>, size: nat)
    requires var f := Fill(before, 0, max); parts0 == Bodies(f.parts) && current0 == f.current
    requires size0 == Size(current0, 0)
    ensures var f := Fill(before + pieces, 0, max); parts == Bodies(f.parts) && current == f.current
    ensures size == Size(current, 0)
  {
    hide Fill, Size, JoinWith, Bodies;
    parts, current, size := parts0, current0, size0;
    assert before + pieces[..0] == before;
    SizeOfNothing(0);
    for p := 0 to |pieces|
      invariant var f := Fill(before + pieces[..p], 0, max); parts == Bodies(f.parts) && current == f.current
      invariant size == Size(current, 0)
    {
      var piece := pieces[p];
      FillOneMore(before + pieces[..p], piece, 0, max);
      assert before + pieces[..p + 1] == before + pieces[..p] + [piece];
      BodiesOneMore(Fill(before + pieces[..p], 0, max).parts, current);
      if current != [] && size + |piece| > max {
        parts := parts + [JoinWith(current, "\n\n")];
        current, size := [], 0;
      }
      SizeOneMore(current, piece, 0);
      current := current + [piece];
      size := size + |piece|;
    }
    assert before + pieces[..|pieces|] == before + pieces;
  }

  /**
   * The bodies are those of the greedy parts of all units' slices. They keep to the bound
   * exactly when every unit can be cut to it and no separator matters to the filling.
   */
  method Pack(units: seq<string>, max: int) returns (parts: seq<string>)
    ensures parts == Bodies(Fill(PiecesOf(units, max), 0, max).All())
    ensures AllWithin(parts, max)
            <==> (forall i :: 0 <= i < |units| ==> UnitFits(units[i], max))
                 && Fill(PiecesOf(units, max), 0, max) == Fill(PiecesOf(units, max), 2, max)
  {
    hide Fill, Size, SlicesOf, PiecesOf, Bodies, JoinWith, AllWithin, UnitFits;
    BodiesWithin(PiecesOf(units, max), max);
    PiecesFit(units, max);
    parts := [];
    var current: seq<string> := [];
    var size := 0;
    SizeOfNothing(0);
    NothingPacked(max);
    assert units[..0] == [];
    for u := 0 to |units|
      invariant var f := Fill(PiecesOf(units[..u], max), 0, max); parts == Bodies(f.parts) && current == f.current
      invariant size == Size(current, 0)
    {
      var pieces := Slices(units[u], max);
      PiecesOneMore(units[..u], units[u], max);
      assert units[..u + 1] == units[..u] + [units[u]];
      parts, current, size := PackUnit(pieces, max, parts, current, size, PiecesOf(units[..u], max));
    }
    assert units[..|units|] == units;
    BodiesOneMore(Fill(PiecesOf(units, max), 0, max).parts, current);
    if current != [] {
      parts := parts + [JoinWith(current, "\n\n")];
    }
  }

  lemma {:induction false} LengthOfBody(part: seq<string>)
    ensures |JoinWith(part, "\n\n")| == Size(part, 2)
  {
    if |part| > 1 {
      LengthOfBody(part[..|part| - 1]);
    }
  }

  /** What the separators add to a body. */
  lemma {:induction false} SeparatorsAdd(part: seq<string>)
    ensures Size(part, 2) == Size(part, 0) + if part == [] then 0 else 2 * (|part| - 1)
  {
    if |part| > 1 {
      SeparatorsAdd(part[..|part| - 1]);
    }
  }

  predicate AllWithin(texts: seq<string>, max: int) {
    forall i :: 0 <= i < |texts| ==> |texts[i]| <= max
  }

  predicate PartsWithin(parts: seq<seq<string>>, max: int) {
    forall i :: 0 <= i < |parts| ==> Size(parts[i], 2) <= max
  }

  /** A body over the bound stays over it, whatever is put after it. */
  lemma PutKeepsWithin(f: Filling, piece: string, max: int)
    requires PartsWithin(Put(f, piece, 0, max).All(), max)
    ensures PartsWithin(f.All(), max) && |piece| <= max
    ensures Put(f, piece, 0, max) == Put(f, piece, 2, max)
  {
    hide Size, PartsWithin;
    var all := Put(f, piece, 0, max).All();
    SeparatorsAdd(f.current);
    SizeOneMore(f.current, piece, 2);
    SizeOneMore([], piece, 2);
    if f.current != [] && Size(f.current, 0) + |piece| > max {
      assert [] + [piece] == [piece];
      assert all == f.All() + [[piece]];
      WithinOneMore(f.All(), [piece], max);
    } else {
      assert all == f.parts + [f.current + [piece]];
      WithinOneMore(f.parts, f.current + [piece], max);
      WithinOneMore(f.parts, f.current, max);
    }
  }

  lemma WithinOneMore(parts: seq<seq<string>>, last: seq<string>, max: int)
    ensures PartsWithin(parts + [last], max) <==> PartsWithin(parts, max) && Size(last, 2) <= max
  {
    hide Size;
    var more := parts + [last];
    assert more[|parts|] == last && forall i :: 0 <= i < |parts| ==> more[i] == parts[i];
  }

  lemma {:induction false} WithinAgrees(pieces: seq<string>, max: int)
    requires PartsWithin(Fill(pieces, 0, max).All(), max)
    ensures AllWithin(pieces, max) && Fill(pieces, 0, max) == Fill(pieces, 2, max)
  {
    if pieces != [] {
      hide Put, PartsWithin;
      var n := |pieces| - 1;
      PutKeepsWithin(Fill(pieces[..n], 0, max), pieces[n], max);
      WithinAgrees(pieces[..n], max);
      assert forall i :: 0 <= i < n ==> pieces[..n][i] == pieces[i];
    }
  }

  /**
   * The bodies keep to the bound exactly when every piece does and counting the separators
   * would never have started a new part earlier.
   */
  lemma BodiesWithin(pieces: seq<string>, max: int)
    ensures AllWithin(Bodies(Fill(pieces, 0, max).All()), max)
            <==> AllWithin(pieces, max) && Fill(pieces, 0, max) == Fill(pieces, 2, max)
  {
    hide Fill, JoinWith, Size;
    var all := Fill(pieces, 0, max).All();
    forall i | 0 <= i < |all|
      ensures |Bodies(all)[i]| == Size(all[i], 2)
    {
      LengthOfBody(all[i]);
    }
    assert AllWithin(Bodies(all), max) <==> PartsWithin(all, max);
    if PartsWithin(all, max) {
      WithinAgrees(pieces, max);
    }
    if AllWithin(pieces, max) && Fill(pieces, 0, max) == Fill(pieces, 2, max) {
      GreedyWithinBound(pieces, 2, max);
    }
  }

  /** When every piece fits, a body is over the bound by at most its separators. */
  lemma BodiesOvershoot(pieces: seq<string>, max: int, i: nat)
    requires AllWithin(pieces, max) && i < |Fill(pieces, 0, max).All()|
    ensures var part := Fill(pieces, 0, max).All()[i];
            part != [] && |JoinWith(part, "\n\n")| <= max + 2 * (|part| - 1)
  {
    hide Fill, JoinWith, Size;
    GreedyWithinBound(pieces, 0, max);
    GreedyIsSplit(pieces, 0, max);
    var part := Fill(pieces, 0, max).All()[i];
    assert Fits(part, 0, max);
    LengthOfBody(part);
    SeparatorsAdd(part);
  }

  /** Two units that fill the bound exactly make a body over it. */
  lemma SeparatorsOverflow()
    ensures Fill(PiecesOf(["a", "b"], 2), 0, 2) == Filling([], ["a", "b"])
    ensures |JoinWith(["a", "b"], "\n\n")| == 4
  {
    PiecesOneMore([], "a", 2);
    PiecesOneMore(["a"], "b", 2);
    NothingPacked(2);
    FillOneMore([], "a", 0, 2);
    FillOneMore(["a"], "b", 0, 2);
    assert [] + ["a"] == ["a"] && ["a"] + ["b"] == ["a", "b"];
    assert ["a", "b"][..1] == ["a"] && ["a"][..0] == [];
    LengthOfBody(["a", "b"]);
    assert Size(["a"], 0) == 1 && Size(["a"], 2) == 1;
  }

  predicate WordsWithin(words: seq<string>, max: int) {
    forall i :: 0 <= i < |words| && words[i] != "" ==> |words[i]| <= max
  }

  lemma CutStep(words: seq<string>, max: int)
    ensures words == [] ==> CutWords(words, max).All() == [] && WordsWithin(words, max)
    ensures words != [] ==>
              var n := |words| - 1;
              && CutWords(words, max) == NextWord(CutWords(words[..n], max), words[n], max)
              && (WordsWithin(words, max) <==>
                  WordsWithin(words[..n], max) && (words[n] != "" ==> |words[n]| <= max))
  {
    assert words != [] ==> words == words[..|words| - 1] + [words[|words| - 1]];
  }

  /** A slice is over the bound only because a word is. */
  lemma {:induction false} CutFits(words: seq<string>, max: int)
    ensures AllWithin(CutWords(words, max).All(), max) <==> WordsWithin(words, max)
  {
    hide CutWords, NextWord, AllWithin, WordsWithin;
    CutStep(words, max);
    if words == [] {
      NoneWithin(max);
    } else {
      var n := |words| - 1;
      CutFits(words[..n], max);
      NextFits(CutWords(words[..n], max), words[n], max);
    }
  }

  lemma NoneWithin(max: int)
    ensures AllWithin([], max)
  {
  }

  lemma NextFits(c: Cut, word: string, max: int)
    ensures AllWithin(NextWord(c, word, max).All(), max) <==> AllWithin(c.All(), max) && (word != "" ==> |word| <= max)
  {
    var d := NextWord(c, word, max);
    assert forall i :: 0 <= i < |c.out| ==> c.All()[i] == c.out[i] == d.All()[i];
    assert c.buf != "" ==> c.All()[|c.out|] == c.buf;
    assert d.buf != "" ==> d.All()[|d.out|] == d.buf;
    if c.buf != "" && |c.buf| + |word| + 1 > max {
      assert d.All()[|c.out|] == c.buf;
    }
  }

  predicate UnitFits(unit: string, max: int) {
    |unit| <= max || forall w :: w in SplitOn(unit, ' ') && w != "" ==> |w| <= max
  }

  lemma SlicesFit(unit: string, max: int)
    ensures AllWithin(SlicesOf(unit, max), max) <==> UnitFits(unit, max)
  {
    hide CutWords;
    if |unit| > max {
      CutFits(SplitOn(unit, ' '), max);
    }
  }

  lemma {:induction false} PiecesFit(units: seq<string>, max: int)
    ensures AllWithin(PiecesOf(units, max), max) <==> forall i :: 0 <= i < |units| ==> UnitFits(units[i], max)
  {
    hide SlicesOf, UnitFits;
    if units != [] {
      var n := |units| - 1;
      PiecesFit(units[..n], max);
      SlicesFit(units[n], max);
      JoinWithin(PiecesOf(units[..n], max), SlicesOf(units[n], max), max);
      assert forall i :: 0 <= i < n ==> units[..n][i] == units[i];
    }
  }

  lemma JoinWithin(a: seq<string>, b: seq<string>, max: int)
    ensures AllWithin(a + b, max) <==> AllWithin(a, max) && AllWithin(b, max)
  {
    var all := a + b;
    assert forall i :: 0 <= i < |a| ==> all[i] == a[i];
    assert forall i :: 0 <= i < |b| ==> all[|a| + i] == b[i];
    forall i | 0 <= i < |all| && AllWithin(a, max) && AllWithin(b, max)
      ensures |all[i]| <= max
    {
      assert all[i] == if i < |a| then a[i] else b[i - |a|];
    }
  }
}

/** Greedy packing: pieces fill one part after another, each part within a bound. */
module Packing {
  /** The size of a part: its pieces' lengths, and `sep` between neighbours. */
  function Size(part: seq<string>, sep: nat): nat {
    if part == [] then 0
    else if |part| == 1 then |part[0]|
    else Size(part[..|part| - 1], sep) + sep + |part[|part| - 1]|
  }

  /** A part may be over the bound only as a single piece. */
  predicate Fits(part: seq<string>, sep: nat, max: int) {
    part != [] && (|part| == 1 || Size(part, sep) <= max)
  }

  function Flatten<T>(parts: seq<seq<T>>): seq<T> {
    if parts == [] then [] else Flatten(parts[..|parts| - 1]) + parts[|parts| - 1]
  }

  /** An order-preserving split of the pieces into parts that fit. */
  predicate IsSplit(parts: seq<seq<string>>, pieces: seq<string>, sep: nat, max: int) {
    Flatten(parts) == pieces && forall i :: 0 <= i < |parts| ==> Fits(parts[i], sep, max)
  }

  /** Finished parts, and the one being filled. */
  datatype Filling = Filling(parts: seq<seq<string>>, current: seq<string>)
  {
    function All(): seq<seq<string>> {
      if current == [] then parts else parts + [current]
    }
  }

  function Put(f: Filling, piece: string, sep: nat, max: int): Filling {
    if f.current != [] && Size(f.current, sep) + |piece| + sep > max then Filling(f.parts + [f.current], [piece])
    else Filling(f.parts, f.current + [piece])
  }

  /** Greedy filling: a piece goes to the current part unless it would overflow it. */
  function Fill(pieces: seq<string>, sep: nat, max: int): Filling {
    if pieces == [] then Filling([], [])
    else Put(Fill(pieces[..|pieces| - 1], sep, max), pieces[|pieces| - 1], sep, max)
  }

  lemma SizeOfNothing(sep: nat)
    ensures Size([], sep) == 0
  {
  }

  lemma SizeOneMore(part: seq<string>, piece: string, sep: nat)
    ensures Size(part + [piece], sep) == if part == [] then |piece| else Size(part, sep) + sep + |piece|
  {
    assert (part + [piece])[..|part|] == part;
  }

  lemma FlattenEmpty<T>()
    ensures Flatten<T>([]) == []
  {
  }

  lemma FlattenOneMore<T>(parts: seq<seq<T>>, part: seq<T>)
    ensures Flatten(parts + [part]) == Flatten(parts) + part
  {
    assert (parts + [part])[..|parts|] == parts;
  }

  lemma {:induction false} GreedyFlattens(pieces: seq<string>, sep: nat, max: int)
    ensures Flatten(Fill(pieces, sep, max).All()) == pieces
    ensures pieces != [] ==> Fill(pieces, sep, max).current != []
  {
    hide Flatten, Size;
    if pieces == [] {
      FlattenEmpty<string>();
    } else {
      var n := |pieces| - 1;
      GreedyFlattens(pieces[..n], sep, max);
      var f := Fill(pieces[..n], sep, max);
      FlattenOneMore(f.parts, f.current);
      FlattenOneMore(f.parts, f.current + [pieces[n]]);
      FlattenOneMore(f.parts + [f.current], [pieces[n]]);
      assert pieces == pieces[..n] + [pieces[n]];
    }
  }

  lemma FillOneMore(pieces: seq<string>, piece: string, sep: nat, max: int)
    ensures Fill(pieces + [piece], sep, max) == Put(Fill(pieces, sep, max), piece, sep, max)
  {
    assert (pieces + [piece])[..|pieces|] == pieces;
  }

  predicate AllFit(f: Filling, sep: nat, max: int) {
    && (forall i :: 0 <= i < |f.parts| ==> Fits(f.parts[i], sep, max))
    && (f.current != [] ==> Fits(f.current, sep, max))
  }

  lemma PutFits(f: Filling, piece: string, sep: nat, max: int)
    requires AllFit(f, sep, max)
    ensures AllFit(Put(f, piece, sep, max), sep, max) && Put(f, piece, sep, max).current != []
  {
    SizeOneMore(f.current, piece, sep);
    hide Size;
  }

  lemma {:induction false} GreedyFits(pieces: seq<string>, sep: nat, max: int)
    ensures AllFit(Fill(pieces, sep, max), sep, max) && (pieces != [] ==> Fill(pieces, sep, max).current != [])
  {
    hide Size, Fits, Put;
    if pieces != [] {
      var n := |pieces| - 1;
      GreedyFits(pieces[..n], sep, max);
      PutFits(Fill(pieces[..n], sep, max), pieces[n], sep, max);
    }
  }

  /** The greedy parts are a split of the pieces, and the last one is the current part. */
  lemma GreedyIsSplit(pieces: seq<string>, sep: nat, max: int)
    ensures IsSplit(Fill(pieces, sep, max).All(), pieces, sep, max)
    ensures pieces != [] ==> Fill(pieces, sep, max).current != []
  {
    hide Flatten, Fits, Fill;
    GreedyFlattens(pieces, sep, max);
    GreedyFits(pieces, sep, max);
    if pieces == [] {
      FillNothing(sep, max);
    }
  }

  lemma FillNothing(sep: nat, max: int)
    ensures Fill([], sep, max) == Filling([], [])
  {
  }

  /** Taking the last piece off a split gives a split. */
  lemma DropLast(parts: seq<seq<string>>, pieces: seq<string>, sep: nat, max: int)
    requires IsSplit(parts, pieces, sep, max) && pieces != []
    ensures parts != []
    ensures var k := |parts| - 1; var last := parts[k]; var m := |last| - 1;
            && last != [] && last[m] == pieces[|pieces| - 1]
            && IsSplit(if m == 0 then parts[..k] else parts[..k] + [last[..m]], pieces[..|pieces| - 1], sep, max)
  {
    var k := |parts| - 1;
    var last := parts[k];
    assert Fits(last, sep, max);
    var m := |last| - 1;
    assert last == last[..m] + [last[m]];
    assert pieces[..|pieces| - 1] == Flatten(parts[..k]) + last[..m];
    if m > 0 {
      FlattenOneMore(parts[..k], last[..m]);
      assert Size(last, sep) == Size(last[..m], sep) + sep + |last[m]|;
    } else {
      assert Flatten(parts[..k]) + last[..0] == Flatten(parts[..k]);
    }
  }

  /** At least as many parts as the filling; with equally many, a last part at least as long. */
  predicate Behind(parts: seq<seq<string>>, f: Filling) {
    && |parts| >= |f.parts| + 1
    && (|parts| == |f.parts| + 1 ==> |parts[|parts| - 1]| >= |f.current|)
  }

  lemma LastIsSuffix<T>(parts: seq<seq<T>>)
    requires parts != []
    ensures var last := parts[|parts| - 1]; var all := Flatten(parts);
            |last| <= |all| && last == all[|all| - |last|..]
  {
  }

  /** Where the greedy filling starts a new part, no split could have gone on with its own. */
  lemma FlushIsForced(shorter: seq<seq<string>>, pieces: seq<string>, piece: string, sep: nat, max: int)
    requires IsSplit(shorter, pieces, sep, max) && shorter != [] && pieces != []
    requires Fits(shorter[|shorter| - 1] + [piece], sep, max)
    requires |shorter[|shorter| - 1]| >= |Fill(pieces, sep, max).current|
    ensures Size(Fill(pieces, sep, max).current, sep) + |piece| + sep <= max
  {
    hide Flatten, Fill, Size;
    var f := Fill(pieces, sep, max);
    var last := shorter[|shorter| - 1];
    GreedyIsSplit(pieces, sep, max);
    LastIsSuffix(shorter);
    LastIsSuffix(f.All());
    LongerIsLarger(f.current, last, sep);
    SizeOneMore(last, piece, sep);
  }

  /** No split gets ahead of the greedy filling. */
  lemma {:induction false} GreedyAhead(parts: seq<seq<string>>, pieces: seq<string>, sep: nat, max: int)
    requires IsSplit(parts, pieces, sep, max) && pieces != []
    ensures Behind(parts, Fill(pieces, sep, max))
    decreases pieces
  {
    hide Flatten, Size;
    var n := |pieces| - 1;
    DropLast(parts, pieces, sep, max);
    var k := |parts| - 1;
    var last := parts[k];
    var m := |last| - 1;
    if n > 0 {
      var f := Fill(pieces[..n], sep, max);
      if m == 0 {
        SplitIsNotEmpty(parts[..k], pieces[..n], sep, max);
        GreedyAhead(parts[..k], pieces[..n], sep, max);
      } else {
        var shorter := parts[..k] + [last[..m]];
        GreedyAhead(shorter, pieces[..n], sep, max);
        assert last == shorter[|shorter| - 1] + [pieces[n]];
        assert Fits(last, sep, max);
        if |parts| == |f.parts| + 1 {
          FlushIsForced(shorter, pieces[..n], pieces[n], sep, max);
        }
      }
    }
  }

  lemma SplitIsNotEmpty(parts: seq<seq<string>>, pieces: seq<string>, sep: nat, max: int)
    requires IsSplit(parts, pieces, sep, max) && pieces != []
    ensures parts != []
  {
  }

  /** A part that ends like another and is longer is at least as large. */
  lemma {:induction false} LongerIsLarger(short: seq<string>, long: seq<string>, sep: nat)
    requires short != [] && |short| <= |long| && short == long[|long| - |short|..]
    ensures Size(short, sep) <= Size(long, sep)
  {
    if |short| > 1 {
      LongerIsLarger(short[..|short| - 1], long[..|long| - 1], sep);
      assert short[..|short| - 1] == long[..|long| - 1][|long| - |short|..];
    }
  }

  /** No order-preserving split into fitting parts uses fewer of them. */
  lemma GreedyIsOptimal(parts: seq<seq<string>>, pieces: seq<string>, sep: nat, max: int)
    requires IsSplit(parts, pieces, sep, max)
    ensures |Fill(pieces, sep, max).All()| <= |parts|
  {
    if pieces != [] {
      GreedyAhead(parts, pieces, sep, max);
    }
  }

  /** When every piece fits, every greedy part is within the bound. */
  lemma GreedyWithinBound(pieces: seq<string>, sep: nat, max: int)
    requires forall p :: p in pieces ==> |p| <= max
    ensures forall i :: 0 <= i < |Fill(pieces, sep, max).All()| ==> Size(Fill(pieces, sep, max).All()[i], sep) <= max
  {
    GreedyIsSplit(pieces, sep, max);
    var all := Fill(pieces, sep, max).All();
    forall i | 0 <= i < |all|
      ensures Size(all[i], sep) <= max
    {
      if |all[i]| == 1 {
        PieceOfPart(all, i);
        assert all[i][0] in all[i] && all[i][0] in pieces;
      }
    }
  }

  lemma {:induction false} PieceOfPart(parts: seq<seq<string>>, i: nat)
    requires i < |parts|
    ensures forall p :: p in parts[i] ==> p in Flatten(parts)
  {
    if i < |parts| - 1 {
      PieceOfPart(parts[..|parts| - 1], i);
      assert parts[..|parts| - 1][i] == parts[i];
    }
  }
}

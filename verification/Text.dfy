/** Splitting text on a separator character, joining it back, and the order of strings. */
module Text {

  /** Python's `split`: the empty text is one empty part. */
  function SplitOn(text: string, c: char): (r: seq<string>)
    ensures r != [] && forall i :: 0 <= i < |r| ==> c !in r[i]
  {
    if text == "" then [""]
    else
      var front := SplitOn(text[..|text| - 1], c);
      var last := text[|text| - 1];
      if last == c then front + [""] else front[..|front| - 1] + [front[|front| - 1] + [last]]
  }

  /** Python's `join`. */
  function JoinWith(parts: seq<string>, sep: string): string {
    if parts == [] then ""
    else if |parts| == 1 then parts[0]
    else JoinWith(parts[..|parts| - 1], sep) + sep + parts[|parts| - 1]
  }

  lemma JoinOneMore(parts: seq<string>, part: string, sep: string)
    ensures JoinWith(parts + [part], sep) == if parts == [] then part else JoinWith(parts, sep) + sep + part
  {
    assert (parts + [part])[..|parts|] == parts;
  }

  lemma {:induction false} JoinOfSplit(text: string, c: char)
    ensures JoinWith(SplitOn(text, c), [c]) == text
  {
    hide SplitOn;
    if text == "" {
      SplitEmpty(c);
    } else {
      var n := |text| - 1;
      var front := SplitOn(text[..n], c);
      JoinOfSplit(text[..n], c);
      assert text == text[..n] + [text[n]];
      var k := |front| - 1;
      assert front == front[..k] + [front[k]];
      if text[n] == c {
        SplitSeparator(text[..n], c);
        JoinOneMore(front, "", [c]);
      } else {
        SplitOneMore(text[..n], text[n], c);
        JoinOneMore(front[..k], front[k], [c]);
        JoinOneMore(front[..k], front[k] + [text[n]], [c]);
      }
    }
  }

  lemma {:induction false} SplitAppend(text: string, line: string, c: char)
    requires c !in line
    ensures var ls := SplitOn(text, c);
            SplitOn(text + line, c) == ls[..|ls| - 1] + [ls[|ls| - 1] + line]
  {
    hide SplitOn;
    var ls := SplitOn(text, c);
    if line == "" {
      assert text + line == text && ls[|ls| - 1] + line == ls[|ls| - 1];
      assert ls == ls[..|ls| - 1] + [ls[|ls| - 1]];
    } else {
      var n := |line| - 1;
      var more := ls[|ls| - 1] + line[..n];
      SplitAppend(text, line[..n], c);
      SplitOneMore(text + line[..n], line[n], c);
      assert line == line[..n] + [line[n]];
      assert text + line[..n] + [line[n]] == text + line && more + [line[n]] == ls[|ls| - 1] + line;
    }
  }

  lemma SplitOneMore(text: string, x: char, c: char)
    requires x != c
    ensures var ls := SplitOn(text, c); SplitOn(text + [x], c) == ls[..|ls| - 1] + [ls[|ls| - 1] + [x]]
  {
    assert (text + [x])[..|text|] == text;
  }

  lemma SplitEmpty(c: char)
    ensures SplitOn("", c) == [""]
  {
  }

  lemma SplitSeparator(text: string, c: char)
    ensures SplitOn(text + [c], c) == SplitOn(text, c) + [""]
  {
    assert (text + [c])[..|text|] == text;
  }

  /** Joining and splitting are inverse on parts without the separator. */
  lemma {:induction false} SplitOfJoin(parts: seq<string>, c: char)
    requires parts != [] && forall i :: 0 <= i < |parts| ==> c !in parts[i]
    ensures SplitOn(JoinWith(parts, [c]), c) == parts
  {
    hide SplitOn;
    SplitEmpty(c);
    if |parts| == 1 {
      SplitAppend("", parts[0], c);
      assert "" + parts[0] == parts[0];
    } else {
      var n := |parts| - 1;
      SplitOfJoin(parts[..n], c);
      SplitSeparator(JoinWith(parts[..n], [c]), c);
      SplitAppend(JoinWith(parts[..n], [c]) + [c], parts[n], c);
      assert "" + parts[n] == parts[n];
    }
  }

  /** Strings compare by their first different character. */
  predicate StringAtMost(a: string, b: string) {
    if a == "" then true
    else if b == "" then false
    else if a[0] != b[0] then a[0] < b[0]
    else StringAtMost(a[1..], b[1..])
  }

  /** The first difference of the texts is at `k`, and `a` has the smaller character there. */
  predicate SmallerAt(a: string, b: string, k: nat) {
    k < |a| && k < |b| && a[k] < b[k] && forall i :: 0 <= i < k ==> a[i] == b[i]
  }

  /** One is the start of the other, or has the smaller character where they first differ. */
  ghost predicate ComesFirst(a: string, b: string) {
    a <= b || exists k: nat :: SmallerAt(a, b, k)
  }

  lemma SmallerBehind(a: string, b: string, k: nat)
    requires a != "" && b != "" && a[0] == b[0]
    ensures SmallerAt(a, b, k + 1) <==> SmallerAt(a[1..], b[1..], k)
    ensures !SmallerAt(a, b, 0)
  {
    if SmallerAt(a, b, k + 1) {
      assert forall i :: 0 <= i < k ==> a[1..][i] == a[i + 1] == b[i + 1] == b[1..][i];
    }
    if SmallerAt(a[1..], b[1..], k) {
      assert forall i :: 0 < i < k + 1 ==> a[i] == a[1..][i - 1] == b[1..][i - 1] == b[i];
    }
  }

  lemma PrefixBehind(a: string, b: string)
    requires a != "" && b != ""
    ensures a <= b <==> a[0] == b[0] && a[1..] <= b[1..]
  {
    assert a == [a[0]] + a[1..] && b == [b[0]] + b[1..];
  }

  lemma {:induction false} StringAtMostByChars(a: string, b: string)
    ensures StringAtMost(a, b) <==> ComesFirst(a, b)
  {
    if a != "" && b != "" {
      PrefixBehind(a, b);
      if a[0] == b[0] {
        StringAtMostByChars(a[1..], b[1..]);
        hide SmallerAt;
        SmallerBehind(a, b, 0);
        if k: nat :| SmallerAt(a[1..], b[1..], k) {
          SmallerBehind(a, b, k);
        }
        if k: nat :| SmallerAt(a, b, k) {
          SmallerBehind(a, b, k - 1);
        }
      } else {
        assert a[0] < b[0] ==> SmallerAt(a, b, 0);
      }
    }
  }

  lemma {:induction false} StringOrder(a: string, b: string, c: string)
    ensures StringAtMost(a, b) || StringAtMost(b, a)
    ensures StringAtMost(a, b) && StringAtMost(b, c) ==> StringAtMost(a, c)
    ensures StringAtMost(a, b) && StringAtMost(b, a) ==> a == b
  {
    if a != "" && b != "" {
      StringOrder(a[1..], b[1..], if c == "" then "" else c[1..]);
      if a[0] == b[0] && a[1..] == b[1..] {
        assert a == [a[0]] + a[1..] && b == [b[0]] + b[1..];
      }
    }
  }
}

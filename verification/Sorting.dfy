/** Python's stable list sort, and what stability gives. */
module Sorting {

  ghost predicate TotalPreorder<T(!new)>(le: (T, T) -> bool) {
    && (forall x, y :: le(x, y) || le(y, x))
    && (forall x, y, z :: le(x, y) && le(y, z) ==> le(x, z))
  }

  predicate Sorted<T>(le: (T, T) -> bool, s: seq<T>) {
    forall i, j :: 0 <= i < j < |s| ==> le(s[i], s[j])
  }

  function Insert<T>(le: (T, T) -> bool, x: T, s: seq<T>): seq<T> {
    if s == [] || le(x, s[0]) then [x] + s else [s[0]] + Insert(le, x, s[1..])
  }

  /** Stable: of two equal elements the one that came first stays first. */
  function Sort<T>(le: (T, T) -> bool, s: seq<T>): seq<T> {
    if s == [] then [] else Insert(le, s[0], Sort(le, s[1..]))
  }

  function Filter<T>(p: T -> bool, s: seq<T>): seq<T> {
    if s == [] then []
    else (if p(s[0]) then [s[0]] else []) + Filter(p, s[1..])
  }

  function MapSeq<S, T>(f: S -> T, s: seq<S>): (r: seq<T>)
    ensures |r| == |s| && forall i :: 0 <= i < |s| ==> r[i] == f(s[i])
  {
    if s == [] then [] else [f(s[0])] + MapSeq(f, s[1..])
  }

  lemma {:induction false} InsertPermutes<T>(le: (T, T) -> bool, x: T, s: seq<T>)
    ensures multiset(Insert(le, x, s)) == multiset(s) + multiset{x}
  {
    if s != [] && !le(x, s[0]) {
      InsertPermutes(le, x, s[1..]);
      assert s == [s[0]] + s[1..];
    }
  }

  lemma {:induction false} SortPermutes<T>(le: (T, T) -> bool, s: seq<T>)
    ensures multiset(Sort(le, s)) == multiset(s)
  {
    if s != [] {
      SortPermutes(le, s[1..]);
      InsertPermutes(le, s[0], Sort(le, s[1..]));
      assert s == [s[0]] + s[1..];
    }
  }

  lemma SortMembers<T>(le: (T, T) -> bool, s: seq<T>)
    ensures |Sort(le, s)| == |s| && forall x :: x in Sort(le, s) <==> x in s
  {
    SortPermutes(le, s);
    assert |multiset(Sort(le, s))| == |Sort(le, s)| && |multiset(s)| == |s|;
    forall x
      ensures x in Sort(le, s) <==> x in s
    {
      assert x in Sort(le, s) <==> x in multiset(Sort(le, s));
      assert x in s <==> x in multiset(s);
    }
  }

  lemma SortMember<T>(le: (T, T) -> bool, s: seq<T>, x: T)
    ensures x in Sort(le, s) <==> x in s
  {
    SortMembers(le, s);
  }

  lemma {:induction false} InsertSorted<T(!new)>(le: (T, T) -> bool, x: T, s: seq<T>)
    requires TotalPreorder(le) && Sorted(le, s)
    ensures Sorted(le, Insert(le, x, s))
  {
    if s != [] {
      if le(x, s[0]) {
        assert forall i :: 0 <= i < |s| ==> le(s[0], s[i]);
      } else {
        InsertSorted(le, x, s[1..]);
        var rest := Insert(le, x, s[1..]);
        InsertPermutes(le, x, s[1..]);
        forall i | 0 <= i < |rest|
          ensures le(s[0], rest[i])
        {
          assert rest[i] in multiset(rest);
          assert rest[i] == x || rest[i] in s[1..];
        }
      }
    }
  }

  lemma {:induction false} SortSorted<T(!new)>(le: (T, T) -> bool, s: seq<T>)
    requires TotalPreorder(le)
    ensures Sorted(le, Sort(le, s))
  {
    if s != [] {
      SortSorted(le, s[1..]);
      InsertSorted(le, s[0], Sort(le, s[1..]));
    }
  }

  lemma {:induction false} FilterInsert<T(!new)>(le: (T, T) -> bool, p: T -> bool, x: T, s: seq<T>)
    requires TotalPreorder(le) && Sorted(le, s)
    ensures Filter(p, Insert(le, x, s)) == if p(x) then Insert(le, x, Filter(p, s)) else Filter(p, s)
  {
    if s == [] || le(x, s[0]) {
      assert ([x] + s)[1..] == s;
      if p(x) && s != [] {
        FilterMembers(p, s);
        var kept := Filter(p, s);
        if kept != [] {
          assert kept[0] in kept && kept[0] in s;
        }
      }
    } else {
      FilterInsert(le, p, x, s[1..]);
      var rest := Insert(le, x, s[1..]);
      assert ([s[0]] + rest)[0] == s[0] && ([s[0]] + rest)[1..] == rest;
      if p(s[0]) {
        assert Filter(p, s) == [s[0]] + Filter(p, s[1..]);
        assert Filter(p, s)[1..] == Filter(p, s[1..]);
      } else {
        assert Filter(p, s) == Filter(p, s[1..]);
        assert Filter(p, [s[0]] + rest) == Filter(p, rest);
      }
    }
  }

  lemma {:induction false} FilterMembers<T>(p: T -> bool, s: seq<T>)
    ensures forall x :: x in Filter(p, s) <==> x in s && p(x)
  {
    if s != [] {
      FilterMembers(p, s[1..]);
      assert s == [s[0]] + s[1..];
    }
  }

  /** Stability: sorting and selecting commute. */
  lemma {:induction false} FilterSort<T(!new)>(le: (T, T) -> bool, p: T -> bool, s: seq<T>)
    requires TotalPreorder(le)
    ensures Filter(p, Sort(le, s)) == Sort(le, Filter(p, s))
  {
    if s != [] {
      FilterSort(le, p, s[1..]);
      SortSorted(le, s[1..]);
      FilterInsert(le, p, s[0], Sort(le, s[1..]));
      if p(s[0]) {
        assert Filter(p, s) == [s[0]] + Filter(p, s[1..]);
        assert Filter(p, s)[1..] == Filter(p, s[1..]);
      } else {
        assert Filter(p, s) == Filter(p, s[1..]);
      }
    }
  }

  lemma {:induction false} InsertMap<S(!new), T>(le: (S, S) -> bool, le': (T, T) -> bool, f: S -> T, x: S, s: seq<S>)
    requires forall a, b :: le(a, b) == le'(f(a), f(b))
    ensures MapSeq(f, Insert(le, x, s)) == Insert(le', f(x), MapSeq(f, s))
  {
    if s != [] && !le(x, s[0]) {
      InsertMap(le, le', f, x, s[1..]);
      assert MapSeq(f, s)[1..] == MapSeq(f, s[1..]);
    }
  }

  /** Sorting does not look beyond the order. */
  lemma {:induction false} SortMap<S(!new), T>(le: (S, S) -> bool, le': (T, T) -> bool, f: S -> T, s: seq<S>)
    requires forall a, b :: le(a, b) == le'(f(a), f(b))
    ensures MapSeq(f, Sort(le, s)) == Sort(le', MapSeq(f, s))
  {
    if s != [] {
      SortMap(le, le', f, s[1..]);
      InsertMap(le, le', f, s[0], Sort(le, s[1..]));
      assert MapSeq(f, s)[1..] == MapSeq(f, s[1..]);
    }
  }

  lemma {:induction false} SortOfSorted<T>(le: (T, T) -> bool, s: seq<T>)
    requires Sorted(le, s)
    ensures Sort(le, s) == s
  {
    if s != [] {
      SortOfSorted(le, s[1..]);
      assert s == [s[0]] + s[1..];
    }
  }

  lemma {:induction false} FilterJoin<T>(p: T -> bool, s: seq<T>, t: seq<T>)
    ensures Filter(p, s + t) == Filter(p, s) + Filter(p, t)
  {
    if s == [] {
      assert s + t == t;
    } else {
      FilterJoin(p, s[1..], t);
      assert (s + t)[0] == s[0] && (s + t)[1..] == s[1..] + t;
      var head := if p(s[0]) then [s[0]] else [];
      assert Filter(p, s + t) == head + Filter(p, s[1..] + t);
      assert head + (Filter(p, s[1..]) + Filter(p, t)) == head + Filter(p, s[1..]) + Filter(p, t);
    }
  }

  lemma FilterNone<T>(p: T -> bool)
    ensures Filter(p, []) == []
  {
  }

  lemma FilterOne<T>(p: T -> bool, x: T)
    ensures Filter(p, [x]) == if p(x) then [x] else []
  {
  }

  lemma {:induction false} MapJoin<S, T>(f: S -> T, s: seq<S>, t: seq<S>)
    ensures MapSeq(f, s + t) == MapSeq(f, s) + MapSeq(f, t)
  {
  }

  /** The elements equal to `x` in the order `le`, as they come in `s`. */
  function Class<T>(le: (T, T) -> bool, x: T, s: seq<T>): seq<T> {
    if s == [] then []
    else (if le(x, s[0]) && le(s[0], x) then [s[0]] else []) + Class(le, x, s[1..])
  }

  lemma {:induction false} ClassIsFilter<T(!new)>(le: (T, T) -> bool, x: T, p: T -> bool, s: seq<T>)
    requires forall y :: p(y) <==> le(x, y) && le(y, x)
    ensures Class(le, x, s) == Filter(p, s)
  {
    if s != [] {
      ClassIsFilter(le, x, p, s[1..]);
    }
  }

  lemma {:induction false} ClassMembers<T>(le: (T, T) -> bool, x: T, s: seq<T>)
    ensures forall y :: y in Class(le, x, s) <==> y in s && le(x, y) && le(y, x)
  {
    if s != [] {
      ClassMembers(le, x, s[1..]);
      assert s == [s[0]] + s[1..];
    }
  }

  lemma OneClassSorted<T(!new)>(le: (T, T) -> bool, x: T, s: seq<T>)
    requires TotalPreorder(le) && forall i :: 0 <= i < |s| ==> le(x, s[i]) && le(s[i], x)
    ensures Sorted(le, s)
  {
    forall i, j | 0 <= i < j < |s|
      ensures le(s[i], s[j])
    {
      assert le(s[i], x) && le(x, s[j]);
    }
  }

  /** A stable sort keeps the order inside every class. */
  lemma ClassSort<T(!new)>(le: (T, T) -> bool, x: T, s: seq<T>)
    requires TotalPreorder(le)
    ensures Class(le, x, Sort(le, s)) == Class(le, x, s)
  {
    hide Sort, Filter, Sorted, Class;
    var p := y => le(x, y) && le(y, x);
    ClassIsFilter(le, x, p, Sort(le, s));
    ClassIsFilter(le, x, p, s);
    FilterSort(le, p, s);
    ClassMembers(le, x, s);
    var kept := Class(le, x, s);
    forall i | 0 <= i < |kept|
      ensures le(x, kept[i]) && le(kept[i], x)
    {
      assert kept[i] in kept;
    }
    OneClassSorted(le, x, kept);
    SortOfSorted(le, kept);
  }

  lemma HeadsAgree<T(!new)>(le: (T, T) -> bool, s: seq<T>, t: seq<T>)
    requires TotalPreorder(le) && Sorted(le, s) && Sorted(le, t) && s != [] && t != []
    requires forall x :: Class(le, x, s) == Class(le, x, t)
    ensures s[0] == t[0]
  {
    ClassMembers(le, s[0], s);
    ClassMembers(le, s[0], t);
    ClassMembers(le, t[0], s);
    ClassMembers(le, t[0], t);
    assert s[0] in s && t[0] in t;
    assert s[0] in Class(le, s[0], s) && t[0] in Class(le, t[0], t);
    assert s[0] in t && t[0] in s;
    assert le(s[0], t[0]) && le(t[0], s[0]);
    assert Class(le, s[0], s)[0] == s[0] && Class(le, s[0], t)[0] == t[0];
  }

  /** Two sorted sequences with the same classes, each in the same order, are the same. */
  lemma {:induction false} SortedUnique<T(!new)>(le: (T, T) -> bool, s: seq<T>, t: seq<T>)
    requires TotalPreorder(le) && Sorted(le, s) && Sorted(le, t)
    requires forall x :: Class(le, x, s) == Class(le, x, t)
    ensures s == t
  {
    if s == [] || t == [] {
      SomeClass(le, s);
      SomeClass(le, t);
    } else {
      HeadsAgree(le, s, t);
      forall x
        ensures Class(le, x, s[1..]) == Class(le, x, t[1..])
      {
        assert Class(le, x, s) == Class(le, x, t);
        if le(x, s[0]) && le(s[0], x) {
          assert Class(le, x, s)[1..] == Class(le, x, s[1..]) && Class(le, x, t)[1..] == Class(le, x, t[1..]);
        } else {
          assert Class(le, x, s) == Class(le, x, s[1..]) && Class(le, x, t) == Class(le, x, t[1..]);
        }
      }
      SortedUnique(le, s[1..], t[1..]);
      assert s == [s[0]] + s[1..] && t == [t[0]] + t[1..];
    }
  }

  lemma SomeClass<T(!new)>(le: (T, T) -> bool, s: seq<T>)
    requires TotalPreorder(le)
    ensures s != [] ==> exists x :: Class(le, x, s) != []
  {
    if s != [] {
      ClassMembers(le, s[0], s);
      assert s[0] in s && s[0] in Class(le, s[0], s);
    }
  }

  predicate Pairwise<T>(r: (T, T) -> bool, s: seq<T>) {
    forall i, j :: 0 <= i < j < |s| ==> r(s[i], s[j])
  }

  lemma {:induction false} InsertPairwise<T(!new)>(le: (T, T) -> bool, r: (T, T) -> bool, x: T, s: seq<T>)
    requires Pairwise(r, s) && (forall y :: y in s ==> r(x, y) && r(y, x))
    ensures Pairwise(r, Insert(le, x, s))
  {
    if s != [] && !le(x, s[0]) {
      InsertPairwise(le, r, x, s[1..]);
      var rest := Insert(le, x, s[1..]);
      InsertPermutes(le, x, s[1..]);
      forall i | 0 <= i < |rest|
        ensures r(s[0], rest[i])
      {
        assert rest[i] in multiset(rest);
        assert rest[i] == x || rest[i] in s[1..];
      }
    }
  }

  /** A relation between all pairs survives reordering. */
  lemma {:induction false} SortPairwise<T(!new)>(le: (T, T) -> bool, r: (T, T) -> bool, s: seq<T>)
    requires Pairwise(r, s) && forall x, y :: r(x, y) ==> r(y, x)
    ensures Pairwise(r, Sort(le, s))
  {
    if s != [] {
      SortPairwise(le, r, s[1..]);
      SortMembers(le, s[1..]);
      forall y | y in Sort(le, s[1..])
        ensures r(s[0], y)
      {
        assert y in s[1..];
      }
      InsertPairwise(le, r, s[0], Sort(le, s[1..]));
    }
  }

  /** `lex` orders by `first`, and by `second` where `first` does not decide. */
  ghost predicate IsThenBy<T(!new)>(first: (T, T) -> bool, second: (T, T) -> bool, lex: (T, T) -> bool) {
    forall x, y :: lex(x, y) <==> first(x, y) && (first(y, x) ==> second(x, y))
  }

  lemma ThenByPreorder<T(!new)>(first: (T, T) -> bool, second: (T, T) -> bool, lex: (T, T) -> bool)
    requires TotalPreorder(first) && TotalPreorder(second) && IsThenBy(first, second, lex)
    ensures TotalPreorder(lex)
  {
    forall x, y, z | lex(x, y) && lex(y, z)
      ensures lex(x, z)
    {
      assert first(x, y) && first(y, z);
      if first(z, x) {
        assert first(y, x) && first(z, y);
      }
    }
  }

  lemma {:induction false} InsertThenBy<T(!new)>(first: (T, T) -> bool, second: (T, T) -> bool, lex: (T, T) -> bool,
                                                 x: T, s: seq<T>)
    requires TotalPreorder(first) && TotalPreorder(second) && IsThenBy(first, second, lex)
    requires Sorted(lex, s) && forall i :: 0 <= i < |s| ==> second(x, s[i])
    ensures Sorted(lex, Insert(first, x, s))
  {
    if s == [] {
    } else if first(x, s[0]) {
      forall i | 0 <= i < |s|
        ensures lex(x, s[i])
      {
        assert i == 0 || lex(s[0], s[i]);
      }
    } else {
      InsertThenBy(first, second, lex, x, s[1..]);
      var rest := Insert(first, x, s[1..]);
      InsertPermutes(first, x, s[1..]);
      forall i | 0 <= i < |rest|
        ensures lex(s[0], rest[i])
      {
        assert rest[i] in multiset(rest);
        assert rest[i] == x || rest[i] in s[1..];
      }
    }
  }

  lemma {:induction false} SortThenBySorted<T(!new)>(first: (T, T) -> bool, second: (T, T) -> bool,
                                                     lex: (T, T) -> bool, t: seq<T>)
    requires TotalPreorder(first) && TotalPreorder(second) && IsThenBy(first, second, lex) && Sorted(second, t)
    ensures Sorted(lex, Sort(first, t))
  {
    if t != [] {
      SortThenBySorted(first, second, lex, t[1..]);
      var rest := Sort(first, t[1..]);
      SortMembers(first, t[1..]);
      forall i | 0 <= i < |rest|
        ensures second(t[0], rest[i])
      {
        assert rest[i] in rest && rest[i] in t[1..];
      }
      InsertThenBy(first, second, lex, t[0], rest);
    }
  }

  lemma ClassThenBy<T(!new)>(first: (T, T) -> bool, second: (T, T) -> bool, lex: (T, T) -> bool, x: T, s: seq<T>)
    requires TotalPreorder(first) && TotalPreorder(second) && IsThenBy(first, second, lex)
    ensures Class(lex, x, Sort(first, Sort(second, s))) == Class(lex, x, s)
  {
    hide Sort, Filter, Sorted, Class;
    var p := y => lex(x, y) && lex(y, x);
    ClassIsFilter(lex, x, p, Sort(first, Sort(second, s)));
    ClassIsFilter(lex, x, p, s);
    FilterSort(first, p, Sort(second, s));
    FilterSort(second, p, s);
    var kept := Filter(p, s);
    FilterMembers(p, s);
    forall i | 0 <= i < |kept|
      ensures first(x, kept[i]) && first(kept[i], x) && second(x, kept[i]) && second(kept[i], x)
    {
      assert kept[i] in kept && p(kept[i]);
    }
    OneClassSorted(second, x, kept);
    SortOfSorted(second, kept);
    OneClassSorted(first, x, kept);
    SortOfSorted(first, kept);
  }

  /** Sorting by the second key and then by the first is one lexicographic sort. */
  lemma SortThenBy<T(!new)>(first: (T, T) -> bool, second: (T, T) -> bool, lex: (T, T) -> bool, s: seq<T>)
    requires TotalPreorder(first) && TotalPreorder(second) && IsThenBy(first, second, lex)
    ensures Sort(first, Sort(second, s)) == Sort(lex, s)
  {
    hide Sort, Sorted, Class;
    ThenByPreorder(first, second, lex);
    SortSorted(second, s);
    SortThenBySorted(first, second, lex, Sort(second, s));
    SortSorted(lex, s);
    forall x
      ensures Class(lex, x, Sort(first, Sort(second, s))) == Class(lex, x, Sort(lex, s))
    {
      ClassThenBy(first, second, lex, x, s);
      ClassSort(lex, x, s);
    }
    SortedUnique(lex, Sort(first, Sort(second, s)), Sort(lex, s));
  }

  /** No two elements at different places are equal in the order. */
  predicate Strict<T>(le: (T, T) -> bool, s: seq<T>) {
    forall i, j :: 0 <= i < j < |s| ==> !(le(s[i], s[j]) && le(s[j], s[i]))
  }

  lemma {:induction false} ClassAtMostOne<T(!new)>(le: (T, T) -> bool, x: T, s: seq<T>)
    requires TotalPreorder(le) && Strict(le, s)
    ensures |Class(le, x, s)| <= 1
  {
    if s != [] {
      ClassAtMostOne(le, x, s[1..]);
      ClassMembers(le, x, s[1..]);
      NoTwin(le, s);
      HeadIsMember(Class(le, x, s[1..]));
    }
  }

  lemma HeadIsMember<T>(s: seq<T>)
    ensures s != [] ==> s[0] in s
  {
  }

  lemma NoTwin<T(!new)>(le: (T, T) -> bool, s: seq<T>)
    requires s != [] && Strict(le, s)
    ensures forall y :: y in s[1..] ==> !(le(s[0], y) && le(y, s[0]))
  {
  }

  /** With no ties the sorted list does not depend on the order of the input. */
  lemma SortOfPermutation<T(!new)>(le: (T, T) -> bool, s: seq<T>, t: seq<T>)
    requires TotalPreorder(le) && Strict(le, s) && Strict(le, t) && multiset(s) == multiset(t)
    ensures Sort(le, s) == Sort(le, t)
  {
    hide Sort, Sorted, Class, Strict;
    SortSorted(le, s);
    SortSorted(le, t);
    forall x
      ensures Class(le, x, Sort(le, s)) == Class(le, x, Sort(le, t))
    {
      ClassSort(le, x, s);
      ClassSort(le, x, t);
      ClassAtMostOne(le, x, s);
      ClassAtMostOne(le, x, t);
      ClassMembers(le, x, s);
      ClassMembers(le, x, t);
      SameMembers(s, t);
      AtMostOneEqual(Class(le, x, s), Class(le, x, t));
    }
    SortedUnique(le, Sort(le, s), Sort(le, t));
  }

  lemma SameMembers<T>(s: seq<T>, t: seq<T>)
    requires multiset(s) == multiset(t)
    ensures forall x :: x in s <==> x in t
  {
    assert forall x :: x in s <==> x in multiset(s);
    assert forall x :: x in t <==> x in multiset(t);
  }

  lemma AtMostOneEqual<T>(a: seq<T>, b: seq<T>)
    requires |a| <= 1 && |b| <= 1 && forall x :: x in a <==> x in b
    ensures a == b
  {
    assert a != [] ==> a[0] in a;
    assert b != [] ==> b[0] in b;
  }
}

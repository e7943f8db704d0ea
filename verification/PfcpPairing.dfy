/** The pass over the messages computes the declared pairing. */
module PfcpPairing {
  import opened Pfcp

  predicate Increasing(s: seq<nat>) {
    forall x, y :: 0 <= x < y < |s| ==> s[x] < s[y]
  }

  lemma FirstSendPrefix(ms: seq<PfcpMsg>, n: nat, i: nat)
    requires i < n <= |ms|
    ensures FirstSend(ms[..n], i) <==> FirstSend(ms, i)
  {
    var front := ms[..n];
    assert forall m :: 0 <= m < n ==> front[m] == ms[m];
    if FirstSend(ms, i) {
      forall i' | 0 <= i' < i && Asks(front[i'], LegOf(front[i]).key)
        ensures exists j :: i' < j < i && Answers(front[j], LegOf(front[i]).key)
      {
        assert Asks(ms[i'], LegOf(ms[i]).key);
        var j :| i' < j < i && Answers(ms[j], LegOf(ms[i]).key);
        assert Answers(front[j], LegOf(front[i]).key);
      }
    }
    if FirstSend(front, i) {
      forall i' | 0 <= i' < i && Asks(ms[i'], LegOf(ms[i]).key)
        ensures exists j :: i' < j < i && Answers(ms[j], LegOf(ms[i]).key)
      {
        assert Asks(front[i'], LegOf(front[i]).key);
        var j :| i' < j < i && Answers(front[j], LegOf(front[i]).key);
        assert Answers(ms[j], LegOf(ms[i]).key);
      }
    }
  }

  /** Every request is a first send, or is absorbed by an earlier first send still unanswered then. */
  lemma {:induction false} Absorber(ms: seq<PfcpMsg>, i: nat) returns (first: nat)
    requires i < |ms| && LegOf(ms[i]).Request?
    ensures first <= i && FirstSend(ms, first) && LegOf(ms[first]).key == LegOf(ms[i]).key
    ensures forall m :: first < m < i ==> !Answers(ms[m], LegOf(ms[i]).key)
    decreases i
  {
    if FirstSend(ms, i) {
      first := i;
    } else {
      var i' :| 0 <= i' < i && Asks(ms[i'], LegOf(ms[i]).key)
        && forall j :: i' < j < i ==> !Answers(ms[j], LegOf(ms[i]).key);
      first := Absorber(ms, i');
      assert !Answers(ms[i'], LegOf(ms[i]).key);
    }
  }

  /** A request pending after all of `ms`. */
  ghost predicate IsPending(ms: seq<PfcpMsg>, i: nat) {
    FirstSend(ms, i) && NeverAnswered(ms, i)
  }

  ghost predicate IsClosed(ms: seq<PfcpMsg>, i: nat, j: nat) {
    FirstSend(ms, i) && AnsweredBy(ms, i, j)
  }

  lemma PendingOneMore(ms: seq<PfcpMsg>, i: nat)
    requires ms != [] && i < |ms| - 1
    ensures IsPending(ms, i) <==>
      IsPending(ms[..|ms| - 1], i) && !(Answers(ms[|ms| - 1], LegOf(ms[i]).key))
  {
    var n := |ms| - 1;
    FirstSendPrefix(ms, n, i);
    assert forall m :: 0 <= m < n ==> ms[..n][m] == ms[m];
  }

  lemma ClosedOneMore(ms: seq<PfcpMsg>, i: nat, j: nat)
    requires ms != []
    ensures IsClosed(ms, i, j) <==>
      if j == |ms| - 1 then i < |ms| - 1 && IsPending(ms[..|ms| - 1], i) && Answers(ms[j], LegOf(ms[i]).key)
      else IsClosed(ms[..|ms| - 1], i, j)
  {
    var n := |ms| - 1;
    assert forall m :: 0 <= m < n ==> ms[..n][m] == ms[m];
    if i < n {
      FirstSendPrefix(ms, n, i);
    }
  }

  /** A request on a path with nothing pending is a first send ... */
  lemma NothingPending(ms: seq<PfcpMsg>)
    requires ms != [] && LegOf(ms[|ms| - 1]).Request?
    requires forall i: nat :: IsPending(ms[..|ms| - 1], i) ==> LegOf(ms[i]).key != LegOf(ms[|ms| - 1]).key
    ensures IsPending(ms, |ms| - 1)
  {
    hide LegOf;
    var n := |ms| - 1;
    var front := ms[..n];
    assert forall m :: 0 <= m < n ==> front[m] == ms[m];
    forall i' | 0 <= i' < n && Asks(ms[i'], LegOf(ms[n]).key)
      ensures exists j :: i' < j < n && Answers(ms[j], LegOf(ms[n]).key)
    {
      var first := Absorber(front, i');
      assert !Answers(front[i'], LegOf(ms[n]).key);
      assert NeverAnswered(front, i') ==> IsPending(front, first);
    }
  }

  /** ... and one on a path with a pending request is not. */
  lemma AlreadyPending(ms: seq<PfcpMsg>, i: nat)
    requires ms != [] && LegOf(ms[|ms| - 1]).Request?
    requires IsPending(ms[..|ms| - 1], i) && LegOf(ms[i]).key == LegOf(ms[|ms| - 1]).key
    ensures !FirstSend(ms, |ms| - 1)
  {
    hide LegOf;
    var n := |ms| - 1;
    assert forall m :: 0 <= m < n ==> ms[..n][m] == ms[m];
    assert Asks(ms[i], LegOf(ms[n]).key);
    assert forall j :: i < j < n ==> !Answers(ms[..n][j], LegOf(ms[i]).key);
  }

  lemma OnePendingPerPath(ms: seq<PfcpMsg>, i: nat, j: nat)
    requires IsPending(ms, i) && IsPending(ms, j) && LegOf(ms[i]).key == LegOf(ms[j]).key
    ensures i == j
  {
    assert i < j ==> Asks(ms[i], LegOf(ms[j]).key);
    assert j < i ==> Asks(ms[j], LegOf(ms[i]).key);
  }

  /** The pass state after `ms` is the declared one. */
  ghost predicate Declared(ms: seq<PfcpMsg>, p: Pass) {
    && (forall i: nat :: i in p.pending <==> IsPending(ms, i))
    && (forall i: nat, j: nat :: (i, j) in p.closed <==> IsClosed(ms, i, j))
    && Increasing(p.pending)
    && (forall x, y :: 0 <= x < y < |p.closed| ==> p.closed[x].1 < p.closed[y].1)
  }

  /** The pass on one more message, by what the message is. */
  lemma RunStep(ms: seq<PfcpMsg>)
    requires ms != []
    ensures var n := |ms| - 1; var before := Run(ms[..n]);
            && AreRequests(ms, before.pending)
            && (LegOf(ms[n]).Ignored? ==> Run(ms) == before)
            && (LegOf(ms[n]).Request? ==>
                  Run(ms) == if Find(ms, before.pending, LegOf(ms[n]).key).Some? then before
                             else before.(pending := before.pending + [n]))
            && (LegOf(ms[n]).Response? ==>
                  var at := Find(ms, before.pending, LegOf(ms[n]).key);
                  Run(ms) == if at.None? then before
                             else Pass(before.closed + [(before.pending[at.value], n)],
                                       Without(before.pending, at.value)))
  {
    hide LegOf;
  }

  lemma RequestPending(ms: seq<PfcpMsg>, i: nat)
    requires ms != [] && LegOf(ms[|ms| - 1]).Request? && Declared(ms[..|ms| - 1], Run(ms[..|ms| - 1]))
    ensures i in Run(ms).pending <==> IsPending(ms, i)
  {
    hide LegOf, IsPending, IsClosed, Run, Find;
    var n := |ms| - 1;
    var before := Run(ms[..n]);
    RunStep(ms);
    PendingInRange(ms, i);
    PendingInRange(ms[..n], i);
    if i < n {
      RequestIsNoAnswer(ms[n]);
      PendingOneMore(ms, i);
    } else if i == n {
      NewIsPending(ms);
    }
  }

  lemma RequestIsNoAnswer(m: PfcpMsg)
    requires LegOf(m).Request?
    ensures forall key :: !Answers(m, key)
  {
  }

  lemma NewIsPending(ms: seq<PfcpMsg>)
    requires ms != [] && LegOf(ms[|ms| - 1]).Request? && Declared(ms[..|ms| - 1], Run(ms[..|ms| - 1]))
    requires AreRequests(ms, Run(ms[..|ms| - 1]).pending)
    ensures IsPending(ms, |ms| - 1) <==> Find(ms, Run(ms[..|ms| - 1]).pending, LegOf(ms[|ms| - 1]).key).None?
  {
    hide LegOf, IsPending, IsClosed, Run, Find;
    var n := |ms| - 1;
    var front := ms[..n];
    var pending := Run(front).pending;
    var key := LegOf(ms[n]).key;
    var at := Find(ms, pending, key);
    if at.Some? {
      assert pending[at.value] in pending;
      AlreadyPending(ms, pending[at.value]);
      NotFirst(ms, n);
    } else {
      forall i: nat | IsPending(front, i)
        ensures LegOf(ms[i]).key != key
      {
        var x :| 0 <= x < |pending| && pending[x] == i;
        PendingIsRequest(front, i);
        assert !Asks(ms[pending[x]], key);
      }
      NothingPending(ms);
    }
  }

  lemma RequestClosed(ms: seq<PfcpMsg>, i: nat, j: nat)
    requires ms != [] && LegOf(ms[|ms| - 1]).Request? && Declared(ms[..|ms| - 1], Run(ms[..|ms| - 1]))
    ensures (i, j) in Run(ms[..|ms| - 1]).closed <==> IsClosed(ms, i, j)
  {
    hide LegOf, IsPending, IsClosed, Run;
    ClosedOneMore(ms, i, j);
    ClosedInRange(ms[..|ms| - 1], i, j);
    RequestIsNoAnswer(ms[|ms| - 1]);
  }

  lemma RequestOrder(ms: seq<PfcpMsg>)
    requires ms != [] && LegOf(ms[|ms| - 1]).Request? && Declared(ms[..|ms| - 1], Run(ms[..|ms| - 1]))
    ensures Increasing(Run(ms).pending) && Run(ms).closed == Run(ms[..|ms| - 1]).closed
  {
    hide LegOf, IsPending, IsClosed, Run, Find, AreRequests;
    RunStep(ms);
    PendingBelow(ms[..|ms| - 1], Run(ms[..|ms| - 1]).pending);
  }

  lemma RequestCase(ms: seq<PfcpMsg>)
    requires ms != [] && LegOf(ms[|ms| - 1]).Request? && Declared(ms[..|ms| - 1], Run(ms[..|ms| - 1]))
    ensures Declared(ms, Run(ms))
  {
    hide LegOf, IsPending, IsClosed, Run, Increasing;
    RequestOrder(ms);
    forall i: nat
      ensures i in Run(ms).pending <==> IsPending(ms, i)
    {
      RequestPending(ms, i);
    }
    forall i: nat, j: nat
      ensures (i, j) in Run(ms).closed <==> IsClosed(ms, i, j)
    {
      RequestClosed(ms, i, j);
    }
  }

  lemma PendingBelow(ms: seq<PfcpMsg>, pending: seq<nat>)
    requires forall i: nat :: i in pending ==> IsPending(ms, i)
    ensures forall x :: 0 <= x < |pending| ==> pending[x] in pending && pending[x] < |ms|
  {
    forall x | 0 <= x < |pending|
      ensures pending[x] < |ms|
    {
      assert pending[x] in pending;
      PendingInRange(ms, pending[x]);
    }
  }

  lemma IgnoredCase(ms: seq<PfcpMsg>)
    requires ms != [] && LegOf(ms[|ms| - 1]).Ignored? && Declared(ms[..|ms| - 1], Run(ms[..|ms| - 1]))
    ensures Declared(ms, Run(ms))
  {
    hide LegOf, IsPending, IsClosed, Run, Find;
    var n := |ms| - 1;
    RunStep(ms);
    forall i: nat
      ensures i in Run(ms).pending <==> IsPending(ms, i)
    {
      PendingInRange(ms, i);
      PendingInRange(ms[..n], i);
      if i < n {
        PendingOneMore(ms, i);
      } else if i == n {
        IgnoredNotPending(ms, n);
      }
    }
    forall i: nat, j: nat
      ensures (i, j) in Run(ms).closed <==> IsClosed(ms, i, j)
    {
      ClosedOneMore(ms, i, j);
      ClosedInRange(ms[..n], i, j);
    }
  }

  lemma IgnoredNotPending(ms: seq<PfcpMsg>, i: nat)
    requires i < |ms| && !LegOf(ms[i]).Request?
    ensures !IsPending(ms, i)
  {
  }

  lemma {:induction false} WithoutMembers(s: seq<nat>, x: nat)
    requires x < |s| && Increasing(s)
    ensures forall i :: i in Without(s, x) <==> i in s && i != s[x]
    ensures Increasing(Without(s, x))
  {
    forall i
      ensures i in Without(s, x) <==> i in s && i != s[x]
    {
      WithoutOne(s, x, i);
    }
  }

  lemma WithoutOne(s: seq<nat>, x: nat, i: nat)
    requires x < |s| && Increasing(s)
    ensures i in Without(s, x) <==> i in s && i != s[x]
  {
    assert s == s[..x] + [s[x]] + s[x + 1..];
    NotAround(s, x);
  }

  lemma NotAround(s: seq<nat>, x: nat)
    requires x < |s| && Increasing(s)
    ensures s[x] !in s[..x] && s[x] !in s[x + 1..]
  {
  }

  /** A response answers the pending request that is found for it, and no other. */
  lemma AnswersTheFound(ms: seq<PfcpMsg>, i: nat)
    requires ms != [] && LegOf(ms[|ms| - 1]).Response? && Declared(ms[..|ms| - 1], Run(ms[..|ms| - 1]))
    requires AreRequests(ms, Run(ms[..|ms| - 1]).pending) && IsPending(ms[..|ms| - 1], i)
    ensures i < |ms| && LegOf(ms[i]).Request?
    ensures var n := |ms| - 1; var before := Run(ms[..n]);
            var at := Find(ms, before.pending, LegOf(ms[n]).key);
            Answers(ms[n], LegOf(ms[i]).key) <==> at.Some? && i == before.pending[at.value]
  {
    hide LegOf, IsPending, IsClosed, Run, Find;
    var n := |ms| - 1;
    var before := Run(ms[..n]);
    var at := Find(ms, before.pending, LegOf(ms[n]).key);
    PendingIsRequest(ms[..n], i);
    var x :| 0 <= x < |before.pending| && before.pending[x] == i;
    if at.Some? && LegOf(ms[i]).key == LegOf(ms[n]).key {
      assert before.pending[at.value] in before.pending;
      OnePendingPerPath(ms[..n], i, before.pending[at.value]);
    }
  }

  lemma ResponsePending(ms: seq<PfcpMsg>, i: nat)
    requires ms != [] && LegOf(ms[|ms| - 1]).Response? && Declared(ms[..|ms| - 1], Run(ms[..|ms| - 1]))
    ensures i in Run(ms).pending <==> IsPending(ms, i)
  {
    hide LegOf, IsPending, IsClosed, Run, Find, Without;
    var n := |ms| - 1;
    var before := Run(ms[..n]);
    RunStep(ms);
    var at := Find(ms, before.pending, LegOf(ms[n]).key);
    if at.Some? {
      WithoutMembers(before.pending, at.value);
    }
    PendingInRange(ms, i);
    PendingInRange(ms[..n], i);
    if IsPending(ms[..n], i) {
      AnswersTheFound(ms, i);
    }
    if i < n {
      PendingOneMore(ms, i);
    } else if i == n {
      IgnoredNotPending(ms, n);
    }
  }

  lemma ResponseClosed(ms: seq<PfcpMsg>, i: nat, j: nat)
    requires ms != [] && LegOf(ms[|ms| - 1]).Response? && Declared(ms[..|ms| - 1], Run(ms[..|ms| - 1]))
    ensures (i, j) in Run(ms).closed <==> IsClosed(ms, i, j)
  {
    hide LegOf, IsPending, IsClosed, Run, Find, Without;
    var n := |ms| - 1;
    var before := Run(ms[..n]);
    RunStep(ms);
    ClosedOneMore(ms, i, j);
    ClosedInRange(ms[..n], i, j);
    PendingInRange(ms[..n], i);
    if IsPending(ms[..n], i) {
      AnswersTheFound(ms, i);
    }
    var at := Find(ms, before.pending, LegOf(ms[n]).key);
    if at.Some? {
      assert before.pending[at.value] in before.pending;
    }
  }

  lemma ResponseCase(ms: seq<PfcpMsg>)
    requires ms != [] && LegOf(ms[|ms| - 1]).Response? && Declared(ms[..|ms| - 1], Run(ms[..|ms| - 1]))
    ensures Declared(ms, Run(ms))
  {
    hide LegOf, IsPending, IsClosed, Run, Find, Without;
    forall i: nat
      ensures i in Run(ms).pending <==> IsPending(ms, i)
    {
      ResponsePending(ms, i);
    }
    forall i: nat, j: nat
      ensures (i, j) in Run(ms).closed <==> IsClosed(ms, i, j)
    {
      ResponseClosed(ms, i, j);
    }
    ResponseOrder(ms);
  }

  lemma ResponseOrder(ms: seq<PfcpMsg>)
    requires ms != [] && LegOf(ms[|ms| - 1]).Response? && Declared(ms[..|ms| - 1], Run(ms[..|ms| - 1]))
    ensures var p := Run(ms);
            Increasing(p.pending) && forall x, y :: 0 <= x < y < |p.closed| ==> p.closed[x].1 < p.closed[y].1
  {
    hide LegOf, IsPending, IsClosed, Run, Find, Without;
    var before := Run(ms[..|ms| - 1]);
    RunStep(ms);
    var at := Find(ms, before.pending, LegOf(ms[|ms| - 1]).key);
    if at.Some? {
      WithoutMembers(before.pending, at.value);
    }
  }

  /** The pass closes and keeps pending exactly what the declaration says, in message order. */
  lemma {:induction false} PassIsDeclared(ms: seq<PfcpMsg>)
    ensures Declared(ms, Run(ms))
  {
    hide LegOf, Run, Declared;
    if ms == [] {
      EmptyDeclared();
    } else {
      PassIsDeclared(ms[..|ms| - 1]);
      match LegOf(ms[|ms| - 1])
      case Request(_, _) => RequestCase(ms);
      case Response(_, _) => ResponseCase(ms);
      case Ignored => IgnoredCase(ms);
    }
  }

  lemma EmptyDeclared()
    ensures Declared([], Run([]))
  {
  }

  lemma NotFirst(ms: seq<PfcpMsg>, i: nat)
    requires !FirstSend(ms, i)
    ensures !IsPending(ms, i)
  {
  }

  lemma PendingIsRequest(ms: seq<PfcpMsg>, i: nat)
    requires IsPending(ms, i)
    ensures i < |ms| && LegOf(ms[i]).Request?
  {
  }

  lemma PendingInRange(ms: seq<PfcpMsg>, i: nat)
    ensures IsPending(ms, i) ==> i < |ms|
  {
  }

  lemma ClosedInRange(ms: seq<PfcpMsg>, i: nat, j: nat)
    ensures IsClosed(ms, i, j) ==> i < j < |ms|
  {
  }
}

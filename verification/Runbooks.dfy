/** Matching runbooks to an incident: a shared score, and three stable sorts. */
module Runbooks {
  import opened Prelude
  import opened Sorting
  import opened Text

  /** The day number an unknown date stands for: the smallest date there is. */
  const DATE_MIN := 1

  type DayNumber = d: int | DATE_MIN <= d witness DATE_MIN

  datatype Runbook = Runbook(
    slug: string, title: string, procedure: Option<string>, added: Option<DayNumber>, symptoms: seq<(string, string)>,
    steps: seq<string>, action: string, args: map<string, string>)

  type Scored = (nat, Runbook)

  function EvidenceKeys(evidence: seq<map<string, string>>): set<(string, string)> {
    if evidence == [] then {}
    else
      var last := evidence[|evidence| - 1];
      EvidenceKeys(evidence[..|evidence| - 1]) + set k | k in last :: (k, last[k])
  }

  function SymptomSet(r: Runbook): set<(string, string)> {
    set x | x in r.symptoms
  }

  /** Empty and absent both mean no procedure. */
  function ProcedureOf(p: Option<string>): string {
    if p.Some? then p.value else ""
  }

  /** 3 per shared symptom, 2 for the same procedure. */
  function Score(r: Runbook, procedure: Option<string>, keys: set<(string, string)>): nat {
    3 * |keys * SymptomSet(r)| + if ProcedureOf(r.procedure) == ProcedureOf(procedure) then 2 else 0
  }

  function Candidates(rs: seq<Runbook>, procedure: Option<string>, keys: set<(string, string)>): seq<Scored> {
    if rs == [] then []
    else
      var last := rs[|rs| - 1];
      Candidates(rs[..|rs| - 1], procedure, keys)
      + if Score(last, procedure, keys) >= 2 then [(Score(last, procedure, keys), last)] else []
  }

  function Day(r: Runbook): DayNumber {
    if r.added.Some? then r.added.value else DATE_MIN
  }

  predicate BySlug(a: Scored, b: Scored) {
    StringAtMost(a.1.slug, b.1.slug)
  }

  predicate NewestFirst(a: Scored, b: Scored) {
    Day(a.1) >= Day(b.1)
  }

  predicate HighestFirst(a: Scored, b: Scored) {
    a.0 >= b.0
  }

  /** Newest first, the slug deciding between equal days. */
  predicate ByDayThenSlug(a: Scored, b: Scored) {
    NewestFirst(a, b) && (NewestFirst(b, a) ==> BySlug(a, b))
  }

  /** The ranking: score, then date, then slug. */
  predicate Ranks(a: Scored, b: Scored) {
    HighestFirst(a, b) && (HighestFirst(b, a) ==> ByDayThenSlug(a, b))
  }

  function TopThree(s: seq<Scored>): seq<Runbook> {
    MapSeq((x: Scored) => x.1, if |s| <= 3 then s else s[..3])
  }

  /** The three successive stable sorts, least significant key first. */
  function SortedThrice(s: seq<Scored>): seq<Scored> {
    Sort(HighestFirst, Sort(NewestFirst, Sort(BySlug, s)))
  }

  method GatherKeys(evidence: seq<map<string, string>>) returns (keys: set<(string, string)>)
    ensures keys == EvidenceKeys(evidence)
  {
    keys := {};
    for i := 0 to |evidence|
      invariant keys == EvidenceKeys(evidence[..i])
    {
      assert evidence[..i + 1][..i] == evidence[..i];
      keys := keys + set k | k in evidence[i] :: (k, evidence[i][k]);
    }
    assert evidence[..|evidence|] == evidence;
  }

  method ScoreOne(r: Runbook, procedure: Option<string>, keys: set<(string, string)>) returns (score: nat)
    ensures score == Score(r, procedure, keys)
  {
    score := 3 * |keys * SymptomSet(r)|;
    if ProcedureOf(r.procedure) == ProcedureOf(procedure) {
      score := score + 2;
    }
  }

  method MatchRunbooks(rs: seq<Runbook>, procedure: Option<string>, evidence: seq<map<string, string>>)
    returns (top: seq<Runbook>)
    ensures top == TopThree(SortedThrice(Candidates(rs, procedure, EvidenceKeys(evidence))))
    ensures Best(rs, procedure, evidence, top)
  {
    hide Score, Sort, EvidenceKeys, Best, Candidates, TopThree;
    TopIsBest(rs, procedure, evidence);
    var keys := GatherKeys(evidence);
    var scored: seq<Scored> := [];
    NoCandidates(procedure, keys);
    assert rs[..0] == [];
    for i := 0 to |rs|
      invariant scored == Candidates(rs[..i], procedure, keys)
    {
      assert rs[..i + 1][..i] == rs[..i];
      CandidateStep(rs[..i + 1], procedure, keys);
      var score := ScoreOne(rs[i], procedure, keys);
      if score >= 2 {
        scored := scored + [(score, rs[i])];
      }
    }
    assert rs[..|rs|] == rs;
    scored := Sort(BySlug, scored);
    scored := Sort(NewestFirst, scored);
    scored := Sort(HighestFirst, scored);
    top := TopThree(scored);
  }

  lemma KeysArePreorders()
    ensures TotalPreorder(BySlug) && TotalPreorder(NewestFirst) && TotalPreorder(HighestFirst)
    ensures IsThenBy(NewestFirst, BySlug, ByDayThenSlug) && IsThenBy(HighestFirst, ByDayThenSlug, Ranks)
  {
    forall a: Scored, b: Scored
      ensures BySlug(a, b) || BySlug(b, a)
    {
      StringOrder(a.1.slug, b.1.slug, "");
    }
    forall a: Scored, b: Scored, c: Scored | BySlug(a, b) && BySlug(b, c)
      ensures BySlug(a, c)
    {
      StringOrder(a.1.slug, b.1.slug, c.1.slug);
    }
  }

  /** The three sorts are one sort: score descending, date descending with unknown oldest, slug ascending. */
  lemma ThreeSortsAreOne(s: seq<Scored>)
    ensures SortedThrice(s) == Sort(Ranks, s)
    ensures Sorted(Ranks, SortedThrice(s)) && multiset(SortedThrice(s)) == multiset(s)
  {
    hide Sort;
    KeysArePreorders();
    ThenByPreorder(NewestFirst, BySlug, ByDayThenSlug);
    ThenByPreorder(HighestFirst, ByDayThenSlug, Ranks);
    SortThenBy(NewestFirst, BySlug, ByDayThenSlug, s);
    SortThenBy(HighestFirst, ByDayThenSlug, Ranks, s);
    SortSorted(Ranks, s);
    SortPermutes(Ranks, s);
  }

  predicate DistinctSlugs(rs: seq<Runbook>) {
    forall i, j :: 0 <= i < j < |rs| ==> rs[i].slug != rs[j].slug
  }

  lemma {:induction false} CandidateSlugs(rs: seq<Runbook>, procedure: Option<string>, keys: set<(string, string)>)
    ensures forall x :: x in Candidates(rs, procedure, keys) <==>
      x.1 in rs && x.0 == Score(x.1, procedure, keys) && x.0 >= 2
    ensures DistinctSlugs(rs) ==>
      forall i, j :: 0 <= i < j < |Candidates(rs, procedure, keys)| ==>
        Candidates(rs, procedure, keys)[i].1.slug != Candidates(rs, procedure, keys)[j].1.slug
  {
    if rs != [] {
      var n := |rs| - 1;
      CandidateSlugs(rs[..n], procedure, keys);
      assert rs == rs[..n] + [rs[n]];
      var front := Candidates(rs[..n], procedure, keys);
      if DistinctSlugs(rs) {
        forall i | 0 <= i < |front|
          ensures front[i].1.slug != rs[n].slug
        {
          assert front[i] in front && front[i].1 in rs[..n];
        }
      }
    }
  }

  lemma StrictRanks(rs: seq<Runbook>, procedure: Option<string>, keys: set<(string, string)>)
    requires DistinctSlugs(rs)
    ensures Strict(Ranks, Candidates(rs, procedure, keys))
  {
    CandidateSlugs(rs, procedure, keys);
    var s := Candidates(rs, procedure, keys);
    forall i, j | 0 <= i < j < |s|
      ensures !(Ranks(s[i], s[j]) && Ranks(s[j], s[i]))
    {
      StringOrder(s[i].1.slug, s[j].1.slug, "");
    }
  }

  lemma {:induction false} CandidateCount(rs: seq<Runbook>, procedure: Option<string>, keys: set<(string, string)>,
                                          x: Scored)
    ensures multiset(Candidates(rs, procedure, keys))[x] ==
      if x.0 == Score(x.1, procedure, keys) && x.0 >= 2 then multiset(rs)[x.1] else 0
  {
    hide Score, Candidates;
    if rs == [] {
      NoCandidates(procedure, keys);
    } else {
      var n := |rs| - 1;
      var score := Score(rs[n], procedure, keys);
      CandidateCount(rs[..n], procedure, keys, x);
      CandidateStep(rs, procedure, keys);
      CountOneMore(rs[..n], rs[n], x.1);
      assert rs == rs[..n] + [rs[n]];
      CountOneMore(Candidates(rs[..n], procedure, keys), (score, rs[n]), x);
    }
  }

  lemma NoCandidates(procedure: Option<string>, keys: set<(string, string)>)
    ensures Candidates([], procedure, keys) == []
  {
  }

  lemma CandidateStep(rs: seq<Runbook>, procedure: Option<string>, keys: set<(string, string)>)
    requires rs != []
    ensures var n := |rs| - 1; var score := Score(rs[n], procedure, keys);
            Candidates(rs, procedure, keys)
            == if score >= 2 then Candidates(rs[..n], procedure, keys) + [(score, rs[n])]
               else Candidates(rs[..n], procedure, keys)
  {
    hide Score;
  }

  lemma CountOneMore<T>(s: seq<T>, y: T, x: T)
    ensures multiset(s + [y])[x] == multiset(s)[x] + if y == x then 1 else 0
  {
  }

  lemma {:induction false} DistinctOnce(rs: seq<Runbook>)
    requires DistinctSlugs(rs)
    ensures forall r :: multiset(rs)[r] <= 1
    ensures forall r, q :: r in rs && q in rs && r.slug == q.slug ==> r == q
  {
    if rs != [] {
      var n := |rs| - 1;
      DistinctOnce(rs[..n]);
      assert rs == rs[..n] + [rs[n]];
      assert rs[n] !in rs[..n];
    }
  }

  lemma TwiceCounts(qs: seq<Runbook>, i: nat, j: nat)
    requires i < j < |qs| && qs[i] == qs[j]
    ensures multiset(qs)[qs[i]] >= 2
  {
    assert qs == qs[..j] + qs[j..];
    assert qs[..j][i] == qs[i] && qs[j..][0] == qs[i];
    assert qs[i] in multiset(qs[..j]) && qs[i] in multiset(qs[j..]);
  }

  lemma DistinctInAnyOrder(rs: seq<Runbook>, qs: seq<Runbook>)
    requires DistinctSlugs(rs) && multiset(rs) == multiset(qs)
    ensures DistinctSlugs(qs)
  {
    DistinctOnce(rs);
    SameMembers(rs, qs);
    forall i, j | 0 <= i < j < |qs|
      ensures qs[i].slug != qs[j].slug
    {
      assert qs[i] in qs && qs[j] in qs;
      if qs[i] == qs[j] {
        TwiceCounts(qs, i, j);
      }
    }
  }

  /** With distinct slugs the result does not depend on the order in which runbooks are loaded. */
  lemma OrderOfRunbooksIrrelevant(rs: seq<Runbook>, qs: seq<Runbook>, procedure: Option<string>,
                                  keys: set<(string, string)>)
    requires DistinctSlugs(rs) && multiset(rs) == multiset(qs)
    ensures TopThree(SortedThrice(Candidates(rs, procedure, keys)))
            == TopThree(SortedThrice(Candidates(qs, procedure, keys)))
  {
    hide Sort, Candidates, Ranks;
    var s, t := Candidates(rs, procedure, keys), Candidates(qs, procedure, keys);
    forall x
      ensures multiset(s)[x] == multiset(t)[x]
    {
      CandidateCount(rs, procedure, keys, x);
      CandidateCount(qs, procedure, keys, x);
    }
    assert multiset(s) == multiset(t);
    DistinctInAnyOrder(rs, qs);
    StrictRanks(rs, procedure, keys);
    StrictRanks(qs, procedure, keys);
    RanksPreorder();
    SortOfPermutation(Ranks, s, t);
    ThreeSortsAreOne(s);
    ThreeSortsAreOne(t);
  }

  lemma RanksPreorder()
    ensures TotalPreorder(Ranks)
  {
    KeysArePreorders();
    ThenByPreorder(NewestFirst, BySlug, ByDayThenSlug);
    ThenByPreorder(HighestFirst, ByDayThenSlug, Ranks);
  }

  /** Nothing is returned exactly when no runbook reaches the threshold. */
  lemma MatchesExist(rs: seq<Runbook>, procedure: Option<string>, keys: set<(string, string)>)
    ensures TopThree(SortedThrice(Candidates(rs, procedure, keys))) != [] <==>
      exists r :: r in rs && Score(r, procedure, keys) >= 2
  {
    hide Sort, Score;
    var s := Candidates(rs, procedure, keys);
    CandidateSlugs(rs, procedure, keys);
    SortMembers(BySlug, s);
    SortMembers(NewestFirst, Sort(BySlug, s));
    SortMembers(HighestFirst, Sort(NewestFirst, Sort(BySlug, s)));
    if s != [] {
      assert s[0] in s;
    }
    if r :| r in rs && Score(r, procedure, keys) >= 2 {
      assert (Score(r, procedure, keys), r) in s;
    }
  }

  /** Some item holds the value under the key. */
  ghost predicate Seen(evidence: seq<map<string, string>>, symptom: (string, string)) {
    exists i :: 0 <= i < |evidence| && symptom.0 in evidence[i] && evidence[i][symptom.0] == symptom.1
  }

  predicate Blank(s: Option<string>) {
    s == None || s == Some("")
  }

  /** Three for every symptom seen, and two for the incident's procedure. */
  ghost function Points(r: Runbook, procedure: Option<string>, evidence: seq<map<string, string>>): nat {
    3 * |set s | s in r.symptoms && Seen(evidence, s)|
    + if r.procedure == procedure || (Blank(r.procedure) && Blank(procedure)) then 2 else 0
  }

  predicate Newer(a: Runbook, b: Runbook) {
    a.added.Some? && a.added.value > if b.added.Some? then b.added.value else 1
  }

  /** More points, or as many and newer, or neither is newer and the slug comes first. */
  ghost predicate Before(a: Runbook, b: Runbook, procedure: Option<string>, evidence: seq<map<string, string>>) {
    var p, q := Points(a, procedure, evidence), Points(b, procedure, evidence);
    p > q || (p == q && (Newer(a, b) || (!Newer(b, a) && StringAtMost(a.slug, b.slug))))
  }

  /** The three that come first of those with two points or more; all of them if there are no more. */
  ghost predicate Best(rs: seq<Runbook>, procedure: Option<string>, evidence: seq<map<string, string>>,
                       top: seq<Runbook>)
  {
    exists rest: seq<Runbook> ::
      && |top| <= 3 && (rest != [] ==> |top| == 3)
      && (forall r :: multiset(top + rest)[r] == if Points(r, procedure, evidence) >= 2 then multiset(rs)[r] else 0)
      && forall i, j :: 0 <= i < j < |top + rest| && i < |top| ==>
           Before((top + rest)[i], (top + rest)[j], procedure, evidence)
  }

  lemma {:induction false} KeysAreSeen(evidence: seq<map<string, string>>, s: (string, string))
    ensures s in EvidenceKeys(evidence) <==> Seen(evidence, s)
  {
    if evidence != [] {
      var n := |evidence| - 1;
      KeysAreSeen(evidence[..n], s);
      assert forall i :: 0 <= i < n ==> evidence[..n][i] == evidence[i];
    }
  }

  lemma ScoreIsPoints(r: Runbook, procedure: Option<string>, evidence: seq<map<string, string>>)
    ensures Score(r, procedure, EvidenceKeys(evidence)) == Points(r, procedure, evidence)
  {
    hide EvidenceKeys, Seen;
    var keys := EvidenceKeys(evidence);
    forall s
      ensures s in keys <==> Seen(evidence, s)
    {
      KeysAreSeen(evidence, s);
    }
    assert keys * SymptomSet(r) == set s | s in r.symptoms && Seen(evidence, s);
  }

  lemma RanksIsBefore(a: Scored, b: Scored, procedure: Option<string>, evidence: seq<map<string, string>>)
    requires a.0 == Score(a.1, procedure, EvidenceKeys(evidence))
    requires b.0 == Score(b.1, procedure, EvidenceKeys(evidence))
    ensures Ranks(a, b) <==> Before(a.1, b.1, procedure, evidence)
  {
    ScoreIsPoints(a.1, procedure, evidence);
    ScoreIsPoints(b.1, procedure, evidence);
    hide Score, Points, EvidenceKeys;
  }

  function RunbooksOf(s: seq<Scored>): (r: seq<Runbook>)
    ensures |r| == |s| && forall i :: 0 <= i < |s| ==> r[i] == s[i].1
  {
    seq(|s|, i requires 0 <= i < |s| => s[i].1)
  }

  predicate ScoredAs(s: seq<Scored>, score: nat, r: Runbook) {
    forall x :: x in s && x.1 == r ==> x.0 == score
  }

  lemma LastScored(s: seq<Scored>, score: nat, r: Runbook)
    requires s != [] && ScoredAs(s, score, r)
    ensures var n := |s| - 1;
            && s == s[..n] + [s[n]] && RunbooksOf(s) == RunbooksOf(s[..n]) + [s[n].1]
            && ScoredAs(s[..n], score, r) && (s[n].1 == r <==> s[n] == (score, r))
  {
    var n := |s| - 1;
    assert s == s[..n] + [s[n]] && s[n] in s;
  }

  lemma NothingScored()
    ensures RunbooksOf([]) == []
  {
  }

  /** Scored runbooks are as many as the runbooks themselves. */
  lemma {:induction false} CountScored(s: seq<Scored>, score: nat, r: Runbook)
    requires ScoredAs(s, score, r)
    ensures multiset(RunbooksOf(s))[r] == multiset(s)[(score, r)]
  {
    hide RunbooksOf, ScoredAs;
    if s == [] {
      NothingScored();
    } else {
      var n := |s| - 1;
      LastScored(s, score, r);
      CountScored(s[..n], score, r);
      CountOneMore(s[..n], s[n], (score, r));
      CountOneMore(RunbooksOf(s[..n]), s[n].1, r);
    }
  }

  lemma TopIsPrefix(s: seq<Scored>)
    ensures var all := RunbooksOf(s); var top := TopThree(s);
            |top| <= |all| && top == all[..|top|] && |top| == if |all| <= 3 then |all| else 3
  {
  }

  lemma AllCount(rs: seq<Runbook>, procedure: Option<string>, evidence: seq<map<string, string>>, r: Runbook)
    ensures var s := SortedThrice(Candidates(rs, procedure, EvidenceKeys(evidence)));
            multiset(RunbooksOf(s))[r] == if Points(r, procedure, evidence) >= 2 then multiset(rs)[r] else 0
  {
    hide Score, Sort, EvidenceKeys, Points, Ranks, Candidates, SortedThrice;
    var keys := EvidenceKeys(evidence);
    var cs := Candidates(rs, procedure, keys);
    var s := SortedThrice(cs);
    ThreeSortsAreOne(cs);
    CandidateSlugs(rs, procedure, keys);
    SameMembers(s, cs);
    ScoreIsPoints(r, procedure, evidence);
    CountScored(s, Score(r, procedure, keys), r);
    CandidateCount(rs, procedure, keys, (Score(r, procedure, keys), r));
  }

  lemma AllOrdered(rs: seq<Runbook>, procedure: Option<string>, evidence: seq<map<string, string>>, i: nat, j: nat)
    requires i < j < |SortedThrice(Candidates(rs, procedure, EvidenceKeys(evidence)))|
    ensures var s := SortedThrice(Candidates(rs, procedure, EvidenceKeys(evidence)));
            Before(s[i].1, s[j].1, procedure, evidence)
  {
    hide Score, Sort, EvidenceKeys, Points, Before, Ranks, Candidates, SortedThrice;
    var cs := Candidates(rs, procedure, EvidenceKeys(evidence));
    var s := SortedThrice(cs);
    ThreeSortsAreOne(cs);
    CandidateSlugs(rs, procedure, EvidenceKeys(evidence));
    SameMembers(s, cs);
    assert s[i] in s && s[j] in s;
    RanksIsBefore(s[i], s[j], procedure, evidence);
  }

  lemma TopIsBest(rs: seq<Runbook>, procedure: Option<string>, evidence: seq<map<string, string>>)
    ensures Best(rs, procedure, evidence,
                 TopThree(SortedThrice(Candidates(rs, procedure, EvidenceKeys(evidence)))))
  {
    hide EvidenceKeys, Points, Before, Candidates, SortedThrice, TopThree;
    var s := SortedThrice(Candidates(rs, procedure, EvidenceKeys(evidence)));
    var all := RunbooksOf(s);
    var top := TopThree(s);
    TopIsPrefix(s);
    var rest := all[|top|..];
    assert top + rest == all;
    forall r
      ensures multiset(all)[r] == if Points(r, procedure, evidence) >= 2 then multiset(rs)[r] else 0
    {
      AllCount(rs, procedure, evidence, r);
    }
    forall i, j | 0 <= i < j < |all|
      ensures Before(all[i], all[j], procedure, evidence)
    {
      AllOrdered(rs, procedure, evidence, i, j);
    }
  }
}

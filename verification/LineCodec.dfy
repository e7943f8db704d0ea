/** A faithful codec exists: an injective way of printing episodes on one line. */
module LineCodec {
  import opened Prelude
  import opened Text
  import opened Store

  /** The items, each after a separator. */
  ghost function Listed<T>(xs: seq<T>, print_: T -> string, sep: char): string {
    JoinWith(Parts(xs, print_), [sep])
  }

  /** An empty part in front tells no items from one empty item. */
  ghost function Parts<T>(xs: seq<T>, print_: T -> string): (r: seq<string>)
    ensures |r| == |xs| + 1 && forall i :: 0 <= i < |xs| ==> r[i + 1] == print_(xs[i])
  {
    if xs == [] then [""] else Parts(xs[..|xs| - 1], print_) + [print_(xs[|xs| - 1])]
  }

  /** No two items are printed alike. */
  ghost predicate Injective<T(!new)>(print_: T -> string) {
    forall x, y :: print_(x) == print_(y) ==> x == y
  }

  ghost predicate Without<T(!new)>(print_: T -> string, c: char) {
    forall x :: c !in print_(x)
  }

  lemma {:induction false} PartsWithout<T(!new)>(xs: seq<T>, print_: T -> string, c: char)
    requires Without(print_, c)
    ensures forall i :: 0 <= i < |Parts(xs, print_)| ==> c !in Parts(xs, print_)[i]
  {
    if xs != [] {
      PartsWithout(xs[..|xs| - 1], print_, c);
    }
  }

  lemma ListedOnce<T(!new)>(xs: seq<T>, ys: seq<T>, print_: T -> string, sep: char)
    requires Injective(print_) && Without(print_, sep) && Listed(xs, print_, sep) == Listed(ys, print_, sep)
    ensures xs == ys
  {
    var a, b := Parts(xs, print_), Parts(ys, print_);
    PartsWithout(xs, print_, sep);
    PartsWithout(ys, print_, sep);
    SplitOfJoin(a, sep);
    SplitOfJoin(b, sep);
    forall i | 0 <= i < |xs|
      ensures xs[i] == ys[i]
    {
      assert a[i + 1] == b[i + 1];
    }
  }

  lemma {:induction false} JoinWithout(parts: seq<string>, sep: char, c: char)
    requires c != sep && forall i :: 0 <= i < |parts| ==> c !in parts[i]
    ensures c !in JoinWith(parts, [sep])
  {
    if |parts| > 1 {
      JoinWithout(parts[..|parts| - 1], sep, c);
    }
  }

  lemma ListedWithout<T(!new)>(xs: seq<T>, print_: T -> string, sep: char, c: char)
    requires c != sep && Without(print_, c)
    ensures c !in Listed(xs, print_, sep)
  {
    PartsWithout(xs, print_, c);
    JoinWithout(Parts(xs, print_), sep, c);
  }

  ghost function Tally(n: nat): (r: string)
    ensures |r| == n && forall i :: 0 <= i < n ==> r[i] == '1'
  {
    seq(n, i => '1')
  }

  /** Characters are tallies, texts lists of tallies, fields lists of texts, lines lists of fields. */
  ghost function OfChar(c: char): string {
    Tally(c as int)
  }

  ghost function OfText(s: string): string {
    Listed(s, OfChar, '0')
  }

  ghost function OfField(f: seq<string>): string {
    Listed(f, OfText, ',')
  }

  ghost function OfFields(fs: seq<seq<string>>): string {
    "{" + Listed(fs, OfField, ';')
  }

  lemma Chars()
    ensures Injective(OfChar) && forall c :: c != '1' ==> Without(OfChar, c)
  {
    forall c, d: char | OfChar(c) == OfChar(d)
      ensures c == d
    {
      assert |OfChar(c)| == c as int && |OfChar(d)| == d as int;
    }
  }

  lemma Texts()
    ensures Injective(OfText) && forall c :: c != '1' && c != '0' ==> Without(OfText, c)
  {
    Chars();
    forall s, t: string | OfText(s) == OfText(t)
      ensures s == t
    {
      ListedOnce(s, t, OfChar, '0');
    }
    forall c, s: string | c != '1' && c != '0'
      ensures c !in OfText(s)
    {
      ListedWithout(s, OfChar, '0', c);
    }
  }

  lemma FieldsOfTexts()
    ensures Injective(OfField) && Without(OfField, ';') && Without(OfField, '\n')
  {
    Texts();
    forall f, g: seq<string> | OfField(f) == OfField(g)
      ensures f == g
    {
      ListedOnce(f, g, OfText, ',');
    }
    forall f: seq<string>
      ensures ';' !in OfField(f) && '\n' !in OfField(f)
    {
      ListedWithout(f, OfText, ',', ';');
      ListedWithout(f, OfText, ',', '\n');
    }
  }

  lemma FieldsPrintOnce(fs: seq<seq<string>>, gs: seq<seq<string>>)
    ensures OfFields(fs) == OfFields(gs) ==> fs == gs
    ensures '\n' !in OfFields(fs)
  {
    FieldsOfTexts();
    if OfFields(fs) == OfFields(gs) {
      assert OfFields(fs)[1..] == Listed(fs, OfField, ';') && OfFields(gs)[1..] == Listed(gs, OfField, ';');
      ListedOnce(fs, gs, OfField, ';');
    }
    ListedWithout(fs, OfField, ';', '\n');
  }

  ghost function OfOption(s: Option<string>): seq<string> {
    if s.None? then [] else [s.value]
  }

  ghost function OfPairs(ps: seq<(string, string)>): (r: seq<string>)
    ensures |r| == 2 * |ps|
  {
    if ps == [] then [] else OfPairs(ps[..|ps| - 1]) + [ps[|ps| - 1].0, ps[|ps| - 1].1]
  }

  lemma {:induction false} PairsOnce(ps: seq<(string, string)>, qs: seq<(string, string)>)
    requires OfPairs(ps) == OfPairs(qs)
    ensures ps == qs
  {
    if ps != [] && qs != [] {
      var m, n := |ps| - 1, |qs| - 1;
      var a, b := OfPairs(ps), OfPairs(qs);
      assert a[..|a| - 2] == OfPairs(ps[..m]) && b[..|b| - 2] == OfPairs(qs[..n]);
      PairsOnce(ps[..m], qs[..n]);
      assert ps[m] == (a[|a| - 2], a[|a| - 1]) && qs[n] == (b[|b| - 2], b[|b| - 1]);
      assert ps == ps[..m] + [ps[m]] && qs == qs[..n] + [qs[n]];
    }
  }

  /** The entries of a map, in some order. */
  ghost function Entries(m: map<string, string>): (r: seq<(string, string)>)
    ensures forall k, v :: (k, v) in r <==> k in m && m[k] == v
    decreases |m.Keys|
  {
    if m == map[] then []
    else
      var k :| k in m;
      var rest := m - {k};
      assert m.Keys == rest.Keys + {k};
      Entries(rest) + [(k, m[k])]
  }

  lemma EntriesOnce(m: map<string, string>, n: map<string, string>)
    requires Entries(m) == Entries(n)
    ensures m == n
  {
    forall k
      ensures k in m <==> k in n
      ensures k in m && k in n ==> m[k] == n[k]
    {
      assert k in m ==> (k, m[k]) in Entries(m);
      assert k in n ==> (k, n[k]) in Entries(n);
    }
  }

  ghost function OfArgs(args: Option<map<string, string>>): seq<string> {
    if args.None? then [] else OfPairs([("", "")] + Entries(args.value))
  }

  lemma ArgsOnce(x: Option<map<string, string>>, y: Option<map<string, string>>)
    requires OfArgs(x) == OfArgs(y)
    ensures x == y
  {
    if x.Some? && y.Some? {
      var a, b := [("", "")] + Entries(x.value), [("", "")] + Entries(y.value);
      PairsOnce(a, b);
      assert a[1..] == Entries(x.value) && b[1..] == Entries(y.value);
      EntriesOnce(x.value, y.value);
    }
  }

  ghost function OfDecision(d: Decision): string {
    match d
    case ApprovedDryRun => "approved-dry-run"
    case ApprovedExecuted => "approved-executed"
    case Rejected => "rejected"
  }

  ghost function OfVerdict(v: Option<Verdict>): seq<string> {
    match v
    case None => []
    case Some(Resolved) => ["resolved"]
    case Some(Unresolved) => ["unresolved"]
  }

  ghost function FieldsOf(e: Episode): seq<seq<string>> {
    [[e.incidentId], OfOption(e.procedure), OfOption(e.scenario), OfPairs(e.evidenceKeys), e.causes,
     OfOption(e.action), OfArgs(e.args), [e.narrative], OfOption(e.justification), [OfDecision(e.decision)],
     OfVerdict(e.outcome), OfOption(e.outcomeEvidence), [Tally(e.createdAt)]]
  }

  lemma OptionOnce(x: Option<string>, y: Option<string>)
    requires OfOption(x) == OfOption(y)
    ensures x == y
  {
    assert x.Some? ==> OfOption(x)[0] == x.value;
    assert y.Some? ==> OfOption(y)[0] == y.value;
  }

  lemma SmallOnce(d: Decision, d': Decision, v: Option<Verdict>, v': Option<Verdict>, t: Instant, t': Instant)
    ensures OfDecision(d) == OfDecision(d') ==> d == d'
    ensures OfVerdict(v) == OfVerdict(v') ==> v == v'
    ensures Tally(t) == Tally(t') ==> t == t'
  {
    assert |OfDecision(ApprovedDryRun)| == 16 && |OfDecision(ApprovedExecuted)| == 17 && |OfDecision(Rejected)| == 8;
    assert v.Some? && v'.Some? && OfVerdict(v) == OfVerdict(v') ==> OfVerdict(v)[0][0] == OfVerdict(v')[0][0];
    assert |Tally(t)| == t && |Tally(t')| == t';
  }

  lemma EpisodesPrintOnce(e: Episode, e': Episode)
    requires FieldsOf(e) == FieldsOf(e')
    ensures e == e'
  {
    hide OfOption, OfPairs, OfArgs, OfDecision, OfVerdict, Tally;
    var fs, gs := FieldsOf(e), FieldsOf(e');
    assert forall i :: 0 <= i < 13 ==> fs[i] == gs[i];
    assert fs[0][0] == gs[0][0] && fs[7][0] == gs[7][0] && fs[9][0] == gs[9][0] && fs[12][0] == gs[12][0];
    assert fs[1] == gs[1] && fs[2] == gs[2] && fs[3] == gs[3] && fs[4] == gs[4] && fs[5] == gs[5] && fs[6] == gs[6];
    assert fs[8] == gs[8] && fs[10] == gs[10] && fs[11] == gs[11];
    OptionOnce(e.procedure, e'.procedure);
    OptionOnce(e.scenario, e'.scenario);
    PairsOnce(e.evidenceKeys, e'.evidenceKeys);
    OptionOnce(e.action, e'.action);
    ArgsOnce(e.args, e'.args);
    OptionOnce(e.justification, e'.justification);
    OptionOnce(e.outcomeEvidence, e'.outcomeEvidence);
    SmallOnce(e.decision, e'.decision, e.outcome, e'.outcome, e.createdAt, e'.createdAt);
  }

  ghost function Printed(e: Episode): string {
    OfFields(FieldsOf(e))
  }

  ghost function Parsed(line: string): Option<Episode> {
    if e :| Printed(e) == line then Some(e) else None
  }

  /** What the store laws ask of a codec can be met. */
  lemma SomeCodecIsFaithful()
    ensures exists codec :: Faithful(codec)
  {
    var codec := Codec(Parsed, Printed);
    forall e
      ensures codec.parse(codec.print_(e)) == Some(e) && codec.print_(e) != "" && '\n' !in codec.print_(e)
    {
      var read := Parsed(Printed(e)).value;
      FieldsPrintOnce(FieldsOf(read), FieldsOf(e));
      EpisodesPrintOnce(read, e);
      FieldsPrintOnce(FieldsOf(e), FieldsOf(e));
    }
    assert Faithful(codec);
  }
}

/** The line-oriented Episode store of the dispatcher. */
module Store {
  import opened Prelude
  import opened Text

  /** The decisions an episode may hold; a line with any other does not parse. */
  datatype Decision = ApprovedDryRun | ApprovedExecuted | Rejected

  datatype Verdict = Resolved | Unresolved

  /** A `datetime`: microseconds since the start of year 1, up to the end of year 9999. */
  type Instant = t: nat | t < 3_652_059 * 86_400 * 1_000_000

  datatype Episode = Episode(
    incidentId: string, procedure: Option<string>, scenario: Option<string>, evidenceKeys: seq<(string, string)>,
    causes: seq<string>, action: Option<string>, args: Option<map<string, string>>, narrative: string,
    justification: Option<string>, decision: Decision, outcome: Option<Verdict>, outcomeEvidence: Option<string>,
    createdAt: Instant)

  /** How episodes are written on a line and read back. */
  datatype Codec = Codec(parse: string -> Option<Episode>, print_: Episode -> string)

  /** What the JSON layer gives: printed episodes read back, on one non-empty line. */
  ghost predicate Faithful(codec: Codec) {
    forall e :: codec.parse(codec.print_(e)) == Some(e) && codec.print_(e) != "" && '\n' !in codec.print_(e)
  }

  function Lines(text: string): seq<string> {
    SplitOn(text, '\n')
  }

  function JoinLines(lines: seq<string>): string {
    JoinWith(lines, "\n")
  }

  function ParseLine(codec: Codec, line: string): Option<Episode> {
    if line == "" then None else codec.parse(line)
  }

  /** The episodes of the lines that parse, oldest first. */
  function Loaded(codec: Codec, lines: seq<string>): seq<Episode> {
    if lines == [] then []
    else
      var e := ParseLine(codec, lines[|lines| - 1]);
      Loaded(codec, lines[..|lines| - 1]) + if e.Some? then [e.value] else []
  }

  function WithOutcome(e: Episode, outcome: Verdict, evidence: Option<string>): Episode {
    e.(outcome := Some(outcome), outcomeEvidence := evidence)
  }

  /** One line under `set_outcome`: rewritten when it holds the incident, else kept as read. */
  function Rewritten(codec: Codec, line: string, id: string, outcome: Verdict, evidence: Option<string>): string {
    var e := ParseLine(codec, line);
    if e.Some? && e.value.incidentId == id then codec.print_(WithOutcome(e.value, outcome, evidence)) else line
  }

  function RewrittenAll(codec: Codec, lines: seq<string>, id: string, outcome: Verdict,
                        evidence: Option<string>)
    : (r: seq<string>)
    ensures |r| == |lines|
    ensures forall i :: 0 <= i < |lines| ==> r[i] == Rewritten(codec, lines[i], id, outcome, evidence)
  {
    if lines == [] then []
    else
      RewrittenAll(codec, lines[..|lines| - 1], id, outcome, evidence)
      + [Rewritten(codec, lines[|lines| - 1], id, outcome, evidence)]
  }

  function Updated(e: Episode, id: string, outcome: Verdict, evidence: Option<string>): Episode {
    if e.incidentId == id then WithOutcome(e, outcome, evidence) else e
  }

  function UpdatedAll(es: seq<Episode>, id: string, outcome: Verdict, evidence: Option<string>): seq<Episode> {
    if es == [] then []
    else UpdatedAll(es[..|es| - 1], id, outcome, evidence) + [Updated(es[|es| - 1], id, outcome, evidence)]
  }

  /** The last episode of the incident on the lines. */
  function Latest(codec: Codec, lines: seq<string>, id: string): Option<Episode> {
    if lines == [] then None
    else
      var e := ParseLine(codec, lines[|lines| - 1]);
      if e.Some? && e.value.incidentId == id then e else Latest(codec, lines[..|lines| - 1], id)
  }

  class EpisodeStore {
    const codec: Codec
    var file: Option<string>

    constructor (codec: Codec, file: Option<string>)
      ensures this.codec == codec && this.file == file
    {
      this.codec, this.file := codec, file;
    }

    function Text(): string
      reads this
    {
      if file.Some? then file.value else ""
    }

    /** Appends one episode on a line of its own. */
    method Add(e: Episode)
      modifies this
      ensures file == Some(old(Text()) + codec.print_(e) + "\n")
    {
      file := Some(Text() + codec.print_(e) + "\n");
    }

    /** All episodes; lines that do not parse are skipped. */
    method Load() returns (es: seq<Episode>)
      ensures es == Loaded(codec, Lines(Text()))
    {
      es := [];
      if file.None? {
        return;
      }
      var lines := Lines(file.value);
      for i := 0 to |lines|
        invariant es == Loaded(codec, lines[..i])
      {
        assert lines[..i + 1][..i] == lines[..i];
        var e := ParseLine(codec, lines[i]);
        if e.Some? {
          es := es + [e.value];
        }
      }
      assert lines[..|lines|] == lines;
    }

    /** Rewrites the matching lines of a list, keeping the others as they are. */
    method RewriteLines(lines: seq<string>, id: string, outcome: Verdict, evidence: Option<string>)
      returns (r: seq<string>, updated: Option<Episode>)
      ensures r == RewrittenAll(codec, lines, id, outcome, evidence)
      ensures updated == if Latest(codec, lines, id).None? then None
                         else Some(WithOutcome(Latest(codec, lines, id).value, outcome, evidence))
    {
      hide RewrittenAll;
      r, updated := lines, None;
      for i := 0 to |lines|
        invariant |r| == |lines|
        invariant forall j :: 0 <= j < i ==> r[j] == Rewritten(codec, lines[j], id, outcome, evidence)
        invariant forall j :: i <= j < |lines| ==> r[j] == lines[j]
        invariant updated == if Latest(codec, lines[..i], id).None? then None
                             else Some(WithOutcome(Latest(codec, lines[..i], id).value, outcome, evidence))
      {
        assert lines[..i + 1][..i] == lines[..i];
        var e := ParseLine(codec, r[i]);
        if e.Some? && e.value.incidentId == id {
          var changed := WithOutcome(e.value, outcome, evidence);
          r := r[i := codec.print_(changed)];
          updated := Some(changed);
        }
      }
      assert lines[..|lines|] == lines;
    }

    /** Rewrites the lines of one incident with its outcome; without one, or without a file, it fails. */
    method SetOutcome(id: string, outcome: Verdict, evidence: Option<string>) returns (r: Outcome<Episode>)
      modifies this
      ensures var lines := Lines(old(Text()));
              var found := Latest(codec, lines, id);
              if old(file).None? || found.None? then r.Raised? && file == old(file)
              else r == Returned(WithOutcome(found.value, outcome, evidence))
                   && Closes(found.value, r.value, outcome, evidence) && r.value.incidentId == id
                   && file == Some(JoinLines(RewrittenAll(codec, lines, id, outcome, evidence)))
    {
      hide RewrittenAll, JoinLines, Lines, Latest;
      if file.None? {
        return Raised("no such file");
      }
      var lines, updated := RewriteLines(Lines(file.value), id, outcome, evidence);
      if updated.None? {
        return Raised("no such episode");
      }
      file := Some(JoinLines(lines));
      LatestIs(codec, Lines(old(file.value)), id);
      r := Returned(updated.value);
    }
  }

  /** The episode with this outcome and evidence, and otherwise as it was. */
  predicate Closes(was: Episode, now: Episode, outcome: Verdict, evidence: Option<string>) {
    && now.outcome == Some(outcome) && now.outcomeEvidence == evidence
    && now.incidentId == was.incidentId && now.procedure == was.procedure && now.scenario == was.scenario
    && now.evidenceKeys == was.evidenceKeys && now.causes == was.causes && now.action == was.action
    && now.args == was.args && now.narrative == was.narrative && now.justification == was.justification
    && now.decision == was.decision && now.createdAt == was.createdAt
  }

  lemma {:induction false} LatestIs(codec: Codec, lines: seq<string>, id: string)
    ensures Latest(codec, lines, id).Some? ==> Latest(codec, lines, id).value.incidentId == id
  {
    if lines != [] {
      LatestIs(codec, lines[..|lines| - 1], id);
    }
  }

  /** Of the loaded episodes, those of the incident get the outcome and the others stay. */
  lemma {:induction false} OutcomesByFields(es: seq<Episode>, id: string, outcome: Verdict, evidence: Option<string>)
    ensures |UpdatedAll(es, id, outcome, evidence)| == |es|
    ensures forall i :: 0 <= i < |es| ==>
      if es[i].incidentId == id then Closes(es[i], UpdatedAll(es, id, outcome, evidence)[i], outcome, evidence)
      else UpdatedAll(es, id, outcome, evidence)[i] == es[i]
  {
    if es != [] {
      OutcomesByFields(es[..|es| - 1], id, outcome, evidence);
    }
  }

  /** Empty, or ended by a newline: what an append needs to start on a line of its own. */
  predicate Terminated(text: string) {
    text == "" || text[|text| - 1] == '\n'
  }

  lemma TerminatedLines(text: string)
    ensures Terminated(text) <==> Lines(text)[|Lines(text)| - 1] == ""
  {
    if text != "" {
      var front := SplitOn(text[..|text| - 1], '\n');
    }
  }

  lemma {:induction false} LoadedJoin(codec: Codec, a: seq<string>, b: seq<string>)
    ensures Loaded(codec, a + b) == Loaded(codec, a) + Loaded(codec, b)
  {
    if b == [] {
      assert a + b == a;
    } else {
      assert (a + b)[..|a + b| - 1] == a + b[..|b| - 1];
      LoadedJoin(codec, a, b[..|b| - 1]);
    }
  }

  /** What appending does to any store text, terminated or not: it completes the last line. */
  lemma AppendLoads(codec: Codec, text: string, e: Episode)
    requires Faithful(codec)
    ensures var ls := Lines(text); var n := |ls| - 1;
            var last := ParseLine(codec, ls[n] + codec.print_(e));
            Loaded(codec, Lines(text + codec.print_(e) + "\n")) ==
              Loaded(codec, ls[..n]) + if last.Some? then [last.value] else []
  {
    var ls := Lines(text);
    var n := |ls| - 1;
    var line := ls[n] + codec.print_(e);
    SplitAppend(text, codec.print_(e), '\n');
    SplitSeparator(text + codec.print_(e), '\n');
    LoadedJoin(codec, ls[..n] + [line], [""]);
    LoadedJoin(codec, ls[..n], [line]);
    assert (ls[..n] + [line])[..n] == ls[..n];
  }

  /** `add` on a terminated store appends exactly its episode, and leaves the store terminated. */
  lemma AddAppendsOne(codec: Codec, text: string, e: Episode)
    requires Faithful(codec) && Terminated(text)
    ensures Loaded(codec, Lines(text + codec.print_(e) + "\n")) == Loaded(codec, Lines(text)) + [e]
    ensures Terminated(text + codec.print_(e) + "\n")
  {
    AppendLoads(codec, text, e);
    TerminatedLines(text);
    var ls := Lines(text);
    assert ls == ls[..|ls| - 1] + [""];
    LoadedJoin(codec, ls[..|ls| - 1], [""]);
    assert "" + codec.print_(e) == codec.print_(e);
  }

  lemma RewrittenParses(codec: Codec, line: string, id: string, outcome: Verdict, evidence: Option<string>)
    requires Faithful(codec)
    ensures var e := ParseLine(codec, line);
            ParseLine(codec, Rewritten(codec, line, id, outcome, evidence)) ==
              if e.Some? then Some(Updated(e.value, id, outcome, evidence)) else None
    ensures '\n' !in line ==> '\n' !in Rewritten(codec, line, id, outcome, evidence)
    ensures Rewritten(codec, line, id, outcome, evidence) == "" <==> line == ""
  {
  }

  /** On the loaded episodes, `set_outcome` is a map over the matching ones. */
  lemma {:induction false} RewriteThenLoad(codec: Codec, lines: seq<string>, id: string, outcome: Verdict,
                                           evidence: Option<string>)
    requires Faithful(codec)
    ensures Loaded(codec, RewrittenAll(codec, lines, id, outcome, evidence)) ==
      UpdatedAll(Loaded(codec, lines), id, outcome, evidence)
  {
    if lines != [] {
      var n := |lines| - 1;
      RewriteThenLoad(codec, lines[..n], id, outcome, evidence);
      RewrittenParses(codec, lines[n], id, outcome, evidence);
      var front := Loaded(codec, lines[..n]);
      assert front + [] == front;
      if ParseLine(codec, lines[n]).Some? {
        var e := ParseLine(codec, lines[n]).value;
        assert (front + [e])[..|front|] == front;
      }
    }
  }

  /** The store text after `set_outcome`, when the incident is there. */
  function AfterSetOutcome(codec: Codec, text: string, id: string, outcome: Verdict, evidence: Option<string>): string {
    JoinLines(RewrittenAll(codec, Lines(text), id, outcome, evidence))
  }

  /** Line by line: same number of lines, every line of another incident, or of none, as read. */
  lemma SetOutcomeIsSurgical(codec: Codec, text: string, id: string, outcome: Verdict, evidence: Option<string>)
    requires Faithful(codec)
    ensures var before, after := Lines(text), Lines(AfterSetOutcome(codec, text, id, outcome, evidence));
            && after == RewrittenAll(codec, before, id, outcome, evidence)
            && (forall i :: 0 <= i < |before|
                  && !(exists e :: ParseLine(codec, before[i]) == Some(e) && e.incidentId == id)
                  ==> after[i] == before[i])
    ensures Terminated(text) ==> Terminated(AfterSetOutcome(codec, text, id, outcome, evidence))
    ensures Loaded(codec, Lines(AfterSetOutcome(codec, text, id, outcome, evidence))) ==
      UpdatedAll(Loaded(codec, Lines(text)), id, outcome, evidence)
  {
    var before := Lines(text);
    var after := RewrittenAll(codec, before, id, outcome, evidence);
    forall i | 0 <= i < |after|
      ensures '\n' !in after[i]
    {
      RewrittenParses(codec, before[i], id, outcome, evidence);
    }
    SplitOfJoin(after, '\n');
    RewriteThenLoad(codec, before, id, outcome, evidence);
    TerminatedLines(text);
    TerminatedLines(JoinLines(after));
    RewrittenParses(codec, before[|before| - 1], id, outcome, evidence);
  }

  /** Of two outcomes set for one incident the later one stays, as if it had been the only one. */
  lemma LastOutcomeWins(codec: Codec, text: string, id: string, o: Verdict, ev: Option<string>, o': Verdict,
                        ev': Option<string>)
    requires Faithful(codec)
    ensures AfterSetOutcome(codec, AfterSetOutcome(codec, text, id, o, ev), id, o', ev') ==
            AfterSetOutcome(codec, text, id, o', ev')
  {
    hide Lines, JoinLines, Loaded, UpdatedAll;
    SetOutcomeIsSurgical(codec, text, id, o, ev);
    var ls := Lines(text);
    var once := RewrittenAll(codec, ls, id, o, ev);
    forall i | 0 <= i < |ls|
      ensures Rewritten(codec, once[i], id, o', ev') == Rewritten(codec, ls[i], id, o', ev')
    {
      RewrittenParses(codec, ls[i], id, o, ev);
    }
    assert RewrittenAll(codec, once, id, o', ev') == RewrittenAll(codec, ls, id, o', ev');
  }

  lemma LineCommutes(codec: Codec, line: string, id: string, o: Verdict, ev: Option<string>,
                     id': string, o': Verdict, ev': Option<string>)
    requires Faithful(codec) && id != id'
    ensures Rewritten(codec, Rewritten(codec, line, id, o, ev), id', o', ev') ==
            Rewritten(codec, Rewritten(codec, line, id', o', ev'), id, o, ev)
  {
    RewrittenParses(codec, line, id, o, ev);
    RewrittenParses(codec, line, id', o', ev');
  }

  /** Outcomes of different incidents can be set in either order. */
  lemma SetOutcomeCommutes(codec: Codec, text: string, id: string, o: Verdict, ev: Option<string>,
                           id': string, o': Verdict, ev': Option<string>)
    requires Faithful(codec) && id != id'
    ensures AfterSetOutcome(codec, AfterSetOutcome(codec, text, id, o, ev), id', o', ev') ==
            AfterSetOutcome(codec, AfterSetOutcome(codec, text, id', o', ev'), id, o, ev)
  {
    hide Lines, JoinLines, Rewritten, Loaded, UpdatedAll;
    SetOutcomeIsSurgical(codec, text, id, o, ev);
    SetOutcomeIsSurgical(codec, text, id', o', ev');
    var ls := Lines(text);
    var a, b := RewrittenAll(codec, ls, id, o, ev), RewrittenAll(codec, ls, id', o', ev');
    forall i | 0 <= i < |ls|
      ensures Rewritten(codec, a[i], id', o', ev') == Rewritten(codec, b[i], id, o, ev)
    {
      LineCommutes(codec, ls[i], id, o, ev, id', o', ev');
    }
    assert RewrittenAll(codec, a, id', o', ev') == RewrittenAll(codec, b, id, o, ev);
  }

  /** After setting an outcome the incident's episode is found with that outcome. */
  lemma {:induction false} LatestAfter(codec: Codec, lines: seq<string>, id: string, outcome: Verdict,
                                       evidence: Option<string>)
    requires Faithful(codec)
    ensures var before := Latest(codec, lines, id);
            Latest(codec, RewrittenAll(codec, lines, id, outcome, evidence), id) ==
              if before.None? then None else Some(WithOutcome(before.value, outcome, evidence))
  {
    if lines != [] {
      var n := |lines| - 1;
      LatestAfter(codec, lines[..n], id, outcome, evidence);
      RewrittenParses(codec, lines[n], id, outcome, evidence);
    }
  }
}

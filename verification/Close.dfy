/** Closing an incident: three writes, any of which may be the last before a failure. */
module Close {
  import opened Prelude
  import opened Store
  import opened Runbooks
  import opened Text

  /** What `close` may change: the episode file, the staged drafts, the incident record. */
  datatype World = World(episodes: Option<string>, drafts: map<string, string>, record: Option<string>)

  /** The incident's checkpoint: none, not decided yet, or decided. */
  datatype Checkpoint = Missing | Waiting | Decided(decision: string, execute: bool)

  /** What `close` reads and does not change. */
  datatype Office = Office(
    codec: Codec, checkpoint: Checkpoint, library: seq<Runbook>,
    draftText: (Episode, string) -> string, check: Episode -> string)

  datatype Args = Args(incidentId: string, outcome: Verdict, evidence: Option<string>)

  datatype Ending = Refused | Crashed | Closed

  predicate Truthy(s: Option<string>) {
    s.Some? && s.value != ""
  }

  predicate Contains(text: string, sub: string) {
    sub <= text || (text != "" && Contains(text[1..], sub))
  }

  const OUTCOME_HEADING := "## Outcome"

  function VerdictText(v: Verdict): string {
    if v == Resolved then "resolved" else "unresolved"
  }

  function OutcomeBody(args: Args, check: string, closedAt: string): string {
    "\n\n- **Verdict:** **" + VerdictText(args.outcome) + "**\n- **Operator evidence:** "
    + (if Truthy(args.evidence) then args.evidence.value else "(none)")
    + "\n- **Suggested confirmation check:** `" + check + "`\n- **Closed at:** " + closedAt + "\n"
  }

  function OutcomeSection(args: Args, check: string, closedAt: string): string {
    "\n" + (OUTCOME_HEADING + OutcomeBody(args, check, closedAt))
  }

  function KeyMap(pairs: seq<(string, string)>): map<string, string> {
    if pairs == [] then map[]
    else KeyMap(pairs[..|pairs| - 1])[pairs[|pairs| - 1].0 := pairs[|pairs| - 1].1]
  }

  /** Of several values for a key the last one stays. */
  lemma {:induction false} LastValueStays(pairs: seq<(string, string)>, k: string, v: string)
    ensures k in KeyMap(pairs) && KeyMap(pairs)[k] == v
            <==> exists i :: 0 <= i < |pairs| && pairs[i] == (k, v) && forall j :: i < j < |pairs| ==> pairs[j].0 != k
  {
    if pairs != [] {
      var n := |pairs| - 1;
      var front := pairs[..n];
      LastValueStays(front, k, v);
      assert forall i :: 0 <= i < n ==> front[i] == pairs[i];
      if i :| 0 <= i < n && front[i] == (k, v) && forall j :: i < j < n ==> front[j].0 != k {
        assert pairs[i] == (k, v);
      }
    }
  }

  /** A committed runbook already covers the episode's signature. */
  predicate Covered(library: seq<Runbook>, e: Episode) {
    TopThree(SortedThrice(Candidates(library, e.procedure, EvidenceKeys([KeyMap(e.evidenceKeys)])))) != []
  }

  function DraftFilename(e: Episode): string {
    (if Truthy(e.procedure) then e.procedure.value else "none") + "-" + e.incidentId + ".md"
  }

  predicate Drafts(office: Office, args: Args, e: Episode) {
    args.outcome == Resolved && Truthy(e.action) && e.action != Some("observe_only") && !Covered(office.library, e)
  }

  function StoredText(w: World): string {
    if w.episodes.Some? then w.episodes.value else ""
  }

  function FoundEpisode(office: Office, w: World, id: string): Option<Episode> {
    Latest(office.codec, Lines(StoredText(w)), id)
  }

  /** All gates pass, and the store holds the incident. */
  predicate Accepts(office: Office, w: World, args: Args) {
    && office.checkpoint.Decided? && office.checkpoint.decision == "approve" && office.checkpoint.execute
    && w.record.Some? && !Contains(w.record.value, OUTCOME_HEADING)
    && w.episodes.Some? && FoundEpisode(office, w, args.incidentId).Some?
  }

  function ClosedEpisode(office: Office, w: World, args: Args): Episode
    requires Accepts(office, w, args)
  {
    WithOutcome(FoundEpisode(office, w, args.incidentId).value, args.outcome, args.evidence)
  }

  function WithEpisode(office: Office, w: World, args: Args): World {
    w.(episodes := Some(AfterSetOutcome(office.codec, StoredText(w), args.incidentId, args.outcome, args.evidence)))
  }

  function WithDraft(office: Office, w: World, e: Episode, today: string): World {
    w.(drafts := w.drafts[DraftFilename(e) := office.draftText(e, today)])
  }

  function WithRecord(office: Office, w: World, args: Args, e: Episode, now: string): World
    requires w.record.Some?
  {
    w.(record := Some(w.record.value + OutcomeSection(args, office.check(e), now)))
  }

  /** The states after each write of an uninterrupted close. */
  function Writes(office: Office, w: World, args: Args, now: string): (r: seq<World>)
    requires Accepts(office, w, args)
    ensures 2 <= |r| <= 3
  {
    var e := ClosedEpisode(office, w, args);
    var stored := WithEpisode(office, w, args);
    if Drafts(office, args, e) then
      var drafted := WithDraft(office, stored, e, now);
      [stored, drafted, WithRecord(office, drafted, args, e, now)]
    else [stored, WithRecord(office, stored, args, e, now)]
  }

  /** The state after the first `k` writes. */
  function After(office: Office, w: World, args: Args, now: string, k: nat): World
    requires Accepts(office, w, args)
  {
    var ws := Writes(office, w, args, now);
    if k == 0 then w else if k <= |ws| then ws[k - 1] else ws[|ws| - 1]
  }

  /** The text is somewhere in the other. */
  ghost predicate Mentions(text: string, sub: string) {
    exists i :: 0 <= i <= |text| && sub <= text[i..]
  }

  lemma {:induction false} ContainsIsMentions(text: string, sub: string)
    ensures Contains(text, sub) <==> Mentions(text, sub)
  {
    assert text[0..] == text;
    if text != "" {
      ContainsIsMentions(text[1..], sub);
      if i :| 0 <= i <= |text[1..]| && sub <= text[1..][i..] {
        assert text[i + 1..] == text[1..][i..];
      }
      if i :| 0 <= i <= |text| && sub <= text[i..] && i > 0 {
        assert text[1..][i - 1..] == text[i..];
      }
    }
  }

  /** An incident approved for execution, with a record that has no outcome yet, and with an episode in the store. */
  ghost predicate MayClose(office: Office, w: World, id: string) {
    && office.checkpoint == Decided("approve", true)
    && w.record.Some? && !Mentions(w.record.value, "## Outcome")
    && w.episodes.Some? && exists e :: e in Loaded(office.codec, Lines(w.episodes.value)) && e.incidentId == id
  }

  lemma {:induction false} LatestIsLoaded(codec: Codec, lines: seq<string>, id: string)
    ensures Latest(codec, lines, id).Some? <==> exists e :: e in Loaded(codec, lines) && e.incidentId == id
    ensures Latest(codec, lines, id).Some? ==>
      Latest(codec, lines, id).value in Loaded(codec, lines) && Latest(codec, lines, id).value.incidentId == id
  {
    if lines != [] {
      LatestIsLoaded(codec, lines[..|lines| - 1], id);
    }
  }

  lemma AcceptsByFields(office: Office, w: World, args: Args)
    ensures Accepts(office, w, args) <==> MayClose(office, w, args.incidentId)
  {
    hide Contains, Mentions, Latest, Lines, Loaded;
    if w.record.Some? {
      ContainsIsMentions(w.record.value, "## Outcome");
    }
    LatestIsLoaded(office.codec, Lines(StoredText(w)), args.incidentId);
  }

  /** A remediation that worked, did something, and is in no runbook with two points or more. */
  ghost predicate Due(office: Office, args: Args, e: Episode) {
    && args.outcome == Resolved && e.action != None && e.action != Some("") && e.action != Some("observe_only")
    && forall r :: r in office.library ==> Points(r, e.procedure, [KeyMap(e.evidenceKeys)]) < 2
  }

  lemma DraftsByFields(office: Office, args: Args, e: Episode)
    ensures Drafts(office, args, e) <==> Due(office, args, e)
  {
    hide Score, Points, Candidates, SortedThrice, TopThree, EvidenceKeys, KeyMap;
    var evidence := [KeyMap(e.evidenceKeys)];
    MatchesExist(office.library, e.procedure, EvidenceKeys(evidence));
    forall r
      ensures Score(r, e.procedure, EvidenceKeys(evidence)) == Points(r, e.procedure, evidence)
    {
      ScoreIsPoints(r, e.procedure, evidence);
    }
  }

  /** The lines of the outcome section. */
  function OutcomeLines(args: Args, check: string, now: string): seq<string> {
    var verdict := match args.outcome case Resolved => "resolved" case Unresolved => "unresolved";
    var evidence := match args.evidence case None => "(none)" case Some(text) => if text == "" then "(none)" else text;
    ["", "## Outcome", "", "- **Verdict:** **" + verdict + "**", "- **Operator evidence:** " + evidence,
     "- **Suggested confirmation check:** `" + check + "`", "- **Closed at:** " + now, ""]
  }

  lemma Eight(a: string, b: string, c: string, d: string, e: string, f: string, g: string, h: string, sep: string)
    ensures JoinWith([a, b, c, d, e, f, g, h], sep)
            == a + sep + b + sep + c + sep + d + sep + e + sep + f + sep + g + sep + h
  {
    hide JoinWith;
    JoinOneMore([], a, sep);
    JoinOneMore([a], b, sep);
    JoinOneMore([a, b], c, sep);
    JoinOneMore([a, b, c], d, sep);
    JoinOneMore([a, b, c, d], e, sep);
    JoinOneMore([a, b, c, d, e], f, sep);
    JoinOneMore([a, b, c, d, e, f], g, sep);
    JoinOneMore([a, b, c, d, e, f, g], h, sep);
    Lists(a, b, c, d, e, f, g, h);
  }

  lemma Lists<T>(a: T, b: T, c: T, d: T, e: T, f: T, g: T, h: T)
    ensures [] + [a] == [a] && [a] + [b] == [a, b] && [a, b] + [c] == [a, b, c] && [a, b, c] + [d] == [a, b, c, d]
    ensures [a, b, c, d] + [e] == [a, b, c, d, e] && [a, b, c, d, e] + [f] == [a, b, c, d, e, f]
    ensures [a, b, c, d, e, f] + [g] == [a, b, c, d, e, f, g]
    ensures [a, b, c, d, e, f, g] + [h] == [a, b, c, d, e, f, g, h]
  {
  }

  lemma Splice(p: string, s: string, nl: string, e: string, x: string, t: string)
    ensures p + s + nl + (e + x) == p + (s + nl + e) + x
    ensures p + nl + (e + x + t) == p + (nl + e) + x + t
    ensures p + nl + "" + nl + (e + x + t) == p + (nl + nl + e) + x + t
    ensures p + "" == p
  {
    assert p + nl + "" == p + nl;
  }

  lemma Push(p: string, a: string, b: string, c: string, d: string, e: string, f: string, g: string, h: string,
             i: string)
    ensures p + (a + b + c + d + e + f + g + h + i) == p + a + b + c + d + e + f + g + h + i
  {
    assert p + (a + b) == p + a + b;
    assert p + (a + b + c) == p + (a + b) + c;
    assert p + (a + b + c + d) == p + (a + b + c) + d;
    assert p + (a + b + c + d + e) == p + (a + b + c + d) + e;
    assert p + (a + b + c + d + e + f) == p + (a + b + c + d + e) + f;
    assert p + (a + b + c + d + e + f + g) == p + (a + b + c + d + e + f) + g;
    assert p + (a + b + c + d + e + f + g + h) == p + (a + b + c + d + e + f + g) + h;
  }

  lemma VerdictBreak()
    ensures "\n\n- **Verdict:** **" == "\n" + "\n" + "- **Verdict:** **"
  {
  }

  lemma EvidenceBreak()
    ensures "**\n- **Operator evidence:** " == "**" + "\n" + "- **Operator evidence:** "
  {
  }

  lemma CheckBreak()
    ensures "\n- **Suggested confirmation check:** `" == "\n" + "- **Suggested confirmation check:** `"
  {
  }

  lemma TimeBreak()
    ensures "`\n- **Closed at:** " == "`" + "\n" + "- **Closed at:** "
  {
  }

  lemma Grouped(a: string, b: string, c: string)
    ensures a + (b + c) == a + b + c
  {
  }

  /** The same text, as one section and as lines: `h` is the heading, and `v`, `e`, `c`, `n` come before the values. */
  lemma Regroups(h: string, v: string, verdict: string, bold: string, e: string, evidence: string, c: string,
                 check: string, tick: string, n: string, now: string, nl: string)
    ensures nl + (h + ((nl + nl + v) + verdict + (bold + nl + e) + evidence + (nl + c) + check + (tick + nl + n) + now
                       + nl))
            == "" + nl + h + nl + "" + nl + (v + verdict + bold) + nl + (e + evidence) + nl + (c + check + tick)
               + nl + (n + now) + nl + ""
  {
    var p := nl + h;
    Grouped(nl, h, (nl + nl + v) + verdict + (bold + nl + e) + evidence + (nl + c) + check + (tick + nl + n) + now
                   + nl);
    Push(p, nl + nl + v, verdict, bold + nl + e, evidence, nl + c, check, tick + nl + n, now, nl);
    assert "" + nl == nl;
    Splice(p, "", nl, v, verdict, bold);
    var q := p + (nl + nl + v) + verdict;
    Splice(q, bold, nl, e, evidence, "");
    var r := q + (bold + nl + e) + evidence;
    Splice(r, "", nl, c, check, tick);
    var s := r + (nl + c) + check;
    Splice(s, tick, nl, n, now, "");
    Splice(s + (tick + nl + n) + now + nl, "", "", "", "", "");
  }

  /** The outcome section is its lines, a heading first. */
  lemma SectionIsLines(args: Args, check: string, now: string)
    ensures OutcomeSection(args, check, now) == JoinWith(OutcomeLines(args, check, now), "\n")
  {
    var verdict := VerdictText(args.outcome);
    var evidence := if Truthy(args.evidence) then args.evidence.value else "(none)";
    Eight("", "## Outcome", "", "- **Verdict:** **" + verdict + "**", "- **Operator evidence:** " + evidence,
          "- **Suggested confirmation check:** `" + check + "`", "- **Closed at:** " + now, "", "\n");
    VerdictBreak();
    EvidenceBreak();
    CheckBreak();
    TimeBreak();
    Regroups("## Outcome", "- **Verdict:** **", verdict, "**", "- **Operator evidence:** ", evidence,
             "- **Suggested confirmation check:** `", check, "`", "- **Closed at:** ", now, "\n");
  }

  /** The records and drafts that closing an episode of the store leaves. */
  ghost predicate Leaves(office: Office, w: World, args: Args, now: string, end: World, was: Episode, e: Episode) {
    && w.episodes.Some? && was in Loaded(office.codec, Lines(w.episodes.value)) && was.incidentId == args.incidentId
    && Closes(was, e, args.outcome, args.evidence)
    && w.record.Some?
    && end.record == Some(w.record.value + JoinWith(OutcomeLines(args, office.check(e), now), "\n"))
    && end.drafts == if Due(office, args, e) then w.drafts[NameOf(e) := office.draftText(e, now)] else w.drafts
  }

  ghost predicate LeavesSome(office: Office, w: World, args: Args, now: string, end: World) {
    exists was, e :: Leaves(office, w, args, now, end, was, e)
  }

  function NameOf(e: Episode): string {
    match e.procedure
    case None => "none" + "-" + e.incidentId + ".md"
    case Some(procedure) => (if procedure == "" then "none" else procedure) + "-" + e.incidentId + ".md"
  }

  lemma OutcomeCloses(e: Episode, outcome: Verdict, evidence: Option<string>)
    ensures Closes(e, WithOutcome(e, outcome, evidence), outcome, evidence)
  {
  }

  lemma NameIsFilename(e: Episode)
    ensures NameOf(e) == DraftFilename(e)
  {
  }

  /** The last of the writes leaves the episode's outcome, its section and its draft. */
  lemma EndLeaves(office: Office, w: World, args: Args, now: string)
    requires Accepts(office, w, args)
    ensures var ws := Writes(office, w, args, now); LeavesSome(office, w, args, now, ws[|ws| - 1])
  {
    hide AfterSetOutcome, Latest, Lines, Loaded, Covered, Contains, OutcomeSection, OutcomeLines, DraftFilename, NameOf,
      Due, Drafts, JoinWith, WithOutcome, Closes;
    var was := FoundEpisode(office, w, args.incidentId).value;
    var e := ClosedEpisode(office, w, args);
    LatestIsLoaded(office.codec, Lines(StoredText(w)), args.incidentId);
    OutcomeCloses(was, args.outcome, args.evidence);
    DraftsByFields(office, args, e);
    NameIsFilename(e);
    SectionIsLines(args, office.check(e), now);
    EndOf(office, w, args, now);
    var ws := Writes(office, w, args, now);
    assert Leaves(office, w, args, now, ws[|ws| - 1], was, e);
  }

  class Desk {
    const office: Office
    const store: EpisodeStore
    var drafts: map<string, string>
    var record: Option<string>

    constructor (office: Office, w: World)
      ensures this.office == office && Now() == w && store.codec == office.codec && fresh(store)
    {
      this.office := office;
      store := new EpisodeStore(office.codec, w.episodes);
      drafts, record := w.drafts, w.record;
    }

    function Now(): World
      reads this, store
    {
      World(store.file, drafts, record)
    }

    /** `close` with room for `budget` writes before the machine stops. */
    method CloseIncident(args: Args, now: string, budget: nat) returns (end: Ending)
      requires store.codec == office.codec
      modifies this, store
      ensures end == Refused <==> !MayClose(office, old(Now()), args.incidentId)
      ensures end == Closed ==> LeavesSome(office, old(Now()), args, now, Now())
      ensures if !Accepts(office, old(Now()), args) then end == Refused && Now() == old(Now())
              else
                && Now() == After(office, old(Now()), args, now, budget)
                && end == if budget < |Writes(office, old(Now()), args, now)| then Crashed else Closed
    {
      hide AfterSetOutcome, Lines, Latest, Covered, OutcomeSection, Contains, DraftFilename, RewrittenAll, JoinLines,
        MayClose, LeavesSome, Closes;
      ghost var accepted := Accepts(office, Now(), args);
      AcceptsByFields(office, Now(), args);
      if accepted {
        EndLeaves(office, Now(), args, now);
      }
      var left := budget;
      if !(office.checkpoint.Decided? && office.checkpoint.decision == "approve" && office.checkpoint.execute) {
        return Refused;
      }
      if record.None? || Contains(record.value, OUTCOME_HEADING) {
        return Refused;
      }
      ghost var w := Now();
      var found := store.file.Some? && Latest(store.codec, Lines(store.file.value), args.incidentId).Some?;
      if left == 0 && found {
        return Crashed;
      }
      var r := store.SetOutcome(args.incidentId, args.outcome, args.evidence);
      RewriteIs(office.codec, StoredText(w), args);
      if r.Raised? {
        return Refused;
      }
      left := left - 1;
      var e := r.value;
      var check := office.check(e);
      if Drafts(office, args, e) {
        if left == 0 {
          return Crashed;
        }
        drafts := drafts[DraftFilename(e) := office.draftText(e, now)];
        left := left - 1;
      }
      if left == 0 {
        return Crashed;
      }
      record := Some(record.value + OutcomeSection(args, check, now));
      end := Closed;
    }
  }

  lemma RewriteIs(codec: Codec, text: string, args: Args)
    ensures JoinLines(RewrittenAll(codec, Lines(text), args.incidentId, args.outcome, args.evidence)) ==
      AfterSetOutcome(codec, text, args.incidentId, args.outcome, args.evidence)
  {
  }

  lemma {:induction false} ContainsAppend(text: string, more: string, sub: string)
    requires Contains(more, sub)
    ensures Contains(text + more, sub)
  {
    if text == "" {
      assert text + more == more;
    } else {
      ContainsAppend(text[1..], more, sub);
      assert (text + more)[1..] == text[1..] + more;
    }
  }

  lemma StartsWith(sub: string, rest: string)
    ensures Contains(sub + rest, sub)
  {
    assert sub <= sub + rest;
  }

  lemma SectionHasHeading(args: Args, check: string, now: string)
    ensures Contains(OutcomeSection(args, check, now), OUTCOME_HEADING)
  {
    hide Contains, OutcomeBody;
    StartsWith(OUTCOME_HEADING, OutcomeBody(args, check, now));
    ContainsAppend("\n", OUTCOME_HEADING + OutcomeBody(args, check, now), OUTCOME_HEADING);
  }

  /** The episode that closing finds in a store already closed the same way is the closed one. */
  lemma FoundAfterSet(office: Office, w: World, args: Args, args': Args)
    requires Faithful(office.codec) && Accepts(office, w, args) && args'.incidentId == args.incidentId
    ensures var w1 := WithEpisode(office, w, args);
            Accepts(office, w1, args') && ClosedEpisode(office, w1, args') == ClosedEpisode(office, w, args')
            && WithEpisode(office, w1, args') == WithEpisode(office, w, args')
  {
    var text := StoredText(w);
    hide Contains, Lines, JoinLines, RewrittenAll, Latest;
    SetOutcomeIsSurgical(office.codec, text, args.incidentId, args.outcome, args.evidence);
    LatestAfter(office.codec, Lines(text), args.incidentId, args.outcome, args.evidence);
    LastOutcomeWins(office.codec, text, args.incidentId, args.outcome, args.evidence, args'.outcome, args'.evidence);
  }

  /** What is staged under drafts does not matter to the gates or to the other writes. */
  lemma DraftsDoNotMatter(office: Office, w: World, args: Args, drafts: map<string, string>)
    requires Accepts(office, w, args)
    ensures var v := w.(drafts := drafts);
            Accepts(office, v, args) && ClosedEpisode(office, v, args) == ClosedEpisode(office, w, args)
            && WithEpisode(office, v, args) == WithEpisode(office, w, args).(drafts := drafts)
  {
  }

  /** The end of a close, piece by piece. */
  lemma EndOf(office: Office, w: World, args: Args, now: string)
    requires Accepts(office, w, args)
    ensures var ws := Writes(office, w, args, now); var e := ClosedEpisode(office, w, args);
            ws[|ws| - 1] == World(
              WithEpisode(office, w, args).episodes,
              if Drafts(office, args, e) then w.drafts[DraftFilename(e) := office.draftText(e, now)] else w.drafts,
              Some(w.record.value + OutcomeSection(args, office.check(e), now)))
  {
    hide AfterSetOutcome, Contains, Latest, Lines, Covered, OutcomeSection, DraftFilename;
  }

  /**
   * Retrying: a close stopped anywhere before its record write is accepted again with the
   * same arguments, and ends in the state that an uninterrupted close at the later time
   * would have reached.
   */
  lemma CrashRetry(office: Office, w: World, args: Args, before: string, later: string, k: nat)
    requires Faithful(office.codec) && Accepts(office, w, args) && k < |Writes(office, w, args, before)|
    ensures var stopped := After(office, w, args, before, k);
            Accepts(office, stopped, args)
            && var ws := Writes(office, stopped, args, later); var vs := Writes(office, w, args, later);
               |ws| == |vs| && ws[|ws| - 1] == vs[|vs| - 1]
  {
    hide AfterSetOutcome, Contains, Latest, Lines, Covered, OutcomeSection, DraftFilename, FoundEpisode;
    if k > 0 {
      FoundAfterSet(office, w, args, args);
      var w1 := WithEpisode(office, w, args);
      var e := ClosedEpisode(office, w, args);
      var stopped := After(office, w, args, before, k);
      DraftsDoNotMatter(office, w1, args, stopped.drafts);
      assert stopped == w1.(drafts := stopped.drafts);
      EndOf(office, stopped, args, later);
      EndOf(office, w, args, later);
    }
  }

  /** Retrying with another verdict: store and record end as if the first attempt had not been. */
  lemma CrashRetryOtherVerdict(office: Office, w: World, args: Args, args': Args, before: string, later: string, k: nat)
    requires Faithful(office.codec) && Accepts(office, w, args) && k < |Writes(office, w, args, before)|
    requires args'.incidentId == args.incidentId
    ensures var stopped := After(office, w, args, before, k);
            Accepts(office, w, args') && Accepts(office, stopped, args')
            && var ws := Writes(office, stopped, args', later); var vs := Writes(office, w, args', later);
               ws[|ws| - 1].episodes == vs[|vs| - 1].episodes && ws[|ws| - 1].record == vs[|vs| - 1].record
  {
    hide AfterSetOutcome, Contains, Latest, Lines, Covered, OutcomeSection, DraftFilename;
    if k > 0 {
      FoundAfterSet(office, w, args, args');
      var w1 := WithEpisode(office, w, args);
      var stopped := After(office, w, args, before, k);
      DraftsDoNotMatter(office, w1, args', stopped.drafts);
      assert stopped == w1.(drafts := stopped.drafts);
      EndOf(office, stopped, args', later);
      EndOf(office, w, args', later);
    }
  }

  /**
   * Retrying with another verdict: the drafts end as without the first attempt exactly when that
   * attempt staged none, or the retry stages its own over it, or the same text was there before.
   */
  lemma CrashRetryDrafts(office: Office, w: World, args: Args, args': Args, before: string, later: string, k: nat)
    requires Faithful(office.codec) && Accepts(office, w, args) && k < |Writes(office, w, args, before)|
    requires args'.incidentId == args.incidentId
    ensures var stopped := After(office, w, args, before, k);
            var e, e' := ClosedEpisode(office, w, args), ClosedEpisode(office, w, args');
            && Accepts(office, w, args') && Accepts(office, stopped, args')
            && var ws := Writes(office, stopped, args', later); var vs := Writes(office, w, args', later);
               (ws[|ws| - 1].drafts == vs[|vs| - 1].drafts
                <==> k < 2 || Drafts(office, args', e')
                     || (DraftFilename(e) in w.drafts && w.drafts[DraftFilename(e)] == office.draftText(e, before)))
  {
    hide AfterSetOutcome, Contains, Latest, Lines, Covered, OutcomeSection;
    if k > 0 {
      FoundAfterSet(office, w, args, args');
      var w1 := WithEpisode(office, w, args);
      var stopped := After(office, w, args, before, k);
      DraftsDoNotMatter(office, w1, args', stopped.drafts);
      assert stopped == w1.(drafts := stopped.drafts);
      EndOf(office, stopped, args', later);
      EndOf(office, w, args', later);
      var e := ClosedEpisode(office, w, args);
      assert k == 2 ==> stopped.drafts == w.drafts[DraftFilename(e) := office.draftText(e, before)];
    }
  }

  lemma LinesOfOne(line: string)
    requires '\n' !in line
    ensures Lines(line + "\n") == [line, ""]
  {
    hide SplitOn;
    SplitEmpty('\n');
    SplitAppend("", line, '\n');
    assert "" + line == line;
    SplitSeparator(line, '\n');
  }

  lemma LatestOfOne(codec: Codec, line: string, id: string)
    requires ParseLine(codec, line).Some? && ParseLine(codec, line).value.incidentId == id
    ensures Latest(codec, [line, ""], id) == ParseLine(codec, line)
  {
    assert [line, ""][..1] == [line];
  }

  lemma OneLine(codec: Codec, e: Episode)
    requires Faithful(codec)
    ensures Latest(codec, Lines(codec.print_(e) + "\n"), e.incidentId) == Some(e)
  {
    hide Lines, Latest;
    LinesOfOne(codec.print_(e));
    LatestOfOne(codec, codec.print_(e), e.incidentId);
  }

  /** An episode of an executed restart of a network function. */
  function ExecutedRestart(): Episode {
    Episode("i1", None, None, [], [], Some("restart_nf"), Some(map["nf" := "smf"]), "", None, ApprovedExecuted, None,
            None, 0)
  }

  /**
   * A draft staged for a `resolved` that stopped before the record stays after the incident is
   * closed as `unresolved`.
   */
  lemma StaleDraftStays(codec: Codec, draftText: (Episode, string) -> string, check: Episode -> string)
    requires Faithful(codec)
    ensures var e := ExecutedRestart();
            var office := Office(codec, Decided("approve", true), [], draftText, check);
            var w := World(Some(codec.print_(e) + "\n"), map[], Some(""));
            var args, args' := Args("i1", Resolved, None), Args("i1", Unresolved, None);
            && Accepts(office, w, args) && |Writes(office, w, args, "")| == 3 && Accepts(office, w, args')
            && var stopped := After(office, w, args, "", 2);
               Accepts(office, stopped, args')
               && var ws := Writes(office, stopped, args', ""); var vs := Writes(office, w, args', "");
                  ws[|ws| - 1].drafts != vs[|vs| - 1].drafts
  {
    var e := ExecutedRestart();
    var office := Office(codec, Decided("approve", true), [], draftText, check);
    var w := World(Some(codec.print_(e) + "\n"), map[], Some(""));
    var args, args' := Args("i1", Resolved, None), Args("i1", Unresolved, None);
    hide Latest, Lines, AfterSetOutcome, Covered, OutcomeSection, DraftFilename;
    OneLine(codec, e);
    NothingCovered(WithOutcome(e, Resolved, None));
    assert Accepts(office, w, args);
    CrashRetryDrafts(office, w, args, args', "", "", 2);
  }

  lemma NothingCovered(e: Episode)
    ensures !Covered([], e)
  {
    MatchesExist([], e.procedure, EvidenceKeys([KeyMap(e.evidenceKeys)]));
  }

  /** After the record write every further close is refused. */
  lemma ClosedStaysClosed(office: Office, w: World, args: Args, now: string, args': Args)
    requires Accepts(office, w, args)
    ensures var ws := Writes(office, w, args, now); !Accepts(office, ws[|ws| - 1], args')
  {
    hide AfterSetOutcome, Latest, Lines, Covered, Contains, OutcomeSection;
    EndOf(office, w, args, now);
    var e := ClosedEpisode(office, w, args);
    SectionHasHeading(args, office.check(e), now);
    ContainsAppend(w.record.value, OutcomeSection(args, office.check(e), now), OUTCOME_HEADING);
  }

  /** A whole story: a close that stops after `k` writes, then the same close again. */
  method CloseTwice(office: Office, w: World, args: Args, before: string, later: string, k: nat) returns (end: World)
    requires Faithful(office.codec) && Accepts(office, w, args) && k < |Writes(office, w, args, before)|
    ensures var vs := Writes(office, w, args, later); end == vs[|vs| - 1]
  {
    hide AfterSetOutcome, Latest, Lines, Covered, Contains, OutcomeSection, DraftFilename, Accepts, Writes, MayClose,
      LeavesSome;
    var desk := new Desk(office, w);
    CrashRetry(office, w, args, before, later, k);
    var first := desk.CloseIncident(args, before, k);
    var second := desk.CloseIncident(args, later, 3);
    end := desk.Now();
  }
}

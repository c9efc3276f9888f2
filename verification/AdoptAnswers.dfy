/** What `Adopt` answers, said of the file and the job alone: which lines invoke the job, which schedule each of them
    serves, and what is left over on either side. */
module AdoptAnswers {
  import opened Wrappers
  import opened Sequences
  import opened Text
  import opened NormalizedManifests
  import opened OwnerLine
  import opened CrontabLines
  import opened Cron
  import opened Commands
  import opened Crontab
  import opened Matching
  import opened Adoption
  import AdoptedFiles

  // ---- The lines that invoke a job ----------------------------------------------------------------

  /** Line i runs the trigger for the job on a schedule, and no owner line follows it. */
  ghost predicate InvokesAt(cfg: Config, lines: seq<string>, app: string, job: string, i: nat, cron: string) {
    && i < |lines| && !(i + 1 < |lines| && IsMarker(lines[i + 1]))
    && Runs(lines[i], cron, cfg.triggerBin + " trigger " + app + "." + job)
  }

  /** All of them, from the top of the file, with the five fields of each. */
  ghost predicate InvokedAt(
    cfg: Config, lines: seq<string>, app: string, job: string, places: seq<nat>, crons: seq<string>)
  {
    && |places| == |crons|
    && (forall c :: 0 <= c < |places| ==> InvokesAt(cfg, lines, app, job, places[c], crons[c]))
    && (forall c, d :: 0 <= c < d < |places| ==> places[c] < places[d])
    && (forall i: nat, cron :: InvokesAt(cfg, lines, app, job, i, cron) ==> i in places)
  }

  lemma SpreadStarts(s: string, words: seq<string>, rest: string)
    requires Spread(s, words, rest) && words != [] && rest != "" && !IsSpace(rest[0])
    ensures words[0] != "" && TrimLeft(s) != "" && TrimLeft(s)[0] == words[0][0]
    ensures exists gap :: Spaces(gap) && s == gap + TrimLeft(s)
  {
    hide TrimLeft, Spread;
    var gap, more := SpreadSome(s, words, rest);
    var t := words[0] + more;
    ConcatAssociative(gap, words[0], more);
    assert t[0] == words[0][0];
    TrimLeftSpaces(gap, t);
  }

  lemma TrimRightNone(s: string)
    requires s != "" && !IsSpace(s[|s| - 1])
    ensures TrimRight(s) == s
  {}

  lemma TrimmedLine(gap: string, stripped: string, trail: string)
    requires Spaces(gap) && Spaces(trail) && stripped != "" && Trimmed(stripped)
    ensures TrimSpace(gap + stripped + trail) == stripped
  {
    hide IsSpace, TrimLeft, TrimRight;
    ConcatAssociative(gap, stripped, trail);
    TrimLeftSpaces(gap, stripped + trail);
    TrimRightSpaces(stripped, trail);
  }

  lemma SixFields(gap: string, stripped: string, words: seq<string>, tail: string)
    requires Spaces(gap) && |words| == 5 && Fields(tail) != []
    requires Fields(gap + stripped) == words + Fields(tail)
    requires stripped != "" && !IsSpace(stripped[0])
    ensures Fields(stripped) == words + Fields(tail)
    ensures stripped[FieldsEnd(stripped, 5)..] == (gap + stripped)[FieldsEnd(gap + stripped, 5)..]
  {
    hide Fields, FieldsEnd, IsSpace, WordLength;
    FieldsBasics(stripped);
    FirstField(stripped);
    LeadingSpaces(gap, stripped, 1);
    LeadingSpaces(gap, stripped, 5);
  }

  lemma FirstField(s: string)
    requires s != "" && !IsSpace(s[0])
    ensures Fields(s) != []
  {}

  lemma SplitIs(stripped: string, words: seq<string>, tail: string)
    requires |words| == 5 && Fields(tail) != [] && Fields(stripped) == words + Fields(tail)
    requires TrimLeft(stripped[FieldsEnd(stripped, 5)..]) == tail && tail != "" && Trimmed(tail)
    ensures SplitCommand(stripped) == Some(Command(Join(words, ' '), tail))
  {
    hide Fields, FieldsEnd, IsSpace, Join, TrimLeft, TrimRight;
    TrimRightNone(tail);
    assert (words + Fields(tail))[..5] == words;
  }

  lemma RunsInvokes(line: string, tail: string, words: seq<string>, body: string, trail: string)
    requires tail != "" && Trimmed(tail) && RunsWith(line, words, body, trail, tail)
    ensures Invokes(line, tail) == Some(Join(words, ' '))
  {
    hide Fields, FieldsEnd, TrimLeft, TrimRight, Spread, IsSpace, Join, SplitCommand, TrimSpace;
    SpreadFields(body, words, tail);
    SpreadStarts(body, words, tail);
    var stripped := TrimLeft(body);
    TrimLeftShape(body);
    var gap :| Spaces(gap) && body == gap + stripped;
    assert stripped[|stripped| - 1] == body[|body| - 1] == body[|body| - |tail|..][|tail| - 1];
    TrimmedLine(gap, stripped, trail);
    SixFields(gap, stripped, words, tail);
    SplitIs(stripped, words, tail);
  }

  lemma InvokesRuns(line: string, tail: string, cron: string)
    requires Invokes(line, tail) == Some(cron)
    ensures Runs(line, cron, tail)
  {
    hide Fields, FieldsEnd, TrimLeft, TrimRight, Spread, IsSpace, Join;
    var stripped := TrimSpace(line);
    var gap, trail := LineParts(line);
    TrimSpaceTrims(line);
    FieldsAreWords(stripped);
    FieldsSpread(stripped, 5);
    var rest := stripped[FieldsEnd(stripped, 5)..];
    RestEnds(stripped);
    var words := Fields(stripped)[..5];
    SpreadAfter(gap, stripped, words, tail);
    SpreadStarts(stripped, words, tail);
    TrimLeftNone(stripped);
    assert RunsWith(line, words, gap + stripped, trail, tail);
  }

  lemma TrimLeftNone(s: string)
    requires s != "" && !IsSpace(s[0])
    ensures TrimLeft(s) == s
  {}

  lemma LineParts(line: string) returns (gap: string, trail: string)
    ensures Spaces(gap) && Spaces(trail) && line == gap + TrimSpace(line) + trail
  {
    hide IsSpace, TrimLeft, TrimRight;
    TrimLeftShape(line);
    var left := TrimLeft(line);
    TrimRightShape(left);
    var n := |TrimRight(left)|;
    gap, trail := line[..|line| - |left|], left[n..];
    assert left == left[..n] + trail;
    assert line == gap + left;
    ConcatAssociative(gap, TrimRight(left), trail);
  }

  /** What follows the fifth field of a trimmed text, trimmed. */
  lemma RestEnds(s: string)
    requires s != "" && Trimmed(s) && |Fields(s)| >= 6
    ensures var rest := s[FieldsEnd(s, 5)..];
            TrimSpace(rest) == TrimLeft(rest) && rest != "" && TrimSpace(rest) != "" && Trimmed(TrimSpace(rest))
  {
    hide Fields, FieldsEnd, TrimLeft, TrimRight, IsSpace, WordLength;
    var rest := s[FieldsEnd(s, 5)..];
    FieldsEndStep(s, 5);
    FieldsBasics(rest);
    TrimLeftShape(rest);
    assert rest[|rest| - 1] == s[|s| - 1];
    var left := TrimLeft(rest);
    assert left != "";
    assert left[|left| - 1] == rest[|rest| - 1];
    TrimRightNone(left);
  }

  /** The scan takes exactly the lines of that grammar. */
  lemma InvokesExactly(line: string, tail: string, cron: string)
    ensures Invokes(line, tail) == Some(cron) <==> Runs(line, cron, tail)
  {
    hide Invokes;
    if Runs(line, cron, tail) {
      var words, body, trail :| RunsWith(line, words, body, trail, tail) && cron == Join(words, ' ');
      RunsInvokes(line, tail, words, body, trail);
    }
    if Invokes(line, tail) == Some(cron) {
      InvokesRuns(line, tail, cron);
    }
  }

  // ---- What is answered ---------------------------------------------------------------------------

  /** The first schedule without a five-field form. */
  predicate FirstBad(schedules: seq<string>, k: nat) {
    && k < |schedules| && Translate(schedules[k]).None?
    && forall i :: 0 <= i < k ==> Translate(schedules[i]).Some?
  }

  predicate WantedAre(schedules: seq<string>, wanted: seq<string>) {
    |wanted| == |schedules| && forall w :: 0 <= w < |wanted| ==> Translate(schedules[w]) == Some(wanted[w])
  }

  /** An owner line of the job that has a line above it. */
  predicate OwnsAt(lines: seq<string>, app: string, job: string, i: nat) {
    0 < i < |lines| && var o := MatchOwner(lines[i]); o.Some? && o.value.app == app && o.value.job == job
  }

  function OwnedUpTo(lines: seq<string>, app: string, job: string, n: nat): set<int> {
    set i | 0 <= i < n && OwnsAt(lines, app, job, i)
  }

  function OwnerLines(lines: seq<string>, app: string, job: string): nat {
    |OwnedUpTo(lines, app, job, |lines|)|
  }

  /** The first schedules of a text take the lines of that text in their order; this one comes too late. */
  predicate Missing(wanted: seq<string>, crons: seq<string>, w: nat) {
    w < |wanted| && CountBefore(wanted, wanted[w], w) >= multiset(crons)[wanted[w]]
  }

  /** As many lines of its text stand above this one as the job has schedules of that text. */
  predicate Extra(wanted: seq<string>, crons: seq<string>, c: nat) {
    c < |crons| && CountBefore(crons, crons[c], c) >= multiset(wanted)[crons[c]]
  }

  predicate Ascending(s: seq<nat>) { forall i, j :: 0 <= i < j < |s| ==> s[i] < s[j] }

  /** The report names every missing schedule and then every extra line, by its number in the file, and nothing else. */
  ghost predicate Reports(
    report: seq<Divergence>, wanted: seq<string>, places: seq<nat>, crons: seq<string>, missing: seq<nat>,
    extra: seq<nat>)
    requires |places| == |crons|
  {
    && Ascending(missing) && (forall w: nat :: w in missing <==> Missing(wanted, crons, w))
    && Ascending(extra) && (forall c: nat :: c in extra <==> Extra(wanted, crons, c))
    && |report| == |missing| + |extra|
    && (forall i :: 0 <= i < |missing| ==> report[i] == NoCandidate(missing[i]))
    && (forall i :: 0 <= i < |extra| ==>
         extra[i] < |places| && report[|missing| + i] == ExtraLine(places[extra[i]] + 1))
  }

  /** Schedule w is served by the c-th invoking line: same text, and as many of that text before either. */
  predicate Serves(wanted: seq<string>, crons: seq<string>, w: nat, c: nat) {
    && w < |wanted| && c < |crons| && crons[c] == wanted[w]
    && CountBefore(crons, wanted[w], c) == CountBefore(wanted, wanted[w], w)
  }

  /** One entry for each schedule, with its hash, and as raw text the line that serves it. */
  ghost predicate EntriesAre(
    cfg: Config, lines: seq<string>, app: string, job: NormalizedJob, wanted: seq<string>, places: seq<nat>,
    crons: seq<string>, entries: seq<ManagedEntry>)
    requires |places| == |crons| && forall c :: 0 <= c < |places| ==> places[c] < |lines|
  {
    && |entries| == |wanted|
    && forall w :: 0 <= w < |wanted| ==>
         exists c :: 0 <= c < |crons| && Serves(wanted, crons, w, c) &&
           entries[w] == ManagedEntry(app, job.name, cfg.hash(job, w), w, lines[places[c]])
  }

  ghost predicate AnswersWith(
    cfg: Config, lines: seq<string>, app: string, job: NormalizedJob, dryRun: bool, r: AdoptResult,
    wanted: seq<string>, places: seq<nat>, crons: seq<string>)
  {
    var managed := crons == [] && OwnerLines(lines, app, job.name) == |job.schedules|;
    var all := multiset(wanted) == multiset(crons);
    && WantedAre(job.schedules, wanted) && InvokedAt(cfg, lines, app, job.name, places, crons)
    && r.alreadyManaged == managed
    && r.found == (!managed && (all || crons != []))
    && r.adopted == (!managed && all && !dryRun)
    && r.diverged == (!managed && !all)
    && (if r.diverged then exists missing, extra :: Reports(r.divergences, wanted, places, crons, missing, extra)
        else r.divergences == [])
    && (if !managed && all then EntriesAre(cfg, lines, app, job, wanted, places, crons, r.entries) else r.entries == [])
  }

  /** All of an answer. */
  ghost predicate Answers(
    cfg: Config, lines: seq<string>, app: string, job: NormalizedJob, dryRun: bool, r: AdoptResult)
  {
    && (forall k: nat :: FirstBad(job.schedules, k) ==>
         r == AdoptResult(false, false, false, true, [Untranslatable(k)], []))
    && (Translates(job.schedules) ==>
         exists wanted, places, crons :: AnswersWith(cfg, lines, app, job, dryRun, r, wanted, places, crons))
  }

  // ---- Why ----------------------------------------------------------------------------------------

  lemma CandidateExactly(cfg: Config, lines: seq<string>, app: string, job: string, i: nat, cron: string)
    requires i < |lines|
    ensures CandidateAt(lines, i, ExpectedTail(cfg.triggerBin, app, job)) == Some(cron) <==>
            InvokesAt(cfg, lines, app, job, i, cron)
  {
    hide Runs, Invokes, IsMarker;
    InvokesExactly(lines[i], ExpectedTail(cfg.triggerBin, app, job), cron);
  }

  function Places(cands: seq<Candidate>): (places: seq<nat>)
    ensures |places| == |cands| && forall c :: 0 <= c < |cands| ==> places[c] == cands[c].line
  {
    seq(|cands|, c requires 0 <= c < |cands| => cands[c].line)
  }

  lemma CandidatesAreInvoked(cfg: Config, lines: seq<string>, app: string, job: string)
    ensures var cands := Candidates(lines, ExpectedTail(cfg.triggerBin, app, job));
            InvokedAt(cfg, lines, app, job, Places(cands), Crons(cands))
  {
    hide InvokesAt, CandidateAt, CandidatesUpTo, ExpectedTail;
    var tail := ExpectedTail(cfg.triggerBin, app, job);
    var cands := Candidates(lines, tail);
    forall c | 0 <= c < |cands| ensures InvokesAt(cfg, lines, app, job, Places(cands)[c], Crons(cands)[c]) {
      CandidateExactly(cfg, lines, app, job, cands[c].line, cands[c].cron);
    }
    forall i: nat, cron | InvokesAt(cfg, lines, app, job, i, cron) ensures i in Places(cands) {
      InvokesInFile(cfg, lines, app, job, i, cron);
      CandidateExactly(cfg, lines, app, job, i, cron);
      var c := AdoptedFiles.CandidatesComplete(lines, tail, |lines|, i);
      assert Places(cands)[c] == i;
    }
  }

  lemma InvokesInFile(cfg: Config, lines: seq<string>, app: string, job: string, i: nat, cron: string)
    requires InvokesAt(cfg, lines, app, job, i, cron)
    ensures i < |lines|
  {}

  lemma CountStepped(lines: seq<string>, app: string, job: string, n: nat)
    requires 0 < n <= |lines|
    ensures ManagedCount(ListUpTo(lines, n), app, job) ==
            ManagedCount(ListUpTo(lines, n - 1), app, job) + if OwnsAt(lines, app, job, n - 1) then 1 else 0
  {
    hide MatchOwner;
    var o := MatchOwner(lines[n - 1]);
    if o.Some? && n > 1 {
      AppendFront(ListUpTo(lines, n - 1),
                  ManagedEntry(o.value.app, o.value.job, o.value.hash, o.value.idx, lines[n - 2]));
    } else {
      ConcatEmpty(ListUpTo(lines, n - 1));
    }
  }

  lemma NoneOwned(lines: seq<string>, app: string, job: string)
    ensures ManagedCount(ListUpTo(lines, 0), app, job) == 0
  {}

  lemma OwnedNext(lines: seq<string>, app: string, job: string, n: nat)
    ensures |OwnedUpTo(lines, app, job, n + 1)| ==
            |OwnedUpTo(lines, app, job, n)| + if OwnsAt(lines, app, job, n) then 1 else 0
  {
    hide OwnsAt;
    var before := OwnedUpTo(lines, app, job, n);
    assert OwnedUpTo(lines, app, job, n + 1) == if OwnsAt(lines, app, job, n) then before + {n} else before;
  }

  lemma {:induction false} CountOwned(lines: seq<string>, app: string, job: string, n: nat)
    requires n <= |lines|
    ensures ManagedCount(ListUpTo(lines, n), app, job) == |OwnedUpTo(lines, app, job, n)|
  {
    hide MatchOwner, ListUpTo, ManagedCount, OwnsAt;
    if n == 0 {
      NoneOwned(lines, app, job);
    } else {
      CountOwned(lines, app, job, n - 1);
      OwnedNext(lines, app, job, n - 1);
      CountStepped(lines, app, job, n);
    }
  }

  lemma {:induction false} UnmatchedAre(matched: seq<int>) returns (missing: seq<nat>)
    ensures Ascending(missing) && forall w: nat :: w in missing <==> w < |matched| && matched[w] < 0
    ensures var report := Unmatched(matched);
            |report| == |missing| && forall i :: 0 <= i < |missing| ==> report[i] == NoCandidate(missing[i])
  {
    if matched == [] {
      missing := [];
    } else {
      var n := |matched| - 1;
      missing := UnmatchedAre(matched[..n]);
      assert forall i :: 0 <= i < |missing| ==> missing[i] in missing;
      if matched[n] < 0 {
        assert forall w :: w in missing + [n] <==> w in missing || w == n;
        missing := missing + [n];
      }
    }
  }

  /** The report names the extra lines of these candidates, ascending. */
  ghost predicate Named(cands: seq<Candidate>, extra: seq<nat>, report: seq<Divergence>) {
    && |report| == |extra|
    && forall i :: 0 <= i < |extra| ==> extra[i] < |cands| && report[i] == ExtraLine(cands[extra[i]].line + 1)
  }

  ghost predicate Untaken(taken: set<int>, n: nat, extra: seq<nat>) {
    Ascending(extra) && forall c: nat :: c in extra <==> c < n && c !in taken
  }

  lemma UntakenNext(taken: set<int>, n: nat, extra: seq<nat>)
    requires Untaken(taken, n, extra)
    ensures Untaken(taken, n + 1, if n in taken then extra else extra + [n])
  {
    assert forall i :: 0 <= i < |extra| ==> extra[i] in extra;
    assert forall c :: c in extra + [n] <==> c in extra || c == n;
  }

  lemma NamedNext(cands: seq<Candidate>, extra: seq<nat>, report: seq<Divergence>)
    requires cands != [] && Named(cands[..|cands| - 1], extra, report)
    ensures var n := |cands| - 1;
            Named(cands, extra, report) && Named(cands, extra + [n], report + [ExtraLine(cands[n].line + 1)])
  {}

  lemma {:induction false} ExtrasAre(cands: seq<Candidate>, taken: set<int>) returns (extra: seq<nat>)
    ensures Untaken(taken, |cands|, extra) && Named(cands, extra, Extras(cands, taken))
  {
    if cands == [] {
      extra := [];
    } else {
      hide Named, Untaken;
      var n := |cands| - 1;
      extra := ExtrasAre(cands[..n], taken);
      NamedNext(cands, extra, Extras(cands[..n], taken));
      UntakenNext(taken, n, extra);
      if n in taken {
        ConcatEmpty(Extras(cands[..n], taken));
      } else {
        extra := extra + [n];
      }
    }
  }

  lemma ReportIs(wanted: seq<string>, cands: seq<Candidate>) returns (missing: seq<nat>, extra: seq<nat>)
    ensures var matched := Greedy(wanted, Crons(cands));
            Reports(Unmatched(matched) + Extras(cands, Taken(matched)), wanted, Places(cands), Crons(cands), missing,
                    extra)
  {
    hide Greedy, Taken, Unmatched, Extras, CountBefore;
    var matched := Greedy(wanted, Crons(cands));
    missing := UnmatchedAre(matched);
    extra := ExtrasAre(cands, Taken(matched));
    forall w: nat | w < |wanted| ensures matched[w] < 0 <==> Missing(wanted, Crons(cands), w) {
      MatchedExactly(wanted, Crons(cands), w);
    }
    forall c: nat | c < |cands| ensures c !in Taken(matched) <==> Extra(wanted, Crons(cands), c) {
      TakenExactly(wanted, Crons(cands), c);
    }
  }

  lemma {:induction false} AdoptedEntryAt(cfg: Config, lines: seq<string>, app: string, job: NormalizedJob,
      cands: seq<Candidate>, matched: seq<int>, n: nat, w: nat)
    requires w < n <= |matched| && Matches(matched, cands, |matched|)
    requires forall c :: 0 <= c < |cands| ==> cands[c].line < |lines|
    ensures AdoptedEntries(cfg, lines, app, job, cands, matched, n)[w] ==
            ManagedEntry(app, job.name, cfg.hash(job, w), w, lines[cands[matched[w]].line])
  {
    if w < n - 1 {
      AdoptedEntryAt(cfg, lines, app, job, cands, matched, n - 1, w);
    }
  }

  lemma AdoptedEntriesAre(cfg: Config, lines: seq<string>, app: string, job: NormalizedJob, wanted: seq<string>,
      cands: seq<Candidate>)
    requires Complete(Greedy(wanted, Crons(cands)), |cands|)
    requires forall c :: 0 <= c < |cands| ==> cands[c].line < |lines|
    ensures var matched := Greedy(wanted, Crons(cands));
            EntriesAre(cfg, lines, app, job, wanted, Places(cands), Crons(cands),
                       AdoptedEntries(cfg, lines, app, job, cands, matched, |matched|))
  {
    hide Greedy, Taken, CountBefore, AdoptedEntries;
    var matched := Greedy(wanted, Crons(cands));
    var entries := AdoptedEntries(cfg, lines, app, job, cands, matched, |matched|);
    forall w | 0 <= w < |wanted|
      ensures exists c :: 0 <= c < |cands| && Serves(wanted, Crons(cands), w, c) &&
                entries[w] == ManagedEntry(app, job.name, cfg.hash(job, w), w, lines[Places(cands)[c]])
    {
      MatchedExactly(wanted, Crons(cands), w);
      AdoptedEntryAt(cfg, lines, app, job, cands, matched, |matched|, w);
      assert Serves(wanted, Crons(cands), w, matched[w]);
    }
  }

  lemma TranslatedAnswers(cfg: Config, lines: seq<string>, app: string, job: NormalizedJob, dryRun: bool)
    requires Translates(job.schedules)
    ensures var cands := Candidates(lines, ExpectedTail(cfg.triggerBin, app, job.name));
            AnswersWith(cfg, lines, app, job, dryRun, Answer(cfg, lines, app, job, dryRun), Wanted(job.schedules),
                        Places(cands), Crons(cands))
  {
    hide Translate, Greedy, Complete, CandidatesUpTo, ManagedCount, ListUpTo, Taken, AdoptedEntries, Unmatched, Extras,
         Reports, EntriesAre, InvokedAt, OwnsAt, ExpectedTail;
    var wanted, cands := Wanted(job.schedules), Candidates(lines, ExpectedTail(cfg.triggerBin, app, job.name));
    CandidatesAreInvoked(cfg, lines, app, job.name);
    CountOwned(lines, app, job.name, |lines|);
    GreedyExact(wanted, Crons(cands));
    var missing, extra := ReportIs(wanted, cands);
    if Complete(Greedy(wanted, Crons(cands)), |cands|) {
      AdoptedEntriesAre(cfg, lines, app, job, wanted, cands);
    }
  }

  /** Every answer, of dry runs and of others. */
  lemma AnswersExactly(cfg: Config, lines: seq<string>, app: string, job: NormalizedJob, dryRun: bool)
    ensures Answers(cfg, lines, app, job, dryRun, Answer(cfg, lines, app, job, dryRun))
  {
    hide AnswersWith, Translate, Greedy, CandidatesUpTo, ManagedCount, AdoptedEntries, Unmatched, Extras, Taken;
    if Translates(job.schedules) {
      TranslatedAnswers(cfg, lines, app, job, dryRun);
    }
  }

  /** A dry run answers what a wet run would, but for adopting. */
  lemma DryRunAnswers(cfg: Config, lines: seq<string>, app: string, job: NormalizedJob)
    ensures var dry, wet := Answer(cfg, lines, app, job, true), Answer(cfg, lines, app, job, false);
            && dry.found == wet.found && dry.alreadyManaged == wet.alreadyManaged && dry.diverged == wet.diverged
            && dry.divergences == wet.divergences && dry.entries == wet.entries && !dry.adopted
            && (wet.adopted <==> wet.found && !wet.diverged)
  {
    hide Translate, Greedy, Complete, CandidatesUpTo, ManagedCount, ListUpTo, Taken, AdoptedEntries, Unmatched, Extras;
  }
}

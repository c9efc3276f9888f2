/** What `Adopt` does to the file around it: when it adopts, and what it leaves alone. */
module AdoptedFiles {
  import opened Wrappers
  import opened Sequences
  import opened Text
  import opened NormalizedManifests
  import opened OwnerLine
  import opened CrontabLines
  import opened Cron
  import opened Commands
  import opened Crontab
  import opened Matching
  import opened Insertions
  import opened Adoption

  // ---- When it adopts -----------------------------------------------------------------------------

  /** Outside the already-managed shortcut, a job whose schedules all translate is adopted exactly when the five-field
      texts it wants are, with repetitions, those of the candidate lines. */
  lemma AdoptsExactly(cfg: Config, lines: seq<string>, app: string, job: NormalizedJob)
    requires Translates(job.schedules)
    ensures var cands := Candidates(lines, ExpectedTail(cfg.triggerBin, app, job.name));
            var managed := ManagedCount(ListEntries(lines), app, job.name) == |job.schedules| && cands == [];
            var answer := Answer(cfg, lines, app, job, false);
            && (answer.alreadyManaged <==> managed)
            && (answer.adopted <==> !managed && multiset(Wanted(job.schedules)) == multiset(Crons(cands)))
            && (answer.diverged <==> answer.divergences != [])
  {
    hide Translate, Greedy, Complete, CandidatesUpTo, ManagedCount, ListEntries, Taken, AdoptedEntries;
    var cands := Candidates(lines, ExpectedTail(cfg.triggerBin, app, job.name));
    GreedyExact(Wanted(job.schedules), Crons(cands));
    ReportEmpty(Greedy(Wanted(job.schedules), Crons(cands)), cands);
  }

  // ---- What it leaves alone -----------------------------------------------------------------------

  /** The lines that do not invoke any of the commands. */
  function Uninvoking(lines: seq<string>, tails: set<string>): seq<string> {
    if lines == [] then []
    else
      var n := |lines| - 1;
      Uninvoking(lines[..n], tails) + if exists tail | tail in tails :: Invokes(lines[n], tail).Some? then []
          else [lines[n]]
  }

  /** The lines that are no owner lines. */
  function Unmarked(lines: seq<string>): seq<string> {
    if lines == [] then []
    else
      var n := |lines| - 1;
      Unmarked(lines[..n]) + if IsMarker(lines[n]) then [] else [lines[n]]
  }

  /** The entries of every other job. */
  function OtherJobs(entries: seq<ManagedEntry>, app: string, job: string): seq<ManagedEntry> {
    if entries == [] then []
    else
      var e := entries[|entries| - 1];
      OtherJobs(entries[..|entries| - 1], app, job) + if e.app == app && e.job == job then [] else [e]
  }

  lemma MarkerNotCandidate(line: string, tail: string)
    requires IsMarker(line)
    ensures Invokes(line, tail) == None
  {
    hide IsName, IsHash, SplitCommand;
    JoinSplit(line, ' ');
    assert line[0] == '#';
    TrimRightShape(line);
  }

  /** The markers are owner lines of the job, one for each candidate line and none elsewhere. */
  ghost predicate MarksFor(lines: seq<string>, marks: map<nat, string>, tail: string, app: string, job: string) {
    && (forall i :: i in marks <==> 0 <= i < |lines| && CandidateAt(lines, i, tail).Some?)
    && (forall i :: i in marks ==> OwnedBy(marks[i], app, job))
  }

  /** A place where the file may be cut without taking a block apart. */
  predicate Cut(lines: seq<string>, n: nat) { n <= |lines| && (n < |lines| ==> !IsMarker(lines[n])) }

  lemma UnmarkedItem(lines: seq<string>, it: Item)
    requires ValidItem(it)
    ensures Unmarked(lines + ItemLines(it)) == Unmarked(lines) + [if it.Plain? then it.line else it.schedule]
  {
    hide MatchOwner;
    match it
    case Plain(line) => AppendFront(lines, line);
    case Block(schedule, marker, _) =>
      AppendFront(lines, schedule);
      AppendFront(lines + [schedule], marker);
      ConcatAssociative(lines, [schedule], [marker]);
      assert [schedule] + [marker] == [schedule, marker];
  }

  lemma OtherJobsItem(lines: seq<string>, it: Item, app: string, job: string)
    requires ValidItem(it)
    ensures OtherJobs(ListEntries(lines + ItemLines(it)), app, job) ==
            OtherJobs(ListEntries(lines), app, job) +
            if it.Block? && !(it.owner.app == app && it.owner.job == job) then EntryOf(it) else []
  {
    hide MatchOwner, ListEntries;
    ListItem(lines, it);
    if it.Block? {
      AppendFront(ListEntries(lines), EntryOf(it)[0]);
    } else {
      ConcatEmpty(ListEntries(lines));
    }
  }

  lemma UninvokingAppend(lines: seq<string>, line: string, tail: string)
    ensures Uninvoking(lines + [line], {tail}) == Uninvoking(lines, {tail}) + if Invokes(line, tail).Some? then []
        else [line]
  {
    hide Invokes;
    AppendFront(lines, line);
  }

  /** All that is claimed of a file with markers put in. */
  ghost predicate Keeps(after: seq<string>, before: seq<string>, tail: string, app: string, job: string) {
    && WellFormed(after)
    && Foreign(after) == Uninvoking(Foreign(before), {tail})
    && Unmarked(after) == Unmarked(before)
    && OtherJobs(ListEntries(after), app, job) == OtherJobs(ListEntries(before), app, job)
  }

  lemma KeepsSameItem(after: seq<string>, before: seq<string>, it: Item, tail: string, app: string, job: string)
    requires Keeps(after, before, tail, app, job) && ValidItem(it)
    requires it.Plain? ==> Invokes(it.line, tail).None?
    ensures Keeps(after + ItemLines(it), before + ItemLines(it), tail, app, job)
  {
    hide MatchOwner, Invokes, WellFormed, Foreign, Unmarked, ListEntries, OtherJobs;
    WellFormedAppend(after, it);
    ForeignItem(after, it);
    ForeignItem(before, it);
    UnmarkedItem(after, it);
    UnmarkedItem(before, it);
    OtherJobsItem(after, it, app, job);
    OtherJobsItem(before, it, app, job);
    if it.Plain? {
      UninvokingAppend(Foreign(before), it.line, tail);
    } else {
      ConcatEmpty(Foreign(before));
      ConcatEmpty(Foreign(after));
    }
  }

  lemma KeepsNewMarker(after: seq<string>, before: seq<string>, line: string, marker: string, tail: string,
      app: string, job: string)
    requires Keeps(after, before, tail, app, job) && !IsMarker(line) && OwnedBy(marker, app, job)
        && Invokes(line, tail).Some?
    ensures Keeps(after + [line, marker], before + [line], tail, app, job)
  {
    hide MatchOwner, Invokes, WellFormed, Foreign, Unmarked, ListEntries, OtherJobs;
    var it := Block(line, marker, MatchOwner(marker).value);
    WellFormedAppend(after, it);
    ForeignItem(after, it);
    ForeignItem(before, Plain(line));
    UnmarkedItem(after, it);
    UnmarkedItem(before, Plain(line));
    OtherJobsItem(after, it, app, job);
    OtherJobsItem(before, Plain(line), app, job);
    UninvokingAppend(Foreign(before), line, tail);
    ConcatEmpty(Foreign(after));
    ConcatEmpty(Uninvoking(Foreign(before), {tail}));
    ConcatEmpty(OtherJobs(ListEntries(after), app, job));
    ConcatEmpty(OtherJobs(ListEntries(before), app, job));
  }

  lemma NothingKept(tail: string, app: string, job: string)
    ensures Keeps([], [], tail, app, job)
  {}

  lemma {:induction false} InsertKeeps(lines: seq<string>, marks: map<nat, string>, tail: string, app: string,
      job: string, n: nat)
    requires WellFormed(lines) && MarksFor(lines, marks, tail, app, job) && Cut(lines, n)
    ensures Keeps(InsertUpTo(lines, marks, n), lines[..n], tail, app, job)
  {
    hide MatchOwner, Invokes, Keeps;
    if n == 0 {
      NothingKept(tail, app, job);
    } else if IsMarker(lines[n - 1]) {
      var it := Block(lines[n - 2], lines[n - 1], MatchOwner(lines[n - 1]).value);
      InsertKeeps(lines, marks, tail, app, job, n - 2);
      MarkerNotCandidate(lines[n - 1], tail);
      var a := InsertUpTo(lines, marks, n - 2);
      KeepsSameItem(a, lines[..n - 2], it, tail, app, job);
      assert lines[..n] == lines[..n - 2] + ItemLines(it);
      assert InsertUpTo(lines, marks, n) == a + ItemLines(it);
    } else {
      InsertKeeps(lines, marks, tail, app, job, n - 1);
      var line, a := lines[n - 1], InsertUpTo(lines, marks, n - 1);
      assert lines[..n] == lines[..n - 1] + [line];
      if n - 1 in marks {
        KeepsNewMarker(a, lines[..n - 1], line, marks[n - 1], tail, app, job);
        assert a + [line] + [marks[n - 1]] == a + [line, marks[n - 1]];
      } else {
        KeepsSameItem(a, lines[..n - 1], Plain(line), tail, app, job);
        ConcatEmpty(a + [line]);
      }
    }
  }

  lemma CandidatesNext(lines: seq<string>, tail: string, n: nat)
    requires n < |lines|
    ensures var cron := CandidateAt(lines, n, tail);
            CandidatesUpTo(lines, tail, n + 1) ==
            CandidatesUpTo(lines, tail, n) + if cron.Some? then [Candidate(n, cron.value)] else []
  {
    hide CandidateAt;
  }

  /** Every candidate line is among the candidates. */
  lemma {:induction false} CandidatesComplete(lines: seq<string>, tail: string, n: nat, i: nat) returns (c: nat)
    requires i < n <= |lines| && CandidateAt(lines, i, tail).Some?
    ensures c < |CandidatesUpTo(lines, tail, n)| && CandidatesUpTo(lines, tail, n)[c].line == i
  {
    hide CandidateAt, CandidatesUpTo;
    CandidatesNext(lines, tail, n - 1);
    if i < n - 1 {
      c := CandidatesComplete(lines, tail, n - 1, i);
    } else {
      c := |CandidatesUpTo(lines, tail, n)| - 1;
    }
  }

  /** What an adoption has in hand: the tail, the candidates, and their matching with the schedules. */
  ghost predicate Adopts(cfg: Config, lines: seq<string>, app: string, job: NormalizedJob, cands: seq<Candidate>,
      matched: seq<int>) {
    && IsName(app) && IsName(job.name) && |job.schedules| <= MAX_SCHEDULES_PER_JOB
    && cands == Candidates(lines, ExpectedTail(cfg.triggerBin, app, job.name))
    && Matches(matched, cands, |job.schedules|) && Complete(matched, |cands|)
    && forall v, w :: 0 <= v < w < |matched| ==> matched[v] != matched[w]
  }

  lemma AdoptionOf(cfg: Config, lines: seq<string>, app: string, job: NormalizedJob) returns (cands: seq<Candidate>,
      matched: seq<int>)
    requires IsName(app) && IsName(job.name) && |job.schedules| <= MAX_SCHEDULES_PER_JOB
    requires Answer(cfg, lines, app, job, false).adopted
    ensures Adopts(cfg, lines, app, job, cands, matched)
    ensures Translates(job.schedules) && matched == Greedy(Wanted(job.schedules), Crons(cands))
    ensures AdoptedLines(cfg, lines, app, job) == InsertAll(lines, MarksOf(MarkersFor(cfg, app, job, cands, matched)))
  {
    hide CandidatesUpTo, Translate, ManagedCount, ListEntries, Taken, AdoptedEntries, IsName, MarksOf, InsertAll;
    cands := Candidates(lines, ExpectedTail(cfg.triggerBin, app, job.name));
    matched := Greedy(Wanted(job.schedules), Crons(cands));
  }

  lemma MarkerOwned(cfg: Config, app: string, job: NormalizedJob, w: nat)
    requires IsName(app) && IsName(job.name) && w < MAX_SCHEDULES_PER_JOB
    ensures MatchOwner(RenderMarker(app, job.name, cfg.hash(job, w), w)) ==
        Some(Owner(app, job.name, cfg.hash(job, w), w))
  {
    hide IsName;
    MarkerRoundTrip(app, job.name, cfg.hash(job, w), w);
  }

  /** The marker behind a candidate line is the one of the schedule that took the line. */
  ghost predicate MarkOf(cfg: Config, app: string, job: NormalizedJob, cands: seq<Candidate>, matched: seq<int>,
      i: nat, w: nat, marker: string) {
    0 <= w < |matched| && 0 <= matched[w] < |cands| && cands[matched[w]].line == i
    && marker == RenderMarker(app, job.name, cfg.hash(job, w), w)
  }

  lemma PositionsDistinct(cfg: Config, lines: seq<string>, app: string, job: NormalizedJob, cands: seq<Candidate>,
      matched: seq<int>)
    requires Adopts(cfg, lines, app, job, cands, matched)
    ensures DistinctPositions(MarkersFor(cfg, app, job, cands, matched))
  {
    hide RenderMarker, CandidateAt, IsName, Complete;
  }

  /** Each schedule has its marker behind its candidate line, and there is no other marker. */
  lemma ScheduleMarks(cfg: Config, lines: seq<string>, app: string, job: NormalizedJob, cands: seq<Candidate>,
      matched: seq<int>)
    requires Adopts(cfg, lines, app, job, cands, matched)
    ensures var marks := MarksOf(MarkersFor(cfg, app, job, cands, matched));
            && (forall w :: 0 <= w < |matched| ==>
                 cands[matched[w]].line in marks
                 && MarkOf(cfg, app, job, cands, matched, cands[matched[w]].line, w, marks[cands[matched[w]].line]))
            && (forall i :: i in marks ==> exists w :: MarkOf(cfg, app, job, cands, matched, i, w, marks[i]))
  {
    hide RenderMarker, CandidatesUpTo, IsName, MarksOf, Complete, DistinctPositions;
    var ins := MarkersFor(cfg, app, job, cands, matched);
    var marks := MarksOf(ins);
    PositionsDistinct(cfg, lines, app, job, cands, matched);
    MarksOfMembers(ins);
    forall w | 0 <= w < |matched|
      ensures cands[matched[w]].line in marks
      ensures MarkOf(cfg, app, job, cands, matched, cands[matched[w]].line, w, marks[cands[matched[w]].line])
    {
      assert ins[w] in ins;
    }
    forall i | i in marks ensures exists w :: MarkOf(cfg, app, job, cands, matched, i, w, marks[i]) {
      var w :| 0 <= w < |ins| && ins[w] == Insertion(i, marks[i]);
      assert MarkOf(cfg, app, job, cands, matched, i, w, marks[i]);
    }
  }

  lemma EveryCandidateTaken(cfg: Config, lines: seq<string>, app: string, job: NormalizedJob, cands: seq<Candidate>,
      matched: seq<int>, i: nat)
    requires Adopts(cfg, lines, app, job, cands, matched)
    requires i < |lines| && CandidateAt(lines, i, ExpectedTail(cfg.triggerBin, app, job.name)).Some?
    ensures exists w :: 0 <= w < |matched| && cands[matched[w]].line == i
  {
    hide CandidateAt, IsName;
    var c := CandidatesComplete(lines, ExpectedTail(cfg.triggerBin, app, job.name), |lines|, i);
    assert c in Taken(matched);
    var w :| 0 <= w < |matched| && matched[w] == c;
    assert cands[matched[w]].line == i;
  }

  lemma AdoptionMarks(cfg: Config, lines: seq<string>, app: string, job: NormalizedJob, cands: seq<Candidate>,
      matched: seq<int>)
    requires Adopts(cfg, lines, app, job, cands, matched)
    ensures MarksFor(lines, MarksOf(MarkersFor(cfg, app, job, cands, matched)),
        ExpectedTail(cfg.triggerBin, app, job.name), app, job.name)
  {
    hide RenderMarker, CandidateAt, IsName, MatchOwner, MarksOf, Complete;
    var marks := MarksOf(MarkersFor(cfg, app, job, cands, matched));
    var tail := ExpectedTail(cfg.triggerBin, app, job.name);
    ScheduleMarks(cfg, lines, app, job, cands, matched);
    forall i | i in marks ensures OwnedBy(marks[i], app, job.name) && i < |lines| && CandidateAt(lines, i, tail).Some? {
      var w :| MarkOf(cfg, app, job, cands, matched, i, w, marks[i]);
      MarkerOwned(cfg, app, job, w);
    }
    forall i | 0 <= i < |lines| && CandidateAt(lines, i, tail).Some? ensures i in marks {
      EveryCandidateTaken(cfg, lines, app, job, cands, matched, i);
    }
  }

  /** An adoption keeps the file well-formed, keeps every line and the order of the lines, turns exactly the candidate
      lines into owned ones, and leaves the entries of all other jobs. */
  lemma AdoptKeepsFile(cfg: Config, lines: seq<string>, app: string, job: NormalizedJob)
    requires WellFormed(lines) && IsName(app) && IsName(job.name) && |job.schedules| <= MAX_SCHEDULES_PER_JOB
    requires Answer(cfg, lines, app, job, false).adopted
    ensures Keeps(AdoptedLines(cfg, lines, app, job), lines, ExpectedTail(cfg.triggerBin, app, job.name), app, job.name)
  {
    hide WellFormed, IsName, Keeps, MarksFor, MarksOf, Answer, RenderMarker, AdoptedLines, Complete, CandidatesUpTo;
    var cands, matched := AdoptionOf(cfg, lines, app, job);
    AdoptionMarks(cfg, lines, app, job, cands, matched);
    var marks := MarksOf(MarkersFor(cfg, app, job, cands, matched));
    InsertKeeps(lines, marks, ExpectedTail(cfg.triggerBin, app, job.name), app, job.name, |lines|);
    assert lines[..|lines|] == lines;
  }
}

/** What the reconciler plans for a job that has just been adopted. */
module AdoptedPlans {
  import opened Wrappers
  import opened Sequences
  import opened Text
  import opened NormalizedManifests
  import opened OwnerLine
  import opened CrontabLines
  import opened Cron
  import opened Crontab
  import opened Matching
  import opened Insertions
  import opened Reconcile
  import opened Adoption
  import opened AdoptedFiles

  /** An owner line for one schedule of a job. */
  predicate OwnsSchedule(line: string, app: string, job: string, w: nat) {
    OwnedBy(line, app, job) && MatchOwner(line).value.idx == w
  }

  function HashIn(line: string): string
    requires IsMarker(line)
  {
    MatchOwner(line).value.hash
  }

  /** The hash in the last owner line for a schedule, among the lines from a position on. */
  function LastBelow(lines: seq<string>, app: string, job: string, w: nat, start: nat): Option<string> {
    if |lines| <= start then None
    else
      var n := |lines| - 1;
      if OwnsSchedule(lines[n], app, job, w) then Some(HashIn(lines[n])) else LastBelow(lines[..n], app, job, w, start)
  }

  lemma ListAppend(lines: seq<string>, line: string)
    ensures ListEntries(lines + [line]) ==
            ListEntries(lines) +
            if IsMarker(line) && lines != []
            then var o := MatchOwner(line).value; [ManagedEntry(o.app, o.job, o.hash, o.idx, lines[|lines| - 1])]
            else []
  {
    hide MatchOwner;
    ListUpToPrefix(lines, [line], |lines|);
  }

  lemma LastAppend(lines: seq<string>, line: string, app: string, job: string, w: nat)
    requires lines != [] || !IsMarker(line)
    ensures LastHash(ListEntries(lines + [line]), app, job, w) ==
            if OwnsSchedule(line, app, job, w) then Some(HashIn(line))
            else LastHash(ListEntries(lines), app, job, w)
  {
    hide MatchOwner, ListEntries;
    ListAppend(lines, line);
    if IsMarker(line) {
      var o := MatchOwner(line).value;
      LastHashAppend(ListEntries(lines), ManagedEntry(o.app, o.job, o.hash, o.idx, lines[|lines| - 1]), app, job, w);
    } else {
      ConcatEmpty(ListEntries(lines));
    }
  }

  /** The inserted owner lines are those of the job, each for its own schedule. */
  ghost predicate MarksAre(marks: map<nat, string>, lines: seq<string>, app: string, job: string, at: map<nat, nat>,
      hash: nat -> string) {
    && (forall i :: i in marks ==>
         i < |lines| && exists w :: w in at && at[w] == i && MatchOwner(marks[i]) == Some(Owner(app, job, hash(w), w)))
    && (forall w :: w in at ==> at[w] in marks)
    && (forall v, w :: v in at && w in at && at[v] == at[w] ==> v == w)
  }

  lemma MarkOwns(marks: map<nat, string>, lines: seq<string>, app: string, job: string, at: map<nat, nat>,
      hash: nat -> string, i: nat, w: nat)
    requires MarksAre(marks, lines, app, job, at, hash) && i in marks
    ensures OwnsSchedule(marks[i], app, job, w) <==> w in at && at[w] == i
    ensures OwnsSchedule(marks[i], app, job, w) ==> HashIn(marks[i]) == hash(w)
  {
    hide MatchOwner;
    var v :| v in at && at[v] == i && MatchOwner(marks[i]) == Some(Owner(app, job, hash(v), v));
  }

  /** One line, and the owner line inserted behind it if there is one. */
  lemma LastStep(before: seq<string>, line: string, mark: Option<string>, app: string, job: string, w: nat)
    requires before != [] || !IsMarker(line)
    ensures LastHash(ListEntries(before + [line] + if mark.Some? then [mark.value] else []), app, job, w) ==
            if mark.Some? && OwnsSchedule(mark.value, app, job, w) then Some(HashIn(mark.value))
            else if OwnsSchedule(line, app, job, w) then Some(HashIn(line))
            else LastHash(ListEntries(before), app, job, w)
  {
    hide MatchOwner, ListEntries, LastHash, OwnsSchedule, HashIn;
    LastAppend(before, line, app, job, w);
    if mark.Some? {
      LastAppend(before + [line], mark.value, app, job, w);
    } else {
      ConcatEmpty(before + [line]);
    }
  }

  lemma BelowNext(lines: seq<string>, app: string, job: string, w: nat, start: nat, n: nat)
    requires n < |lines|
    ensures LastBelow(lines[..n + 1], app, job, w, start) ==
            if n < start then None
            else if OwnsSchedule(lines[n], app, job, w) then Some(HashIn(lines[n]))
            else LastBelow(lines[..n], app, job, w, start)
    ensures n <= start ==> LastBelow(lines[..n], app, job, w, start) == None
  {
    hide OwnsSchedule, HashIn;
    TakeNext(lines, n);
  }

  /** After the insertion, the last owner line for a schedule is an old one below the inserted one, if there is one. */
  lemma {:induction false} LastAfterInsert(lines: seq<string>, marks: map<nat, string>, app: string, job: string,
      at: map<nat, nat>, hash: nat -> string, w: nat, n: nat)
    requires n <= |lines| && WellFormed(lines) && MarksAre(marks, lines, app, job, at, hash)
    ensures LastHash(ListEntries(InsertUpTo(lines, marks, n)), app, job, w) ==
            if w in at && at[w] < n then
              var below := LastBelow(lines[..n], app, job, w, at[w] + 1);
              if below.Some? then below else Some(hash(w))
            else LastBelow(lines[..n], app, job, w, 0)
  {
    hide MatchOwner, ListEntries, MarksAre, LastHash, LastBelow, OwnsSchedule, HashIn, InsertUpTo;
    if n == 0 {
      NothingListed(app, job, w);
      NothingInserted(lines, marks);
    } else {
      LastAfterInsert(lines, marks, app, job, at, hash, w, n - 1);
      var before, line := InsertUpTo(lines, marks, n - 1), lines[n - 1];
      var mark := if n - 1 in marks then Some(marks[n - 1]) else None;
      InsertedNext(lines, marks, n - 1);
      LastStep(before, line, mark, app, job, w);
      BelowNext(lines, app, job, w, 0, n - 1);
      if mark.Some? {
        MarkOwns(marks, lines, app, job, at, hash, n - 1, w);
      }
      if w in at {
        MarkPlaces(marks, lines, app, job, at, hash, w);
        BelowNext(lines, app, job, w, at[w] + 1, n - 1);
      }
    }
  }

  lemma NothingInserted(lines: seq<string>, marks: map<nat, string>)
    ensures InsertUpTo(lines, marks, 0) == []
  {}

  lemma InsertedNext(lines: seq<string>, marks: map<nat, string>, n: nat)
    requires n < |lines|
    ensures var mark := if n in marks then Some(marks[n]) else None;
            InsertUpTo(lines, marks, n + 1) ==
            InsertUpTo(lines, marks, n) + [lines[n]] + if mark.Some? then [mark.value] else []
    ensures n > 0 ==> InsertUpTo(lines, marks, n) != []
  {}

  lemma NothingListed(app: string, job: string, w: nat)
    ensures LastHash(ListEntries([]), app, job, w) == None && LastBelow([], app, job, w, 0) == None
  {}

  lemma MarkPlaces(marks: map<nat, string>, lines: seq<string>, app: string, job: string, at: map<nat, nat>,
      hash: nat -> string, w: nat)
    requires MarksAre(marks, lines, app, job, at, hash) && w in at
    ensures at[w] in marks
  {}

  /** Where each schedule has its line. */
  function Places(cands: seq<Candidate>, matched: seq<int>): map<nat, nat>
    requires Matches(matched, cands, |matched|)
  {
    map w: nat | w < |matched| :: cands[matched[w]].line
  }

  lemma AdoptionMarksAre(cfg: Config, lines: seq<string>, app: string, job: NormalizedJob, cands: seq<Candidate>,
      matched: seq<int>)
    requires Adopts(cfg, lines, app, job, cands, matched) && Matches(matched, cands, |job.schedules|)
    ensures MarksAre(MarksOf(MarkersFor(cfg, app, job, cands, matched)), lines, app, job.name, Places(cands, matched),
                     (w: nat) => cfg.hash(job, w))
  {
    hide RenderMarker, CandidatesUpTo, IsName, MatchOwner, MarksOf, Complete, MarkersFor, Adopts;
    var marks := MarksOf(MarkersFor(cfg, app, job, cands, matched));
    var at := Places(cands, matched);
    forall i | i in marks
      ensures i < |lines|
      ensures exists w :: w in at && at[w] == i
                && MatchOwner(marks[i]) == Some(Owner(app, job.name, cfg.hash(job, w), w))
    {
      var w := MarkPlaced(cfg, lines, app, job, cands, matched, i);
    }
    forall w | w in at ensures at[w] in marks { PlaceMarked(cfg, lines, app, job, cands, matched, w); }
    PlacesDiffer(cfg, lines, app, job, cands, matched);
  }

  lemma MarkPlaced(cfg: Config, lines: seq<string>, app: string, job: NormalizedJob, cands: seq<Candidate>,
      matched: seq<int>, i: nat)
    returns (w: nat)
    requires Adopts(cfg, lines, app, job, cands, matched)
    requires i in MarksOf(MarkersFor(cfg, app, job, cands, matched))
    ensures i < |lines| && w in Places(cands, matched) && Places(cands, matched)[w] == i
    ensures MatchOwner(MarksOf(MarkersFor(cfg, app, job, cands, matched))[i]) ==
            Some(Owner(app, job.name, cfg.hash(job, w), w))
  {
    hide RenderMarker, CandidatesUpTo, IsName, MatchOwner, MarksOf, Complete, MarkersFor;
    var marks := MarksOf(MarkersFor(cfg, app, job, cands, matched));
    ScheduleMarks(cfg, lines, app, job, cands, matched);
    w :| MarkOf(cfg, app, job, cands, matched, i, w, marks[i]);
    MarkerOwned(cfg, app, job, w);
  }

  lemma PlaceMarked(cfg: Config, lines: seq<string>, app: string, job: NormalizedJob, cands: seq<Candidate>,
      matched: seq<int>, w: nat)
    requires Adopts(cfg, lines, app, job, cands, matched) && w < |matched|
    ensures var marks, i := MarksOf(MarkersFor(cfg, app, job, cands, matched)), cands[matched[w]].line;
            i in marks && marks[i] == RenderMarker(app, job.name, cfg.hash(job, w), w)
  {
    hide RenderMarker, CandidatesUpTo, IsName, MatchOwner, MarksOf, Complete, MarkersFor;
    ScheduleMarks(cfg, lines, app, job, cands, matched);
  }

  lemma PlacesDiffer(cfg: Config, lines: seq<string>, app: string, job: NormalizedJob, cands: seq<Candidate>,
      matched: seq<int>)
    requires Adopts(cfg, lines, app, job, cands, matched)
    ensures var at := Places(cands, matched); forall v, w :: v in at && w in at && at[v] == at[w] ==> v == w
  {
    hide CandidatesUpTo, IsName, Complete;
    assert forall c, d :: 0 <= c < |cands| && 0 <= d < |cands| && cands[c].line == cands[d].line ==> c == d;
  }

  /** The hash that the listing shows for a schedule after the adoption. */
  function HashAfter(cfg: Config, lines: seq<string>, app: string, job: NormalizedJob, cands: seq<Candidate>,
      matched: seq<int>, w: nat): Option<string>
    requires Matches(matched, cands, |matched|)
  {
    if w < |matched| then
      var below := LastBelow(lines, app, job.name, w, cands[matched[w]].line + 1);
      if below.Some? then below else Some(cfg.hash(job, w))
    else LastBelow(lines, app, job.name, w, 0)
  }

  lemma ListedAfterAdoption(cfg: Config, lines: seq<string>, app: string, job: NormalizedJob, cands: seq<Candidate>,
      matched: seq<int>, w: nat)
    requires WellFormed(lines) && Adopts(cfg, lines, app, job, cands, matched)
    ensures var after := InsertAll(lines, MarksOf(MarkersFor(cfg, app, job, cands, matched)));
            LastHash(ListEntries(after), app, job.name, w) == HashAfter(cfg, lines, app, job, cands, matched, w)
  {
    hide RenderMarker, CandidateAt, IsName, MatchOwner, MarksOf, Complete, InsertUpTo, LastHash, LastBelow, ListEntries,
      WellFormed, MarksAre;
    var marks := MarksOf(MarkersFor(cfg, app, job, cands, matched));
    AdoptionMarksAre(cfg, lines, app, job, cands, matched);
    LastAfterInsert(lines, marks, app, job.name, Places(cands, matched), (v: nat) => cfg.hash(job, v), w, |lines|);
    TakeAll(lines);
  }

  /** No old owner line of the job has the index of no schedule; and of those below the line adopted for a schedule and
      with its index, the last one, if there is one, has its hash. */
  ghost predicate NoStaleOwners(cfg: Config, lines: seq<string>, app: string, job: NormalizedJob,
      cands: seq<Candidate>, matched: seq<int>)
    requires Matches(matched, cands, |job.schedules|)
  {
    && (forall w: nat :: w >= |job.schedules| ==> LastBelow(lines, app, job.name, w, 0).None?)
    && (forall w: nat :: w < |job.schedules| ==>
         LastBelow(lines, app, job.name, w, cands[matched[w]].line + 1) in {None, Some(cfg.hash(job, w))})
  }

  lemma NoStaleExactly(cfg: Config, lines: seq<string>, app: string, job: NormalizedJob, cands: seq<Candidate>,
      matched: seq<int>)
    requires Matches(matched, cands, |job.schedules|)
    ensures NoStaleOwners(cfg, lines, app, job, cands, matched) <==>
            forall w: nat :: HashAfter(cfg, lines, app, job, cands, matched, w) ==
              if w < |job.schedules| then Some(cfg.hash(job, w)) else None
  {
    hide LastBelow;
    if forall w: nat :: HashAfter(cfg, lines, app, job, cands, matched, w) ==
         if w < |job.schedules| then Some(cfg.hash(job, w)) else None
    {
      forall w: nat
        ensures w >= |job.schedules| ==> LastBelow(lines, app, job.name, w, 0).None?
        ensures w < |job.schedules| ==>
                  LastBelow(lines, app, job.name, w, cands[matched[w]].line + 1) in {None, Some(cfg.hash(job, w))}
      {
        assert HashAfter(cfg, lines, app, job, cands, matched, w) ==
               if w < |job.schedules| then Some(cfg.hash(job, w)) else None;
      }
    }
  }

  /** When an adopted job needs nothing more: exactly when it had no stale owner lines, the next plan skips it. */
  lemma AdoptedIsSkippedExactly(cfg: Config, lines: seq<string>, app: string, job: NormalizedJob)
    returns (cands: seq<Candidate>, matched: seq<int>)
    requires WellFormed(lines) && IsName(app) && IsName(job.name) && 1 <= |job.schedules| <= MAX_SCHEDULES_PER_JOB
    requires Answer(cfg, lines, app, job, false).adopted
    ensures Adopts(cfg, lines, app, job, cands, matched)
    ensures ActionFor(cfg.hash, ListEntries(AdoptedLines(cfg, lines, app, job)), app, job) == Skip <==>
            NoStaleOwners(cfg, lines, app, job, cands, matched)
  {
    hide WellFormed, IsName, Answer, AdoptedLines, ActionFor, MarksOf, InsertAll, ListEntries, LastHash, LastBelow,
      MarkersFor, Complete, CandidatesUpTo, HashAfter, NoStaleOwners;
    cands, matched := AdoptionOf(cfg, lines, app, job);
    var entries := ListEntries(AdoptedLines(cfg, lines, app, job));
    forall w: nat
      ensures LastHash(entries, app, job.name, w) == HashAfter(cfg, lines, app, job, cands, matched, w)
    {
      ListedAfterAdoption(cfg, lines, app, job, cands, matched, w);
    }
    ActionExactly(cfg.hash, entries, app, job);
    NoStaleExactly(cfg, lines, app, job, cands, matched);
  }

  lemma {:induction false} NothingBelow(lines: seq<string>, app: string, job: string, w: nat, start: nat)
    requires forall i :: 0 <= i < |lines| ==> !OwnedBy(lines[i], app, job)
    ensures LastBelow(lines, app, job, w, start) == None
  {
    hide OwnedBy;
    if |lines| > start {
      NothingBelow(lines[..|lines| - 1], app, job, w, start);
    }
  }

  /** A job that had no owner line needs no re-creation after its adoption. */
  lemma AdoptedIsSkipped(cfg: Config, lines: seq<string>, app: string, job: NormalizedJob)
    requires WellFormed(lines) && IsName(app) && IsName(job.name) && 1 <= |job.schedules| <= MAX_SCHEDULES_PER_JOB
    requires forall i :: 0 <= i < |lines| ==> !OwnedBy(lines[i], app, job.name)
    requires Answer(cfg, lines, app, job, false).adopted
    ensures ActionFor(cfg.hash, ListEntries(AdoptedLines(cfg, lines, app, job)), app, job) == Skip
  {
    hide WellFormed, IsName, OwnedBy, Answer, AdoptedLines, ActionFor, ListEntries, LastBelow, Complete;
    var cands, matched := AdoptedIsSkippedExactly(cfg, lines, app, job);
    forall w: nat, start: nat { NothingBelow(lines, app, job.name, w, start); }
  }
}

/** `crontab/adopt.go`: bringing lines that already invoke a job under management, and what that does to the file. */
module Adoption {
  import opened Wrappers
  import opened Sequences
  import opened Text
  import opened NormalizedManifests
  import opened OwnerLine
  import opened CrontabLines
  import opened Cron
  import opened Commands
  import opened Crontab
  import opened Matching
  import opened Insertions

  datatype Divergence = Untranslatable(schedule: nat) | NoCandidate(schedule: nat) | ExtraLine(number: nat)

  datatype AdoptResult = AdoptResult(
    found: bool, adopted: bool, alreadyManaged: bool, diverged: bool,
    divergences: seq<Divergence>, entries: seq<ManagedEntry>)

  datatype Candidate = Candidate(line: nat, cron: string)

  // ---- The steps ----------------------------------------------------------------------------------

  function ExpectedTail(triggerBin: string, app: string, job: string): string {
    triggerBin + " trigger " + app + "." + job
  }

  /** The five fields of a line whose command is exactly the expected one. */
  function Invokes(line: string, tail: string): Option<string> {
    var stripped := TrimSpace(line);
    if stripped == "" || stripped[0] == '#' then None
    else
      match SplitCommand(stripped)
      case None => None
      case Some(c) => if c.tail == tail then Some(c.cron) else None
  }

  /** A line right before an owner line is managed already and no candidate. */
  function CandidateAt(lines: seq<string>, i: nat, tail: string): Option<string>
    requires i < |lines|
  {
    if i + 1 < |lines| && IsMarker(lines[i + 1]) then None else Invokes(lines[i], tail)
  }

  function CandidatesUpTo(lines: seq<string>, tail: string, n: nat): (cands: seq<Candidate>)
    requires n <= |lines|
    ensures forall c :: 0 <= c < |cands| ==>
              cands[c].line < n && CandidateAt(lines, cands[c].line, tail) == Some(cands[c].cron)
    ensures forall c, d :: 0 <= c < d < |cands| ==> cands[c].line < cands[d].line
  {
    if n == 0 then []
    else
      var cron := CandidateAt(lines, n - 1, tail);
      CandidatesUpTo(lines, tail, n - 1) + if cron.Some? then [Candidate(n - 1, cron.value)] else []
  }

  function Candidates(lines: seq<string>, tail: string): seq<Candidate> { CandidatesUpTo(lines, tail, |lines|) }

  function Crons(cands: seq<Candidate>): (crons: seq<string>)
    ensures |crons| == |cands| && forall c :: 0 <= c < |cands| ==> crons[c] == cands[c].cron
  {
    seq(|cands|, c requires 0 <= c < |cands| => cands[c].cron)
  }

  function FirstUntranslatable(schedules: seq<string>, from: nat): (i: nat)
    requires from <= |schedules|
    ensures from <= i <= |schedules|
    ensures forall k :: from <= k < i ==> Translate(schedules[k]).Some?
    ensures i < |schedules| ==> Translate(schedules[i]).None?
    decreases |schedules| - from
  {
    if from == |schedules| || Translate(schedules[from]).None? then from
    else FirstUntranslatable(schedules, from + 1)
  }

  predicate Translates(schedules: seq<string>) {
    forall k :: 0 <= k < |schedules| ==> Translate(schedules[k]).Some?
  }

  function Wanted(schedules: seq<string>): (wanted: seq<string>)
    requires Translates(schedules)
    ensures |wanted| == |schedules|
    ensures forall w :: 0 <= w < |wanted| ==> Translate(schedules[w]) == Some(wanted[w])
  {
    seq(|schedules|, w requires 0 <= w < |schedules| => Translate(schedules[w]).value)
  }

  function ManagedCount(entries: seq<ManagedEntry>, app: string, job: string): nat {
    if entries == [] then 0
    else
      var e := entries[|entries| - 1];
      ManagedCount(entries[..|entries| - 1], app, job) + if e.app == app && e.job == job then 1 else 0
  }

  function Unmatched(matched: seq<int>): seq<Divergence> {
    if matched == [] then []
    else
      var n := |matched| - 1;
      Unmatched(matched[..n]) + if matched[n] < 0 then [NoCandidate(n)] else []
  }

  function Extras(cands: seq<Candidate>, taken: set<int>): seq<Divergence> {
    if cands == [] then []
    else
      var n := |cands| - 1;
      Extras(cands[..n], taken) + if n !in taken then [ExtraLine(cands[n].line + 1)] else []
  }

  /** Whether each schedule has a candidate line of its own. */
  predicate Matches(matched: seq<int>, cands: seq<Candidate>, n: nat) {
    |matched| == n && forall w :: 0 <= w < n ==> 0 <= matched[w] < |cands|
  }

  function AdoptedEntries(cfg: Config, lines: seq<string>, app: string, job: NormalizedJob, cands: seq<Candidate>,
                          matched: seq<int>, n: nat): (entries: seq<ManagedEntry>)
    requires n <= |matched| && Matches(matched, cands, |matched|)
    requires forall c :: 0 <= c < |cands| ==> cands[c].line < |lines|
    ensures |entries| == n
  {
    if n == 0 then []
    else
      AdoptedEntries(cfg, lines, app, job, cands, matched, n - 1) +
      [ManagedEntry(app, job.name, cfg.hash(job, n - 1), n - 1, lines[cands[matched[n - 1]].line])]
  }

  function InsertionFor(cfg: Config, app: string, job: NormalizedJob, line: nat, w: nat): Insertion {
    Insertion(line, RenderMarker(app, job.name, cfg.hash(job, w), w))
  }

  function MarkersFor(cfg: Config, app: string, job: NormalizedJob, cands: seq<Candidate>,
      matched: seq<int>): (ins: seq<Insertion>)
    requires Matches(matched, cands, |matched|)
    ensures |ins| == |matched|
    ensures forall w :: 0 <= w < |matched| ==> ins[w] == InsertionFor(cfg, app, job, cands[matched[w]].line, w)
  {
    seq(|matched|, w requires 0 <= w < |matched| => InsertionFor(cfg, app, job, cands[matched[w]].line, w))
  }

  // ---- The whole call -----------------------------------------------------------------------------

  /** What `Adopt` answers about a file. */
  function Answer(cfg: Config, lines: seq<string>, app: string, job: NormalizedJob, dryRun: bool): AdoptResult {
    var bad := FirstUntranslatable(job.schedules, 0);
    if bad < |job.schedules| then AdoptResult(false, false, false, true, [Untranslatable(bad)], [])
    else
      var cands := Candidates(lines, ExpectedTail(cfg.triggerBin, app, job.name));
      var matched := Greedy(Wanted(job.schedules), Crons(cands));
      if ManagedCount(ListEntries(lines), app, job.name) == |job.schedules| && cands == []
      then AdoptResult(false, false, true, false, [], [])
      else if !Complete(matched, |cands|)
      then AdoptResult(cands != [], false, false, true, Unmatched(matched) + Extras(cands, Taken(matched)), [])
      else AdoptResult(true, !dryRun, false, false, [], AdoptedEntries(cfg, lines, app, job, cands, matched, |matched|))
  }

  /** The lines with the markers in. */
  function AdoptedLines(cfg: Config, lines: seq<string>, app: string, job: NormalizedJob): seq<string>
    requires Answer(cfg, lines, app, job, false).adopted
  {
    var cands := Candidates(lines, ExpectedTail(cfg.triggerBin, app, job.name));
    var matched := Greedy(Wanted(job.schedules), Crons(cands));
    InsertAll(lines, MarksOf(MarkersFor(cfg, app, job, cands, matched)))
  }

  /** The file after `Adopt`. */
  function AdoptContent(cfg: Config, content: string, app: string, job: NormalizedJob, dryRun: bool): string {
    var lines := ParseLines(content);
    if Answer(cfg, lines, app, job, dryRun).adopted then Serialize(AdoptedLines(cfg, lines, app, job)) else content
  }

  method TranslateSchedules(schedules: seq<string>) returns (wanted: seq<string>, bad: nat)
    ensures bad == FirstUntranslatable(schedules, 0)
    ensures bad == |schedules| ==> wanted == Wanted(schedules)
  {
    hide Translate;
    wanted, bad := [], 0;
    while bad < |schedules|
      invariant 0 <= bad <= |schedules| && |wanted| == bad
      invariant FirstUntranslatable(schedules, 0) == FirstUntranslatable(schedules, bad)
      invariant forall w :: 0 <= w < bad ==> Translate(schedules[w]) == Some(wanted[w])
    {
      var t := Translate(schedules[bad]);
      if t.None? {
        return;
      }
      wanted := wanted + [t.value];
      bad := bad + 1;
    }
  }

  method FindCandidates(lines: seq<string>, tail: string) returns (cands: seq<Candidate>)
    ensures cands == Candidates(lines, tail)
  {
    hide MatchOwner, SplitCommand, TrimSpace;
    cands := [];
    var i := 0;
    while i < |lines|
      invariant 0 <= i <= |lines|
      invariant cands == CandidatesUpTo(lines, tail, i)
    {
      var stripped := TrimSpace(lines[i]);
      if stripped == "" || stripped[0] == '#' {
      } else if i + 1 < |lines| && IsMarker(lines[i + 1]) {
      } else {
        var c := SplitScheduleAndCommand(stripped);
        if c.Some? && c.value.tail == tail {
          cands := cands + [Candidate(i, c.value.cron)];
        }
      }
      i := i + 1;
    }
  }

  method CountManaged(entries: seq<ManagedEntry>, app: string, job: string) returns (count: nat)
    ensures count == ManagedCount(entries, app, job)
  {
    count := 0;
    var i := 0;
    while i < |entries|
      invariant 0 <= i <= |entries|
      invariant count == ManagedCount(entries[..i], app, job)
    {
      assert entries[..i + 1][..i] == entries[..i];
      if entries[i].app == app && entries[i].job == job {
        count := count + 1;
      }
      i := i + 1;
    }
    assert entries[..i] == entries;
  }

  /** The divergence report. */
  method Diverging(cands: seq<Candidate>, matched: array<int>, consumed: array<bool>) returns (report: seq<Divergence>)
    requires consumed.Length == |cands|
    requires forall c :: 0 <= c < |cands| ==> (consumed[c] <==> c in Taken(matched[..]))
    ensures report == Unmatched(matched[..]) + Extras(cands, Taken(matched[..]))
  {
    hide Taken;
    report := [];
    var w := 0;
    while w < matched.Length
      invariant 0 <= w <= matched.Length
      invariant report == Unmatched(matched[..w])
    {
      assert matched[..w + 1][..w] == matched[..w];
      if matched[w] < 0 {
        report := report + [NoCandidate(w)];
      }
      w := w + 1;
    }
    assert matched[..w] == matched[..];
    var c := 0;
    while c < |cands|
      invariant 0 <= c <= |cands|
      invariant report == Unmatched(matched[..]) + Extras(cands[..c], Taken(matched[..]))
    {
      assert cands[..c + 1][..c] == cands[..c];
      if !consumed[c] {
        report := report + [ExtraLine(cands[c].line + 1)];
      }
      c := c + 1;
    }
    assert cands[..c] == cands;
  }

  lemma {:induction false} UnmatchedEmpty(matched: seq<int>)
    ensures Unmatched(matched) == [] <==> forall w :: 0 <= w < |matched| ==> matched[w] >= 0
  {
    if matched != [] {
      var n := |matched| - 1;
      UnmatchedEmpty(matched[..n]);
      assert forall w :: 0 <= w < n ==> matched[..n][w] == matched[w];
    }
  }

  lemma {:induction false} ExtrasEmpty(cands: seq<Candidate>, taken: set<int>)
    ensures Extras(cands, taken) == [] <==> forall c :: 0 <= c < |cands| ==> c in taken
  {
    if cands != [] {
      ExtrasEmpty(cands[..|cands| - 1], taken);
    }
  }

  lemma ReportEmpty(matched: seq<int>, cands: seq<Candidate>)
    ensures Unmatched(matched) + Extras(cands, Taken(matched)) == [] <==> Complete(matched, |cands|)
  {
    hide Taken;
    UnmatchedEmpty(matched);
    ExtrasEmpty(cands, Taken(matched));
  }

  method BuildEntries(cfg: Config, lines: seq<string>, app: string, job: NormalizedJob, cands: seq<Candidate>,
      matched: array<int>)
    returns (entries: seq<ManagedEntry>)
    requires Matches(matched[..], cands, matched.Length)
    requires forall c :: 0 <= c < |cands| ==> cands[c].line < |lines|
    ensures entries == AdoptedEntries(cfg, lines, app, job, cands, matched[..], matched.Length)
  {
    entries := [];
    var w := 0;
    while w < matched.Length
      invariant 0 <= w <= matched.Length
      invariant entries == AdoptedEntries(cfg, lines, app, job, cands, matched[..], w)
    {
      entries := entries + [ManagedEntry(app, job.name, cfg.hash(job, w), w, lines[cands[matched[w]].line])];
      w := w + 1;
    }
  }

  method BuildInsertions(cfg: Config, app: string, job: NormalizedJob, cands: seq<Candidate>, matched: array<int>)
    returns (ins: array<Insertion>)
    requires Matches(matched[..], cands, matched.Length)
    ensures fresh(ins) && ins[..] == MarkersFor(cfg, app, job, cands, matched[..])
  {
    hide RenderMarker;
    ins := new Insertion[matched.Length](_ => Insertion(0, ""));
    var w := 0;
    while w < matched.Length
      invariant 0 <= w <= matched.Length
      invariant forall v :: 0 <= v < w ==> ins[v] == InsertionFor(cfg, app, job, cands[matched[v]].line, v)
    {
      ins[w] := Insertion(cands[matched[w]].line, RenderMarker(app, job.name, cfg.hash(job, w), w));
      w := w + 1;
    }
  }

  /** The positions are pairwise distinct, because no candidate is matched twice. */
  lemma MarkersDistinct(cfg: Config, app: string, job: NormalizedJob, lines: seq<string>, tail: string,
      wanted: seq<string>)
    requires var cands := Candidates(lines, tail); Matches(Greedy(wanted, Crons(cands)), cands, |wanted|)
    ensures var cands := Candidates(lines, tail);
            var ins := MarkersFor(cfg, app, job, cands, Greedy(wanted, Crons(cands)));
            DistinctPositions(ins) && forall k :: 0 <= k < |ins| ==> ins[k].after < |lines|
  {
    hide RenderMarker, CandidateAt;
  }

  /** `Adopt`.  No answer means an invalid name or a failing file operation. */
  method Adopt(file: CrontabFile, app: string, job: NormalizedJob, dryRun: bool) returns (reply: Option<AdoptResult>)
    modifies file`content
    ensures !IsName(app) || !IsName(job.name) ==> reply == None
    ensures reply.Some? ==> reply.value == Answer(file.config, ParseLines(old(file.content)), app, job, dryRun)
    ensures file.content ==
            if reply.Some? then AdoptContent(file.config, old(file.content), app, job, dryRun) else old(file.content)
  {
    hide IsName, Complete, Taken, Greedy, AdoptedEntries, RenderMarker, CandidatesUpTo, ParseLines, ListEntries,
        Serialize,
      InsertAll, MarksOf, Unmatched, Extras, Wanted, FirstUntranslatable, Translate, ExpectedTail, ManagedCount, Crons,
      DistinctPositions, IsMarker, Invokes;
    if !IsName(app) || !IsName(job.name) {
      return None;
    }
    var cfg := file.config;
    var lines := ParseLines(file.content);
    var wanted, bad := TranslateSchedules(job.schedules);
    if bad < |job.schedules| {
      return Some(AdoptResult(false, false, false, true, [Untranslatable(bad)], []));
    }
    var tail := ExpectedTail(cfg.triggerBin, app, job.name);
    var cands := FindCandidates(lines, tail);
    var managed := file.List();
    var managedForJob := CountManaged(managed, app, job.name);
    if managedForJob == |wanted| && |cands| == 0 {
      return Some(AdoptResult(false, false, true, false, [], []));
    }
    var matched, consumed := MatchGreedy(wanted, Crons(cands));
    var divergences := Diverging(cands, matched, consumed);
    ReportEmpty(matched[..], cands);
    if |divergences| > 0 {
      return Some(AdoptResult(|cands| > 0, false, false, true, divergences, []));
    }
    CompleteMatches(wanted, cands);
    var entries := BuildEntries(cfg, lines, app, job, cands, matched);
    if dryRun {
      return Some(AdoptResult(true, false, false, false, [], entries));
    }
    var ins := BuildInsertions(cfg, app, job, cands, matched);
    MarkersDistinct(cfg, app, job, lines, tail, wanted);
    var updated := InsertMarkers(lines, ins);
    var outcome := file.Rewrite(updated);
    if outcome != Done {
      return None;
    }
    reply := Some(AdoptResult(true, true, false, false, [], entries));
  }

  lemma CompleteMatches(wanted: seq<string>, cands: seq<Candidate>)
    ensures var matched := Greedy(wanted, Crons(cands));
            Complete(matched, |cands|) ==> Matches(matched, cands, |wanted|)
  {}
}

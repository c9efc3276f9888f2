/** Runs of any length of the four operations that write a crontab file. */
module CrontabRuns {
  import opened Wrappers
  import opened Sequences
  import opened Text
  import opened NormalizedManifests
  import opened OwnerLine
  import opened CrontabLines
  import opened Cron
  import opened Crontab
  import opened Matching
  import opened Insertions
  import opened Reconcile
  import opened Convergence
  import opened Adoption
  import opened AdoptedFiles

  // ---- One step -----------------------------------------------------------------------------------

  /** One call of the backend that did its work; a call that fails writes nothing and is no step. */
  datatype Step =
    | Edited(edit: Edit)
    | AdoptCalled(app: string, job: NormalizedJob, dryRun: bool)

  predicate GoodStep(step: Step) {
    match step
    case Edited(e) => GoodEdit(e)
    case AdoptCalled(app, job, _) => IsName(app) && IsName(job.name) && |job.schedules| <= MAX_SCHEDULES_PER_JOB
  }

  function StepContent(cfg: Config, content: string, step: Step): string {
    match step
    case Edited(e) => EditContent(cfg, content, e)
    case AdoptCalled(app, job, dryRun) => AdoptContent(cfg, content, app, job, dryRun)
  }

  /** The commands whose lines a step may take under management. */
  function StepTails(cfg: Config, step: Step): set<string> {
    match step
    case Edited(_) => {}
    case AdoptCalled(app, job, _) => {ExpectedTail(cfg.triggerBin, app, job.name)}
  }

  predicate Subsequence(a: seq<string>, b: seq<string>)
    decreases |b|
  {
    a == [] || (b != [] && ((a[|a| - 1] == b[|b| - 1] && Subsequence(a[..|a| - 1], b[..|b| - 1]))
        || Subsequence(a, b[..|b| - 1])))
  }

  lemma {:induction false} SubsequenceSelf(a: seq<string>)
    ensures Subsequence(a, a)
  {
    if a != [] {
      SubsequenceSelf(a[..|a| - 1]);
    }
  }

  lemma {:induction false} SubsequenceTransitive(a: seq<string>, b: seq<string>, c: seq<string>)
    requires Subsequence(a, b) && Subsequence(b, c)
    ensures Subsequence(a, c)
    decreases |b| + |c|
  {
    if a != [] {
      if Subsequence(b, c[..|c| - 1]) {
        SubsequenceTransitive(a, b, c[..|c| - 1]);
      } else if Subsequence(a, b[..|b| - 1]) {
        SubsequenceTransitive(a, b[..|b| - 1], c[..|c| - 1]);
      } else {
        SubsequenceTransitive(a[..|a| - 1], b[..|b| - 1], c[..|c| - 1]);
      }
    }
  }

  lemma {:induction false} UninvokingSubsequence(lines: seq<string>, tails: set<string>)
    ensures Subsequence(Uninvoking(lines, tails), lines)
  {
    hide Invokes;
    if lines != [] {
      var front, last := lines[..|lines| - 1], lines[|lines| - 1];
      UninvokingSubsequence(front, tails);
      FrontAndLast(lines);
      UninvokingNext(front, last, tails);
      ConcatEmpty(Uninvoking(front, tails));
      AppendFront(Uninvoking(front, tails), last);
    }
  }

  predicate InvokesAny(line: string, tails: set<string>) { exists tail | tail in tails :: Invokes(line, tail).Some? }

  lemma UninvokingNext(lines: seq<string>, line: string, tails: set<string>)
    ensures Uninvoking(lines + [line], tails) == Uninvoking(lines, tails) + if InvokesAny(line, tails) then []
        else [line]
  {
    hide Invokes;
    AppendFront(lines, line);
  }

  lemma {:induction false} UninvokingWithin(lines: seq<string>, fewer: set<string>, tails: set<string>)
    requires fewer <= tails
    ensures Uninvoking(Uninvoking(lines, fewer), tails) == Uninvoking(lines, tails)
  {
    hide Invokes;
    if lines != [] {
      var front, last := lines[..|lines| - 1], lines[|lines| - 1];
      UninvokingWithin(front, fewer, tails);
      FrontAndLast(lines);
      UninvokingNext(front, last, fewer);
      UninvokingNext(front, last, tails);
      UninvokingNext(Uninvoking(front, fewer), last, tails);
      ConcatEmpty(Uninvoking(front, fewer));
    }
  }

  lemma {:induction false} UninvokingNothing(lines: seq<string>)
    ensures Uninvoking(lines, {}) == lines
  {
    if lines != [] {
      UninvokingNothing(lines[..|lines| - 1]);
      FrontAndLast(lines);
    }
  }

  lemma {:induction false} InsertClean(lines: seq<string>, marks: map<nat, string>, n: nat)
    requires n <= |lines| && Clean(lines) && forall i :: i in marks ==> CleanLine(marks[i])
    ensures Clean(InsertUpTo(lines, marks, n))
  {
    hide CleanLine;
    if n > 0 {
      InsertClean(lines, marks, n - 1);
    }
  }

  lemma AdoptedClean(cfg: Config, lines: seq<string>, app: string, job: NormalizedJob)
    requires IsName(app) && IsName(job.name) && |job.schedules| <= MAX_SCHEDULES_PER_JOB && Clean(lines)
    requires Answer(cfg, lines, app, job, false).adopted
    ensures Clean(AdoptedLines(cfg, lines, app, job))
  {
    hide CleanLine, IsName, Answer, AdoptedLines, MarksOf, RenderMarker, Complete, Candidates;
    var cands, matched := AdoptionOf(cfg, lines, app, job);
    ScheduleMarks(cfg, lines, app, job, cands, matched);
    var marks := MarksOf(MarkersFor(cfg, app, job, cands, matched));
    forall i | i in marks ensures CleanLine(marks[i]) {
      var w: nat :| MarkOf(cfg, app, job, cands, matched, i, w, marks[i]);
      RenderedLinesClean("", "", app, job.name, cfg.hash(job, w), w);
    }
    InsertClean(lines, marks, |lines|);
  }

  /** Every operation keeps the file good, keeps the order of the lines outside owned blocks and adds none to them,
      and takes none of them away that does not invoke the job being adopted. */
  lemma StepKeepsFile(cfg: Config, content: string, step: Step)
    requires GoodConfig(cfg) && GoodFile(content) && GoodStep(step)
    ensures var before, after := Foreign(ParseLines(content)), Foreign(ParseLines(StepContent(cfg, content, step)));
            && GoodFile(StepContent(cfg, content, step))
            && (after == before || after == Uninvoking(before, StepTails(cfg, step)))
  {
    hide ParseLines, Foreign, GoodConfig, FitEdit, OneLined, WellFormed, Clean, IsName, Answer, AdoptedLines, Keeps,
        EditLines, Serialize;
    var lines := ParseLines(content);
    match step
    case Edited(e) =>
      EditKeepsFile(cfg, lines, e);
      EditClean(cfg, lines, e);
      ReadBack(EditLines(cfg, lines, e));
    case AdoptCalled(app, job, dryRun) =>
      if Answer(cfg, lines, app, job, dryRun).adopted {
        AdoptedNotDry(cfg, lines, app, job, dryRun);
        AdoptKeepsFile(cfg, lines, app, job);
        AdoptedClean(cfg, lines, app, job);
        KeepsMeans(AdoptedLines(cfg, lines, app, job), lines, ExpectedTail(cfg.triggerBin, app, job.name), app,
            job.name);
        ReadBack(AdoptedLines(cfg, lines, app, job));
      }
  }

  lemma AdoptedNotDry(cfg: Config, lines: seq<string>, app: string, job: NormalizedJob, dryRun: bool)
    requires Answer(cfg, lines, app, job, dryRun).adopted
    ensures !dryRun && Answer(cfg, lines, app, job, false).adopted
  {}

  lemma KeepsMeans(after: seq<string>, before: seq<string>, tail: string, app: string, job: string)
    requires Keeps(after, before, tail, app, job)
    ensures WellFormed(after) && Foreign(after) == Uninvoking(Foreign(before), {tail})
  {}

  // ---- Whole runs ---------------------------------------------------------------------------------

  function RunSteps(cfg: Config, content: string, steps: seq<Step>): string {
    if steps == [] then content else StepContent(cfg, RunSteps(cfg, content, steps[..|steps| - 1]), steps[|steps| - 1])
  }

  function RunTails(cfg: Config, steps: seq<Step>): set<string> {
    if steps == [] then {} else RunTails(cfg, steps[..|steps| - 1]) + StepTails(cfg, steps[|steps| - 1])
  }

  /** Over every run of creates, updates, deletes and adoptions: every owner line stays behind a line that is none,
      the lines outside owned blocks stay in order with nothing added, and those that do not invoke an adopted job
      are all kept. */
  lemma {:induction false} RunKeepsFile(cfg: Config, content: string, steps: seq<Step>, tails: set<string>)
    requires GoodConfig(cfg) && GoodFile(content) && forall i :: 0 <= i < |steps| ==> GoodStep(steps[i])
    requires RunTails(cfg, steps) <= tails
    ensures var before, after := Foreign(ParseLines(content)), Foreign(ParseLines(RunSteps(cfg, content, steps)));
            && GoodFile(RunSteps(cfg, content, steps))
            && Subsequence(after, before)
            && Uninvoking(after, tails) == Uninvoking(before, tails)
  {
    hide GoodConfig, GoodFile, GoodStep, StepContent, StepTails, ParseLines, Foreign, Uninvoking, Subsequence;
    var before := Foreign(ParseLines(content));
    if steps == [] {
      SubsequenceSelf(before);
    } else {
      var front, step := steps[..|steps| - 1], steps[|steps| - 1];
      var middle := RunSteps(cfg, content, front);
      RunKeepsFile(cfg, content, front, tails);
      StepKeepsFile(cfg, middle, step);
      var mid := Foreign(ParseLines(middle));
      SubsequenceSelf(mid);
      UninvokingSubsequence(mid, StepTails(cfg, step));
      UninvokingWithin(mid, StepTails(cfg, step), tails);
      SubsequenceTransitive(Foreign(ParseLines(RunSteps(cfg, content, steps))), mid, before);
    }
  }

  /** Without adoptions, the lines outside owned blocks do not change at all. */
  lemma EditsKeepForeign(cfg: Config, content: string, steps: seq<Step>)
    requires GoodConfig(cfg) && GoodFile(content)
    requires forall i :: 0 <= i < |steps| ==> GoodStep(steps[i]) && steps[i].Edited?
    ensures Foreign(ParseLines(RunSteps(cfg, content, steps))) == Foreign(ParseLines(content))
  {
    hide GoodConfig, GoodFile, GoodStep, ParseLines, Foreign;
    NoTails(cfg, steps);
    RunKeepsFile(cfg, content, steps, {});
    UninvokingNothing(Foreign(ParseLines(content)));
    UninvokingNothing(Foreign(ParseLines(RunSteps(cfg, content, steps))));
  }

  lemma {:induction false} NoTails(cfg: Config, steps: seq<Step>)
    requires forall i :: 0 <= i < |steps| ==> steps[i].Edited?
    ensures RunTails(cfg, steps) == {}
  {
    if steps != [] {
      NoTails(cfg, steps[..|steps| - 1]);
    }
  }
}

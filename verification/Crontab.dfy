/** The crontab backend: rendering a job, and the three edits that rewrite the file (`crontab/render.go`,
    `crontab/backend.go`). */
module Crontab {
  import opened Wrappers
  import opened Sequences
  import opened Text
  import opened NormalizedManifests
  import opened OwnerLine
  import opened CrontabLines
  import opened Cron

  datatype Config = Config(triggerBin: string, hash: Hasher)

  // ---- Rendering ----------------------------------------------------------------------------------

  function RenderBlock(cfg: Config, app: string, job: NormalizedJob, i: nat, cron: string): Item {
    var hash := cfg.hash(job, i);
    Block(RenderSchedule(cron, cfg.triggerBin, app, job.name), RenderMarker(app, job.name, hash, i),
          Owner(app, job.name, hash, i))
  }

  /** The block of one schedule; one that does not translate is skipped without a word. */
  function RenderOne(cfg: Config, app: string, job: NormalizedJob, i: nat): seq<Item>
    requires i < |job.schedules|
  {
    match Translate(job.schedules[i])
    case None => []
    case Some(cron) => [RenderBlock(cfg, app, job, i, cron)]
  }

  function RenderUpTo(cfg: Config, app: string, job: NormalizedJob, n: nat): seq<Item>
    requires n <= |job.schedules|
  {
    if n == 0 then [] else RenderUpTo(cfg, app, job, n - 1) + RenderOne(cfg, app, job, n - 1)
  }

  function RenderItems(cfg: Config, app: string, job: NormalizedJob): seq<Item> {
    RenderUpTo(cfg, app, job, |job.schedules|)
  }

  function RenderLines(cfg: Config, app: string, job: NormalizedJob): seq<string> {
    Flatten(RenderItems(cfg, app, job))
  }

  lemma RenderNext(cfg: Config, app: string, job: NormalizedJob, n: nat)
    requires n < |job.schedules|
    ensures RenderUpTo(cfg, app, job, n + 1) == RenderUpTo(cfg, app, job, n) + RenderOne(cfg, app, job, n)
    ensures RenderUpTo(cfg, app, job, 0) == []
  {
    hide RenderOne;
  }

  /** `render`. */
  method Render(cfg: Config, app: string, job: NormalizedJob) returns (out: seq<string>)
    ensures out == RenderLines(cfg, app, job)
  {
    hide MatchOwner, RenderMarker, RenderSchedule, Translate, RenderUpTo, RenderOne, Flatten, IsHash;
    NothingToRender(cfg, app, job);
    out := [];
    var i := 0;
    while i < |job.schedules|
      invariant 0 <= i <= |job.schedules|
      invariant out == Flatten(RenderUpTo(cfg, app, job, i))
    {
      var translated := Translate(job.schedules[i]);
      if translated.Some? {
        var hash := cfg.hash(job, i);
        var schedule := RenderSchedule(translated.value, cfg.triggerBin, app, job.name);
        out := out + [schedule, RenderMarker(app, job.name, hash, i)];
      }
      RenderNext(cfg, app, job, i);
      FlattenConcat(RenderUpTo(cfg, app, job, i), RenderOne(cfg, app, job, i));
      RenderOneLines(cfg, app, job, i);
      ConcatEmpty(Flatten(RenderUpTo(cfg, app, job, i)));
      i := i + 1;
    }
  }

  lemma NothingToRender(cfg: Config, app: string, job: NormalizedJob)
    ensures RenderUpTo(cfg, app, job, 0) == [] && Flatten([]) == []
  {}

  lemma RenderOneLines(cfg: Config, app: string, job: NormalizedJob, i: nat)
    requires i < |job.schedules|
    ensures var t := Translate(job.schedules[i]);
            Flatten(RenderOne(cfg, app, job, i)) ==
            if t.None? then []
            else [RenderSchedule(t.value, cfg.triggerBin, app, job.name),
                RenderMarker(app, job.name, cfg.hash(job, i), i)]
  {
    hide MatchOwner, RenderMarker, RenderSchedule, Translate;
    var t := Translate(job.schedules[i]);
    if t.Some? {
      FlattenAppend([], RenderBlock(cfg, app, job, i, t.value));
      ConcatEmpty([RenderBlock(cfg, app, job, i, t.value)]);
    }
  }

  /** A job that validation lets through has a proper name and not too many schedules. */
  predicate FitJob(job: NormalizedJob) { IsName(job.name) && |job.schedules| <= MAX_SCHEDULES_PER_JOB }

  predicate IsOneLine(s: string) { '\n' !in s }

  /** Whatever of the job is rendered stays on its line. */
  predicate OneLined(job: NormalizedJob) {
    forall i :: 0 <= i < |job.schedules| && Translate(job.schedules[i]).Some? ==>
      IsOneLine(Translate(job.schedules[i]).value)
  }

  /** What a validated manifest promises of a job, and what convergence needs besides: every schedule translates, and
      none holds a newline. */
  predicate GoodJob(job: NormalizedJob) {
    && IsName(job.name)
    && 1 <= |job.schedules| <= MAX_SCHEDULES_PER_JOB
    && forall i :: 0 <= i < |job.schedules| ==> Translate(job.schedules[i]).Some? && '\n' !in job.schedules[i]
  }

  lemma TrimSubset(s: string, c: char)
    requires c !in s
    ensures c !in TrimSpace(s)
  {
    TrimLeftShape(s);
    TrimRightShape(TrimLeft(s));
  }

  /** A schedule without a newline translates to a text without a newline. */
  lemma TranslateKeepsLine(s: string)
    requires '\n' !in s && Translate(s).Some?
    ensures IsOneLine(Translate(s).value)
  {
    TrimSubset(s, '\n');
  }

  lemma GoodJobFits(job: NormalizedJob)
    requires GoodJob(job)
    ensures FitJob(job) && OneLined(job)
  {
    hide IsName, Translate, IsOneLine;
    forall i | 0 <= i < |job.schedules| ensures IsOneLine(Translate(job.schedules[i]).value) {
      TranslateKeepsLine(job.schedules[i]);
    }
  }

  lemma RenderBlockValid(cfg: Config, app: string, job: NormalizedJob, i: nat, cron: string)
    requires IsName(app) && IsName(job.name) && i <= MAX_INT64
    ensures ValidItem(RenderBlock(cfg, app, job, i, cron))
  {
    hide MatchOwner, RenderMarker, RenderSchedule;
    var hash := cfg.hash(job, i);
    MarkerRoundTrip(app, job.name, hash, i);
    ScheduleIsNotMarker(cron, cfg.triggerBin, app, job.name);
  }

  lemma {:induction false} RenderValid(cfg: Config, app: string, job: NormalizedJob, n: nat)
    requires IsName(app) && IsName(job.name) && n <= |job.schedules| <= MAX_SCHEDULES_PER_JOB
    ensures ValidItems(RenderUpTo(cfg, app, job, n))
  {
    hide MatchOwner, RenderMarker, RenderSchedule, Translate, RenderBlock;
    if n > 0 {
      RenderValid(cfg, app, job, n - 1);
      var t := Translate(job.schedules[n - 1]);
      if t.Some? {
        RenderBlockValid(cfg, app, job, n - 1, t.value);
      }
    }
  }

  lemma RenderOneOwns(cfg: Config, app: string, job: NormalizedJob, i: nat)
    requires i < |job.schedules|
    ensures OwnedJobs(RenderOne(cfg, app, job, i), app) == if Translate(job.schedules[i]).Some? then {job.name} else {}
    ensures Plains(RenderOne(cfg, app, job, i)) == []
  {
    hide RenderMarker, RenderSchedule, Translate;
    if Translate(job.schedules[i]).Some? {
      assert RenderOne(cfg, app, job, i)[..0] == [];
    }
  }

  /** One of the first n schedules translates. */
  predicate SomeTranslates(job: NormalizedJob, n: nat)
    requires n <= |job.schedules|
  {
    exists i :: 0 <= i < n && Translate(job.schedules[i]).Some?
  }

  /** A rendered job brings no line but those of its own blocks, and owns some exactly when a schedule translates. */
  lemma {:induction false} RenderOwns(cfg: Config, app: string, job: NormalizedJob, n: nat)
    requires n <= |job.schedules|
    ensures OwnedJobs(RenderUpTo(cfg, app, job, n), app) == if SomeTranslates(job, n) then {job.name} else {}
    ensures Plains(RenderUpTo(cfg, app, job, n)) == []
  {
    hide RenderOne, Translate;
    if n > 0 {
      RenderOwns(cfg, app, job, n - 1);
      RenderOneOwns(cfg, app, job, n - 1);
      OwnedJobsConcat(RenderUpTo(cfg, app, job, n - 1), RenderOne(cfg, app, job, n - 1), app);
      PlainsConcat(RenderUpTo(cfg, app, job, n - 1), RenderOne(cfg, app, job, n - 1));
    }
  }

  // ---- Edits --------------------------------------------------------------------------------------

  datatype Edit =
    | CreateJob(app: string, job: NormalizedJob)
    | UpdateJob(app: string, job: NormalizedJob)
    | DeleteJob(app: string, name: string)

  function NameOf(e: Edit): string { if e.DeleteJob? then e.name else e.job.name }

  /** The identifier checks each backend call makes before it touches the file. */
  predicate Accepted(e: Edit) { IsName(e.app) && (e.CreateJob? ==> IsName(e.job.name)) }

  /** The lines an edit leaves. */
  function EditLines(cfg: Config, lines: seq<string>, e: Edit): seq<string> {
    match e
    case CreateJob(app, job) => lines + RenderLines(cfg, app, job)
    case UpdateJob(app, job) => Strip(lines, app, job.name) + RenderLines(cfg, app, job)
    case DeleteJob(app, name) => Strip(lines, app, name)
  }

  /** The same on items. */
  function EditItems(cfg: Config, items: seq<Item>, e: Edit): seq<Item> {
    match e
    case CreateJob(app, job) => items + RenderItems(cfg, app, job)
    case UpdateJob(app, job) => Without(items, app, {job.name}) + RenderItems(cfg, app, job)
    case DeleteJob(app, name) => Without(items, app, {name})
  }

  function EditContent(cfg: Config, content: string, e: Edit): string {
    Serialize(EditLines(cfg, ParseLines(content), e))
  }

  /** An edit of a validated manifest. */
  predicate FitEdit(e: Edit) { IsName(e.app) && (!e.DeleteJob? ==> FitJob(e.job)) }

  /** One that also writes no line with a newline in it. */
  predicate GoodEdit(e: Edit) { FitEdit(e) && (!e.DeleteJob? ==> OneLined(e.job)) }

  lemma EditFlatten(cfg: Config, items: seq<Item>, e: Edit)
    requires ValidItems(items) && FitEdit(e)
    ensures ValidItems(EditItems(cfg, items, e))
    ensures EditLines(cfg, Flatten(items), e) == Flatten(EditItems(cfg, items, e))
  {
    hide MatchOwner, RenderUpTo, Translate;
    if !e.DeleteJob? {
      RenderValid(cfg, e.app, e.job, |e.job.schedules|);
    }
    if !e.CreateJob? {
      var name := if e.DeleteJob? then e.name else e.job.name;
      StripFlatten(items, e.app, name);
      WithoutValid(items, e.app, {name});
    }
    if e.CreateJob? {
      FlattenConcat(items, RenderItems(cfg, e.app, e.job));
    } else if e.UpdateJob? {
      FlattenConcat(Without(items, e.app, {e.job.name}), RenderItems(cfg, e.app, e.job));
    }
  }

  /** Every edit keeps a file well-formed, and keeps the lines outside owned blocks as they are and in order. */
  lemma EditKeepsFile(cfg: Config, lines: seq<string>, e: Edit)
    requires WellFormed(lines) && FitEdit(e)
    ensures WellFormed(EditLines(cfg, lines, e))
    ensures Foreign(EditLines(cfg, lines, e)) == Foreign(lines)
  {
    hide MatchOwner, RenderUpTo, Translate, WellFormed;
    var items := Items(lines);
    WellFormedIffItems(lines);
    FlattenItems(lines);
    EditFlatten(cfg, items, e);
    FlattenWellFormed(EditItems(cfg, items, e));
    ForeignFlatten(items);
    ForeignFlatten(EditItems(cfg, items, e));
    EditPlains(cfg, items, e);
  }

  lemma EditPlains(cfg: Config, items: seq<Item>, e: Edit)
    ensures Plains(EditItems(cfg, items, e)) == Plains(items)
  {
    hide MatchOwner, RenderUpTo, Translate;
    if !e.DeleteJob? {
      RenderOwns(cfg, e.app, e.job, |e.job.schedules|);
      var kept := if e.CreateJob? then items else Without(items, e.app, {e.job.name});
      PlainsConcat(kept, RenderItems(cfg, e.app, e.job));
    }
    if !e.CreateJob? {
      WithoutPlains(items, e.app, {if e.DeleteJob? then e.name else e.job.name});
    }
  }

  lemma {:induction false} PlainsConcat(a: seq<Item>, b: seq<Item>)
    ensures Plains(a + b) == Plains(a) + Plains(b)
  {
    if b == [] {
      ConcatEmpty(a);
    } else {
      PlainsConcat(a, b[..|b| - 1]);
      ConcatFront(a, b);
    }
  }

  lemma DoubleMarker(foreign: string, schedule: string, marker: string)
    requires !IsMarker(foreign) && !IsMarker(schedule) && IsMarker(marker)
    ensures !WellFormed([foreign, schedule, marker, marker]) && Foreign([foreign, schedule, marker, marker]) ==
        [foreign]
  {
    hide MatchOwner;
    var lines := [foreign, schedule, marker, marker];
    assert IsMarker(lines[3]) && IsMarker(lines[2]);
    assert ForeignUpTo(lines, 1) == ForeignUpTo(lines, 0) + [foreign];
    assert ForeignUpTo(lines, 2) == ForeignUpTo(lines, 1) + [];
    assert ForeignUpTo(lines, 3) == ForeignUpTo(lines, 2) + [];
    assert ForeignUpTo(lines, 4) == ForeignUpTo(lines, 3) + [];
  }

  lemma DoubleStrip(foreign: string, schedule: string, marker: string, app: string, job: string)
    requires !OwnedBy(foreign, app, job) && !OwnedBy(schedule, app, job) && OwnedBy(marker, app, job)
    ensures Strip([foreign, schedule, marker, marker], app, job) == []
  {
    hide OwnedBy, Strip;
    NothingStripped(app, job);
    StripAppend([], foreign, app, job);
    StripAppend([foreign], schedule, app, job);
    StripAppend([foreign, schedule], marker, app, job);
    StripAppend([foreign, schedule, marker], marker, app, job);
    assert [foreign, schedule, marker] + [marker] == [foreign, schedule, marker, marker];
    assert [foreign, schedule] + [marker] == [foreign, schedule, marker];
    assert [foreign] + [schedule] == [foreign, schedule] && [] + [foreign] == [foreign];
  }

  lemma NothingStripped(app: string, job: string)
    ensures Strip([], app, job) == []
  {}

  /** Without the invariant `stripOwnedFor` removes foreign lines: after a second owner line for one schedule line it
      takes the line above as well. */
  lemma StripEatsForeignLine(foreign: string, schedule: string, marker: string, app: string, job: string)
    requires !IsMarker(foreign) && !IsMarker(schedule) && OwnedBy(marker, app, job)
    ensures var lines := [foreign, schedule, marker, marker];
            !WellFormed(lines) && Foreign(lines) == [foreign] && Strip(lines, app, job) == []
  {
    hide MatchOwner, WellFormed, Foreign, Strip;
    DoubleMarker(foreign, schedule, marker);
    DoubleStrip(foreign, schedule, marker, app, job);
  }

  // ---- The file -----------------------------------------------------------------------------------

  datatype Outcome = Done | Rejected | IoError

  /** A crontab file and the backend that edits it. */
  class CrontabFile {
    const config: Config
    var content: string

    constructor (config: Config, content: string)
      ensures this.config == config && this.content == content
    {
      this.config := config;
      this.content := content;
    }

    /** `atomicWrite`.  The lines go to a temporary file, and any write may fail; until that file is renamed, the
        crontab is what it was, so that a crash at any point leaves all of it or nothing of it replaced. */
    method AtomicWrite(lines: seq<string>) returns (outcome: Outcome)
      modifies this`content
      ensures outcome == Done || outcome == IoError
      ensures content == if outcome == Done then Serialize(lines) else old(content)
    {
      var created: bool := *;
      if !created {
        return IoError;
      }
      var temp := "";
      var i := 0;
      while i < |lines|
        invariant 0 <= i <= |lines|
        invariant temp == Serialize(lines[..i]) && content == old(content)
      {
        var written: bool, ended: bool := *, *;
        if !written {
          return IoError;
        }
        temp := temp + lines[i];
        if !ended {
          return IoError;
        }
        temp := temp + "\n";
        assert lines[..i + 1] == lines[..i] + [lines[i]];
        SerializeAppend(lines[..i], lines[i]);
        i := i + 1;
      }
      assert lines[..i] == lines;
      var closed: bool, renamed: bool := *, *;
      if !closed || !renamed {
        return IoError;
      }
      content := temp;
      outcome := Done;
    }

    /** `rewrite`, once the lock is taken and the new lines are known. */
    method Rewrite(updated: seq<string>) returns (outcome: Outcome)
      modifies this`content
      ensures outcome == Done || outcome == IoError
      ensures content == if outcome == Done then Serialize(updated) else old(content)
    {
      var locked: bool := *;
      if !locked {
        return IoError;
      }
      outcome := AtomicWrite(updated);
    }

    /** `List`. */
    method List() returns (entries: seq<ManagedEntry>)
      ensures entries == ListEntries(ParseLines(content))
    {
      hide MatchOwner;
      var lines := ParseLines(content);
      entries := [];
      var i := 0;
      while i < |lines|
        invariant 0 <= i <= |lines|
        invariant entries == ListUpTo(lines, i)
      {
        var m := MatchOwner(lines[i]);
        if m.Some? && i != 0 {
          var o := m.value;
          entries := entries + [ManagedEntry(o.app, o.job, o.hash, o.idx, lines[i - 1])];
        }
        i := i + 1;
      }
    }

    method Create(app: string, job: NormalizedJob) returns (outcome: Outcome)
      modifies this`content
      ensures outcome == Rejected <==> !Accepted(CreateJob(app, job))
      ensures content == if outcome == Done then EditContent(config, old(content), CreateJob(app, job))
          else old(content)
    {
      if !IsName(app) || !IsName(job.name) {
        return Rejected;
      }
      var lines := ParseLines(content);
      var rendered := Render(config, app, job);
      outcome := Rewrite(lines + rendered);
    }

    method Update(app: string, job: NormalizedJob) returns (outcome: Outcome)
      modifies this`content
      ensures outcome == Rejected <==> !Accepted(UpdateJob(app, job))
      ensures content == if outcome == Done then EditContent(config, old(content), UpdateJob(app, job))
          else old(content)
    {
      if !IsName(app) {
        return Rejected;
      }
      var lines := ParseLines(content);
      var filtered := StripOwnedFor(lines, app, job.name);
      var rendered := Render(config, app, job);
      outcome := Rewrite(filtered + rendered);
    }

    method Delete(app: string, name: string) returns (outcome: Outcome)
      modifies this`content
      ensures outcome == Rejected <==> !Accepted(DeleteJob(app, name))
      ensures content == if outcome == Done then EditContent(config, old(content), DeleteJob(app, name))
          else old(content)
    {
      if !IsName(app) {
        return Rejected;
      }
      var lines := ParseLines(content);
      var filtered := StripOwnedFor(lines, app, name);
      outcome := Rewrite(filtered);
    }
  }
}

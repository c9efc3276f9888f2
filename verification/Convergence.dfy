/** What `apply` promises of the crontab file itself, byte for byte. */
module Convergence {
  import opened Wrappers
  import opened Sequences
  import opened Text
  import opened NormalizedManifests
  import opened OwnerLine
  import opened CrontabLines
  import opened Cron
  import opened Crontab
  import opened Reconcile
  import opened Converge
  import opened JobBlocks

  // ---- Lines that survive the round trip to disk --------------------------------------------------

  lemma {:induction false} StripClean(lines: seq<string>, app: string, job: string)
    requires Clean(lines)
    ensures Clean(Strip(lines, app, job))
  {
    hide OwnedBy, CleanLine;
    if lines != [] {
      StripClean(lines[..|lines| - 1], app, job);
    }
  }

  lemma RenderedLinesClean(cron: string, triggerBin: string, app: string, job: string, hash: string, idx: nat)
    requires '\n' !in cron && '\n' !in triggerBin && IsName(app) && IsName(job) && IsHash(hash)
    ensures CleanLine(RenderSchedule(cron, triggerBin, app, job)) && CleanLine(RenderMarker(app, job, hash, idx))
  {
    var s, m := RenderSchedule(cron, triggerBin, app, job), RenderMarker(app, job, hash, idx);
    assert s[|s| - 1] == job[|job| - 1];
    assert m[|m| - 1] == Digits(idx)[|Digits(idx)| - 1];
  }

  predicate GoodConfig(cfg: Config) { '\n' !in cfg.triggerBin }

  lemma RenderOneCleanExactly(cfg: Config, app: string, job: NormalizedJob, i: nat)
    requires GoodConfig(cfg) && IsName(app) && IsName(job.name) && i < |job.schedules|
    ensures Clean(Flatten(RenderOne(cfg, app, job, i))) <==>
            Translate(job.schedules[i]).Some? ==> IsOneLine(Translate(job.schedules[i]).value)
  {
    hide Translate, RenderMarker, IsName, MatchOwner;
    RenderOneLines(cfg, app, job, i);
    if Translate(job.schedules[i]).None? {
      return;
    }
    var cron := Translate(job.schedules[i]).value;
    var lines := Flatten(RenderOne(cfg, app, job, i));
    if '\n' !in cron {
      RenderedLinesClean(cron, cfg.triggerBin, app, job.name, cfg.hash(job, i), i);
    } else {
      CronInSchedule(cron, cfg.triggerBin, app, job.name, '\n');
      assert !CleanLine(lines[0]);
    }
  }

  lemma CronInSchedule(cron: string, triggerBin: string, app: string, job: string, c: char)
    requires c in cron
    ensures c in RenderSchedule(cron, triggerBin, app, job)
  {
    var i :| 0 <= i < |cron| && cron[i] == c;
    assert RenderSchedule(cron, triggerBin, app, job)[i] == c;
  }

  lemma CleanConcat(a: seq<string>, b: seq<string>)
    ensures Clean(a + b) <==> Clean(a) && Clean(b)
  {
    hide CleanLine;
    if Clean(a + b) {
      forall i | 0 <= i < |a| ensures CleanLine(a[i]) { assert (a + b)[i] == a[i]; }
      forall i | 0 <= i < |b| ensures CleanLine(b[i]) { assert (a + b)[|a| + i] == b[i]; }
    }
  }

  lemma NothingToClean(cfg: Config, app: string, job: NormalizedJob)
    ensures Clean(Flatten(RenderUpTo(cfg, app, job, 0)))
  {}

  lemma {:induction false} RenderCleanExactly(cfg: Config, app: string, job: NormalizedJob, n: nat)
    requires GoodConfig(cfg) && IsName(app) && IsName(job.name) && n <= |job.schedules|
    ensures Clean(Flatten(RenderUpTo(cfg, app, job, n))) <==>
            forall i :: 0 <= i < n && Translate(job.schedules[i]).Some? ==>
              IsOneLine(Translate(job.schedules[i]).value)
  {
    hide Translate, IsName, RenderOne, Clean, IsOneLine, Flatten;
    if n == 0 {
      NothingToClean(cfg, app, job);
    } else {
      RenderCleanExactly(cfg, app, job, n - 1);
      RenderOneCleanExactly(cfg, app, job, n - 1);
      FlattenConcat(RenderUpTo(cfg, app, job, n - 1), RenderOne(cfg, app, job, n - 1));
      CleanConcat(Flatten(RenderUpTo(cfg, app, job, n - 1)), Flatten(RenderOne(cfg, app, job, n - 1)));
    }
  }

  /** A file read after a create shows the lines that were written exactly when no schedule translates to a text with a
      newline in it.  Validation does not rule one out between two fields. */
  lemma CreateReadsBackExactly(cfg: Config, lines: seq<string>, app: string, job: NormalizedJob)
    requires GoodConfig(cfg) && Clean(lines) && IsName(app) && IsName(job.name)
    ensures var after := EditLines(cfg, lines, CreateJob(app, job));
            ParseLines(Serialize(after)) == after <==> OneLined(job)
  {
    hide Translate, IsName, Clean, ParseLines, Serialize, RenderUpTo, Flatten, IsOneLine;
    RenderCleanExactly(cfg, app, job, |job.schedules|);
    CleanConcat(lines, RenderLines(cfg, app, job));
    ReadBack(EditLines(cfg, lines, CreateJob(app, job)));
  }

  lemma EditClean(cfg: Config, lines: seq<string>, e: Edit)
    requires GoodConfig(cfg) && Clean(lines) && GoodEdit(e)
    ensures Clean(EditLines(cfg, lines, e))
  {
    hide RenderUpTo, CleanLine, IsName, Translate;
    if !e.DeleteJob? {
      RenderCleanExactly(cfg, e.app, e.job, |e.job.schedules|);
    }
    if !e.CreateJob? {
      StripClean(lines, e.app, if e.DeleteJob? then e.name else e.job.name);
    }
  }

  predicate GoodFile(content: string) { WellFormed(ParseLines(content)) && Clean(ParseLines(content)) }

  /** A file and the items it consists of. */
  ghost predicate Holds(content: string, items: seq<Item>) {
    ParseLines(content) == Flatten(items) && ValidItems(items) && Clean(Flatten(items))
  }

  lemma HoldsItems(content: string)
    requires GoodFile(content)
    ensures Holds(content, Items(ParseLines(content)))
  {
    hide MatchOwner, ParseLines, WellFormed;
    WellFormedIffItems(ParseLines(content));
    FlattenItems(ParseLines(content));
  }

  lemma HoldsGood(content: string, items: seq<Item>)
    requires Holds(content, items)
    ensures GoodFile(content)
    ensures ListEntries(ParseLines(content)) == Entries(items)
    ensures Foreign(ParseLines(content)) == Plains(items)
  {
    hide MatchOwner, ParseLines;
    FlattenWellFormed(items);
    ListFlatten(items);
    ForeignFlatten(items);
  }

  lemma EditHolds(cfg: Config, content: string, items: seq<Item>, e: Edit)
    requires GoodConfig(cfg) && Holds(content, items) && GoodEdit(e)
    ensures EditContent(cfg, content, e) == Serialize(Flatten(EditItems(cfg, items, e)))
    ensures Holds(EditContent(cfg, content, e), EditItems(cfg, items, e))
  {
    hide MatchOwner, ParseLines, FitEdit, OneLined, ValidItems, EditItems, EditLines;
    EditFlatten(cfg, items, e);
    EditClean(cfg, Flatten(items), e);
    ReadBack(Flatten(EditItems(cfg, items, e)));
  }

  ghost predicate GoodEdits(edits: seq<Edit>) { forall i :: 0 <= i < |edits| ==> GoodEdit(edits[i]) }

  /** Running edits on the file is running them on its items. */
  lemma {:induction false} RunHolds(cfg: Config, content: string, items: seq<Item>, edits: seq<Edit>)
    requires GoodConfig(cfg) && Holds(content, items) && GoodEdits(edits)
    ensures Holds(RunContent(cfg, content, edits), RunItems(cfg, items, edits))
    ensures edits != [] ==> RunContent(cfg, content, edits) == Serialize(Flatten(RunItems(cfg, items, edits)))
    decreases |edits|
  {
    hide Holds, GoodEdit, EditItems, EditContent;
    if edits != [] {
      EditHolds(cfg, content, items, edits[0]);
      RunHolds(cfg, EditContent(cfg, content, edits[0]), EditItems(cfg, items, edits[0]), edits[1..]);
      HeadOfSequence(edits);
      RunConcat(cfg, content, [edits[0]], edits[1..]);
      assert RunContent(cfg, content, [edits[0]]) == EditContent(cfg, content, edits[0]) by {
        assert [edits[0]][..0] == [];
      }
    }
  }

  // ---- Plans of a file ----------------------------------------------------------------------------

  /** `ops` is a plan `Compute` may return for the file and the manifest. */
  ghost predicate IsPlan(cfg: Config, content: string, m: NormalizedManifest, ops: seq<Op>) {
    var entries := ListEntries(ParseLines(content));
    exists deletes :: DeletesFor(entries, m, deletes) && ops == PlanOps(cfg.hash, entries, m, deletes)
  }

  lemma PlanEdits(cfg: Config, content: string, items: seq<Item>, m: NormalizedManifest, ops: seq<Op>)
    returns (deletes: seq<string>)
    requires Holds(content, items) && IsPlan(cfg, content, m, ops)
    ensures Deletable(items, m, deletes) && Ordered(ops) == EditsFor(cfg, items, m, deletes)
    ensures ops == PlanOps(cfg.hash, Entries(items), m, deletes)
  {
    hide Holds, Distinct, Elements, EditsFor, Ordered, PlanOps, ParseLines;
    HoldsGood(content, items);
    deletes :| DeletesFor(Entries(items), m, deletes) && ops == PlanOps(cfg.hash, Entries(items), m, deletes);
    EntryJobsOfItems(items, m.app);
    OrderedEdits(cfg, items, m, deletes);
  }

  /** Every edit of a plan is fit to be made. */
  lemma {:induction false} PlanEditsGood(cfg: Config, items: seq<Item>, m: NormalizedManifest, deletes: seq<string>)
    requires GoodManifest(m) && ValidItems(items) && Deletable(items, m, deletes)
    ensures GoodEdits(EditsFor(cfg, items, m, deletes))
  {
    hide GoodManifest, GoodEdit, EditsFor, EditItems, Settled, ValidItems;
    var edits := EditsFor(cfg, items, m, deletes);
    forall k | 0 <= k < |edits| ensures GoodEdit(edits[k]) {
      var after, left := SomeEdits(cfg, items, m, deletes, k);
      EditStep(cfg, after, m, left);
    }
  }

  /** What a complete run of a plan makes of a file. */
  lemma RunPlan(cfg: Config, content: string, items: seq<Item>, m: NormalizedManifest, ops: seq<Op>)
    requires GoodConfig(cfg) && GoodManifest(m) && Holds(content, items) && IsPlan(cfg, content, m, ops)
    ensures var after, settled := RunContent(cfg, content, Ordered(ops)), Settled(cfg, items, m);
            && Holds(after, settled)
            && after == (if Ordered(ops) == [] then content else Serialize(Flatten(settled)))
            && OwnedJobs(settled, m.app) == Names(m.jobs)
            && forall i :: 0 <= i < |m.jobs| ==> ItemsAction(cfg, settled, m.app, m.jobs[i]) == Skip
  {
    hide IsName, GoodJob, Ordered, EditsFor, Settled, IsPlan, ItemsAction, Deletable;
    var deletes := PlanEdits(cfg, content, items, m, ops);
    PlanEditsGood(cfg, items, m, deletes);
    RunHolds(cfg, content, items, Ordered(ops));
    AllEdits(cfg, items, m, deletes);
  }

  // ---- The theorems -------------------------------------------------------------------------------

  /** The entries of every other app. */
  function Others(entries: seq<ManagedEntry>, app: string): seq<ManagedEntry> {
    if entries == [] then []
    else
      var e := entries[|entries| - 1];
      Others(entries[..|entries| - 1], app) + if e.app == app then [] else [e]
  }

  lemma {:induction false} NoopOps(cfg: Config, items: seq<Item>, app: string, jobs: seq<NormalizedJob>)
    requires forall i :: 0 <= i < |jobs| ==> ItemsAction(cfg, items, app, jobs[i]) == Skip
    ensures IsNoop(DesiredOps(cfg.hash, Entries(items), app, jobs))
  {
    hide ItemsAction;
    if jobs != [] {
      NoopOps(cfg, items, app, jobs[..|jobs| - 1]);
      assert ItemsAction(cfg, items, app, jobs[|jobs| - 1]) == Skip;
      OpAction(cfg, items, app, jobs[|jobs| - 1]);
    }
  }

  lemma OpAction(cfg: Config, items: seq<Item>, app: string, job: NormalizedJob)
    ensures OpFor(cfg.hash, Entries(items), app, job).action == ItemsAction(cfg, items, app, job)
  {}

  lemma SettledIsNoop(cfg: Config, content: string, items: seq<Item>, m: NormalizedManifest, ops: seq<Op>)
    requires Holds(content, items) && IsPlan(cfg, content, m, ops)
    requires OwnedJobs(items, m.app) == Names(m.jobs)
    requires forall i :: 0 <= i < |m.jobs| ==> ItemsAction(cfg, items, m.app, m.jobs[i]) == Skip
    ensures IsNoop(ops)
  {
    hide ItemsAction, Holds, IsPlan, DesiredOps;
    var deletes := PlanEdits(cfg, content, items, m, ops);
    NoopOps(cfg, items, m.app, m.jobs);
    ElementsEmpty(deletes);
  }

  lemma NamesOfManifest(m: NormalizedManifest)
    requires GoodManifest(m)
    ensures DistinctNames(m.jobs)
  {}

  lemma ItemsOnDisk(content: string, items: seq<Item>)
    requires Holds(content, items)
    ensures Items(ParseLines(content)) == items
  {
    hide ParseLines, MatchOwner;
    ItemsFlatten(items);
  }

  lemma ActionOnItems(cfg: Config, items: seq<Item>, app: string, job: NormalizedJob)
    ensures ItemsAction(cfg, items, app, job) == ActionFor(cfg.hash, Entries(items), app, job)
  {}

  /** Convergence and idempotence: a complete apply leaves the app owning exactly the manifest's jobs, each that was not
      skipped with exactly its rendered blocks and each that was with the blocks it had; every further plan is empty,
      and neither foreign lines nor the entries of other apps change. */
  lemma ApplyConverges(cfg: Config, content: string, m: NormalizedManifest, ops: seq<Op>)
    requires GoodConfig(cfg) && GoodManifest(m) && GoodFile(content) && IsPlan(cfg, content, m, ops)
    ensures var after := RunContent(cfg, content, Ordered(ops));
            && GoodFile(after)
            && EntryJobs(ListEntries(ParseLines(after)), m.app) == Names(m.jobs)
            && (forall next :: IsPlan(cfg, after, m, next) ==> IsNoop(next))
            && Foreign(ParseLines(after)) == Foreign(ParseLines(content))
            && Others(ListEntries(ParseLines(after)), m.app) == Others(ListEntries(ParseLines(content)), m.app)
            && forall k :: 0 <= k < |m.jobs| ==>
                 BlocksIn(after, m.app, m.jobs[k].name) ==
                 if ActionFor(cfg.hash, ListEntries(ParseLines(content)), m.app, m.jobs[k]) == Skip
                 then BlocksIn(content, m.app, m.jobs[k].name)
                 else RenderItems(cfg, m.app, m.jobs[k])
  {
    hide GoodManifest, Ordered, IsPlan, ItemsAction, GoodFile, Holds, ParseLines, Settled, IsNoop, Blocks, RenderItems;
    var items := Items(ParseLines(content));
    var after, settled := RunContent(cfg, content, Ordered(ops)), Settled(cfg, items, m);
    HoldsItems(content);
    HoldsGood(content, items);
    RunPlan(cfg, content, items, m, ops);
    HoldsGood(after, settled);
    EntryJobsOfItems(settled, m.app);
    SettledKeeps(cfg, items, m);
    forall k | 0 <= k < |m.jobs|
      ensures BlocksIn(after, m.app, m.jobs[k].name) ==
              if ActionFor(cfg.hash, ListEntries(ParseLines(content)), m.app, m.jobs[k]) == Skip
              then BlocksIn(content, m.app, m.jobs[k].name)
              else RenderItems(cfg, m.app, m.jobs[k])
    {
      NamesOfManifest(m);
      SettledBlocks(cfg, items, m, k);
      ItemsOnDisk(after, settled);
      ActionOnItems(cfg, items, m.app, m.jobs[k]);
    }
    forall next | IsPlan(cfg, after, m, next) ensures IsNoop(next) {
      SettledIsNoop(cfg, after, settled, m, next);
    }
  }

  /** When a complete apply leaves a job with one block for each of its schedules: unless the job was skipped with two
      blocks for one schedule. */
  lemma OneBlockEachExactly(cfg: Config, content: string, m: NormalizedManifest, ops: seq<Op>, k: nat)
    requires GoodConfig(cfg) && GoodManifest(m) && GoodFile(content) && IsPlan(cfg, content, m, ops) && k < |m.jobs|
    ensures OneBlockEach(BlocksIn(RunContent(cfg, content, Ordered(ops)), m.app, m.jobs[k].name), m.jobs[k]) <==>
            ActionFor(cfg.hash, ListEntries(ParseLines(content)), m.app, m.jobs[k]) != Skip
            || NoneTwice(BlocksIn(content, m.app, m.jobs[k].name))
  {
    hide GoodManifest, Ordered, IsPlan, GoodFile, Holds, ParseLines, ActionFor, Blocks, RenderItems, OneBlockEach,
      NoneTwice, Renderable;
    var job, items := m.jobs[k], Items(ParseLines(content));
    ApplyConverges(cfg, content, m, ops);
    HoldsItems(content);
    HoldsGood(content, items);
    ActionOnItems(cfg, items, m.app, job);
    if ActionFor(cfg.hash, ListEntries(ParseLines(content)), m.app, job) == Skip {
      SkippedOnceExactly(cfg, items, m.app, job);
    } else {
      GoodMember(m, job);
      RenderedOnce(cfg, m.app, job);
    }
  }

  lemma CreatedItems(cfg: Config, content: string, items: seq<Item>, app: string, job: NormalizedJob)
    requires GoodConfig(cfg) && Holds(content, items) && IsName(app) && GoodJob(job)
    ensures Holds(EditContent(cfg, content, CreateJob(app, job)), items + RenderItems(cfg, app, job))
  {
    hide IsName, OneLined, Holds, RenderItems, GoodJob;
    GoodJobFits(job);
    EditHolds(cfg, content, items, CreateJob(app, job));
  }

  lemma RenderedLast(cfg: Config, app: string, job: NormalizedJob, i: nat)
    requires Renderable(job)
    ensures LastHash(Entries(RenderItems(cfg, app, job)), app, job.name, i) ==
            if i < |job.schedules| then Some(cfg.hash(job, i)) else None
  {
    hide RenderUpTo, Translate, LastHash, Entries;
    var entries := Entries(RenderItems(cfg, app, job));
    RenderedEntries(cfg, app, job, |job.schedules|);
    LastHashAgrees(entries, app, job.name, (i: nat) => cfg.hash(job, i));
    if i < |job.schedules| { assert Translate(job.schedules[i]).Some?; }
  }

  lemma TwiceSkipped(cfg: Config, items: seq<Item>, app: string, job: NormalizedJob)
    requires Renderable(job) && job.name !in EntryJobs(Entries(items), app)
    ensures var r := RenderItems(cfg, app, job); ActionFor(cfg.hash, Entries(items + r + r), app, job) == Skip
  {
    hide RenderItems, Translate, LastHash, ActionFor, Entries;
    var r := RenderItems(cfg, app, job);
    EntriesConcat(items, r);
    EntriesConcat(items + r, r);
    HashesByIndex(Entries(items), app, job.name);
    forall i: nat
      ensures LastHash(Entries(items + r + r), app, job.name, i) ==
              if i < |job.schedules| then Some(cfg.hash(job, i)) else None
    {
      LastHashConcat(Entries(items), Entries(r), app, job.name, i);
      LastHashConcat(Entries(items + r), Entries(r), app, job.name, i);
      RenderedLast(cfg, app, job, i);
    }
    ActionExactly(cfg.hash, Entries(items + r + r), app, job);
  }

  lemma TwiceCopied(cfg: Config, items: seq<Item>, app: string, job: NormalizedJob)
    requires Renderable(job) && job.name !in EntryJobs(Entries(items), app)
    ensures var r := RenderItems(cfg, app, job);
            forall i :: 0 <= i < |job.schedules| ==> Copies(Blocks(items + r + r, app, job.name), i) == 2
  {
    hide RenderUpTo, Translate, Entries, Blocks, Copies;
    var r := RenderItems(cfg, app, job);
    EntryJobsOfItems(items, app);
    BlocksUnowned(items, app, job.name);
    BlocksRendered(cfg, app, job, |job.schedules|, app, job.name);
    BlocksConcat(items, r, app, job.name);
    BlocksConcat(items + r, r, app, job.name);
    ConcatEmpty(r);
    forall i | 0 <= i < |job.schedules| ensures Copies(r + r, i) == 2 {
      CopiesRendered(cfg, app, job, |job.schedules|, i);
      CopiesConcat(r, r, i);
      assert Translate(job.schedules[i]).Some?;
    }
  }

  /** Every rewrite takes the lock for itself, so that two overlapping applies can both find a job missing and both
      create it.  The second copy of its blocks stays for good: the job passes for up to date, and no complete apply
      of a manifest with that job removes it. */
  lemma CreatedTwiceStays(cfg: Config, content: string, m: NormalizedManifest, k: nat, ops: seq<Op>)
    requires GoodConfig(cfg) && GoodManifest(m) && GoodFile(content) && k < |m.jobs|
    requires m.jobs[k].name !in EntryJobs(ListEntries(ParseLines(content)), m.app)
    requires var create := CreateJob(m.app, m.jobs[k]);
             IsPlan(cfg, EditContent(cfg, EditContent(cfg, content, create), create), m, ops)
    ensures var create, job := CreateJob(m.app, m.jobs[k]), m.jobs[k];
            var twice := EditContent(cfg, EditContent(cfg, content, create), create);
            && GoodFile(twice)
            && ActionFor(cfg.hash, ListEntries(ParseLines(twice)), m.app, job) == Skip
            && forall i :: 0 <= i < |job.schedules| ==>
                 Copies(BlocksIn(RunContent(cfg, twice, Ordered(ops)), m.app, job.name), i) == 2
  {
    hide IsName, DistinctNames, Ordered, IsPlan, GoodFile, Holds, ParseLines, ActionFor, Blocks, Copies, RenderItems,
      EditContent, GoodJob;
    var app, job, items := m.app, m.jobs[k], Items(ParseLines(content));
    var r := RenderItems(cfg, app, job);
    var create := CreateJob(app, job);
    var twice := EditContent(cfg, EditContent(cfg, content, create), create);
    HoldsItems(content);
    HoldsGood(content, items);
    CreatedItems(cfg, content, items, app, job);
    CreatedItems(cfg, EditContent(cfg, content, create), items + r, app, job);
    HoldsGood(twice, items + r + r);
    ItemsOnDisk(twice, items + r + r);
    GoodMember(m, job);
    TwiceSkipped(cfg, items, app, job);
    TwiceCopied(cfg, items, app, job);
    ApplyConverges(cfg, twice, m, ops);
  }

  lemma {:induction false} OthersConcat(a: seq<ManagedEntry>, b: seq<ManagedEntry>, app: string)
    ensures Others(a + b, app) == Others(a, app) + Others(b, app)
  {
    if b == [] {
      ConcatEmpty(a);
    } else {
      OthersConcat(a, b[..|b| - 1], app);
      ConcatFront(a, b);
    }
  }

  lemma {:induction false} OthersWithout(items: seq<Item>, app: string, jobs: set<string>)
    ensures Others(Entries(Without(items, app, jobs)), app) == Others(Entries(items), app)
  {
    if items != [] {
      var front, last := items[..|items| - 1], items[|items| - 1];
      OthersWithout(front, app, jobs);
      OthersConcat(Entries(front), EntryOf(last), app);
      WithoutOne(front, last, app, jobs);
      EntriesConcat(Without(front, app, jobs), [last]);
      OthersConcat(Entries(Without(front, app, jobs)), EntryOf(last), app);
      ConcatEmpty(Without(front, app, jobs));
      EntryOfOne(last);
    }
  }

  lemma WithoutOne(front: seq<Item>, last: Item, app: string, jobs: set<string>)
    ensures Without(front + [last], app, jobs) == Without(front, app, jobs) + if Dropped(last, app, jobs) then []
        else [last]
    ensures Dropped(last, app, jobs) ==> Others(EntryOf(last), app) == []
  {
    WithoutAppend(front, last, app, jobs);
  }

  lemma EntryOfOne(it: Item)
    ensures Entries([it]) == EntryOf(it)
  {
    assert [it][..0] == [];
  }

  lemma {:induction false} OthersOfOwn(entries: seq<ManagedEntry>, app: string)
    requires forall e :: e in entries ==> e.app == app
    ensures Others(entries, app) == []
  {
    if entries != [] {
      OthersOfOwn(entries[..|entries| - 1], app);
    }
  }

  lemma RenderedIsOwn(cfg: Config, app: string, job: NormalizedJob)
    ensures Others(Entries(RenderItems(cfg, app, job)), app) == [] && Plains(RenderItems(cfg, app, job)) == []
  {
    hide RenderUpTo, Entries, Others, Plains, Translate;
    RenderedEntries(cfg, app, job, |job.schedules|);
    OthersOfOwn(Entries(RenderItems(cfg, app, job)), app);
    RenderOwns(cfg, app, job, |job.schedules|);
  }

  lemma {:induction false} RenderAllIsOwn(cfg: Config, app: string, jobs: seq<NormalizedJob>)
    ensures Others(Entries(RenderAll(cfg, app, jobs)), app) == []
    ensures Plains(RenderAll(cfg, app, jobs)) == []
  {
    hide RenderUpTo;
    if jobs != [] {
      var one, rest := RenderItems(cfg, app, jobs[0]), RenderAll(cfg, app, jobs[1..]);
      RenderAllIsOwn(cfg, app, jobs[1..]);
      RenderedIsOwn(cfg, app, jobs[0]);
      EntriesConcat(one, rest);
      OthersConcat(Entries(one), Entries(rest), app);
      PlainsConcat(one, rest);
    }
  }

  lemma SettledKeeps(cfg: Config, items: seq<Item>, m: NormalizedManifest)
    ensures Plains(Settled(cfg, items, m)) == Plains(items)
    ensures Others(Entries(Settled(cfg, items, m)), m.app) == Others(Entries(items), m.app)
  {
    hide Selected, SelectedNames;
    var keep := SelectedNames(cfg, items, m.app, m.jobs, Skip);
    var stale := OwnedJobs(items, m.app) - keep;
    var base := Without(items, m.app, stale);
    var updates := RenderAll(cfg, m.app, Selected(cfg, items, m.app, m.jobs, Update));
    var creates := RenderAll(cfg, m.app, Selected(cfg, items, m.app, m.jobs, Create));
    RenderAllIsOwn(cfg, m.app, Selected(cfg, items, m.app, m.jobs, Update));
    RenderAllIsOwn(cfg, m.app, Selected(cfg, items, m.app, m.jobs, Create));
    WithoutPlains(items, m.app, stale);
    OthersWithout(items, m.app, stale);
    PlainsConcat(base, updates);
    PlainsConcat(base + updates, creates);
    EntriesConcat(base, updates);
    EntriesConcat(base + updates, creates);
    OthersConcat(Entries(base), Entries(updates), m.app);
    OthersConcat(Entries(base + updates), Entries(creates), m.app);
  }

  /** An apply that is cut short after any number of its edits, then planned and run again, ends in the same file,
      byte for byte, as the one that was not; and so do two plans that differ in the order of their deletes. */
  lemma RetrySettles(cfg: Config, content: string, m: NormalizedManifest, ops: seq<Op>, done: nat, retry: seq<Op>)
    requires GoodConfig(cfg) && GoodManifest(m) && GoodFile(content) && IsPlan(cfg, content, m, ops)
    requires done <= |Ordered(ops)| && IsPlan(cfg, RunContent(cfg, content, Ordered(ops)[..done]), m, retry)
    ensures var cut := RunContent(cfg, content, Ordered(ops)[..done]);
            GoodFile(cut) && RunContent(cfg, cut, Ordered(retry)) == RunContent(cfg, content, Ordered(ops))
  {
    hide GoodManifest, Ordered, IsPlan, ItemsAction, GoodFile, Holds, ParseLines, Settled, EditsFor, GoodEdit,
        Deletable;
    var items := Items(ParseLines(content));
    var edits := Ordered(ops);
    var cut := RunContent(cfg, content, edits[..done]);
    HoldsItems(content);
    var deletes := PlanEdits(cfg, content, items, m, ops);
    HoldsValid(content, items);
    var after, left := SomeEdits(cfg, items, m, deletes, done);
    PlanEditsGood(cfg, items, m, deletes);
    RunHolds(cfg, content, items, edits[..done]);
    HoldsGood(cut, after);
    RunPlan(cfg, content, items, m, ops);
    RunPlan(cfg, cut, after, m, retry);
    var again := PlanEdits(cfg, cut, after, m, retry);
    SameEmptiness(cfg, after, m, left, again);
    if edits[done..] == [] {
      assert edits[..done] == edits;
    }
  }

  lemma HoldsValid(content: string, items: seq<Item>)
    requires Holds(content, items)
    ensures ValidItems(items)
  {}

  lemma SameEmptiness(cfg: Config, items: seq<Item>, m: NormalizedManifest, a: seq<string>, b: seq<string>)
    requires Deletable(items, m, a) && Deletable(items, m, b)
    ensures EditsFor(cfg, items, m, a) == [] <==> EditsFor(cfg, items, m, b) == []
  {
    hide Selected;
    ElementsEmpty(a);
    ElementsEmpty(b);
  }

  /** One apply: the plan it had, and how many of its edits it got done. */
  datatype Round = Round(ops: seq<Op>, done: nat)

  ghost predicate CutRounds(cfg: Config, content: string, m: NormalizedManifest, rounds: seq<Round>)
    decreases |rounds|
  {
    rounds == [] ||
    (IsPlan(cfg, content, m, rounds[0].ops) && rounds[0].done <= |Ordered(rounds[0].ops)|
     && CutRounds(cfg, RunContent(cfg, content, Ordered(rounds[0].ops)[..rounds[0].done]), m, rounds[1..]))
  }

  ghost function AfterRounds(cfg: Config, content: string, m: NormalizedManifest, rounds: seq<Round>): string
    requires CutRounds(cfg, content, m, rounds)
    decreases |rounds|
  {
    if rounds == [] then content
    else AfterRounds(cfg, RunContent(cfg, content, Ordered(rounds[0].ops)[..rounds[0].done]), m, rounds[1..])
  }

  lemma PlanExists(cfg: Config, content: string, m: NormalizedManifest) returns (ops: seq<Op>)
    ensures IsPlan(cfg, content, m, ops)
  {
    hide ParseLines, ListEntries, PlanOps;
    var entries := ListEntries(ParseLines(content));
    var deletes := Enumerate(EntryJobs(entries, m.app) - Names(m.jobs));
    ops := PlanOps(cfg.hash, entries, m, deletes);
    assert DeletesFor(entries, m, deletes);
  }

  /** However many applies in a row are cut short, each wherever it may be, the first complete one ends in the file
      that an undisturbed apply would have left at the start. */
  lemma {:induction false} RetriesSettle(
    cfg: Config, content: string, m: NormalizedManifest, ops: seq<Op>, rounds: seq<Round>, last: seq<Op>)
    requires GoodConfig(cfg) && GoodManifest(m) && GoodFile(content) && IsPlan(cfg, content, m, ops)
    requires CutRounds(cfg, content, m, rounds) && IsPlan(cfg, AfterRounds(cfg, content, m, rounds), m, last)
    ensures RunContent(cfg, AfterRounds(cfg, content, m, rounds), Ordered(last)) ==
        RunContent(cfg, content, Ordered(ops))
    decreases |rounds|
  {
    hide GoodManifest, Ordered, IsPlan, GoodFile;
    assert RunContent(cfg, content, Ordered(ops)[..0]) == content;
    if rounds == [] {
      RetrySettles(cfg, content, m, ops, 0, last);
    } else {
      var round := rounds[0];
      var cut := RunContent(cfg, content, Ordered(round.ops)[..round.done]);
      var again := PlanExists(cfg, cut, m);
      RetrySettles(cfg, content, m, round.ops, round.done, again);
      RetrySettles(cfg, content, m, ops, 0, round.ops);
      RetriesSettle(cfg, cut, m, again, rounds[1..], last);
    }
  }

  // ---- The command ---------------------------------------------------------------------------------

  /** `apply`: list, compute, and apply.  Whatever becomes of it, the file is that after a prefix of a plan's edits. */
  method ReconcileOnce(m: NormalizedManifest, file: CrontabFile) returns (res: Result, ok: bool, ghost ops: seq<Op>)
    modifies file`content
    ensures IsPlan(file.config, old(file.content), m, ops)
    ensures var done := res.deleted + res.updated + res.created;
            && done <= |Ordered(ops)|
            && (ok <==> done == |Ordered(ops)|)
            && file.content == RunContent(file.config, old(file.content), Ordered(ops)[..done])
    ensures ok && GoodConfig(file.config) && GoodManifest(m) && GoodFile(old(file.content)) ==>
              EntryJobs(ListEntries(ParseLines(file.content)), m.app) == Names(m.jobs)
              && forall next :: IsPlan(file.config, file.content, m, next) ==> IsNoop(next)
  {
    hide GoodConfig, GoodManifest, GoodFile, Ordered, ParseLines, PlanOps, DeletesFor, ListEntries, IsNoop;
    var start := file.content;
    var entries := file.List();
    var plan, deletes := Compute(file.config.hash, m, entries);
    ops := plan;
    assert DeletesFor(entries, m, deletes);
    res, ok := Apply(plan, file);
    if ok && GoodConfig(file.config) && GoodManifest(m) && GoodFile(start) {
      TakeAll(Ordered(ops));
      ApplyConverges(file.config, start, m, ops);
    }
  }
}

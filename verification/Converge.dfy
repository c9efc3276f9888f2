/** `reconcile.Apply` over the crontab backend: one run settles the file, a run that was cut short anywhere and then
    repeated settles it the same way, and a settled file gives an empty plan. */
module Converge {
  import opened Wrappers
  import opened Sequences
  import opened Text
  import opened NormalizedManifests
  import opened OwnerLine
  import opened CrontabLines
  import opened Cron
  import opened Crontab
  import opened Reconcile

  // ---- Apply --------------------------------------------------------------------------------------

  /** The backend call that an operation asks for. */
  function CallOf(op: Op): Edit
    requires op.action != Skip
  {
    match op.action
    case Create => CreateJob(op.app, op.job)
    case Update => UpdateJob(op.app, op.job)
    case Delete => DeleteJob(op.app, op.jobName)
  }

  /** The edits of one pass of `Apply`. */
  function Pass(ops: seq<Op>, action: Action): seq<Edit> {
    if ops == [] then []
    else
      var op := ops[|ops| - 1];
      Pass(ops[..|ops| - 1], action) + if op.action != action || action == Skip then [] else [CallOf(op)]
  }

  /** Deletes, then updates, then creates. */
  function Ordered(ops: seq<Op>): seq<Edit> { Pass(ops, Delete) + Pass(ops, Update) + Pass(ops, Create) }

  function RunContent(cfg: Config, content: string, edits: seq<Edit>): string {
    if edits == [] then content
    else EditContent(cfg, RunContent(cfg, content, edits[..|edits| - 1]), edits[|edits| - 1])
  }

  datatype Result = Result(created: nat, updated: nat, deleted: nat, skipped: nat)

  lemma PassPrefix(ops: seq<Op>, i: nat, action: Action)
    requires i < |ops|
    ensures Pass(ops[..i + 1], action) == Pass(ops[..i], action) + Pass([ops[i]], action)
  {
    assert ops[..i + 1][..i] == ops[..i];
    assert [ops[i]][..0] == [];
    ConcatEmpty(Pass([ops[i]], action));
  }

  lemma PassOne(op: Op, action: Action)
    ensures Pass([op], action) == if op.action != action || action == Skip then [] else [CallOf(op)]
  {
    assert [op][..0] == [];
  }

  lemma RunAppend(cfg: Config, content: string, edits: seq<Edit>, e: Edit)
    ensures RunContent(cfg, content, edits + [e]) == EditContent(cfg, RunContent(cfg, content, edits), e)
  {
    hide EditContent;
    AppendFront(edits, e);
  }

  /** One of the three passes.  It stops at the first call that fails, with the edits before it done. */
  method ApplyPass(ops: seq<Op>, action: Action, file: CrontabFile) returns (count: nat, ok: bool)
    requires action != Skip
    modifies file`content
    ensures count <= |Pass(ops, action)| && (ok ==> count == |Pass(ops, action)|)
    ensures file.content == RunContent(file.config, old(file.content), Pass(ops, action)[..count])
    ensures !ok ==> count < |Pass(ops, action)|
  {
    hide EditContent, Accepted, Pass, RunContent;
    NothingPassed(file.config, file.content, action);
    count, ok := 0, true;
    var i := 0;
    while i < |ops|
      invariant 0 <= i <= |ops|
      invariant count == |Pass(ops[..i], action)|
      invariant Pass(ops[..i], action) <= Pass(ops, action)
      invariant file.content == RunContent(file.config, old(file.content), Pass(ops[..i], action))
    {
      var op := ops[i];
      PassPrefix(ops, i, action);
      PassOne(op, action);
      PassMonotone(ops, i + 1, action);
      if op.action == action {
        var outcome;
        match action {
          case Create => outcome := file.Create(op.app, op.job);
          case Update => outcome := file.Update(op.app, op.job);
          case Delete => outcome := file.Delete(op.app, op.jobName);
        }
        if outcome != Done {
          assert Pass(ops, action)[..count] == Pass(ops[..i], action);
          return count, false;
        }
        RunAppend(file.config, old(file.content), Pass(ops[..i], action), CallOf(op));
        count := count + 1;
      } else {
        ConcatEmpty(Pass(ops[..i], action));
      }
      i := i + 1;
    }
    TakeAll(ops);
    TakeAll(Pass(ops, action));
  }

  lemma NothingPassed(cfg: Config, content: string, action: Action)
    ensures Pass([], action) == [] && RunContent(cfg, content, []) == content
  {}

  lemma {:induction false} PassMonotone(ops: seq<Op>, i: nat, action: Action)
    requires i <= |ops|
    ensures Pass(ops[..i], action) <= Pass(ops, action)
    decreases |ops| - i
  {
    if i == |ops| {
      assert ops[..i] == ops;
    } else {
      PassPrefix(ops, i, action);
      PassMonotone(ops, i + 1, action);
    }
  }

  lemma {:induction false} RunConcat(cfg: Config, content: string, a: seq<Edit>, b: seq<Edit>)
    ensures RunContent(cfg, content, a + b) == RunContent(cfg, RunContent(cfg, content, a), b)
  {
    hide EditContent;
    if b == [] {
      ConcatEmpty(a);
    } else {
      RunConcat(cfg, content, a, b[..|b| - 1]);
      ConcatFront(a, b);
    }
  }

  /** Every operation of a plan belongs to one pass or is skipped. */
  lemma {:induction false} EveryOpCounted(ops: seq<Op>)
    ensures |Pass(ops, Create)| + |Pass(ops, Update)| + |Pass(ops, Delete)| + CountSkips(ops) == |ops|
  {
    if ops != [] {
      EveryOpCounted(ops[..|ops| - 1]);
    }
  }

  lemma PrefixOfConcat<T>(a: seq<T>, b: seq<T>, n: nat)
    requires n <= |b|
    ensures (a + b)[..|a| + n] == a + b[..n]
  {}

  function CountSkips(ops: seq<Op>): nat {
    if ops == [] then 0 else CountSkips(ops[..|ops| - 1]) + if ops[|ops| - 1].action == Skip then 1 else 0
  }

  /** `Apply`.  On an error the counters say how many of the ordered edits were done; none of the others was. */
  method Apply(ops: seq<Op>, file: CrontabFile) returns (res: Result, ok: bool)
    modifies file`content
    ensures var done := res.deleted + res.updated + res.created;
            && done <= |Ordered(ops)|
            && (ok <==> done == |Ordered(ops)|)
            && file.content == RunContent(file.config, old(file.content), Ordered(ops)[..done])
    ensures ok ==> res == Result(|Pass(ops, Create)|, |Pass(ops, Update)|, |Pass(ops, Delete)|, CountSkips(ops))
    ensures ok ==> res.deleted + res.updated + res.created + res.skipped == |ops|
    ensures !ok ==> res.skipped == 0
    ensures var done, deletes := res.deleted + res.updated + res.created, |Pass(ops, Delete)|;
            var edits := deletes + |Pass(ops, Update)|;
            && res.deleted == (if done < deletes then done else deletes)
            && res.deleted + res.updated == (if done < edits then done else edits)
  {
    hide EditContent, Pass, RunContent;
    EveryOpCounted(ops);
    var start := file.content;
    var deletes, updates, creates := Pass(ops, Delete), Pass(ops, Update), Pass(ops, Create);
    res := Result(0, 0, 0, 0);
    var count;
    count, ok := ApplyPass(ops, Delete, file);
    res := res.(deleted := count);
    ConcatAssociative(deletes, updates, creates);
    if !ok {
      assert Ordered(ops)[..count] == deletes[..count];
      return;
    }
    assert deletes[..count] == deletes;
    count, ok := ApplyPass(ops, Update, file);
    res := res.(updated := count);
    RunConcat(file.config, start, deletes, updates[..count]);
    if !ok {
      assert Ordered(ops)[..|deletes| + count] == deletes + updates[..count];
      return;
    }
    assert updates[..count] == updates;
    count, ok := ApplyPass(ops, Create, file);
    res := res.(created := count);
    RunConcat(file.config, start, deletes + updates, creates[..count]);
    PrefixOfConcat(deletes + updates, creates, count);
    if !ok {
      return;
    }
    var i := 0;
    while i < |ops|
      invariant 0 <= i <= |ops|
      invariant res == Result(|creates|, |updates|, |deletes|, CountSkips(ops[..i]))
    {
      assert ops[..i + 1][..i] == ops[..i];
      if ops[i].action == Skip {
        res := res.(skipped := res.skipped + 1);
      }
      i := i + 1;
    }
    assert ops[..i] == ops;
  }

  // ---- The settled file ---------------------------------------------------------------------------

  predicate DistinctNames(jobs: seq<NormalizedJob>) {
    forall i, j :: 0 <= i < j < |jobs| ==> jobs[i].name != jobs[j].name
  }

  /** What a validated manifest promises, and what the crontab backend needs of its jobs besides. */
  predicate GoodManifest(m: NormalizedManifest) {
    IsName(m.app) && DistinctNames(m.jobs) && forall i :: 0 <= i < |m.jobs| ==> GoodJob(m.jobs[i])
  }

  function ItemsAction(cfg: Config, items: seq<Item>, app: string, job: NormalizedJob): Action {
    ActionFor(cfg.hash, Entries(items), app, job)
  }

  /** The manifest's jobs, in its order, that need a given action. */
  function Selected(cfg: Config, items: seq<Item>, app: string, jobs: seq<NormalizedJob>,
      action: Action): seq<NormalizedJob> {
    if jobs == [] then []
    else
      (if ItemsAction(cfg, items, app, jobs[0]) == action then [jobs[0]] else []) +
      Selected(cfg, items, app, jobs[1..], action)
  }

  function SelectedNames(cfg: Config, items: seq<Item>, app: string, jobs: seq<NormalizedJob>,
      action: Action): set<string> {
    if jobs == [] then {}
    else
      (if ItemsAction(cfg, items, app, jobs[0]) == action then {jobs[0].name} else {}) +
      SelectedNames(cfg, items, app, jobs[1..], action)
  }

  function RenderAll(cfg: Config, app: string, jobs: seq<NormalizedJob>): seq<Item> {
    if jobs == [] then [] else RenderItems(cfg, app, jobs[0]) + RenderAll(cfg, app, jobs[1..])
  }

  /** The jobs of the app whose blocks are up to date stay in place; everything else of the app goes, and what is
      wanted is appended in the manifest's order, updated jobs before new ones.  The order of deletes plays no part. */
  function Settled(cfg: Config, items: seq<Item>, m: NormalizedManifest): seq<Item> {
    var keep := SelectedNames(cfg, items, m.app, m.jobs, Skip);
    Without(items, m.app, OwnedJobs(items, m.app) - keep)
    + RenderAll(cfg, m.app, Selected(cfg, items, m.app, m.jobs, Update))
    + RenderAll(cfg, m.app, Selected(cfg, items, m.app, m.jobs, Create))
  }

  // ---- What the entries of items say about a job --------------------------------------------------

  lemma {:induction false} EntryJobsOfItems(items: seq<Item>, app: string)
    ensures EntryJobs(Entries(items), app) == OwnedJobs(items, app)
  {
    if items != [] {
      var n := |items| - 1;
      EntryJobsOfItems(items[..n], app);
      if items[n].Block? {
        AppendFront(Entries(items[..n]), EntryOf(items[n])[0]);
      } else {
        ConcatEmpty(Entries(items[..n]));
      }
    }
  }

  lemma {:induction false} HashesConcat(a: seq<ManagedEntry>, b: seq<ManagedEntry>, app: string, job: string)
    ensures job !in EntryJobs(b, app) ==> HashesOf(a + b, app, job) == HashesOf(a, app, job)
    ensures job !in EntryJobs(a, app) ==> HashesOf(a + b, app, job) == HashesOf(b, app, job)
  {
    if b == [] {
      ConcatEmpty(a);
      if job !in EntryJobs(a, app) { NotMentioned(a, app, job); }
    } else {
      HashesConcat(a, b[..|b| - 1], app, job);
      ConcatFront(a, b);
    }
  }

  lemma {:induction false} EntriesConcat(a: seq<Item>, b: seq<Item>)
    ensures Entries(a + b) == Entries(a) + Entries(b)
  {
    if b == [] {
      ConcatEmpty(a);
      ConcatEmpty(Entries(a));
    } else {
      EntriesConcat(a, b[..|b| - 1]);
      ConcatFront(a, b);
      ConcatAssociative(Entries(a), Entries(b[..|b| - 1]), EntryOf(b[|b| - 1]));
    }
  }

  predicate BlockOf(it: Item, app: string, job: string) { it.Block? && it.owner.app == app && it.owner.job == job }

  lemma HashesAppend(items: seq<Item>, it: Item, app: string, job: string)
    ensures var before := HashesOf(Entries(items), app, job);
            HashesOf(Entries(items + [it]), app, job) ==
            if BlockOf(it, app, job) then Extend(before, it.owner.idx + 1)[it.owner.idx := it.owner.hash] else before
  {
    AppendFront(items, it);
    if it.Block? {
      AppendFront(Entries(items), EntryOf(it)[0]);
    } else {
      ConcatEmpty(Entries(items));
    }
  }

  lemma {:induction false} HashesWithout(items: seq<Item>, app: string, jobs: set<string>, job: string)
    requires job !in jobs
    ensures HashesOf(Entries(Without(items, app, jobs)), app, job) == HashesOf(Entries(items), app, job)
  {
    if items != [] {
      var front, last := items[..|items| - 1], items[|items| - 1];
      HashesWithout(front, app, jobs, job);
      FrontAndLast(items);
      HashesAppend(front, last, app, job);
      HashesAppend(Without(front, app, jobs), last, app, job);
      ConcatEmpty(Without(front, app, jobs));
    }
  }

  lemma ExtendOne(hashes: seq<string>, hash: string)
    ensures Extend(hashes, |hashes| + 1)[|hashes| := hash] == hashes + [hash]
  {}

  lemma RenderOneIs(cfg: Config, app: string, job: NormalizedJob, i: nat) returns (it: Item)
    requires i < |job.schedules| && Translate(job.schedules[i]).Some?
    ensures RenderOne(cfg, app, job, i) == [it] && it.Block? && it.owner == Owner(app, job.name, cfg.hash(job, i), i)
  {
    hide RenderMarker, RenderSchedule, Translate;
    it := RenderBlock(cfg, app, job, i, Translate(job.schedules[i]).value);
  }

  /** The entries of a freshly rendered job carry the desired hashes. */
  lemma {:induction false} HashesRendered(cfg: Config, app: string, job: NormalizedJob, n: nat)
    requires n <= |job.schedules|
    requires forall i :: 0 <= i < |job.schedules| ==> Translate(job.schedules[i]).Some?
    ensures HashesOf(Entries(RenderUpTo(cfg, app, job, n)), app, job.name) == HashesUpTo(cfg.hash, job, n)
    ensures |HashesUpTo(cfg.hash, job, n)| == n
  {
    hide RenderUpTo, Translate, HashesOf, Extend, Entries, IsHash;
    if n == 0 {
      NothingRendered(cfg, app, job);
    } else {
      HashesRendered(cfg, app, job, n - 1);
      HashesNext(cfg, app, job, n - 1);
      ExtendOne(HashesUpTo(cfg.hash, job, n - 1), cfg.hash(job, n - 1));
    }
  }

  lemma HashesNext(cfg: Config, app: string, job: NormalizedJob, n: nat)
    requires n < |job.schedules|
    ensures var before := HashesOf(Entries(RenderUpTo(cfg, app, job, n)), app, job.name);
            HashesOf(Entries(RenderUpTo(cfg, app, job, n + 1)), app, job.name) ==
            if Translate(job.schedules[n]).None? then before else Extend(before, n + 1)[n := cfg.hash(job, n)]
  {
    hide RenderOne, Translate, HashesOf, Extend;
    var before := RenderUpTo(cfg, app, job, n);
    if Translate(job.schedules[n]).Some? {
      var it := RenderOneIs(cfg, app, job, n);
      HashesAppend(before, it, app, job.name);
    } else {
      RenderOneNone(cfg, app, job, n);
      ConcatEmpty(before);
    }
  }

  lemma NothingRendered(cfg: Config, app: string, job: NormalizedJob)
    ensures HashesOf(Entries(RenderUpTo(cfg, app, job, 0)), app, job.name) == []
        && Entries(RenderUpTo(cfg, app, job, 0)) == []
  {}

  lemma RenderOneNone(cfg: Config, app: string, job: NormalizedJob, i: nat)
    requires i < |job.schedules| && Translate(job.schedules[i]).None?
    ensures RenderOne(cfg, app, job, i) == []
  {}

  /** Each rendered entry is the job's own, for a schedule that translates, with that schedule's hash. */
  predicate IsOwnEntry(cfg: Config, app: string, job: NormalizedJob, e: ManagedEntry) {
    && e.app == app && e.job == job.name && e.index < |job.schedules|
    && Translate(job.schedules[e.index]).Some? && e.hash == cfg.hash(job, e.index)
  }

  lemma RenderOneEntry(cfg: Config, app: string, job: NormalizedJob, i: nat)
    requires i < |job.schedules|
    ensures forall e :: e in Entries(RenderOne(cfg, app, job, i)) ==> e.index == i && IsOwnEntry(cfg, app, job, e)
    ensures Translate(job.schedules[i]).Some? ==> HasIndex(Entries(RenderOne(cfg, app, job, i)), app, job.name, i)
  {
    hide Translate, RenderMarker, RenderSchedule;
    if Translate(job.schedules[i]).Some? {
      var it := RenderOneIs(cfg, app, job, i);
      assert [it][..0] == [];
      assert Entries([it]) == [] + EntryOf(it);
      HasIndexIs(Entries([it]), EntryOf(it)[0]);
    }
  }

  lemma HasIndexConcat(a: seq<ManagedEntry>, b: seq<ManagedEntry>, app: string, job: string, i: nat)
    ensures HasIndex(a + b, app, job, i) <==> HasIndex(a, app, job, i) || HasIndex(b, app, job, i)
  {
    if HasIndex(a, app, job, i) {
      var e :| e in a && e.app == app && e.job == job && e.index == i;
      assert e in a + b;
    }
    if HasIndex(b, app, job, i) {
      var e :| e in b && e.app == app && e.job == job && e.index == i;
      assert e in a + b;
    }
  }

  lemma {:induction false} RenderedEntries(cfg: Config, app: string, job: NormalizedJob, n: nat)
    requires n <= |job.schedules|
    ensures forall e :: e in Entries(RenderUpTo(cfg, app, job, n)) ==> IsOwnEntry(cfg, app, job, e)
    ensures forall i: nat :: i < n && Translate(job.schedules[i]).Some? ==>
        HasIndex(Entries(RenderUpTo(cfg, app, job, n)), app, job.name, i)
  {
    hide Translate, RenderOne, RenderUpTo, IsOwnEntry, Entries, HasIndex;
    if n == 0 {
      NothingRendered(cfg, app, job);
    } else {
      var before, one := RenderUpTo(cfg, app, job, n - 1), RenderOne(cfg, app, job, n - 1);
      RenderedEntries(cfg, app, job, n - 1);
      RenderNext(cfg, app, job, n - 1);
      RenderOneEntry(cfg, app, job, n - 1);
      EntriesConcat(before, one);
      forall i: nat | i < n && Translate(job.schedules[i]).Some?
          ensures HasIndex(Entries(before + one), app, job.name, i) {
        HasIndexConcat(Entries(before), Entries(one), app, job.name, i);
      }
    }
  }

  lemma {:induction false} MentionsJob(entries: seq<ManagedEntry>, app: string, e: ManagedEntry)
    requires e in entries && e.app == app
    ensures e.job in EntryJobs(entries, app)
  {
    var front := entries[..|entries| - 1];
    if e in front {
      MentionsJob(front, app, e);
    }
  }

  /** `render` skips a schedule that does not translate without a word.  So right after its update a job is up to date
      exactly when all its schedules translate; otherwise every further plan updates it again. */
  lemma UpdateSettlesExactly(cfg: Config, lines: seq<string>, app: string, job: NormalizedJob)
    requires WellFormed(lines) && IsName(app) && IsName(job.name) && 1 <= |job.schedules| <= MAX_SCHEDULES_PER_JOB
    ensures ActionFor(cfg.hash, ListEntries(EditLines(cfg, lines, UpdateJob(app, job))), app, job) == Skip <==>
            forall i :: 0 <= i < |job.schedules| ==> Translate(job.schedules[i]).Some?
  {
    hide RenderUpTo, Translate, MatchOwner, WellFormed, IsName, HashesUpTo;
    var kept := Entries(Without(Items(lines), app, {job.name}));
    var rendered := Entries(RenderItems(cfg, app, job));
    UpdatedItems(cfg, lines, app, job);
    EntriesConcat(Without(Items(lines), app, {job.name}), RenderItems(cfg, app, job));
    EntryJobsOfItems(Without(Items(lines), app, {job.name}), app);
    OwnedJobsWithout(Items(lines), app, {job.name});
    assert job.name !in EntryJobs(kept, app);
    RenderedEntries(cfg, app, job, |job.schedules|);
    RenderedSettles(cfg, kept, rendered, app, job);
  }

  /** Entries of other jobs followed by those of a rendered job. */
  lemma RenderedSettles(cfg: Config, kept: seq<ManagedEntry>, rendered: seq<ManagedEntry>, app: string,
      job: NormalizedJob)
    requires job.schedules != [] && job.name !in EntryJobs(kept, app)
    requires forall e :: e in rendered ==> IsOwnEntry(cfg, app, job, e)
    requires forall i: nat :: i < |job.schedules| && Translate(job.schedules[i]).Some? ==>
        HasIndex(rendered, app, job.name, i)
    ensures ActionFor(cfg.hash, kept + rendered, app, job) == Skip <==>
            forall i :: 0 <= i < |job.schedules| ==> Translate(job.schedules[i]).Some?
  {
    hide Translate, ActionFor;
    forall e | e in kept + rendered && e.app == app && e.job == job.name ensures IsOwnEntry(cfg, app, job, e) {
      if e in kept {
        MentionsJob(kept, app, e);
      }
    }
    forall i: nat
      ensures HasIndex(kept + rendered, app, job.name, i) <==> i < |job.schedules| && Translate(job.schedules[i]).Some?
    {
      HasIndexConcat(kept, rendered, app, job.name, i);
    }
    LastHashAgrees(kept + rendered, app, job.name, (i: nat) => cfg.hash(job, i));
    ActionExactly(cfg.hash, kept + rendered, app, job);
  }

  lemma UpdatedItems(cfg: Config, lines: seq<string>, app: string, job: NormalizedJob)
    requires WellFormed(lines) && IsName(app) && IsName(job.name) && |job.schedules| <= MAX_SCHEDULES_PER_JOB
    ensures ListEntries(EditLines(cfg, lines, UpdateJob(app, job))) ==
            Entries(Without(Items(lines), app, {job.name}) + RenderItems(cfg, app, job))
  {
    hide RenderUpTo, Translate, MatchOwner, WellFormed, IsName;
    var items := Items(lines);
    var kept := Without(items, app, {job.name});
    WellFormedIffItems(lines);
    FlattenItems(lines);
    StripFlatten(items, app, job.name);
    WithoutValid(items, app, {job.name});
    RenderValid(cfg, app, job, |job.schedules|);
    FlattenConcat(kept, RenderItems(cfg, app, job));
    ListFlatten(kept + RenderItems(cfg, app, job));
  }

  // ---- One edit of a plan -------------------------------------------------------------------------

  lemma ActionOfEntries(cfg: Config, items: seq<Item>, app: string, job: NormalizedJob)
    ensures ItemsAction(cfg, items, app, job) ==
            if job.name !in OwnedJobs(items, app) then Create
            else if HashesOf(Entries(items), app, job.name) == DesiredHashes(cfg.hash, job) then Skip
            else Update
  {
    EntryJobsOfItems(items, app);
  }

  /** Removing blocks of other jobs does not change what a job needs. */
  lemma ActionWithout(cfg: Config, items: seq<Item>, app: string, jobs: set<string>, job: NormalizedJob)
    requires job.name !in jobs
    ensures ItemsAction(cfg, Without(items, app, jobs), app, job) == ItemsAction(cfg, items, app, job)
  {
    ActionOfEntries(cfg, items, app, job);
    ActionOfEntries(cfg, Without(items, app, jobs), app, job);
    OwnedJobsWithout(items, app, jobs);
    HashesWithout(items, app, jobs, job.name);
  }

  predicate Renderable(job: NormalizedJob) {
    1 <= |job.schedules| && forall i :: 0 <= i < |job.schedules| ==> Translate(job.schedules[i]).Some?
  }

  lemma RenderableOwns(cfg: Config, app: string, job: NormalizedJob)
    requires Renderable(job)
    ensures OwnedJobs(RenderItems(cfg, app, job), app) == {job.name}
  {
    hide RenderUpTo, Translate, OwnedJobs;
    RenderOwns(cfg, app, job, |job.schedules|);
    assert Translate(job.schedules[0]).Some?;
  }

  /** Appending one job's blocks makes that job up to date, and changes nothing for the others. */
  lemma ActionAfterRender(cfg: Config, items: seq<Item>, app: string, rendered: NormalizedJob, job: NormalizedJob)
    requires Renderable(rendered) && rendered.name !in OwnedJobs(items, app)
    requires job == rendered || job.name != rendered.name
    ensures ItemsAction(cfg, items + RenderItems(cfg, app, rendered), app, job) ==
            if job == rendered then Skip else ItemsAction(cfg, items, app, job)
  {
    hide RenderUpTo, Translate;
    var added := RenderItems(cfg, app, rendered);
    var n := |rendered.schedules|;
    ActionOfEntries(cfg, items, app, job);
    ActionOfEntries(cfg, items + added, app, job);
    RenderableOwns(cfg, app, rendered);
    OwnedJobsConcat(items, added, app);
    EntriesConcat(items, added);
    EntryJobsOfItems(items, app);
    EntryJobsOfItems(added, app);
    HashesConcat(Entries(items), Entries(added), app, job.name);
    HashesRendered(cfg, app, rendered, n);
  }

  /** Two files that need the same of every job select the same jobs. */
  lemma {:induction false} SelectedSame(cfg: Config, items: seq<Item>, after: seq<Item>, app: string,
      jobs: seq<NormalizedJob>, action: Action)
    requires forall i :: 0 <= i < |jobs| ==>
               ItemsAction(cfg, after, app, jobs[i]) == ItemsAction(cfg, items, app, jobs[i])
    ensures Selected(cfg, after, app, jobs, action) == Selected(cfg, items, app, jobs, action)
    ensures SelectedNames(cfg, after, app, jobs, action) == SelectedNames(cfg, items, app, jobs, action)
  {
    hide ItemsAction;
    if jobs != [] {
      SelectedSame(cfg, items, after, app, jobs[1..], action);
    }
  }

  /** When the first selected job becomes up to date and the others stay as they are, the selection loses its head. */
  lemma {:induction false} SelectedDropsHead(
    cfg: Config, items: seq<Item>, after: seq<Item>, app: string, jobs: seq<NormalizedJob>, action: Action,
        done: NormalizedJob)
    requires DistinctNames(jobs) && action != Skip
    requires Selected(cfg, items, app, jobs, action) != [] && Selected(cfg, items, app, jobs, action)[0] == done
    requires ItemsAction(cfg, after, app, done) == Skip
    requires forall i :: 0 <= i < |jobs| && jobs[i].name != done.name ==>
               ItemsAction(cfg, after, app, jobs[i]) == ItemsAction(cfg, items, app, jobs[i])
    ensures Selected(cfg, after, app, jobs, action) == Selected(cfg, items, app, jobs, action)[1..]
    ensures SelectedNames(cfg, after, app, jobs, Skip) == SelectedNames(cfg, items, app, jobs, Skip) + {done.name}
    ensures forall other :: other != Skip && other != action ==>
              Selected(cfg, after, app, jobs, other) == Selected(cfg, items, app, jobs, other)
  {
    hide ItemsAction;
    if ItemsAction(cfg, items, app, jobs[0]) == action {
      SelectedSame(cfg, items, after, app, jobs[1..], action);
      SelectedSame(cfg, items, after, app, jobs[1..], Skip);
      forall other | other != Skip && other != action
        ensures Selected(cfg, after, app, jobs[1..], other) == Selected(cfg, items, app, jobs[1..], other)
      {
        SelectedSame(cfg, items, after, app, jobs[1..], other);
      }
    } else {
      SelectedMember(cfg, items, app, jobs[1..], action, done);
      SelectedDropsHead(cfg, items, after, app, jobs[1..], action, done);
    }
  }

  /** The head of a selection is one of the jobs, needs the action, and is wanted. */
  lemma {:induction false} SelectedMember(
    cfg: Config, items: seq<Item>, app: string, jobs: seq<NormalizedJob>, action: Action, head: NormalizedJob)
    requires Selected(cfg, items, app, jobs, action) != [] && Selected(cfg, items, app, jobs, action)[0] == head
    ensures head in jobs && ItemsAction(cfg, items, app, head) == action
  {
    hide ItemsAction;
    if ItemsAction(cfg, items, app, jobs[0]) != action {
      SelectedMember(cfg, items, app, jobs[1..], action, head);
    }
  }

  lemma {:induction false} NamesHold(jobs: seq<NormalizedJob>)
    ensures forall name :: name in Names(jobs) <==> exists i :: 0 <= i < |jobs| && jobs[i].name == name
  {
    if jobs != [] {
      var n := |jobs| - 1;
      NamesHold(jobs[..n]);
      forall name ensures name in Names(jobs) <==> exists i :: 0 <= i < |jobs| && jobs[i].name == name {
        if name in Names(jobs[..n]) {
          var i :| 0 <= i < |jobs[..n]| && jobs[..n][i].name == name;
          assert jobs[i].name == name;
        }
        if i :| 0 <= i < |jobs| && jobs[i].name == name && i != n {
          assert jobs[..n][i].name == name;
        }
      }
    }
  }

  lemma {:induction false} SelectedNamesHold(cfg: Config, items: seq<Item>, app: string, jobs: seq<NormalizedJob>,
      action: Action)
    ensures forall name :: name in SelectedNames(cfg, items, app, jobs, action) <==>
              exists i :: 0 <= i < |jobs| && jobs[i].name == name && ItemsAction(cfg, items, app, jobs[i]) == action
  {
    hide ItemsAction;
    if jobs != [] {
      SelectedNamesHold(cfg, items, app, jobs[1..], action);
      forall name
        ensures name in SelectedNames(cfg, items, app, jobs, action) <==>
                exists i :: 0 <= i < |jobs| && jobs[i].name == name && ItemsAction(cfg, items, app, jobs[i]) == action
      {
        if name in SelectedNames(cfg, items, app, jobs[1..], action) {
          var i :| 0 <= i < |jobs[1..]| && jobs[1..][i].name == name && ItemsAction(cfg, items, app, jobs[1..][i]) ==
              action;
          assert jobs[i + 1].name == name;
        }
        if i :| 1 <= i < |jobs| && jobs[i].name == name && ItemsAction(cfg, items, app, jobs[i]) == action {
          assert jobs[1..][i - 1].name == name;
        }
      }
    }
  }

  /** The names kept in place are manifest names, and not the name of a job that needs something. */
  lemma KeptNames(cfg: Config, items: seq<Item>, m: NormalizedManifest, job: NormalizedJob)
    requires DistinctNames(m.jobs)
    ensures SelectedNames(cfg, items, m.app, m.jobs, Skip) <= Names(m.jobs)
    ensures job in m.jobs && ItemsAction(cfg, items, m.app, job) != Skip ==>
              job.name !in SelectedNames(cfg, items, m.app, m.jobs, Skip)
    ensures job in m.jobs ==> job.name in Names(m.jobs)
  {
    hide ItemsAction;
    NamesHold(m.jobs);
    SelectedNamesHold(cfg, items, m.app, m.jobs, Skip);
  }

  ghost predicate SameSelections(cfg: Config, items: seq<Item>, after: seq<Item>, m: NormalizedManifest) {
    && Selected(cfg, after, m.app, m.jobs, Update) == Selected(cfg, items, m.app, m.jobs, Update)
    && Selected(cfg, after, m.app, m.jobs, Create) == Selected(cfg, items, m.app, m.jobs, Create)
  }

  lemma DeleteStep(cfg: Config, items: seq<Item>, m: NormalizedManifest, name: string)
    requires DistinctNames(m.jobs) && name in OwnedJobs(items, m.app) && name !in Names(m.jobs)
    ensures var after := Without(items, m.app, {name});
            && SameSelections(cfg, items, after, m)
            && OwnedJobs(after, m.app) == OwnedJobs(items, m.app) - {name}
            && Settled(cfg, after, m) == Settled(cfg, items, m)
  {
    hide ItemsAction;
    var after := Without(items, m.app, {name});
    NamesHold(m.jobs);
    forall i | 0 <= i < |m.jobs|
      ensures ItemsAction(cfg, after, m.app, m.jobs[i]) == ItemsAction(cfg, items, m.app, m.jobs[i])
    {
      ActionWithout(cfg, items, m.app, {name}, m.jobs[i]);
    }
    SelectedSame(cfg, items, after, m.app, m.jobs, Update);
    SelectedSame(cfg, items, after, m.app, m.jobs, Create);
    SelectedSame(cfg, items, after, m.app, m.jobs, Skip);
    OwnedJobsWithout(items, m.app, {name});
    var owned, keep := OwnedJobs(items, m.app), SelectedNames(cfg, items, m.app, m.jobs, Skip);
    KeptNames(cfg, items, m, NO_JOB);
    WithoutTwice(items, m.app, {name}, owned - {name} - keep);
    assert {name} + (owned - {name} - keep) == owned - keep;
  }

  /** Replacing or adding the blocks of the first job that needs it: what the file then needs, and that the settled
      file stays the same. */
  lemma RenderStep(cfg: Config, items: seq<Item>, m: NormalizedManifest, action: Action, job: NormalizedJob)
    requires GoodManifest(m) && (action == Update || action == Create)
    requires var todo := Selected(cfg, items, m.app, m.jobs, action); todo != [] && todo[0] == job
    requires action == Create ==> Selected(cfg, items, m.app, m.jobs, Update) == []
    ensures var after := Without(items, m.app, {job.name}) + RenderItems(cfg, m.app, job);
            var other := if action == Update then Create else Update;
            && Selected(cfg, after, m.app, m.jobs, action) == Selected(cfg, items, m.app, m.jobs, action)[1..]
            && Selected(cfg, after, m.app, m.jobs, other) == Selected(cfg, items, m.app, m.jobs, other)
            && OwnedJobs(after, m.app) == OwnedJobs(items, m.app) + {job.name}
            && Settled(cfg, after, m) == Settled(cfg, items, m)
  {
    hide ItemsAction, RenderItems, GoodJob;
    var app := m.app;
    var left := Without(items, app, {job.name});
    var added := RenderItems(cfg, app, job);
    SelectedMember(cfg, items, app, m.jobs, action, job);
    GoodMember(m, job);
    ActionsAfterRender(cfg, items, m, job);
    SelectedDropsHead(cfg, items, left + added, app, m.jobs, action, job);
    OwnedAfterRender(cfg, items, app, job);
    BaseAfterRender(cfg, items, m, job);
    var base := Without(items, app, OwnedJobs(items, app) - SelectedNames(cfg, items, app, m.jobs, Skip));
    var updates, creates := Selected(cfg, items, app, m.jobs, Update), Selected(cfg, items, app, m.jobs, Create);
    if action == Update {
      ConcatAssociative(base, added, RenderAll(cfg, app, updates[1..]));
    } else {
      ConcatEmpty(base);
      ConcatEmpty(base + added);
      ConcatAssociative(base, added, RenderAll(cfg, app, creates[1..]));
    }
  }

  lemma GoodMember(m: NormalizedManifest, job: NormalizedJob)
    requires GoodManifest(m) && job in m.jobs
    ensures Renderable(job) && GoodJob(job) && FitJob(job) && OneLined(job)
  {
    hide Translate, IsName, OneLined;
    var i :| 0 <= i < |m.jobs| && m.jobs[i] == job;
    assert GoodJob(m.jobs[i]);
    GoodJobFits(job);
  }

  lemma ActionsAfterRender(cfg: Config, items: seq<Item>, m: NormalizedManifest, job: NormalizedJob)
    requires DistinctNames(m.jobs) && job in m.jobs && Renderable(job)
    ensures var after := Without(items, m.app, {job.name}) + RenderItems(cfg, m.app, job);
            && ItemsAction(cfg, after, m.app, job) == Skip
            && forall i :: 0 <= i < |m.jobs| && m.jobs[i].name != job.name ==>
                 ItemsAction(cfg, after, m.app, m.jobs[i]) == ItemsAction(cfg, items, m.app, m.jobs[i])
  {
    hide ItemsAction, RenderItems, Renderable;
    var left := Without(items, m.app, {job.name});
    OwnedJobsWithout(items, m.app, {job.name});
    ActionAfterRender(cfg, left, m.app, job, job);
    forall i | 0 <= i < |m.jobs| && m.jobs[i].name != job.name
      ensures ItemsAction(cfg, left + RenderItems(cfg, m.app, job), m.app, m.jobs[i]) ==
          ItemsAction(cfg, items, m.app, m.jobs[i])
    {
      ActionAfterRender(cfg, left, m.app, job, m.jobs[i]);
      ActionWithout(cfg, items, m.app, {job.name}, m.jobs[i]);
    }
  }

  lemma OwnedAfterRender(cfg: Config, items: seq<Item>, app: string, job: NormalizedJob)
    requires Renderable(job)
    ensures OwnedJobs(RenderItems(cfg, app, job), app) == {job.name}
    ensures OwnedJobs(Without(items, app, {job.name}) + RenderItems(cfg, app, job), app) == OwnedJobs(items, app)
        + {job.name}
  {
    hide RenderUpTo, Translate, Renderable;
    RenderableOwns(cfg, app, job);
    OwnedJobsWithout(items, app, {job.name});
    OwnedJobsConcat(Without(items, app, {job.name}), RenderItems(cfg, app, job), app);
  }

  /** What stays in place after the step is what stayed before, then the new blocks. */
  lemma BaseAfterRender(cfg: Config, items: seq<Item>, m: NormalizedManifest, job: NormalizedJob)
    requires DistinctNames(m.jobs) && job in m.jobs && Renderable(job) && ItemsAction(cfg, items, m.app, job) != Skip
    ensures var owned, keep := OwnedJobs(items, m.app), SelectedNames(cfg, items, m.app, m.jobs, Skip);
            var added := RenderItems(cfg, m.app, job);
            Without(Without(items, m.app, {job.name}) + added, m.app, (owned + {job.name}) - (keep + {job.name}))
            == Without(items, m.app, owned - keep) + added
  {
    hide ItemsAction, RenderItems, Renderable;
    var app := m.app;
    var owned, keep := OwnedJobs(items, app), SelectedNames(cfg, items, app, m.jobs, Skip);
    var added := RenderItems(cfg, app, job);
    var stale := (owned + {job.name}) - (keep + {job.name});
    KeptNames(cfg, items, m, job);
    WithoutConcat(Without(items, app, {job.name}), added, app, stale);
    WithoutTwice(items, app, {job.name}, stale);
    WithoutRelevant(items, app, {job.name} + stale, owned - keep);
    OwnedAfterRender(cfg, items, app, job);
    WithoutNothing(added, app, stale);
  }

  // ---- All edits of a plan ------------------------------------------------------------------------

  function DeleteEdits(app: string, names: seq<string>): seq<Edit> {
    if names == [] then [] else [DeleteJob(app, names[0])] + DeleteEdits(app, names[1..])
  }

  function JobEdits(app: string, jobs: seq<NormalizedJob>, action: Action): seq<Edit> {
    if jobs == [] then []
    else
      [if action == Update then UpdateJob(app, jobs[0]) else CreateJob(app, jobs[0])]
      + JobEdits(app, jobs[1..], action)
  }

  /** The edits a file needs, for a given order of the deletes. */
  function EditsFor(cfg: Config, items: seq<Item>, m: NormalizedManifest, deletes: seq<string>): seq<Edit> {
    DeleteEdits(m.app, deletes)
    + JobEdits(m.app, Selected(cfg, items, m.app, m.jobs, Update), Update)
    + JobEdits(m.app, Selected(cfg, items, m.app, m.jobs, Create), Create)
  }

  ghost predicate Deletable(items: seq<Item>, m: NormalizedManifest, deletes: seq<string>) {
    Distinct(deletes) && Elements(deletes) == OwnedJobs(items, m.app) - Names(m.jobs)
  }

  function RunItems(cfg: Config, items: seq<Item>, edits: seq<Edit>): seq<Item>
    decreases |edits|
  {
    if edits == [] then items else RunItems(cfg, EditItems(cfg, items, edits[0]), edits[1..])
  }

  function RestOf(deletes: seq<string>): seq<string> { if deletes == [] then [] else deletes[1..] }

  lemma ElementsRest(deletes: seq<string>)
    requires deletes != [] && Distinct(deletes)
    ensures Distinct(deletes[1..]) && Elements(deletes[1..]) == Elements(deletes) - {deletes[0]}
    ensures deletes[0] in Elements(deletes)
  {
    assert forall x :: x in deletes <==> x == deletes[0] || x in deletes[1..];
  }

  lemma TailOfConcat<T>(x: T, a: seq<T>, b: seq<T>)
    ensures ([x] + a) + b == [x] + (a + b) && (([x] + a) + b)[0] == x && (([x] + a) + b)[1..] == a + b
  {}

  /** The first edit of a plan brings the items one step closer to the same settled items. */
  ghost predicate StepsOn(cfg: Config, items: seq<Item>, m: NormalizedManifest, deletes: seq<string>) {
    var edits := EditsFor(cfg, items, m, deletes);
    && edits != []
    && var after := EditItems(cfg, items, edits[0]);
       && Deletable(after, m, RestOf(deletes))
       && EditsFor(cfg, after, m, RestOf(deletes)) == edits[1..]
       && Settled(cfg, after, m) == Settled(cfg, items, m)
       && (edits[0].app == m.app && GoodEdit(edits[0]))
  }

  lemma FirstDelete(cfg: Config, items: seq<Item>, m: NormalizedManifest, deletes: seq<string>)
    requires GoodManifest(m) && Deletable(items, m, deletes) && deletes != []
    ensures StepsOn(cfg, items, m, deletes)
  {
    hide ItemsAction, RenderItems, GoodJob, Settled, Selected;
    var us := JobEdits(m.app, Selected(cfg, items, m.app, m.jobs, Update), Update);
    var cs := JobEdits(m.app, Selected(cfg, items, m.app, m.jobs, Create), Create);
    ElementsRest(deletes);
    DeleteStep(cfg, items, m, deletes[0]);
    TailOfConcat(DeleteJob(m.app, deletes[0]), DeleteEdits(m.app, deletes[1..]), us);
    TailOfConcat(DeleteJob(m.app, deletes[0]), DeleteEdits(m.app, deletes[1..]) + us, cs);
  }

  lemma FirstUpdate(cfg: Config, items: seq<Item>, m: NormalizedManifest, deletes: seq<string>)
    requires GoodManifest(m) && Deletable(items, m, deletes) && deletes == []
    requires Selected(cfg, items, m.app, m.jobs, Update) != []
    ensures StepsOn(cfg, items, m, deletes)
  {
    hide ItemsAction, RenderItems, GoodJob, Settled, Selected;
    var updates := Selected(cfg, items, m.app, m.jobs, Update);
    var us := JobEdits(m.app, updates, Update);
    var cs := JobEdits(m.app, Selected(cfg, items, m.app, m.jobs, Create), Create);
    SelectedMember(cfg, items, m.app, m.jobs, Update, updates[0]);
    GoodMember(m, updates[0]);
    KeptNames(cfg, items, m, updates[0]);
    RenderStep(cfg, items, m, Update, updates[0]);
    ConcatEmpty(us);
    ConcatEmpty(JobEdits(m.app, updates[1..], Update));
    TailOfConcat(UpdateJob(m.app, updates[0]), JobEdits(m.app, updates[1..], Update), cs);
  }

  lemma FirstCreate(cfg: Config, items: seq<Item>, m: NormalizedManifest, deletes: seq<string>)
    requires GoodManifest(m) && Deletable(items, m, deletes) && deletes == []
    requires Selected(cfg, items, m.app, m.jobs, Update) == [] && Selected(cfg, items, m.app, m.jobs, Create) != []
    ensures StepsOn(cfg, items, m, deletes)
  {
    hide ItemsAction, RenderItems, GoodJob, Settled, Selected;
    var creates := Selected(cfg, items, m.app, m.jobs, Create);
    SelectedMember(cfg, items, m.app, m.jobs, Create, creates[0]);
    GoodMember(m, creates[0]);
    KeptNames(cfg, items, m, creates[0]);
    CreateIsUpdate(cfg, items, m.app, creates[0]);
    RenderStep(cfg, items, m, Create, creates[0]);
    ConcatEmpty(JobEdits(m.app, creates, Create));
    ConcatEmpty(JobEdits(m.app, creates[1..], Create));
  }

  lemma EditStep(cfg: Config, items: seq<Item>, m: NormalizedManifest, deletes: seq<string>)
    requires GoodManifest(m) && Deletable(items, m, deletes)
    requires EditsFor(cfg, items, m, deletes) != []
    ensures StepsOn(cfg, items, m, deletes)
  {
    hide GoodManifest, Deletable, StepsOn, Selected;
    if deletes != [] {
      FirstDelete(cfg, items, m, deletes);
    } else if Selected(cfg, items, m.app, m.jobs, Update) != [] {
      FirstUpdate(cfg, items, m, deletes);
    } else {
      FirstCreate(cfg, items, m, deletes);
    }
  }

  lemma CreateIsUpdate(cfg: Config, items: seq<Item>, app: string, job: NormalizedJob)
    requires ItemsAction(cfg, items, app, job) == Create
    ensures Without(items, app, {job.name}) == items
  {
    ActionOfEntries(cfg, items, app, job);
    WithoutNothing(items, app, {job.name});
  }

  /** A file that needs no edit is its own settled form, and owns exactly the manifest's jobs. */
  lemma NothingNeeded(cfg: Config, items: seq<Item>, m: NormalizedManifest, deletes: seq<string>)
    requires DistinctNames(m.jobs) && Deletable(items, m, deletes)
    requires EditsFor(cfg, items, m, deletes) == []
    ensures Settled(cfg, items, m) == items
    ensures OwnedJobs(items, m.app) == Names(m.jobs)
    ensures forall i :: 0 <= i < |m.jobs| ==> ItemsAction(cfg, items, m.app, m.jobs[i]) == Skip
  {
    hide ItemsAction;
    var app := m.app;
    var updates, creates := Selected(cfg, items, app, m.jobs, Update), Selected(cfg, items, app, m.jobs, Create);
    assert deletes == [] && updates == [] && creates == [];
    forall i | 0 <= i < |m.jobs|
      ensures ItemsAction(cfg, items, app, m.jobs[i]) == Skip && m.jobs[i].name in OwnedJobs(items, app)
    {
      SelectedComplete(cfg, items, app, m.jobs, Update, i);
      SelectedComplete(cfg, items, app, m.jobs, Create, i);
      ActionOfEntries(cfg, items, app, m.jobs[i]);
    }
    NamesHold(m.jobs);
    SelectedNamesHold(cfg, items, app, m.jobs, Skip);
    var keep := SelectedNames(cfg, items, app, m.jobs, Skip);
    assert Names(m.jobs) <= keep;
    assert Elements([]) == {};
    assert OwnedJobs(items, app) - keep == {};
    WithoutNothing(items, app, OwnedJobs(items, app) - keep);
    ConcatEmpty(items);
  }

  lemma {:induction false} SelectedComplete(
    cfg: Config, items: seq<Item>, app: string, jobs: seq<NormalizedJob>, action: Action, i: nat)
    requires i < |jobs|
    ensures ItemsAction(cfg, items, app, jobs[i]) == action ==> jobs[i] in Selected(cfg, items, app, jobs, action)
  {
    hide ItemsAction;
    if i > 0 {
      SelectedComplete(cfg, items, app, jobs[1..], action, i - 1);
    }
  }

  /** Doing any number of the edits a file needs leaves a file that needs the rest, with the same settled form. */
  lemma {:induction false} SomeEdits(cfg: Config, items: seq<Item>, m: NormalizedManifest, deletes: seq<string>, k: nat)
    returns (after: seq<Item>, left: seq<string>)
    requires GoodManifest(m) && ValidItems(items) && Deletable(items, m, deletes)
    requires k <= |EditsFor(cfg, items, m, deletes)|
    ensures after == RunItems(cfg, items, EditsFor(cfg, items, m, deletes)[..k]) && ValidItems(after)
    ensures Deletable(after, m, left) && EditsFor(cfg, after, m, left) == EditsFor(cfg, items, m, deletes)[k..]
    ensures Settled(cfg, after, m) == Settled(cfg, items, m)
    decreases k
  {
    hide GoodManifest, ValidItems, EditItems, EditsFor, Settled;
    var edits := EditsFor(cfg, items, m, deletes);
    if k == 0 {
      after, left := items, deletes;
    } else {
      EditStep(cfg, items, m, deletes);
      EditFlatten(cfg, items, edits[0]);
      after, left := SomeEdits(cfg, EditItems(cfg, items, edits[0]), m, RestOf(deletes), k - 1);
      assert edits[..k][0] == edits[0] && edits[..k][1..] == edits[1..][..k - 1];
      assert edits[1..][k - 1..] == edits[k..];
    }
  }

  /** All the edits a file needs turn it into its settled form, which needs none. */
  lemma AllEdits(cfg: Config, items: seq<Item>, m: NormalizedManifest, deletes: seq<string>)
    requires GoodManifest(m) && ValidItems(items) && Deletable(items, m, deletes)
    ensures var settled := Settled(cfg, items, m);
            && RunItems(cfg, items, EditsFor(cfg, items, m, deletes)) == settled
            && ValidItems(settled)
            && OwnedJobs(settled, m.app) == Names(m.jobs)
            && forall i :: 0 <= i < |m.jobs| ==> ItemsAction(cfg, settled, m.app, m.jobs[i]) == Skip
  {
    hide IsName, GoodJob, ValidItems, EditItems, EditsFor, Settled, ItemsAction;
    var edits := EditsFor(cfg, items, m, deletes);
    var after, left := SomeEdits(cfg, items, m, deletes, |edits|);
    assert edits[..|edits|] == edits && edits[|edits|..] == [];
    NothingNeeded(cfg, after, m, left);
  }

  // ---- From a plan to its edits -------------------------------------------------------------------

  lemma {:induction false} PassConcat(a: seq<Op>, b: seq<Op>, action: Action)
    ensures Pass(a + b, action) == Pass(a, action) + Pass(b, action)
  {
    if b == [] {
      ConcatEmpty(a);
      ConcatEmpty(Pass(a, action));
    } else {
      hide Pass;
      PassConcat(a, b[..|b| - 1], action);
      ConcatFront(a, b);
      PassPrefix(b, |b| - 1, action);
      PassPrefix(a + b, |a + b| - 1, action);
      TakeAll(b);
      TakeAll(a + b);
      ConcatAssociative(Pass(a, action), Pass(b[..|b| - 1], action), Pass([b[|b| - 1]], action));
    }
  }

  lemma {:induction false} SelectedConcat(
    cfg: Config, items: seq<Item>, app: string, a: seq<NormalizedJob>, b: seq<NormalizedJob>, action: Action)
    ensures Selected(cfg, items, app, a + b, action) == Selected(cfg, items, app, a, action)
        + Selected(cfg, items, app, b, action)
  {
    hide ItemsAction;
    if a == [] {
      ConcatEmpty(b);
    } else {
      SelectedConcat(cfg, items, app, a[1..], b, action);
      TailOfConcat(a[0], a[1..], b);
      HeadOfSequence(a);
    }
  }

  lemma HeadOfSequence<T>(a: seq<T>)
    requires a != []
    ensures a == [a[0]] + a[1..]
  {}

  lemma {:induction false} JobEditsConcat(app: string, a: seq<NormalizedJob>, b: seq<NormalizedJob>, action: Action)
    ensures JobEdits(app, a + b, action) == JobEdits(app, a, action) + JobEdits(app, b, action)
  {
    if a == [] {
      ConcatEmpty(b);
    } else {
      JobEditsConcat(app, a[1..], b, action);
      TailOfConcat(a[0], a[1..], b);
      HeadOfSequence(a);
    }
  }

  lemma OneJob(cfg: Config, items: seq<Item>, app: string, job: NormalizedJob, action: Action)
    requires action == Update || action == Create
    ensures Pass([OpFor(cfg.hash, Entries(items), app, job)], action) ==
            JobEdits(app, Selected(cfg, items, app, [job], action), action)
  {
    hide DesiredHashes, HashesOf;
    var op := OpFor(cfg.hash, Entries(items), app, job);
    assert [op][..0] == [] && [job][1..] == [];
    assert Selected(cfg, items, app, [], action) == [];
    if ItemsAction(cfg, items, app, job) == action {
      assert Selected(cfg, items, app, [job], action) == [job];
      assert JobEdits(app, [], action) == [];
    } else {
      assert Selected(cfg, items, app, [job], action) == [];
    }
  }

  lemma {:induction false} DesiredPass(cfg: Config, items: seq<Item>, app: string, jobs: seq<NormalizedJob>)
    ensures var ops := DesiredOps(cfg.hash, Entries(items), app, jobs);
            && Pass(ops, Delete) == []
            && Pass(ops, Update) == JobEdits(app, Selected(cfg, items, app, jobs, Update), Update)
            && Pass(ops, Create) == JobEdits(app, Selected(cfg, items, app, jobs, Create), Create)
  {
    hide ItemsAction;
    if jobs != [] {
      var front, job := jobs[..|jobs| - 1], jobs[|jobs| - 1];
      DesiredPass(cfg, items, app, front);
      FrontAndLast(jobs);
      var ops, op := DesiredOps(cfg.hash, Entries(items), app, front), OpFor(cfg.hash, Entries(items), app, job);
      PassConcat(ops, [op], Delete);
      assert [op][..0] == [] && op.action != Delete;
      PassOf(cfg, items, app, front, job, Update);
      PassOf(cfg, items, app, front, job, Create);
    }
  }

  lemma PassOf(cfg: Config, items: seq<Item>, app: string, front: seq<NormalizedJob>, job: NormalizedJob,
      action: Action)
    requires action == Update || action == Create
    requires Pass(DesiredOps(cfg.hash, Entries(items), app, front), action) ==
             JobEdits(app, Selected(cfg, items, app, front, action), action)
    ensures Pass(DesiredOps(cfg.hash, Entries(items), app, front) + [OpFor(cfg.hash, Entries(items), app, job)],
        action) ==
            JobEdits(app, Selected(cfg, items, app, front + [job], action), action)
  {
    hide ItemsAction, OpFor;
    PassConcat(DesiredOps(cfg.hash, Entries(items), app, front), [OpFor(cfg.hash, Entries(items), app, job)], action);
    OneJob(cfg, items, app, job, action);
    SelectedConcat(cfg, items, app, front, [job], action);
    JobEditsConcat(app, Selected(cfg, items, app, front, action), Selected(cfg, items, app, [job], action), action);
  }

  lemma PassAppend(ops: seq<Op>, op: Op, action: Action)
    ensures Pass(ops + [op], action) == Pass(ops, action) + if op.action != action || action == Skip then []
        else [CallOf(op)]
  {
    AppendFront(ops, op);
  }

  lemma DeleteOpsStep(entries: seq<ManagedEntry>, app: string, names: seq<string>)
    requires names != []
    ensures var op := DeleteOp(entries, app, names[|names| - 1]);
            && DeleteOps(entries, app, names) == DeleteOps(entries, app, names[..|names| - 1]) + [op]
            && op.action == Delete && CallOf(op) == DeleteJob(app, names[|names| - 1])
  {
    hide HashesOf, IndicesOf, Join;
  }

  lemma {:induction false} DeletePass(entries: seq<ManagedEntry>, app: string, names: seq<string>)
    ensures var ops := DeleteOps(entries, app, names);
            Pass(ops, Delete) == DeleteEdits(app, names) && Pass(ops, Update) == [] && Pass(ops, Create) == []
  {
    if names != [] {
      hide Pass, DeleteOps, DeleteOp, DeleteEdits;
      var front, name := names[..|names| - 1], names[|names| - 1];
      var ops, op := DeleteOps(entries, app, front), DeleteOp(entries, app, name);
      DeletePass(entries, app, front);
      FrontAndLast(names);
      DeleteEditsAppend(app, front, name);
      DeleteOpsStep(entries, app, names);
      PassAppend(ops, op, Delete);
      PassAppend(ops, op, Update);
      PassAppend(ops, op, Create);
    }
  }

  lemma {:induction false} DeleteEditsAppend(app: string, front: seq<string>, name: string)
    ensures DeleteEdits(app, front + [name]) == DeleteEdits(app, front) + [DeleteJob(app, name)]
  {
    if front != [] {
      DeleteEditsAppend(app, front[1..], name);
      TailOfConcat(front[0], front[1..], [name]);
      HeadOfSequence(front);
    }
  }

  /** `Apply` does, in its order, the edits the file needs. */
  lemma OrderedEdits(cfg: Config, items: seq<Item>, m: NormalizedManifest, deletes: seq<string>)
    ensures Ordered(PlanOps(cfg.hash, Entries(items), m, deletes)) == EditsFor(cfg, items, m, deletes)
  {
    hide ItemsAction, OpFor, DeleteOp;
    var entries := Entries(items);
    var desired, gone := DesiredOps(cfg.hash, entries, m.app, m.jobs), DeleteOps(entries, m.app, deletes);
    DesiredPass(cfg, items, m.app, m.jobs);
    DeletePass(entries, m.app, deletes);
    PassConcat(desired, gone, Delete);
    PassConcat(desired, gone, Update);
    PassConcat(desired, gone, Create);
    ConcatEmpty(DeleteEdits(m.app, deletes));
    ConcatEmpty(Pass(desired, Update));
    ConcatEmpty(Pass(desired, Create));
  }
}

/** The blocks that a job owns in a crontab file, and how many of them there are for each of its schedules. */
module JobBlocks {
  import opened Wrappers
  import opened Sequences
  import opened NormalizedManifests
  import opened OwnerLine
  import opened CrontabLines
  import opened Cron
  import opened Crontab
  import opened Reconcile
  import opened Converge

  /** The blocks of a job, in the order of the file. */
  function Blocks(items: seq<Item>, app: string, job: string): seq<Item> {
    if items == [] then []
    else
      var n := |items| - 1;
      Blocks(items[..n], app, job) + if BlockOf(items[n], app, job) then [items[n]] else []
  }

  /** The blocks of a job in a file as it is on disk. */
  function BlocksIn(content: string, app: string, job: string): seq<Item> {
    Blocks(Items(ParseLines(content)), app, job)
  }

  /** How many blocks there are for a schedule. */
  function Copies(blocks: seq<Item>, i: nat): nat {
    if blocks == [] then 0
    else
      var n := |blocks| - 1;
      Copies(blocks[..n], i) + if blocks[n].Block? && blocks[n].owner.idx == i then 1 else 0
  }

  /** One block for each schedule of the job, and no other. */
  ghost predicate OneBlockEach(blocks: seq<Item>, job: NormalizedJob) {
    forall i: nat :: Copies(blocks, i) == if i < |job.schedules| then 1 else 0
  }

  ghost predicate NoneTwice(blocks: seq<Item>) { forall i: nat :: Copies(blocks, i) <= 1 }

  lemma {:induction false} ItemsFlatten(items: seq<Item>)
    requires ValidItems(items)
    ensures Items(Flatten(items)) == items
  {
    hide MatchOwner;
    if items != [] {
      var n := |items| - 1;
      ItemsFlatten(items[..n]);
      FrontAndLast(items);
      var lines := Flatten(items[..n]);
      match items[n]
      case Plain(line) => AppendFront(lines, line);
      case Block(schedule, marker, _) =>
        var all := lines + [schedule, marker];
        assert all[..|all| - 2] == lines;
    }
  }

  lemma {:induction false} BlocksConcat(a: seq<Item>, b: seq<Item>, app: string, job: string)
    ensures Blocks(a + b, app, job) == Blocks(a, app, job) + Blocks(b, app, job)
  {
    if b == [] {
      ConcatEmpty(a);
      ConcatEmpty(Blocks(a, app, job));
    } else {
      BlocksConcat(a, b[..|b| - 1], app, job);
      ConcatFront(a, b);
      ConcatAssociative(Blocks(a, app, job), Blocks(b[..|b| - 1], app, job),
                        if BlockOf(b[|b| - 1], app, job) then [b[|b| - 1]] else []);
    }
  }

  lemma {:induction false} CopiesConcat(a: seq<Item>, b: seq<Item>, i: nat)
    ensures Copies(a + b, i) == Copies(a, i) + Copies(b, i)
  {
    if b == [] {
      ConcatEmpty(a);
    } else {
      CopiesConcat(a, b[..|b| - 1], i);
      ConcatFront(a, b);
    }
  }

  lemma {:induction false} BlocksWithout(items: seq<Item>, from: string, jobs: set<string>, app: string, job: string)
    ensures Blocks(Without(items, from, jobs), app, job) ==
            if from == app && job in jobs then [] else Blocks(items, app, job)
  {
    if items != [] {
      var n := |items| - 1;
      BlocksWithout(items[..n], from, jobs, app, job);
      AppendFront(Without(items[..n], from, jobs), items[n]);
      ConcatEmpty(Without(items[..n], from, jobs));
    }
  }

  lemma {:induction false} BlocksUnowned(items: seq<Item>, app: string, job: string)
    requires job !in OwnedJobs(items, app)
    ensures Blocks(items, app, job) == []
  {
    if items != [] {
      BlocksUnowned(items[..|items| - 1], app, job);
    }
  }

  lemma BlocksOfOne(cfg: Config, app: string, job: NormalizedJob, i: nat, other: string, name: string)
    requires i < |job.schedules|
    ensures var one := RenderOne(cfg, app, job, i);
            Blocks(one, other, name) == if other == app && name == job.name then one else []
  {
    hide Translate, RenderMarker, RenderSchedule;
    if Translate(job.schedules[i]).Some? {
      assert RenderOne(cfg, app, job, i)[..0] == [];
    }
  }

  lemma {:induction false} BlocksRendered(
    cfg: Config, app: string, job: NormalizedJob, n: nat, other: string, name: string)
    requires n <= |job.schedules|
    ensures var rendered := RenderUpTo(cfg, app, job, n);
            Blocks(rendered, other, name) == if other == app && name == job.name then rendered else []
  {
    hide RenderOne;
    if n > 0 {
      BlocksRendered(cfg, app, job, n - 1, other, name);
      BlocksOfOne(cfg, app, job, n - 1, other, name);
      BlocksConcat(RenderUpTo(cfg, app, job, n - 1), RenderOne(cfg, app, job, n - 1), other, name);
    }
  }

  /** An edit leaves the blocks of every other job. */
  lemma EditBlocks(cfg: Config, items: seq<Item>, e: Edit, app: string, job: string)
    requires !(e.app == app && NameOf(e) == job)
    ensures Blocks(EditItems(cfg, items, e), app, job) == Blocks(items, app, job)
  {
    hide RenderUpTo, Without, Blocks;
    BlocksWithout(items, e.app, {NameOf(e)}, app, job);
    if !e.DeleteJob? {
      var kept := if e.CreateJob? then items else Without(items, e.app, {e.job.name});
      BlocksRendered(cfg, e.app, e.job, |e.job.schedules|, app, job);
      BlocksConcat(kept, RenderItems(cfg, e.app, e.job), app, job);
      ConcatEmpty(Blocks(kept, app, job));
    }
  }

  /** A fresh rendering has one block for each schedule that translates. */
  lemma {:induction false} CopiesRendered(cfg: Config, app: string, job: NormalizedJob, n: nat, i: nat)
    requires n <= |job.schedules|
    ensures Copies(RenderUpTo(cfg, app, job, n), i) == if i < n && Translate(job.schedules[i]).Some? then 1 else 0
  {
    hide RenderOne, Translate, Copies;
    if n == 0 {
      NoCopies(i);
    } else {
      CopiesRendered(cfg, app, job, n - 1, i);
      CopiesConcat(RenderUpTo(cfg, app, job, n - 1), RenderOne(cfg, app, job, n - 1), i);
      CopiesOfOne(cfg, app, job, n - 1, i);
    }
  }

  lemma NoCopies(i: nat)
    ensures Copies([], i) == 0
  {}

  lemma CopiesOfOne(cfg: Config, app: string, job: NormalizedJob, k: nat, i: nat)
    requires k < |job.schedules|
    ensures Copies(RenderOne(cfg, app, job, k), i) == if i == k && Translate(job.schedules[k]).Some? then 1 else 0
  {
    hide Translate, RenderMarker, RenderSchedule;
    if Translate(job.schedules[k]).Some? {
      assert RenderOne(cfg, app, job, k)[..0] == [];
    }
  }

  lemma RenderedOnce(cfg: Config, app: string, job: NormalizedJob)
    requires Renderable(job)
    ensures OneBlockEach(RenderItems(cfg, app, job), job)
  {
    hide RenderUpTo, Translate, Copies;
    forall i: nat ensures Copies(RenderItems(cfg, app, job), i) == if i < |job.schedules| then 1 else 0 {
      CopiesRendered(cfg, app, job, |job.schedules|, i);
    }
  }

  lemma RenderFirst(cfg: Config, app: string, first: seq<NormalizedJob>, rest: seq<NormalizedJob>)
    requires |first| <= 1
    ensures RenderAll(cfg, app, first + rest) ==
            (if first == [] then [] else RenderItems(cfg, app, first[0])) + RenderAll(cfg, app, rest)
  {
    hide RenderItems;
    if first == [] {
      ConcatEmpty(rest);
      ConcatEmpty(RenderAll(cfg, app, rest));
    } else {
      assert (first + rest)[1..] == rest;
    }
  }

  /** What the rendered part of a settled file holds of a job. */
  lemma RenderedNext(cfg: Config, items: seq<Item>, app: string, jobs: seq<NormalizedJob>, action: Action, name: string)
    requires jobs != []
    ensures Blocks(RenderAll(cfg, app, Selected(cfg, items, app, jobs, action)), app, name) ==
            (if ItemsAction(cfg, items, app, jobs[0]) == action && name == jobs[0].name
             then RenderItems(cfg, app, jobs[0]) else [])
            + Blocks(RenderAll(cfg, app, Selected(cfg, items, app, jobs[1..], action)), app, name)
  {
    hide ItemsAction, RenderUpTo, RenderAll, Blocks;
    var chosen := if ItemsAction(cfg, items, app, jobs[0]) == action then [jobs[0]] else [];
    var rest := Selected(cfg, items, app, jobs[1..], action);
    RenderFirst(cfg, app, chosen, rest);
    if chosen == [] {
      ConcatEmpty(RenderAll(cfg, app, rest));
      ConcatEmpty(Blocks(RenderAll(cfg, app, rest), app, name));
    } else {
      BlocksRendered(cfg, app, jobs[0], |jobs[0].schedules|, app, name);
      BlocksConcat(RenderItems(cfg, app, jobs[0]), RenderAll(cfg, app, rest), app, name);
    }
  }

  lemma NothingSelected(cfg: Config, items: seq<Item>, app: string, action: Action, name: string)
    ensures Blocks(RenderAll(cfg, app, Selected(cfg, items, app, [], action)), app, name) == []
  {}

  lemma {:induction false} BlocksOfOthers(
    cfg: Config, items: seq<Item>, app: string, jobs: seq<NormalizedJob>, action: Action, name: string)
    requires forall i :: 0 <= i < |jobs| ==> jobs[i].name != name
    ensures Blocks(RenderAll(cfg, app, Selected(cfg, items, app, jobs, action)), app, name) == []
  {
    hide ItemsAction, RenderItems, RenderAll, Blocks, Selected;
    if jobs == [] {
      NothingSelected(cfg, items, app, action, name);
    } else {
      BlocksOfOthers(cfg, items, app, jobs[1..], action, name);
      RenderedNext(cfg, items, app, jobs, action, name);
    }
  }

  lemma {:induction false} BlocksSelected(
    cfg: Config, items: seq<Item>, app: string, jobs: seq<NormalizedJob>, action: Action, k: nat)
    requires DistinctNames(jobs) && k < |jobs|
    ensures Blocks(RenderAll(cfg, app, Selected(cfg, items, app, jobs, action)), app, jobs[k].name) ==
            if ItemsAction(cfg, items, app, jobs[k]) == action then RenderItems(cfg, app, jobs[k]) else []
  {
    hide ItemsAction, RenderItems, RenderAll, Blocks, Selected;
    RenderedNext(cfg, items, app, jobs, action, jobs[k].name);
    if k == 0 {
      BlocksOfOthers(cfg, items, app, jobs[1..], action, jobs[0].name);
      ConcatEmpty(RenderItems(cfg, app, jobs[0]));
    } else {
      BlocksSelected(cfg, items, app, jobs[1..], action, k - 1);
      ConcatEmpty(Blocks(RenderAll(cfg, app, Selected(cfg, items, app, jobs[1..], action)), app, jobs[k].name));
    }
  }

  /** The three parts of a settled file. */
  lemma SettledParts(base: seq<Item>, updates: seq<Item>, creates: seq<Item>, app: string, job: string)
    ensures Blocks(base + updates + creates, app, job) ==
            Blocks(base, app, job) + Blocks(updates, app, job) + Blocks(creates, app, job)
  {
    hide Blocks;
    BlocksConcat(base, updates, app, job);
    BlocksConcat(base + updates, creates, app, job);
  }

  /** The part that stays in place. */
  lemma BaseBlocks(cfg: Config, items: seq<Item>, m: NormalizedManifest, k: nat)
    requires DistinctNames(m.jobs) && k < |m.jobs|
    ensures var owned, keep := OwnedJobs(items, m.app), SelectedNames(cfg, items, m.app, m.jobs, Skip);
            Blocks(Without(items, m.app, owned - keep), m.app, m.jobs[k].name) ==
            if ItemsAction(cfg, items, m.app, m.jobs[k]) == Skip then Blocks(items, m.app, m.jobs[k].name) else []
  {
    hide ItemsAction, SelectedNames, Blocks, Without, OwnedJobs;
    var job := m.jobs[k];
    var owned, keep := OwnedJobs(items, m.app), SelectedNames(cfg, items, m.app, m.jobs, Skip);
    BlocksWithout(items, m.app, owned - keep, m.app, job.name);
    SelectedNamesHold(cfg, items, m.app, m.jobs, Skip);
    KeptNames(cfg, items, m, job);
    if job.name !in owned {
      BlocksUnowned(items, m.app, job.name);
    }
  }

  /** In a settled file a job that was up to date has the blocks it had, and any other exactly those rendered for it. */
  lemma SettledBlocks(cfg: Config, items: seq<Item>, m: NormalizedManifest, k: nat)
    requires DistinctNames(m.jobs) && k < |m.jobs|
    ensures Blocks(Settled(cfg, items, m), m.app, m.jobs[k].name) ==
            if ItemsAction(cfg, items, m.app, m.jobs[k]) == Skip then Blocks(items, m.app, m.jobs[k].name)
            else RenderItems(cfg, m.app, m.jobs[k])
  {
    hide ItemsAction, RenderItems, RenderAll, Selected, SelectedNames, Blocks, Without, DistinctNames, OwnedJobs;
    var app, job := m.app, m.jobs[k];
    var base := Without(items, app, OwnedJobs(items, app) - SelectedNames(cfg, items, app, m.jobs, Skip));
    var updates := RenderAll(cfg, app, Selected(cfg, items, app, m.jobs, Update));
    var creates := RenderAll(cfg, app, Selected(cfg, items, app, m.jobs, Create));
    ActionOfEntries(cfg, items, app, job);
    BaseBlocks(cfg, items, m, k);
    BlocksSelected(cfg, items, app, m.jobs, Update, k);
    BlocksSelected(cfg, items, app, m.jobs, Create, k);
    SettledParts(base, updates, creates, app, job.name);
    ConcatEmpty(Blocks(base, app, job.name));
    ConcatEmpty(RenderItems(cfg, app, job));
  }

  lemma {:induction false} CopiesListed(items: seq<Item>, app: string, job: string, i: nat)
    ensures Copies(Blocks(items, app, job), i) > 0 <==> LastHash(Entries(items), app, job, i).Some?
  {
    if items != [] {
      var front, last := items[..|items| - 1], items[|items| - 1];
      CopiesListed(front, app, job, i);
      if last.Block? {
        LastHashAppend(Entries(front), EntryOf(last)[0], app, job, i);
      } else {
        ConcatEmpty(Entries(front));
      }
      AppendFront(Blocks(front, app, job), last);
      ConcatEmpty(Blocks(front, app, job));
    }
  }

  /** An up-to-date job has a block for each schedule and no other; it may have several for one. */
  lemma SkippedOnceExactly(cfg: Config, items: seq<Item>, app: string, job: NormalizedJob)
    requires ItemsAction(cfg, items, app, job) == Skip
    ensures var blocks := Blocks(items, app, job.name); OneBlockEach(blocks, job) <==> NoneTwice(blocks)
  {
    hide ActionFor, Copies, LastHash, Entries, Blocks;
    var blocks := Blocks(items, app, job.name);
    ActionExactly(cfg.hash, Entries(items), app, job);
    forall i: nat ensures Copies(blocks, i) > 0 <==> i < |job.schedules| {
      CopiesListed(items, app, job.name, i);
    }
    if NoneTwice(blocks) {
      forall i: nat ensures Copies(blocks, i) == if i < |job.schedules| then 1 else 0 {
        assert Copies(blocks, i) <= 1;
      }
    }
  }

  lemma {:induction false} LastHashConcat(a: seq<ManagedEntry>, b: seq<ManagedEntry>, app: string, job: string, i: nat)
    ensures LastHash(a + b, app, job, i) ==
            var last := LastHash(b, app, job, i); if last.Some? then last else LastHash(a, app, job, i)
  {
    if b == [] {
      ConcatEmpty(a);
    } else {
      LastHashConcat(a, b[..|b| - 1], app, job, i);
      ConcatFront(a, b);
    }
  }
}

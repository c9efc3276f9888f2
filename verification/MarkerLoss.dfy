/** Losing the owner lines of a job and adopting it again: exactly when this restores the file. */
module MarkerLoss {
  import opened Wrappers
  import opened Sequences
  import opened Text
  import opened NormalizedManifests
  import opened OwnerLine
  import opened CrontabLines
  import opened Cron
  import opened Commands
  import opened Crontab
  import opened Matching
  import opened Insertions
  import opened Adoption
  import opened AdoptedFiles
  import opened Converge
  import opened JobBlocks
  import opened Convergence
  import opened LostMarkers
  import opened CrontabRuns
  import opened AdoptedPlans

  // ---- Adopting what was lost ---------------------------------------------------------------------

  /** The lines `Adopt` leaves. */
  function LinesAfterAdopt(cfg: Config, lines: seq<string>, app: string, job: NormalizedJob): seq<string> {
    if Answer(cfg, lines, app, job, false).adopted then AdoptedLines(cfg, lines, app, job) else lines
  }

  /** A cron text `Adopt` reads back unchanged: its fields stand one space apart and the line is no comment. */
  predicate ReadsBack(cron: string) { Join(Fields(cron), ' ') == cron && cron != "" && cron[0] != '#' }

  /** Every line that is rendered for the job is one `Adopt` reads back. */
  ghost predicate Readable(cfg: Config, job: NormalizedJob)
    requires Translates(job.schedules)
  {
    job.schedules == []
    || (PlainBin(cfg.triggerBin) && forall k :: 0 <= k < |job.schedules| ==> ReadsBack(Wanted(job.schedules)[k]))
  }

  ghost predicate Fits(app: string, job: NormalizedJob) {
    IsName(app) && IsName(job.name) && |job.schedules| <= MAX_SCHEDULES_PER_JOB && Translates(job.schedules)
  }

  lemma RenderNextBlock(cfg: Config, app: string, job: NormalizedJob, n: nat)
    requires Translates(job.schedules) && n < |job.schedules|
    ensures RenderUpTo(cfg, app, job, n + 1) ==
            RenderUpTo(cfg, app, job, n) + [RenderBlock(cfg, app, job, n, Wanted(job.schedules)[n])]
  {
    hide Translate, RenderBlock;
  }

  lemma {:induction false} RenderedAt(cfg: Config, app: string, job: NormalizedJob, n: nat)
    requires Translates(job.schedules) && n <= |job.schedules|
    ensures |RenderUpTo(cfg, app, job, n)| == n
    ensures forall k :: 0 <= k < n ==>
              RenderUpTo(cfg, app, job, n)[k] == RenderBlock(cfg, app, job, k, Wanted(job.schedules)[k])
  {
    hide Translates, RenderBlock, RenderUpTo;
    if n == 0 {
      NothingToRender(cfg, app, job);
    } else {
      RenderedAt(cfg, app, job, n - 1);
      RenderNextBlock(cfg, app, job, n - 1);
    }
  }

  /** A rendered schedule line reads as its cron text with the spacing normalised, or not at all. */
  lemma ScheduleReads(cfg: Config, app: string, job: NormalizedJob, k: nat)
    requires Fits(app, job) && k < |job.schedules|
    ensures var cron := Wanted(job.schedules)[k];
            cron != "" &&
            Invokes(RenderBlock(cfg, app, job, k, cron).schedule, ExpectedTail(cfg.triggerBin, app, job.name)) ==
            if PlainBin(cfg.triggerBin) && cron[0] != '#' then Some(Join(Fields(cron), ' ')) else None
  {
    hide Translate, RenderSchedule, RenderMarker, IsName, MatchOwner, Invokes, ExpectedTail, Join, Fields;
    TranslationsFiveFielded(job.schedules[k]);
    InvokesRendered(Wanted(job.schedules)[k], cfg.triggerBin, app, job.name);
  }

  /** The file as it is before the loss: the job has exactly its rendered blocks, and no other line invokes it. */
  ghost predicate Installed(cfg: Config, items: seq<Item>, app: string, job: NormalizedJob) {
    && ValidItems(items) && Fits(app, job)
    && Blocks(items, app, job.name) == RenderItems(cfg, app, job)
    && ItemCandidates(items, ExpectedTail(cfg.triggerBin, app, job.name)) == []
  }

  lemma {:induction false} AllCandidates(at: seq<nat>, blocks: seq<Item>, tail: string, wanted: seq<string>)
    requires |at| == |blocks| == |wanted|
    requires forall k :: 0 <= k < |blocks| ==> blocks[k].Block? && Invokes(blocks[k].schedule, tail) == Some(wanted[k])
    ensures var cands := OwnCandidates(at, blocks, tail);
            |cands| == |at| && forall k :: 0 <= k < |at| ==> cands[k] == Candidate(at[k], wanted[k])
  {
    hide Invokes;
    if blocks != [] {
      var n := |blocks| - 1;
      AllCandidates(at[..n], blocks[..n], tail, wanted[..n]);
    }
  }

  lemma {:induction false} OwnCandidateAt(at: seq<nat>, blocks: seq<Item>, tail: string, c: nat)
    requires |at| == |blocks| && forall k :: 0 <= k < |blocks| ==> blocks[k].Block?
    requires c < |OwnCandidates(at, blocks, tail)|
    ensures var cand := OwnCandidates(at, blocks, tail)[c];
            exists k :: 0 <= k < |at| && at[k] == cand.line && Invokes(blocks[k].schedule, tail) == Some(cand.cron)
  {
    hide Invokes;
    var n := |blocks| - 1;
    if c < |OwnCandidates(at[..n], blocks[..n], tail)| {
      OwnCandidateAt(at[..n], blocks[..n], tail, c);
      var cand := OwnCandidates(at, blocks, tail)[c];
      var k :| 0 <= k < n && at[..n][k] == cand.line && Invokes(blocks[..n][k].schedule, tail) == Some(cand.cron);
      assert at[k] == cand.line && Invokes(blocks[k].schedule, tail) == Some(cand.cron);
    } else {
      assert at[n] == OwnCandidates(at, blocks, tail)[c].line;
    }
  }

  /** All that the proof needs to know of the file after the loss. */
  lemma AfterLoss(cfg: Config, items: seq<Item>, app: string, job: NormalizedJob)
    requires Installed(cfg, items, app, job)
    ensures var lost, at := Flatten(LostItems(items, app, job.name)), At(items, app, job.name);
            var blocks, tail := RenderItems(cfg, app, job), ExpectedTail(cfg.triggerBin, app, job.name);
            && |at| == |blocks| == |job.schedules|
            && (forall k :: 0 <= k < |blocks| ==>
                 blocks[k] == RenderBlock(cfg, app, job, k, Wanted(job.schedules)[k]))
            && Candidates(lost, tail) == OwnCandidates(at, blocks, tail)
            && InsertAll(lost, OwnMarks(items, app, job.name)) == Flatten(items)
            && MarksAt(OwnMarks(items, app, job.name), at, blocks)
  {
    hide Translates, RenderUpTo, RenderBlock, Invokes, CandidatesUpTo, InsertUpTo, OwnMarks, At, LostItems, IsName,
      ExpectedTail, Blocks, ValidItems, ItemCandidates, OwnCandidates, MarksAt;
    var tail := ExpectedTail(cfg.triggerBin, app, job.name);
    RenderedAt(cfg, app, job, |job.schedules|);
    LoseFlatten(items, app, job.name);
    CandidatesOfItems(LostItems(items, app, job.name), tail);
    LostCandidates(items, app, job.name, tail);
    OwnMarksAre(items, app, job.name);
    OwnMarksRestore(items, app, job.name);
  }

  lemma MarkBehind(cfg: Config, lines: seq<string>, app: string, job: NormalizedJob, cands: seq<Candidate>,
      matched: seq<int>, i: nat, k: nat)
    requires Fits(app, job) && Adopts(cfg, lines, app, job, cands, matched) && k < |job.schedules|
    requires var marks := MarksOf(MarkersFor(cfg, app, job, cands, matched));
             i in marks && marks[i] == RenderMarker(app, job.name, cfg.hash(job, k), k)
    ensures cands[matched[k]].line == i
  {
    hide Translate, RenderMarker, IsName, MarksOf, Candidates, Complete;
    var marks := MarksOf(MarkersFor(cfg, app, job, cands, matched));
    ScheduleMarks(cfg, lines, app, job, cands, matched);
    var w: nat :| MarkOf(cfg, app, job, cands, matched, i, w, marks[i]);
    MarkersDiffer(cfg, app, job, w, k);
  }

  lemma MarkersDiffer(cfg: Config, app: string, job: NormalizedJob, v: nat, w: nat)
    requires Fits(app, job) && v < |job.schedules| && w < |job.schedules|
    requires RenderMarker(app, job.name, cfg.hash(job, v), v) == RenderMarker(app, job.name, cfg.hash(job, w), w)
    ensures v == w
  {
    hide RenderMarker, IsName, MatchOwner, Translates;
    MarkerOwned(cfg, app, job, v);
    MarkerOwned(cfg, app, job, w);
  }

  lemma AdoptsCandidates(cfg: Config, lines: seq<string>, app: string, job: NormalizedJob, cands: seq<Candidate>,
      matched: seq<int>)
    requires Adopts(cfg, lines, app, job, cands, matched)
    ensures cands == Candidates(lines, ExpectedTail(cfg.triggerBin, app, job.name)) && |matched| == |job.schedules|
    ensures Matches(matched, cands, |job.schedules|)
  {}

  /** When every schedule line reads back, adopting after the loss of the owner lines restores the file. */
  lemma LossRestored(cfg: Config, items: seq<Item>, app: string, job: NormalizedJob)
    requires Installed(cfg, items, app, job) && job.schedules != [] && Readable(cfg, job)
    ensures LinesAfterAdopt(cfg, Flatten(LostItems(items, app, job.name)), app, job) == Flatten(items)
  {
    hide Translates, IsName, Answer, AdoptedLines, RenderUpTo, CandidatesUpTo, ReadsBack, InsertUpTo, Greedy, Adopts,
      ExpectedTail, PlainBin, Installed, MarksOf, OwnMarks, MarkersFor, LostItems, At, ManagedCount, ListEntries,
      Join, Fields, Invokes, MarksAt;
    InstalledFits(cfg, items, app, job);
    var lost, wanted := Flatten(LostItems(items, app, job.name)), Wanted(job.schedules);
    var at, blocks := At(items, app, job.name), RenderItems(cfg, app, job);
    var tail := ExpectedTail(cfg.triggerBin, app, job.name);
    AfterLoss(cfg, items, app, job);
    forall k | 0 <= k < |blocks| ensures blocks[k].Block? && Invokes(blocks[k].schedule, tail) == Some(wanted[k]) {
      ReadableReads(cfg, app, job, k);
    }
    AllCandidates(at, blocks, tail, wanted);
    assert Crons(Candidates(lost, tail)) == wanted;
    AdoptsExactly(cfg, lost, app, job);
    var cands, matched := AdoptionOf(cfg, lost, app, job);
    AdoptsCandidates(cfg, lost, app, job, cands, matched);
    GreedySelf(wanted, |wanted|);
    TakeAll(wanted);
    MatchedInOrder(cfg, lost, app, job, cands, matched, at);
    SameMarks(cfg, app, job, MarksOf(MarkersFor(cfg, app, job, cands, matched)), OwnMarks(items, app, job.name), at,
              blocks);
  }

  lemma InstalledFits(cfg: Config, items: seq<Item>, app: string, job: NormalizedJob)
    requires Installed(cfg, items, app, job)
    ensures Fits(app, job)
  {}

  lemma ReadableReads(cfg: Config, app: string, job: NormalizedJob, k: nat)
    requires Fits(app, job) && k < |job.schedules| && Readable(cfg, job)
    ensures var block := RenderBlock(cfg, app, job, k, Wanted(job.schedules)[k]);
            block.Block? && Invokes(block.schedule, ExpectedTail(cfg.triggerBin, app, job.name)) ==
              Some(Wanted(job.schedules)[k])
  {
    hide Translate, RenderSchedule, RenderMarker, IsName, Invokes, ExpectedTail, Join, Fields, PlainBin;
    ScheduleReads(cfg, app, job, k);
  }

  /** The owner lines of an adoption in order, each at its place. */
  ghost predicate MarksInOrder(cfg: Config, app: string, job: NormalizedJob, marks: map<nat, string>, at: seq<nat>) {
    && |at| == |job.schedules| && (forall i :: i in marks <==> i in at)
    && forall k :: 0 <= k < |at| ==> at[k] in marks && marks[at[k]] == RenderMarker(app, job.name, cfg.hash(job, k), k)
  }

  lemma MatchedInOrder(cfg: Config, lost: seq<string>, app: string, job: NormalizedJob, cands: seq<Candidate>,
      matched: seq<int>, at: seq<nat>)
    requires Adopts(cfg, lost, app, job, cands, matched) && Matches(matched, cands, |job.schedules|)
    requires |at| == |cands| == |job.schedules|
    requires forall k :: 0 <= k < |at| ==> cands[k].line == at[k] && matched[k] == k
    ensures MarksInOrder(cfg, app, job, MarksOf(MarkersFor(cfg, app, job, cands, matched)), at)
  {
    hide RenderMarker, MarksOf, MarkersFor, Adopts;
    var marks := MarksOf(MarkersFor(cfg, app, job, cands, matched));
    forall k | 0 <= k < |at|
      ensures at[k] in marks && marks[at[k]] == RenderMarker(app, job.name, cfg.hash(job, k), k)
    {
      PlaceMarked(cfg, lost, app, job, cands, matched, k);
    }
    forall i | i in marks ensures i in at {
      var w := MarkPlaced(cfg, lost, app, job, cands, matched, i);
      assert at[w] == i;
    }
  }

  lemma SameMarks(cfg: Config, app: string, job: NormalizedJob, marks: map<nat, string>, own: map<nat, string>,
      at: seq<nat>, blocks: seq<Item>)
    requires Translates(job.schedules) && |at| == |blocks| == |job.schedules|
    requires MarksInOrder(cfg, app, job, marks, at) && MarksAt(own, at, blocks)
    requires forall k :: 0 <= k < |blocks| ==> blocks[k] == RenderBlock(cfg, app, job, k, Wanted(job.schedules)[k])
    ensures marks == own
  {
    hide Translate, RenderMarker, RenderSchedule;
    forall i | i in marks ensures i in own && marks[i] == own[i] {
      var k :| 0 <= k < |at| && at[k] == i;
      assert blocks[k].marker == own[at[k]];
    }
    forall i | i in own ensures i in marks {}
  }

  /** An adoption that restores the file can only have read every schedule line back. */
  lemma RestoredReadsBack(cfg: Config, items: seq<Item>, app: string, job: NormalizedJob)
    requires Installed(cfg, items, app, job) && job.schedules != []
    requires LinesAfterAdopt(cfg, Flatten(LostItems(items, app, job.name)), app, job) == Flatten(items)
    ensures Readable(cfg, job)
  {
    hide Translates, IsName, Answer, AdoptedLines, RenderUpTo, CandidatesUpTo, InsertUpTo, Greedy, Adopts,
      ExpectedTail, PlainBin, Installed, MarksOf, OwnMarks, MarkersFor, LostItems, At, ReadsBack, MarksAt, Flatten;
    var lost, at := Flatten(LostItems(items, app, job.name)), At(items, app, job.name);
    var blocks := RenderItems(cfg, app, job);
    InstalledFits(cfg, items, app, job);
    AfterLoss(cfg, items, app, job);
    RestoredIsAdopted(cfg, items, app, job);
    var cands, matched := AdoptionOf(cfg, lost, app, job);
    AdoptsCandidates(cfg, lost, app, job, cands, matched);
    var marks := MarksOf(MarkersFor(cfg, app, job, cands, matched));
    RestoredMarks(cfg, items, app, job, cands, matched);
    forall k | 0 <= k < |job.schedules| ensures PlainBin(cfg.triggerBin) && ReadsBack(Wanted(job.schedules)[k]) {
      OwnMarkAt(cfg, items, app, job, k);
      assert at[k] in marks && marks[at[k]] == RenderMarker(app, job.name, cfg.hash(job, k), k);
      MarkBehind(cfg, lost, app, job, cands, matched, at[k], k);
      ReadAt(cfg, items, app, job, cands, matched, k);
    }
  }

  lemma OwnMarkAt(cfg: Config, items: seq<Item>, app: string, job: NormalizedJob, k: nat)
    requires Installed(cfg, items, app, job) && k < |job.schedules|
    ensures var at, own := At(items, app, job.name), OwnMarks(items, app, job.name);
            k < |at| && at[k] in own && own[at[k]] == RenderMarker(app, job.name, cfg.hash(job, k), k)
  {
    hide Translates, IsName, RenderUpTo, CandidatesUpTo, InsertUpTo, RenderSchedule, RenderMarker, Installed, OwnMarks,
      At;
    InstalledFits(cfg, items, app, job);
    AfterLoss(cfg, items, app, job);
  }

  /** The schedule line at the place of a schedule reads as that schedule. */
  lemma ReadAt(cfg: Config, items: seq<Item>, app: string, job: NormalizedJob, cands: seq<Candidate>,
      matched: seq<int>, k: nat)
    requires Installed(cfg, items, app, job) && k < |job.schedules|
    requires cands == Candidates(Flatten(LostItems(items, app, job.name)), ExpectedTail(cfg.triggerBin, app, job.name))
    requires Translates(job.schedules) && matched == Greedy(Wanted(job.schedules), Crons(cands))
    requires 0 <= matched[k] < |cands| && k < |At(items, app, job.name)|
    requires cands[matched[k]].line == At(items, app, job.name)[k]
    ensures PlainBin(cfg.triggerBin) && ReadsBack(Wanted(job.schedules)[k])
  {
    hide Translates, IsName, RenderUpTo, CandidatesUpTo, InsertUpTo, RenderSchedule, RenderMarker, Installed, OwnMarks,
      At, Greedy, Flatten, LostItems, ExpectedTail, PlainBin, Invokes, Join, Fields, MarksAt;
    var at, blocks := At(items, app, job.name), RenderItems(cfg, app, job);
    var tail := ExpectedTail(cfg.triggerBin, app, job.name);
    InstalledFits(cfg, items, app, job);
    AfterLoss(cfg, items, app, job);
    OwnCandidateAt(at, blocks, tail, matched[k]);
    OwnMarksAre(items, app, job.name);
    var j :| 0 <= j < |at| && at[j] == cands[matched[k]].line
      && Invokes(blocks[j].schedule, tail) == Some(cands[matched[k]].cron);
    assert j == k;
    assert Crons(cands)[matched[k]] == Wanted(job.schedules)[k];
    ScheduleReads(cfg, app, job, k);
  }

  /** An answer that leaves more lines than there were is an adoption. */
  lemma RestoredIsAdopted(cfg: Config, items: seq<Item>, app: string, job: NormalizedJob)
    requires Installed(cfg, items, app, job) && job.schedules != []
    requires LinesAfterAdopt(cfg, Flatten(LostItems(items, app, job.name)), app, job) == Flatten(items)
    ensures Answer(cfg, Flatten(LostItems(items, app, job.name)), app, job, false).adopted
  {
    hide Answer, AdoptedLines, RenderUpTo, Flatten, LostItems, Installed;
    InstalledFits(cfg, items, app, job);
    RenderedAt(cfg, app, job, |job.schedules|);
    BlocksLost(items, app, job.name);
    assert |Blocks(items, app, job.name)| == |job.schedules| by { InstalledBlocks(cfg, items, app, job); }
  }

  lemma InstalledBlocks(cfg: Config, items: seq<Item>, app: string, job: NormalizedJob)
    requires Installed(cfg, items, app, job)
    ensures Blocks(items, app, job.name) == RenderItems(cfg, app, job)
  {}

  lemma {:induction false} BlocksLost(items: seq<Item>, app: string, job: string)
    ensures |Flatten(items)| == |Flatten(LostItems(items, app, job))| + |Blocks(items, app, job)|
  {
    if items != [] {
      BlocksLost(items[..|items| - 1], app, job);
      FlattenAppend(LostItems(items[..|items| - 1], app, job), LostItem(items[|items| - 1], app, job));
    }
  }

  /** The owner lines that restore the file are the lost ones. */
  lemma RestoredMarks(cfg: Config, items: seq<Item>, app: string, job: NormalizedJob, cands: seq<Candidate>,
      matched: seq<int>)
    requires Installed(cfg, items, app, job)
    requires Adopts(cfg, Flatten(LostItems(items, app, job.name)), app, job, cands, matched)
    requires InsertAll(Flatten(LostItems(items, app, job.name)), MarksOf(MarkersFor(cfg, app, job, cands, matched))) ==
             Flatten(items)
    ensures var own := OwnMarks(items, app, job.name);
            var marks := MarksOf(MarkersFor(cfg, app, job, cands, matched));
            forall i :: i in own ==> i in marks && marks[i] == own[i]
  {
    hide RenderUpTo, CandidatesUpTo, InsertUpTo, Installed, OwnMarks, At, MarksOf, MarkersFor, Flatten, LostItems,
      Adopts, ExpectedTail, Translates, MarksAt;
    var lost, own := Flatten(LostItems(items, app, job.name)), OwnMarks(items, app, job.name);
    InstalledFits(cfg, items, app, job);
    AfterLoss(cfg, items, app, job);
    AdoptsCandidates(cfg, lost, app, job, cands, matched);
    var marks := MarksOf(MarkersFor(cfg, app, job, cands, matched));
    forall i | i in marks ensures i in own { MarkIsOwn(cfg, items, app, job, cands, matched, i); }
    InsertInjective(lost, marks, own, |lost|);
    MarksWithin(own, lost, items, app, job.name);
  }

  lemma MarksWithin(own: map<nat, string>, lost: seq<string>, items: seq<Item>, app: string, job: string)
    requires own == OwnMarks(items, app, job) && lost == Flatten(LostItems(items, app, job))
    ensures forall i :: i in own ==> i < |lost|
  {
    hide Flatten, LostItems, MarksAt, Increasing, OwnMarks, At;
    OwnMarksAre(items, app, job);
    MarksBelow(own, At(items, app, job), Blocks(items, app, job), |lost|);
  }

  lemma MarkIsOwn(cfg: Config, items: seq<Item>, app: string, job: NormalizedJob, cands: seq<Candidate>,
      matched: seq<int>, i: nat)
    requires Installed(cfg, items, app, job) && Matches(matched, cands, |job.schedules|)
    requires Adopts(cfg, Flatten(LostItems(items, app, job.name)), app, job, cands, matched)
    requires i in MarksOf(MarkersFor(cfg, app, job, cands, matched))
    ensures i in OwnMarks(items, app, job.name)
  {
    hide RenderUpTo, CandidatesUpTo, InsertUpTo, Installed, OwnMarks, At, MarksOf, MarkersFor, Flatten, LostItems,
      ExpectedTail, Complete, Invokes, Translates, IsName, RenderMarker, OwnCandidates;
    var lost, at := Flatten(LostItems(items, app, job.name)), At(items, app, job.name);
    var w := MarkPlaced(cfg, lost, app, job, cands, matched, i);
    AfterLoss(cfg, items, app, job);
    OwnCandidateAt(at, RenderItems(cfg, app, job), ExpectedTail(cfg.triggerBin, app, job.name), matched[w]);
  }

  lemma NothingToAdopt(cfg: Config, items: seq<Item>, app: string, job: NormalizedJob)
    requires Installed(cfg, items, app, job) && job.schedules == []
    ensures LinesAfterAdopt(cfg, Flatten(LostItems(items, app, job.name)), app, job) == Flatten(items)
  {
    hide RenderMarker, IsName, CandidatesUpTo, Installed, OwnMarks, MarksOf, InsertUpTo, Flatten, LostItems,
      ExpectedTail, Answer, AdoptedLines, At;
    var lost := Flatten(LostItems(items, app, job.name));
    InstalledFits(cfg, items, app, job);
    AfterLoss(cfg, items, app, job);
    assert OwnMarks(items, app, job.name) == map[];
    NoMarksBelow(lost, map[], |lost|);
    TakeAll(lost);
    if Answer(cfg, lost, app, job, false).adopted {
      var cands, matched := AdoptionOf(cfg, lost, app, job);
      assert MarkersFor(cfg, app, job, cands, matched) == [];
      NoMarks(lost);
    }
  }

  /** On items: the adoption restores what was there exactly when every schedule line is one that `Adopt` reads back. */
  lemma RestoredIff(cfg: Config, items: seq<Item>, app: string, job: NormalizedJob)
    requires Installed(cfg, items, app, job)
    ensures Translates(job.schedules)
    ensures LinesAfterAdopt(cfg, Flatten(LostItems(items, app, job.name)), app, job) == Flatten(items)
            <==> Readable(cfg, job)
  {
    hide Installed, LinesAfterAdopt, LostItems, Flatten, PlainBin, ReadsBack, Translates;
    InstalledFits(cfg, items, app, job);
    if job.schedules == [] {
      NothingToAdopt(cfg, items, app, job);
    } else {
      if LinesAfterAdopt(cfg, Flatten(LostItems(items, app, job.name)), app, job) == Flatten(items) {
        RestoredReadsBack(cfg, items, app, job);
      }
      if Readable(cfg, job) {
        LossRestored(cfg, items, app, job);
      }
    }
  }

  // ---- On the file --------------------------------------------------------------------------------

  lemma {:induction false} LoseClean(lines: seq<string>, app: string, job: string)
    requires Clean(lines)
    ensures Clean(LoseMarkers(lines, app, job))
  {
    hide OwnedBy, CleanLine;
    if lines != [] {
      LoseClean(lines[..|lines| - 1], app, job);
    }
  }

  /** The file as it is on disk, once the owner lines of the job are gone. */
  function LostContent(content: string, app: string, job: string): string {
    Serialize(LoseMarkers(ParseLines(content), app, job))
  }

  lemma AdoptOnDisk(cfg: Config, lost: seq<string>, app: string, job: NormalizedJob)
    requires Clean(lost) && Fits(app, job)
    ensures AdoptContent(cfg, Serialize(lost), app, job, false) == Serialize(LinesAfterAdopt(cfg, lost, app, job))
    ensures Clean(LinesAfterAdopt(cfg, lost, app, job))
  {
    hide ParseLines, Serialize, Answer, AdoptedLines, Clean, IsName, Translates;
    ReadBack(lost);
    if Answer(cfg, lost, app, job, false).adopted {
      AdoptedClean(cfg, lost, app, job);
    }
  }

  /** Marker loss and adoption, exactly.  In a file whose blocks of a job are those a create or update has rendered,
      wherever they stand, and in which no other line invokes the job: adopting the job after its owner lines were lost
      restores the file, byte for byte, if and only if the trigger path does not begin with white space, the fields of
      every translated schedule stand one space apart, and none of these texts begins with `#`. */
  lemma AdoptUndoesMarkerLoss(cfg: Config, content: string, app: string, job: NormalizedJob)
    requires GoodFile(content) && content == Serialize(ParseLines(content)) && Fits(app, job)
    requires BlocksIn(content, app, job.name) == RenderItems(cfg, app, job)
    requires Candidates(ParseLines(content), ExpectedTail(cfg.triggerBin, app, job.name)) == []
    ensures AdoptContent(cfg, LostContent(content, app, job.name), app, job, false) == content <==> Readable(cfg, job)
  {
    hide ParseLines, Serialize, AdoptContent, Clean, WellFormed, IsName, Translates, RenderUpTo, CandidatesUpTo,
      Readable, LinesAfterAdopt, ExpectedTail;
    var lines, items := ParseLines(content), Items(ParseLines(content));
    WellFormedIffItems(lines);
    FlattenItems(lines);
    CandidatesOfItems(items, ExpectedTail(cfg.triggerBin, app, job.name));
    LoseFlatten(items, app, job.name);
    RestoredIff(cfg, items, app, job);
    var lost := LoseMarkers(lines, app, job.name);
    LoseClean(lines, app, job.name);
    AdoptOnDisk(cfg, lost, app, job);
    ReadBack(LinesAfterAdopt(cfg, lost, app, job));
  }

  // ---- In the course of a run ---------------------------------------------------------------------

  lemma {:induction false} CandidatesFromPlains(items: seq<Item>, tail: string)
    ensures ItemCandidates(items, tail) == [] <==> forall line :: line in Plains(items) ==> Invokes(line, tail).None?
  {
    hide Invokes;
    if items != [] {
      CandidatesFromPlains(items[..|items| - 1], tail);
    }
  }

  /** What an edit of another job leaves as it is: the job's blocks, and that no other line invokes it. */
  lemma {:induction false} RunLeaves(cfg: Config, items: seq<Item>, edits: seq<Edit>, app: string, job: string,
      tail: string)
    requires forall k :: 0 <= k < |edits| ==> !(edits[k].app == app && NameOf(edits[k]) == job)
    ensures Blocks(RunItems(cfg, items, edits), app, job) == Blocks(items, app, job)
    ensures ItemCandidates(RunItems(cfg, items, edits), tail) == [] <==> ItemCandidates(items, tail) == []
    decreases |edits|
  {
    hide EditItems, Blocks, ItemCandidates, NameOf;
    if edits != [] {
      var after := EditItems(cfg, items, edits[0]);
      EditBlocks(cfg, items, edits[0], app, job);
      EditPlains(cfg, items, edits[0]);
      CandidatesFromPlains(items, tail);
      CandidatesFromPlains(after, tail);
      RunLeaves(cfg, after, edits[1..], app, job, tail);
    }
  }

  lemma CreatedItems(cfg: Config, before: seq<Item>, app: string, job: NormalizedJob, tail: string)
    requires Blocks(before, app, job.name) == [] && ItemCandidates(before, tail) == []
    ensures var items := before + RenderItems(cfg, app, job);
            Blocks(items, app, job.name) == RenderItems(cfg, app, job) && ItemCandidates(items, tail) == []
  {
    hide RenderUpTo, Plains, Blocks, ItemCandidates, Invokes;
    CandidatesFromPlains(before, tail);
    CandidatesFromPlains(before + RenderItems(cfg, app, job), tail);
    EditPlains(cfg, before, CreateJob(app, job));
    BlocksRendered(cfg, app, job, |job.schedules|, app, job.name);
    BlocksConcat(before, RenderItems(cfg, app, job), app, job.name);
    ConcatEmpty(RenderItems(cfg, app, job));
  }

  lemma CreatedHolds(cfg: Config, content: string, app: string, job: NormalizedJob, tail: string)
    requires GoodConfig(cfg) && GoodFile(content) && Fits(app, job) && OneLined(job)
    requires BlocksIn(content, app, job.name) == [] && Candidates(ParseLines(content), tail) == []
    ensures var create, items := CreateJob(app, job), Items(ParseLines(content)) + RenderItems(cfg, app, job);
            && Holds(EditContent(cfg, content, create), items)
            && EditContent(cfg, content, create) == Serialize(Flatten(items))
            && Blocks(items, app, job.name) == RenderItems(cfg, app, job) && ItemCandidates(items, tail) == []
  {
    hide ParseLines, Serialize, IsName, Translates, RenderUpTo, CandidatesUpTo, Holds, GoodFile, OneLined, Blocks,
      EditContent, ItemCandidates, Flatten;
    var before, create := Items(ParseLines(content)), CreateJob(app, job);
    HoldsItems(content);
    EditHolds(cfg, content, before, create);
    HoldsValid(content, before);
    HoldsLines(content, before);
    CandidatesOfItems(before, tail);
    CreatedItems(cfg, before, app, job, tail);
  }

  lemma HoldsLines(content: string, items: seq<Item>)
    requires Holds(content, items)
    ensures ParseLines(content) == Flatten(items)
  {}

  /** So after a create and any edits of other jobs, whichever those are and wherever they have put their blocks. */
  lemma MarkerLossInRun(cfg: Config, start: string, app: string, job: NormalizedJob, edits: seq<Edit>)
    requires GoodConfig(cfg) && GoodFile(start) && Fits(app, job) && OneLined(job)
    requires BlocksIn(start, app, job.name) == []
    requires Candidates(ParseLines(start), ExpectedTail(cfg.triggerBin, app, job.name)) == []
    requires GoodEdits(edits) && forall k :: 0 <= k < |edits| ==> !(edits[k].app == app && NameOf(edits[k]) == job.name)
    ensures var content := RunContent(cfg, EditContent(cfg, start, CreateJob(app, job)), edits);
            AdoptContent(cfg, LostContent(content, app, job.name), app, job, false) == content <==> Readable(cfg, job)
  {
    hide ParseLines, Serialize, AdoptContent, EditContent, Clean, WellFormed, IsName, Translates, RenderUpTo,
      CandidatesUpTo, Readable, ExpectedTail, Holds, GoodFile, OneLined, Blocks, Flatten, LostContent, NameOf;
    var tail := ExpectedTail(cfg.triggerBin, app, job.name);
    var created := EditContent(cfg, start, CreateJob(app, job));
    var items := Items(ParseLines(start)) + RenderItems(cfg, app, job);
    CreatedHolds(cfg, start, app, job, tail);
    RunHolds(cfg, created, items, edits);
    RunLeaves(cfg, items, edits, app, job.name, tail);
    var content, last := RunContent(cfg, created, edits), RunItems(cfg, items, edits);
    HoldsGood(content, last);
    HoldsValid(content, last);
    HoldsLines(content, last);
    ItemsOnDisk(content, last);
    CandidatesOfItems(last, tail);
    assert content == Serialize(Flatten(last));
    AdoptUndoesMarkerLoss(cfg, content, app, job);
  }
}

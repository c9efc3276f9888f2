/** `backends/historyutil`: rebuilding the outcome of each fire from the log records of many. */
module History {
  import opened Wrappers
  import opened Sequences
  import opened Shim

  datatype Entry = Entry(
    runID: string, app: string, job: string, attempt: int, status: string, source: string, startedAt: nat,
        finishedAt: nat)

  /** `ClassifyShimEvent`: the status a record stands for, and whether it is the last word. */
  function Classify(msg: string): (string, bool) {
    if msg == "trigger: success" then ("ok", true)
    else if msg == "trigger: app rejected" then ("failed", true)
    else if msg == "trigger: retries exhausted" then ("failed", true)
    else if msg == "trigger: lock contended" then ("lock-contended", true)
    else if msg == "trigger: panic" then ("failed", true)
    else if msg == "trigger: attempt failed" || msg == "trigger: server error" then ("failed", false)
    else ("", false)
  }

  /** Whose history is asked for; an empty app or job asks for all of them. */
  datatype Query = Query(app: string, job: string, source: string, status: string)

  predicate Relevant(q: Query, rec: Record) {
    && rec.runID != ""
    && (q.app == "" || rec.app == "" || rec.app == q.app)
    && (q.job == "" || rec.job == "" || rec.job == q.job)
    && Classify(rec.msg).0 != ""
  }

  // ---- What the loop keeps, run by run ------------------------------------------------------------

  /** The run ids in the order of their first relevant record. */
  function Order(q: Query, records: seq<Record>): seq<string> {
    if records == [] then []
    else
      var before, last := Order(q, records[..|records| - 1]), records[|records| - 1];
      before + if Relevant(q, last) && last.runID !in before then [last.runID] else []
  }

  function Stamp(q: Query, known: Option<Entry>, rec: Record): Entry {
    var started := if known.Some? then known.value.startedAt else 0;
    Entry(rec.runID, q.app, q.job, rec.attempt, Classify(rec.msg).0, q.source,
          if started == 0 || rec.time < started then rec.time else started, rec.time)
  }

  /** What one more record makes of the entry of a run. */
  function Absorb(q: Query, known: Option<Entry>, rec: Record, id: string): Option<Entry> {
    if Relevant(q, rec) && rec.runID == id && (known.None? || Classify(rec.msg).1) then Some(Stamp(q, known, rec))
        else known
  }

  function AbsorbAll(q: Query, known: Option<Entry>, records: seq<Record>, id: string): Option<Entry> {
    if records == [] then known
    else Absorb(q, AbsorbAll(q, known, records[..|records| - 1], id), records[|records| - 1], id)
  }

  /** The entry of one run: its first relevant record, overridden by each record that has the last word. */
  function EntryFor(q: Query, records: seq<Record>, id: string): Option<Entry> { AbsorbAll(q, None, records, id) }

  lemma {:induction false} OrderExact(q: Query, records: seq<Record>, id: string)
    ensures id in Order(q, records) <==> EntryFor(q, records, id).Some?
  {
    if records != [] {
      OrderExact(q, records[..|records| - 1], id);
    }
  }

  predicate Wanted(q: Query, entry: Entry) { q.status == "" || entry.status == q.status }

  function Report(q: Query, records: seq<Record>, ids: seq<string>): seq<Entry> {
    if ids == [] then []
    else
      var n := |ids| - 1;
      var entry := EntryFor(q, records, ids[n]);
      Report(q, records, ids[..n]) + if entry.Some? && Wanted(q, entry.value) then [entry.value] else []
  }

  /** What `FoldShimLogs` returns. */
  function Folded(q: Query, records: seq<Record>): seq<Entry> { Report(q, records, Order(q, records)) }

  /** The map of the loop holds an entry for each run in the order. */
  ghost predicate Represents(q: Query, runs: map<string, Entry>, order: seq<string>, records: seq<Record>) {
    && order == Order(q, records)
    && (forall id :: id in runs <==> EntryFor(q, records, id).Some?)
    && (forall id :: id in runs ==> Some(runs[id]) == EntryFor(q, records, id))
  }

  lemma RepresentsNext(q: Query, runs: map<string, Entry>, order: seq<string>, records: seq<Record>, rec: Record)
    requires Represents(q, runs, order, records)
    ensures var known := if rec.runID in runs then Some(runs[rec.runID]) else None;
            if !Relevant(q, rec) then Represents(q, runs, order, records + [rec])
            else
              Represents(q,
                         if known.None? || Classify(rec.msg).1 then runs[rec.runID := Stamp(q, known, rec)] else runs,
                         if known.None? then order + [rec.runID] else order, records + [rec])
  {
    hide Relevant, Classify, Stamp;
    AppendFront(records, rec);
    OrderExact(q, records, rec.runID);
    ConcatEmpty(order);
  }

  /** `FoldShimLogs`, over the records that its lines decode to. */
  method FoldShimLogs(q: Query, records: seq<Record>) returns (out: seq<Entry>)
    ensures out == Folded(q, records)
  {
    hide Stamp;
    var runs: map<string, Entry> := map[];
    var order: seq<string> := [];
    var i := 0;
    while i < |records|
      invariant 0 <= i <= |records|
      invariant Represents(q, runs, order, records[..i])
    {
      var rec := records[i];
      RepresentsNext(q, runs, order, records[..i], rec);
      TakeNext(records, i);
      i := i + 1;
      if rec.runID == "" {
        continue;
      }
      if q.app != "" && rec.app != "" && rec.app != q.app {
        continue;
      }
      if q.job != "" && rec.job != "" && rec.job != q.job {
        continue;
      }
      var (status, terminal) := Classify(rec.msg);
      if status == "" {
        continue;
      }
      var known := if rec.runID in runs then Some(runs[rec.runID]) else None;
      if known.None? {
        order := order + [rec.runID];
      }
      if known.None? || terminal {
        runs := runs[rec.runID := Stamp(q, known, rec)];
      }
    }
    TakeAll(records);
    out := [];
    var k := 0;
    while k < |order|
      invariant 0 <= k <= |order|
      invariant out == Report(q, records, order[..k])
    {
      OrderExact(q, records, order[k]);
      TakeNext(order, k);
      var entry := runs[order[k]];
      if Wanted(q, entry) {
        out := out + [entry];
      }
      k := k + 1;
    }
    TakeAll(order);
  }

  // ---- Runs do not disturb one another ------------------------------------------------------------

  /** The records of one run, in order. */
  function Select(records: seq<Record>, id: string): seq<Record> {
    if records == [] then []
    else
      var last := records[|records| - 1];
      Select(records[..|records| - 1], id) + if last.runID == id then [last] else []
  }

  /** The entry of a run depends on the records of that run alone, whatever they are interleaved with. */
  lemma {:induction false} RunsAreIndependent(q: Query, records: seq<Record>, id: string)
    ensures EntryFor(q, records, id) == EntryFor(q, Select(records, id), id)
  {
    hide Relevant, Classify, Stamp;
    if records != [] {
      var front, last := records[..|records| - 1], records[|records| - 1];
      RunsAreIndependent(q, front, id);
      AppendFront(Select(front, id), last);
      ConcatEmpty(Select(front, id));
    }
  }

  lemma {:induction false} ReportMembers(q: Query, records: seq<Record>, ids: seq<string>, e: Entry)
    ensures e in Report(q, records, ids) <==> e.runID in ids && EntryFor(q, records, e.runID) == Some(e) && Wanted(q, e)
  {
    hide EntryFor;
    if ids != [] {
      var n := |ids| - 1;
      ReportMembers(q, records, ids[..n], e);
      FrontAndLast(ids);
      if EntryFor(q, records, ids[n]).Some? {
        EntryNamesRun(q, records, ids[n]);
      }
    }
  }

  lemma {:induction false} EntryNamesRun(q: Query, records: seq<Record>, id: string)
    requires EntryFor(q, records, id).Some?
    ensures EntryFor(q, records, id).value.runID == id
    ensures EntryFor(q, records, id).value.app == q.app && EntryFor(q, records, id).value.job == q.job
  {
    hide Relevant, Classify;
    if records != [] && EntryFor(q, records[..|records| - 1], id).Some? {
      EntryNamesRun(q, records[..|records| - 1], id);
    }
  }

  /** The report holds exactly the wanted entries. */
  lemma FoldedExactly(q: Query, records: seq<Record>, e: Entry)
    ensures e in Folded(q, records) <==> EntryFor(q, records, e.runID) == Some(e) && Wanted(q, e)
  {
    hide EntryFor;
    ReportMembers(q, records, Order(q, records), e);
    OrderExact(q, records, e.runID);
  }

  /** Where the first relevant record of a run is. */
  function FirstAt(q: Query, records: seq<Record>, id: string): nat {
    if records == [] then 0
    else if exists k :: 0 <= k < |records| - 1 && Relevant(q, records[k]) && records[k].runID == id
    then FirstAt(q, records[..|records| - 1], id)
    else |records| - 1
  }

  lemma {:induction false} OrderKnows(q: Query, records: seq<Record>, id: string)
    ensures id in Order(q, records) <==>
            exists k :: 0 <= k < |records| && Relevant(q, records[k]) && records[k].runID == id
    ensures id in Order(q, records) ==>
              var k := FirstAt(q, records, id); k < |records| && Relevant(q, records[k]) && records[k].runID == id
  {
    hide Relevant;
    if records != [] {
      var front := records[..|records| - 1];
      OrderKnows(q, front, id);
      forall k | 0 <= k < |front| ensures front[k] == records[k] {}
    }
  }

  /** Runs are reported in the order of their first relevant records. */
  lemma {:induction false} FirstRecordOrder(q: Query, records: seq<Record>, i: nat, j: nat)
    requires i < j < |Order(q, records)|
    ensures FirstAt(q, records, Order(q, records)[i]) < FirstAt(q, records, Order(q, records)[j])
  {
    hide Relevant;
    var front, last := records[..|records| - 1], records[|records| - 1];
    var before := Order(q, front);
    OrderKnows(q, front, Order(q, records)[i]);
    OrderKnows(q, front, Order(q, records)[j]);
    FirstAtFront(q, records, Order(q, records)[i]);
    FirstAtFront(q, records, Order(q, records)[j]);
    if j < |before| {
      FirstRecordOrder(q, front, i, j);
    }
  }

  lemma FirstAtFront(q: Query, records: seq<Record>, id: string)
    requires records != []
    ensures FirstAt(q, records, id) ==
            if id in Order(q, records[..|records| - 1]) then FirstAt(q, records[..|records| - 1], id) else |records| - 1
  {
    hide Relevant;
    var front := records[..|records| - 1];
    OrderKnows(q, front, id);
    forall k | 0 <= k < |front| ensures front[k] == records[k] {}
  }

  lemma {:induction false} ReportInOrder(q: Query, records: seq<Record>, ids: seq<string>, i: nat, j: nat)
    requires forall a, b :: 0 <= a < b < |ids| ==> FirstAt(q, records, ids[a]) < FirstAt(q, records, ids[b])
    requires i < j < |Report(q, records, ids)|
    ensures FirstAt(q, records, Report(q, records, ids)[i].runID) < FirstAt(q, records,
        Report(q, records, ids)[j].runID)
  {
    hide EntryFor, FirstAt;
    var n := |ids| - 1;
    var before := Report(q, records, ids[..n]);
    if j < |before| {
      ReportInOrder(q, records, ids[..n], i, j);
    } else {
      EntryNamesRun(q, records, ids[n]);
      ReportMembers(q, records, ids[..n], before[i]);
      assert before[i].runID in ids[..n];
    }
  }

  /** At most one entry for each run, in the order in which the runs first have something to say. */
  lemma FoldedInOrder(q: Query, records: seq<Record>, i: nat, j: nat)
    requires i < j < |Folded(q, records)|
    ensures var out := Folded(q, records);
            && out[i].runID != out[j].runID
            && FirstAt(q, records, out[i].runID) < FirstAt(q, records, out[j].runID)
  {
    hide FirstAt, Report, Order;
    var order := Order(q, records);
    forall a, b | 0 <= a < b < |order| ensures FirstAt(q, records, order[a]) < FirstAt(q, records, order[b]) {
      FirstRecordOrder(q, records, a, b);
    }
    ReportInOrder(q, records, order, i, j);
  }

  // ---- What a fire folds to -----------------------------------------------------------------------

  lemma {:induction false} AbsorbConcat(q: Query, known: Option<Entry>, a: seq<Record>, b: seq<Record>, id: string)
    ensures AbsorbAll(q, known, a + b, id) == AbsorbAll(q, AbsorbAll(q, known, a, id), b, id)
  {
    hide Absorb;
    if b == [] {
      ConcatEmpty(a);
    } else {
      AbsorbConcat(q, known, a, b[..|b| - 1], id);
      ConcatFront(a, b);
    }
  }

  lemma AbsorbOne(q: Query, known: Option<Entry>, rec: Record, id: string)
    ensures AbsorbAll(q, known, [rec], id) == Absorb(q, known, rec, id)
  {
    hide Absorb;
    assert [rec][..0] == [];
  }

  /** The query covers the job of the fire. */
  predicate Covers(q: Query, spec: Spec) {
    (q.app == "" || spec.app == "" || spec.app == q.app) && (q.job == "" || spec.job == "" || spec.job == q.job)
  }

  lemma WarningAbsorbed(q: Query, spec: Spec, world: World, known: Option<Entry>, k: nat)
    requires Covers(q, spec) && world.runID != ""
    ensures Absorb(q, known, Warning(spec, world, k), world.runID) ==
            if known.Some? then known else Some(Stamp(q, None, Warning(spec, world, k)))
  {
    hide Stamp;
  }

  /** The first warning is kept, the others change nothing. */
  lemma {:induction false} WarningsFold(q: Query, spec: Spec, world: World, known: Option<Entry>, from: nat, count: nat)
    requires Covers(q, spec) && world.runID != ""
    ensures AbsorbAll(q, known, Warnings(spec, world, from, count), world.runID) ==
            if known.Some? || count == 0 then known else Some(Stamp(q, None, Warning(spec, world, from)))
    decreases count
  {
    hide Stamp, AbsorbAll, Warning, Covers, Absorb;
    NothingAbsorbed(q, known, world.runID);
    if count > 0 {
      var first := Warning(spec, world, from);
      AbsorbConcat(q, known, [first], Warnings(spec, world, from + 1, count - 1), world.runID);
      AbsorbOne(q, known, first, world.runID);
      WarningAbsorbed(q, spec, world, known, from);
      WarningsFold(q, spec, world, Absorb(q, known, first, world.runID), from + 1, count - 1);
    }
  }

  /** Records that stand for nothing in the history. */
  predicate Silent(records: seq<Record>) { forall k :: 0 <= k < |records| ==> Classify(records[k].msg).0 == "" }

  lemma {:induction false} SilentFold(q: Query, known: Option<Entry>, records: seq<Record>, id: string)
    requires Silent(records)
    ensures AbsorbAll(q, known, records, id) == known
  {
    hide Stamp;
    if records != [] {
      SilentFold(q, known, records[..|records| - 1], id);
    }
  }

  /** What the warnings before the ending attempt leave. */
  function Warned(q: Query, spec: Spec, world: World, k: nat): Option<Entry> {
    if k == 1 then None else Some(Stamp(q, None, Warning(spec, world, 1)))
  }

  /** The entry that the attempts of a fire fold to. */
  function AttemptsEntry(q: Query, spec: Spec, world: World, k: nat): Option<Entry> {
    match world.attempts(k)
    case Panics => Warned(q, spec, world, k)
    case NoResponse => FailureEntry(q, spec, world, k)
    case Response(status) =>
      if Success(status) then Some(Stamp(q, Warned(q, spec, world, k), Logged(spec, world, "trigger: success", k, k)))
      else if Rejection(status) then Some(Stamp(q, Warned(q, spec, world, k),
          Logged(spec, world, "trigger: app rejected", k, k)))
      else FailureEntry(q, spec, world, k)
  }

  function FailureEntry(q: Query, spec: Spec, world: World, k: nat): Option<Entry> {
    var first := Stamp(q, None, Warning(spec, world, 1));
    if k == MaxAttempts(spec) then Some(Stamp(q, Some(first),
        Logged(spec, world, "trigger: retries exhausted", 0, k + 1)))
    else Some(first)
  }

  lemma AttemptsFold(q: Query, spec: Spec, world: World, k: nat)
    requires Covers(q, spec) && world.runID != "" && EndsAt(spec, world, 1, k)
    ensures AbsorbAll(q, None, Attempts(spec, world, 1).1, world.runID) == AttemptsEntry(q, spec, world, k)
  {
    hide Attempts, AbsorbAll, Stamp, Warnings, Ends;
    var warnings, last, id := Warnings(spec, world, 1, k - 1), LastRecords(spec, world, k), world.runID;
    AttemptsExactly(spec, world, 1, k);
    WarningsFold(q, spec, world, None, 1, k - 1);
    AbsorbConcat(q, None, warnings, last, id);
    LastFold(q, spec, world, k);
  }

  lemma LastFold(q: Query, spec: Spec, world: World, k: nat)
    requires Covers(q, spec) && world.runID != "" && k >= 1
    ensures AbsorbAll(q, Warned(q, spec, world, k), LastRecords(spec, world, k), world.runID) ==
        AttemptsEntry(q, spec, world, k)
  {
    hide Stamp, AbsorbAll, Covers, FailureRecords, FailureEntry, Warned, Logged, Absorb;
    var known, id := Warned(q, spec, world, k), world.runID;
    NothingAbsorbed(q, known, id);
    FailureFold(q, spec, world, k);
    AbsorbOne(q, known, Logged(spec, world, "trigger: success", k, k), id);
    AbsorbOne(q, known, Logged(spec, world, "trigger: app rejected", k, k), id);
    LastWord(q, spec, world, known, "trigger: success", k, k);
    LastWord(q, spec, world, known, "trigger: app rejected", k, k);
  }

  /** A record with the last word overrides whatever there was. */
  lemma LastWord(q: Query, spec: Spec, world: World, known: Option<Entry>, msg: string, attempt: int, tick: nat)
    requires Covers(q, spec) && world.runID != "" && Classify(msg).0 != "" && Classify(msg).1
    ensures var rec := Logged(spec, world, msg, attempt, tick);
            Absorb(q, known, rec, world.runID) == Some(Stamp(q, known, rec))
  {
    hide Stamp, Classify;
  }

  lemma FailureFold(q: Query, spec: Spec, world: World, k: nat)
    requires Covers(q, spec) && world.runID != "" && k >= 1
    ensures AbsorbAll(q, Warned(q, spec, world, k), FailureRecords(spec, world, k), world.runID) ==
        FailureEntry(q, spec, world, k)
  {
    hide Stamp, AbsorbAll, Covers, Warning, Logged, Absorb;
    var known, id := Warned(q, spec, world, k), world.runID;
    var warning, last := Warning(spec, world, k), Logged(spec, world, "trigger: retries exhausted", 0, k + 1);
    var first := Some(Stamp(q, None, Warning(spec, world, 1)));
    WarningAbsorbed(q, spec, world, known, k);
    AbsorbOne(q, known, warning, id);
    AbsorbConcat(q, known, [warning], [last], id);
    AbsorbOne(q, first, last, id);
    LastWord(q, spec, world, first, "trigger: retries exhausted", 0, k + 1);
    assert [warning] + [last] == [warning, last];
  }

  lemma NothingAbsorbed(q: Query, known: Option<Entry>, id: string)
    ensures AbsorbAll(q, known, [], id) == known
  {}

  /** The fire came to a panic after it had its run id. */
  predicate Panicked(spec: Spec, world: World, k: nat) {
    world.early.None? &&
    if spec.concurrency != "Allow" && spec.hasLock && !world.lock.Acquired? then world.lock.PanicsLocking?
    else world.attempts(k).Panics?
  }

  /** What the history shows for the exit of a fire. */
  ghost predicate Shows(spec: Spec, world: World, k: nat, res: Result, entry: Option<Entry>) {
    if res.exitCode == EXIT_OK then
      entry.Some? && entry.value.status == "ok" && entry.value.attempt == res.attempts
    else if res.exitCode == EXIT_APP_REJECTED then
      entry.Some? && entry.value.status == "failed" && entry.value.attempt == res.attempts
    else if res.exitCode == EXIT_RETRIES_EXHAUSTED then
      entry.Some? && entry.value.status == "failed" && entry.value.attempt == 0
    else if res.exitCode == EXIT_LOCK_CONTENDED then
      if spec.concurrency == "Replace" then entry.None?
      else entry.Some? && entry.value.status == "lock-contended" && entry.value.attempt == 0
    else
      && res.exitCode == EXIT_INTERNAL
      && (if Panicked(spec, world, k) then entry.Some? && entry.value.status == "failed" && entry.value.attempt == 0
          else if res.attempts > 0 then entry.Some? && entry.value.status == "failed" && entry.value.attempt == 1
          else entry.None?)
  }

  /** The records around the attempts say nothing about the outcome. */
  lemma RecoveredFold(q: Query, spec: Spec, world: World, k: nat, before: seq<Record>, after: seq<Record>)
    requires Covers(q, spec) && world.runID != "" && EndsAt(spec, world, 1, k)
    requires Silent(before) && Silent(after)
    ensures AbsorbAll(q, None, Recovered(spec, world, before, Attempts(spec, world, 1), after).1, world.runID) ==
            if world.attempts(k).Panics? then Some(Stamp(q, Warned(q, spec, world, k),
                Logged(spec, world, "trigger: panic", 0, 0)))
            else AttemptsEntry(q, spec, world, k)
  {
    hide Attempts, AbsorbAll, Stamp, Warnings, Ends, Covers, Silent, LastRecords, AttemptsEntry;
    var made, id := Attempts(spec, world, 1), world.runID;
    AttemptsExactly(spec, world, 1, k);
    AttemptsFold(q, spec, world, k);
    SilentFold(q, None, before, id);
    AbsorbConcat(q, None, before, made.1, id);
    AbsorbConcat(q, None, before + made.1, after, id);
    SilentFold(q, AttemptsEntry(q, spec, world, k), after, id);
    if world.attempts(k).Panics? {
      PanicFold(q, spec, world, k, before + made.1 + after);
    }
  }

  lemma PanicFold(q: Query, spec: Spec, world: World, k: nat, records: seq<Record>)
    requires Covers(q, spec) && world.runID != "" && world.attempts(k).Panics?
    requires AbsorbAll(q, None, records, world.runID) == AttemptsEntry(q, spec, world, k)
    ensures AbsorbAll(q, None, records + [Logged(spec, world, "trigger: panic", 0, 0)], world.runID) ==
            Some(Stamp(q, Warned(q, spec, world, k), Logged(spec, world, "trigger: panic", 0, 0)))
  {
    hide AbsorbAll, Stamp;
    var panic := Logged(spec, world, "trigger: panic", 0, 0);
    AbsorbConcat(q, None, records, [panic], world.runID);
    AbsorbOne(q, AttemptsEntry(q, spec, world, k), panic, world.runID);
  }

  /** The attempts alone show the exit they come to. */
  lemma AttemptsShow(q: Query, spec: Spec, world: World, k: nat)
    requires EndsAt(spec, world, 1, k) && !world.attempts(k).Panics?
    ensures LastResult(spec, world, k).Some?
    ensures var res, entry := LastResult(spec, world, k).value, AttemptsEntry(q, spec, world, k);
            && entry.Some? && res.attempts == k
            && (res.exitCode == EXIT_OK ==> entry.value.status == "ok" && entry.value.attempt == k)
            && (res.exitCode == EXIT_APP_REJECTED ==> entry.value.status == "failed" && entry.value.attempt == k)
            && (res.exitCode == EXIT_RETRIES_EXHAUSTED ==> entry.value.status == "failed" && entry.value.attempt == 0)
            && (res.exitCode == EXIT_INTERNAL ==> entry.value.status == "failed" && entry.value.attempt == 1)
            && res.exitCode != EXIT_LOCK_CONTENDED && 0 <= res.exitCode <= 3
  {}

  lemma RecoveredShows(q: Query, spec: Spec, world: World, k: nat, before: seq<Record>, after: seq<Record>)
    requires world.runID != "" && world.early.None? && Covers(q, spec) && EndsAt(spec, world, 1, k)
    requires spec.concurrency == "Allow" || !spec.hasLock || world.lock.Acquired?
    requires Silent(before) && Silent(after)
    ensures var fire := Recovered(spec, world, before, Attempts(spec, world, 1), after);
            Shows(spec, world, k, fire.0, AbsorbAll(q, None, fire.1, world.runID))
  {
    hide Attempts, AbsorbAll, Ends, Covers, LastRecords, AttemptsEntry, Warned, Silent, LastResult;
    AttemptsExactly(spec, world, 1, k);
    RecoveredFold(q, spec, world, k, before, after);
    if world.attempts(k).Panics? {
      PanicHasNoResult(spec, world, k);
    } else {
      AttemptsShow(q, spec, world, k);
    }
  }

  lemma PanicHasNoResult(spec: Spec, world: World, k: nat)
    requires world.attempts(k).Panics?
    ensures LastResult(spec, world, k).None?
  {}

  /** However the records of a fire are interleaved with those of others, the history shows its exit: success as ok,
      rejection and exhaustion as failed, a contended lock as such unless the policy is Replace, a cancellation after
      an attempt as failed, a panic as failed, and any other internal error not at all. */
  lemma HistoryShowsExit(q: Query, records: seq<Record>, spec: Spec, world: World) returns (k: nat)
    requires world.runID != "" && world.early.None? && Covers(q, spec)
    requires Select(records, world.runID) == Fire(spec, world).1
    ensures EndsAt(spec, world, 1, k)
    ensures Shows(spec, world, k, Fire(spec, world).0, EntryFor(q, records, world.runID))
  {
    hide Attempts, AbsorbAll, Ends, Covers, Select, Shows, Recovered;
    k := SomeAttemptEnds(spec, world, 1);
    RunsAreIndependent(q, records, world.runID);
    if spec.concurrency == "Allow" || !spec.hasLock {
      RecoveredShows(q, spec, world, k, [], []);
    } else if world.lock.Acquired? {
      var before := if spec.concurrency == "Replace" then
          [Logged(spec, world, "trigger: replaced previous holder", 0, 0)] else [];
      var after := if world.lock.released then [] else [Logged(spec, world, "trigger: lock release", 0, 0)];
      RecoveredShows(q, spec, world, k, before, after);
    } else {
      LockShows(q, spec, world, k);
    }
  }

  lemma LockShows(q: Query, spec: Spec, world: World, k: nat)
    requires world.runID != "" && world.early.None? && Covers(q, spec)
    requires spec.concurrency != "Allow" && spec.hasLock && !world.lock.Acquired?
    ensures Shows(spec, world, k, Fire(spec, world).0, AbsorbAll(q, None, Fire(spec, world).1, world.runID))
  {
    hide Attempts, AbsorbAll, Covers;
    LockFold(q, spec, world);
  }

  lemma LockFold(q: Query, spec: Spec, world: World)
    requires world.runID != "" && world.early.None? && Covers(q, spec)
    requires spec.concurrency != "Allow" && spec.hasLock && !world.lock.Acquired?
    ensures var entry := AbsorbAll(q, None, Fire(spec, world).1, world.runID);
            match world.lock
            case PanicsLocking => entry.Some? && entry.value.status == "failed" && entry.value.attempt == 0
            case Failing => entry.None?
            case _ => if spec.concurrency == "Replace" then entry.None?
                      else entry.Some? && entry.value.status == "lock-contended" && entry.value.attempt == 0
  {
    hide Attempts;
    AbsorbOne(q, None, Fire(spec, world).1[0], world.runID);
  }

  /** A fire that fails before it has a run id leaves nothing that the history could show. */
  lemma {:induction false} NamelessIsInvisible(q: Query, records: seq<Record>)
    ensures EntryFor(q, records, "").None? && "" !in Order(q, records)
  {
    OrderExact(q, records, "");
    if records != [] {
      NamelessIsInvisible(q, records[..|records| - 1]);
    }
  }
}

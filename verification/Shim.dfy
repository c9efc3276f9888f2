/** `trigger/shim.go`: one fire of a job, from the lock to the exit code, and the log records it leaves. */
module Shim {
  import opened Wrappers
  import opened Sequences

  const EXIT_OK := 0
  const EXIT_APP_REJECTED := 1
  const EXIT_RETRIES_EXHAUSTED := 2
  const EXIT_INTERNAL := 3
  const EXIT_LOCK_CONTENDED := 4

  /** A log record, as far as the history looks at it.  Fields that a record does not carry are empty or zero; the key
      `attempts` of the last record of an exhausted run is not the key `attempt`. */
  datatype Record = Record(msg: string, app: string, job: string, runID: string, attempt: int, time: nat)

  datatype AttemptOutcome = Response(status: int) | NoResponse | Panics

  datatype LockOutcome = Acquired(released: bool) | Contended | Failing | PanicsLocking

  /** What the fire meets: whether it gets as far as a run id, how the lock answers, how each attempt ends, whether the
      context is done after it, and the clock at each record. */
  datatype World = World(
    early: Option<string>, runID: string, lock: LockOutcome, attempts: nat -> AttemptOutcome, cancels: nat -> bool,
        clock: nat -> nat)

  datatype Spec = Spec(app: string, job: string, concurrency: string, hasLock: bool, maxAttempts: int)

  datatype Result = Result(exitCode: int, runID: string, attempts: int, status: int)

  function MaxAttempts(spec: Spec): (n: nat)
    ensures n >= 1
  {
    if spec.maxAttempts > 1 then spec.maxAttempts else 1
  }

  predicate Success(status: int) { 200 <= status < 300 }

  predicate Rejection(status: int) { 400 <= status < 500 }

  /** A record the shim writes once it has its run id. */
  function Logged(spec: Spec, world: World, msg: string, attempt: int, tick: nat): Record {
    Record(msg, spec.app, spec.job, world.runID, attempt, world.clock(tick))
  }

  /** A fire from the given attempt on: its result, and its records.  A panic is told from a result by `None`. */
  function Attempts(spec: Spec, world: World, attempt: nat): (r: (Option<Result>, seq<Record>))
    requires 1 <= attempt <= MaxAttempts(spec)
    decreases MaxAttempts(spec) - attempt
  {
    match world.attempts(attempt)
    case Panics => (None, [])
    case NoResponse => AfterFailure(spec, world, attempt, 0,
        Logged(spec, world, "trigger: attempt failed", attempt, attempt))
    case Response(status) =>
      if Success(status) then
        (Some(Result(EXIT_OK, world.runID, attempt, status)),
            [Logged(spec, world, "trigger: success", attempt, attempt)])
      else if Rejection(status) then
        (Some(Result(EXIT_APP_REJECTED, world.runID, attempt, status)),
         [Logged(spec, world, "trigger: app rejected", attempt, attempt)])
      else
        AfterFailure(spec, world, attempt, status, Logged(spec, world, "trigger: server error", attempt, attempt))
  }

  function AfterFailure(spec: Spec, world: World, attempt: nat, status: int,
      warning: Record): (r: (Option<Result>, seq<Record>))
    requires 1 <= attempt <= MaxAttempts(spec)
    decreases MaxAttempts(spec) - attempt, 0
  {
    if attempt == MaxAttempts(spec) then
      (Some(Result(EXIT_RETRIES_EXHAUSTED, world.runID, attempt, status)),
       [warning, Logged(spec, world, "trigger: retries exhausted", 0, attempt + 1)])
    else if world.cancels(attempt) then
      (Some(Result(EXIT_INTERNAL, world.runID, attempt, status)), [warning])
    else
      var rest := Attempts(spec, world, attempt + 1);
      (rest.0, [warning] + rest.1)
  }

  /** A whole fire.  The lock is released before a panic is recovered and logged. */
  function Fire(spec: Spec, world: World): (Result, seq<Record>) {
    if world.early.Some? then
      (Result(EXIT_INTERNAL, "", 0, 0), [Record(world.early.value, "", "", "", 0, world.clock(0))])
    else if spec.concurrency == "Allow" || !spec.hasLock then
      Recovered(spec, world, [], Attempts(spec, world, 1), [])
    else
      match world.lock
      case PanicsLocking => (Result(EXIT_INTERNAL, "", 0, 0), [Logged(spec, world, "trigger: panic", 0, 0)])
      case Failing => (Result(EXIT_INTERNAL, world.runID, 0, 0), [Logged(spec, world, "trigger: lock acquire", 0, 0)])
      case Contended => (Result(EXIT_LOCK_CONTENDED, world.runID, 0, 0), [ContendedRecord(spec, world)])
      case Acquired(released) =>
        Recovered(spec, world,
                  if spec.concurrency == "Replace" then
                      [Logged(spec, world, "trigger: replaced previous holder", 0, 0)] else [],
                  Attempts(spec, world, 1),
                  if released then [] else [Logged(spec, world, "trigger: lock release", 0, 0)])
  }

  function ContendedRecord(spec: Spec, world: World): Record {
    Logged(spec, world,
           if spec.concurrency == "Replace" then "trigger: replace gave up — holder non-local or refused SIGTERM"
           else "trigger: lock contended", 0, 0)
  }

  function Recovered(spec: Spec, world: World, before: seq<Record>, made: (Option<Result>, seq<Record>),
      after: seq<Record>): (Result, seq<Record>) {
    match made.0
    case Some(res) => (res, before + made.1 + after)
    case None => (Result(EXIT_INTERNAL, "", 0, 0), before + made.1 + after
        + [Logged(spec, world, "trigger: panic", 0, 0)])
  }

  // ---- The same, without recursion ----------------------------------------------------------------

  /** The attempt that ends the fire: it panics, is answered for good, is the last, or is followed by a cancellation. */
  predicate Ends(spec: Spec, world: World, k: nat) {
    match world.attempts(k)
    case Panics => true
    case NoResponse => k >= MaxAttempts(spec) || world.cancels(k)
    case Response(status) => Success(status) || Rejection(status) || k >= MaxAttempts(spec) || world.cancels(k)
  }

  predicate EndsAt(spec: Spec, world: World, from: nat, k: nat) {
    from <= k <= MaxAttempts(spec) && Ends(spec, world, k) && forall j :: from <= j < k ==> !Ends(spec, world, j)
  }

  function Warning(spec: Spec, world: World, attempt: nat): Record {
    Logged(spec, world, if world.attempts(attempt).NoResponse? then "trigger: attempt failed"
        else "trigger: server error",
           attempt, attempt)
  }

  /** The warnings of so many attempts in a row. */
  function Warnings(spec: Spec, world: World, from: nat, count: nat): seq<Record>
    decreases count
  {
    if count == 0 then [] else [Warning(spec, world, from)] + Warnings(spec, world, from + 1, count - 1)
  }

  /** What the ending attempt leaves. */
  function LastRecords(spec: Spec, world: World, k: nat): seq<Record> {
    match world.attempts(k)
    case Panics => []
    case NoResponse => FailureRecords(spec, world, k)
    case Response(status) =>
      if Success(status) then [Logged(spec, world, "trigger: success", k, k)]
      else if Rejection(status) then [Logged(spec, world, "trigger: app rejected", k, k)]
      else FailureRecords(spec, world, k)
  }

  function FailureRecords(spec: Spec, world: World, k: nat): seq<Record> {
    if k == MaxAttempts(spec)
    then [Warning(spec, world, k), Logged(spec, world, "trigger: retries exhausted", 0, k + 1)]
    else [Warning(spec, world, k)]
  }

  function LastResult(spec: Spec, world: World, k: nat): Option<Result> {
    match world.attempts(k)
    case Panics => None
    case NoResponse => Some(FailureResult(spec, world, k, 0))
    case Response(status) =>
      if Success(status) then Some(Result(EXIT_OK, world.runID, k, status))
      else if Rejection(status) then Some(Result(EXIT_APP_REJECTED, world.runID, k, status))
      else Some(FailureResult(spec, world, k, status))
  }

  function FailureResult(spec: Spec, world: World, k: nat, status: int): Result {
    Result(if k == MaxAttempts(spec) then EXIT_RETRIES_EXHAUSTED else EXIT_INTERNAL, world.runID, k, status)
  }

  /** The retry loop stops at the first attempt that ends the fire, with one warning for each attempt before it. */
  lemma {:induction false} AttemptsExactly(spec: Spec, world: World, from: nat, k: nat)
    requires 1 <= from && EndsAt(spec, world, from, k)
    ensures Attempts(spec, world, from) == (LastResult(spec, world, k), Warnings(spec, world, from, k - from)
        + LastRecords(spec, world, k))
    decreases k - from
  {
    if from < k {
      assert !Ends(spec, world, from);
      AttemptsExactly(spec, world, from + 1, k);
      ConcatAssociative([Warning(spec, world, from)], Warnings(spec, world, from + 1, k - from - 1),
          LastRecords(spec, world, k));
    } else {
      ConcatEmpty(LastRecords(spec, world, k));
    }
  }

  lemma {:induction false} SomeAttemptEnds(spec: Spec, world: World, from: nat) returns (k: nat)
    requires 1 <= from <= MaxAttempts(spec)
    ensures EndsAt(spec, world, from, k)
    decreases MaxAttempts(spec) - from
  {
    if Ends(spec, world, from) {
      k := from;
    } else {
      k := SomeAttemptEnds(spec, world, from + 1);
    }
  }

  lemma {:induction false} WarningsAt(spec: Spec, world: World, from: nat, count: nat)
    ensures |Warnings(spec, world, from, count)| == count
    ensures forall j :: 0 <= j < count ==> Warnings(spec, world, from, count)[j] == Warning(spec, world, from + j)
    decreases count
  {
    if count > 0 {
      WarningsAt(spec, world, from + 1, count - 1);
    }
  }

  // ---- What a fire comes to, in numbers and texts -------------------------------------------------

  /** The number of the last attempt. */
  function Last(spec: Spec): int { if spec.maxAttempts > 1 then spec.maxAttempts else 1 }

  /** An answer that leads to another attempt, if there is one: none at all, or neither 2xx nor 4xx. */
  predicate Unsettled(a: AttemptOutcome) {
    a.NoResponse? || (a.Response? && !(200 <= a.status <= 299) && !(400 <= a.status <= 499))
  }

  /** Attempt k is made: every attempt before it was left unsettled and not cancelled. */
  predicate Reached(spec: Spec, world: World, k: nat) {
    1 <= k <= Last(spec) && forall j :: 1 <= j < k ==> Unsettled(world.attempts(j)) && !world.cancels(j)
  }

  function StatusOf(a: AttemptOutcome): int { if a.Response? then a.status else 0 }

  /** The record of an attempt that was left unsettled. */
  function WarningText(a: AttemptOutcome): string {
    if a.NoResponse? then "trigger: attempt failed" else "trigger: server error"
  }

  /** The fire stops at attempt k, with this result, if any, and this as its last records. */
  predicate Stops(spec: Spec, world: World, k: nat, res: Option<Result>, last: seq<Record>) {
    var a, app, job, id := world.attempts(k), spec.app, spec.job, world.runID;
    var warning := Record(WarningText(a), app, job, id, k, world.clock(k));
    if a.Panics? then res == None && last == []
    else if a.Response? && 200 <= a.status <= 299 then
      && res == Some(Result(0, id, k, a.status))
      && last == [Record("trigger: success", app, job, id, k, world.clock(k))]
    else if a.Response? && 400 <= a.status <= 499 then
      && res == Some(Result(1, id, k, a.status))
      && last == [Record("trigger: app rejected", app, job, id, k, world.clock(k))]
    else if k == Last(spec) then
      && res == Some(Result(2, id, k, StatusOf(a)))
      && last == [warning, Record("trigger: retries exhausted", app, job, id, 0, world.clock(k + 1))]
    else world.cancels(k) && res == Some(Result(3, id, k, StatusOf(a))) && last == [warning]
  }

  /** The attempts stop at some attempt, and leave one warning for each before it. */
  ghost predicate AttemptsAre(spec: Spec, world: World, res: Option<Result>, log: seq<Record>) {
    exists k: nat, last ::
      Reached(spec, world, k) && Stops(spec, world, k, res, last) && LogIs(spec, world, k, log, last)
  }

  predicate LogIs(spec: Spec, world: World, k: nat, log: seq<Record>, last: seq<Record>)
    requires k >= 1
  {
    && |log| == k - 1 + |last| && log[k - 1..] == last
    && forall j :: 1 <= j < k ==>
         log[j - 1] ==
         Record(WarningText(world.attempts(j)), spec.app, spec.job, world.runID, j, world.clock(j))
  }

  lemma EndIs(spec: Spec, world: World, k: nat)
    requires EndsAt(spec, world, 1, k)
    ensures Reached(spec, world, k) && Stops(spec, world, k, LastResult(spec, world, k), LastRecords(spec, world, k))
  {
    forall j | 1 <= j < k ensures Unsettled(world.attempts(j)) && !world.cancels(j) {
      assert !Ends(spec, world, j);
    }
  }

  lemma AttemptsAreSo(spec: Spec, world: World)
    ensures AttemptsAre(spec, world, Attempts(spec, world, 1).0, Attempts(spec, world, 1).1)
  {
    hide Attempts, Warnings, Ends, Stops, LastResult, LastRecords, Reached;
    var k := SomeAttemptEnds(spec, world, 1);
    AttemptsExactly(spec, world, 1, k);
    WarningsAt(spec, world, 1, k - 1);
    EndIs(spec, world, k);
    var last, log := LastRecords(spec, world, k), Attempts(spec, world, 1).1;
    assert log[k - 1..] == last;
    forall j | 1 <= j < k
      ensures log[j - 1] ==
              Record(WarningText(world.attempts(j)), spec.app, spec.job, world.runID, j, world.clock(j))
    {
      assert log[j - 1] == Warning(spec, world, 1 + (j - 1));
    }
    assert LogIs(spec, world, k, log, last);
  }

  /** A whole fire: it may end before it has a run id, or at the lock; else the attempts decide, and a panic among them
      leaves a result without run id. */
  ghost predicate FireIs(spec: Spec, world: World, res: Result, log: seq<Record>) {
    var app, job, id, now := spec.app, spec.job, world.runID, world.clock(0);
    var replacing := spec.concurrency == "Replace";
    if world.early.Some? then res == Result(3, "", 0, 0) && log == [Record(world.early.value, "", "", "", 0, now)]
    else if spec.concurrency == "Allow" || !spec.hasLock then FireAround(spec, world, res, log, [], [])
    else
      match world.lock
      case PanicsLocking => res == Result(3, "", 0, 0) && log == [Record("trigger: panic", app, job, id, 0, now)]
      case Failing => res == Result(3, id, 0, 0) && log == [Record("trigger: lock acquire", app, job, id, 0, now)]
      case Contended =>
        && res == Result(4, id, 0, 0)
        && log == [Record(if replacing then "trigger: replace gave up — holder non-local or refused SIGTERM"
                          else "trigger: lock contended", app, job, id, 0, now)]
      case Acquired(released) =>
        FireAround(spec, world, res, log,
                   if replacing then [Record("trigger: replaced previous holder", app, job, id, 0, now)] else [],
                   if released then [] else [Record("trigger: lock release", app, job, id, 0, now)])
  }

  /** The attempts, with the records of taking the lock before them and of giving it back after them. */
  ghost predicate FireAround(
    spec: Spec, world: World, res: Result, log: seq<Record>, before: seq<Record>, after: seq<Record>)
  {
    exists made: Option<Result>, records ::
      && AttemptsAre(spec, world, made, records)
      && match made
         case Some(r) => res == r && log == before + records + after
         case None =>
           && res == Result(3, "", 0, 0)
           && log == before + records + after
             + [Record("trigger: panic", spec.app, spec.job, world.runID, 0, world.clock(0))]
  }

  lemma FireIsSo(spec: Spec, world: World)
    ensures FireIs(spec, world, Fire(spec, world).0, Fire(spec, world).1)
  {
    hide Attempts, AttemptsAre;
    AttemptsAreSo(spec, world);
  }

  /** The attempts run: the fire got as far as a run id, and the lock is not wanted, not configured, or acquired. */
  predicate Attempted(spec: Spec, world: World) {
    world.early.None? && (spec.concurrency == "Allow" || !spec.hasLock || world.lock.Acquired?)
  }

  /** Attempt k is answered with a status in a range. */
  predicate AnsweredIn(world: World, k: nat, low: int, high: int) {
    world.attempts(k).Response? && low <= world.attempts(k).status <= high
  }

  /** The exit codes both ways, and what else the result then says. */
  ghost predicate Exits(spec: Spec, world: World, res: Result) {
    && 0 <= res.exitCode <= 3
    && (res.exitCode == 0 <==> exists k: nat :: Reached(spec, world, k) && AnsweredIn(world, k, 200, 299))
    && (res.exitCode == 1 <==> exists k: nat :: Reached(spec, world, k) && AnsweredIn(world, k, 400, 499))
    && (res.exitCode == 2 <==> Reached(spec, world, Last(spec)) && Unsettled(world.attempts(Last(spec))))
    && (res.exitCode == 3 <==>
         exists k: nat :: Reached(spec, world, k) &&
           (world.attempts(k).Panics? || (Unsettled(world.attempts(k)) && k < Last(spec) && world.cancels(k))))
    && forall k: nat ::
         Reached(spec, world, k) && (world.attempts(k).Panics? || !Unsettled(world.attempts(k)) || k == Last(spec)
           || world.cancels(k)) ==>
         if world.attempts(k).Panics? then res.runID == "" && res.attempts == 0 && res.status == 0
         else res.runID == world.runID && res.attempts == k && res.status == StatusOf(world.attempts(k))
  }

  /** No two attempts can both be the one at which the fire stops. */
  lemma StopsOnce(spec: Spec, world: World, k: nat, l: nat)
    requires Reached(spec, world, k) && Reached(spec, world, l)
    requires !Unsettled(world.attempts(k)) || k == Last(spec) || world.cancels(k)
    ensures l <= k
  {
  }

  /** A fire whose attempts run exits 0 exactly when some attempt is answered with a 2xx and all before it were left
      unsettled, 1 likewise with a 4xx, 2 exactly when the last attempt is made and left unsettled too, and 3 exactly
      when an attempt panics or is cancelled after. */
  lemma ExitsExactly(spec: Spec, world: World, res: Result, log: seq<Record>)
    requires Attempted(spec, world) && FireIs(spec, world, res, log)
    ensures Exits(spec, world, res)
  {
    hide LogIs, Unsettled;
    var before, after: seq<Record> := [], [];
    if spec.concurrency != "Allow" && spec.hasLock {
      if spec.concurrency == "Replace" {
        before := [Record("trigger: replaced previous holder", spec.app, spec.job, world.runID, 0, world.clock(0))];
      }
      if !world.lock.released {
        after := [Record("trigger: lock release", spec.app, spec.job, world.runID, 0, world.clock(0))];
      }
    }
    var made: Option<Result>, records :| AttemptsAre(spec, world, made, records) &&
      (made.Some? ==> res == made.value) && (made.None? ==> res == Result(3, "", 0, 0));
    var k, last :| Reached(spec, world, k) && Stops(spec, world, k, made, last) && LogIs(spec, world, k, records, last);
    StopsExit(spec, world, k, made, last, res);
  }

  lemma StopsExit(spec: Spec, world: World, k: nat, made: Option<Result>, last: seq<Record>, res: Result)
    requires Reached(spec, world, k) && Stops(spec, world, k, made, last)
    requires res == if made.Some? then made.value else Result(3, "", 0, 0)
    ensures Exits(spec, world, res)
  {
    hide Reached;
    ReachedIn(spec, world, k);
    forall l: nat | Reached(spec, world, l) && (!Unsettled(world.attempts(l)) || l == Last(spec) || world.cancels(l))
      ensures l == k
    {
      StopsOnce(spec, world, k, l);
      StopsOnce(spec, world, l, k);
    }
  }

  lemma ReachedIn(spec: Spec, world: World, k: nat)
    requires Reached(spec, world, k)
    ensures 1 <= k <= Last(spec)
  {}

  // ---- The code -----------------------------------------------------------------------------------

  /** The retry loop. */
  method RunAttempts(spec: Spec, world: World) returns (res: Option<Result>, log: seq<Record>)
    ensures (res, log) == Attempts(spec, world, 1)
    ensures AttemptsAre(spec, world, res, log)
  {
    hide AttemptsAre;
    AttemptsAreSo(spec, world);
    log := [];
    var maxAttempts := MaxAttempts(spec);
    var attempt := 1;
    ConcatEmpty(Attempts(spec, world, 1).1);
    while attempt <= maxAttempts
      invariant 1 <= attempt <= maxAttempts
      invariant Attempts(spec, world, 1) == (Attempts(spec, world, attempt).0, log + Attempts(spec, world, attempt).1)
      decreases maxAttempts - attempt
    {
      var lastStatus := 0;
      ghost var before := log;
      ghost var rest := Attempts(spec, world, attempt);
      match world.attempts(attempt) {
        case Panics =>
          ConcatEmpty(log);
          return None, log;
        case NoResponse =>
          log := log + [Logged(spec, world, "trigger: attempt failed", attempt, attempt)];
        case Response(status) =>
          lastStatus := status;
          if Success(status) {
            log := log + [Logged(spec, world, "trigger: success", attempt, attempt)];
            return Some(Result(EXIT_OK, world.runID, attempt, status)), log;
          } else if Rejection(status) {
            log := log + [Logged(spec, world, "trigger: app rejected", attempt, attempt)];
            return Some(Result(EXIT_APP_REJECTED, world.runID, attempt, status)), log;
          }
          log := log + [Logged(spec, world, "trigger: server error", attempt, attempt)];
      }
      if attempt == maxAttempts {
        log := log + [Logged(spec, world, "trigger: retries exhausted", 0, attempt + 1)];
        assert log == before + rest.1;
        return Some(Result(EXIT_RETRIES_EXHAUSTED, world.runID, maxAttempts, lastStatus)), log;
      }
      if world.cancels(attempt) {
        return Some(Result(EXIT_INTERNAL, world.runID, attempt, lastStatus)), log;
      }
      ConcatAssociative(before, [log[|log| - 1]], Attempts(spec, world, attempt + 1).1);
      attempt := attempt + 1;
    }
  }

  /** `Run`. */
  method Run(spec: Spec, world: World) returns (res: Result, log: seq<Record>)
    ensures (res, log) == Fire(spec, world)
    ensures FireIs(spec, world, res, log)
  {
    hide FireIs, AttemptsAre;
    FireIsSo(spec, world);
    if world.early.Some? {
      return Result(EXIT_INTERNAL, "", 0, 0), [Record(world.early.value, "", "", "", 0, world.clock(0))];
    }
    var before, after: seq<Record> := [], [];
    if spec.concurrency != "Allow" && spec.hasLock {
      match world.lock {
        case PanicsLocking =>
          return Result(EXIT_INTERNAL, "", 0, 0), [Logged(spec, world, "trigger: panic", 0, 0)];
        case Failing =>
          return Result(EXIT_INTERNAL, world.runID, 0, 0), [Logged(spec, world, "trigger: lock acquire", 0, 0)];
        case Contended =>
          return Result(EXIT_LOCK_CONTENDED, world.runID, 0, 0), [ContendedRecord(spec, world)];
        case Acquired(released) =>
          if spec.concurrency == "Replace" {
            before := [Logged(spec, world, "trigger: replaced previous holder", 0, 0)];
          }
          if !released {
            after := [Logged(spec, world, "trigger: lock release", 0, 0)];
          }
      }
    }
    var made, attemptLog := RunAttempts(spec, world);
    match made {
      case Some(r) =>
        res, log := r, before + attemptLog + after;
      case None =>
        res := Result(EXIT_INTERNAL, "", 0, 0);
        log := before + attemptLog + after + [Logged(spec, world, "trigger: panic", 0, 0)];
    }
  }
}

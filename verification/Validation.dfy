/** `internal/manifest`: the raw manifest, and what validation accepts. */
module Validation {
  import opened Wrappers
  import opened Sequences
  import opened Text
  import opened NormalizedManifests
  import opened OwnerLine

  const TIMEOUT_MIN := 1
  const TIMEOUT_MAX := 600
  const TIMEOUT_DEFAULT := 60
  const RETRY_ATTEMPTS_MIN := 1
  const RETRY_ATTEMPTS_MAX := 10
  const RETRY_ATTEMPTS_DEFAULT := 3
  const RETRY_BACKOFF_MIN_DEFAULT := 1
  const RETRY_BACKOFF_MAX_DEFAULT := 60
  const MAX_JOBS := 256
  const MAX_SECRET_REFS := 8

  // ---- The raw manifest ---------------------------------------------------------------------------

  datatype Request = Request(method_: Option<string>, url: string, headers: map<string, string>, body: Option<string>)

  datatype Retries = Retries(maxAttempts: Option<int>, minSeconds: Option<int>, maxSeconds: Option<int>)

  datatype Policy = Policy(
    concurrency: Option<string>, concurrencyScope: Option<string>, timeoutSeconds: Option<int>,
        retries: Option<Retries>)

  /** Missing `auth` and an `auth` without references mean the same to all that follows. */
  datatype Job = Job(
    name: string, schedule: Option<string>, schedules: Option<seq<string>>, timezone: Option<string>, request: Request,
    policy: Option<Policy>, secretRefs: Option<seq<string>>)

  datatype Manifest = Manifest(version: int, app: string, jobs: seq<Job>)

  /** The checks that other libraries make: the cron parser and the URL parser. */
  datatype Checks = Checks(cronOk: string -> bool, urlOk: string -> bool)

  // ---- Schedules ----------------------------------------------------------------------------------

  const SHORTCUTS := {"@hourly", "@daily", "@midnight", "@weekly", "@monthly", "@yearly", "@annually"}

  /** The `@every` branch of `validateSchedule`; the product may wrap around. */
  predicate ValidEvery(rest: string) {
    |rest| >= 2 &&
    var unit := rest[|rest| - 1];
    match ParseInt(rest[..|rest| - 1])
    case None => false
    case Some(n) =>
      n > 0 &&
      if unit == 's' || unit == 'S' then n >= 60
      else if unit == 'm' || unit == 'M' then Wrap(n * 60) >= 60
      else if unit == 'h' || unit == 'H' then Wrap(n * 3600) >= 60
      else false
  }

  /** `validateSchedule`. */
  predicate ValidSchedule(checks: Checks, expr: string) {
    expr != "" &&
    var t := TrimSpace(expr);
    if t in SHORTCUTS then true
    else if "@every" <= t then ValidEvery(TrimSpace(t[|"@every"|..]))
    else |Fields(t)| == 5 && checks.cronOk(t)
  }

  // ---- Validation ---------------------------------------------------------------------------------

  /** Where a problem is, and of which kind. */
  datatype Issue = Issue(path: seq<string>, code: string)

  function When(bad: bool, path: seq<string>, code: string): (issues: seq<Issue>)
    ensures issues == [] <==> !bad
  {
    if bad then [Issue(path, code)] else []
  }

  predicate IsRefChar(c: char) {
    'a' <= c <= 'z' || 'A' <= c <= 'Z' || '0' <= c <= '9' || c in "_:./-"
  }

  /** `[a-zA-Z][a-zA-Z0-9_:./-]{0,127}`. */
  predicate IsSecretRef(s: string) {
    1 <= |s| <= 128 && ('a' <= s[0] <= 'z' || 'A' <= s[0] <= 'Z') && forall i :: 0 <= i < |s| ==> IsRefChar(s[i])
  }

  function ScheduleIssues(checks: Checks, path: seq<string>, schedules: seq<string>, n: nat): seq<Issue>
    requires n <= |schedules|
  {
    if n == 0 then []
    else
      ScheduleIssues(checks, path, schedules, n - 1) +
      When(!ValidSchedule(checks, schedules[n - 1]), path + ["schedules", Digits(n - 1)], "custom")
  }

  function RequestIssues(checks: Checks, path: seq<string>, r: Request): seq<Issue> {
    (if r.url == "" then [Issue(path + ["url"], "invalid_value")]
        else When(!checks.urlOk(r.url), path + ["url"], "invalid_format"))
    + When(r.method_.Some? && r.method_.value !in {"GET", "POST", "PUT", "PATCH", "DELETE"}, path + ["method"],
        "invalid_value")
  }

  function RetriesIssues(path: seq<string>, r: Retries): seq<Issue> {
    When(r.maxAttempts.Some? && !(RETRY_ATTEMPTS_MIN <= r.maxAttempts.value <= RETRY_ATTEMPTS_MAX), path
        + ["max_attempts"], "out_of_range")
    + When(r.minSeconds.Some? && r.minSeconds.value < 0, path + ["min_seconds"], "out_of_range")
    + When(r.maxSeconds.Some? && r.maxSeconds.value < 1, path + ["max_seconds"], "out_of_range")
    + When(r.minSeconds.Some? && r.maxSeconds.Some? && r.minSeconds.value > r.maxSeconds.value, path, "custom")
  }

  function PolicyIssues(path: seq<string>, p: Policy): seq<Issue> {
    When(p.concurrency.Some? && p.concurrency.value !in {"Allow", "Forbid", "Replace"}, path + ["concurrency"],
        "invalid_value")
    + When(p.concurrencyScope.Some? && p.concurrencyScope.value !in {"host", "global"}, path + ["concurrency_scope"],
        "invalid_value")
    + When(p.timeoutSeconds.Some? && !(TIMEOUT_MIN <= p.timeoutSeconds.value <= TIMEOUT_MAX), path
        + ["timeout_seconds"], "out_of_range")
    + (if p.retries.Some? then RetriesIssues(path + ["retries"], p.retries.value) else [])
  }

  function RefIssues(path: seq<string>, refs: seq<string>, n: nat): seq<Issue>
    requires n <= |refs|
  {
    if n == 0 then []
    else RefIssues(path, refs, n - 1) + When(!IsSecretRef(refs[n - 1]), path + ["secret_refs", Digits(n - 1)],
        "invalid_format")
  }

  function AuthIssues(path: seq<string>, refs: seq<string>): seq<Issue> {
    When(refs == [], path + ["secret_refs"], "too_small")
    + When(|refs| > MAX_SECRET_REFS, path + ["secret_refs"], "too_big")
    + RefIssues(path, refs, |refs|)
  }

  /** `validateJob`. */
  function JobIssues(checks: Checks, path: seq<string>, j: Job): seq<Issue> {
    When(!IsName(j.name), path + ["name"], "invalid_format")
    + When(j.schedule.Some? == j.schedules.Some?, path, "custom")
    + (if j.schedule.Some? then When(!ValidSchedule(checks, j.schedule.value), path + ["schedule"], "custom") else [])
    + (if j.schedules.Some?
       then When(j.schedules.value == [], path + ["schedules"], "too_small")
            + When(|j.schedules.value| > MAX_SCHEDULES_PER_JOB, path + ["schedules"], "too_big")
            + ScheduleIssues(checks, path, j.schedules.value, |j.schedules.value|)
       else [])
    + RequestIssues(checks, path + ["request"], j.request)
    + (if j.policy.Some? then PolicyIssues(path + ["policy"], j.policy.value) else [])
    + (if j.secretRefs.Some? then AuthIssues(path + ["auth"], j.secretRefs.value) else [])
  }

  /** The names of the first n jobs, but for empty ones. */
  function Seen(jobs: seq<Job>, n: nat): set<string>
    requires n <= |jobs|
  {
    if n == 0 then {} else Seen(jobs, n - 1) + if jobs[n - 1].name != "" then {jobs[n - 1].name} else {}
  }

  function JobsIssues(checks: Checks, jobs: seq<Job>, n: nat): seq<Issue>
    requires n <= |jobs|
  {
    if n == 0 then []
    else
      var path := ["jobs", Digits(n - 1)];
      JobsIssues(checks, jobs, n - 1) + JobIssues(checks, path, jobs[n - 1])
      + When(jobs[n - 1].name in Seen(jobs, n - 1), path + ["name"], "custom")
  }

  /** All that `Validate` reports. */
  function Issues(checks: Checks, m: Manifest): seq<Issue> {
    When(m.version != 1, ["version"], "invalid_value")
    + When(!IsName(m.app), ["app"], "invalid_format")
    + When(m.jobs == [], ["jobs"], "too_small")
    + When(|m.jobs| > MAX_JOBS, ["jobs"], "too_big")
    + JobsIssues(checks, m.jobs, |m.jobs|)
  }

  /** `Validate`. */
  method Validate(checks: Checks, m: Manifest) returns (issues: seq<Issue>)
    ensures issues == Issues(checks, m)
  {
    hide JobIssues, IsName, When, Digits, JobsIssues, Seen;
    NoJobs(checks, m.jobs);
    issues := When(m.version != 1, ["version"], "invalid_value") + When(!IsName(m.app), ["app"], "invalid_format")
              + When(m.jobs == [], ["jobs"], "too_small") + When(|m.jobs| > MAX_JOBS, ["jobs"], "too_big");
    ghost var head := issues;
    ConcatEmpty(head);
    var seen: set<string> := {};
    var i := 0;
    while i < |m.jobs|
      invariant 0 <= i <= |m.jobs|
      invariant seen == Seen(m.jobs, i)
      invariant issues == head + JobsIssues(checks, m.jobs, i)
    {
      var j, path := m.jobs[i], ["jobs", Digits(i)];
      var found := JobIssues(checks, path, j);
      var duplicate: seq<Issue> := [];
      if j.name in seen && j.name != "" {
        duplicate := [Issue(path + ["name"], "custom")];
      } else if j.name != "" {
        seen := seen + {j.name};
      }
      SeenNotEmpty(m.jobs, i);
      NextJob(checks, m.jobs, i);
      ConcatAssociative(head, JobsIssues(checks, m.jobs, i), found);
      ConcatAssociative(head, JobsIssues(checks, m.jobs, i) + found, duplicate);
      issues := issues + found + duplicate;
      i := i + 1;
    }
  }

  lemma NoJobs(checks: Checks, jobs: seq<Job>)
    ensures JobsIssues(checks, jobs, 0) == [] && Seen(jobs, 0) == {}
  {}

  lemma NextJob(checks: Checks, jobs: seq<Job>, i: nat)
    requires i < |jobs|
    ensures var path := ["jobs", Digits(i)];
            JobsIssues(checks, jobs, i + 1) ==
            JobsIssues(checks, jobs, i) + JobIssues(checks, path, jobs[i])
            + if jobs[i].name in Seen(jobs, i) then [Issue(path + ["name"], "custom")] else []
    ensures Seen(jobs, i + 1) == if jobs[i].name != "" then Seen(jobs, i) + {jobs[i].name} else Seen(jobs, i)
  {
    hide JobIssues;
  }

  lemma {:induction false} SeenNotEmpty(jobs: seq<Job>, n: nat)
    requires n <= |jobs|
    ensures "" !in Seen(jobs, n)
    ensures forall name :: name in Seen(jobs, n) <==> name != "" && exists k :: 0 <= k < n && jobs[k].name == name
  {
    if n > 0 {
      SeenNotEmpty(jobs, n - 1);
    }
  }

  // ---- What a valid manifest is -------------------------------------------------------------------

  predicate ValidRequest(checks: Checks, r: Request) {
    r.url != "" && checks.urlOk(r.url) && (r.method_.Some? ==>
        r.method_.value in {"GET", "POST", "PUT", "PATCH", "DELETE"})
  }

  predicate ValidRetries(r: Retries) {
    && (r.maxAttempts.Some? ==> RETRY_ATTEMPTS_MIN <= r.maxAttempts.value <= RETRY_ATTEMPTS_MAX)
    && (r.minSeconds.Some? ==> 0 <= r.minSeconds.value)
    && (r.maxSeconds.Some? ==> 1 <= r.maxSeconds.value)
    && (r.minSeconds.Some? && r.maxSeconds.Some? ==> r.minSeconds.value <= r.maxSeconds.value)
  }

  predicate ValidPolicy(p: Policy) {
    && (p.concurrency.Some? ==> p.concurrency.value in {"Allow", "Forbid", "Replace"})
    && (p.concurrencyScope.Some? ==> p.concurrencyScope.value in {"host", "global"})
    && (p.timeoutSeconds.Some? ==> TIMEOUT_MIN <= p.timeoutSeconds.value <= TIMEOUT_MAX)
    && (p.retries.Some? ==> ValidRetries(p.retries.value))
  }

  /** The schedules of a job, whichever of the two keys they stand under. */
  function SchedulesOf(j: Job): seq<string> {
    if j.schedules.Some? then j.schedules.value else if j.schedule.Some? then [j.schedule.value] else []
  }

  predicate ValidJob(checks: Checks, j: Job) {
    && IsName(j.name)
    && (j.schedule.Some? <==> j.schedules.None?)
    && 1 <= |SchedulesOf(j)| <= MAX_SCHEDULES_PER_JOB
    && (forall k :: 0 <= k < |SchedulesOf(j)| ==> ValidSchedule(checks, SchedulesOf(j)[k]))
    && ValidRequest(checks, j.request)
    && (j.policy.Some? ==> ValidPolicy(j.policy.value))
    && (j.secretRefs.Some? ==>
         1 <= |j.secretRefs.value| <= MAX_SECRET_REFS && forall k :: 0 <= k < |j.secretRefs.value| ==>
             IsSecretRef(j.secretRefs.value[k]))
  }

  predicate ValidManifest(checks: Checks, m: Manifest) {
    && m.version == 1 && IsName(m.app) && 1 <= |m.jobs| <= MAX_JOBS
    && (forall i :: 0 <= i < |m.jobs| ==> ValidJob(checks, m.jobs[i]))
    && (forall i, j :: 0 <= i < j < |m.jobs| ==> m.jobs[i].name != m.jobs[j].name)
  }

  lemma {:induction false} ScheduleIssuesEmpty(checks: Checks, path: seq<string>, schedules: seq<string>, n: nat)
    requires n <= |schedules|
    ensures ScheduleIssues(checks, path, schedules, n) == [] <==> forall k :: 0 <= k < n ==>
        ValidSchedule(checks, schedules[k])
  {
    hide ValidSchedule, Digits;
    if n > 0 {
      ScheduleIssuesEmpty(checks, path, schedules, n - 1);
    }
  }

  lemma {:induction false} RefIssuesEmpty(path: seq<string>, refs: seq<string>, n: nat)
    requires n <= |refs|
    ensures RefIssues(path, refs, n) == [] <==> forall k :: 0 <= k < n ==> IsSecretRef(refs[k])
  {
    hide IsSecretRef, Digits;
    if n > 0 {
      RefIssuesEmpty(path, refs, n - 1);
    }
  }

  lemma PolicyIssuesEmpty(path: seq<string>, p: Policy)
    ensures PolicyIssues(path, p) == [] <==> ValidPolicy(p)
  {}

  lemma JobIssuesEmpty(checks: Checks, path: seq<string>, j: Job)
    ensures JobIssues(checks, path, j) == [] <==> ValidJob(checks, j)
  {
    hide IsName, IsSecretRef, ValidSchedule, PolicyIssues, ValidPolicy, RefIssues, ScheduleIssues;
    if j.schedules.None? && j.schedule.Some? {
      assert SchedulesOf(j)[0] == j.schedule.value;
    }
    if j.schedules.Some? {
      ScheduleIssuesEmpty(checks, path, j.schedules.value, |j.schedules.value|);
    }
    if j.policy.Some? {
      PolicyIssuesEmpty(path + ["policy"], j.policy.value);
    }
    if j.secretRefs.Some? {
      RefIssuesEmpty(path + ["auth"], j.secretRefs.value, |j.secretRefs.value|);
    }
  }

  lemma {:induction false} JobsIssuesEmpty(checks: Checks, jobs: seq<Job>, n: nat)
    requires n <= |jobs|
    ensures JobsIssues(checks, jobs, n) == [] <==>
            (forall i :: 0 <= i < n ==> ValidJob(checks, jobs[i]))
            && (forall i, j :: 0 <= i < j < n ==> jobs[i].name != jobs[j].name)
  {
    hide JobIssues, ValidJob, Digits, Seen, JobsIssues;
    if n == 0 {
      NoJobs(checks, jobs);
    } else {
      var path := ["jobs", Digits(n - 1)];
      var duplicate := if jobs[n - 1].name in Seen(jobs, n - 1) then [Issue(path + ["name"], "custom")] else [];
      JobsIssuesEmpty(checks, jobs, n - 1);
      JobIssuesEmpty(checks, path, jobs[n - 1]);
      NextJob(checks, jobs, n - 1);
      ThreeEmpty(JobsIssues(checks, jobs, n - 1), JobIssues(checks, path, jobs[n - 1]), duplicate);
      SeenNotEmpty(jobs, n - 1);
      if ValidJob(checks, jobs[n - 1]) {
        NameNotEmpty(checks, jobs[n - 1]);
      }
    }
  }

  lemma NameNotEmpty(checks: Checks, j: Job)
    requires ValidJob(checks, j)
    ensures j.name != "" && IsName(j.name)
  {}

  /** Validation finds no issue exactly in the valid manifests. */
  lemma ValidExactly(checks: Checks, m: Manifest)
    ensures Issues(checks, m) == [] <==> ValidManifest(checks, m)
  {
    hide JobsIssues, ValidJob, IsName;
    JobsIssuesEmpty(checks, m.jobs, |m.jobs|);
  }
}

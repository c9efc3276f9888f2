/** The rules of a manifest one by one: which text is a schedule, and which issue each broken rule yields, with the
    paths, the codes and the limits written out. */
module Rules {
  import opened Wrappers
  import opened Sequences
  import opened Text
  import opened OwnerLine
  import opened Validation

  // ---- Schedules ----------------------------------------------------------------------------------

  /** The text names every n units: `@every`, a number, and a unit of one letter. */
  predicate Every(t: string, n: int, unit: char) {
    && "@every" <= t
    && var rest := TrimSpace(t[6..]);
       |rest| >= 2 && ParseInt(rest[..|rest| - 1]) == Some(n) && rest[|rest| - 1] == unit
  }

  /** What the unit makes of the number, in 64 bits. */
  function Seconds(n: int, unit: char): int {
    if unit == 's' || unit == 'S' then n
    else if unit == 'm' || unit == 'M' then Wrap(n * 60)
    else if unit == 'h' || unit == 'H' then Wrap(n * 3600)
    else 0
  }

  predicate IsShortcut(t: string) {
    || t == "@hourly" || t == "@daily" || t == "@midnight" || t == "@weekly" || t == "@monthly" || t == "@yearly"
    || t == "@annually"
  }

  /** A schedule is one of seven words, or at least 60 seconds, or five fields that the cron parser takes. */
  lemma ValidScheduleExactly(checks: Checks, expr: string)
    ensures var t := TrimSpace(expr);
            ValidSchedule(checks, expr) <==>
            || IsShortcut(t)
            || (exists n, unit :: Every(t, n, unit) && n > 0 && Seconds(n, unit) >= 60)
            || (!("@every" <= t) && |Fields(t)| == 5 && checks.cronOk(t))
  {
    hide ParseInt, Fields, IsShortcut;
    var t := TrimSpace(expr);
    EmptyText();
    ShortcutsAre(t);
    if "@every" <= t {
      EveryExactly(TrimSpace(t[6..]), t);
    }
  }

  lemma EmptyText()
    ensures TrimSpace("") == "" && Fields("") == [] && !IsShortcut("") && !("@every" <= "")
  {}

  lemma ShortcutsAre(t: string)
    ensures t in SHORTCUTS <==> IsShortcut(t)
    ensures IsShortcut(t) ==> !("@every" <= t)
  {
    if IsShortcut(t) {
      assert t[1] != "@every"[1];
    }
  }

  lemma EveryExactly(rest: string, t: string)
    requires "@every" <= t && rest == TrimSpace(t[6..])
    ensures ValidEvery(rest) <==> exists n, unit :: Every(t, n, unit) && n > 0 && Seconds(n, unit) >= 60
  {
    hide ParseInt, TrimSpace;
    if |rest| >= 2 && ParseInt(rest[..|rest| - 1]).Some? {
      var n, unit := ParseInt(rest[..|rest| - 1]).value, rest[|rest| - 1];
      assert Every(t, n, unit);
      assert ValidEvery(rest) <==> n > 0 && Seconds(n, unit) >= 60;
    }
  }

  /** Without a wrap the seconds are what they seem. */
  lemma SecondsPlain(n: nat)
    requires n * 3600 <= MAX_INT64
    ensures Seconds(n, 's') == n && Seconds(n, 'm') == n * 60 && Seconds(n, 'h') == n * 3600
  {
    WrapFits(n * 60);
    WrapFits(n * 3600);
  }

  // ---- Issues -------------------------------------------------------------------------------------

  predicate RequestBroken(checks: Checks, r: Request, at: seq<string>, path: seq<string>, code: string) {
    || (path == at + ["url"] && code == "invalid_value" && r.url == "")
    || (path == at + ["url"] && code == "invalid_format" && r.url != "" && !checks.urlOk(r.url))
    || (path == at + ["method"] && code == "invalid_value" && r.method_.Some?
        && r.method_.value !in {"GET", "POST", "PUT", "PATCH", "DELETE"})
  }

  predicate RetriesBroken(r: Retries, at: seq<string>, path: seq<string>, code: string) {
    || (path == at + ["max_attempts"] && code == "out_of_range" && r.maxAttempts.Some?
        && (r.maxAttempts.value < 1 || r.maxAttempts.value > 10))
    || (path == at + ["min_seconds"] && code == "out_of_range" && r.minSeconds.Some? && r.minSeconds.value < 0)
    || (path == at + ["max_seconds"] && code == "out_of_range" && r.maxSeconds.Some? && r.maxSeconds.value < 1)
    || (path == at && code == "custom" && r.minSeconds.Some? && r.maxSeconds.Some?
        && r.minSeconds.value > r.maxSeconds.value)
  }

  predicate PolicyBroken(p: Validation.Policy, at: seq<string>, path: seq<string>, code: string) {
    || (path == at + ["concurrency"] && code == "invalid_value" && p.concurrency.Some?
        && p.concurrency.value !in {"Allow", "Forbid", "Replace"})
    || (path == at + ["concurrency_scope"] && code == "invalid_value" && p.concurrencyScope.Some?
        && p.concurrencyScope.value !in {"host", "global"})
    || (path == at + ["timeout_seconds"] && code == "out_of_range" && p.timeoutSeconds.Some?
        && (p.timeoutSeconds.value < 1 || p.timeoutSeconds.value > 600))
    || (p.retries.Some? && RetriesBroken(p.retries.value, at + ["retries"], path, code))
  }

  predicate AuthBroken(refs: seq<string>, at: seq<string>, path: seq<string>, code: string) {
    || (path == at + ["secret_refs"] && code == "too_small" && refs == [])
    || (path == at + ["secret_refs"] && code == "too_big" && |refs| > 8)
    || exists k :: 0 <= k < |refs| && RefBroken(refs[k], at, k, path, code)
  }

  /** Not a letter and then at most 127 letters, digits, or characters of `_:./-`. */
  predicate RefBroken(ref: string, at: seq<string>, k: nat, path: seq<string>, code: string) {
    path == at + ["secret_refs", Digits(k)] && code == "invalid_format" && !IsSecretRef(ref)
  }

  predicate ScheduleBroken(checks: Checks, s: string, at: seq<string>, k: nat, path: seq<string>, code: string) {
    path == at + ["schedules", Digits(k)] && code == "custom" && !ValidSchedule(checks, s)
  }

  predicate AnyBroken(checks: Checks, schedules: seq<string>, at: seq<string>, path: seq<string>, code: string) {
    exists k :: 0 <= k < |schedules| && ScheduleBroken(checks, schedules[k], at, k, path, code)
  }

  predicate ScheduleKeysBroken(checks: Checks, j: Job, at: seq<string>, path: seq<string>, code: string) {
    || (path == at && code == "custom" && (j.schedule.Some? <==> j.schedules.Some?))
    || (path == at + ["schedule"] && code == "custom" && j.schedule.Some? && !ValidSchedule(checks, j.schedule.value))
    || (path == at + ["schedules"] && code == "too_small" && j.schedules == Some([]))
    || (path == at + ["schedules"] && code == "too_big" && j.schedules.Some? && |j.schedules.value| > 64)
    || (j.schedules.Some? && AnyBroken(checks, j.schedules.value, at, path, code))
  }

  predicate JobBroken(checks: Checks, j: Job, at: seq<string>, path: seq<string>, code: string) {
    || (path == at + ["name"] && code == "invalid_format" && !IsName(j.name))
    || ScheduleKeysBroken(checks, j, at, path, code)
    || RequestBroken(checks, j.request, at + ["request"], path, code)
    || (j.policy.Some? && PolicyBroken(j.policy.value, at + ["policy"], path, code))
    || (j.secretRefs.Some? && AuthBroken(j.secretRefs.value, at + ["auth"], path, code))
  }

  /** The job has the name of an earlier one. */
  predicate NameTaken(jobs: seq<Job>, i: nat) {
    i < |jobs| && jobs[i].name != "" && exists k :: 0 <= k < i && jobs[k].name == jobs[i].name
  }

  predicate JobAtBroken(checks: Checks, jobs: seq<Job>, i: nat, path: seq<string>, code: string)
    requires i < |jobs|
  {
    || JobBroken(checks, jobs[i], ["jobs", Digits(i)], path, code)
    || (path == ["jobs", Digits(i), "name"] && code == "custom" && NameTaken(jobs, i))
  }

  predicate Broken(checks: Checks, m: Manifest, path: seq<string>, code: string) {
    || (path == ["version"] && code == "invalid_value" && m.version != 1)
    || (path == ["app"] && code == "invalid_format" && !IsName(m.app))
    || (path == ["jobs"] && code == "too_small" && m.jobs == [])
    || (path == ["jobs"] && code == "too_big" && |m.jobs| > 256)
    || exists i :: 0 <= i < |m.jobs| && JobAtBroken(checks, m.jobs, i, path, code)
  }

  lemma {:induction false} RefsExactly(at: seq<string>, refs: seq<string>, n: nat, path: seq<string>, code: string)
    requires n <= |refs|
    ensures Issue(path, code) in RefIssues(at, refs, n) <==>
            exists k :: 0 <= k < n && RefBroken(refs[k], at, k, path, code)
  {
    hide IsSecretRef, Digits;
    if n > 0 {
      RefsExactly(at, refs, n - 1, path, code);
    }
  }

  lemma {:induction false} SchedulesExactly(checks: Checks, at: seq<string>, schedules: seq<string>, n: nat,
      path: seq<string>, code: string)
    requires n <= |schedules|
    ensures Issue(path, code) in ScheduleIssues(checks, at, schedules, n) <==>
            exists k :: 0 <= k < n && ScheduleBroken(checks, schedules[k], at, k, path, code)
  {
    hide ValidSchedule, Digits;
    if n > 0 {
      SchedulesExactly(checks, at, schedules, n - 1, path, code);
    }
  }

  lemma RequestExactly(checks: Checks, r: Request, at: seq<string>, path: seq<string>, code: string)
    ensures Issue(path, code) in RequestIssues(checks, at, r) <==> RequestBroken(checks, r, at, path, code)
  {}

  lemma RetriesExactly(r: Retries, at: seq<string>, path: seq<string>, code: string)
    ensures Issue(path, code) in RetriesIssues(at, r) <==> RetriesBroken(r, at, path, code)
  {}

  lemma PolicyExactly(p: Validation.Policy, at: seq<string>, path: seq<string>, code: string)
    ensures Issue(path, code) in PolicyIssues(at, p) <==> PolicyBroken(p, at, path, code)
  {
    hide RetriesIssues, RetriesBroken;
    if p.retries.Some? {
      RetriesExactly(p.retries.value, at + ["retries"], path, code);
    }
  }

  lemma AuthExactly(refs: seq<string>, at: seq<string>, path: seq<string>, code: string)
    ensures Issue(path, code) in AuthIssues(at, refs) <==> AuthBroken(refs, at, path, code)
  {
    hide RefIssues, RefBroken;
    RefsExactly(at, refs, |refs|, path, code);
  }

  /** What `validateJob` reports about the schedules. */
  function KeyIssues(checks: Checks, at: seq<string>, j: Job): seq<Issue> {
    When(j.schedule.Some? == j.schedules.Some?, at, "custom")
    + (if j.schedule.Some? then When(!ValidSchedule(checks, j.schedule.value), at + ["schedule"], "custom") else [])
    + (if j.schedules.Some?
       then When(j.schedules.value == [], at + ["schedules"], "too_small")
            + When(|j.schedules.value| > 64, at + ["schedules"], "too_big")
            + ScheduleIssues(checks, at, j.schedules.value, |j.schedules.value|)
       else [])
  }

  lemma KeysExactly(checks: Checks, j: Job, at: seq<string>, path: seq<string>, code: string)
    ensures Issue(path, code) in KeyIssues(checks, at, j) <==> ScheduleKeysBroken(checks, j, at, path, code)
  {
    hide ValidSchedule, ScheduleIssues, ScheduleBroken;
    if j.schedules.Some? {
      SchedulesExactly(checks, at, j.schedules.value, |j.schedules.value|, path, code);
    }
  }

  lemma JobParts(checks: Checks, j: Job, at: seq<string>, issue: Issue)
    ensures issue in JobIssues(checks, at, j) <==>
            || issue in When(!IsName(j.name), at + ["name"], "invalid_format")
            || issue in KeyIssues(checks, at, j)
            || issue in RequestIssues(checks, at + ["request"], j.request)
            || (j.policy.Some? && issue in PolicyIssues(at + ["policy"], j.policy.value))
            || (j.secretRefs.Some? && issue in AuthIssues(at + ["auth"], j.secretRefs.value))
  {
    hide When, ScheduleIssues, RequestIssues, PolicyIssues, AuthIssues, IsName, ValidSchedule;
  }

  lemma JobExactly(checks: Checks, j: Job, at: seq<string>, path: seq<string>, code: string)
    ensures Issue(path, code) in JobIssues(checks, at, j) <==> JobBroken(checks, j, at, path, code)
  {
    hide JobIssues, KeyIssues, RequestIssues, PolicyIssues, AuthIssues, IsName, ScheduleKeysBroken, RequestBroken,
      PolicyBroken, AuthBroken;
    JobParts(checks, j, at, Issue(path, code));
    KeysExactly(checks, j, at, path, code);
    RequestExactly(checks, j.request, at + ["request"], path, code);
    if j.policy.Some? {
      PolicyExactly(j.policy.value, at + ["policy"], path, code);
    }
    if j.secretRefs.Some? {
      AuthExactly(j.secretRefs.value, at + ["auth"], path, code);
    }
  }

  lemma TakenExactly(jobs: seq<Job>, i: nat)
    requires i < |jobs|
    ensures jobs[i].name in Seen(jobs, i) <==> NameTaken(jobs, i)
  {
    SeenNotEmpty(jobs, i);
  }

  lemma {:induction false} JobsExactly(checks: Checks, jobs: seq<Job>, n: nat, path: seq<string>, code: string)
    requires n <= |jobs|
    ensures Issue(path, code) in JobsIssues(checks, jobs, n) <==>
            exists i :: 0 <= i < n && JobAtBroken(checks, jobs, i, path, code)
  {
    hide JobIssues, JobBroken, Digits, Seen, NameTaken, JobsIssues;
    if n == 0 {
      NoJobs(checks, jobs);
    } else {
      var at := ["jobs", Digits(n - 1)];
      JobsExactly(checks, jobs, n - 1, path, code);
      JobExactly(checks, jobs[n - 1], at, path, code);
      TakenExactly(jobs, n - 1);
      NextJob(checks, jobs, n - 1);
      assert at + ["name"] == ["jobs", Digits(n - 1), "name"];
      var issue, here := Issue(path, code), if NameTaken(jobs, n - 1) then [Issue(at + ["name"], "custom")] else [];
      assert issue in here <==> path == at + ["name"] && code == "custom" && NameTaken(jobs, n - 1);
      assert JobAtBroken(checks, jobs, n - 1, path, code) <==>
        issue in JobIssues(checks, at, jobs[n - 1]) || issue in here;
    }
  }

  /** An issue is reported exactly when its rule is broken. */
  lemma IssuesExactly(checks: Checks, m: Manifest, path: seq<string>, code: string)
    ensures Issue(path, code) in Issues(checks, m) <==> Broken(checks, m, path, code)
  {
    hide JobsIssues, JobAtBroken, IsName;
    JobsExactly(checks, m.jobs, |m.jobs|, path, code);
  }
}

/** `ApplyDefaults` in Go and `applyDefaults` in TypeScript: every field filled in, the jobs sorted by name. */
module Defaults {
  import opened Wrappers
  import opened Sequences
  import opened Text
  import opened NormalizedManifests
  import opened OwnerLine
  import opened Validation
  import opened KeyOrder
  import Canonical
  import Timing

  // ---- One job ------------------------------------------------------------------------------------

  function OrElse<T>(value: Option<T>, fallback: T): T { if value.Some? then value.value else fallback }

  function MapTrim(schedules: seq<string>, trim: string -> string): (r: seq<string>)
    ensures |r| == |schedules| && forall k :: 0 <= k < |r| ==> r[k] == trim(schedules[k])
  {
    seq(|schedules|, k requires 0 <= k < |schedules| => trim(schedules[k]))
  }

  const NO_RETRIES := Retries(None, None, None)
  const NO_POLICY := Validation.Policy(None, None, None, None)

  /** A job with its defaults; the two implementations differ in how they trim a schedule. */
  function Normalize(j: Job, trim: string -> string): NormalizedJob {
    var p := OrElse(j.policy, NO_POLICY);
    var r := OrElse(p.retries, NO_RETRIES);
    NormalizedJob(
      j.name, MapTrim(SchedulesOf(j), trim), OrElse(j.timezone, "UTC"),
      NormalizedRequest(OrElse(j.request.method_, "POST"), j.request.url, j.request.headers,
          OrElse(j.request.body, "")),
      NormalizedPolicy(OrElse(p.concurrency, "Forbid"), OrElse(p.concurrencyScope, "host"),
          OrElse(p.timeoutSeconds, TIMEOUT_DEFAULT),
                       NormalizedRetries(OrElse(r.maxAttempts, RETRY_ATTEMPTS_DEFAULT),
                           OrElse(r.minSeconds, RETRY_BACKOFF_MIN_DEFAULT),
                                         OrElse(r.maxSeconds, RETRY_BACKOFF_MAX_DEFAULT))),
      OrElse(j.secretRefs, []))
  }

  function NormalizeAll(jobs: seq<Job>, trim: string -> string): (r: seq<NormalizedJob>)
    ensures |r| == |jobs| && forall i :: 0 <= i < |r| ==> r[i] == Normalize(jobs[i], trim)
  {
    seq(|jobs|, i requires 0 <= i < |jobs| => Normalize(jobs[i], trim))
  }

  // ---- Sorting ------------------------------------------------------------------------------------

  predicate Sorted(jobs: seq<NormalizedJob>) {
    forall i, j :: 0 <= i < j < |jobs| ==> !Less(jobs[j].name, jobs[i].name)
  }

  predicate NamesDistinct(jobs: seq<NormalizedJob>) {
    forall i, j :: 0 <= i < j < |jobs| ==> jobs[i].name != jobs[j].name
  }

  /** Behind all the jobs whose names are not greater. */
  function Insert(jobs: seq<NormalizedJob>, job: NormalizedJob): seq<NormalizedJob> {
    if jobs == [] || !Less(job.name, jobs[|jobs| - 1].name) then jobs + [job]
    else Insert(jobs[..|jobs| - 1], job) + [jobs[|jobs| - 1]]
  }

  /** `sort.SliceStable` by name. */
  function SortByName(jobs: seq<NormalizedJob>): seq<NormalizedJob> {
    if jobs == [] then [] else Insert(SortByName(jobs[..|jobs| - 1]), jobs[|jobs| - 1])
  }

  lemma {:induction false} InsertKeeps(jobs: seq<NormalizedJob>, job: NormalizedJob)
    ensures multiset(Insert(jobs, job)) == multiset(jobs) + multiset{job}
  {
    hide Less;
    if jobs != [] && Less(job.name, jobs[|jobs| - 1].name) {
      InsertKeeps(jobs[..|jobs| - 1], job);
      FrontAndLast(jobs);
    }
  }

  lemma {:induction false} SortKeeps(jobs: seq<NormalizedJob>)
    ensures multiset(SortByName(jobs)) == multiset(jobs)
  {
    if jobs != [] {
      SortKeeps(jobs[..|jobs| - 1]);
      InsertKeeps(SortByName(jobs[..|jobs| - 1]), jobs[|jobs| - 1]);
      FrontAndLast(jobs);
    }
  }

  lemma NotLessTransitive(a: string, b: string, c: string)
    requires !Less(b, a) && !Less(c, b)
    ensures !Less(c, a)
  {
    LessTotal(a, b);
    LessTotal(b, c);
    if Less(c, a) {
      if Less(a, b) {
        LessTransitive(c, a, b);
      }
    }
  }

  lemma SortedAppend(jobs: seq<NormalizedJob>, job: NormalizedJob)
    requires Sorted(jobs) && (jobs == [] || !Less(job.name, jobs[|jobs| - 1].name))
    ensures Sorted(jobs + [job])
  {
    hide Less;
    forall i | 0 <= i < |jobs| ensures !Less(job.name, jobs[i].name) {
      if i < |jobs| - 1 {
        NotLessTransitive(jobs[i].name, jobs[|jobs| - 1].name, job.name);
      }
    }
  }

  lemma {:induction false} InsertSorts(jobs: seq<NormalizedJob>, job: NormalizedJob)
    requires Sorted(jobs)
    ensures Sorted(Insert(jobs, job))
    ensures var r := Insert(jobs, job); r != [] && (r[|r| - 1] == job || (jobs != [] && r[|r| - 1] == jobs[|jobs| - 1]))
  {
    hide Less;
    if jobs == [] || !Less(job.name, jobs[|jobs| - 1].name) {
      SortedAppend(jobs, job);
    } else {
      var front, last := jobs[..|jobs| - 1], jobs[|jobs| - 1];
      InsertSorts(front, job);
      LessAsymmetric(job.name, last.name);
      SortedAppend(Insert(front, job), last);
    }
  }

  lemma {:induction false} SortSorts(jobs: seq<NormalizedJob>)
    ensures Sorted(SortByName(jobs))
  {
    if jobs != [] {
      SortSorts(jobs[..|jobs| - 1]);
      InsertSorts(SortByName(jobs[..|jobs| - 1]), jobs[|jobs| - 1]);
    }
  }

  lemma LastIsGreatest(a: seq<NormalizedJob>, job: NormalizedJob)
    requires Sorted(a) && job in a
    ensures !Less(a[|a| - 1].name, job.name)
  {
    hide Less;
    LessIrreflexive(job.name);
  }

  lemma LessIrreflexive(s: string)
    ensures !Less(s, s)
  {
    if Less(s, s) {
      LessAsymmetric(s, s);
    }
  }

  lemma DistinctFront(a: seq<NormalizedJob>, job: NormalizedJob)
    requires NamesDistinct(a) && a != []
    ensures job in a[..|a| - 1] <==> job in a && job != a[|a| - 1]
  {
    FrontAndLast(a);
  }

  lemma SameElementsEmpty(a: seq<NormalizedJob>, b: seq<NormalizedJob>)
    requires forall job :: job in a <==> job in b
    ensures a == [] <==> b == []
  {
    if a != [] {
      assert a[0] in b;
    }
    if b != [] {
      assert b[0] in a;
    }
  }

  /** Sorted lists of distinctly named jobs are determined by their elements. */
  lemma {:induction false} SortedUnique(a: seq<NormalizedJob>, b: seq<NormalizedJob>)
    requires Sorted(a) && Sorted(b) && NamesDistinct(a) && NamesDistinct(b)
    requires forall job :: job in a <==> job in b
    ensures a == b
  {
    hide Less;
    SameElementsEmpty(a, b);
    if a != [] {
      var x, y := a[|a| - 1], b[|b| - 1];
      LastIsGreatest(a, y);
      LastIsGreatest(b, x);
      LessTotal(x.name, y.name);
      SameNameSameJob(a, x, y);
      var front, front2 := a[..|a| - 1], b[..|b| - 1];
      forall job ensures job in front <==> job in front2 {
        DistinctFront(a, job);
        DistinctFront(b, job);
      }
      SortedUnique(front, front2);
      FrontAndLast(a);
      FrontAndLast(b);
    }
  }

  lemma SameNameSameJob(a: seq<NormalizedJob>, x: NormalizedJob, y: NormalizedJob)
    requires NamesDistinct(a) && x in a && y in a && x.name == y.name
    ensures x == y
  {}

  lemma MembersOfMultiset(a: seq<NormalizedJob>, b: seq<NormalizedJob>)
    requires multiset(a) == multiset(b)
    ensures forall job :: job in a <==> job in b
  {
    forall job ensures job in a <==> job in b {
      assert job in multiset(a) <==> job in multiset(b);
    }
  }

  lemma SortedDistinct(jobs: seq<NormalizedJob>)
    requires NamesDistinct(jobs)
    ensures NamesDistinct(SortByName(jobs))
  {
    hide SortByName;
    SortKeeps(jobs);
    MembersOfMultiset(SortByName(jobs), jobs);
    var sorted := SortByName(jobs);
    forall i, j | 0 <= i < j < |sorted| ensures sorted[i].name != sorted[j].name {
      if sorted[i].name == sorted[j].name {
        SameNameSameJob(jobs, sorted[i], sorted[j]);
        TwiceInMultiset(sorted, i, j);
        OnceInMultiset(jobs, sorted[i]);
      }
    }
  }

  lemma {:induction false} TwiceInMultiset(jobs: seq<NormalizedJob>, i: nat, j: nat)
    requires i < j < |jobs| && jobs[i] == jobs[j]
    ensures multiset(jobs)[jobs[i]] >= 2
  {
    assert jobs == jobs[..j] + [jobs[j]] + jobs[j + 1..];
    assert jobs[..j][i] == jobs[i];
    assert jobs[i] in multiset(jobs[..j]);
  }

  lemma {:induction false} OnceInMultiset(jobs: seq<NormalizedJob>, job: NormalizedJob)
    requires NamesDistinct(jobs)
    ensures multiset(jobs)[job] <= 1
  {
    if jobs != [] {
      FrontAndLast(jobs);
      OnceInMultiset(jobs[..|jobs| - 1], job);
      if job == jobs[|jobs| - 1] {
        DistinctFront(jobs, job);
      }
    }
  }

  // ---- The whole manifest -------------------------------------------------------------------------

  function ApplyDefaultsWith(m: Manifest, trim: string -> string): NormalizedManifest {
    NormalizedManifest(1, m.app, SortByName(NormalizeAll(m.jobs, trim)))
  }

  // ---- What the defaults are, field by field ------------------------------------------------------

  /** A field that was given is kept; one that was not has its default. */
  predicate Filled<T(==)>(given: Option<T>, value: T, fallback: T) {
    match given
    case Some(v) => value == v
    case None => value == fallback
  }

  /** `t` is `s` without the white space around it. */
  ghost predicate IsTrimOf(s: string, t: string, space: char -> bool) {
    && (t == "" || (!space(t[0]) && !space(t[|t| - 1])))
    && exists a, b :: 0 <= a <= b <= |s| && s[a..b] == t
         && (forall i :: 0 <= i < a ==> space(s[i])) && forall i :: b <= i < |s| ==> space(s[i])
  }

  ghost predicate SchedulesFilled(j: Job, schedules: seq<string>, space: char -> bool) {
    match j.schedules
    case Some(list) =>
      |schedules| == |list| && forall k :: 0 <= k < |list| ==> IsTrimOf(list[k], schedules[k], space)
    case None =>
      match j.schedule
      case Some(one) => |schedules| == 1 && IsTrimOf(one, schedules[0], space)
      case None => schedules == []
  }

  predicate RetriesFilled(given: Option<Retries>, r: NormalizedRetries) {
    match given
    case Some(g) => Filled(g.maxAttempts, r.maxAttempts, 3) && Filled(g.minSeconds, r.minSeconds, 1)
      && Filled(g.maxSeconds, r.maxSeconds, 60)
    case None => r == NormalizedRetries(3, 1, 60)
  }

  predicate PolicyFilled(given: Option<Validation.Policy>, p: NormalizedPolicy) {
    match given
    case Some(g) =>
      && Filled(g.concurrency, p.concurrency, "Forbid") && Filled(g.concurrencyScope, p.concurrencyScope, "host")
      && Filled(g.timeoutSeconds, p.timeoutSeconds, 60) && RetriesFilled(g.retries, p.retries)
    case None => p == NormalizedPolicy("Forbid", "host", 60, NormalizedRetries(3, 1, 60))
  }

  ghost predicate JobFilled(j: Job, n: NormalizedJob, space: char -> bool) {
    && n.name == j.name && SchedulesFilled(j, n.schedules, space) && Filled(j.timezone, n.timezone, "UTC")
    && Filled(j.request.method_, n.request.method_, "POST") && n.request.url == j.request.url
    && n.request.headers == j.request.headers && Filled(j.request.body, n.request.body, "")
    && PolicyFilled(j.policy, n.policy) && Filled(j.secretRefs, n.secretRefs, [])
  }

  ghost predicate AllBelow(order: seq<nat>, n: nat) { forall i: nat :: i < n ==> i in order }

  /** A stable sort by name: each raw job once, names ascending, and jobs of one name in their first order. */
  ghost predicate IsOrder(jobs: seq<Job>, order: seq<nat>) {
    && |order| == |jobs| && (forall k :: 0 <= k < |order| ==> order[k] < |jobs|)
    && AllBelow(order, |jobs|)
    && forall i, k :: 0 <= i < k < |order| ==>
         order[i] != order[k] && !Less(jobs[order[k]].name, jobs[order[i]].name)
         && (jobs[order[i]].name == jobs[order[k]].name ==> order[i] < order[k])
  }

  ghost predicate OrderFills(m: Manifest, r: NormalizedManifest, order: seq<nat>, space: char -> bool) {
    && IsOrder(m.jobs, order) && |r.jobs| == |m.jobs|
    && forall k :: 0 <= k < |order| ==> JobFilled(m.jobs[order[k]], r.jobs[k], space)
  }

  ghost predicate ManifestFilled(m: Manifest, r: NormalizedManifest, space: char -> bool) {
    r.version == 1 && r.app == m.app && exists order :: OrderFills(m, r, order, space)
  }

  lemma TrimIs(s: string)
    ensures IsTrimOf(s, TrimSpace(s), IsSpace)
  {
    TrimLeftShape(s);
    var left := TrimLeft(s);
    TrimRightShape(left);
    TrimSpaceTrims(s);
    var a := |s| - |left|;
    var b := a + |TrimSpace(s)|;
    assert s[a..b] == TrimSpace(s);
    forall i | b <= i < |s| ensures IsSpace(s[i]) {
      assert s[i] == left[i - a];
    }
  }

  lemma FillsJob(j: Job, trim: string -> string, space: char -> bool)
    requires forall s :: IsTrimOf(s, trim(s), space)
    ensures JobFilled(j, Normalize(j, trim), space)
  {
    hide IsTrimOf;
  }

  /** `r` is `s` with `x` put in at place p. */
  predicate IsInserted<T(==)>(r: seq<T>, s: seq<T>, x: T, p: nat) {
    && |r| == |s| + 1 && p < |r| && r[p] == x
    && (forall k :: 0 <= k < p ==> r[k] == s[k]) && forall k :: p < k < |r| ==> r[k] == s[k - 1]
  }

  lemma {:induction false} InsertAt(jobs: seq<NormalizedJob>, job: NormalizedJob) returns (p: nat)
    ensures IsInserted(Insert(jobs, job), jobs, job, p)
    ensures forall i :: p <= i < |jobs| ==> Less(job.name, jobs[i].name)
    ensures p > 0 ==> !Less(job.name, jobs[p - 1].name)
  {
    hide Less;
    if jobs == [] || !Less(job.name, jobs[|jobs| - 1].name) {
      p := |jobs|;
    } else {
      var n := |jobs| - 1;
      p := InsertAt(jobs[..n], job);
    }
  }

  /** `all` in an order in which each raw job stands once. */
  ghost predicate OrderedBy(all: seq<NormalizedJob>, sorted: seq<NormalizedJob>, order: seq<nat>) {
    && |order| == |all| == |sorted| && AllBelow(order, |all|)
    && (forall k :: 0 <= k < |order| ==> order[k] < |all| && sorted[k] == all[order[k]])
    && forall i, k :: 0 <= i < k < |order| ==>
         order[i] != order[k] && (sorted[i].name == sorted[k].name ==> order[i] < order[k])
  }

  lemma {:induction false} SortOrder(all: seq<NormalizedJob>) returns (order: seq<nat>)
    ensures OrderedBy(all, SortByName(all), order)
  {
    hide Less, Insert;
    if all == [] {
      order := [];
    } else {
      var n := |all| - 1;
      var before := SortOrder(all[..n]);
      var sorted := SortByName(all[..n]);
      SortSorts(all[..n]);
      var p := InsertAt(sorted, all[n]);
      forall i | 0 <= i < p ensures !Less(all[n].name, sorted[i].name) {
        if i < p - 1 { NotLessTransitive(sorted[i].name, sorted[p - 1].name, all[n].name); }
      }
      forall i | p <= i < |sorted| ensures all[n].name != sorted[i].name { LessIrreflexive(all[n].name); }
      order := before[..p] + [n] + before[p..];
      OrderInserted(all, sorted, before, p, SortByName(all), order);
    }
  }

  lemma OrderInserted(all: seq<NormalizedJob>, sorted: seq<NormalizedJob>, before: seq<nat>, p: nat,
      after: seq<NormalizedJob>, order: seq<nat>)
    requires all != [] && OrderedBy(all[..|all| - 1], sorted, before)
    requires forall i :: p <= i < |sorted| ==> all[|all| - 1].name != sorted[i].name
    requires IsInserted(after, sorted, all[|all| - 1], p) && IsInserted(order, before, |all| - 1, p)
    ensures OrderedBy(all, after, order)
  {
    AllBelowInserted(before, |all| - 1, p, order);
    hide AllBelow;
  }

  lemma AllBelowInserted(before: seq<nat>, n: nat, p: nat, order: seq<nat>)
    requires AllBelow(before, n) && IsInserted(order, before, n, p)
    ensures AllBelow(order, n + 1)
  {
    forall i: nat | i < n + 1 ensures i in order {
      if i < n {
        assert i in before;
        var k :| 0 <= k < |before| && before[k] == i;
        assert order[if k < p then k else k + 1] == i;
      }
    }
  }

  /** The result of `ApplyDefaults`: each raw job once, sorted by name, each field kept or filled. */
  lemma DefaultsFill(m: Manifest)
    ensures ManifestFilled(m, ApplyDefaultsWith(m, TrimSpace), IsSpace)
  {
    hide Normalize, SortByName, JobFilled, Less, TrimSpace, IsTrimOf;
    var all := NormalizeAll(m.jobs, TrimSpace);
    var order := SortOrder(all);
    var r := ApplyDefaultsWith(m, TrimSpace);
    SortSorts(all);
    forall s ensures IsTrimOf(s, TrimSpace(s), IsSpace) { TrimIs(s); }
    forall i | 0 <= i < |m.jobs|
      ensures JobFilled(m.jobs[i], all[i], IsSpace) && all[i].name == m.jobs[i].name
    {
      FillsJob(m.jobs[i], TrimSpace, IsSpace);
      NormalizeNames(m.jobs[i], TrimSpace);
    }
    assert OrderFills(m, r, order, IsSpace);
  }

  lemma NormalizeNames(j: Job, trim: string -> string)
    ensures Normalize(j, trim).name == j.name
  {}

  /** For each raw job there is exactly one result job of its name, filled from it. */
  lemma OneFilledEach(m: Manifest, r: NormalizedManifest, space: char -> bool, i: nat) returns (k: nat)
    requires ManifestFilled(m, r, space) && i < |m.jobs|
    requires forall i, j :: 0 <= i < j < |m.jobs| ==> m.jobs[i].name != m.jobs[j].name
    ensures k < |r.jobs| == |m.jobs| && JobFilled(m.jobs[i], r.jobs[k], space)
    ensures forall l :: 0 <= l < |r.jobs| ==> (r.jobs[l].name == m.jobs[i].name <==> l == k)
  {
    hide Less, SchedulesFilled, PolicyFilled, Filled;
    var order :| OrderFills(m, r, order, space);
    assert i in order;
    k :| 0 <= k < |order| && order[k] == i;
  }

  /** `ApplyDefaults` in Go. */
  method ApplyDefaults(m: Manifest) returns (r: NormalizedManifest)
    ensures r == ApplyDefaultsWith(m, TrimSpace)
    ensures ManifestFilled(m, r, IsSpace)
  {
    hide SortByName, ManifestFilled;
    DefaultsFill(m);
    var jobs: seq<NormalizedJob> := [];
    var i := 0;
    while i < |m.jobs|
      invariant 0 <= i <= |m.jobs| && |jobs| == i
      invariant forall k :: 0 <= k < i ==> jobs[k] == Normalize(m.jobs[k], TrimSpace)
    {
      jobs := jobs + [Normalize(m.jobs[i], TrimSpace)];
      i := i + 1;
    }
    assert jobs == NormalizeAll(m.jobs, TrimSpace);
    r := NormalizedManifest(1, m.app, SortByName(jobs));
  }

  lemma NormalizedNames(m: Manifest, trim: string -> string)
    requires forall i, j :: 0 <= i < j < |m.jobs| ==> m.jobs[i].name != m.jobs[j].name
    ensures NamesDistinct(NormalizeAll(m.jobs, trim))
  {}

  /** The result is the permutation of the jobs that is sorted by name, each with its defaults. */
  lemma DefaultsSortPermutation(m: Manifest, trim: string -> string)
    requires forall i, j :: 0 <= i < j < |m.jobs| ==> m.jobs[i].name != m.jobs[j].name
    ensures var r := ApplyDefaultsWith(m, trim);
            && multiset(r.jobs) == multiset(NormalizeAll(m.jobs, trim))
            && NamesDistinct(r.jobs)
            && forall i, j :: 0 <= i < j < |r.jobs| ==> Less(r.jobs[i].name, r.jobs[j].name)
  {
    hide SortByName, Less, Normalize;
    var all := NormalizeAll(m.jobs, trim);
    NormalizedNames(m, trim);
    SortKeeps(all);
    SortSorts(all);
    SortedDistinct(all);
    var jobs := SortByName(all);
    forall i, j | 0 <= i < j < |jobs| ensures Less(jobs[i].name, jobs[j].name) {
      LessTotal(jobs[i].name, jobs[j].name);
    }
  }

  lemma {:induction false} NormalizedMembers(jobs: seq<Job>, trim: string -> string, job: NormalizedJob)
    ensures job in NormalizeAll(jobs, trim) <==> exists j :: j in jobs && Normalize(j, trim) == job
  {
    hide Normalize;
    var all := NormalizeAll(jobs, trim);
    if job in all {
      var i :| 0 <= i < |all| && all[i] == job;
      assert jobs[i] in jobs;
    }
    if j :| j in jobs && Normalize(j, trim) == job {
      var i :| 0 <= i < |jobs| && jobs[i] == j;
      assert all[i] == job;
    }
  }

  /** The order of the jobs in the manifest does not matter. */
  lemma DefaultsIgnoreOrder(m: Manifest, other: Manifest, trim: string -> string)
    requires forall i, j :: 0 <= i < j < |m.jobs| ==> m.jobs[i].name != m.jobs[j].name
    requires multiset(m.jobs) == multiset(other.jobs) && m.app == other.app
    requires forall i, j :: 0 <= i < j < |other.jobs| ==> other.jobs[i].name != other.jobs[j].name
    ensures ApplyDefaultsWith(m, trim) == ApplyDefaultsWith(other, trim)
  {
    hide SortByName, Normalize, NormalizeAll, Less;
    var a, b := NormalizeAll(m.jobs, trim), NormalizeAll(other.jobs, trim);
    NormalizedNames(m, trim);
    NormalizedNames(other, trim);
    SortedFacts(a);
    SortedFacts(b);
    forall job ensures job in SortByName(a) <==> job in SortByName(b) {
      NormalizedMembers(m.jobs, trim, job);
      NormalizedMembers(other.jobs, trim, job);
      forall j: Job ensures j in m.jobs <==> j in other.jobs {
        assert j in multiset(m.jobs) <==> j in multiset(other.jobs);
      }
    }
    SortedUnique(SortByName(a), SortByName(b));
  }

  lemma SortedFacts(jobs: seq<NormalizedJob>)
    requires NamesDistinct(jobs)
    ensures Sorted(SortByName(jobs)) && NamesDistinct(SortByName(jobs))
    ensures forall job :: job in SortByName(jobs) <==> job in jobs
  {
    SortSorts(jobs);
    SortedDistinct(jobs);
    SortKeeps(jobs);
    MembersOfMultiset(SortByName(jobs), jobs);
  }

  // ---- Ranges -------------------------------------------------------------------------------------

  /** Whether a job gives a smallest wait above the default largest one, and no largest wait. */
  predicate OnlyMinGiven(j: Job) {
    var r := OrElse(OrElse(j.policy, NO_POLICY).retries, NO_RETRIES);
    r.minSeconds.Some? && r.maxSeconds.None? && r.minSeconds.value > RETRY_BACKOFF_MAX_DEFAULT
  }

  /** What the defaults of a valid job promise: the ranges hold, and the smallest wait is at most the largest unless
      only a large smallest wait was given. */
  lemma DefaultRanges(checks: Checks, j: Job, trim: string -> string)
    requires ValidJob(checks, j)
    ensures var p := Normalize(j, trim).policy;
            && TIMEOUT_MIN <= p.timeoutSeconds <= TIMEOUT_MAX
            && RETRY_ATTEMPTS_MIN <= p.retries.maxAttempts <= RETRY_ATTEMPTS_MAX
            && p.retries.minSeconds >= 0 && p.retries.maxSeconds >= 1
            && p.concurrency in {"Allow", "Forbid", "Replace"} && p.concurrencyScope in {"host", "global"}
            && (p.retries.minSeconds <= p.retries.maxSeconds <==> !OnlyMinGiven(j))
  {
    hide ValidSchedule, IsName, IsSecretRef;
  }

  // ---- The two implementations --------------------------------------------------------------------

  function TrimLeftBy(s: string, space: char -> bool): string {
    if s != "" && space(s[0]) then TrimLeftBy(s[1..], space) else s
  }

  function TrimRightBy(s: string, space: char -> bool): string {
    if s != "" && space(s[|s| - 1]) then TrimRightBy(s[..|s| - 1], space) else s
  }

  function TrimBy(s: string, space: char -> bool): string { TrimRightBy(TrimLeftBy(s, space), space) }

  function JsTrim(s: string): string { TrimBy(s, IsJsSpace) }

  /** The normalised jobs, trimmed as JavaScript does, in an order that the comparator allows. */
  ghost predicate IsSortedResult(m: Manifest, ts: NormalizedManifest) {
    && ts.version == 1 && ts.app == m.app
    && multiset(ts.jobs) == multiset(NormalizeAll(m.jobs, JsTrim))
    && forall i, j :: 0 <= i < j < |ts.jobs| ==> !JsLess(ts.jobs[j].name, ts.jobs[i].name)
  }

  /** Valid names are ASCII, which JavaScript compares as Go does. */
  lemma NamesOrderedAlike(a: string, b: string)
    requires IsName(a) && IsName(b)
    ensures JsLess(a, b) <==> Less(a, b)
  {
    hide JsLess, RankLess, Less;
    JsLessIsRankLess(a, b);
    if a == b {
      if Less(a, b) { LessAsymmetric(a, b); }
      if RankLess(a, b) { RankLessAsymmetric(a, b); }
    } else {
      UnitOrderExactly(a, b);
    }
  }

  lemma SortedAlike(m: Manifest, ts: NormalizedManifest)
    requires IsSortedResult(m, ts) && forall i :: 0 <= i < |m.jobs| ==> IsName(m.jobs[i].name)
    ensures Sorted(ts.jobs)
  {
    hide JsLess, Less, IsName, Normalize;
    var js := NormalizeAll(m.jobs, JsTrim);
    MembersOfMultiset(ts.jobs, js);
    forall i | 0 <= i < |ts.jobs| ensures IsName(ts.jobs[i].name) {
      assert ts.jobs[i] in js;
      NormalizedNamed(m, ts.jobs[i]);
    }
    forall i, j | 0 <= i < j < |ts.jobs| ensures !Less(ts.jobs[j].name, ts.jobs[i].name) {
      NamesOrderedAlike(ts.jobs[j].name, ts.jobs[i].name);
    }
  }

  lemma NormalizedNamed(m: Manifest, job: NormalizedJob)
    requires job in NormalizeAll(m.jobs, JsTrim)
    ensures exists i :: 0 <= i < |m.jobs| && m.jobs[i].name == job.name
  {
    var i :| 0 <= i < |m.jobs| && NormalizeAll(m.jobs, JsTrim)[i] == job;
    assert m.jobs[i].name == job.name;
  }

  /** The name under which an object of JavaScript holds its prototype. */
  const PROTO := "__proto__"

  /** `sortObjectKeys` assigns the headers to a new object, where an assignment to that name leaves nothing. */
  function WithoutProto(j: Job): Job { j.(request := j.request.(headers := j.request.headers - {PROTO})) }

  function WithoutProtos(m: Manifest): (r: Manifest)
    ensures |r.jobs| == |m.jobs| && forall i :: 0 <= i < |m.jobs| ==> r.jobs[i] == WithoutProto(m.jobs[i])
    ensures r.version == m.version && r.app == m.app
  {
    m.(jobs := seq(|m.jobs|, i requires 0 <= i < |m.jobs| => WithoutProto(m.jobs[i])))
  }

  /** `ts` is what `applyDefaults` may return. */
  ghost predicate IsTsResult(m: Manifest, ts: NormalizedManifest) { IsSortedResult(WithoutProtos(m), ts) }

  predicate NoProtos(m: Manifest) { forall i :: 0 <= i < |m.jobs| ==> PROTO !in m.jobs[i].request.headers }

  /** Both implementations trim every schedule of the manifest alike. */
  predicate TrimsAgree(m: Manifest) {
    forall i, k :: 0 <= i < |m.jobs| && 0 <= k < |SchedulesOf(m.jobs[i])| ==>
      TrimSpace(SchedulesOf(m.jobs[i])[k]) == JsTrim(SchedulesOf(m.jobs[i])[k])
  }

  lemma NormalizeSame(j: Job, m: Manifest, i: nat)
    requires i < |m.jobs| && m.jobs[i] == j
    requires forall k :: 0 <= k < |SchedulesOf(j)| ==> TrimSpace(SchedulesOf(j)[k]) == JsTrim(SchedulesOf(j)[k])
    ensures Normalize(j, TrimSpace) == Normalize(j, JsTrim)
  {
    hide TrimSpace, JsTrim;
    assert MapTrim(SchedulesOf(j), TrimSpace) == MapTrim(SchedulesOf(j), JsTrim);
  }

  /** The TypeScript result, whatever sort the engine uses, is the Go result exactly when the two trim alike and no
      header has the one name that JavaScript drops. */
  lemma ImplementationsAgree(m: Manifest, ts: NormalizedManifest)
    requires forall i, j :: 0 <= i < j < |m.jobs| ==> m.jobs[i].name != m.jobs[j].name
    requires IsTsResult(m, ts) && forall i :: 0 <= i < |m.jobs| ==> IsName(m.jobs[i].name)
    ensures ts == ApplyDefaultsWith(m, TrimSpace) <==> TrimsAgree(m) && NoProtos(m)
  {
    hide TrimSpace, JsTrim, SortByName, Less, JsLess, Normalize, NormalizeAll, IsName;
    if !NoProtos(m) {
      var i :| 0 <= i < |m.jobs| && PROTO in m.jobs[i].request.headers;
      DroppedHeader(m, ts, i);
    } else {
      NothingDropped(m);
      if TrimsAgree(m) {
        AgreeingTrims(m, ts);
      } else {
        var i, k :| 0 <= i < |m.jobs| && 0 <= k < |SchedulesOf(m.jobs[i])|
          && TrimSpace(SchedulesOf(m.jobs[i])[k]) != JsTrim(SchedulesOf(m.jobs[i])[k]);
        DisagreeingTrims(m, ts, i, k);
      }
    }
  }

  lemma NothingDropped(m: Manifest)
    requires NoProtos(m)
    ensures WithoutProtos(m) == m
  {
    forall i | 0 <= i < |m.jobs| ensures WithoutProto(m.jobs[i]) == m.jobs[i] {
      assert m.jobs[i].request.headers - {PROTO} == m.jobs[i].request.headers;
    }
  }

  lemma DroppedHeader(m: Manifest, ts: NormalizedManifest, i: nat)
    requires forall i, j :: 0 <= i < j < |m.jobs| ==> m.jobs[i].name != m.jobs[j].name
    requires IsTsResult(m, ts) && i < |m.jobs| && PROTO in m.jobs[i].request.headers
    ensures ts != ApplyDefaultsWith(m, TrimSpace)
  {
    hide TrimSpace, JsTrim, SortByName, Less;
    var go, js := NormalizeAll(m.jobs, TrimSpace), NormalizeAll(WithoutProtos(m).jobs, JsTrim);
    NormalizedNames(m, TrimSpace);
    SortedFacts(go);
    MembersOfMultiset(ts.jobs, js);
    assert js[i] in ts.jobs && go[i] in SortByName(go);
    assert PROTO in go[i].request.headers && PROTO !in js[i].request.headers;
    if ts.jobs == SortByName(go) {
      SameNameSameJob(SortByName(go), js[i], go[i]);
    }
  }

  /** The two implementations, from the manifest to its canonical text: the texts are the same exactly when the two trim
      alike, no header has the one name, no text holds one of the five characters that only Go escapes, and no job has
      two header names that the two orders put differently. */
  lemma CanonicalTextsAgreeExactly(m: Manifest, ts: NormalizedManifest)
    requires forall i, j :: 0 <= i < j < |m.jobs| ==> m.jobs[i].name != m.jobs[j].name
    requires IsTsResult(m, ts) && forall i :: 0 <= i < |m.jobs| ==> IsName(m.jobs[i].name)
    ensures var go := ApplyDefaultsWith(m, TrimSpace);
            Canonical.PrintManifest(Go, go) == Canonical.PrintManifest(Js, ts) <==>
            TrimsAgree(m) && NoProtos(m) && Canonical.AlikeManifest(go)
  {
    hide TrimSpace, JsTrim, SortByName, Less, JsLess, NormalizeAll, IsName, TrimsAgree, NoProtos,
      Canonical.PrintManifest, Canonical.Plain, Canonical.AlikeJobs;
    var go := ApplyDefaultsWith(m, TrimSpace);
    ImplementationsAgree(m, ts);
    Canonical.TextsAgreeExactly(go);
    if Canonical.PrintManifest(Go, go) == Canonical.PrintManifest(Js, ts) {
      Canonical.ManifestDecodes(Go, Js, go, ts);
    }
  }

  lemma AgreeingTrims(m: Manifest, ts: NormalizedManifest)
    requires forall i, j :: 0 <= i < j < |m.jobs| ==> m.jobs[i].name != m.jobs[j].name
    requires IsSortedResult(m, ts) && TrimsAgree(m) && forall i :: 0 <= i < |m.jobs| ==> IsName(m.jobs[i].name)
    ensures ts == ApplyDefaultsWith(m, TrimSpace)
  {
    hide TrimSpace, JsTrim, SortByName, Less, JsLess, Normalize, IsName;
    var go, js := NormalizeAll(m.jobs, TrimSpace), NormalizeAll(m.jobs, JsTrim);
    SortedAlike(m, ts);
    forall i | 0 <= i < |m.jobs| ensures Normalize(m.jobs[i], TrimSpace) == Normalize(m.jobs[i], JsTrim) {
      NormalizeSame(m.jobs[i], m, i);
    }
    assert go == js;
    NormalizedNames(m, JsTrim);
    SortedFacts(go);
    MembersOfMultiset(ts.jobs, js);
    DistinctPermutation(js, ts.jobs);
    SortedUnique(ts.jobs, SortByName(go));
  }

  lemma DistinctPermutation(a: seq<NormalizedJob>, b: seq<NormalizedJob>)
    requires NamesDistinct(a) && multiset(b) == multiset(a)
    ensures NamesDistinct(b)
  {
    MembersOfMultiset(b, a);
    forall i, j | 0 <= i < j < |b| ensures b[i].name != b[j].name {
      if b[i].name == b[j].name {
        SameNameSameJob(a, b[i], b[j]);
        TwiceInMultiset(b, i, j);
        OnceInMultiset(a, b[i]);
      }
    }
  }

  lemma DisagreeingTrims(m: Manifest, ts: NormalizedManifest, i: nat, k: nat)
    requires forall i, j :: 0 <= i < j < |m.jobs| ==> m.jobs[i].name != m.jobs[j].name
    requires IsSortedResult(m, ts) && i < |m.jobs| && k < |SchedulesOf(m.jobs[i])|
    requires TrimSpace(SchedulesOf(m.jobs[i])[k]) != JsTrim(SchedulesOf(m.jobs[i])[k])
    ensures ts != ApplyDefaultsWith(m, TrimSpace)
  {
    hide TrimSpace, JsTrim, SortByName, Less;
    var go, js := NormalizeAll(m.jobs, TrimSpace), NormalizeAll(m.jobs, JsTrim);
    NormalizedNames(m, TrimSpace);
    SortedFacts(go);
    MembersOfMultiset(ts.jobs, js);
    assert js[i] in ts.jobs && go[i] in SortByName(go);
    assert js[i].schedules[k] != go[i].schedules[k];
    if ts.jobs == SortByName(go) {
      SameNameSameJob(SortByName(go), js[i], go[i]);
    }
  }

  // ---- Where the two trims agree ------------------------------------------------------------------

  /** White space for both. */
  predicate IsCommonSpace(c: char) { IsSpace(c) && IsJsSpace(c) }

  lemma {:induction false} TrimLeftByShape(s: string, space: char -> bool)
    ensures var r := TrimLeftBy(s, space);
            && |r| <= |s| && r == s[|s| - |r|..] && (r == "" || !space(r[0]))
            && forall i :: 0 <= i < |s| - |r| ==> space(s[i])
  {
    if s != "" && space(s[0]) {
      TrimLeftByShape(s[1..], space);
      forall i | 0 < i < |s| - |TrimLeftBy(s, space)| ensures space(s[i]) { assert s[i] == s[1..][i - 1]; }
    }
  }

  lemma {:induction false} TrimRightByShape(s: string, space: char -> bool)
    ensures var r := TrimRightBy(s, space);
            r <= s && (r == "" || !space(r[|r| - 1])) && forall i :: |r| <= i < |s| ==> space(s[i])
    ensures s != "" && !space(s[0]) ==> TrimRightBy(s, space) != ""
  {
    if s != "" && space(s[|s| - 1]) {
      TrimRightByShape(s[..|s| - 1], space);
    }
  }

  /** Trimming less first changes nothing. */
  lemma {:induction false} TrimLeftInTwo(s: string, less: char -> bool, more: char -> bool)
    requires forall c :: less(c) ==> more(c)
    ensures TrimLeftBy(TrimLeftBy(s, less), more) == TrimLeftBy(s, more)
  {
    if s != "" && less(s[0]) {
      TrimLeftInTwo(s[1..], less, more);
    }
  }

  lemma {:induction false} TrimRightInTwo(s: string, less: char -> bool, more: char -> bool)
    requires forall c :: less(c) ==> more(c)
    ensures TrimRightBy(TrimRightBy(s, less), more) == TrimRightBy(s, more)
  {
    if s != "" && less(s[|s| - 1]) {
      TrimRightInTwo(s[..|s| - 1], less, more);
    }
  }

  lemma {:induction false} GoTrimLeft(s: string)
    ensures TrimLeft(s) == TrimLeftBy(s, IsSpace)
  {
    if s != "" && IsSpace(s[0]) {
      GoTrimLeft(s[1..]);
    }
  }

  lemma {:induction false} GoTrimRight(s: string)
    ensures TrimRight(s) == TrimRightBy(s, IsSpace)
  {
    if s != "" && IsSpace(s[|s| - 1]) {
      GoTrimRight(s[..|s| - 1]);
    }
  }

  predicate OddSpace(c: char) { c == '\U{85}' || c == '\U{FEFF}' }

  /** The two trims agree on a text exactly when it, less the white space both know, begins and ends with neither U+0085
      nor U+FEFF. */
  lemma TrimsExactly(s: string)
    ensures TrimSpace(s) == JsTrim(s) <==>
            var t := TrimBy(s, IsCommonSpace); t == "" || (!OddSpace(t[0]) && !OddSpace(t[|t| - 1]))
  {
    var left := TrimLeftBy(s, IsCommonSpace);
    var t := TrimRightBy(left, IsCommonSpace);
    GoTrimLeft(s);
    GoTrimRight(TrimLeft(s));
    TrimLeftByShape(s, IsCommonSpace);
    TrimLeftInTwo(s, IsCommonSpace, IsSpace);
    TrimLeftInTwo(s, IsCommonSpace, IsJsSpace);
    TrimRightByShape(left, IsCommonSpace);
    if left == "" || !OddSpace(left[0]) {
      TrimRightInTwo(left, IsCommonSpace, IsSpace);
      TrimRightInTwo(left, IsCommonSpace, IsJsSpace);
      RightTrims(t);
    } else {
      OddStart(left);
    }
  }

  /** A text that ends in no common white space: an odd one at its end is trimmed by one side only. */
  lemma RightTrims(t: string)
    requires t == "" || !IsCommonSpace(t[|t| - 1])
    ensures TrimRightBy(t, IsSpace) == TrimRightBy(t, IsJsSpace) <==> t == "" || !OddSpace(t[|t| - 1])
  {
    if t != "" && OddSpace(t[|t| - 1]) {
      TrimRightByShape(t[..|t| - 1], IsSpace);
      TrimRightByShape(t[..|t| - 1], IsJsSpace);
    }
  }

  lemma OddStart(left: string)
    requires left != "" && OddSpace(left[0])
    ensures TrimRightBy(TrimLeftBy(left, IsSpace), IsSpace) != TrimRightBy(TrimLeftBy(left, IsJsSpace), IsJsSpace)
  {
    TrimLeftByShape(left, IsSpace);
    TrimLeftByShape(left, IsJsSpace);
    TrimRightByShape(TrimLeftBy(left, IsSpace), IsSpace);
    TrimRightByShape(TrimLeftBy(left, IsJsSpace), IsJsSpace);
  }

  // ---- The defaults of TypeScript, field by field, and what they mean for a fire ------------------

  lemma JsTrimIs(s: string)
    ensures IsTrimOf(s, JsTrim(s), IsJsSpace)
  {
    TrimLeftByShape(s, IsJsSpace);
    var left := TrimLeftBy(s, IsJsSpace);
    TrimRightByShape(left, IsJsSpace);
    var a := |s| - |left|;
    var b := a + |JsTrim(s)|;
    assert s[a..b] == JsTrim(s);
    forall i | b <= i < |s| ensures IsJsSpace(s[i]) { assert s[i] == left[i - a]; }
    if JsTrim(s) != "" { assert JsTrim(s)[0] == left[0]; }
  }

  /** Every raw job, less the header that JavaScript drops, is there with each field kept or filled. */
  lemma TsFills(m: Manifest, ts: NormalizedManifest, i: nat) returns (k: nat)
    requires IsTsResult(m, ts) && i < |m.jobs|
    ensures ts.version == 1 && ts.app == m.app && |ts.jobs| == |m.jobs| && k < |ts.jobs|
    ensures var j := m.jobs[i];
            JobFilled(j.(request := j.request.(headers := j.request.headers - {"__proto__"})), ts.jobs[k], IsJsSpace)
  {
    hide Normalize, JobFilled, JsTrim, JsLess, IsTrimOf;
    var js := NormalizeAll(WithoutProtos(m).jobs, JsTrim);
    forall s ensures IsTrimOf(s, JsTrim(s), IsJsSpace) { JsTrimIs(s); }
    FillsJob(WithoutProtos(m).jobs[i], JsTrim, IsJsSpace);
    MembersOfMultiset(ts.jobs, js);
    assert |multiset(ts.jobs)| == |multiset(js)|;
    assert js[i] in ts.jobs;
    k :| 0 <= k < |ts.jobs| && ts.jobs[k] == js[i];
  }

  /** A job that leaves its policy to the defaults: its one timestamp stays fresh over all attempts exactly when the
      lock takes at most 177 seconds, and it may outlive its lock. */
  lemma DefaultPolicyTiming(j: Job, n: NormalizedJob, space: char -> bool, maxWait: nat)
    requires j.policy == None && JobFilled(j, n, space)
    ensures var r, timeout := n.policy.retries, n.policy.timeoutSeconds * Timing.SECOND;
            var min, max := r.minSeconds * Timing.SECOND, r.maxSeconds * Timing.SECOND;
            && r.maxAttempts >= 0 && timeout >= 0
            && (Timing.AlwaysFresh(r.maxAttempts, maxWait, timeout, min, max) <==> maxWait <= 177 * Timing.SECOND)
            && !(forall durations: seq<nat> ::
                  |durations| == r.maxAttempts && Timing.Possible(durations, timeout) ==>
                    Timing.EndAfter(durations, min, max) <= timeout + 30 * Timing.SECOND)
  {
    hide SchedulesFilled, Timing.AlwaysFresh, Timing.Possible, Timing.EndAfter;
    Timing.DefaultTiming(maxWait, 0, 0, 0);
  }
}

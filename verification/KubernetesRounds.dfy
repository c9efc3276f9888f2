/** Repeated applies against a cluster: what an interruption can leave behind, and how many rounds repair it. */
module KubernetesRounds {
  import opened Wrappers
  import opened Sequences
  import opened Text
  import opened NormalizedManifests
  import opened OwnerLine
  import opened CrontabLines
  import opened Policy
  import opened Kubernetes
  import opened Crontab
  import opened Reconcile
  import opened Converge

  // ---- What every interrupted operation keeps -----------------------------------------------------

  /** The resources of one app: names and labels agree, every CronJob has its ConfigMap, and the spec in a ConfigMap
      has the schedule the ConfigMap stands for. */
  ghost predicate Inv(st: Store, app: string) {
    && (forall name :: name in st.cronJobs ==>
         var cj := st.cronJobs[name];
         && cj.app == app && ValidName(cj.job) && name == ScheduleName(app, cj.job, cj.index)
         && SpecName(name) in st.configMaps)
    && (forall name :: name in st.configMaps ==> GoodConfigMap(st.configMaps[name], app, name))
  }

  ghost predicate GoodConfigMap(cm: ConfigMap, app: string, name: string) {
    && cm.app == app && name == SpecName(ScheduleName(app, cm.job, cm.index))
    && cm.spec.Some? && cm.spec.value.name == cm.job
    && cm.index < |cm.spec.value.schedules| && TranslateK8s(cm.spec.value.schedules[cm.index]).Some?
  }

  /** The CronJob and the ConfigMap of one schedule of one job. */
  function CronJobAt(st: Store, app: string, job: string, i: nat): Option<CronJob> {
    var name := ScheduleName(app, job, i);
    if name in st.cronJobs then Some(st.cronJobs[name]) else None
  }

  function ConfigMapAt(st: Store, app: string, job: string, i: nat): Option<ConfigMap> {
    ConfigMapOf(st, ScheduleName(app, job, i))
  }

  lemma SpecNameInjective(a: string, b: string)
    ensures SpecName(a) == SpecName(b) <==> a == b
  {
    TakeConcat(a, "-spec");
    TakeConcat(b, "-spec");
    assert |SpecName(a)| == |a| + 5 && |SpecName(b)| == |b| + 5;
  }

  /** The names of two schedules differ, for one app. */
  lemma NamesDiffer(app: string, job1: string, i: nat, job2: string, j: nat)
    ensures ScheduleName(app, job1, i) == ScheduleName(app, job2, j) <==> job1 == job2 && i == j
    ensures SpecName(ScheduleName(app, job1, i)) == SpecName(ScheduleName(app, job2, j)) <==> job1 == job2 && i == j
  {
    ScheduleNameInjective(app, job1, i, job2, j);
    SpecNameInjective(ScheduleName(app, job1, i), ScheduleName(app, job2, j));
  }

  lemma CreateOneKeeps(hash: Hasher, st: Store, app: string, job: NormalizedJob, i: nat, both: bool)
    requires Inv(st, app) && ValidName(job.name) && i < |job.schedules| && TranslateK8s(job.schedules[i]).Some?
    ensures Inv(CreateOne(hash, st, app, job, i, both), app)
  {
    hide ScheduleName, SpecName, TranslateK8s, ValidName;
  }

  lemma {:induction false} CreateUpToKeeps(hash: Hasher, st: Store, app: string, job: NormalizedJob, n: nat)
    requires Inv(st, app) && ValidName(job.name)
    requires n <= |job.schedules| && forall i :: 0 <= i < n ==> TranslateK8s(job.schedules[i]).Some?
    ensures Inv(CreateUpTo(hash, st, app, job, n), app)
  {
    hide CreateOne, Inv, TranslateK8s, ValidName;
    if n > 0 {
      CreateUpToKeeps(hash, st, app, job, n - 1);
      CreateOneKeeps(hash, CreateUpTo(hash, st, app, job, n - 1), app, job, n - 1, true);
    }
  }

  lemma PartlyCreatedKeeps(hash: Hasher, st: Store, app: string, job: NormalizedJob, after: Store, n: nat)
    requires Inv(st, app) && ValidName(job.name) && PartlyCreated(hash, st, app, job, after, n)
    ensures Inv(after, app)
  {
    hide CreateOne, Inv, TranslateK8s, ValidName, CreateUpTo;
    CreateUpToKeeps(hash, st, app, job, n);
    if after != CreateUpTo(hash, st, app, job, n) {
      CreateOneKeeps(hash, CreateUpTo(hash, st, app, job, n), app, job, n, false);
    }
  }

  lemma RemoveKeeps(st: Store, app: string, job: string, cjs: set<string>, cms: set<string>)
    requires Inv(st, app) && cjs <= JobCronJobs(st, app, job) && cms <= JobConfigMaps(st, app, job)
    requires cms != {} ==> cjs == JobCronJobs(st, app, job)
    ensures Inv(Store(st.cronJobs - cjs, st.configMaps - cms), app)
  {
    hide ScheduleName, SpecName, TranslateK8s, ValidName;
    forall name | name in st.cronJobs && SpecName(name) in cms ensures name in JobCronJobs(st, app, job) {
      var cj, cm := st.cronJobs[name], st.configMaps[SpecName(name)];
      NamesDiffer(app, cj.job, cj.index, cm.job, cm.index);
    }
  }

  lemma PartlyRemovedKeeps(st: Store, app: string, job: string, after: Store)
    requires Inv(st, app) && PartlyRemoved(st, app, job, after)
    ensures Inv(after, app)
  {
    hide Inv;
    var cjs, cms :|
      && cjs <= JobCronJobs(st, app, job) && cms <= JobConfigMaps(st, app, job)
      && (cms != {} ==> cjs == JobCronJobs(st, app, job))
      && after == Store(st.cronJobs - cjs, st.configMaps - cms);
    RemoveKeeps(st, app, job, cjs, cms);
  }

  lemma RemovedKeeps(st: Store, app: string, job: string)
    requires Inv(st, app)
    ensures Inv(Removed(st, app, job), app)
  {
    hide Inv;
    RemoveKeeps(st, app, job, JobCronJobs(st, app, job), JobConfigMaps(st, app, job));
  }

  // ---- Runs with interruptions --------------------------------------------------------------------

  /** What one call of the backend may do to the store, whether it goes through or stops at any API call. */
  ghost predicate CallStep(hash: Hasher, st: Store, e: Edit, after: Store) {
    if !(ValidName(e.app) && ValidName(NameOf(e))) then after == st
    else
      match e
      case CreateJob(app, job) =>
        exists n :: PartlyCreated(hash, st, app, job, after, n)
      case UpdateJob(app, job) =>
        || PartlyRemoved(st, app, job.name, after)
        || exists n :: PartlyCreated(hash, Removed(st, app, job.name), app, job, after, n)
      case DeleteJob(app, name) =>
        PartlyRemoved(st, app, name, after)
  }

  /** Whatever calls are made, and wherever each of them is interrupted, the invariant holds. */
  lemma CallKeeps(hash: Hasher, st: Store, e: Edit, after: Store)
    requires Inv(st, e.app) && CallStep(hash, st, e, after)
    ensures Inv(after, e.app)
  {
    hide Inv, ValidName, PartlyCreated, PartlyRemoved, Removed;
    if ValidName(e.app) && ValidName(NameOf(e)) {
      match e
      case CreateJob(app, job) =>
        var n: nat :| PartlyCreated(hash, st, app, job, after, n);
        PartlyCreatedKeeps(hash, st, app, job, after, n);
      case UpdateJob(app, job) =>
        if PartlyRemoved(st, app, job.name, after) {
          PartlyRemovedKeeps(st, app, job.name, after);
        } else {
          var n: nat :| PartlyCreated(hash, Removed(st, app, job.name), app, job, after, n);
          RemovedKeeps(st, app, job.name);
          PartlyCreatedKeeps(hash, Removed(st, app, job.name), app, job, after, n);
        }
      case DeleteJob(app, name) =>
        PartlyRemovedKeeps(st, app, name, after);
    }
  }

  /** The states a series of calls for one app may go through. */
  ghost predicate Interrupted(hash: Hasher, app: string, states: seq<Store>, calls: seq<Edit>) {
    && |states| == |calls| + 1 && states[0] == Store(map[], map[])
    && forall k :: 0 <= k < |calls| ==> calls[k].app == app && CallStep(hash, states[k], calls[k], states[k + 1])
  }

  lemma {:induction false} InterruptedKeeps(hash: Hasher, app: string, states: seq<Store>, calls: seq<Edit>)
    requires Interrupted(hash, app, states, calls)
    ensures Inv(states[|calls|], app)
  {
    hide CallStep;
    if calls != [] {
      var n := |calls| - 1;
      assert Interrupted(hash, app, states[..n + 1], calls[..n]);
      InterruptedKeeps(hash, app, states[..n + 1], calls[..n]);
      CallKeeps(hash, states[n], calls[n], states[n + 1]);
    }
  }

  // ---- Complete calls, seen from one job ----------------------------------------------------------

  predicate GoodCall(e: Edit) {
    ValidName(e.app) && ValidName(NameOf(e)) && (!e.DeleteJob? ==> AllTranslate(e.job))
  }

  /** The store after a call that went through. */
  function Effect(hash: Hasher, st: Store, e: Edit): Store
    requires GoodCall(e)
  {
    match e
    case CreateJob(app, job) => Created(hash, st, app, job)
    case UpdateJob(app, job) => Created(hash, Removed(st, app, job.name), app, job)
    case DeleteJob(app, name) => Removed(st, app, name)
  }

  lemma EffectIsStep(hash: Hasher, st: Store, e: Edit)
    requires GoodCall(e)
    ensures CallStep(hash, st, e, Effect(hash, st, e))
  {
    hide CreateUpTo, JobCronJobs, JobConfigMaps, TranslateK8s;
    match e
    case CreateJob(app, job) =>
      assert PartlyCreated(hash, st, app, job, Effect(hash, st, e), |job.schedules|);
    case UpdateJob(app, job) =>
      assert PartlyCreated(hash, Removed(st, app, job.name), app, job, Effect(hash, st, e), |job.schedules|);
    case DeleteJob(app, name) =>
      PartlyRemovedIs(st, app, name, Effect(hash, st, e), JobCronJobs(st, app, name), JobConfigMaps(st, app, name));
  }

  lemma CreateOneAt(hash: Hasher, st: Store, app: string, job: NormalizedJob, i: nat, other: string, k: nat)
    requires i < |job.schedules| && TranslateK8s(job.schedules[i]).Some?
    ensures var after := CreateOne(hash, st, app, job, i, true);
            && CronJobAt(after, app, other, k) ==
               (if other == job.name && k == i && CronJobAt(st, app, other, k).None?
                then Some(BuildCronJob(hash, app, job, i, TranslateK8s(job.schedules[i]).value))
                else CronJobAt(st, app, other, k))
            && ConfigMapAt(after, app, other, k) ==
               (if other == job.name && k == i && ConfigMapAt(st, app, other, k).None?
                then Some(BuildConfigMap(hash, app, job, i))
                else ConfigMapAt(st, app, other, k))
  {
    hide ScheduleName, SpecName, TranslateK8s;
    NamesDiffer(app, job.name, i, other, k);
  }

  lemma {:induction false} CreatedAt(hash: Hasher, st: Store, app: string, job: NormalizedJob, n: nat, other: string,
      k: nat)
    requires n <= |job.schedules| && forall i :: 0 <= i < n ==> TranslateK8s(job.schedules[i]).Some?
    ensures var after := CreateUpTo(hash, st, app, job, n);
            && CronJobAt(after, app, other, k) ==
               (if other == job.name && k < n && CronJobAt(st, app, other, k).None?
                then Some(BuildCronJob(hash, app, job, k, TranslateK8s(job.schedules[k]).value))
                else CronJobAt(st, app, other, k))
            && ConfigMapAt(after, app, other, k) ==
               (if other == job.name && k < n && ConfigMapAt(st, app, other, k).None?
                then Some(BuildConfigMap(hash, app, job, k))
                else ConfigMapAt(st, app, other, k))
  {
    hide CreateOne, CronJobAt, ConfigMapAt, TranslateK8s;
    if n > 0 {
      CreatedAt(hash, st, app, job, n - 1, other, k);
      CreateOneAt(hash, CreateUpTo(hash, st, app, job, n - 1), app, job, n - 1, other, k);
    }
  }

  /** A complete create, in names and labels: for every schedule there are a CronJob and a ConfigMap, new ones with the
      app, the job, its hash and the index, unless there was one of the name before. */
  lemma CreatedExactly(hash: Hasher, st: Store, app: string, job: NormalizedJob, i: nat)
    requires AllTranslate(job) && i < |job.schedules|
    ensures var after, name := Created(hash, st, app, job), "cronix-" + app + "-" + job.name + "-" + Digits(i);
            && name in after.cronJobs
            && after.cronJobs[name] ==
               (if name in st.cronJobs then st.cronJobs[name]
                else CronJob(app, job.name, hash(job, i), i, TranslateK8s(job.schedules[i]).value))
            && name + "-spec" in after.configMaps
            && after.configMaps[name + "-spec"] ==
               (if name + "-spec" in st.configMaps then st.configMaps[name + "-spec"]
                else ConfigMap(app, job.name, hash(job, i), i, Some(job)))
  {
    hide TranslateK8s, CreateUpTo;
    CreatedAt(hash, st, app, job, |job.schedules|, job.name, i);
  }

  /** And nothing else changes. */
  lemma {:induction false} CreatedOnly(hash: Hasher, st: Store, app: string, job: NormalizedJob, n: nat, name: string)
    requires n <= |job.schedules| && forall i :: 0 <= i < n ==> TranslateK8s(job.schedules[i]).Some?
    requires forall i: nat :: i < n ==>
               name != ScheduleName(app, job.name, i) && name != ScheduleName(app, job.name, i) + "-spec"
    ensures var after := CreateUpTo(hash, st, app, job, n);
            && (name in after.cronJobs <==> name in st.cronJobs)
            && (name in st.cronJobs ==> after.cronJobs[name] == st.cronJobs[name])
            && (name in after.configMaps <==> name in st.configMaps)
            && (name in st.configMaps ==> after.configMaps[name] == st.configMaps[name])
  {
    hide TranslateK8s, ScheduleName;
    if n > 0 {
      CreatedOnly(hash, st, app, job, n - 1, name);
    }
  }

  lemma RemovedAt(st: Store, app: string, job: string, other: string, k: nat)
    requires Inv(st, app)
    ensures CronJobAt(Removed(st, app, job), app, other, k) == if other == job then None
        else CronJobAt(st, app, other, k)
    ensures ConfigMapAt(Removed(st, app, job), app, other, k) == if other == job then None
        else ConfigMapAt(st, app, other, k)
  {
    hide ScheduleName, SpecName, TranslateK8s, ValidName;
    var name := ScheduleName(app, other, k);
    if name in st.cronJobs {
      NamesDiffer(app, other, k, st.cronJobs[name].job, st.cronJobs[name].index);
    }
    if SpecName(name) in st.configMaps {
      var cm := st.configMaps[SpecName(name)];
      NamesDiffer(app, other, k, cm.job, cm.index);
    }
  }

  /** No CronJob of the job is there. */
  ghost predicate Absent(st: Store, app: string, job: string) { forall k: nat :: CronJobAt(st, app, job, k).None? }

  /** All the pairs of the job are there as it describes them, and no other CronJob of it. */
  ghost predicate Fresh(hash: Hasher, st: Store, app: string, job: NormalizedJob)
    requires AllTranslate(job)
  {
    forall k: nat ::
      if k < |job.schedules|
      then CronJobAt(st, app, job.name, k) == Some(BuildCronJob(hash, app, job, k,
          TranslateK8s(job.schedules[k]).value))
           && ConfigMapAt(st, app, job.name, k) == Some(BuildConfigMap(hash, app, job, k))
      else CronJobAt(st, app, job.name, k).None?
  }

  /** Nothing about the job differs between two stores. */
  ghost predicate Same(a: Store, b: Store, app: string, job: string) {
    forall k: nat :: CronJobAt(a, app, job, k) == CronJobAt(b, app, job, k) && ConfigMapAt(a, app, job, k) ==
        ConfigMapAt(b, app, job, k)
  }

  /** What a complete call means for its own job, and for all others. */
  lemma EffectOn(hash: Hasher, st: Store, e: Edit, job: string)
    requires GoodCall(e) && Inv(st, e.app)
    ensures job != NameOf(e) ==> Same(st, Effect(hash, st, e), e.app, job)
    ensures e.DeleteJob? ==> Absent(Effect(hash, st, e), e.app, e.name)
    ensures e.UpdateJob? ==> Fresh(hash, Effect(hash, st, e), e.app, e.job)
    ensures e.CreateJob? && e.job.schedules != [] ==> !Absent(Effect(hash, st, e), e.app, e.job.name)
    ensures Inv(Effect(hash, st, e), e.app)
  {
    hide CronJobAt, ConfigMapAt, TranslateK8s, ValidName, Inv, CreateUpTo, Removed;
    EffectIsStep(hash, st, e);
    CallKeeps(hash, st, e, Effect(hash, st, e));
    forall name: string, k: nat { RemovedAt(st, e.app, NameOf(e), name, k); }
    if !e.DeleteJob? {
      var base := if e.UpdateJob? then Removed(st, e.app, e.job.name) else st;
      forall name: string, k: nat { CreatedAt(hash, base, e.app, e.job, |e.job.schedules|, name, k); }
      assert e.CreateJob? && e.job.schedules != [] ==> CronJobAt(Effect(hash, st, e), e.app, e.job.name, 0).Some?;
    }
  }

  // ---- Complete calls in a row --------------------------------------------------------------------

  ghost predicate GoodCalls(app: string, calls: seq<Edit>) {
    forall k :: 0 <= k < |calls| ==> calls[k].app == app && GoodCall(calls[k])
  }

  function RunCalls(hash: Hasher, st: Store, calls: seq<Edit>): Store
    requires forall k :: 0 <= k < |calls| ==> GoodCall(calls[k])
  {
    if calls == [] then st else Effect(hash, RunCalls(hash, st, calls[..|calls| - 1]), calls[|calls| - 1])
  }

  lemma {:induction false} RunKeepsInv(hash: Hasher, app: string, st: Store, calls: seq<Edit>)
    requires Inv(st, app) && GoodCalls(app, calls)
    ensures Inv(RunCalls(hash, st, calls), app)
  {
    hide Inv, GoodCall, Effect;
    if calls != [] {
      RunKeepsInv(hash, app, st, calls[..|calls| - 1]);
      EffectOn(hash, RunCalls(hash, st, calls[..|calls| - 1]), calls[|calls| - 1], "");
    }
  }

  /** Whether some call concerns the job. */
  ghost predicate Concerns(calls: seq<Edit>, job: string) { exists k :: 0 <= k < |calls| && NameOf(calls[k]) == job }

  lemma ConcernsFront(calls: seq<Edit>, job: string)
    requires calls != []
    ensures Concerns(calls, job) <==> Concerns(calls[..|calls| - 1], job) || NameOf(calls[|calls| - 1]) == job
  {
    if Concerns(calls[..|calls| - 1], job) {
      var k :| 0 <= k < |calls| - 1 && NameOf(calls[..|calls| - 1][k]) == job;
      assert NameOf(calls[k]) == job;
    }
    if k :| 0 <= k < |calls| - 1 && NameOf(calls[k]) == job {
      assert NameOf(calls[..|calls| - 1][k]) == job;
    }
  }

  lemma {:induction false} RunOthers(hash: Hasher, app: string, st: Store, calls: seq<Edit>, job: string)
    requires Inv(st, app) && GoodCalls(app, calls) && !Concerns(calls, job)
    ensures Same(st, RunCalls(hash, st, calls), app, job)
  {
    hide Inv, GoodCall, Effect, CronJobAt, ConfigMapAt, Concerns;
    if calls != [] {
      var front, last := calls[..|calls| - 1], calls[|calls| - 1];
      ConcernsFront(calls, job);
      RunOthers(hash, app, st, front, job);
      RunKeepsInv(hash, app, st, front);
      EffectOn(hash, RunCalls(hash, st, front), last, job);
    }
  }

  lemma {:induction false} RunDeletes(hash: Hasher, app: string, st: Store, calls: seq<Edit>, job: string)
    requires Inv(st, app) && GoodCalls(app, calls) && (Concerns(calls, job) || Absent(st, app, job))
    requires forall k :: 0 <= k < |calls| && NameOf(calls[k]) == job ==> calls[k].DeleteJob?
    ensures Absent(RunCalls(hash, st, calls), app, job)
  {
    hide Inv, GoodCall, Effect, CronJobAt, ConfigMapAt;
    if calls != [] {
      var front, last := calls[..|calls| - 1], calls[|calls| - 1];
      ConcernsFront(calls, job);
      RunKeepsInv(hash, app, st, front);
      EffectOn(hash, RunCalls(hash, st, front), last, job);
      if NameOf(last) != job {
        RunDeletes(hash, app, st, front, job);
      }
    }
  }

  lemma {:induction false} RunUpdates(hash: Hasher, app: string, st: Store, calls: seq<Edit>, job: NormalizedJob)
    requires Inv(st, app) && GoodCalls(app, calls) && Concerns(calls, job.name) && AllTranslate(job)
    requires forall k :: 0 <= k < |calls| && NameOf(calls[k]) == job.name ==> calls[k] == UpdateJob(app, job)
    ensures Fresh(hash, RunCalls(hash, st, calls), app, job)
  {
    hide Inv, GoodCall, Effect, CronJobAt, ConfigMapAt, AllTranslate;
    var front, last := calls[..|calls| - 1], calls[|calls| - 1];
    ConcernsFront(calls, job.name);
    RunKeepsInv(hash, app, st, front);
    EffectOn(hash, RunCalls(hash, st, front), last, job.name);
    if NameOf(last) != job.name {
      RunUpdates(hash, app, st, front, job);
      FreshSame(hash, RunCalls(hash, st, front), RunCalls(hash, st, calls), app, job);
    }
  }

  lemma FreshSame(hash: Hasher, a: Store, b: Store, app: string, job: NormalizedJob)
    requires AllTranslate(job) && Fresh(hash, a, app, job) && Same(a, b, app, job.name)
    ensures Fresh(hash, b, app, job)
  {
    hide CronJobAt, ConfigMapAt, TranslateK8s;
  }

  lemma {:induction false} RunCreates(hash: Hasher, app: string, st: Store, calls: seq<Edit>, job: string)
    requires Inv(st, app) && GoodCalls(app, calls) && (Concerns(calls, job) || !Absent(st, app, job))
    requires forall k :: 0 <= k < |calls| && NameOf(calls[k]) == job ==>
               calls[k].CreateJob? && calls[k].job.schedules != []
    ensures !Absent(RunCalls(hash, st, calls), app, job)
  {
    hide Inv, GoodCall, Effect, CronJobAt, ConfigMapAt;
    if calls != [] {
      var front, last := calls[..|calls| - 1], calls[|calls| - 1];
      ConcernsFront(calls, job);
      RunKeepsInv(hash, app, st, front);
      EffectOn(hash, RunCalls(hash, st, front), last, job);
      if NameOf(last) != job {
        RunCreates(hash, app, st, front, job);
      }
    }
  }

  lemma {:induction false} RunCallsConcat(hash: Hasher, st: Store, a: seq<Edit>, b: seq<Edit>)
    requires forall k :: 0 <= k < |a| ==> GoodCall(a[k])
    requires forall k :: 0 <= k < |b| ==> GoodCall(b[k])
    ensures (forall k :: 0 <= k < |a + b| ==> GoodCall((a + b)[k]))
            && RunCalls(hash, st, a + b) == RunCalls(hash, RunCalls(hash, st, a), b)
  {
    hide Effect, GoodCall;
    if b == [] {
      ConcatEmpty(a);
    } else {
      RunCallsConcat(hash, st, a, b[..|b| - 1]);
      ConcatFront(a, b);
    }
  }

  /** A series of calls of which the first k went through, and the next one, if there is one, was interrupted. */
  ghost predicate Progress(hash: Hasher, st: Store, calls: seq<Edit>, k: nat, ok: bool, after: Store) {
    && k <= |calls| && (ok <==> k == |calls|)
    && (forall j :: 0 <= j < k ==> GoodCall(calls[..k][j]))
    && if ok then after == RunCalls(hash, st, calls[..k])
        else CallStep(hash, RunCalls(hash, st, calls[..k]), calls[k], after)
  }

  lemma ProgressStep(hash: Hasher, st: Store, calls: seq<Edit>, e: Edit, mid: Store, ok: bool, after: Store)
    requires Progress(hash, st, calls, |calls|, true, mid)
    requires if ok then GoodCall(e) && after == Effect(hash, mid, e) else CallStep(hash, mid, e, after)
    ensures Progress(hash, st, calls + [e], if ok then |calls| + 1 else |calls|, ok, after)
  {
    hide Effect, GoodCall, CallStep;
    TakeAll(calls);
    TakeAll(calls + [e]);
    AppendFront(calls, e);
  }

  lemma ProgressMore(hash: Hasher, st: Store, calls: seq<Edit>, more: seq<Edit>, k: nat, after: Store)
    requires Progress(hash, st, calls, k, false, after)
    ensures Progress(hash, st, calls + more, k, false, after)
  {
    assert (calls + more)[..k] == calls[..k];
  }

  lemma ProgressChain(hash: Hasher, st: Store, a: seq<Edit>, mid: Store, b: seq<Edit>, k: nat, ok: bool, after: Store)
    requires Progress(hash, st, a, |a|, true, mid) && Progress(hash, mid, b, k, ok, after)
    ensures Progress(hash, st, a + b, |a| + k, ok, after)
  {
    hide Effect, GoodCall, CallStep;
    TakeAll(a);
    RunCallsConcat(hash, st, a, b[..k]);
    PrefixOfConcat(a, b, k);
  }

  /** The call `Apply` makes for one operation. */
  method OneCall(op: Op, cluster: Cluster) returns (ok: bool)
    requires op.action != Skip
    modifies cluster
    ensures ok ==> GoodCall(CallOf(op)) && cluster.State() == Effect(cluster.hash, old(cluster.State()), CallOf(op))
    ensures !ok ==> CallStep(cluster.hash, old(cluster.State()), CallOf(op), cluster.State())
  {
    hide ValidName, AllTranslate, PartlyCreated, PartlyRemoved, Created, Removed;
    match op.action {
      case Create => ok := cluster.Create(op.app, op.job);
      case Update => ok := cluster.Update(op.app, op.job);
      case Delete => ok := cluster.Delete(op.app, op.jobName);
    }
  }

  /** One pass of `Apply` against the cluster. */
  method RunPass(ops: seq<Op>, action: Action, cluster: Cluster) returns (count: nat, ok: bool)
    requires action != Skip
    modifies cluster
    ensures Progress(cluster.hash, old(cluster.State()), Pass(ops, action), count, ok, cluster.State())
  {
    hide Effect, GoodCall, CallStep, Progress;
    ghost var start := cluster.State();
    count, ok := 0, true;
    StartProgress(cluster.hash, start);
    var i := 0;
    while i < |ops|
      invariant 0 <= i <= |ops| && count == |Pass(ops[..i], action)|
      invariant Progress(cluster.hash, start, Pass(ops[..i], action), count, true, cluster.State())
    {
      var op := ops[i];
      PassPrefix(ops, i, action);
      if op.action == action {
        ghost var mid, e := cluster.State(), CallOf(op);
        ok := OneCall(op, cluster);
        assert Pass([op], action) == [e];
        ProgressStep(cluster.hash, start, Pass(ops[..i], action), e, mid, ok, cluster.State());
        if !ok {
          PassRest(ops, i + 1, action);
          ProgressMore(cluster.hash, start, Pass(ops[..i + 1], action),
              Pass(ops, action)[|Pass(ops[..i + 1], action)|..], count, cluster.State());
          return;
        }
        count := count + 1;
      } else {
        ConcatEmpty(Pass(ops[..i], action));
      }
      i := i + 1;
    }
    TakeAll(ops);
  }

  lemma StartProgress(hash: Hasher, st: Store)
    ensures Progress(hash, st, [], 0, true, st)
  {}

  lemma PassRest(ops: seq<Op>, i: nat, action: Action)
    requires i <= |ops|
    ensures var front := Pass(ops[..i], action);
            |front| <= |Pass(ops, action)| && Pass(ops, action) == front + Pass(ops, action)[|front|..]
  {
    PassMonotone(ops, i, action);
  }

  /** `Apply` against the cluster: the deletes, the updates and the creates, up to the first call that fails. */
  method ApplyToCluster(ops: seq<Op>, cluster: Cluster) returns (done: nat, ok: bool)
    modifies cluster
    ensures Progress(cluster.hash, old(cluster.State()), Ordered(ops), done, ok, cluster.State())
  {
    hide Pass, Progress, Effect, GoodCall, RunCalls;
    ghost var start := cluster.State();
    ghost var deletes, updates, creates := Pass(ops, Delete), Pass(ops, Update), Pass(ops, Create);
    done, ok := RunPass(ops, Delete, cluster);
    if !ok {
      ProgressMore(cluster.hash, start, deletes, updates + creates, done, cluster.State());
      ConcatAssociative(deletes, updates, creates);
      return;
    }
    ProgressFull(cluster.hash, start, deletes, done, cluster.State());
    ghost var mid := cluster.State();
    var count;
    count, ok := RunPass(ops, Update, cluster);
    ProgressChain(cluster.hash, start, deletes, mid, updates, count, ok, cluster.State());
    done := done + count;
    if !ok {
      ProgressMore(cluster.hash, start, deletes + updates, creates, done, cluster.State());
      return;
    }
    ProgressFull(cluster.hash, start, deletes + updates, done, cluster.State());
    mid := cluster.State();
    count, ok := RunPass(ops, Create, cluster);
    ProgressChain(cluster.hash, start, deletes + updates, mid, creates, count, ok, cluster.State());
    done := done + count;
  }

  lemma ProgressFull(hash: Hasher, st: Store, calls: seq<Edit>, k: nat, after: Store)
    requires Progress(hash, st, calls, k, true, after)
    ensures k == |calls|
  {}

  lemma ProgressDone(hash: Hasher, st: Store, calls: seq<Edit>, k: nat, after: Store)
    requires Progress(hash, st, calls, k, true, after)
    ensures k == |calls| && (forall j :: 0 <= j < |calls| ==> GoodCall(calls[j])) && after == RunCalls(hash, st, calls)
  {
    TakeAll(calls);
  }

  lemma ProgressKeeps(hash: Hasher, app: string, st: Store, calls: seq<Edit>, k: nat, ok: bool, after: Store)
    requires Inv(st, app) && Progress(hash, st, calls, k, ok, after)
    requires forall j :: 0 <= j < |calls| ==> calls[j].app == app
    ensures Inv(after, app)
  {
    hide Inv, GoodCall, CallStep, Effect;
    RunKeepsInv(hash, app, st, calls[..k]);
    if !ok {
      CallKeeps(hash, RunCalls(hash, st, calls[..k]), calls[k], after);
    }
  }

  // ---- What Compute makes of a store --------------------------------------------------------------

  function HashAt(hash: Hasher, st: Store, app: string, job: string, i: nat): string {
    var cj := CronJobAt(st, app, job, i);
    if cj.None? then "" else ListHash(hash, cj.value, ConfigMapAt(st, app, job, i))
  }

  /** There is a CronJob for each schedule and for no other index, and each is listed with the desired hash. */
  ghost predicate UpToDate(hash: Hasher, st: Store, app: string, job: NormalizedJob) {
    && (forall i: nat :: CronJobAt(st, app, job.name, i).Some? <==> i < |job.schedules|)
    && (forall i: nat :: i < |job.schedules| ==> HashAt(hash, st, app, job.name, i) == hash(job, i))
  }

  lemma Listed(hash: Hasher, st: Store, app: string, entries: seq<ManagedEntry>, job: string)
    requires Inv(st, app) && Lists(hash, st, entries)
    ensures forall i: nat :: HasIndex(entries, app, job, i) <==> CronJobAt(st, app, job, i).Some?
    ensures Agrees(entries, app, job, (i: nat) => HashAt(hash, st, app, job, i))
  {
    hide ScheduleName, ListHash, ConfigMapOf, GoodConfigMap, ValidName, SpecName;
    var names :| Listing(hash, st, names, entries);
    forall i: nat | CronJobAt(st, app, job, i).Some? ensures HasIndex(entries, app, job, i) {
      var name := ScheduleName(app, job, i);
      var k :| 0 <= k < |names| && names[k] == name;
      var cj := st.cronJobs[name];
      NamesDiffer(app, job, i, cj.job, cj.index);
      HasIndexIs(entries, entries[k]);
    }
  }

  lemma ActionOnStore(hash: Hasher, st: Store, app: string, entries: seq<ManagedEntry>, job: NormalizedJob)
    requires Inv(st, app) && Lists(hash, st, entries) && job.schedules != []
    ensures ActionFor(hash, entries, app, job) == Create <==> Absent(st, app, job.name)
    ensures ActionFor(hash, entries, app, job) == Skip <==> UpToDate(hash, st, app, job)
  {
    hide CronJobAt, HashAt, HasIndex, Inv, Lists, ActionFor;
    Listed(hash, st, app, entries, job.name);
    LastHashAgrees(entries, app, job.name, (i: nat) => HashAt(hash, st, app, job.name, i));
    ActionExactly(hash, entries, app, job);
    assert ActionFor(hash, entries, app, job) == Create ==> forall i: nat :: LastHash(entries, app, job.name, i).None?;
    forall i: nat
      ensures CronJobAt(st, app, job.name, i).None? <==> LastHash(entries, app, job.name, i).None?
      ensures LastHash(entries, app, job.name, i) ==
              if CronJobAt(st, app, job.name, i).Some? then Some(HashAt(hash, st, app, job.name, i)) else None
    {
      assert HasIndex(entries, app, job.name, i) <==> CronJobAt(st, app, job.name, i).Some?;
    }
  }

  lemma JobsOnStore(hash: Hasher, st: Store, app: string, entries: seq<ManagedEntry>, job: string)
    requires Inv(st, app) && Lists(hash, st, entries)
    ensures job in EntryJobs(entries, app) <==> !Absent(st, app, job)
  {
    hide CronJobAt, HashAt, HasIndex, Inv, Lists;
    Listed(hash, st, app, entries, job);
    LastHashAgrees(entries, app, job, (i: nat) => HashAt(hash, st, app, job, i));
    HashesByIndex(entries, app, job);
  }

  /** A freshly installed job is up to date. */
  lemma FreshUpToDate(hash: Hasher, st: Store, app: string, job: NormalizedJob)
    requires AllTranslate(job) && Fresh(hash, st, app, job)
    ensures UpToDate(hash, st, app, job)
  {
    hide CronJobAt, ConfigMapAt, TranslateK8s;
  }

  lemma UpToDateSame(hash: Hasher, a: Store, b: Store, app: string, job: NormalizedJob)
    requires UpToDate(hash, a, app, job) && Same(a, b, app, job.name)
    ensures UpToDate(hash, b, app, job)
  {
    hide CronJobAt, ConfigMapAt, ListHash;
  }

  // ---- The calls of a plan ------------------------------------------------------------------------

  lemma {:induction false} PassMembers(ops: seq<Op>, action: Action, e: Edit)
    requires action != Skip
    ensures e in Pass(ops, action) <==> exists op :: op in ops && op.action == action && CallOf(op) == e
  {
    if ops != [] {
      var front, last := ops[..|ops| - 1], ops[|ops| - 1];
      PassMembers(front, action, e);
      assert forall op :: op in ops <==> op in front || op == last;
    }
  }

  lemma {:induction false} DesiredMembers(hash: Hasher, entries: seq<ManagedEntry>, app: string,
      jobs: seq<NormalizedJob>, op: Op)
    ensures op in DesiredOps(hash, entries, app, jobs) <==>
            exists job :: job in jobs && op == OpFor(hash, entries, app, job)
  {
    hide OpFor;
    if jobs != [] {
      var front, last := jobs[..|jobs| - 1], jobs[|jobs| - 1];
      DesiredMembers(hash, entries, app, front, op);
      assert forall job :: job in jobs <==> job in front || job == last;
    }
  }

  lemma {:induction false} DeleteMembers(entries: seq<ManagedEntry>, app: string, names: seq<string>, op: Op)
    ensures op in DeleteOps(entries, app, names) <==> exists name :: name in names && op == DeleteOp(entries, app, name)
  {
    hide DeleteOp;
    if names != [] {
      var front, last := names[..|names| - 1], names[|names| - 1];
      DeleteMembers(entries, app, front, op);
      assert forall name :: name in names <==> name in front || name == last;
    }
  }

  lemma OpForIs(hash: Hasher, entries: seq<ManagedEntry>, app: string, job: NormalizedJob)
    ensures var op := OpFor(hash, entries, app, job);
            op.app == app && op.job == job && op.action == ActionFor(hash, entries, app, job)
    ensures ActionFor(hash, entries, app, job) != Delete
  {}

  /** The calls of a plan: deletes of what is not wanted, updates of what differs, creates of what is missing. */
  lemma PlanCalls(hash: Hasher, entries: seq<ManagedEntry>, m: NormalizedManifest, deletes: seq<string>, e: Edit)
    ensures e in Ordered(PlanOps(hash, entries, m, deletes)) <==>
            || (e.DeleteJob? && e.app == m.app && e.name in deletes)
            || (e.UpdateJob? && e.app == m.app && e.job in m.jobs && ActionFor(hash, entries, m.app, e.job) == Update)
            || (e.CreateJob? && e.app == m.app && e.job in m.jobs && ActionFor(hash, entries, m.app, e.job) == Create)
  {
    hide OpFor, ActionFor, Pass, DesiredOps, DeleteOps;
    var ops := PlanOps(hash, entries, m, deletes);
    PassMembers(ops, Create, e);
    PassMembers(ops, Update, e);
    PassMembers(ops, Delete, e);
    forall op { DesiredMembers(hash, entries, m.app, m.jobs, op); }
    forall op { DeleteMembers(entries, m.app, deletes, op); }
    forall job { OpForIs(hash, entries, m.app, job); }
    if e.DeleteJob? {
      assert CallOf(DeleteOp(entries, m.app, e.name)) == DeleteJob(m.app, e.name);
    } else {
      assert OpFor(hash, entries, m.app, e.job).job == e.job;
    }
  }

  // ---- Rounds -------------------------------------------------------------------------------------

  /** What a validated manifest promises, and what the backend needs of its jobs besides. */
  predicate K8sManifest(m: NormalizedManifest) {
    && ValidName(m.app) && DistinctNames(m.jobs)
    && forall i :: 0 <= i < |m.jobs| ==>
         ValidName(m.jobs[i].name) && m.jobs[i].schedules != [] && AllTranslate(m.jobs[i])
  }

  /** `ops` is a plan `Compute` may return for the store. */
  ghost predicate PlanFor(hash: Hasher, st: Store, m: NormalizedManifest, ops: seq<Op>) {
    exists entries, deletes :: Lists(hash, st, entries) && DeletesFor(entries, m, deletes) && ops ==
        PlanOps(hash, entries, m, deletes)
  }

  /** What a store wants done for a manifest. */
  ghost predicate Wants(hash: Hasher, st: Store, m: NormalizedManifest, e: Edit) {
    && e.app == m.app
    && match e
       case DeleteJob(_, name) => !Absent(st, m.app, name) && name !in Names(m.jobs)
       case UpdateJob(_, job) => job in m.jobs && !Absent(st, m.app, job.name) && !UpToDate(hash, st, m.app, job)
       case CreateJob(_, job) => job in m.jobs && Absent(st, m.app, job.name)
  }

  lemma AbsentNotUpToDate(hash: Hasher, st: Store, app: string, job: NormalizedJob)
    requires job.schedules != [] && UpToDate(hash, st, app, job)
    ensures !Absent(st, app, job.name)
  {
    hide CronJobAt, HashAt;
    assert CronJobAt(st, app, job.name, 0).Some?;
  }

  lemma PlanIsWanted(hash: Hasher, st: Store, m: NormalizedManifest, ops: seq<Op>, e: Edit)
    requires Inv(st, m.app) && K8sManifest(m) && PlanFor(hash, st, m, ops)
    ensures e in Ordered(ops) <==> Wants(hash, st, m, e)
  {
    hide Inv, ActionFor, Absent, UpToDate, Ordered, AllTranslate, ValidName, EntryJobs;
    var entries, deletes :| Lists(hash, st, entries) && DeletesFor(entries, m, deletes) && ops ==
        PlanOps(hash, entries, m, deletes);
    PlanCalls(hash, entries, m, deletes, e);
    if e.DeleteJob? {
      JobsOnStore(hash, st, m.app, entries, e.name);
      assert e.name in deletes <==> e.name in Elements(deletes);
    } else if e.job in m.jobs {
      ActionOnStore(hash, st, m.app, entries, e.job);
      OpForIs(hash, entries, m.app, e.job);
      if UpToDate(hash, st, m.app, e.job) {
        AbsentNotUpToDate(hash, st, m.app, e.job);
      }
    }
  }

  lemma PresentIsValid(st: Store, app: string, job: string)
    requires Inv(st, app) && !Absent(st, app, job)
    ensures ValidName(job)
  {
    hide ScheduleName, TranslateK8s, ValidName, SpecName;
    var k: nat :| CronJobAt(st, app, job, k).Some?;
    var cj := st.cronJobs[ScheduleName(app, job, k)];
    NamesDiffer(app, job, k, cj.job, cj.index);
  }

  lemma PlanCallsGood(hash: Hasher, st: Store, m: NormalizedManifest, ops: seq<Op>)
    requires Inv(st, m.app) && K8sManifest(m) && PlanFor(hash, st, m, ops)
    ensures GoodCalls(m.app, Ordered(ops))
  {
    hide Inv, Absent, UpToDate, Ordered, AllTranslate, ValidName, PlanFor;
    var calls := Ordered(ops);
    forall k | 0 <= k < |calls| ensures calls[k].app == m.app && GoodCall(calls[k]) {
      PlanIsWanted(hash, st, m, ops, calls[k]);
      if calls[k].DeleteJob? {
        PresentIsValid(st, m.app, calls[k].name);
      }
    }
  }

  /** One complete round brings every job of the manifest to the cluster, keeps those that were up to date, makes
      fresh those that were updated, and removes every other job. */
  lemma OneRound(hash: Hasher, st: Store, m: NormalizedManifest, ops: seq<Op>)
    requires Inv(st, m.app) && K8sManifest(m) && PlanFor(hash, st, m, ops)
    ensures GoodCalls(m.app, Ordered(ops))
    ensures var after := RunCalls(hash, st, Ordered(ops));
            && Inv(after, m.app)
            && (forall name :: name !in Names(m.jobs) ==> Absent(after, m.app, name))
            && (forall i :: 0 <= i < |m.jobs| ==> !Absent(after, m.app, m.jobs[i].name))
            && (forall i :: 0 <= i < |m.jobs| && !Absent(st, m.app, m.jobs[i].name) ==>
                UpToDate(hash, after, m.app, m.jobs[i]))
  {
    hide Inv, Absent, UpToDate, Ordered, AllTranslate, ValidName, PlanFor, GoodCall, K8sManifest;
    PlanCallsGood(hash, st, m, ops);
    RunKeepsInv(hash, m.app, st, Ordered(ops));
    forall name | name !in Names(m.jobs) ensures Absent(RunCalls(hash, st, Ordered(ops)), m.app, name) {
      RoundDeletes(hash, st, m, ops, name);
    }
    forall i | 0 <= i < |m.jobs|
      ensures !Absent(RunCalls(hash, st, Ordered(ops)), m.app, m.jobs[i].name)
      ensures !Absent(st, m.app, m.jobs[i].name) ==> UpToDate(hash, RunCalls(hash, st, Ordered(ops)), m.app, m.jobs[i])
    {
      RoundInstalls(hash, st, m, ops, m.jobs[i]);
    }
  }

  lemma RoundDeletes(hash: Hasher, st: Store, m: NormalizedManifest, ops: seq<Op>, name: string)
    requires Inv(st, m.app) && K8sManifest(m) && PlanFor(hash, st, m, ops) && GoodCalls(m.app, Ordered(ops))
    requires name !in Names(m.jobs)
    ensures Absent(RunCalls(hash, st, Ordered(ops)), m.app, name)
  {
    hide Inv, Absent, UpToDate, Ordered, AllTranslate, ValidName, PlanFor, GoodCall, K8sManifest;
    var calls := Ordered(ops);
    NamesHold(m.jobs);
    forall k | 0 <= k < |calls| && NameOf(calls[k]) == name ensures calls[k].DeleteJob? {
      PlanIsWanted(hash, st, m, ops, calls[k]);
    }
    PlanIsWanted(hash, st, m, ops, DeleteJob(m.app, name));
    if !Absent(st, m.app, name) {
      var k :| 0 <= k < |calls| && calls[k] == DeleteJob(m.app, name);
      assert NameOf(calls[k]) == name;
    }
    RunDeletes(hash, m.app, st, calls, name);
  }

  lemma SameName(m: NormalizedManifest, a: NormalizedJob, b: NormalizedJob)
    requires DistinctNames(m.jobs) && a in m.jobs && b in m.jobs && a.name == b.name
    ensures a == b
  {}

  lemma RoundInstalls(hash: Hasher, st: Store, m: NormalizedManifest, ops: seq<Op>, job: NormalizedJob)
    requires Inv(st, m.app) && K8sManifest(m) && PlanFor(hash, st, m, ops) && GoodCalls(m.app, Ordered(ops))
    requires job in m.jobs
    ensures var after := RunCalls(hash, st, Ordered(ops));
            !Absent(after, m.app, job.name) && (!Absent(st, m.app, job.name) ==> UpToDate(hash, after, m.app, job))
  {
    hide Inv, Absent, UpToDate, Ordered, AllTranslate, ValidName, PlanFor, GoodCall, Fresh, Same, CronJobAt,
        ConfigMapAt;
    var calls := Ordered(ops);
    var after := RunCalls(hash, st, calls);
    NamesHold(m.jobs);
    forall k | 0 <= k < |calls| && NameOf(calls[k]) == job.name ensures !calls[k].DeleteJob? && calls[k].job == job
        && Wants(hash, st, m, calls[k]) {
      PlanIsWanted(hash, st, m, ops, calls[k]);
      if !calls[k].DeleteJob? {
        SameName(m, calls[k].job, job);
      }
    }
    if Absent(st, m.app, job.name) {
      PlanIsWanted(hash, st, m, ops, CreateJob(m.app, job));
      ConcernedBy(calls, CreateJob(m.app, job));
      RunCreates(hash, m.app, st, calls, job.name);
    } else if UpToDate(hash, st, m.app, job) {
      assert !Concerns(calls, job.name);
      RunOthers(hash, m.app, st, calls, job.name);
      UpToDateSame(hash, st, after, m.app, job);
      AbsentNotUpToDate(hash, after, m.app, job);
    } else {
      PlanIsWanted(hash, st, m, ops, UpdateJob(m.app, job));
      ConcernedBy(calls, UpdateJob(m.app, job));
      RunUpdates(hash, m.app, st, calls, job);
      FreshUpToDate(hash, after, m.app, job);
      AbsentNotUpToDate(hash, after, m.app, job);
    }
  }

  lemma ConcernedBy(calls: seq<Edit>, e: Edit)
    requires e in calls
    ensures Concerns(calls, NameOf(e))
  {
    var k :| 0 <= k < |calls| && calls[k] == e;
    assert NameOf(calls[k]) == NameOf(e);
  }

  /** A plan does nothing exactly when every job of the manifest is up to date and no other job is there. */
  lemma NoopExactly(hash: Hasher, st: Store, m: NormalizedManifest, ops: seq<Op>)
    requires Inv(st, m.app) && K8sManifest(m) && PlanFor(hash, st, m, ops)
    ensures IsNoop(ops) <==>
            && (forall i :: 0 <= i < |m.jobs| ==> UpToDate(hash, st, m.app, m.jobs[i]))
            && (forall name :: name !in Names(m.jobs) ==> Absent(st, m.app, name))
  {
    hide Inv, Absent, UpToDate, AllTranslate, ValidName, PlanFor, Pass;
    NoopHasNoCalls(ops);
    if IsNoop(ops) {
      forall i | 0 <= i < |m.jobs| ensures UpToDate(hash, st, m.app, m.jobs[i]) {
        PlanIsWanted(hash, st, m, ops, CreateJob(m.app, m.jobs[i]));
        PlanIsWanted(hash, st, m, ops, UpdateJob(m.app, m.jobs[i]));
      }
      forall name | name !in Names(m.jobs) ensures Absent(st, m.app, name) {
        PlanIsWanted(hash, st, m, ops, DeleteJob(m.app, name));
      }
    } else {
      var e :| e in Ordered(ops);
      PlanIsWanted(hash, st, m, ops, e);
      if !e.DeleteJob? {
        var i :| 0 <= i < |m.jobs| && m.jobs[i] == e.job;
        if UpToDate(hash, st, m.app, m.jobs[i]) {
          AbsentNotUpToDate(hash, st, m.app, m.jobs[i]);
        }
      }
    }
  }

  lemma NoopHasNoCalls(ops: seq<Op>)
    ensures IsNoop(ops) ==> Ordered(ops) == []
    ensures !IsNoop(ops) ==> exists e :: e in Ordered(ops)
  {
    hide Pass;
    if IsNoop(ops) {
      NoPass(ops, Create);
      NoPass(ops, Update);
      NoPass(ops, Delete);
    } else {
      var k :| 0 <= k < |ops| && ops[k].action != Skip;
      PassMembers(ops, ops[k].action, CallOf(ops[k]));
      assert CallOf(ops[k]) in Ordered(ops);
    }
  }

  lemma {:induction false} NoPass(ops: seq<Op>, action: Action)
    requires IsNoop(ops) && action != Skip
    ensures Pass(ops, action) == []
  {
    if ops != [] {
      NoPass(ops[..|ops| - 1], action);
    }
  }

  // ---- What is installed once the plan is empty ---------------------------------------------------

  lemma DriftIsNoHash(hash: Hasher, job: NormalizedJob, k: nat)
    ensures hash(job, k) != DRIFT_SPEC_EDITED
  {
    assert IsHash(hash(job, k));
    assert DRIFT_SPEC_EDITED[1] == 'r';
  }

  /** The pair of a schedule holds the job itself, and its CronJob runs on its schedule. */
  predicate InstalledAt(st: Store, app: string, job: NormalizedJob, k: nat)
    requires k < |job.schedules|
  {
    var cm, cj := ConfigMapAt(st, app, job.name, k), CronJobAt(st, app, job.name, k);
    && cm.Some? && cm.value.spec == Some(job)
    && cj.Some? && TranslateK8s(job.schedules[k]) == Some(cj.value.schedule)
  }

  /** The ConfigMap of a schedule holds no other job with the same hash. */
  predicate NoClash(hash: Hasher, st: Store, app: string, job: NormalizedJob, k: nat) {
    var cm := ConfigMapAt(st, app, job.name, k);
    cm.Some? && cm.value.spec.Some? && hash(cm.value.spec.value, k) == hash(job, k) ==> cm.value.spec.value == job
  }

  /** The pair of a schedule holds a job with the same hash, and its CronJob runs on the schedule of that job. */
  predicate LooksInstalledAt(hash: Hasher, st: Store, app: string, job: NormalizedJob, k: nat) {
    var cm, cj := ConfigMapAt(st, app, job.name, k), CronJobAt(st, app, job.name, k);
    && cm.Some? && cm.value.spec.Some? && cj.Some? && k < |cm.value.spec.value.schedules|
    && hash(cm.value.spec.value, k) == hash(job, k)
    && TranslateK8s(cm.value.spec.value.schedules[k]) == Some(cj.value.schedule)
  }

  lemma HashAtExactly(hash: Hasher, st: Store, app: string, job: NormalizedJob, k: nat)
    requires Inv(st, app)
    ensures CronJobAt(st, app, job.name, k).Some? && HashAt(hash, st, app, job.name, k) == hash(job, k) <==>
            LooksInstalledAt(hash, st, app, job, k)
  {
    hide ScheduleName, TranslateK8s, ValidName, SpecName, IsHash;
    var name := ScheduleName(app, job.name, k);
    DriftIsNoHash(hash, job, k);
    if name in st.cronJobs {
      var cj, cm := st.cronJobs[name], st.configMaps[SpecName(name)];
      NamesDiffer(app, job.name, k, cj.job, cj.index);
      NamesDiffer(app, job.name, k, cm.job, cm.index);
    }
  }

  /** What an up-to-date job has in the cluster: for each schedule, and for no other, a pair that looks like its own. */
  lemma UpToDateExactly(hash: Hasher, st: Store, app: string, job: NormalizedJob)
    requires Inv(st, app)
    ensures UpToDate(hash, st, app, job) <==>
            forall k: nat :: if k < |job.schedules| then LooksInstalledAt(hash, st, app, job, k)
                             else CronJobAt(st, app, job.name, k).None?
  {
    hide Inv, HashAt, CronJobAt, LooksInstalledAt;
    forall k: nat
      ensures CronJobAt(st, app, job.name, k).Some? && HashAt(hash, st, app, job.name, k) == hash(job, k) <==>
              LooksInstalledAt(hash, st, app, job, k)
    {
      HashAtExactly(hash, st, app, job, k);
    }
    if UpToDate(hash, st, app, job) {
      forall k: nat
        ensures if k < |job.schedules| then LooksInstalledAt(hash, st, app, job, k)
                else CronJobAt(st, app, job.name, k).None?
      {
        assert CronJobAt(st, app, job.name, k).Some? <==> k < |job.schedules|;
      }
    }
  }

  /** An up-to-date schedule is installed as the manifest has it, exactly when its ConfigMap holds no other job with the
      same hash. */
  lemma UpToDateMeansInstalled(hash: Hasher, st: Store, app: string, job: NormalizedJob, k: nat)
    requires Inv(st, app) && UpToDate(hash, st, app, job) && k < |job.schedules|
    ensures InstalledAt(st, app, job, k) <==> NoClash(hash, st, app, job, k)
  {
    hide Inv, HashAt, CronJobAt, ConfigMapAt, TranslateK8s, UpToDate;
    UpToDateExactly(hash, st, app, job);
    assert LooksInstalledAt(hash, st, app, job, k);
  }

  /** No ConfigMap of a job of the manifest holds another job with the same hash. */
  ghost predicate ClashFree(hash: Hasher, st: Store, m: NormalizedManifest) {
    forall i, k :: 0 <= i < |m.jobs| && 0 <= k < |m.jobs[i].schedules| ==> NoClash(hash, st, m.app, m.jobs[i], k)
  }

  /** Every job of the manifest runs as the manifest has it, and no other job of the app has a CronJob. */
  ghost predicate Deployed(st: Store, m: NormalizedManifest) {
    && (forall i, k :: 0 <= i < |m.jobs| && 0 <= k < |m.jobs[i].schedules| ==> InstalledAt(st, m.app, m.jobs[i], k))
    && (forall i: nat, k: nat :: i < |m.jobs| && k >= |m.jobs[i].schedules| ==>
         CronJobAt(st, m.app, m.jobs[i].name, k).None?)
    && (forall name :: name !in Names(m.jobs) ==> Absent(st, m.app, name))
  }

  /** What an empty plan says about the cluster: the manifest is deployed, but for clashes of hashes. */
  lemma NoopMeansDeployed(hash: Hasher, st: Store, m: NormalizedManifest, ops: seq<Op>)
    requires Inv(st, m.app) && K8sManifest(m) && PlanFor(hash, st, m, ops) && IsNoop(ops)
    ensures Deployed(st, m) <==> ClashFree(hash, st, m)
  {
    hide Inv, Absent, UpToDate, CronJobAt, K8sManifest, PlanFor, IsNoop, NoClash, InstalledAt, LooksInstalledAt;
    NoopExactly(hash, st, m, ops);
    forall i | 0 <= i < |m.jobs|
      ensures forall k: nat :: k >= |m.jobs[i].schedules| ==> CronJobAt(st, m.app, m.jobs[i].name, k).None?
      ensures forall k :: 0 <= k < |m.jobs[i].schedules| ==>
                (InstalledAt(st, m.app, m.jobs[i], k) <==> NoClash(hash, st, m.app, m.jobs[i], k))
    {
      UpToDateExactly(hash, st, m.app, m.jobs[i]);
      forall k | 0 <= k < |m.jobs[i].schedules|
        ensures InstalledAt(st, m.app, m.jobs[i], k) <==> NoClash(hash, st, m.app, m.jobs[i], k)
      {
        UpToDateMeansInstalled(hash, st, m.app, m.jobs[i], k);
      }
    }
  }

  /** A ConfigMap of the job is gone, or the one that was there, or the job's own. */
  ghost predicate OldOrOwn(hash: Hasher, st: Store, after: Store, app: string, job: NormalizedJob, k: nat) {
    var cm := ConfigMapAt(after, app, job.name, k);
    cm.None? || cm == ConfigMapAt(st, app, job.name, k) || cm == Some(BuildConfigMap(hash, app, job, k))
  }

  lemma EffectOnSpecs(hash: Hasher, st: Store, e: Edit, job: NormalizedJob, k: nat)
    requires GoodCall(e) && Inv(st, e.app) && (NameOf(e) == job.name ==> e.DeleteJob? || e.job == job)
    ensures OldOrOwn(hash, st, Effect(hash, st, e), e.app, job, k)
  {
    hide CronJobAt, ConfigMapAt, TranslateK8s, ValidName, Inv, CreateUpTo, Removed;
    RemovedAt(st, e.app, NameOf(e), job.name, k);
    if !e.DeleteJob? {
      var base := if e.UpdateJob? then Removed(st, e.app, e.job.name) else st;
      CreatedAt(hash, base, e.app, e.job, |e.job.schedules|, job.name, k);
    }
  }

  lemma {:induction false} RunOnSpecs(
    hash: Hasher, app: string, st: Store, calls: seq<Edit>, job: NormalizedJob, k: nat)
    requires Inv(st, app) && GoodCalls(app, calls)
    requires forall j :: 0 <= j < |calls| && NameOf(calls[j]) == job.name ==> calls[j].DeleteJob? || calls[j].job == job
    ensures OldOrOwn(hash, st, RunCalls(hash, st, calls), app, job, k)
  {
    hide Inv, GoodCall, Effect, ConfigMapAt;
    if calls != [] {
      var front, last := calls[..|calls| - 1], calls[|calls| - 1];
      RunOnSpecs(hash, app, st, front, job, k);
      RunKeepsInv(hash, app, st, front);
      EffectOnSpecs(hash, RunCalls(hash, st, front), last, job, k);
    }
  }

  /** A round brings no clash that was not there before. */
  lemma RoundKeepsClashFree(hash: Hasher, st: Store, m: NormalizedManifest, ops: seq<Op>)
    requires Inv(st, m.app) && K8sManifest(m) && PlanFor(hash, st, m, ops) && GoodCalls(m.app, Ordered(ops))
    requires ClashFree(hash, st, m)
    ensures ClashFree(hash, RunCalls(hash, st, Ordered(ops)), m)
  {
    hide Inv, Absent, UpToDate, Ordered, AllTranslate, ValidName, PlanFor, GoodCall, CronJobAt, ConfigMapAt;
    var calls := Ordered(ops);
    var after := RunCalls(hash, st, calls);
    forall i, k | 0 <= i < |m.jobs| && 0 <= k < |m.jobs[i].schedules|
      ensures NoClash(hash, after, m.app, m.jobs[i], k)
    {
      var job := m.jobs[i];
      forall j | 0 <= j < |calls| && NameOf(calls[j]) == job.name
        ensures calls[j].DeleteJob? || calls[j].job == job
      {
        PlanIsWanted(hash, st, m, ops, calls[j]);
        if !calls[j].DeleteJob? {
          SameName(m, calls[j].job, job);
        }
      }
      RunOnSpecs(hash, m.app, st, calls, job, k);
      assert NoClash(hash, st, m.app, job, k);
    }
  }

  // ---- Two rounds ---------------------------------------------------------------------------------

  /** There is a plan for every store. */
  lemma PlanForExists(hash: Hasher, st: Store, m: NormalizedManifest) returns (ops: seq<Op>)
    ensures PlanFor(hash, st, m, ops)
  {
    hide EntryFor, EntryJobs, PlanOps;
    var names := Enumerate(st.cronJobs.Keys);
    forall k | 0 <= k < |names| ensures names[k] in st.cronJobs { assert names[k] in Elements(names); }
    forall name | name in st.cronJobs ensures name in names { assert name in Elements(names); }
    var entries := seq(|names|, k requires 0 <= k < |names| => EntryFor(hash, st, names[k]));
    assert Listing(hash, st, names, entries);
    var deletes := Enumerate(EntryJobs(entries, m.app) - Names(m.jobs));
    ops := PlanOps(hash, entries, m, deletes);
  }

  /** From any state that interrupted calls can leave, two complete rounds of compute and apply always reach a plan
      that does nothing. */
  lemma TwoRoundsSettle(hash: Hasher, st: Store, m: NormalizedManifest, first: seq<Op>, second: seq<Op>, third: seq<Op>)
    requires Inv(st, m.app) && K8sManifest(m)
    requires PlanFor(hash, st, m, first) && GoodCalls(m.app, Ordered(first))
    requires var mid := RunCalls(hash, st, Ordered(first));
             PlanFor(hash, mid, m, second) && GoodCalls(m.app, Ordered(second))
             && PlanFor(hash, RunCalls(hash, mid, Ordered(second)), m, third)
    ensures IsNoop(third)
  {
    hide Inv, Absent, UpToDate, Ordered, AllTranslate, ValidName, PlanFor, GoodCall, K8sManifest, IsNoop;
    var mid := RunCalls(hash, st, Ordered(first));
    var last := RunCalls(hash, mid, Ordered(second));
    OneRound(hash, st, m, first);
    OneRound(hash, mid, m, second);
    NoopExactly(hash, last, m, third);
  }

  /** Such rounds exist for every state: plans always do, and all their calls can go through. */
  lemma TwoRoundsExist(hash: Hasher, st: Store, m: NormalizedManifest)
    returns (first: seq<Op>, second: seq<Op>, third: seq<Op>)
    requires Inv(st, m.app) && K8sManifest(m)
    ensures PlanFor(hash, st, m, first) && GoodCalls(m.app, Ordered(first))
    ensures var mid := RunCalls(hash, st, Ordered(first));
            PlanFor(hash, mid, m, second) && GoodCalls(m.app, Ordered(second))
            && PlanFor(hash, RunCalls(hash, mid, Ordered(second)), m, third) && IsNoop(third)
  {
    hide Inv, Absent, UpToDate, Ordered, PlanFor, GoodCall, K8sManifest, IsNoop;
    first := PlanForExists(hash, st, m);
    OneRound(hash, st, m, first);
    var mid := RunCalls(hash, st, Ordered(first));
    second := PlanForExists(hash, mid, m);
    OneRound(hash, mid, m, second);
    third := PlanForExists(hash, RunCalls(hash, mid, Ordered(second)), m);
    TwoRoundsSettle(hash, st, m, first, second, third);
  }

  /** Two complete rounds deploy the manifest, unless at the start a ConfigMap of one of its jobs holds another job with
      the same hash. */
  lemma TwoRoundsDeploy(hash: Hasher, st: Store, m: NormalizedManifest, first: seq<Op>, second: seq<Op>)
    requires Inv(st, m.app) && K8sManifest(m) && ClashFree(hash, st, m)
    requires PlanFor(hash, st, m, first) && GoodCalls(m.app, Ordered(first))
    requires PlanFor(hash, RunCalls(hash, st, Ordered(first)), m, second) && GoodCalls(m.app, Ordered(second))
    ensures Deployed(RunCalls(hash, RunCalls(hash, st, Ordered(first)), Ordered(second)), m)
  {
    hide Inv, Ordered, PlanFor, GoodCall, K8sManifest, IsNoop, ClashFree, Deployed;
    var mid := RunCalls(hash, st, Ordered(first));
    var last := RunCalls(hash, mid, Ordered(second));
    OneRound(hash, st, m, first);
    OneRound(hash, mid, m, second);
    RoundKeepsClashFree(hash, st, m, first);
    RoundKeepsClashFree(hash, mid, m, second);
    var third := PlanForExists(hash, last, m);
    TwoRoundsSettle(hash, st, m, first, second, third);
    NoopMeansDeployed(hash, last, m, third);
  }

  /** `apply` against a cluster.  It keeps the invariant even when a call fails; when none does, every job of the
      manifest is there and no other, and those that were there before are up to date. */
  method ReconcileCluster(m: NormalizedManifest, cluster: Cluster) returns (ok: bool)
    requires Inv(cluster.State(), m.app) && K8sManifest(m)
    modifies cluster
    ensures Inv(cluster.State(), m.app)
    ensures ok ==> forall name :: name !in Names(m.jobs) ==> Absent(cluster.State(), m.app, name)
    ensures ok ==> forall i :: 0 <= i < |m.jobs| ==> !Absent(cluster.State(), m.app, m.jobs[i].name)
    ensures ok ==> forall i :: 0 <= i < |m.jobs| && !Absent(old(cluster.State()), m.app, m.jobs[i].name) ==>
                     UpToDate(cluster.hash, cluster.State(), m.app, m.jobs[i])
    ensures ok && ClashFree(cluster.hash, old(cluster.State()), m) ==> ClashFree(cluster.hash, cluster.State(), m)
  {
    hide Inv, K8sManifest, PlanOps, DeletesFor, Lists, Absent, UpToDate, Ordered, Progress, GoodCall, ClashFree;
    ghost var start := cluster.State();
    var entries;
    entries, ok := cluster.List();
    if !ok {
      return;
    }
    var ops, deletes := Compute(cluster.hash, m, entries);
    assert PlanFor(cluster.hash, start, m, ops);
    OneRound(cluster.hash, start, m, ops);
    var done;
    done, ok := ApplyToCluster(ops, cluster);
    ProgressKeeps(cluster.hash, m.app, start, Ordered(ops), done, ok, cluster.State());
    if ok {
      ProgressDone(cluster.hash, start, Ordered(ops), done, cluster.State());
      if ClashFree(cluster.hash, start, m) {
        RoundKeepsClashFree(cluster.hash, start, m, ops);
      }
    }
  }

  /** Two applies in a row that go through settle the cluster, whatever earlier ones left: a third has nothing to do,
      and without a clash of hashes at the start the manifest is deployed. */
  method ReconcileTwice(m: NormalizedManifest, cluster: Cluster) returns (ok: bool)
    requires Inv(cluster.State(), m.app) && K8sManifest(m)
    modifies cluster
    ensures Inv(cluster.State(), m.app)
    ensures ok ==> forall next :: PlanFor(cluster.hash, cluster.State(), m, next) ==> IsNoop(next)
    ensures ok && ClashFree(cluster.hash, old(cluster.State()), m) ==> Deployed(cluster.State(), m)
  {
    hide Inv, K8sManifest, PlanFor, Absent, UpToDate, IsNoop, ClashFree, Deployed;
    ghost var start := cluster.State();
    ok := ReconcileCluster(m, cluster);
    if ok {
      ok := ReconcileCluster(m, cluster);
      forall next | ok && PlanFor(cluster.hash, cluster.State(), m, next) ensures IsNoop(next) {
        NoopExactly(cluster.hash, cluster.State(), m, next);
      }
      if ok && ClashFree(cluster.hash, start, m) {
        ghost var next := PlanForExists(cluster.hash, cluster.State(), m);
        NoopMeansDeployed(cluster.hash, cluster.State(), m, next);
      }
    }
  }

  // ---- One round may not be enough ----------------------------------------------------------------

  /** A ConfigMap that is there already stands for the schedule as the job has it, as far as the listing can tell. */
  predicate Agreeing(hash: Hasher, cm: ConfigMap, job: NormalizedJob, k: nat)
    requires k < |job.schedules|
  {
    && cm.spec.Some? && k < |cm.spec.value.schedules|
    && TranslateK8s(cm.spec.value.schedules[k]) == TranslateK8s(job.schedules[k]) && hash(cm.spec.value, k) ==
        hash(job, k)
  }

  /** A create settles its job at once exactly when no ConfigMap that survived an earlier, interrupted call says
      otherwise: `Create` leaves it where it is. */
  lemma CreateSettlesExactly(hash: Hasher, st: Store, app: string, job: NormalizedJob)
    requires Inv(st, app) && Absent(st, app, job.name) && AllTranslate(job)
    ensures UpToDate(hash, Created(hash, st, app, job), app, job) <==>
            forall k: nat :: k < |job.schedules| && ConfigMapAt(st, app, job.name, k).Some? ==>
              Agreeing(hash, ConfigMapAt(st, app, job.name, k).value, job, k)
  {
    hide CronJobAt, ConfigMapAt, TranslateK8s, Inv, CreateUpTo, Agreeing;
    var after := Created(hash, st, app, job);
    forall k: nat { CreatedAt(hash, st, app, job, |job.schedules|, job.name, k); }
    forall k: nat | k < |job.schedules|
      ensures HashAt(hash, after, app, job.name, k) == hash(job, k) <==>
              ConfigMapAt(st, app, job.name, k).Some? ==>
                  Agreeing(hash, ConfigMapAt(st, app, job.name, k).value, job, k)
    {
      CreatedHash(hash, st, app, job, k);
    }
  }

  lemma CreatedHash(hash: Hasher, st: Store, app: string, job: NormalizedJob, k: nat)
    requires Inv(st, app) && Absent(st, app, job.name) && AllTranslate(job) && k < |job.schedules|
    ensures HashAt(hash, Created(hash, st, app, job), app, job.name, k) == hash(job, k) <==>
            ConfigMapAt(st, app, job.name, k).Some? ==> Agreeing(hash, ConfigMapAt(st, app, job.name, k).value, job, k)
  {
    hide TranslateK8s, CreateUpTo, CronJobAt;
    CreatedAt(hash, st, app, job, |job.schedules|, job.name, k);
    DriftIsNoHash(hash, job, k);
    if ConfigMapAt(st, app, job.name, k).Some? {
      var cm := ConfigMapAt(st, app, job.name, k).value;
      NamesDiffer(app, job.name, k, cm.job, cm.index);
    }
  }

  lemma OnlyCreate(hash: Hasher, entries: seq<ManagedEntry>, m: NormalizedManifest, job: NormalizedJob,
      deletes: seq<string>)
    requires m.jobs == [job] && EntryJobs(entries, m.app) == {} && DeletesFor(entries, m, deletes)
    ensures Ordered(PlanOps(hash, entries, m, deletes)) == [CreateJob(m.app, job)]
  {
    hide HashesOf, DesiredHashes, UpTo, Join;
    ElementsEmpty(deletes);
    var op := OpFor(hash, entries, m.app, job);
    assert [job][..0] == [];
    assert DesiredOps(hash, entries, m.app, [job]) == [op];
    ConcatEmpty([op]);
    assert [op][..0] == [];
    assert Pass([op], Create) == Pass([], Create) + [CreateJob(m.app, job)];
    assert Pass([op], Update) == Pass([], Update) + [];
    assert Pass([op], Delete) == Pass([], Delete) + [];
  }

  lemma ShortcutTranslations()
    ensures TranslateK8s("@daily") == Some("0 0 * * *") && TranslateK8s("@hourly") == Some("0 * * * *")
  {
    TrimSpaceTrims("@daily");
    TrimSpaceTrims("@hourly");
  }

  /** One round is not always enough: a create that is interrupted after its first call leaves a ConfigMap; a complete
      round for a changed job then keeps it, and the next plan still has work to do. */
  lemma OneRoundIsNotEnough(hash: Hasher, m: NormalizedManifest, stale: NormalizedJob, job: NormalizedJob)
    returns (left: Store, mid: Store)
    requires ValidName(m.app) && ValidName(job.name) && stale.name == job.name && m.jobs == [job]
    requires stale.schedules == ["@daily"] && job.schedules == ["@hourly"]
    ensures CallStep(hash, Store(map[], map[]), CreateJob(m.app, stale), left) && Inv(left, m.app) && K8sManifest(m)
    ensures forall first :: PlanFor(hash, left, m, first) ==>
              GoodCalls(m.app, Ordered(first)) && RunCalls(hash, left, Ordered(first)) == mid
    ensures forall next :: PlanFor(hash, mid, m, next) ==> !IsNoop(next)
  {
    hide TranslateK8s, ScheduleName, SpecName, ValidName, PlanFor, Ordered, CreateUpTo, UpToDate, IsNoop;
    ShortcutTranslations();
    var empty := Store(map[], map[]);
    left := CreateOne(hash, empty, m.app, stale, 0, false);
    EmptyStep(hash, m.app, stale);
    CallKeeps(hash, empty, CreateJob(m.app, stale), left);
    mid := Created(hash, left, m.app, job);
    LeftBehind(hash, m.app, stale);
    forall first | PlanFor(hash, left, m, first)
      ensures GoodCalls(m.app, Ordered(first)) && RunCalls(hash, left, Ordered(first)) == mid
    {
      PlanCallsGood(hash, left, m, first);
      FirstPlan(hash, left, m, job, first);
      assert [CreateJob(m.app, job)][..0] == [];
    }
    CreateSettlesExactly(hash, left, m.app, job);
    assert !Agreeing(hash, ConfigMapAt(left, m.app, job.name, 0).value, job, 0);
    CreatedKeepsInv(hash, left, m.app, job);
    assert m.jobs[0] == job && !UpToDate(hash, mid, m.app, m.jobs[0]);
    forall next | PlanFor(hash, mid, m, next) ensures !IsNoop(next) {
      NoopExactly(hash, mid, m, next);
    }
  }

  lemma EmptyStep(hash: Hasher, app: string, job: NormalizedJob)
    requires |job.schedules| > 0 && TranslateK8s(job.schedules[0]).Some? && ValidName(app) && ValidName(job.name)
    ensures CallStep(hash, Store(map[], map[]), CreateJob(app, job),
        CreateOne(hash, Store(map[], map[]), app, job, 0, false))
    ensures Inv(Store(map[], map[]), app)
  {
    hide TranslateK8s, ScheduleName, SpecName, ValidName, CreateOne;
    assert PartlyCreated(hash, Store(map[], map[]), app, job,
        CreateOne(hash, Store(map[], map[]), app, job, 0, false), 0);
  }

  lemma LeftBehind(hash: Hasher, app: string, job: NormalizedJob)
    requires |job.schedules| > 0 && TranslateK8s(job.schedules[0]).Some?
    ensures var left := CreateOne(hash, Store(map[], map[]), app, job, 0, false);
            ConfigMapAt(left, app, job.name, 0) == Some(BuildConfigMap(hash, app, job, 0))
            && left.cronJobs == map[] && forall name :: Absent(left, app, name)
  {}

  lemma NothingListed(hash: Hasher, st: Store, entries: seq<ManagedEntry>)
    requires Lists(hash, st, entries)
    ensures st.cronJobs == map[] ==> entries == []
  {
    var names :| Listing(hash, st, names, entries);
    if |names| > 0 {
      assert names[0] in st.cronJobs;
    }
  }

  lemma FirstPlan(hash: Hasher, left: Store, m: NormalizedManifest, job: NormalizedJob, first: seq<Op>)
    requires left.cronJobs == map[] && m.jobs == [job] && PlanFor(hash, left, m, first)
    ensures Ordered(first) == [CreateJob(m.app, job)]
  {
    hide Ordered, PlanOps, DeletesFor;
    var entries, deletes :| Lists(hash, left, entries) && DeletesFor(entries, m, deletes) && first ==
        PlanOps(hash, entries, m, deletes);
    NothingListed(hash, left, entries);
    OnlyCreate(hash, entries, m, job, deletes);
  }

  lemma CreatedKeepsInv(hash: Hasher, st: Store, app: string, job: NormalizedJob)
    requires Inv(st, app) && ValidName(job.name) && AllTranslate(job)
    ensures Inv(Created(hash, st, app, job), app)
  {
    hide Inv, TranslateK8s, ValidName;
    CreateUpToKeeps(hash, st, app, job, |job.schedules|);
  }
}

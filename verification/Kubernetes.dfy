/** The Kubernetes backend: a CronJob and a ConfigMap for every schedule of a job, created and deleted one API call at
    a time (`kubernetes/kubernetes.go`).  Every call is atomic, and any call may fail and end the operation. */
module Kubernetes {
  import opened Wrappers
  import opened Text
  import opened NormalizedManifests
  import opened OwnerLine
  import opened CrontabLines
  import opened Policy
  import Cron

  /** The labels of both kinds of resources are the app, the job, the hash and the index. */
  datatype CronJob = CronJob(app: string, job: string, hash: string, index: nat, schedule: string)

  /** `spec` is the job in the trigger spec, when the data holds one that can be read. */
  datatype ConfigMap = ConfigMap(app: string, job: string, hash: string, index: nat, spec: Option<NormalizedJob>)

  datatype Store = Store(cronJobs: map<string, CronJob>, configMaps: map<string, ConfigMap>)

  const DRIFT_SPEC_EDITED := "drift-spec-edited"

  function SpecName(name: string): string { name + "-spec" }

  /** `validateName`. */
  predicate ValidName(s: string) { 1 <= |s| <= 63 && forall i :: 0 <= i < |s| ==> IsNameChar(s[i]) }

  /** `translateK8sSchedule`: unlike the crontab form it knows no `@every`. */
  function TranslateK8s(s: string): Option<string> {
    var t := TrimSpace(s);
    if t == "" || t[0] != '@' then (if |Fields(t)| == 5 then Some(t) else None)
    else if t == "@hourly" then Some("0 * * * *")
    else if t == "@daily" || t == "@midnight" then Some("0 0 * * *")
    else if t == "@weekly" then Some("0 0 * * 0")
    else if t == "@monthly" then Some("0 0 1 * *")
    else if t == "@yearly" || t == "@annually" then Some("0 0 1 1 *")
    else None
  }

  /** The two backends understand the same schedules in the same way, but for texts with an at sign that are no
      shortcut: this one takes none of them, the crontab those `@every` forms that divide their period, and any other
      of five fields. */
  lemma TranslationsAgree(s: string)
    ensures var t := TrimSpace(s);
            TranslateK8s(s) ==
            if t == "" || t[0] != '@' || t in {"@hourly", "@daily", "@midnight", "@weekly", "@monthly", "@yearly",
                "@annually"}
            then Cron.Translate(s) else None
  {
    hide TrimSpace, Fields, Cron.TranslateEvery;
  }

  // ---- Creating -----------------------------------------------------------------------------------

  /** `buildResources`. */
  function BuildCronJob(hash: Hasher, app: string, job: NormalizedJob, i: nat, schedule: string): CronJob {
    CronJob(app, job.name, hash(job, i), i, schedule)
  }

  function BuildConfigMap(hash: Hasher, app: string, job: NormalizedJob, i: nat): ConfigMap {
    ConfigMap(app, job.name, hash(job, i), i, Some(job))
  }

  function AddConfigMap(st: Store, name: string, cm: ConfigMap): Store {
    if name in st.configMaps then st else st.(configMaps := st.configMaps[name := cm])
  }

  function AddCronJob(st: Store, name: string, cj: CronJob): Store {
    if name in st.cronJobs then st else st.(cronJobs := st.cronJobs[name := cj])
  }

  /** The API calls for one schedule: the ConfigMap first, then the CronJob; what exists already is left alone. */
  function CreateOne(hash: Hasher, st: Store, app: string, job: NormalizedJob, i: nat, both: bool): Store
    requires i < |job.schedules| && TranslateK8s(job.schedules[i]).Some?
  {
    var name := ScheduleName(app, job.name, i);
    var first := AddConfigMap(st, SpecName(name), BuildConfigMap(hash, app, job, i));
    if both then AddCronJob(first, name, BuildCronJob(hash, app, job, i, TranslateK8s(job.schedules[i]).value))
        else first
  }

  /** The first n schedules have been dealt with. */
  function CreateUpTo(hash: Hasher, st: Store, app: string, job: NormalizedJob, n: nat): Store
    requires n <= |job.schedules| && forall i :: 0 <= i < n ==> TranslateK8s(job.schedules[i]).Some?
  {
    if n == 0 then st else CreateOne(hash, CreateUpTo(hash, st, app, job, n - 1), app, job, n - 1, true)
  }

  predicate AllTranslate(job: NormalizedJob) {
    forall i :: 0 <= i < |job.schedules| ==> TranslateK8s(job.schedules[i]).Some?
  }

  function Created(hash: Hasher, st: Store, app: string, job: NormalizedJob): Store
    requires AllTranslate(job)
  {
    CreateUpTo(hash, st, app, job, |job.schedules|)
  }

  /** What `Create` may leave when it stops early: n schedules done, and perhaps the ConfigMap of the next. */
  ghost predicate PartlyCreated(hash: Hasher, st: Store, app: string, job: NormalizedJob, after: Store, n: nat) {
    && n <= |job.schedules| && (forall i :: 0 <= i < n ==> TranslateK8s(job.schedules[i]).Some?)
    && (after == CreateUpTo(hash, st, app, job, n)
        || (n < |job.schedules| && TranslateK8s(job.schedules[n]).Some?
            && after == CreateOne(hash, CreateUpTo(hash, st, app, job, n), app, job, n, false)))
  }

  // ---- Deleting -----------------------------------------------------------------------------------

  function JobCronJobs(st: Store, app: string, job: string): set<string> {
    set name | name in st.cronJobs && st.cronJobs[name].app == app && st.cronJobs[name].job == job
  }

  function JobConfigMaps(st: Store, app: string, job: string): set<string> {
    set name | name in st.configMaps && st.configMaps[name].app == app && st.configMaps[name].job == job
  }

  function Removed(st: Store, app: string, job: string): Store {
    Store(st.cronJobs - JobCronJobs(st, app, job), st.configMaps - JobConfigMaps(st, app, job))
  }

  /** What `Delete` may leave when it stops early: ConfigMaps go only when all the CronJobs have. */
  ghost predicate PartlyRemoved(st: Store, app: string, job: string, after: Store) {
    exists cjs, cms ::
      && cjs <= JobCronJobs(st, app, job) && cms <= JobConfigMaps(st, app, job)
      && (cms != {} ==> cjs == JobCronJobs(st, app, job))
      && after == Store(st.cronJobs - cjs, st.configMaps - cms)
  }

  // ---- Listing ------------------------------------------------------------------------------------

  /** `computeListHash`. */
  function ListHash(hash: Hasher, cj: CronJob, cm: Option<ConfigMap>): string {
    if cm.None? || cm.value.spec.None? then cj.hash
    else
      var job := cm.value.spec.value;
      if cj.index >= |job.schedules| then cj.hash
      else
        match TranslateK8s(job.schedules[cj.index])
        case None => cj.hash
        case Some(want) => if cj.schedule != want then DRIFT_SPEC_EDITED else hash(job, cj.index)
  }

  function ConfigMapOf(st: Store, name: string): Option<ConfigMap> {
    if SpecName(name) in st.configMaps then Some(st.configMaps[SpecName(name)]) else None
  }

  /** The entry for the CronJob of a name; the object itself is not part of it. */
  function EntryFor(hash: Hasher, st: Store, name: string): ManagedEntry
    requires name in st.cronJobs
  {
    var cj := st.cronJobs[name];
    ManagedEntry(cj.app, cj.job, ListHash(hash, cj, ConfigMapOf(st, name)), cj.index, "")
  }

  /** The entries are those of the CronJobs, in the order of the names. */
  ghost predicate Listing(hash: Hasher, st: Store, names: seq<string>, entries: seq<ManagedEntry>) {
    && |names| == |entries|
    && (forall k :: 0 <= k < |names| ==> names[k] in st.cronJobs && entries[k] == EntryFor(hash, st, names[k]))
    && (forall j, k :: 0 <= j < k < |names| ==> names[j] != names[k])
    && (forall name :: name in st.cronJobs ==> name in names)
  }

  ghost predicate Lists(hash: Hasher, st: Store, entries: seq<ManagedEntry>) {
    exists names :: Listing(hash, st, names, entries)
  }

  // ---- The backend --------------------------------------------------------------------------------

  class Cluster {
    const hash: Hasher
    var cronJobs: map<string, CronJob>
    var configMaps: map<string, ConfigMap>

    constructor (hash: Hasher)
      ensures this.hash == hash && State() == Store(map[], map[])
    {
      this.hash := hash;
      cronJobs, configMaps := map[], map[];
    }

    function State(): Store
      reads this
    {
      Store(cronJobs, configMaps)
    }

    /** `List`.  The API server lists resources in an order of its own. */
    method List() returns (entries: seq<ManagedEntry>, ok: bool)
      ensures ok ==> Lists(hash, State(), entries)
    {
      entries, ok := [], *;
      if !ok {
        return;
      }
      ghost var names: seq<string> := [];
      var rest := cronJobs.Keys;
      while rest != {}
        invariant rest <= cronJobs.Keys
        invariant |names| == |entries|
        invariant forall k :: 0 <= k < |names| ==>
                    names[k] in cronJobs && names[k] !in rest && entries[k] == EntryFor(hash, State(), names[k])
        invariant forall j, k :: 0 <= j < k < |names| ==> names[j] != names[k]
        invariant forall name :: name in cronJobs && name !in rest ==> name in names
        decreases rest
      {
        var name :| name in rest;
        rest := rest - {name};
        var cj := cronJobs[name];
        var cm := if SpecName(name) in configMaps then Some(configMaps[SpecName(name)]) else None;
        entries := entries + [ManagedEntry(cj.app, cj.job, ListHash(hash, cj, cm), cj.index, "")];
        names := names + [name];
      }
      assert Listing(hash, State(), names, entries);
    }

    /** `Create`. */
    method Create(app: string, job: NormalizedJob) returns (ok: bool)
      modifies this
      ensures ok ==> ValidName(app) && ValidName(job.name) && AllTranslate(job)
                     && State() == Created(hash, old(State()), app, job)
      ensures !ok ==> exists n :: PartlyCreated(hash, old(State()), app, job, State(), n)
      ensures !(ValidName(app) && ValidName(job.name)) ==> State() == old(State())
    {
      hide TranslateK8s, ScheduleName, SpecName;
      assert PartlyCreated(hash, State(), app, job, State(), 0);
      if !ValidName(app) || !ValidName(job.name) {
        return false;
      }
      var i := 0;
      while i < |job.schedules|
        invariant 0 <= i <= |job.schedules| && forall k :: 0 <= k < i ==> TranslateK8s(job.schedules[k]).Some?
        invariant State() == CreateUpTo(hash, old(State()), app, job, i)
      {
        assert PartlyCreated(hash, old(State()), app, job, State(), i);
        var sched := TranslateK8s(job.schedules[i]);
        if sched.None? {
          return false;
        }
        var name := ScheduleName(app, job.name, i);
        var cm := BuildConfigMap(hash, app, job, i);
        var cj := BuildCronJob(hash, app, job, i, sched.value);
        ok := *;
        if !ok {
          return;
        }
        if SpecName(name) !in configMaps {
          configMaps := configMaps[SpecName(name) := cm];
        }
        assert PartlyCreated(hash, old(State()), app, job, State(), i);
        ok := *;
        if !ok {
          return;
        }
        if name !in cronJobs {
          cronJobs := cronJobs[name := cj];
        }
        i := i + 1;
      }
      ok := true;
    }

    /** `Delete`. */
    method Delete(app: string, job: string) returns (ok: bool)
      modifies this
      ensures ok ==> ValidName(app) && ValidName(job) && State() == Removed(old(State()), app, job)
      ensures !ok ==> PartlyRemoved(old(State()), app, job, State())
      ensures !(ValidName(app) && ValidName(job)) ==> State() == old(State())
    {
      ghost var before := State();
      PartlyRemovedIs(before, app, job, State(), {}, {});
      ok := *;
      if !ok || !ValidName(app) || !ValidName(job) {
        return false;
      }
      var cjs := JobCronJobs(State(), app, job);
      var rest := cjs;
      while rest != {}
        invariant rest <= cjs
        invariant State() == Store(before.cronJobs - (cjs - rest), before.configMaps)
        decreases rest
      {
        var name :| name in rest;
        ok := *;
        if !ok {
          PartlyRemovedIs(before, app, job, State(), cjs - rest, {});
          return;
        }
        cronJobs := cronJobs - {name};
        rest := rest - {name};
      }
      PartlyRemovedIs(before, app, job, State(), cjs, {});
      ok := *;
      if !ok {
        return;
      }
      var cms := JobConfigMaps(State(), app, job);
      rest := cms;
      while rest != {}
        invariant rest <= cms
        invariant State() == Store(before.cronJobs - cjs, before.configMaps - (cms - rest))
        decreases rest
      {
        var name :| name in rest;
        ok := *;
        if !ok {
          PartlyRemovedIs(before, app, job, State(), cjs, cms - rest);
          return;
        }
        configMaps := configMaps - {name};
        rest := rest - {name};
      }
      ok := true;
    }

    /** `Update`: a delete and then a create. */
    method Update(app: string, job: NormalizedJob) returns (ok: bool)
      modifies this
      ensures ok ==> ValidName(app) && ValidName(job.name) && AllTranslate(job)
                     && State() == Created(hash, Removed(old(State()), app, job.name), app, job)
      ensures !ok ==> PartlyRemoved(old(State()), app, job.name, State())
                      || exists n :: PartlyCreated(hash, Removed(old(State()), app, job.name), app, job, State(), n)
      ensures !(ValidName(app) && ValidName(job.name)) ==> State() == old(State())
    {
      hide PartlyRemoved, PartlyCreated, Created, Removed, AllTranslate;
      ok := Delete(app, job.name);
      if !ok {
        return;
      }
      ok := Create(app, job);
    }
  }

  lemma PartlyRemovedIs(st: Store, app: string, job: string, after: Store, cjs: set<string>, cms: set<string>)
    requires cjs <= JobCronJobs(st, app, job) && cms <= JobConfigMaps(st, app, job)
    requires cms != {} ==> cjs == JobCronJobs(st, app, job)
    requires after == Store(st.cronJobs - cjs, st.configMaps - cms)
    ensures PartlyRemoved(st, app, job, after)
  {}
}

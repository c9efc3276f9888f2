/** `reconcile/reconcile.go`: the plan that turns what a backend lists into what a manifest wants.  This module holds
    `Compute`, which looks at nothing but the listed entries. */
module Reconcile {
  import opened Wrappers
  import opened Sequences
  import opened Text
  import opened NormalizedManifests
  import opened OwnerLine
  import opened CrontabLines

  datatype Action = Create | Update | Delete | Skip

  datatype Op = Op(
    action: Action, app: string, jobName: string, job: NormalizedJob, oldHash: string, newHash: string,
        indices: seq<nat>)

  /** The zero `NormalizedJob`, which delete operations carry. */
  const NO_JOB := NormalizedJob("", [], "", NormalizedRequest("", "", map[], ""),
                                NormalizedPolicy("", "", 0, NormalizedRetries(0, 0, 0)), [])

  // ---- What is installed --------------------------------------------------------------------------

  /** The jobs of an app that the entries mention. */
  function EntryJobs(entries: seq<ManagedEntry>, app: string): set<string> {
    if entries == [] then {}
    else
      var e := entries[|entries| - 1];
      EntryJobs(entries[..|entries| - 1], app) + if e.app == app then {e.job} else {}
  }

  function Extend(hashes: seq<string>, n: nat): (r: seq<string>)
    ensures |r| == if |hashes| >= n then |hashes| else n
  {
    hashes + if |hashes| >= n then [] else seq(n - |hashes|, _ => "")
  }

  /** The hashes installed for a job, each at its own index; an index without entry holds the empty hash. */
  function HashesOf(entries: seq<ManagedEntry>, app: string, job: string): seq<string> {
    if entries == [] then []
    else
      var e := entries[|entries| - 1];
      var before := HashesOf(entries[..|entries| - 1], app, job);
      if e.app == app && e.job == job then Extend(before, e.index + 1)[e.index := e.hash] else before
  }

  function IndicesOf(entries: seq<ManagedEntry>, app: string, job: string): seq<nat> {
    if entries == [] then []
    else
      var e := entries[|entries| - 1];
      IndicesOf(entries[..|entries| - 1], app, job) + if e.app == app && e.job == job then [e.index] else []
  }

  // ---- What is wanted -----------------------------------------------------------------------------

  function HashesUpTo(hash: Hasher, job: NormalizedJob, n: nat): seq<string> {
    if n == 0 then [] else HashesUpTo(hash, job, n - 1) + [hash(job, n - 1)]
  }

  /** `computeDesiredHashes`. */
  function DesiredHashes(hash: Hasher, job: NormalizedJob): seq<string> { HashesUpTo(hash, job, |job.schedules|) }

  /** `indices`. */
  function UpTo(n: nat): seq<nat> { if n == 0 then [] else UpTo(n - 1) + [n - 1] }

  function ActionFor(hash: Hasher, entries: seq<ManagedEntry>, app: string, job: NormalizedJob): Action {
    if job.name !in EntryJobs(entries, app) then Create
    else if HashesOf(entries, app, job.name) == DesiredHashes(hash, job) then Skip
    else Update
  }

  function OpFor(hash: Hasher, entries: seq<ManagedEntry>, app: string, job: NormalizedJob): Op {
    var action := ActionFor(hash, entries, app, job);
    var desired := DesiredHashes(hash, job);
    Op(action, app, job.name, job,
       if action == Create then "" else Join(HashesOf(entries, app, job.name), ','),
       Join(desired, ','), UpTo(|desired|))
  }

  function DeleteOp(entries: seq<ManagedEntry>, app: string, job: string): Op {
    Op(Delete, app, job, NO_JOB, Join(HashesOf(entries, app, job), ','), "", IndicesOf(entries, app, job))
  }

  function DesiredOps(hash: Hasher, entries: seq<ManagedEntry>, app: string, jobs: seq<NormalizedJob>): (ops: seq<Op>)
    ensures |ops| == |jobs|
  {
    if jobs == [] then []
    else DesiredOps(hash, entries, app, jobs[..|jobs| - 1]) + [OpFor(hash, entries, app, jobs[|jobs| - 1])]
  }

  function Names(jobs: seq<NormalizedJob>): set<string> {
    if jobs == [] then {} else Names(jobs[..|jobs| - 1]) + {jobs[|jobs| - 1].name}
  }

  predicate Distinct(names: seq<string>) { forall i, j :: 0 <= i < j < |names| ==> names[i] != names[j] }

  function Elements(names: seq<string>): set<string> { set n | n in names }

  lemma ElementsEmpty(names: seq<string>)
    ensures Elements(names) == {} ==> names == []
  {
    assert names != [] ==> names[0] in Elements(names);
  }

  lemma {:induction false} Enumerate(names: set<string>) returns (order: seq<string>)
    ensures Distinct(order) && Elements(order) == names
    decreases |names|
  {
    if names == {} {
      order := [];
      assert Elements(order) == {};
    } else {
      var name :| name in names;
      order := Enumerate(names - {name});
      assert name !in Elements(order);
      assert Elements(order + [name]) == Elements(order) + {name};
      order := order + [name];
    }
  }

  /** `deletes` holds, once each and in some order, the installed jobs of the app that the manifest does not name. */
  predicate DeletesFor(entries: seq<ManagedEntry>, m: NormalizedManifest, deletes: seq<string>) {
    Distinct(deletes) && Elements(deletes) == EntryJobs(entries, m.app) - Names(m.jobs)
  }

  function DeleteOps(entries: seq<ManagedEntry>, app: string, names: seq<string>): (ops: seq<Op>)
    ensures |ops| == |names|
  {
    if names == [] then []
    else DeleteOps(entries, app, names[..|names| - 1]) + [DeleteOp(entries, app, names[|names| - 1])]
  }

  /** The plan for a given order of the deletes: the manifest's jobs in order, then the deletes. */
  function PlanOps(hash: Hasher, entries: seq<ManagedEntry>, m: NormalizedManifest, deletes: seq<string>): seq<Op> {
    DesiredOps(hash, entries, m.app, m.jobs) + DeleteOps(entries, m.app, deletes)
  }

  /** `Plan.IsNoop`. */
  predicate IsNoop(ops: seq<Op>) { forall i :: 0 <= i < |ops| ==> ops[i].action == Skip }

  // ---- What the installed hashes are, whatever the order of the entries ---------------------------

  ghost predicate HasIndex(entries: seq<ManagedEntry>, app: string, job: string, i: nat) {
    exists e :: e in entries && e.app == app && e.job == job && e.index == i
  }

  lemma HasIndexIs(entries: seq<ManagedEntry>, e: ManagedEntry)
    requires e in entries
    ensures HasIndex(entries, e.app, e.job, e.index)
  {}

  lemma HasIndexAppend(entries: seq<ManagedEntry>, last: ManagedEntry, app: string, job: string, i: nat)
    ensures HasIndex(entries + [last], app, job, i) <==>
            HasIndex(entries, app, job, i) || (last.app == app && last.job == job && last.index == i)
  {
    if HasIndex(entries, app, job, i) {
      var e :| e in entries && e.app == app && e.job == job && e.index == i;
      assert e in entries + [last];
    }
    assert last in entries + [last];
  }

  /** The hash of the last entry of the job with an index. */
  function LastHash(entries: seq<ManagedEntry>, app: string, job: string, i: nat): Option<string> {
    if entries == [] then None
    else
      var e := entries[|entries| - 1];
      if e.app == app && e.job == job && e.index == i then Some(e.hash)
      else LastHash(entries[..|entries| - 1], app, job, i)
  }

  /** Entry k is the job's, has the index, and no later entry does. */
  predicate LastAt(entries: seq<ManagedEntry>, app: string, job: string, i: nat, k: nat) {
    && k < |entries| && entries[k].app == app && entries[k].job == job && entries[k].index == i
    && forall l :: k < l < |entries| ==> !(entries[l].app == app && entries[l].job == job && entries[l].index == i)
  }

  lemma {:induction false} LastHashExactly(entries: seq<ManagedEntry>, app: string, job: string, i: nat, hash: string)
    ensures LastHash(entries, app, job, i) == Some(hash) <==>
            exists k: nat :: LastAt(entries, app, job, i, k) && entries[k].hash == hash
    ensures LastHash(entries, app, job, i).Some? <==> HasIndex(entries, app, job, i)
  {
    if entries != [] {
      var front, last := entries[..|entries| - 1], entries[|entries| - 1];
      LastHashExactly(front, app, job, i, hash);
      FrontAndLast(entries);
      HasIndexAppend(front, last, app, job, i);
      if last.app == app && last.job == job && last.index == i {
        assert LastAt(entries, app, job, i, |front|);
      } else {
        if k: nat :| LastAt(front, app, job, i, k) && front[k].hash == hash {
          assert LastAt(entries, app, job, i, k);
        }
        if k: nat :| LastAt(entries, app, job, i, k) && entries[k].hash == hash {
          assert LastAt(front, app, job, i, k);
        }
      }
    }
  }

  lemma LastHashAppend(entries: seq<ManagedEntry>, e: ManagedEntry, app: string, job: string, i: nat)
    ensures LastHash(entries + [e], app, job, i) ==
            if e.app == app && e.job == job && e.index == i then Some(e.hash) else LastHash(entries, app, job, i)
  {
    AppendFront(entries, e);
  }

  /** What `Compute` groups under a job are the hashes of the last entry for each index. */
  lemma {:induction false} HashesByIndex(entries: seq<ManagedEntry>, app: string, job: string)
    ensures var hashes := HashesOf(entries, app, job);
            && (forall i :: 0 <= i < |hashes| ==>
                 hashes[i] == var last := LastHash(entries, app, job, i); if last.Some? then last.value else "")
            && (forall i: nat :: LastHash(entries, app, job, i).Some? ==> i < |hashes|)
            && (hashes != [] ==> LastHash(entries, app, job, |hashes| - 1).Some?)
            && (job in EntryJobs(entries, app) <==> hashes != [])
  {
    if entries != [] {
      HashesByIndex(entries[..|entries| - 1], app, job);
    }
  }

  lemma {:induction false} HashesUpToAt(hash: Hasher, job: NormalizedJob, n: nat)
    ensures |HashesUpTo(hash, job, n)| == n
    ensures forall i :: 0 <= i < n ==> HashesUpTo(hash, job, n)[i] == hash(job, i) && hash(job, i) != ""
  {
    if n > 0 {
      HashesUpToAt(hash, job, n - 1);
      assert IsHash(hash(job, n - 1));
    }
  }

  /** For each schedule of the job the last entry has its hash, and there is no entry with another index. */
  ghost predicate InstalledIs(hash: Hasher, entries: seq<ManagedEntry>, app: string, job: NormalizedJob) {
    forall i: nat ::
      LastHash(entries, app, job.name, i) == if i < |job.schedules| then Some(hash(job, i)) else None
  }

  /** Of several entries for one schedule the last one counts: a job is skipped exactly when for each of its schedules
      the last entry has that schedule's hash and no entry has another index, and created exactly when it has none. */
  lemma ActionExactly(hash: Hasher, entries: seq<ManagedEntry>, app: string, job: NormalizedJob)
    ensures ActionFor(hash, entries, app, job) == Create <==>
            forall i: nat :: LastHash(entries, app, job.name, i).None?
    ensures ActionFor(hash, entries, app, job) == Skip <==>
            job.schedules != [] && InstalledIs(hash, entries, app, job)
  {
    hide LastHash, HashesOf, HashesUpTo;
    var n, hashes := |job.schedules|, HashesOf(entries, app, job.name);
    HashesByIndex(entries, app, job.name);
    HashesUpToAt(hash, job, n);
    if hashes == DesiredHashes(hash, job) {
      forall i: nat
        ensures LastHash(entries, app, job.name, i) == if i < n then Some(hash(job, i)) else None
      {
        if i < n { assert hashes[i] == hash(job, i); }
      }
    }
    if job.schedules != [] && InstalledIs(hash, entries, app, job) {
      assert LastHash(entries, app, job.name, n - 1).Some?;
      assert hashes == DesiredHashes(hash, job);
    }
  }

  /** The hash of each entry of the job depends on its index alone. */
  ghost predicate Agrees(entries: seq<ManagedEntry>, app: string, job: string, at: nat -> string) {
    forall e :: e in entries && e.app == app && e.job == job ==> e.hash == at(e.index)
  }

  /** Where it does, the order of the entries plays no part. */
  lemma LastHashAgrees(entries: seq<ManagedEntry>, app: string, job: string, at: nat -> string)
    requires Agrees(entries, app, job, at)
    ensures forall i: nat ::
              LastHash(entries, app, job, i) == if HasIndex(entries, app, job, i) then Some(at(i)) else None
  {
    hide LastHash, HasIndex;
    forall i: nat
      ensures LastHash(entries, app, job, i) == if HasIndex(entries, app, job, i) then Some(at(i)) else None
    {
      var last := LastHash(entries, app, job, i);
      LastHashExactly(entries, app, job, i, if last.Some? then last.value else "");
      if last.Some? {
        var k: nat :| LastAt(entries, app, job, i, k) && entries[k].hash == last.value;
        assert entries[k] in entries;
      }
    }
  }

  // ---- What the operations of a plan say, read against the listing and the manifest alone ---------

  predicate EntryIs(e: ManagedEntry, app: string, job: string) { e.app == app && e.job == job }

  /** The parts of an old hash: for each index the hash of the last entry that has it, or nothing; up to the largest. */
  ghost predicate OldParts(entries: seq<ManagedEntry>, app: string, job: string, parts: seq<string>) {
    && (forall i, k: nat :: 0 <= i < |parts| && LastAt(entries, app, job, i, k) ==> parts[i] == entries[k].hash)
    && (forall i :: 0 <= i < |parts| && !HasIndex(entries, app, job, i) ==> parts[i] == "")
    && (forall e :: e in entries && EntryIs(e, app, job) ==> e.index < |parts|)
    && (parts != [] ==> HasIndex(entries, app, job, |parts| - 1))
  }

  /** The parts of a new hash: one for each schedule of the job. */
  ghost predicate NewParts(hash: Hasher, job: NormalizedJob, parts: seq<string>) {
    |parts| == |job.schedules| && forall i :: 0 <= i < |parts| ==> parts[i] == hash(job, i)
  }

  /** A text of parts between commas.  It can be taken apart again when no part holds a comma. */
  ghost predicate InParts(text: string, parts: seq<string>) {
    && text == Join(parts, ',')
    && (parts != [] && (forall i :: 0 <= i < |parts| ==> ',' !in parts[i]) ==> Split(text, ',') == parts)
  }

  /** The indices of the entries of a job, in the order of the listing. */
  ghost predicate ListedIndices(entries: seq<ManagedEntry>, app: string, job: string, indices: seq<nat>) {
    exists places: seq<nat> :: PlacesOf(entries, app, job, indices, places)
  }

  ghost predicate PlacesOf(
    entries: seq<ManagedEntry>, app: string, job: string, indices: seq<nat>, places: seq<nat>)
  {
    && |places| == |indices|
    && (forall j :: 0 <= j < |places| ==>
         places[j] < |entries| && EntryIs(entries[places[j]], app, job) && entries[places[j]].index == indices[j])
    && (forall i, j :: 0 <= i < j < |places| ==> places[i] < places[j])
    && (forall k: nat :: k < |entries| && EntryIs(entries[k], app, job) ==> k in places)
  }

  ghost predicate Mentions(entries: seq<ManagedEntry>, app: string, job: string) {
    exists e :: e in entries && EntryIs(e, app, job)
  }

  /** The operation for a job of the manifest. */
  ghost predicate ReadsWanted(hash: Hasher, entries: seq<ManagedEntry>, app: string, job: NormalizedJob, op: Op) {
    && op.app == app && op.job == job && op.jobName == job.name
    && op.indices == seq(|job.schedules|, i => i)
    && (exists parts :: NewParts(hash, job, parts) && InParts(op.newHash, parts))
    && (job.schedules != [] ==>
         |Split(op.newHash, ',')| == |job.schedules|
         && forall i :: 0 <= i < |job.schedules| ==> Split(op.newHash, ',')[i] == hash(job, i))
    && match op.action
       case Create => !Mentions(entries, app, job.name) && op.oldHash == ""
       case Delete => false
       case _ =>
         && Mentions(entries, app, job.name)
         && exists installed, wanted ::
              && OldParts(entries, app, job.name, installed) && InParts(op.oldHash, installed)
              && NewParts(hash, job, wanted)
              && (op.action == Skip <==> installed == wanted) && (op.action == Skip ==> op.oldHash == op.newHash)
  }

  /** The operation for a job that is no longer wanted. */
  ghost predicate ReadsDelete(entries: seq<ManagedEntry>, m: NormalizedManifest, op: Op) {
    && op.action == Delete && op.app == m.app && op.job == NO_JOB && op.newHash == ""
    && Mentions(entries, m.app, op.jobName)
    && (forall i :: 0 <= i < |m.jobs| ==> m.jobs[i].name != op.jobName)
    && ListedIndices(entries, m.app, op.jobName, op.indices)
    && exists installed :: OldParts(entries, m.app, op.jobName, installed) && InParts(op.oldHash, installed)
  }

  /** A whole plan: one operation for each job of the manifest, in its order, then one for each unwanted job. */
  ghost predicate Reads(hash: Hasher, entries: seq<ManagedEntry>, m: NormalizedManifest, ops: seq<Op>) {
    var n := |m.jobs|;
    && |ops| >= n
    && (forall i :: 0 <= i < n ==> ReadsWanted(hash, entries, m.app, m.jobs[i], ops[i]))
    && (forall i :: n <= i < |ops| ==> ReadsDelete(entries, m, ops[i]))
    && (forall i, j :: n <= i < j < |ops| ==> ops[i].jobName != ops[j].jobName)
    && (forall e :: e in entries && e.app == m.app && (forall i :: 0 <= i < n ==> m.jobs[i].name != e.job) ==>
         exists i :: n <= i < |ops| && ops[i].jobName == e.job)
  }

  // ---- Texts of parts -----------------------------------------------------------------------------

  lemma {:induction false} SplitJoined(parts: seq<string>)
    requires parts != [] && forall i :: 0 <= i < |parts| ==> ',' !in parts[i]
    ensures Split(Join(parts, ','), ',') == parts
  {
    if |parts| == 1 {
      SplitAtom(parts[0], ',');
    } else {
      SplitJoined(parts[1..]);
      SplitCons(parts[0], ',', Join(parts[1..], ','));
    }
  }

  lemma JoinedInParts(parts: seq<string>)
    ensures InParts(Join(parts, ','), parts)
  {
    if parts != [] && forall i :: 0 <= i < |parts| ==> ',' !in parts[i] {
      SplitJoined(parts);
    }
  }

  // ---- What the listing holds ---------------------------------------------------------------------

  lemma {:induction false} MentionsExactly(entries: seq<ManagedEntry>, app: string, job: string)
    ensures job in EntryJobs(entries, app) <==> Mentions(entries, app, job)
  {
    if entries != [] {
      var front, last := entries[..|entries| - 1], entries[|entries| - 1];
      MentionsExactly(front, app, job);
      FrontAndLast(entries);
      if e :| e in front && EntryIs(e, app, job) {
        assert e in entries;
      }
      if EntryIs(last, app, job) {
        assert last in entries;
      }
      if e :| e in entries && EntryIs(e, app, job) {
        assert e in front || e == last;
      }
    }
  }

  lemma HashesAreOldParts(entries: seq<ManagedEntry>, app: string, job: string)
    ensures OldParts(entries, app, job, HashesOf(entries, app, job))
  {
    hide HashesOf, LastHash, HasIndex, EntryJobs;
    var parts := HashesOf(entries, app, job);
    HashesByIndex(entries, app, job);
    forall i, k: nat | 0 <= i < |parts| && LastAt(entries, app, job, i, k)
      ensures parts[i] == entries[k].hash
    {
      LastHashAt(entries, app, job, i, k);
    }
    forall i: nat ensures HasIndex(entries, app, job, i) <==> LastHash(entries, app, job, i).Some? {
      LastHashExactly(entries, app, job, i, "");
    }
    forall i | 0 <= i < |parts| && !HasIndex(entries, app, job, i) ensures parts[i] == "" {
      assert LastHash(entries, app, job, i).None?;
    }
    forall e | e in entries && EntryIs(e, app, job) ensures e.index < |parts| {
      HasIndexIs(entries, e);
      assert LastHash(entries, app, job, e.index).Some?;
    }
    if parts != [] {
      assert LastHash(entries, app, job, |parts| - 1).Some?;
    }
  }

  lemma LastHashAt(entries: seq<ManagedEntry>, app: string, job: string, i: nat, k: nat)
    requires LastAt(entries, app, job, i, k)
    ensures LastHash(entries, app, job, i) == Some(entries[k].hash)
  {
    hide LastHash;
    LastHashExactly(entries, app, job, i, entries[k].hash);
  }

  lemma PlacesKept(entries: seq<ManagedEntry>, app: string, job: string, indices: seq<nat>, places: seq<nat>)
    requires entries != [] && PlacesOf(entries[..|entries| - 1], app, job, indices, places)
    requires !EntryIs(entries[|entries| - 1], app, job)
    ensures PlacesOf(entries, app, job, indices, places)
  {
    hide EntryIs;
    assert forall k :: 0 <= k < |entries| - 1 ==> entries[..|entries| - 1][k] == entries[k];
  }

  lemma PlacesNext(entries: seq<ManagedEntry>, app: string, job: string, indices: seq<nat>, places: seq<nat>)
    requires entries != [] && PlacesOf(entries[..|entries| - 1], app, job, indices, places)
    requires EntryIs(entries[|entries| - 1], app, job)
    ensures PlacesOf(entries, app, job, indices + [entries[|entries| - 1].index], places + [|entries| - 1])
  {
    hide EntryIs;
    var n := |entries| - 1;
    assert forall k :: 0 <= k < n ==> entries[..n][k] == entries[k];
    assert forall k :: k in places + [n] <==> k in places || k == n;
  }

  lemma {:induction false} IndicesAreListed(entries: seq<ManagedEntry>, app: string, job: string)
    ensures ListedIndices(entries, app, job, IndicesOf(entries, app, job))
  {
    hide PlacesOf;
    if entries == [] {
      assert PlacesOf(entries, app, job, [], []) by { NoPlaces(app, job); }
    } else {
      var n := |entries| - 1;
      IndicesAreListed(entries[..n], app, job);
      var before := IndicesOf(entries[..n], app, job);
      var places: seq<nat> :| PlacesOf(entries[..n], app, job, before, places);
      if EntryIs(entries[n], app, job) {
        PlacesNext(entries, app, job, before, places);
      } else {
        ConcatEmpty(before);
        PlacesKept(entries, app, job, before, places);
      }
    }
  }

  lemma NoPlaces(app: string, job: string)
    ensures PlacesOf([], app, job, [], [])
  {}

  lemma {:induction false} UpToIs(n: nat)
    ensures UpTo(n) == seq(n, i => i)
  {
    if n > 0 {
      UpToIs(n - 1);
    }
  }

  lemma DesiredAreNewParts(hash: Hasher, job: NormalizedJob)
    ensures NewParts(hash, job, DesiredHashes(hash, job))
    ensures forall i :: 0 <= i < |job.schedules| ==> ',' !in DesiredHashes(hash, job)[i]
  {
    hide HashesUpTo;
    HashesUpToAt(hash, job, |job.schedules|);
    forall i | 0 <= i < |job.schedules| ensures ',' !in hash(job, i) {
      assert IsHash(hash(job, i));
    }
  }

  // ---- The operations -----------------------------------------------------------------------------

  lemma OpReads(hash: Hasher, entries: seq<ManagedEntry>, app: string, job: NormalizedJob)
    ensures ReadsWanted(hash, entries, app, job, OpFor(hash, entries, app, job))
  {
    hide HashesOf, HashesUpTo, EntryJobs, OldParts, NewParts, InParts, Join, Split, Mentions;
    var installed, wanted := HashesOf(entries, app, job.name), DesiredHashes(hash, job);
    MentionsExactly(entries, app, job.name);
    HashesAreOldParts(entries, app, job.name);
    DesiredAreNewParts(hash, job);
    WantedLength(hash, job, wanted);
    JoinedInParts(installed);
    JoinedInParts(wanted);
    UpToIs(|wanted|);
    if job.schedules != [] {
      SplitJoined(wanted);
    }
  }

  lemma WantedLength(hash: Hasher, job: NormalizedJob, parts: seq<string>)
    requires NewParts(hash, job, parts)
    ensures |parts| == |job.schedules| && forall i :: 0 <= i < |parts| ==> parts[i] == hash(job, i)
  {}

  lemma DeleteReads(entries: seq<ManagedEntry>, m: NormalizedManifest, deletes: seq<string>, name: string)
    requires DeletesFor(entries, m, deletes) && name in deletes
    ensures ReadsDelete(entries, m, DeleteOp(entries, m.app, name))
  {
    hide HashesOf, IndicesOf, EntryJobs, OldParts, InParts, Join, Mentions, ListedIndices, Names;
    assert name in Elements(deletes);
    MentionsExactly(entries, m.app, name);
    HashesAreOldParts(entries, m.app, name);
    JoinedInParts(HashesOf(entries, m.app, name));
    IndicesAreListed(entries, m.app, name);
    forall i | 0 <= i < |m.jobs| ensures m.jobs[i].name != name {
      NameListed(m.jobs, i);
    }
  }

  lemma {:induction false} NameListed(jobs: seq<NormalizedJob>, i: nat)
    requires i < |jobs|
    ensures jobs[i].name in Names(jobs)
  {
    if i < |jobs| - 1 {
      NameListed(jobs[..|jobs| - 1], i);
    }
  }

  lemma {:induction false} NamedBy(jobs: seq<NormalizedJob>, name: string)
    requires name in Names(jobs)
    ensures exists i :: 0 <= i < |jobs| && jobs[i].name == name
  {
    var n := |jobs| - 1;
    if jobs[n].name != name {
      NamedBy(jobs[..n], name);
      var i :| 0 <= i < n && jobs[..n][i].name == name;
      assert jobs[i].name == name;
    }
  }

  lemma {:induction false} DesiredOpAt(
    hash: Hasher, entries: seq<ManagedEntry>, app: string, jobs: seq<NormalizedJob>, i: nat)
    requires i < |jobs|
    ensures DesiredOps(hash, entries, app, jobs)[i] == OpFor(hash, entries, app, jobs[i])
  {
    hide OpFor;
    if i < |jobs| - 1 {
      DesiredOpAt(hash, entries, app, jobs[..|jobs| - 1], i);
    }
  }

  lemma {:induction false} DeleteOpAt(entries: seq<ManagedEntry>, app: string, names: seq<string>, i: nat)
    requires i < |names|
    ensures DeleteOps(entries, app, names)[i] == DeleteOp(entries, app, names[i])
  {
    hide DeleteOp;
    if i < |names| - 1 {
      DeleteOpAt(entries, app, names[..|names| - 1], i);
    }
  }

  /** Every plan that `Compute` returns reads so. */
  lemma PlanReads(hash: Hasher, entries: seq<ManagedEntry>, m: NormalizedManifest, deletes: seq<string>, ops: seq<Op>)
    requires DeletesFor(entries, m, deletes) && ops == PlanOps(hash, entries, m, deletes)
    ensures Reads(hash, entries, m, ops)
  {
    hide DesiredOps, DeleteOps, OpFor, HashesOf, IndicesOf, EntryJobs, ReadsWanted, ReadsDelete, Names, Join;
    var n := |m.jobs|;
    forall i | 0 <= i < n ensures ReadsWanted(hash, entries, m.app, m.jobs[i], ops[i]) {
      DesiredOpAt(hash, entries, m.app, m.jobs, i);
      OpReads(hash, entries, m.app, m.jobs[i]);
    }
    forall i | n <= i < |ops|
      ensures ReadsDelete(entries, m, ops[i]) && ops[i].jobName == deletes[i - n]
    {
      DeleteOpAt(entries, m.app, deletes, i - n);
      DeleteReads(entries, m, deletes, deletes[i - n]);
      DeleteNames(entries, m.app, deletes[i - n]);
    }
    forall e | e in entries && e.app == m.app && forall i :: 0 <= i < n ==> m.jobs[i].name != e.job
      ensures exists i :: n <= i < |ops| && ops[i].jobName == e.job
    {
      assert Mentions(entries, m.app, e.job);
      MentionsExactly(entries, m.app, e.job);
      if e.job in Names(m.jobs) {
        NamedBy(m.jobs, e.job);
      }
      assert e.job in Elements(deletes);
      var k :| 0 <= k < |deletes| && deletes[k] == e.job;
      assert ops[n + k].jobName == e.job;
    }
  }

  lemma DeleteNames(entries: seq<ManagedEntry>, app: string, name: string)
    ensures DeleteOp(entries, app, name).jobName == name
  {}

  // ---- Compute ------------------------------------------------------------------------------------

  datatype CurrentJob = CurrentJob(hashes: seq<string>, indices: seq<nat>)

  type CurrentBy = map<(string, string), CurrentJob>

  /** The map groups the entries by app and job. */
  ghost predicate Groups(currentBy: CurrentBy, entries: seq<ManagedEntry>) {
    && (forall app, job :: (app, job) in currentBy <==> job in EntryJobs(entries, app))
    && (forall app, job :: (app, job) in currentBy ==>
         currentBy[(app, job)] == CurrentJob(HashesOf(entries, app, job), IndicesOf(entries, app, job)))
  }

  lemma {:induction false} NotMentioned(entries: seq<ManagedEntry>, app: string, job: string)
    requires job !in EntryJobs(entries, app)
    ensures HashesOf(entries, app, job) == [] && IndicesOf(entries, app, job) == []
  {
    if entries != [] {
      NotMentioned(entries[..|entries| - 1], app, job);
    }
  }

  /** The inner loop: grow the list until the index exists, then set it. */
  method PlaceHash(hashes: seq<string>, index: nat, hash: string) returns (placed: seq<string>)
    ensures placed == Extend(hashes, index + 1)[index := hash]
  {
    placed := hashes;
    while |placed| <= index
      invariant |hashes| <= |placed|
      invariant |placed| <= index + 1 || placed == hashes
      invariant placed == Extend(hashes, |placed|)
      decreases index + 1 - |placed|
    {
      placed := placed + [""];
    }
    placed := placed[index := hash];
  }

  function Entered(currentBy: CurrentBy, e: ManagedEntry): CurrentBy {
    var key := (e.app, e.job);
    var cj := if key in currentBy then currentBy[key] else CurrentJob([], []);
    currentBy[key := CurrentJob(Extend(cj.hashes, e.index + 1)[e.index := e.hash], cj.indices + [e.index])]
  }

  lemma GroupsEntered(currentBy: CurrentBy, entries: seq<ManagedEntry>, e: ManagedEntry)
    requires Groups(currentBy, entries)
    ensures Groups(Entered(currentBy, e), entries + [e])
  {
    AppendFront(entries, e);
    if e.job !in EntryJobs(entries, e.app) {
      NotMentioned(entries, e.app, e.job);
    }
  }

  method GroupEntries(entries: seq<ManagedEntry>) returns (currentBy: CurrentBy)
    ensures Groups(currentBy, entries)
  {
    currentBy := map[];
    var i := 0;
    while i < |entries|
      invariant 0 <= i <= |entries|
      invariant Groups(currentBy, entries[..i])
    {
      var e := entries[i];
      var key := (e.app, e.job);
      var cj := if key in currentBy then currentBy[key] else CurrentJob([], []);
      GroupsEntered(currentBy, entries[..i], e);
      var hashes := PlaceHash(cj.hashes, e.index, e.hash);
      currentBy := currentBy[key := CurrentJob(hashes, cj.indices + [e.index])];
      assert entries[..i + 1] == entries[..i] + [e];
      i := i + 1;
    }
    assert entries[..i] == entries;
  }

  lemma NamesAppend(jobs: seq<NormalizedJob>, n: nat)
    requires n < |jobs|
    ensures Names(jobs[..n + 1]) == Names(jobs[..n]) + {jobs[n].name}
  {
    assert jobs[..n + 1][..n] == jobs[..n];
  }

  /** The last loop of `Compute`: a delete for each installed job of the app that is not wanted.  The map is iterated in
      an order nobody fixes. */
  method AppendDeletes(currentBy: CurrentBy, desiredKeys: set<(string, string)>, app: string, before: seq<Op>,
      ghost entries: seq<ManagedEntry>)
    returns (ops: seq<Op>, ghost deletes: seq<string>)
    requires Groups(currentBy, entries)
    ensures ops == before + DeleteOps(entries, app, deletes)
    ensures Distinct(deletes)
    ensures forall name :: name in deletes <==> (app, name) in currentBy && (app, name) !in desiredKeys
  {
    hide HashesOf, IndicesOf, EntryJobs;
    ops, deletes := before, [];
    var rest := currentBy.Keys;
    while rest != {}
      invariant rest <= currentBy.Keys
      invariant Distinct(deletes)
      invariant forall name :: name in deletes <==>
                  (app, name) in currentBy && (app, name) !in rest && (app, name) !in desiredKeys
      invariant ops == before + DeleteOps(entries, app, deletes)
      decreases rest
    {
      var key :| key in rest;
      rest := rest - {key};
      if key !in desiredKeys && key.0 == app {
        var cj := currentBy[key];
        ops := ops + [Op(Delete, key.0, key.1, NO_JOB, Join(cj.hashes, ','), "", cj.indices)];
        AppendFront(deletes, key.1);
        ConcatAssociative(before, DeleteOps(entries, app, deletes), [DeleteOp(entries, app, key.1)]);
        deletes := deletes + [key.1];
      }
    }
  }

  /** `Compute`, after its call of `backend.List`. */
  method Compute(hash: Hasher, m: NormalizedManifest, entries: seq<ManagedEntry>)
    returns (ops: seq<Op>, ghost deletes: seq<string>)
    ensures DeletesFor(entries, m, deletes)
    ensures ops == PlanOps(hash, entries, m, deletes)
    ensures Reads(hash, entries, m, ops)
  {
    hide HashesOf, IndicesOf, HashesUpTo, UpTo, Join, Reads;
    var currentBy := GroupEntries(entries);
    ops := [];
    var desiredKeys: set<(string, string)> := {};
    var i := 0;
    while i < |m.jobs|
      invariant 0 <= i <= |m.jobs|
      invariant ops == DesiredOps(hash, entries, m.app, m.jobs[..i])
      invariant forall app, job :: (app, job) in desiredKeys <==> app == m.app && job in Names(m.jobs[..i])
    {
      var job := m.jobs[i];
      var key := (m.app, job.name);
      desiredKeys := desiredKeys + {key};
      var desired := DesiredHashes(hash, job);
      if key !in currentBy {
        ops := ops + [Op(Create, m.app, job.name, job, "", Join(desired, ','), UpTo(|desired|))];
      } else {
        var cj := currentBy[key];
        var action := if cj.hashes == desired then Skip else Update;
        ops := ops + [Op(action, m.app, job.name, job, Join(cj.hashes, ','), Join(desired, ','), UpTo(|desired|))];
      }
      TakeNext(m.jobs, i);
      NamesAppend(m.jobs, i);
      i := i + 1;
    }
    TakeAll(m.jobs);
    ops, deletes := AppendDeletes(currentBy, desiredKeys, m.app, ops, entries);
    PlanReads(hash, entries, m, deletes, ops);
  }
}

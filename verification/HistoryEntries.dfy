/** What the history reports, record by record: which records count, which of them are stamped into an entry, and where
    each field of the entry comes from. */
module HistoryEntries {
  import opened Wrappers
  import opened Sequences
  import opened Shim
  import opened History

  // ---- The records --------------------------------------------------------------------------------

  /** The last word about a run. */
  predicate Final(msg: string) {
    msg in {"trigger: success", "trigger: app rejected", "trigger: retries exhausted", "trigger: lock contended",
            "trigger: panic"}
  }

  /** A first word, which a last one overrides. */
  predicate Early(msg: string) { msg in {"trigger: attempt failed", "trigger: server error"} }

  function Outcome(msg: string): string {
    if msg == "trigger: success" then "ok" else if msg == "trigger: lock contended" then "lock-contended" else "failed"
  }

  /** A record of the run that names neither another app nor another job than the one asked for. */
  predicate Counts(q: Query, rec: Record, id: string) {
    && rec.runID == id != "" && (Final(rec.msg) || Early(rec.msg))
    && !(q.app != "" && rec.app != "" && rec.app != q.app) && !(q.job != "" && rec.job != "" && rec.job != q.job)
  }

  /** It is stamped into the entry: it is the first that counts, or a last word. */
  predicate Stamped(q: Query, records: seq<Record>, id: string, k: nat) {
    && k < |records| && Counts(q, records[k], id)
    && (Final(records[k].msg) || forall l :: 0 <= l < k ==> !Counts(q, records[l], id))
  }

  /** All stamped records, from first to last. */
  ghost predicate StampedAt(q: Query, records: seq<Record>, id: string, places: seq<nat>) {
    && (forall i, j :: 0 <= i < j < |places| ==> places[i] < places[j])
    && forall k: nat :: k in places <==> Stamped(q, records, id, k)
  }

  /** The earliest of the times, but for those up to the last that is zero; zero when that is the last of all. */
  ghost predicate Earliest(times: seq<nat>, started: nat) {
    exists z :: 0 <= z <= |times| && AllSince(times, z) && EarliestSince(times, z, started)
  }

  /** The times from place z on, behind the last that is zero. */
  predicate AllSince(times: seq<nat>, z: nat) {
    z <= |times| && (z > 0 ==> times[z - 1] == 0) && forall i :: z <= i < |times| ==> times[i] > 0
  }

  predicate Inside(places: seq<nat>, n: nat) { forall i :: 0 <= i < |places| ==> places[i] < n }

  predicate EarliestSince(times: seq<nat>, z: nat, started: nat) {
    if z >= |times| then started == 0
    else started in times[z..] && forall i :: z <= i < |times| ==> started <= times[i]
  }

  function Times(records: seq<Record>, places: seq<nat>): (times: seq<nat>)
    requires Inside(places, |records|)
    ensures |times| == |places| && forall i :: 0 <= i < |times| ==> times[i] == records[places[i]].time
  {
    seq(|places|, i requires 0 <= i < |places| => records[places[i]].time)
  }

  /** The entry of a run: the query's own app, job and source; the start from all stamped records, the rest from the
      last of them. */
  ghost predicate EntryFrom(q: Query, records: seq<Record>, places: seq<nat>, e: Entry) {
    && places != [] && Inside(places, |records|)
    && var last := records[places[|places| - 1]];
       && e.runID == last.runID && e.app == q.app && e.job == q.job && e.source == q.source
       && Earliest(Times(records, places), e.startedAt)
       && e.status == Outcome(last.msg) && e.attempt == last.attempt && e.finishedAt == last.time
  }

  ghost predicate IsEntry(q: Query, records: seq<Record>, e: Entry) {
    exists places :: StampedAt(q, records, e.runID, places) && EntryFrom(q, records, places, e)
  }

  // ---- Why ----------------------------------------------------------------------------------------

  lemma CountsExactly(q: Query, rec: Record, id: string)
    ensures Counts(q, rec, id) <==> Relevant(q, rec) && rec.runID == id
    ensures Counts(q, rec, id) ==> Classify(rec.msg) == (Outcome(rec.msg), Final(rec.msg))
  {}

  lemma {:induction false} KnownExactly(q: Query, records: seq<Record>, id: string)
    ensures EntryFor(q, records, id).Some? <==> exists k :: 0 <= k < |records| && Counts(q, records[k], id)
  {
    hide Counts, Relevant, Stamp;
    if records != [] {
      var n := |records| - 1;
      KnownExactly(q, records[..n], id);
      CountsExactly(q, records[n], id);
      assert forall k :: 0 <= k < n ==> records[..n][k] == records[k];
    }
  }

  lemma StampedFront(q: Query, records: seq<Record>, id: string, places: seq<nat>)
    requires records != [] && StampedAt(q, records[..|records| - 1], id, places)
    ensures var n := |records| - 1;
            StampedAt(q, records, id, if Stamped(q, records, id, n) then places + [n] else places)
    ensures Inside(places, |records| - 1)
  {
    hide Counts, Final;
    var n := |records| - 1;
    assert forall k :: 0 <= k < n ==> records[..n][k] == records[k];
    forall i | 0 <= i < |places| ensures places[i] < n { assert places[i] in places; }
    var here := Stamped(q, records, id, n);
    forall k: nat ensures Stamped(q, records, id, k) <==> Stamped(q, records[..n], id, k) || (k == n && here) {}
    assert forall k :: k in places + [n] <==> k in places || k == n;
  }

  lemma EarliestNext(times: seq<nat>, started: nat, time: nat)
    requires times != [] && Earliest(times, started)
    ensures Earliest(times + [time], if started == 0 || time < started then time else started)
  {
    var z :| 0 <= z <= |times| && AllSince(times, z) && EarliestSince(times, z, started);
    var more := times + [time];
    if time == 0 {
      assert AllSince(more, |more|);
    } else {
      assert AllSince(more, z);
      assert more[z..] == times[z..] + [time];
    }
  }

  lemma EarliestFirst(time: nat)
    ensures Earliest([time], time)
  {
    assert AllSince([time], if time == 0 then 1 else 0);
    assert [time][0..] == [time];
  }

  /** What the fold makes of the records so far. */
  ghost predicate FoldsTo(q: Query, records: seq<Record>, id: string, places: seq<nat>) {
    && StampedAt(q, records, id, places)
    && match EntryFor(q, records, id)
       case None => places == []
       case Some(e) => e.runID == id && EntryFrom(q, records, places, e)
  }

  lemma EntryForNext(q: Query, records: seq<Record>, id: string)
    requires records != []
    ensures var n := |records| - 1;
            var known := EntryFor(q, records[..n], id);
            EntryFor(q, records, id) ==
            if Stamped(q, records, id, n) then Some(Stamp(q, known, records[n])) else known
  {
    hide Counts, Final, Relevant, Outcome, Classify, Stamp;
    var n := |records| - 1;
    KnownExactly(q, records[..n], id);
    CountsExactly(q, records[n], id);
    assert forall k :: 0 <= k < n ==> records[..n][k] == records[k];
  }

  lemma StampIs(q: Query, known: Option<Entry>, records: seq<Record>, id: string, n: nat)
    requires Stamped(q, records, id, n)
    ensures var rec, e := records[n], Stamp(q, known, records[n]);
            && rec.runID == id && e.status == Outcome(rec.msg) && e.attempt == rec.attempt && e.finishedAt == rec.time
            && e.runID == rec.runID && e.app == q.app && e.job == q.job && e.source == q.source
            && e.startedAt == if known.None? || known.value.startedAt == 0 || rec.time < known.value.startedAt
                              then rec.time else known.value.startedAt
  {
    CountsExactly(q, records[n], id);
  }

  lemma FoldsNext(q: Query, records: seq<Record>, id: string, places: seq<nat>)
    requires records != [] && FoldsTo(q, records[..|records| - 1], id, places)
    ensures var n := |records| - 1;
            FoldsTo(q, records, id, if Stamped(q, records, id, n) then places + [n] else places)
  {
    hide Stamped, Outcome, StampedAt, Earliest, Stamp, EntryFor;
    var n := |records| - 1;
    var rec, known := records[n], EntryFor(q, records[..n], id);
    EntryForNext(q, records, id);
    StampedFront(q, records, id, places);
    if Stamped(q, records, id, n) {
      StampIs(q, known, records, id, n);
      assert Times(records, places + [n]) == Times(records[..n], places) + [rec.time];
      if known.None? {
        EarliestFirst(rec.time);
        assert Times(records, places + [n]) == [rec.time];
      } else {
        EarliestNext(Times(records[..n], places), known.value.startedAt, rec.time);
      }
    } else if known.Some? {
      assert Times(records, places) == Times(records[..n], places);
    }
  }

  lemma {:induction false} FoldIs(q: Query, records: seq<Record>, id: string) returns (places: seq<nat>)
    ensures FoldsTo(q, records, id, places)
  {
    if records == [] {
      places := [];
    } else {
      hide FoldsTo, Stamped;
      var n := |records| - 1;
      places := FoldIs(q, records[..n], id);
      FoldsNext(q, records, id, places);
      places := if Stamped(q, records, id, n) then places + [n] else places;
    }
  }

  lemma HasFirst(s: seq<nat>)
    ensures s != [] ==> s[0] in s
  {}

  lemma {:induction false} AscendingUnique(a: seq<nat>, b: seq<nat>)
    requires forall i, j :: 0 <= i < j < |a| ==> a[i] < a[j]
    requires forall i, j :: 0 <= i < j < |b| ==> b[i] < b[j]
    requires forall k: nat :: k in a <==> k in b
    ensures a == b
  {
    if a != [] {
      assert a[|a| - 1] in b;
      var x, y := a[|a| - 1], b[|b| - 1];
      assert y in a;
      assert x == y;
      var front, other := a[..|a| - 1], b[..|b| - 1];
      FrontAndLast(a);
      FrontAndLast(b);
      forall k: nat ensures k in front <==> k in other {
        assert k in front <==> k in a && k != x;
        assert k in other <==> k in b && k != x;
      }
      AscendingUnique(front, other);
    } else {
      HasFirst(b);
    }
  }

  lemma EarliestUnique(times: seq<nat>, s: nat, t: nat)
    requires Earliest(times, s) && Earliest(times, t)
    ensures s == t
  {}

  /** The history reports exactly the entries of the runs, with the status asked for. */
  lemma ReportedExactly(q: Query, records: seq<Record>, e: Entry)
    ensures e in Folded(q, records) <==> IsEntry(q, records, e) && (q.status == "" || e.status == q.status)
  {
    hide EntryFor, Folded, Stamped, Earliest;
    FoldedExactly(q, records, e);
    var places := FoldIs(q, records, e.runID);
    if IsEntry(q, records, e) {
      var others :| StampedAt(q, records, e.runID, others) && EntryFrom(q, records, others, e);
      AscendingUnique(places, others);
      EarliestUnique(Times(records, places), e.startedAt, EntryFor(q, records, e.runID).value.startedAt);
    }
  }

  // ---- What changes nothing -----------------------------------------------------------------------

  lemma {:induction false} OrderSkips(q: Query, a: seq<Record>, rec: Record, b: seq<Record>)
    requires !Relevant(q, rec)
    ensures Order(q, a + [rec] + b) == Order(q, a + b)
  {
    hide Relevant;
    if b == [] {
      ConcatEmpty(a + [rec]);
      ConcatEmpty(a);
      AppendFront(a, rec);
      ConcatEmpty(Order(q, a));
    } else {
      OrderSkips(q, a, rec, b[..|b| - 1]);
      ConcatFront(a + [rec], b);
      ConcatFront(a, b);
    }
  }

  lemma EntrySkips(q: Query, a: seq<Record>, rec: Record, b: seq<Record>, id: string)
    requires !Relevant(q, rec)
    ensures EntryFor(q, a + [rec] + b, id) == EntryFor(q, a + b, id)
  {
    hide AbsorbAll, Relevant;
    AbsorbConcat(q, None, a + [rec], b, id);
    AbsorbConcat(q, None, a, [rec], id);
    AbsorbConcat(q, None, a, b, id);
    AbsorbOne(q, AbsorbAll(q, None, a, id), rec, id);
  }

  lemma {:induction false} ReportSkips(q: Query, a: seq<Record>, rec: Record, b: seq<Record>, ids: seq<string>)
    requires !Relevant(q, rec)
    ensures Report(q, a + [rec] + b, ids) == Report(q, a + b, ids)
  {
    hide EntryFor, Relevant;
    if ids != [] {
      ReportSkips(q, a, rec, b, ids[..|ids| - 1]);
      EntrySkips(q, a, rec, b, ids[|ids| - 1]);
    }
  }

  /** A record of another app or another job, without run id, or with any other text can be left out. */
  lemma OthersChangeNothing(q: Query, a: seq<Record>, rec: Record, b: seq<Record>)
    requires || (q.app != "" && rec.app != "" && rec.app != q.app) || (q.job != "" && rec.job != "" && rec.job != q.job)
             || rec.runID == "" || !(Final(rec.msg) || Early(rec.msg))
    ensures Folded(q, a + [rec] + b) == Folded(q, a + b)
  {
    hide Order, Report;
    CountsExactly(q, rec, rec.runID);
    OrderSkips(q, a, rec, b);
    ReportSkips(q, a, rec, b, Order(q, a + b));
  }

  lemma {:induction false} StatusFilters(q: Query, records: seq<Record>, ids: seq<string>)
    ensures Report(q, records, ids) == WithStatus(Report(q.(status := ""), records, ids), q.status)
  {
    hide EntryFor;
    if ids != [] {
      var n, any := |ids| - 1, q.(status := "");
      StatusFilters(q, records, ids[..n]);
      EntryForAny(q, records, ids[n]);
      var e := EntryFor(q, records, ids[n]);
      if e.Some? {
        AppendFront(Report(any, records, ids[..n]), e.value);
      } else {
        ConcatEmpty(Report(any, records, ids[..n]));
        ConcatEmpty(Report(q, records, ids[..n]));
      }
    }
  }

  function WithStatus(entries: seq<Entry>, status: string): seq<Entry> {
    if entries == [] then []
    else
      var n := |entries| - 1;
      WithStatus(entries[..n], status) + if status == "" || entries[n].status == status then [entries[n]] else []
  }

  lemma {:induction false} EntryForAny(q: Query, records: seq<Record>, id: string)
    ensures EntryFor(q, records, id) == EntryFor(q.(status := ""), records, id)
  {
    hide Classify;
    if records != [] {
      EntryForAny(q, records[..|records| - 1], id);
    }
  }

  lemma {:induction false} OrderForAny(q: Query, records: seq<Record>)
    ensures Order(q, records) == Order(q.(status := ""), records)
  {
    hide Classify;
    if records != [] {
      OrderForAny(q, records[..|records| - 1]);
    }
  }

  /** A query for a status reports, in the same order, those entries of the query without one that have it. */
  lemma FoldedByStatus(q: Query, records: seq<Record>)
    ensures Folded(q, records) == WithStatus(Folded(q.(status := ""), records), q.status)
  {
    hide Order, Report;
    OrderForAny(q, records);
    StatusFilters(q, records, Order(q, records));
  }
}

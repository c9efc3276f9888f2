/** The crontab file: its lines, the two-line owned blocks among them, and what `stripOwnedFor` and `List` make of
    both (`crontab/parse.go`, `crontab/client.go`, `crontab/backend.go`). */
module CrontabLines {
  import opened Wrappers
  import opened Sequences
  import opened Text
  import opened OwnerLine

  // ---- Lines and bytes ----------------------------------------------------------------------------

  /** `atomicWrite`: every line followed by a newline. */
  function Serialize(lines: seq<string>): string {
    if lines == [] then "" else lines[0] + "\n" + Serialize(lines[1..])
  }

  lemma {:induction false} SerializeAppend(lines: seq<string>, line: string)
    ensures Serialize(lines + [line]) == Serialize(lines) + line + "\n"
  {
    if lines == [] {
      assert [line][1..] == [];
    } else {
      SerializeAppend(lines[1..], line);
      assert (lines + [line])[1..] == lines[1..] + [line];
    }
  }

  function DropReturn(line: string): string {
    if line != "" && line[|line| - 1] == '\r' then line[..|line| - 1] else line
  }

  function DropReturns(lines: seq<string>): (r: seq<string>)
    ensures |r| == |lines| && forall i :: 0 <= i < |r| ==> r[i] == DropReturn(lines[i])
  {
    if lines == [] then [] else [DropReturn(lines[0])] + DropReturns(lines[1..])
  }

  /** The scanner of `parseLines`: pieces between newlines, less a carriage return at the end of each; what follows
      the last newline counts when it is not empty. */
  function ParseLines(content: string): seq<string> {
    var pieces := Split(content, '\n');
    DropReturns(if pieces[|pieces| - 1] == "" then pieces[..|pieces| - 1] else pieces)
  }

  predicate CleanLine(line: string) { '\n' !in line && (line == "" || line[|line| - 1] != '\r') }

  predicate Clean(lines: seq<string>) { forall i :: 0 <= i < |lines| ==> CleanLine(lines[i]) }

  lemma {:induction false} SplitSerialized(lines: seq<string>)
    requires forall i :: 0 <= i < |lines| ==> '\n' !in lines[i]
    ensures Split(Serialize(lines), '\n') == lines + [""]
  {
    if lines != [] {
      SplitSerialized(lines[1..]);
      SplitCons(lines[0], '\n', Serialize(lines[1..]));
    }
  }

  lemma ParsePieces(content: string, pieces: seq<string>)
    requires Split(content, '\n') == pieces + [""]
    ensures ParseLines(content) == DropReturns(pieces)
  {
    assert (pieces + [""])[..|pieces|] == pieces;
  }

  /** No line that is read holds a newline. */
  lemma ParsedLinesLackNewline(content: string)
    ensures forall i :: 0 <= i < |ParseLines(content)| ==> '\n' !in ParseLines(content)[i]
  {
    SplitPartsLackSep(content, '\n');
    forall i | 0 <= i < |ParseLines(content)| ensures '\n' !in ParseLines(content)[i] {
      assert Split(content, '\n')[i] in Split(content, '\n');
    }
  }

  /** Writing lines and reading them again is the identity exactly when no line holds a newline or ends in a carriage
      return. */
  lemma ReadBack(lines: seq<string>)
    ensures ParseLines(Serialize(lines)) == lines <==> Clean(lines)
  {
    if forall i :: 0 <= i < |lines| ==> '\n' !in lines[i] {
      SplitSerialized(lines);
      ParsePieces(Serialize(lines), lines);
    } else {
      ParsedLinesLackNewline(Serialize(lines));
    }
  }

  // ---- Well-formed files --------------------------------------------------------------------------

  /** Every owner line has a line before it, and that line is no owner line.  The code never checks this: it is what
      keeps `stripOwnedFor` away from lines that are not cronix's. */
  predicate WellFormed(lines: seq<string>) {
    forall i :: 0 <= i < |lines| && IsMarker(lines[i]) ==> i > 0 && !IsMarker(lines[i - 1])
  }

  predicate IsForeign(lines: seq<string>, i: nat)
    requires i < |lines|
  {
    !IsMarker(lines[i]) && (i + 1 < |lines| ==> !IsMarker(lines[i + 1]))
  }

  /** The lines outside owned blocks, in order, among the first n. */
  function ForeignUpTo(lines: seq<string>, n: nat): seq<string>
    requires n <= |lines|
  {
    if n == 0 then []
    else ForeignUpTo(lines, n - 1) + if IsForeign(lines, n - 1) then [lines[n - 1]] else []
  }

  function Foreign(lines: seq<string>): seq<string> { ForeignUpTo(lines, |lines|) }

  predicate OwnedBy(line: string, app: string, job: string) {
    var o := MatchOwner(line);
    o.Some? && o.value.app == app && o.value.job == job
  }

  /** What the loop of `stripOwnedFor` has kept after the given lines: an owner line of the job removes the last kept
      line, whatever that is. */
  function Strip(lines: seq<string>, app: string, job: string): seq<string> {
    if lines == [] then []
    else
      var n := |lines| - 1;
      var kept := Strip(lines[..n], app, job);
      if !OwnedBy(lines[n], app, job) then kept + [lines[n]]
      else if kept != [] then kept[..|kept| - 1]
      else kept
  }

  /** `stripOwnedFor`. */
  method StripOwnedFor(lines: seq<string>, app: string, job: string) returns (out: seq<string>)
    ensures out == Strip(lines, app, job)
  {
    out := [];
    var i := 0;
    while i < |lines|
      invariant 0 <= i <= |lines|
      invariant out == Strip(lines[..i], app, job)
    {
      assert lines[..i + 1][..i] == lines[..i];
      if OwnedBy(lines[i], app, job) {
        if |out| > 0 {
          out := out[..|out| - 1];
        }
      } else {
        out := out + [lines[i]];
      }
      i := i + 1;
    }
    assert lines[..i] == lines;
  }

  /** One owned entry as `List` reports it; `raw` is its schedule line. */
  datatype ManagedEntry = ManagedEntry(app: string, job: string, hash: string, index: nat, raw: string)

  function ListUpTo(lines: seq<string>, n: nat): seq<ManagedEntry>
    requires n <= |lines|
  {
    if n == 0 then []
    else
      var o := MatchOwner(lines[n - 1]);
      ListUpTo(lines, n - 1) +
      if o.Some? && n > 1
      then [ManagedEntry(o.value.app, o.value.job, o.value.hash, o.value.idx, lines[n - 2])]
      else []
  }

  function ListEntries(lines: seq<string>): seq<ManagedEntry> { ListUpTo(lines, |lines|) }

  // ---- The same file as a sequence of items -------------------------------------------------------

  datatype Item = Plain(line: string) | Block(schedule: string, marker: string, owner: Owner)

  ghost predicate ValidItem(it: Item) {
    match it
    case Plain(line) => !IsMarker(line)
    case Block(schedule, marker, owner) => !IsMarker(schedule) && MatchOwner(marker) == Some(owner)
  }

  ghost predicate ValidItems(items: seq<Item>) { forall i :: 0 <= i < |items| ==> ValidItem(items[i]) }

  function ItemLines(it: Item): seq<string> {
    match it
    case Plain(line) => [line]
    case Block(schedule, marker, _) => [schedule, marker]
  }

  function Flatten(items: seq<Item>): seq<string> {
    if items == [] then [] else Flatten(items[..|items| - 1]) + ItemLines(items[|items| - 1])
  }

  /** The items of a well-formed file. */
  function Items(lines: seq<string>): seq<Item> {
    if lines == [] then []
    else
      var n := |lines| - 1;
      if n > 0 && IsMarker(lines[n])
      then Items(lines[..n - 1]) + [Block(lines[n - 1], lines[n], MatchOwner(lines[n]).value)]
      else Items(lines[..n]) + [Plain(lines[n])]
  }

  lemma FlattenAppend(items: seq<Item>, it: Item)
    ensures Flatten(items + [it]) == Flatten(items) + ItemLines(it)
  {
    AppendFront(items, it);
  }

  lemma {:induction false} FlattenConcat(a: seq<Item>, b: seq<Item>)
    ensures Flatten(a + b) == Flatten(a) + Flatten(b)
  {
    if b == [] {
      ConcatEmpty(a);
      ConcatEmpty(Flatten(a));
    } else {
      var n := |b| - 1;
      FlattenConcat(a, b[..n]);
      ConcatFront(a, b);
      ConcatAssociative(Flatten(a), Flatten(b[..n]), ItemLines(b[n]));
    }
  }

  lemma {:induction false} FlattenItems(lines: seq<string>)
    ensures Flatten(Items(lines)) == lines
  {
    hide MatchOwner;
    if lines != [] {
      var n := |lines| - 1;
      if n > 0 && IsMarker(lines[n]) {
        FlattenItems(lines[..n - 1]);
        FlattenAppend(Items(lines[..n - 1]), Block(lines[n - 1], lines[n], MatchOwner(lines[n]).value));
        FrontAndLastTwo(lines);
      } else {
        FlattenItems(lines[..n]);
        FlattenAppend(Items(lines[..n]), Plain(lines[n]));
        FrontAndLast(lines);
      }
    }
  }

  lemma {:induction false} ItemsValid(lines: seq<string>)
    requires WellFormed(lines)
    ensures ValidItems(Items(lines))
  {
    hide MatchOwner;
    if lines != [] {
      var n := |lines| - 1;
      if n > 0 && IsMarker(lines[n]) {
        ItemsValid(lines[..n - 1]);
      } else {
        ItemsValid(lines[..n]);
      }
    }
  }

  lemma WellFormedAppend(lines: seq<string>, it: Item)
    requires WellFormed(lines) && ValidItem(it)
    ensures WellFormed(lines + ItemLines(it))
  {
    hide MatchOwner;
    var all := lines + ItemLines(it);
    forall i | 0 <= i < |all| && IsMarker(all[i]) ensures i > 0 && !IsMarker(all[i - 1]) {
      if i < |lines| {
        assert all[i] == lines[i];
      }
    }
  }

  lemma {:induction false} FlattenWellFormed(items: seq<Item>)
    requires ValidItems(items)
    ensures WellFormed(Flatten(items))
  {
    hide MatchOwner;
    if items != [] {
      var n := |items| - 1;
      FlattenWellFormed(items[..n]);
      WellFormedAppend(Flatten(items[..n]), items[n]);
    }
  }

  /** A file is well-formed exactly when it is a sequence of foreign lines and whole blocks. */
  lemma WellFormedIffItems(lines: seq<string>)
    ensures WellFormed(lines) <==> ValidItems(Items(lines))
  {
    hide MatchOwner;
    if WellFormed(lines) {
      ItemsValid(lines);
    } else if ValidItems(Items(lines)) {
      FlattenItems(lines);
      FlattenWellFormed(Items(lines));
    }
  }

  // ---- The three readings of a file, on items -----------------------------------------------------

  /** The foreign lines of a sequence of items. */
  function Plains(items: seq<Item>): seq<string> {
    if items == [] then []
    else
      var n := |items| - 1;
      Plains(items[..n]) + if items[n].Plain? then [items[n].line] else []
  }

  /** The blocks of one app whose job is in a set. */
  predicate Dropped(it: Item, app: string, jobs: set<string>) {
    it.Block? && it.owner.app == app && it.owner.job in jobs
  }

  /** The items that are left when those blocks go. */
  function Without(items: seq<Item>, app: string, jobs: set<string>): seq<Item> {
    if items == [] then []
    else
      var n := |items| - 1;
      Without(items[..n], app, jobs) + if Dropped(items[n], app, jobs) then [] else [items[n]]
  }

  function EntryOf(it: Item): seq<ManagedEntry> {
    match it
    case Plain(_) => []
    case Block(schedule, _, o) => [ManagedEntry(o.app, o.job, o.hash, o.idx, schedule)]
  }

  function Entries(items: seq<Item>): seq<ManagedEntry> {
    if items == [] then [] else Entries(items[..|items| - 1]) + EntryOf(items[|items| - 1])
  }

  lemma StripAppend(lines: seq<string>, line: string, app: string, job: string)
    ensures var kept := Strip(lines, app, job);
            Strip(lines + [line], app, job) ==
            if !OwnedBy(line, app, job) then kept + [line] else if kept != [] then kept[..|kept| - 1] else kept
  {
    hide MatchOwner;
    AppendFront(lines, line);
  }

  lemma StripItem(lines: seq<string>, it: Item, app: string, job: string)
    requires ValidItem(it)
    ensures Strip(lines + ItemLines(it), app, job) ==
            Strip(lines, app, job) + if Dropped(it, app, {job}) then [] else ItemLines(it)
  {
    hide MatchOwner;
    var kept := Strip(lines, app, job);
    match it
    case Plain(line) =>
      StripAppend(lines, line, app, job);
    case Block(schedule, marker, owner) =>
      StripAppend(lines, schedule, app, job);
      StripAppend(lines + [schedule], marker, app, job);
      ConcatAssociative(lines, [schedule], [marker]);
      ConcatAssociative(kept, [schedule], [marker]);
      assert [schedule] + [marker] == ItemLines(it);
      AppendFront(kept, schedule);
      ConcatEmpty(kept);
  }

  /** On a well-formed file `stripOwnedFor` removes exactly the blocks of the job. */
  lemma {:induction false} StripFlatten(items: seq<Item>, app: string, job: string)
    requires ValidItems(items)
    ensures Strip(Flatten(items), app, job) == Flatten(Without(items, app, {job}))
  {
    hide MatchOwner;
    if items != [] {
      var n := |items| - 1;
      StripFlatten(items[..n], app, job);
      StripItem(Flatten(items[..n]), items[n], app, job);
      FlattenAppend(Without(items[..n], app, {job}), items[n]);
      ConcatEmpty(Without(items[..n], app, {job}));
    }
  }

  lemma {:induction false} ListUpToPrefix(a: seq<string>, b: seq<string>, n: nat)
    requires n <= |a|
    ensures ListUpTo(a + b, n) == ListUpTo(a, n)
  {
    hide MatchOwner;
    if n > 0 {
      ListUpToPrefix(a, b, n - 1);
    }
  }

  lemma ListItem(lines: seq<string>, it: Item)
    requires ValidItem(it)
    ensures ListEntries(lines + ItemLines(it)) == ListEntries(lines) + EntryOf(it)
  {
    hide MatchOwner;
    var all, n := lines + ItemLines(it), |lines|;
    ListUpToPrefix(lines, ItemLines(it), n);
    assert ListUpTo(all, n + 1) == ListUpTo(all, n) + [] by { assert all[n] == ItemLines(it)[0]; }
    ConcatEmpty(ListUpTo(all, n));
  }

  /** `List` reports one entry for each block, in order. */
  lemma {:induction false} ListFlatten(items: seq<Item>)
    requires ValidItems(items)
    ensures ListEntries(Flatten(items)) == Entries(items)
  {
    hide MatchOwner;
    if items != [] {
      var n := |items| - 1;
      ListFlatten(items[..n]);
      ListItem(Flatten(items[..n]), items[n]);
    }
  }

  lemma {:induction false} ForeignUpToPrefix(a: seq<string>, b: seq<string>, n: nat)
    requires n <= |a| && (b != [] ==> !IsMarker(b[0]))
    ensures ForeignUpTo(a + b, n) == ForeignUpTo(a, n)
  {
    hide MatchOwner;
    if n > 0 {
      ForeignUpToPrefix(a, b, n - 1);
    }
  }

  lemma ForeignItem(lines: seq<string>, it: Item)
    requires ValidItem(it)
    ensures Foreign(lines + ItemLines(it)) == Foreign(lines) + if it.Plain? then [it.line] else []
  {
    hide MatchOwner;
    var all, n := lines + ItemLines(it), |lines|;
    ForeignUpToPrefix(lines, ItemLines(it), n);
    assert all[n] == ItemLines(it)[0];
    if it.Block? {
      assert all[n + 1] == it.marker;
      assert ForeignUpTo(all, n + 1) == ForeignUpTo(all, n) + [];
      assert ForeignUpTo(all, n + 2) == ForeignUpTo(all, n + 1) + [];
    }
  }

  /** The lines outside owned blocks are the plain items. */
  lemma {:induction false} ForeignFlatten(items: seq<Item>)
    requires ValidItems(items)
    ensures Foreign(Flatten(items)) == Plains(items)
  {
    hide MatchOwner;
    if items != [] {
      var n := |items| - 1;
      ForeignFlatten(items[..n]);
      ForeignItem(Flatten(items[..n]), items[n]);
    }
  }

  // ---- Laws of Without ----------------------------------------------------------------------------

  lemma {:induction false} WithoutConcat(a: seq<Item>, b: seq<Item>, app: string, jobs: set<string>)
    ensures Without(a + b, app, jobs) == Without(a, app, jobs) + Without(b, app, jobs)
  {
    if b == [] {
      ConcatEmpty(a);
      ConcatEmpty(Without(a, app, jobs));
    } else {
      var n := |b| - 1;
      WithoutConcat(a, b[..n], app, jobs);
      ConcatFront(a, b);
      ConcatAssociative(Without(a, app, jobs), Without(b[..n], app, jobs), if Dropped(b[n], app, jobs) then []
          else [b[n]]);
    }
  }

  lemma WithoutAppend(items: seq<Item>, it: Item, app: string, jobs: set<string>)
    ensures Without(items + [it], app, jobs) == Without(items, app, jobs) + if Dropped(it, app, jobs) then [] else [it]
  {
    AppendFront(items, it);
  }

  lemma {:induction false} WithoutTwice(items: seq<Item>, app: string, first: set<string>, second: set<string>)
    ensures Without(Without(items, app, first), app, second) == Without(items, app, first + second)
  {
    if items != [] {
      var n := |items| - 1;
      WithoutTwice(items[..n], app, first, second);
      if Dropped(items[n], app, first) {
        ConcatEmpty(Without(items[..n], app, first));
        ConcatEmpty(Without(items[..n], app, first + second));
      } else {
        WithoutAppend(Without(items[..n], app, first), items[n], app, second);
      }
    }
  }

  /** The jobs of an app that own a block. */
  function OwnedJobs(items: seq<Item>, app: string): set<string> {
    if items == [] then {}
    else
      var n := |items| - 1;
      OwnedJobs(items[..n], app) + if items[n].Block? && items[n].owner.app == app then {items[n].owner.job} else {}
  }

  lemma {:induction false} OwnedJobsConcat(a: seq<Item>, b: seq<Item>, app: string)
    ensures OwnedJobs(a + b, app) == OwnedJobs(a, app) + OwnedJobs(b, app)
  {
    if b == [] {
      ConcatEmpty(a);
    } else {
      OwnedJobsConcat(a, b[..|b| - 1], app);
      ConcatFront(a, b);
    }
  }

  lemma {:induction false} OwnedJobsWithout(items: seq<Item>, app: string, jobs: set<string>)
    ensures OwnedJobs(Without(items, app, jobs), app) == OwnedJobs(items, app) - jobs
  {
    if items != [] {
      var n := |items| - 1;
      OwnedJobsWithout(items[..n], app, jobs);
      AppendFront(Without(items[..n], app, jobs), items[n]);
      ConcatEmpty(Without(items[..n], app, jobs));
    }
  }

  /** Only the jobs that own a block matter. */
  lemma {:induction false} WithoutRelevant(items: seq<Item>, app: string, jobs: set<string>, others: set<string>)
    requires OwnedJobs(items, app) * jobs == OwnedJobs(items, app) * others
    ensures Without(items, app, jobs) == Without(items, app, others)
  {
    if items != [] {
      var n := |items| - 1;
      var owned := OwnedJobs(items[..n], app);
      assert owned <= OwnedJobs(items, app);
      assert owned * jobs == owned * (OwnedJobs(items, app) * jobs);
      assert owned * others == owned * (OwnedJobs(items, app) * others);
      WithoutRelevant(items[..n], app, jobs, others);
      if items[n].Block? && items[n].owner.app == app {
        assert items[n].owner.job in jobs <==> items[n].owner.job in OwnedJobs(items, app) * jobs;
        assert items[n].owner.job in others <==> items[n].owner.job in OwnedJobs(items, app) * others;
      }
    }
  }

  lemma WithoutNothing(items: seq<Item>, app: string, jobs: set<string>)
    requires OwnedJobs(items, app) !! jobs
    ensures Without(items, app, jobs) == items
  {
    WithoutRelevant(items, app, jobs, {});
    WithoutEmpty(items, app);
  }

  lemma {:induction false} WithoutEmpty(items: seq<Item>, app: string)
    ensures Without(items, app, {}) == items
  {
    if items != [] {
      WithoutEmpty(items[..|items| - 1], app);
      FrontAndLast(items);
    }
  }

  lemma {:induction false} WithoutPlains(items: seq<Item>, app: string, jobs: set<string>)
    ensures Plains(Without(items, app, jobs)) == Plains(items)
  {
    if items != [] {
      var n := |items| - 1;
      WithoutPlains(items[..n], app, jobs);
      AppendFront(Without(items[..n], app, jobs), items[n]);
      ConcatEmpty(Without(items[..n], app, jobs));
      ConcatEmpty(Plains(items[..n]));
    }
  }

  lemma {:induction false} WithoutValid(items: seq<Item>, app: string, jobs: set<string>)
    requires ValidItems(items)
    ensures ValidItems(Without(items, app, jobs))
  {
    hide MatchOwner;
    if items != [] {
      WithoutValid(items[..|items| - 1], app, jobs);
    }
  }
}

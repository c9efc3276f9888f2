/** A file that has lost the owner lines of one job: what its lines read as, and which markers bring the file back. */
module LostMarkers {
  import opened Wrappers
  import opened Sequences
  import opened Text
  import opened NormalizedManifests
  import opened OwnerLine
  import opened CrontabLines
  import opened Cron
  import opened Commands
  import opened Crontab
  import opened Matching
  import opened Insertions
  import opened Adoption
  import opened AdoptedFiles
  import opened Converge
  import opened JobBlocks

  // ---- What a rendered schedule line reads as -----------------------------------------------------

  /** Five non-empty fields and no space around them: what every translation is. */
  predicate FiveFielded(cron: string) { |Fields(cron)| == 5 && Trimmed(cron) && cron != "" }

  lemma FiveWords(s: string, a: string, b: string, c: string, d: string, e: string)
    requires IsWord(a) && IsWord(b) && IsWord(c) && IsWord(d) && IsWord(e)
    requires s == a + " " + b + " " + c + " " + d + " " + e
    ensures FiveFielded(s)
  {
    hide Fields;
    var ab := a + " " + b;
    var abc := ab + " " + c;
    var abcd := abc + " " + d;
    FieldsConcat(abcd, e);
    FieldsConcat(abc, d);
    FieldsConcat(ab, c);
    FieldsConcat(a, b);
    OneField(a);
    OneField(b);
    OneField(c);
    OneField(d);
    OneField(e);
    assert s[0] == a[0] && s[|s| - 1] == e[|e| - 1];
  }

  lemma LiteralsFiveFielded()
    ensures FiveFielded("0 * * * *") && FiveFielded("0 0 * * *") && FiveFielded("0 0 * * 0")
    ensures FiveFielded("0 0 1 * *") && FiveFielded("0 0 1 1 *")
  {
    hide FiveFielded;
    FiveWords("0 * * * *", "0", "*", "*", "*", "*");
    FiveWords("0 0 * * *", "0", "0", "*", "*", "*");
    FiveWords("0 0 * * 0", "0", "0", "*", "*", "0");
    FiveWords("0 0 1 * *", "0", "0", "1", "*", "*");
    FiveWords("0 0 1 1 *", "0", "0", "1", "1", "*");
  }

  lemma EveryFiveFielded(n: nat)
    ensures FiveFielded(EveryMinutes(n)) && FiveFielded(EveryHours(n))
  {
    hide FiveFielded;
    var step := "*/" + Digits(n);
    StepConcat(step);
    FiveWords(EveryMinutes(n), step, "*", "*", "*", "*");
    FiveWords(EveryHours(n), "0", step, "*", "*", "*");
  }

  lemma StepConcat(step: string)
    ensures step + " * * * *" == step + " " + "*" + " " + "*" + " " + "*" + " " + "*"
    ensures "0 " + step + " * * *" == "0" + " " + step + " " + "*" + " " + "*" + " " + "*"
  {}

  lemma TranslationsFiveFielded(s: string)
    requires Translate(s).Some?
    ensures FiveFielded(Translate(s).value)
  {
    hide FiveFielded, Fields, TrimSpace, EveryMinutes, EveryHours;
    var t := TrimSpace(s);
    LiteralsFiveFielded();
    if |Fields(t)| == 5 {
      TrimmedFiveFielded(s);
    }
    if "@every" <= t && TranslateEvery(TrimSpace(t[|"@every"|..])).Some? {
      var rest := TrimSpace(t[|"@every"|..]);
      EveryFiveFielded(ParseInt(rest[..|rest| - 1]).value);
    }
  }

  lemma TrimmedFiveFielded(s: string)
    requires |Fields(TrimSpace(s))| == 5
    ensures FiveFielded(TrimSpace(s))
  {
    TrimSpaceTrims(s);
  }

  /** What the trigger path must look like for `Adopt` to recognise the lines that `render` writes. */
  predicate PlainBin(triggerBin: string) { triggerBin != "" && !IsSpace(triggerBin[0]) }

  lemma TailShape(triggerBin: string, app: string, job: string)
    requires IsName(job)
    ensures var tail := ExpectedTail(triggerBin, app, job);
            tail != "" && !IsSpace(tail[|tail| - 1]) && (Trimmed(tail) <==> PlainBin(triggerBin)) && Fields(tail) != []
  {
    var tail := ExpectedTail(triggerBin, app, job);
    assert tail[|tail| - 1] == job[|job| - 1];
    assert tail[0] == if triggerBin == "" then ' ' else triggerBin[0];
    FieldsNotEmpty(tail);
  }

  lemma ScheduleIsCronAndTail(cron: string, triggerBin: string, app: string, job: string)
    ensures RenderSchedule(cron, triggerBin, app, job) == cron + " " + ExpectedTail(triggerBin, app, job)
  {}

  lemma CronEndsWord(cron: string)
    requires FiveFielded(cron)
    ensures cron != "" && !IsSpace(cron[|cron| - 1])
  {}

  /** `splitScheduleAndCommand` on a rendered line: it joins the fields of the cron text anew, and trims the command. */
  lemma SplitRendered(cron: string, tail: string)
    requires FiveFielded(cron) && Fields(tail) != []
    ensures SplitCommand(cron + " " + tail) == Some(Command(Join(Fields(cron), ' '), TrimSpace(tail)))
  {
    hide Fields, FieldsEnd, Join, IsSpace, TrimSpace;
    var line := cron + " " + tail;
    FieldsConcat(cron, tail);
    CronEndsWord(cron);
    FieldsEndConcat(cron, tail);
    TakeConcat(Fields(cron), Fields(tail));
    ConcatAssociative(cron, " ", tail);
    TakeConcat(cron, " " + tail);
    TrimAfterSpace(tail);
  }

  lemma InvokesRendered(cron: string, triggerBin: string, app: string, job: string)
    requires FiveFielded(cron) && IsName(job)
    ensures Invokes(RenderSchedule(cron, triggerBin, app, job), ExpectedTail(triggerBin, app, job)) ==
            if PlainBin(triggerBin) && cron[0] != '#' then Some(Join(Fields(cron), ' ')) else None
  {
    hide FieldsEnd, Join, SplitCommand, ExpectedTail, RenderSchedule, IsName, Fields;
    var tail := ExpectedTail(triggerBin, app, job);
    var line := cron + " " + tail;
    ScheduleIsCronAndTail(cron, triggerBin, app, job);
    TailShape(triggerBin, app, job);
    assert line[0] == cron[0] && line[|line| - 1] == tail[|tail| - 1];
    TrimSpaceTrims(line);
    TrimSpaceTrims(tail);
    SplitRendered(cron, tail);
  }

  // ---- A file without the owner lines of a job ----------------------------------------------------

  /** The file without the owner lines of a job. */
  function LoseMarkers(lines: seq<string>, app: string, job: string): seq<string> {
    if lines == [] then []
    else
      var n := |lines| - 1;
      LoseMarkers(lines[..n], app, job) + if OwnedBy(lines[n], app, job) then [] else [lines[n]]
  }

  lemma {:induction false} LoseConcat(a: seq<string>, b: seq<string>, app: string, job: string)
    ensures LoseMarkers(a + b, app, job) == LoseMarkers(a, app, job) + LoseMarkers(b, app, job)
  {
    hide OwnedBy;
    if b == [] {
      ConcatEmpty(a);
    } else {
      LoseConcat(a, b[..|b| - 1], app, job);
      ConcatFront(a, b);
    }
  }

  /** An item without its owner line, if it belongs to the job. */
  function LostItem(it: Item, app: string, job: string): Item {
    if BlockOf(it, app, job) then Plain(it.schedule) else it
  }

  function LostItems(items: seq<Item>, app: string, job: string): seq<Item> {
    if items == [] then []
    else LostItems(items[..|items| - 1], app, job) + [LostItem(items[|items| - 1], app, job)]
  }

  lemma LoseItem(it: Item, app: string, job: string)
    requires ValidItem(it)
    ensures LoseMarkers(ItemLines(it), app, job) == ItemLines(LostItem(it, app, job))
    ensures ValidItem(LostItem(it, app, job))
  {
    hide MatchOwner;
    var lines := ItemLines(it);
    assert LoseMarkers([], app, job) == [];
    assert lines[..1] == [lines[0]] && [lines[0]][..0] == [];
    assert LoseMarkers([lines[0]], app, job) == [lines[0]];
  }

  lemma {:induction false} LoseFlatten(items: seq<Item>, app: string, job: string)
    requires ValidItems(items)
    ensures LoseMarkers(Flatten(items), app, job) == Flatten(LostItems(items, app, job))
    ensures ValidItems(LostItems(items, app, job))
  {
    hide OwnedBy, ValidItem, ItemLines, LostItem;
    if items != [] {
      var front, last := items[..|items| - 1], items[|items| - 1];
      LoseFlatten(front, app, job);
      LoseItem(last, app, job);
      LoseConcat(Flatten(front), ItemLines(last), app, job);
      FlattenAppend(LostItems(front, app, job), LostItem(last, app, job));
    }
  }

  /** The positions of the schedule lines of the job's blocks, once the owner lines are gone. */
  function At(items: seq<Item>, app: string, job: string): (at: seq<nat>)
    ensures |at| == |Blocks(items, app, job)|
  {
    if items == [] then []
    else
      var front := items[..|items| - 1];
      At(front, app, job) +
      if BlockOf(items[|items| - 1], app, job) then [|Flatten(LostItems(front, app, job))|] else []
  }

  predicate Increasing(at: seq<nat>, bound: nat) {
    && (forall k :: 0 <= k < |at| ==> at[k] < bound)
    && forall j, k :: 0 <= j < k < |at| ==> at[j] < at[k]
  }

  lemma IncreasingAppend(at: seq<nat>, bound: nat, more: nat)
    requires Increasing(at, bound) && bound < more
    ensures Increasing(at, more) && Increasing(at + [bound], more)
  {}

  /** The owner lines of the job, each behind the schedule line of its block. */
  ghost predicate MarksAt(marks: map<nat, string>, at: seq<nat>, blocks: seq<Item>)
    requires |at| == |blocks|
  {
    && (forall i :: i in marks <==> i in at)
    && (forall k :: 0 <= k < |at| ==> blocks[k].Block? && marks[at[k]] == blocks[k].marker)
  }

  lemma MarksAppend(marks: map<nat, string>, at: seq<nat>, blocks: seq<Item>, bound: nat, block: Item)
    requires |at| == |blocks| && MarksAt(marks, at, blocks) && Increasing(at, bound) && block.Block?
    ensures MarksAt(marks[bound := block.marker], at + [bound], blocks + [block])
  {
    var more, more2 := at + [bound], blocks + [block];
    forall k | 0 <= k < |more| ensures more2[k].Block? && marks[bound := block.marker][more[k]] == more2[k].marker {
      if k < |at| {
        assert at[k] != bound;
      }
    }
  }

  lemma MarksBelow(marks: map<nat, string>, at: seq<nat>, blocks: seq<Item>, bound: nat)
    requires |at| == |blocks| && MarksAt(marks, at, blocks) && Increasing(at, bound)
    ensures forall i :: i in marks ==> i < bound
  {}

  function OwnMarks(items: seq<Item>, app: string, job: string): map<nat, string> {
    if items == [] then map[]
    else
      var front, last := items[..|items| - 1], items[|items| - 1];
      var marks := OwnMarks(front, app, job);
      if BlockOf(last, app, job) then marks[|Flatten(LostItems(front, app, job))| := last.marker] else marks
  }

  lemma LostNext(items: seq<Item>, app: string, job: string)
    requires items != []
    ensures |Flatten(LostItems(items, app, job))| > |Flatten(LostItems(items[..|items| - 1], app, job))|
  {
    FlattenAppend(LostItems(items[..|items| - 1], app, job), LostItem(items[|items| - 1], app, job));
  }

  lemma {:induction false} OwnMarksAre(items: seq<Item>, app: string, job: string)
    ensures MarksAt(OwnMarks(items, app, job), At(items, app, job), Blocks(items, app, job))
    ensures Increasing(At(items, app, job), |Flatten(LostItems(items, app, job))|)
  {
    if items != [] {
      hide Flatten, LostItems, MarksAt, Increasing;
      var front, last := items[..|items| - 1], items[|items| - 1];
      var bound, more := |Flatten(LostItems(front, app, job))|, |Flatten(LostItems(items, app, job))|;
      OwnMarksAre(front, app, job);
      LostNext(items, app, job);
      IncreasingAppend(At(front, app, job), bound, more);
      if BlockOf(last, app, job) {
        MarksAppend(OwnMarks(front, app, job), At(front, app, job), Blocks(front, app, job), bound, last);
      } else {
        ConcatEmpty(At(front, app, job));
        ConcatEmpty(Blocks(front, app, job));
      }
    }
  }

  lemma {:induction false} InsertPrefix(a: seq<string>, b: seq<string>, marks: map<nat, string>, more: map<nat, string>,
      n: nat)
    requires n <= |a|
    requires forall i :: 0 <= i < n ==> (i in marks <==> i in more) && (i in marks ==> marks[i] == more[i])
    ensures InsertUpTo(a + b, more, n) == InsertUpTo(a, marks, n)
  {
    if n > 0 {
      InsertPrefix(a, b, marks, more, n - 1);
    }
  }

  lemma LostLast(front: seq<Item>, last: Item, app: string, job: string)
    ensures Flatten(LostItems(front + [last], app, job)) ==
            Flatten(LostItems(front, app, job)) + ItemLines(LostItem(last, app, job))
    ensures OwnMarks(front + [last], app, job) ==
            if BlockOf(last, app, job)
            then OwnMarks(front, app, job)[|Flatten(LostItems(front, app, job))| := last.marker]
            else OwnMarks(front, app, job)
  {
    hide Flatten;
    AppendFront(front, last);
    FlattenAppend(LostItems(front, app, job), LostItem(last, app, job));
  }

  /** Put back behind these lines, they restore the file. */
  lemma {:induction false} OwnMarksRestore(items: seq<Item>, app: string, job: string)
    ensures InsertAll(Flatten(LostItems(items, app, job)), OwnMarks(items, app, job)) == Flatten(items)
  {
    if items != [] {
      hide Flatten, OwnMarks, LostItems, At, Blocks, MarksAt, Increasing, InsertUpTo;
      var front, last := items[..|items| - 1], items[|items| - 1];
      var lines, marks := Flatten(LostItems(front, app, job)), OwnMarks(front, app, job);
      FrontAndLast(items);
      LostLast(front, last, app, job);
      FlattenAppend(front, last);
      OwnMarksRestore(front, app, job);
      OwnMarksAre(front, app, job);
      MarksBelow(marks, At(front, app, job), Blocks(front, app, job), |lines|);
      var all, more := Flatten(LostItems(items, app, job)), OwnMarks(items, app, job);
      InsertPrefix(lines, ItemLines(LostItem(last, app, job)), marks, more, |lines|);
      InsertItem(lines, all, more, last, app, job);
    }
  }

  /** The lines of one more item, with its owner line put back if it was lost. */
  lemma InsertItem(lines: seq<string>, all: seq<string>, marks: map<nat, string>, it: Item, app: string, job: string)
    requires all == lines + ItemLines(LostItem(it, app, job))
    requires forall i :: i in marks && i >= |lines| ==> i == |lines| && BlockOf(it, app, job)
    requires BlockOf(it, app, job) ==> |lines| in marks && marks[|lines|] == it.marker
    ensures InsertAll(all, marks) == InsertUpTo(all, marks, |lines|) + ItemLines(it)
  {
    hide InsertUpTo;
    if BlockOf(it, app, job) {
      InsertOwn(lines, it.schedule, marks);
    } else if it.Block? {
      InsertPair(lines, it.schedule, it.marker, marks);
    } else {
      InsertPlain(lines, it.line, marks);
    }
  }

  lemma InsertOwn(lines: seq<string>, line: string, marks: map<nat, string>)
    requires |lines| in marks
    ensures var all := lines + [line];
            InsertAll(all, marks) == InsertUpTo(all, marks, |lines|) + [line, marks[|lines|]]
  {
    InsertStep(lines + [line], marks, |lines|);
    assert InsertUpTo(lines + [line], marks, |lines|) + [line] + [marks[|lines|]] ==
           InsertUpTo(lines + [line], marks, |lines|) + [line, marks[|lines|]];
  }

  lemma InsertPlain(lines: seq<string>, line: string, marks: map<nat, string>)
    requires |lines| !in marks
    ensures var all := lines + [line]; InsertAll(all, marks) == InsertUpTo(all, marks, |lines|) + [line]
  {
    InsertStep(lines + [line], marks, |lines|);
    ConcatEmpty(InsertUpTo(lines + [line], marks, |lines|) + [line]);
  }

  lemma InsertPair(lines: seq<string>, line: string, marker: string, marks: map<nat, string>)
    requires |lines| !in marks && |lines| + 1 !in marks
    ensures var all := lines + [line, marker];
            InsertAll(all, marks) == InsertUpTo(all, marks, |lines|) + [line, marker]
  {
    var all := lines + [line, marker];
    InsertTwo(all, marks, |lines|);
    assert all[|lines|] == line && all[|lines| + 1] == marker;
  }

  lemma InsertTwo(lines: seq<string>, marks: map<nat, string>, n: nat)
    requires n + 2 == |lines| && n !in marks && n + 1 !in marks
    ensures InsertUpTo(lines, marks, n + 2) == InsertUpTo(lines, marks, n) + [lines[n], lines[n + 1]]
  {}

  lemma InsertStep(lines: seq<string>, marks: map<nat, string>, n: nat)
    requires n < |lines|
    ensures InsertUpTo(lines, marks, n + 1) ==
            InsertUpTo(lines, marks, n) + [lines[n]] + if n in marks then [marks[n]] else []
  {}

  /** Fewer markers with the same result are the same markers. */
  lemma {:induction false} InsertInjective(lines: seq<string>, marks: map<nat, string>, more: map<nat, string>, n: nat)
    requires n <= |lines| && marks.Keys <= more.Keys
    ensures |InsertUpTo(lines, marks, n)| <= |InsertUpTo(lines, more, n)|
    ensures InsertUpTo(lines, marks, n) == InsertUpTo(lines, more, n) ==>
              forall i :: 0 <= i < n && i in more ==> i in marks && marks[i] == more[i]
  {
    if n > 0 {
      InsertInjective(lines, marks, more, n - 1);
      var a, b := InsertUpTo(lines, marks, n - 1), InsertUpTo(lines, more, n - 1);
      var x := [lines[n - 1]] + if n - 1 in marks then [marks[n - 1]] else [];
      var y := [lines[n - 1]] + if n - 1 in more then [more[n - 1]] else [];
      assert InsertUpTo(lines, marks, n) == a + x && InsertUpTo(lines, more, n) == b + y;
      if a + x == b + y {
        EqualTails(a, b, x, y);
        if n - 1 in more {
          assert y[1] == more[n - 1] && |x| == 2 && x[1] == marks[n - 1];
        }
      }
    }
  }

  lemma EqualTails<T>(a: seq<T>, b: seq<T>, x: seq<T>, y: seq<T>)
    requires a + x == b + y && |a| <= |b| && |x| <= |y|
    ensures a == b && x == y
  {
    assert |a + x| == |a| + |x| && |b + y| == |b| + |y|;
    assert (a + x)[..|a|] == a && (b + y)[..|b|] == b;
    assert (a + x)[|a|..] == x && (b + y)[|b|..] == y;
  }

  // ---- The candidates among items -----------------------------------------------------------------

  /** Only lines outside owned blocks can be candidates. */
  function ItemCandidates(items: seq<Item>, tail: string): seq<Candidate> {
    if items == [] then []
    else
      var front, last := items[..|items| - 1], items[|items| - 1];
      ItemCandidates(front, tail) +
      if last.Plain? && Invokes(last.line, tail).Some?
      then [Candidate(|Flatten(front)|, Invokes(last.line, tail).value)]
      else []
  }

  lemma {:induction false} CandidatesPrefix(a: seq<string>, b: seq<string>, tail: string, n: nat)
    requires n <= |a| && (b != [] ==> !IsMarker(b[0]))
    ensures CandidatesUpTo(a + b, tail, n) == CandidatesUpTo(a, tail, n)
  {
    hide MatchOwner, Invokes;
    if n > 0 {
      CandidatesPrefix(a, b, tail, n - 1);
    }
  }

  lemma CandidatesItem(lines: seq<string>, it: Item, tail: string)
    requires ValidItem(it)
    ensures Candidates(lines + ItemLines(it), tail) ==
            Candidates(lines, tail) +
            if it.Plain? && Invokes(it.line, tail).Some? then [Candidate(|lines|, Invokes(it.line, tail).value)] else []
  {
    hide MatchOwner, Invokes, CandidatesUpTo;
    var all, n := lines + ItemLines(it), |lines|;
    CandidatesPrefix(lines, ItemLines(it), tail, n);
    assert all[n] == ItemLines(it)[0];
    CandidatesNext(all, tail, n);
    if it.Block? {
      assert all[n + 1] == it.marker;
      CandidatesNext(all, tail, n + 1);
      MarkerNotCandidate(it.marker, tail);
      ConcatEmpty(Candidates(lines, tail));
    }
  }

  lemma {:induction false} CandidatesOfItems(items: seq<Item>, tail: string)
    requires ValidItems(items)
    ensures Candidates(Flatten(items), tail) == ItemCandidates(items, tail)
  {
    hide MatchOwner, Invokes, CandidatesUpTo;
    if items == [] {
      NoLines(tail);
    } else {
      var front, last := items[..|items| - 1], items[|items| - 1];
      CandidatesOfItems(front, tail);
      CandidatesItem(Flatten(front), last, tail);
    }
  }

  lemma NoLines(tail: string)
    ensures Candidates([], tail) == []
  {}

  /** The job's schedule lines that read as candidates, each at its position. */
  function OwnCandidates(at: seq<nat>, blocks: seq<Item>, tail: string): seq<Candidate>
    requires |at| == |blocks| && forall k :: 0 <= k < |blocks| ==> blocks[k].Block?
  {
    if blocks == [] then []
    else
      var n := |blocks| - 1;
      var cron := Invokes(blocks[n].schedule, tail);
      OwnCandidates(at[..n], blocks[..n], tail) + if cron.Some? then [Candidate(at[n], cron.value)] else []
  }

  lemma {:induction false} BlocksAreBlocks(items: seq<Item>, app: string, job: string)
    ensures forall k :: 0 <= k < |Blocks(items, app, job)| ==> Blocks(items, app, job)[k].Block?
  {
    if items != [] {
      BlocksAreBlocks(items[..|items| - 1], app, job);
    }
  }

  /** After the loss, the candidates are those of the job's schedule lines that read as such, if there were none. */
  lemma {:induction false} LostCandidates(items: seq<Item>, app: string, job: string, tail: string)
    requires ItemCandidates(items, tail) == []
    ensures forall k :: 0 <= k < |Blocks(items, app, job)| ==> Blocks(items, app, job)[k].Block?
    ensures ItemCandidates(LostItems(items, app, job), tail) ==
            OwnCandidates(At(items, app, job), Blocks(items, app, job), tail)
  {
    BlocksAreBlocks(items, app, job);
    if items != [] {
      hide Invokes, Flatten;
      var front, last := items[..|items| - 1], items[|items| - 1];
      LostCandidates(front, app, job, tail);
      var lost := LostItems(front, app, job);
      AppendFront(lost, LostItem(last, app, job));
      if BlockOf(last, app, job) {
        AppendFront(At(front, app, job), |Flatten(lost)|);
        AppendFront(Blocks(front, app, job), last);
      } else {
        ConcatEmpty(At(front, app, job));
        ConcatEmpty(Blocks(front, app, job));
      }
    }
  }
}

/** The two array algorithms inside `Adopt`: the greedy matching of wanted schedules to candidate lines, and the
    insertion of the markers from the bottom of the file to the top. */
module Matching {
  import opened Sequences

  // ---- Greedy matching ----------------------------------------------------------------------------

  /** The first index at or after `from` that is free and holds the wanted text, or -1. */
  function FirstFree(fields: seq<string>, taken: set<int>, want: string, from: nat): (i: int)
    requires from <= |fields|
    ensures -1 <= i < |fields|
    ensures i >= 0 ==> i >= from && fields[i] == want && i !in taken
    ensures forall k :: from <= k < (if i < 0 then |fields| else i) ==> fields[k] != want || k in taken
    decreases |fields| - from
  {
    if from == |fields| then -1
    else if from !in taken && fields[from] == want then from
    else FirstFree(fields, taken, want, from + 1)
  }

  /** The candidates some wanted schedule has taken. */
  function Taken(matched: seq<int>): set<int> { set i | i in matched && i >= 0 }

  /** For each wanted schedule in turn, the first candidate with its five fields that is still free; -1 for none. */
  function Greedy(wanted: seq<string>, fields: seq<string>): (matched: seq<int>)
    ensures |matched| == |wanted|
    ensures forall w :: 0 <= w < |matched| ==> -1 <= matched[w] < |fields|
    ensures forall w :: 0 <= w < |matched| && matched[w] >= 0 ==> fields[matched[w]] == wanted[w]
    ensures forall v, w :: 0 <= v < w < |matched| && matched[v] >= 0 ==> matched[v] != matched[w]
  {
    if wanted == [] then []
    else
      var n := |wanted| - 1;
      var before := Greedy(wanted[..n], fields);
      before + [FirstFree(fields, Taken(before), wanted[n], 0)]
  }

  lemma GreedyStep(wanted: seq<string>, fields: seq<string>, w: nat)
    requires w < |wanted|
    ensures var before := Greedy(wanted[..w], fields);
            Greedy(wanted[..w + 1], fields) == before + [FirstFree(fields, Taken(before), wanted[w], 0)]
  {
    assert wanted[..w + 1][..w] == wanted[..w];
  }

  lemma FirstFreeStep(fields: seq<string>, taken: set<int>, want: string, from: nat)
    requires from < |fields|
    ensures FirstFree(fields, taken, want, from) ==
            if from !in taken && fields[from] == want then from else FirstFree(fields, taken, want, from + 1)
    ensures FirstFree(fields, taken, want, |fields|) == -1
  {}

  /** The nested loops over `wanted`, `candidates` and the `consumed` bitmap. */
  method MatchGreedy(wanted: seq<string>, fields: seq<string>) returns (matched: array<int>, consumed: array<bool>)
    ensures fresh(matched) && fresh(consumed)
    ensures matched[..] == Greedy(wanted, fields)
    ensures consumed.Length == |fields| && forall c :: 0 <= c < |fields| ==> (consumed[c] <==> c in Taken(matched[..]))
  {
    hide Taken, FirstFree, Greedy;
    consumed := new bool[|fields|](_ => false);
    matched := new int[|wanted|](_ => -1);
    ghost var before: seq<int> := [];
    NothingMatched(fields);
    assert wanted[..0] == [];
    var w := 0;
    while w < |wanted|
      invariant 0 <= w <= |wanted| == |before| + |wanted| - w
      invariant before == Greedy(wanted[..w], fields)
      invariant forall v :: 0 <= v < |wanted| ==> matched[v] == if v < w then before[v] else -1
      invariant forall c :: 0 <= c < |fields| ==> (consumed[c] <==> c in Taken(before))
    {
      var c := 0;
      while c < |fields|
        invariant 0 <= c <= |fields|
        invariant FirstFree(fields, Taken(before), wanted[w], 0) == FirstFree(fields, Taken(before), wanted[w], c)
        invariant forall v :: 0 <= v < |wanted| ==> matched[v] == if v < w then before[v] else -1
        invariant forall d :: 0 <= d < |fields| ==> (consumed[d] <==> d in Taken(before))
      {
        FirstFreeStep(fields, Taken(before), wanted[w], c);
        if !consumed[c] && fields[c] == wanted[w] {
          matched[w] := c;
          consumed[c] := true;
          break;
        }
        c := c + 1;
      }
      FirstFreeEnd(fields, Taken(before), wanted[w]);
      GreedyStep(wanted, fields, w);
      TakenAppend(before, matched[w]);
      before := before + [matched[w]];
      w := w + 1;
    }
    assert wanted[..w] == wanted;
    assert matched[..] == before;
  }

  lemma NothingMatched(fields: seq<string>)
    ensures Greedy([], fields) == [] && Taken([]) == {}
  {}

  lemma FirstFreeEnd(fields: seq<string>, taken: set<int>, want: string)
    ensures FirstFree(fields, taken, want, |fields|) == -1
  {}

  lemma TakenAppend(matched: seq<int>, i: int)
    ensures Taken(matched + [i]) == if i >= 0 then Taken(matched) + {i} else Taken(matched)
  {
    assert forall x :: x in matched + [i] <==> x in matched || x == i;
  }

  /** Every wanted schedule has a candidate, and every candidate is wanted. */
  predicate Complete(matched: seq<int>, candidates: nat) {
    (forall w :: 0 <= w < |matched| ==> matched[w] >= 0) && forall c :: 0 <= c < candidates ==> c in Taken(matched)
  }

  /** How often a text stands at a free index. */
  function FreeCount(fields: seq<string>, taken: set<int>, text: string): nat {
    if fields == [] then 0
    else
      var n := |fields| - 1;
      FreeCount(fields[..n], taken, text) + if n !in taken && fields[n] == text then 1 else 0
  }

  /** How often a wanted text found no candidate. */
  function UnmatchedCount(wanted: seq<string>, matched: seq<int>, text: string): nat
    requires |wanted| == |matched|
  {
    if wanted == [] then 0
    else
      var n := |wanted| - 1;
      UnmatchedCount(wanted[..n], matched[..n], text) + if matched[n] < 0 && wanted[n] == text then 1 else 0
  }

  lemma {:induction false} FreeCountTake(fields: seq<string>, taken: set<int>, i: nat, text: string)
    requires i !in taken
    ensures FreeCount(fields, taken, text) ==
            FreeCount(fields, taken + {i}, text) + if i < |fields| && fields[i] == text then 1 else 0
  {
    if fields != [] {
      FreeCountTake(fields[..|fields| - 1], taken, i, text);
    }
  }

  lemma {:induction false} FreeCountZero(fields: seq<string>, taken: set<int>, text: string)
    ensures FreeCount(fields, taken, text) == 0 <==> forall i :: 0 <= i < |fields| && fields[i] == text ==> i in taken
  {
    if fields != [] {
      var n := |fields| - 1;
      FreeCountZero(fields[..n], taken, text);
      assert forall i :: 0 <= i < n ==> fields[..n][i] == fields[i];
    }
  }

  lemma {:induction false} UnmatchedCountZero(wanted: seq<string>, matched: seq<int>, text: string)
    requires |wanted| == |matched|
    ensures UnmatchedCount(wanted, matched, text) == 0 <==>
            forall w :: 0 <= w < |wanted| && wanted[w] == text ==> matched[w] >= 0
  {
    if wanted != [] {
      var n := |wanted| - 1;
      UnmatchedCountZero(wanted[..n], matched[..n], text);
      assert forall i :: 0 <= i < n ==> wanted[..n][i] == wanted[i] && matched[..n][i] == matched[i];
    }
  }

  lemma {:induction false} CountIsMultiplicity(texts: seq<string>, text: string)
    ensures FreeCount(texts, {}, text) == multiset(texts)[text]
  {
    if texts != [] {
      CountIsMultiplicity(texts[..|texts| - 1], text);
      FrontAndLast(texts);
    }
  }

  lemma UnmatchedStep(wanted: seq<string>, before: seq<int>, i: int, text: string)
    requires |wanted| == |before| + 1
    ensures UnmatchedCount(wanted, before + [i], text) ==
            UnmatchedCount(wanted[..|before|], before, text) + if i < 0 && wanted[|before|] == text then 1 else 0
  {
    AppendFront(before, i);
  }

  lemma FreeCountStep(texts: seq<string>, text: string)
    requires texts != []
    ensures FreeCount(texts, {}, text) ==
            FreeCount(texts[..|texts| - 1], {}, text) + if texts[|texts| - 1] == text then 1 else 0
  {}

  /** Each match uses up one wanted text and one candidate that are equal. */
  lemma {:induction false} GreedyBalance(wanted: seq<string>, fields: seq<string>, text: string)
    ensures var matched := Greedy(wanted, fields);
            FreeCount(wanted, {}, text) - UnmatchedCount(wanted, matched, text) ==
            FreeCount(fields, {}, text) - FreeCount(fields, Taken(matched), text)
  {
    hide FreeCount, UnmatchedCount, Taken, FirstFree, Greedy;
    NothingMatched(fields);
    if wanted == [] {
      NoneWanted(text);
    } else {
      var n := |wanted| - 1;
      var before := Greedy(wanted[..n], fields);
      var i := FirstFree(fields, Taken(before), wanted[n], 0);
      GreedyBalance(wanted[..n], fields, text);
      GreedyLast(wanted, fields);
      UnmatchedStep(wanted, before, i, text);
      FreeCountStep(wanted, text);
      TakenAppend(before, i);
      if i >= 0 {
        FreeCountTake(fields, Taken(before), i, text);
      }
    }
  }

  lemma NoneWanted(text: string)
    ensures FreeCount([], {}, text) == 0 && UnmatchedCount([], [], text) == 0
  {}

  lemma GreedyLast(wanted: seq<string>, fields: seq<string>)
    requires wanted != []
    ensures var n := |wanted| - 1;
            var before := Greedy(wanted[..n], fields);
            Greedy(wanted, fields) == before + [FirstFree(fields, Taken(before), wanted[n], 0)]
  {}

  /** A text that was left without a candidate has no free candidate at the end either. */
  lemma {:induction false} UnmatchedMeansNoneFree(wanted: seq<string>, fields: seq<string>, text: string)
    ensures var matched := Greedy(wanted, fields);
            UnmatchedCount(wanted, matched, text) == 0 || FreeCount(fields, Taken(matched), text) == 0
  {
    if wanted != [] {
      var n := |wanted| - 1;
      var before := Greedy(wanted[..n], fields);
      var i := FirstFree(fields, Taken(before), wanted[n], 0);
      UnmatchedMeansNoneFree(wanted[..n], fields, text);
      AppendFront(before, i);
      TakenAppend(before, i);
      FreeCountZero(fields, Taken(before), text);
      FreeCountZero(fields, Taken(before + [i]), text);
    }
  }

  /** The greedy loop succeeds exactly when the wanted texts and the candidates' texts are the same multiset. */
  lemma GreedyExact(wanted: seq<string>, fields: seq<string>)
    ensures Complete(Greedy(wanted, fields), |fields|) <==> multiset(wanted) == multiset(fields)
  {
    hide Greedy, Taken;
    var matched := Greedy(wanted, fields);
    AllCountsZero(wanted, fields, matched);
    if Complete(matched, |fields|) {
      forall text ensures multiset(wanted)[text] == multiset(fields)[text] { SameCount(wanted, fields, text); }
    } else {
      var text :| UnmatchedCount(wanted, matched, text) != 0 || FreeCount(fields, Taken(matched), text) != 0;
      SameCount(wanted, fields, text);
    }
  }

  lemma SameCount(wanted: seq<string>, fields: seq<string>, text: string)
    ensures var matched := Greedy(wanted, fields);
            multiset(wanted)[text] == multiset(fields)[text] <==>
            UnmatchedCount(wanted, matched, text) == 0 && FreeCount(fields, Taken(matched), text) == 0
  {
    hide Greedy, Taken;
    CountIsMultiplicity(wanted, text);
    CountIsMultiplicity(fields, text);
    GreedyBalance(wanted, fields, text);
    UnmatchedMeansNoneFree(wanted, fields, text);
  }

  lemma AllCountsZero(wanted: seq<string>, fields: seq<string>, matched: seq<int>)
    requires |wanted| == |matched|
    ensures Complete(matched, |fields|) <==>
            forall text :: UnmatchedCount(wanted, matched, text) == 0 && FreeCount(fields, Taken(matched), text) == 0
  {
    hide UnmatchedCount, FreeCount, Taken;
    if Complete(matched, |fields|) {
      forall text ensures UnmatchedCount(wanted, matched, text) == 0 && FreeCount(fields, Taken(matched), text) == 0 {
        UnmatchedCountZero(wanted, matched, text);
        FreeCountZero(fields, Taken(matched), text);
      }
    } else if w :| 0 <= w < |matched| && matched[w] < 0 {
      UnmatchedCountZero(wanted, matched, wanted[w]);
    } else {
      var c :| 0 <= c < |fields| && c !in Taken(matched);
      FreeCountZero(fields, Taken(matched), fields[c]);
    }
  }

  lemma {:induction false} FirstFreeIs(fields: seq<string>, taken: set<int>, want: string, i: nat, from: nat)
    requires from <= i < |fields| && i !in taken && fields[i] == want
    requires forall k :: from <= k < i ==> k in taken
    ensures FirstFree(fields, taken, want, from) == i
    decreases i - from
  {
    if from < i {
      FirstFreeIs(fields, taken, want, i, from + 1);
    }
  }

  /** Candidates that stand in the order of the schedules are matched in that order, repetitions included. */
  lemma {:induction false} GreedySelf(fields: seq<string>, n: nat)
    requires n <= |fields|
    ensures var matched := Greedy(fields[..n], fields);
            |matched| == n && forall i :: 0 <= i < n ==> matched[i] == i
  {
    hide Greedy, FirstFree, Taken;
    if n == 0 {
      NothingMatched(fields);
    } else {
      GreedySelf(fields, n - 1);
      var before := Greedy(fields[..n - 1], fields);
      IdentityTaken(before, n - 1);
      FirstFreeIs(fields, Taken(before), fields[n - 1], n - 1, 0);
      GreedyStep(fields, fields, n - 1);
    }
  }

  lemma IdentityTaken(matched: seq<int>, n: nat)
    requires |matched| == n && forall i :: 0 <= i < n ==> matched[i] == i
    ensures forall k :: k in Taken(matched) <==> 0 <= k < n
  {
    forall k | 0 <= k < n ensures k in Taken(matched) { assert matched[k] == k; }
  }

  // ---- Which candidate each schedule gets ---------------------------------------------------------

  /** How often a text stands before a place. */
  function CountBefore(texts: seq<string>, text: string, n: nat): nat
    requires n <= |texts|
  {
    multiset(texts[..n])[text]
  }

  lemma CountStep(texts: seq<string>, text: string, n: nat)
    requires n < |texts|
    ensures CountBefore(texts, text, n + 1) == CountBefore(texts, text, n) + if texts[n] == text then 1 else 0
  {
    assert texts[..n + 1] == texts[..n] + [texts[n]];
  }

  lemma CountAll(texts: seq<string>, text: string)
    ensures CountBefore(texts, text, |texts|) == multiset(texts)[text]
    ensures CountBefore(texts, text, 0) == 0
  {
    TakeAll(texts);
  }

  lemma {:induction false} CountGrows(texts: seq<string>, text: string, a: nat, b: nat)
    requires a <= b <= |texts|
    ensures CountBefore(texts, text, a) <= CountBefore(texts, text, b)
    ensures a < b && texts[a] == text ==> CountBefore(texts, text, a) < CountBefore(texts, text, b)
    decreases b - a
  {
    hide CountBefore;
    if a < b {
      CountStep(texts, text, a);
      CountGrows(texts, text, a + 1, b);
    }
  }

  /** Every number below the count is the count before some occurrence. */
  lemma {:induction false} Occurrence(texts: seq<string>, text: string, b: nat, m: nat) returns (c: nat)
    requires b <= |texts| && m < CountBefore(texts, text, b)
    ensures c < b && texts[c] == text && CountBefore(texts, text, c) == m
  {
    hide CountBefore;
    if b == 0 {
      CountAll(texts, text);
      assert false;
    } else {
      CountStep(texts, text, b - 1);
      if m < CountBefore(texts, text, b - 1) {
        c := Occurrence(texts, text, b - 1, m);
      } else {
        c := b - 1;
      }
    }
  }

  /** The taken candidates of a text are the first m of them. */
  ghost predicate FirstTaken(fields: seq<string>, taken: set<int>, text: string, m: nat) {
    forall c :: 0 <= c < |fields| && fields[c] == text ==> (c in taken <==> CountBefore(fields, text, c) < m)
  }

  /** Then the first free one has m before it. */
  lemma FirstFreeCount(fields: seq<string>, taken: set<int>, text: string, m: nat)
    requires FirstTaken(fields, taken, text, m)
    ensures var i := FirstFree(fields, taken, text, 0);
            && (i >= 0 ==> CountBefore(fields, text, i) == m)
            && (i >= 0 <==> m < multiset(fields)[text])
  {
    hide CountBefore, FirstFree;
    var i := FirstFree(fields, taken, text, 0);
    CountAll(fields, text);
    if i >= 0 {
      if CountBefore(fields, text, i) > m {
        var c := Occurrence(fields, text, i, m);
        assert false;
      }
      CountGrows(fields, text, i, |fields|);
    } else if m < multiset(fields)[text] {
      var c := Occurrence(fields, text, |fields|, m);
      assert false;
    }
  }

  /** With it taken too, the first m + 1 are taken. */
  lemma FirstTakenStep(fields: seq<string>, taken: set<int>, text: string, m: nat)
    requires FirstTaken(fields, taken, text, m)
    ensures var i := FirstFree(fields, taken, text, 0);
            FirstTaken(fields, if i >= 0 then taken + {i} else taken, text, m + 1)
  {
    hide CountBefore, FirstFree;
    var i := FirstFree(fields, taken, text, 0);
    FirstFreeCount(fields, taken, text, m);
    CountAll(fields, text);
    forall c | 0 <= c < |fields| && fields[c] == text
      ensures i < 0 ==> CountBefore(fields, text, c) < m + 1
      ensures 0 <= i < c ==> CountBefore(fields, text, c) > m
      ensures c < i ==> CountBefore(fields, text, c) < m
    {
      CountGrows(fields, text, c, |fields|);
      if 0 <= i < c { CountGrows(fields, text, i, c); }
      if c < i { CountGrows(fields, text, c, i); }
    }
  }

  lemma OtherTaken(fields: seq<string>, taken: set<int>, text: string, m: nat, i: int)
    requires FirstTaken(fields, taken, text, m) && 0 <= i < |fields| && fields[i] != text
    ensures FirstTaken(fields, taken + {i}, text, m)
  {}

  lemma CountLast(texts: seq<string>, text: string)
    requires texts != []
    ensures multiset(texts)[text] ==
            multiset(texts[..|texts| - 1])[text] + if texts[|texts| - 1] == text then 1 else 0
  {
    FrontAndLast(texts);
  }

  /** As many candidates of a text are taken, the first ones, as are wanted. */
  lemma {:induction false} TakenAreFirst(wanted: seq<string>, fields: seq<string>, text: string)
    ensures FirstTaken(fields, Taken(Greedy(wanted, fields)), text, multiset(wanted)[text])
  {
    hide CountBefore, FirstFree, Taken, Greedy;
    if wanted == [] {
      NothingMatched(fields);
    } else {
      var n := |wanted| - 1;
      var before := Greedy(wanted[..n], fields);
      var i := FirstFree(fields, Taken(before), wanted[n], 0);
      TakenAreFirst(wanted[..n], fields, text);
      hide FirstTaken;
      GreedyLast(wanted, fields);
      TakenAppend(before, i);
      CountLast(wanted, text);
      if wanted[n] == text {
        FirstTakenStep(fields, Taken(before), text, multiset(wanted[..n])[text]);
      } else if i >= 0 {
        OtherTaken(fields, Taken(before), text, multiset(wanted[..n])[text], i);
      }
    }
  }

  /** A candidate is taken exactly when fewer of its text stand before it than are wanted. */
  lemma TakenExactly(wanted: seq<string>, fields: seq<string>, c: nat)
    requires c < |fields|
    ensures c in Taken(Greedy(wanted, fields)) <==> CountBefore(fields, fields[c], c) < multiset(wanted)[fields[c]]
  {
    hide CountBefore, Taken, Greedy;
    TakenAreFirst(wanted, fields, fields[c]);
  }

  lemma {:induction false} GreedyAt(wanted: seq<string>, fields: seq<string>, w: nat)
    requires w < |wanted|
    ensures Greedy(wanted, fields)[w] == FirstFree(fields, Taken(Greedy(wanted[..w], fields)), wanted[w], 0)
  {
    hide FirstFree, Taken, Greedy;
    var last := |wanted| - 1;
    GreedyLast(wanted, fields);
    if w < last {
      GreedyAt(wanted[..last], fields, w);
      assert wanted[..last][..w] == wanted[..w];
    }
  }

  /** The m-th wanted schedule of a text gets the m-th candidate of that text, if there are so many. */
  lemma MatchedExactly(wanted: seq<string>, fields: seq<string>, w: nat)
    requires w < |wanted|
    ensures var c, text := Greedy(wanted, fields)[w], wanted[w];
            && (c >= 0 <==> CountBefore(wanted, text, w) < multiset(fields)[text])
            && (c >= 0 ==> fields[c] == text && CountBefore(fields, text, c) == CountBefore(wanted, text, w))
  {
    hide Greedy, FirstFree, Taken, FirstTaken;
    GreedyAt(wanted, fields, w);
    TakenAreFirst(wanted[..w], fields, wanted[w]);
    FirstFreeCount(fields, Taken(Greedy(wanted[..w], fields)), wanted[w], CountBefore(wanted, wanted[w], w));
  }
}

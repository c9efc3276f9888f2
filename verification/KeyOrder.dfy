/** The order in which header names are printed: Go's `encoding/json` sorts them, and JavaScript lists array indices
    first and sorts the others by UTF-16 code units. */
module KeyOrder {
  import opened Sequences
  import opened Text

  /** The two implementations of the canonical form. */
  datatype Style = Go | Js

  // ---- UTF-16 -------------------------------------------------------------------------------------

  /** The code units of one character. */
  function Units(c: char): (units: seq<int>)
    ensures |units| >= 1
  {
    var n := c as int;
    if n < 0x10000 then [n] else [0xD800 + (n - 0x10000) / 0x400, 0xDC00 + (n - 0x10000) % 0x400]
  }

  function Utf16(s: string): seq<int> { if s == "" then [] else Units(s[0]) + Utf16(s[1..]) }

  predicate LexLess(a: seq<int>, b: seq<int>) {
    b != [] && (a == [] || a[0] < b[0] || (a[0] == b[0] && LexLess(a[1..], b[1..])))
  }

  /** JavaScript's `<` on strings. */
  predicate JsLess(a: string, b: string) { LexLess(Utf16(a), Utf16(b)) }

  /** Where a character stands among all characters in that order: the supplementary planes come before U+E000. */
  function Rank(c: char): int {
    var n := c as int;
    if n < 0xD800 then n else if n >= 0x10000 then n - 0x10000 + 0xD800 else n + 0x100000
  }

  predicate RankLess(a: string, b: string) {
    b != "" && (a == "" || Rank(a[0]) < Rank(b[0]) || (a[0] == b[0] && RankLess(a[1..], b[1..])))
  }

  lemma RankInjective(c: char, d: char)
    ensures Rank(c) == Rank(d) <==> c == d
  {}

  lemma {:induction false} LexCancel(prefix: seq<int>, a: seq<int>, b: seq<int>)
    ensures LexLess(prefix + a, prefix + b) == LexLess(a, b)
  {
    if prefix == [] {
      assert prefix + a == a && prefix + b == b;
    } else {
      LexCancel(prefix[1..], a, b);
      assert (prefix + a)[1..] == prefix[1..] + a && (prefix + b)[1..] == prefix[1..] + b;
    }
  }

  lemma UnitsOrder(c: char, d: char, x: seq<int>, y: seq<int>)
    requires c != d
    ensures LexLess(Units(c) + x, Units(d) + y) <==> Rank(c) < Rank(d)
  {
    var u, v := Units(c) + x, Units(d) + y;
    assert u[0] == Units(c)[0] && v[0] == Units(d)[0];
    if c as int >= 0x10000 && d as int >= 0x10000 {
      var m, n := c as int - 0x10000, d as int - 0x10000;
      assert m == m / 0x400 * 0x400 + m % 0x400 && n == n / 0x400 * 0x400 + n % 0x400;
      assert u[1..][0] == Units(c)[1] && v[1..][0] == Units(d)[1];
    }
  }

  /** Comparing code units is comparing ranks. */
  lemma {:induction false} JsLessIsRankLess(a: string, b: string)
    ensures JsLess(a, b) <==> RankLess(a, b)
  {
    if a != "" && b != "" {
      if a[0] == b[0] {
        JsLessIsRankLess(a[1..], b[1..]);
        LexCancel(Units(a[0]), Utf16(a[1..]), Utf16(b[1..]));
      } else {
        UnitsOrder(a[0], b[0], Utf16(a[1..]), Utf16(b[1..]));
        RankInjective(a[0], b[0]);
      }
    }
  }

  lemma {:induction false} RankLessTotal(a: string, b: string)
    ensures RankLess(a, b) || RankLess(b, a) || a == b
  {
    if a != "" && b != "" {
      RankInjective(a[0], b[0]);
      if a[0] == b[0] {
        RankLessTotal(a[1..], b[1..]);
        SameTail(a, b);
      }
    }
  }

  lemma SameTail(a: string, b: string)
    requires a != "" && b != "" && a[0] == b[0]
    ensures a[1..] == b[1..] ==> a == b
  {
    if a[1..] == b[1..] {
      HeadAndTail(a, b);
    }
  }

  lemma {:induction false} RankLessAsymmetric(a: string, b: string)
    requires RankLess(a, b)
    ensures !RankLess(b, a) && a != b
  {
    if a != "" && a[0] == b[0] {
      RankLessAsymmetric(a[1..], b[1..]);
    }
  }

  lemma {:induction false} RankLessTransitive(a: string, b: string, c: string)
    requires RankLess(a, b) && RankLess(b, c)
    ensures RankLess(a, c)
  {
    if a != "" && a[0] == b[0] && b[0] == c[0] {
      RankLessTransitive(a[1..], b[1..], c[1..]);
    }
  }

  // ---- Array indices ------------------------------------------------------------------------------

  /** A property name that JavaScript takes for an array index: a number below 2^32 - 1 without leading zeros. */
  predicate IsIndex(key: string) {
    key != "" && AllDigits(key) && (key == "0" || key[0] != '0') && DigitsValue(key) < 0xffff_ffff
  }

  lemma {:induction false} DigitsOfValue(s: string)
    requires s != "" && AllDigits(s) && (s == "0" || s[0] != '0')
    ensures Digits(DigitsValue(s)) == s
    ensures s != "0" ==> DigitsValue(s) > 0
  {
    var front, last := s[..|s| - 1], s[|s| - 1];
    assert s == front + [last];
    if front != "" {
      DigitsOfValue(front);
    } else {
      assert DigitsValue(front) == 0;
    }
  }

  lemma IndexValueInjective(a: string, b: string)
    requires IsIndex(a) && IsIndex(b) && DigitsValue(a) == DigitsValue(b)
    ensures a == b
  {
    DigitsOfValue(a);
    DigitsOfValue(b);
  }

  // ---- The two orders -----------------------------------------------------------------------------

  /** Which of two names is printed first. */
  predicate Before(style: Style, a: string, b: string) {
    match style
    case Go => Less(a, b)
    case Js =>
      if IsIndex(a) && IsIndex(b) then DigitsValue(a) < DigitsValue(b)
      else IsIndex(a) || (!IsIndex(b) && JsLess(a, b))
  }

  lemma BeforeTotal(style: Style, a: string, b: string)
    ensures Before(style, a, b) || Before(style, b, a) || a == b
  {
    hide Less, JsLess, RankLess;
    LessTotal(a, b);
    JsLessIsRankLess(a, b);
    JsLessIsRankLess(b, a);
    RankLessTotal(a, b);
    if IsIndex(a) && IsIndex(b) && DigitsValue(a) == DigitsValue(b) {
      IndexValueInjective(a, b);
    }
  }

  lemma BeforeAsymmetric(style: Style, a: string, b: string)
    requires Before(style, a, b)
    ensures !Before(style, b, a) && a != b
  {
    hide IsIndex, Less, JsLess, RankLess;
    if style.Go? {
      LessAsymmetric(a, b);
    } else if JsLess(a, b) {
      JsLessIsRankLess(a, b);
      JsLessIsRankLess(b, a);
      RankLessAsymmetric(a, b);
    }
  }

  lemma BeforeTransitive(style: Style, a: string, b: string, c: string)
    requires Before(style, a, b) && Before(style, b, c)
    ensures Before(style, a, c)
  {
    hide IsIndex, Less, JsLess, RankLess;
    if style.Go? {
      LessTransitive(a, b, c);
    } else if JsLess(a, b) && JsLess(b, c) {
      JsLessIsRankLess(a, b);
      JsLessIsRankLess(b, c);
      JsLessIsRankLess(a, c);
      RankLessTransitive(a, b, c);
    }
  }

  /** Where two texts first differ. */
  ghost predicate DifferAt(a: string, b: string, i: nat) {
    i < |a| && i < |b| && a[i] != b[i] && a[..i] == b[..i]
  }

  /** One character from the supplementary planes and one from U+E000 up. */
  predicate OddPair(c: char, d: char) { c as int >= 0x10000 && 0xE000 <= d as int < 0x10000 }

  /** The two texts differ first in two characters that UTF-16 orders the other way round. */
  ghost predicate OddlyOrdered(a: string, b: string) {
    exists i: nat :: DifferAt(a, b, i) && (OddPair(a[i], b[i]) || OddPair(b[i], a[i]))
  }

  lemma DifferNext(a: string, b: string, i: nat)
    requires a != "" && b != "" && a[0] == b[0]
    ensures DifferAt(a, b, i + 1) <==> DifferAt(a[1..], b[1..], i)
  {
    if i < |a| - 1 && i < |b| - 1 {
      assert a[..i + 1] == [a[0]] + a[1..][..i] && b[..i + 1] == [b[0]] + b[1..][..i];
      if a[..i + 1] == b[..i + 1] {
        CancelLeft([a[0]], a[1..][..i], b[1..][..i]);
      }
    }
  }

  lemma OddlyNext(a: string, b: string)
    requires a != "" && b != "" && a[0] == b[0]
    ensures OddlyOrdered(a, b) <==> OddlyOrdered(a[1..], b[1..])
  {
    if i: nat :| DifferAt(a, b, i) && (OddPair(a[i], b[i]) || OddPair(b[i], a[i])) {
      DifferNext(a, b, i - 1);
      assert DifferAt(a[1..], b[1..], i - 1);
    }
    if i: nat :| DifferAt(a[1..], b[1..], i) && (OddPair(a[1..][i], b[1..][i]) || OddPair(b[1..][i], a[1..][i])) {
      DifferNext(a, b, i);
      assert DifferAt(a, b, i + 1);
    }
  }

  lemma {:induction false} UnitOrderExactly(a: string, b: string)
    requires a != b
    ensures (Less(a, b) <==> RankLess(a, b)) <==> !OddlyOrdered(a, b)
  {
    hide DifferAt, OddlyOrdered;
    if a == "" || b == "" {
      NothingOdd(a, b);
    } else if a[0] == b[0] {
      SameTail(a, b);
      UnitOrderExactly(a[1..], b[1..]);
      OddlyNext(a, b);
    } else {
      OddAtOnce(a, b);
      RankInjective(a[0], b[0]);
    }
  }

  lemma NothingOdd(a: string, b: string)
    requires a == "" || b == ""
    ensures !OddlyOrdered(a, b)
  {}

  lemma LaterDifference(a: string, b: string, i: nat)
    ensures DifferAt(a, b, i) && i > 0 ==> a[0] == b[0]
  {
    if DifferAt(a, b, i) && i > 0 {
      assert a[..i][0] == b[..i][0];
    }
  }

  lemma OddAtOnce(a: string, b: string)
    requires a != "" && b != "" && a[0] != b[0]
    ensures OddlyOrdered(a, b) <==> OddPair(a[0], b[0]) || OddPair(b[0], a[0])
  {
    assert DifferAt(a, b, 0);
    forall i: nat { LaterDifference(a, b, i); }
  }

  /** Two names that both implementations print in the same order: two indices that compare as numbers as they do as
      texts, an index and a later text, or two others that do not differ first in an odd pair. */
  lemma OrdersAgreeExactly(a: string, b: string)
    requires a != b
    ensures (Before(Go, a, b) <==> Before(Js, a, b)) <==>
            if IsIndex(a) && IsIndex(b) then (Less(a, b) <==> DigitsValue(a) < DigitsValue(b))
            else if IsIndex(a) then Less(a, b)
            else if IsIndex(b) then Less(b, a)
            else !OddlyOrdered(a, b)
  {
    hide IsIndex, OddlyOrdered, RankLess, JsLess, Less;
    UnitOrderExactly(a, b);
    JsLessIsRankLess(a, b);
    LessTotal(a, b);
    if Less(b, a) { LessAsymmetric(b, a); }
  }

  /** Names that they do not: `9` and `10`, or U+FF5E and U+1F600. */
  lemma OrdersDiffer()
    ensures !(Before(Go, "9", "10") <==> Before(Js, "9", "10"))
    ensures !(Before(Go, "\U{FF5E}", "\U{1F600}") <==> Before(Js, "\U{FF5E}", "\U{1F600}"))
  {
    assert DigitsValue("") == 0;
    assert "9"[..0] == "" && "10"[..1] == "1" && "1"[..0] == "";
    assert DigitsValue("9") == 9 && DigitsValue("1") == 1 && DigitsValue("10") == 10;
    JsLessIsRankLess("\U{FF5E}", "\U{1F600}");
  }

  // ---- Sorted keys --------------------------------------------------------------------------------

  predicate IsLeast(style: Style, k: string, keys: set<string>) {
    k in keys && forall o :: o in keys ==> o == k || Before(style, k, o)
  }

  lemma {:induction false} LeastExists(style: Style, keys: set<string>)
    requires keys != {}
    ensures exists k :: IsLeast(style, k, keys)
    decreases |keys|
  {
    hide Before;
    var k :| k in keys;
    var others := keys - {k};
    if others == {} {
      assert keys == {k};
      assert IsLeast(style, k, keys);
    } else {
      LeastExists(style, others);
      var m :| IsLeast(style, m, others);
      BeforeTotal(style, k, m);
      var least := if Before(style, k, m) then k else m;
      forall o | o in keys ensures o == least || Before(style, least, o) {
        if o != k && o != m && least == k { BeforeTransitive(style, k, m, o); }
      }
      assert IsLeast(style, least, keys);
    }
  }

  lemma LeastUnique(style: Style, j: string, k: string, keys: set<string>)
    requires IsLeast(style, j, keys) && IsLeast(style, k, keys)
    ensures j == k
  {
    hide Before;
    if j != k { BeforeAsymmetric(style, j, k); }
  }

  function Least(style: Style, keys: set<string>): (k: string)
    requires keys != {}
    ensures IsLeast(style, k, keys)
  {
    LeastExists(style, keys);
    assert forall j, k | IsLeast(style, j, keys) && IsLeast(style, k, keys) :: j == k by {
      forall j, k | IsLeast(style, j, keys) && IsLeast(style, k, keys) ensures j == k {
        LeastUnique(style, j, k, keys);
      }
    }
    var k :| k in keys && IsLeast(style, k, keys);
    k
  }

  /** The names in the order in which they are printed. */
  function SortedKeys(style: Style, keys: set<string>): (sorted: seq<string>)
    ensures forall k :: k in sorted <==> k in keys
    decreases |keys|
  {
    if keys == {} then []
    else
      var k := Least(style, keys);
      [k] + SortedKeys(style, keys - {k})
  }

  predicate InOrder(style: Style, s: seq<string>) { forall i, j :: 0 <= i < j < |s| ==> Before(style, s[i], s[j]) }

  lemma {:induction false} SortedKeysAre(style: Style, keys: set<string>)
    ensures InOrder(style, SortedKeys(style, keys))
    decreases |keys|
  {
    hide Before;
    if keys != {} {
      var k := Least(style, keys);
      SortedKeysAre(style, keys - {k});
      SortedKeysAre(style, keys - {k});
      LeastFirst(style, k, SortedKeys(style, keys - {k}));
    }
  }

  lemma LeastFirst(style: Style, k: string, rest: seq<string>)
    requires forall o :: o in rest ==> Before(style, k, o)
    requires InOrder(style, rest)
    ensures InOrder(style, [k] + rest)
  {
    hide Before;
    var s := [k] + rest;
    forall i, j | 0 <= i < j < |s| ensures Before(style, s[i], s[j]) {
      if i > 0 {
        assert s[i] == rest[i - 1] && s[j] == rest[j - 1];
      } else {
        assert s[j] in rest;
      }
    }
  }

  /** Both orders agree on every two of the names. */
  ghost predicate OrdersAgree(keys: set<string>) {
    forall a, b :: a in keys && b in keys ==> (Before(Go, a, b) <==> Before(Js, a, b))
  }

  /** Both implementations list a set of names alike exactly when their orders agree on every two of them. */
  lemma {:induction false} ListedAlikeExactly(keys: set<string>)
    ensures SortedKeys(Go, keys) == SortedKeys(Js, keys) <==> OrdersAgree(keys)
    decreases |keys|
  {
    hide Before;
    if OrdersAgree(keys) {
      if keys != {} {
        var k := Least(Go, keys);
        assert IsLeast(Js, k, keys);
        LeastUnique(Js, k, Least(Js, keys), keys);
        ListedAlikeExactly(keys - {k});
      }
    } else if SortedKeys(Go, keys) == SortedKeys(Js, keys) {
      var a, b :| a in keys && b in keys && !(Before(Go, a, b) <==> Before(Js, a, b));
      var s := SortedKeys(Go, keys);
      var i :| 0 <= i < |s| && s[i] == a;
      var j :| 0 <= j < |s| && s[j] == b;
      PlacesDecide(Go, keys, i, j);
      PlacesDecide(Js, keys, i, j);
    }
  }

  lemma PlacesDecide(style: Style, keys: set<string>, i: nat, j: nat)
    requires i < |SortedKeys(style, keys)| && j < |SortedKeys(style, keys)|
    ensures var s := SortedKeys(style, keys); Before(style, s[i], s[j]) <==> i < j
  {
    hide Before;
    var s := SortedKeys(style, keys);
    SortedKeysAre(style, keys);
    if i >= j && Before(style, s[i], s[j]) {
      BeforeAsymmetric(style, s[i], s[j]);
    }
  }
}

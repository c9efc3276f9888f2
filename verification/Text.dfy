/** The parts of Go's `strings` and `strconv` packages that the rest of the model needs, as functions on
    `string`, with the laws about them that later proofs use. */
module Text {
  import opened Wrappers

  // ---- Splitting on a separator -------------------------------------------------------------------

  /** `strings.Split(s, sep)` for a one-character separator. */
  function Split(s: string, sep: char): (parts: seq<string>)
    ensures |parts| >= 1
  {
    if s == "" then [""]
    else if s[0] == sep then [""] + Split(s[1..], sep)
    else
      var rest := Split(s[1..], sep);
      [[s[0]] + rest[0]] + rest[1..]
  }

  /** `strings.Join(parts, sep)`. */
  function Join(parts: seq<string>, sep: char): string {
    if |parts| == 0 then ""
    else if |parts| == 1 then parts[0]
    else parts[0] + [sep] + Join(parts[1..], sep)
  }

  lemma {:induction false} SplitAtom(s: string, sep: char)
    requires sep !in s
    ensures Split(s, sep) == [s]
  {
    if s != "" {
      SplitAtom(s[1..], sep);
      assert s == [s[0]] + s[1..];
    }
  }

  function SplitStep(c: char, rest: seq<string>, sep: char): seq<string>
    requires |rest| >= 1
  {
    if c == sep then [""] + rest else [[c] + rest[0]] + rest[1..]
  }

  lemma SplitStepConcat(c: char, rest: seq<string>, more: seq<string>, sep: char)
    requires |rest| >= 1
    ensures SplitStep(c, rest + more, sep) == SplitStep(c, rest, sep) + more
  {}

  lemma SplitPrepend(c: char, s: string, sep: char)
    ensures Split([c] + s, sep) == SplitStep(c, Split(s, sep), sep)
  {
    assert ([c] + s)[1..] == s;
  }

  /** A separator between two texts separates their parts. */
  lemma {:induction false} SplitConcat(a: string, sep: char, b: string)
    ensures Split(a + [sep] + b, sep) == Split(a, sep) + Split(b, sep)
  {
    if a == "" {
      assert a + [sep] + b == [sep] + b;
      SplitPrepend(sep, b, sep);
    } else {
      var rest := a[1..] + [sep] + b;
      SplitConcat(a[1..], sep, b);
      SplitPrepend(a[0], rest, sep);
      assert a + [sep] + b == [a[0]] + rest;
      SplitPrepend(a[0], a[1..], sep);
      assert a == [a[0]] + a[1..];
      SplitStepConcat(a[0], Split(a[1..], sep), Split(b, sep), sep);
    }
  }

  lemma SplitCons(head: string, sep: char, tail: string)
    requires sep !in head
    ensures Split(head + [sep] + tail, sep) == [head] + Split(tail, sep)
  {
    SplitConcat(head, sep, tail);
    SplitAtom(head, sep);
  }

  /** Joining what was split gives the text back. */
  lemma {:induction false} JoinSplit(s: string, sep: char)
    ensures Join(Split(s, sep), sep) == s
  {
    if s != "" {
      JoinSplit(s[1..], sep);
      var rest := Split(s[1..], sep);
      if s[0] == sep {
        assert ([""] + rest)[1..] == rest;
        assert s == "" + [sep] + s[1..];
      } else {
        var all := [[s[0]] + rest[0]] + rest[1..];
        assert all[1..] == rest[1..];
        if |rest| > 1 {
          assert Join(all, sep) == ([s[0]] + rest[0]) + [sep] + Join(rest[1..], sep);
          assert Join(all, sep) == [s[0]] + Join(rest, sep);
        }
        assert s == [s[0]] + s[1..];
      }
    }
  }

  lemma {:induction false} SplitPartsLackSep(s: string, sep: char)
    ensures forall p :: p in Split(s, sep) ==> sep !in p
  {
    if s != "" {
      SplitPartsLackSep(s[1..], sep);
      var rest := Split(s[1..], sep);
      if s[0] != sep {
        forall p | p in Split(s, sep) ensures sep !in p {
          assert p == [s[0]] + rest[0] || p in rest[1..];
        }
      }
    }
  }

  /** The last part of a text that ends in a separator and a separator-free word is that word. */
  lemma SplitLast(s: string, sep: char, word: string)
    requires sep !in word
    ensures Split(s + [sep] + word, sep) == Split(s, sep) + [word]
  {
    SplitConcat(s, sep, word);
    SplitAtom(word, sep);
  }

  /** Where the first separator is; -1 if there is none. */
  function CutAt(s: string, sep: char): (i: int)
    ensures -1 <= i < |s|
    ensures i >= 0 ==> s[i] == sep
  {
    if s == "" then -1
    else if s[0] == sep then 0
    else if CutAt(s[1..], sep) < 0 then -1
    else 1 + CutAt(s[1..], sep)
  }

  lemma {:induction false} CutFirst(key: string, sep: char, value: string)
    requires sep !in key
    ensures CutAt(key + [sep] + value, sep) == |key|
  {
    var line := key + [sep] + value;
    if key != "" {
      CutFirst(key[1..], sep, value);
      assert line[1..] == key[1..] + [sep] + value;
    }
  }

  lemma CutLine(key: string, sep: char, value: string)
    requires sep !in key
    ensures var line := key + [sep] + value;
            CutAt(line, sep) == |key| && line[..|key|] == key && line[|key| + 1..] == value
  {
    CutFirst(key, sep, value);
  }

  // ---- Decimal numbers ----------------------------------------------------------------------------

  predicate IsDigit(c: char) { '0' <= c <= '9' }

  predicate AllDigits(s: string) { forall i :: 0 <= i < |s| ==> IsDigit(s[i]) }

  function DigitChar(d: nat): (c: char)
    requires d < 10
    ensures IsDigit(c) && c as int - '0' as int == d
  {
    ('0' as int + d) as char
  }

  /** `fmt.Sprintf("%d", n)` for a natural number. */
  function Digits(n: nat): (s: string)
    ensures |s| >= 1 && AllDigits(s)
  {
    if n < 10 then [DigitChar(n)] else Digits(n / 10) + [DigitChar(n % 10)]
  }

  /** The number a run of digits denotes. */
  function DigitsValue(s: string): nat
    requires AllDigits(s)
  {
    if s == "" then 0 else DigitsValue(s[..|s| - 1]) * 10 + (s[|s| - 1] as int - '0' as int)
  }

  lemma {:induction false} DigitsRoundTrip(n: nat)
    ensures DigitsValue(Digits(n)) == n
  {
    if n < 10 {
      assert Digits(n) == [DigitChar(n)];
      assert Digits(n)[..0] == "";
      assert DigitsValue("") == 0;
    } else {
      DigitsRoundTrip(n / 10);
      assert Digits(n)[..|Digits(n)| - 1] == Digits(n / 10);
    }
  }

  const MAX_INT64: int := 0x7fff_ffff_ffff_ffff
  const MIN_INT64: int := -0x8000_0000_0000_0000

  predicate IsInt64(n: int) { MIN_INT64 <= n <= MAX_INT64 }

  /** What 64-bit arithmetic makes of a number. */
  function Wrap(n: int): (r: int)
    ensures IsInt64(r)
  {
    (n + 0x8000_0000_0000_0000) % 0x1_0000_0000_0000_0000 - 0x8000_0000_0000_0000
  }

  lemma WrapFits(n: int)
    requires IsInt64(n)
    ensures Wrap(n) == n
  {}

  /** `strconv.ParseInt(s, 10, 64)`: an optional sign, at least one digit, and a value that fits. */
  function ParseInt(s: string): Option<int> {
    var signed := s != "" && (s[0] == '-' || s[0] == '+');
    var body := if signed then s[1..] else s;
    if body == "" || !AllDigits(body) then None
    else
      var v := if signed && s[0] == '-' then -(DigitsValue(body) as int) else DigitsValue(body);
      if MIN_INT64 <= v <= MAX_INT64 then Some(v) else None
  }

  lemma ParseDigits(n: nat)
    requires n <= MAX_INT64
    ensures ParseInt(Digits(n)) == Some(n)
  {
    DigitsRoundTrip(n);
    assert IsDigit(Digits(n)[0]);
  }

  // ---- White space --------------------------------------------------------------------------------

  /** `unicode.IsSpace`. */
  predicate IsSpace(c: char) {
    || '\t' <= c <= '\r' || c == ' ' || c == '\U{85}' || c == '\U{A0}' || c == '\U{1680}'
    || '\U{2000}' <= c <= '\U{200A}' || c == '\U{2028}' || c == '\U{2029}' || c == '\U{202F}'
    || c == '\U{205F}' || c == '\U{3000}'
  }

  /** What JavaScript takes for white space: not U+0085, but U+FEFF. */
  predicate IsJsSpace(c: char) { (IsSpace(c) && c != '\U{85}') || c == '\U{FEFF}' }

  function TrimLeft(s: string): string {
    if s != "" && IsSpace(s[0]) then TrimLeft(s[1..]) else s
  }

  function TrimRight(s: string): string {
    if s != "" && IsSpace(s[|s| - 1]) then TrimRight(s[..|s| - 1]) else s
  }

  /** `strings.TrimSpace`. */
  function TrimSpace(s: string): string { TrimRight(TrimLeft(s)) }

  predicate Trimmed(s: string) { s == "" || (!IsSpace(s[0]) && !IsSpace(s[|s| - 1])) }

  lemma {:induction false} TrimRightShape(s: string)
    ensures var r := TrimRight(s);
            r <= s && (r == "" || !IsSpace(r[|r| - 1])) && (forall i :: |r| <= i < |s| ==> IsSpace(s[i]))
  {
    if s != "" && IsSpace(s[|s| - 1]) {
      TrimRightShape(s[..|s| - 1]);
    }
  }

  lemma {:induction false} TrimLeftShape(s: string)
    ensures var r := TrimLeft(s);
            |r| <= |s| && r == s[|s| - |r|..] && (r == "" || !IsSpace(r[0]))
                && (forall i :: 0 <= i < |s| - |r| ==> IsSpace(s[i]))
  {
    if s != "" && IsSpace(s[0]) {
      TrimLeftShape(s[1..]);
      assert s[1..][|s| - 1 - |TrimLeft(s)|..] == s[|s| - |TrimLeft(s)|..];
      forall i | 0 <= i < |s| - |TrimLeft(s)| ensures IsSpace(s[i]) {
        if i > 0 { assert s[i] == s[1..][i - 1]; }
      }
    }
  }

  lemma TrimSpaceTrims(s: string)
    ensures Trimmed(TrimSpace(s))
    ensures Trimmed(s) ==> TrimSpace(s) == s
  {
    TrimLeftShape(s);
    TrimRightShape(TrimLeft(s));
  }

  lemma TrimAfterSpace(s: string)
    ensures TrimSpace(" " + s) == TrimSpace(s)
  {
    assert (" " + s)[1..] == s;
  }

  /** The length of the run of non-space characters a text starts with. */
  function WordLength(s: string): (n: nat)
    ensures n <= |s|
  {
    if s == "" || IsSpace(s[0]) then 0 else 1 + WordLength(s[1..])
  }

  lemma {:induction false} WordLengthIs(word: string, rest: string)
    requires forall i :: 0 <= i < |word| ==> !IsSpace(word[i])
    requires rest == "" || IsSpace(rest[0])
    ensures WordLength(word + rest) == |word|
  {
    if word != "" {
      WordLengthIs(word[1..], rest);
      assert (word + rest)[1..] == word[1..] + rest;
    } else {
      assert word + rest == rest;
    }
  }

  lemma {:induction false} WordLengthShape(s: string)
    ensures var n := WordLength(s);
            (forall i :: 0 <= i < n ==> !IsSpace(s[i])) && (n < |s| ==> IsSpace(s[n]))
  {
    if s != "" && !IsSpace(s[0]) {
      WordLengthShape(s[1..]);
    }
  }

  /** `strings.Fields(s)`. */
  function Fields(s: string): seq<string>
    decreases |s|
  {
    if s == "" then []
    else if IsSpace(s[0]) then Fields(s[1..])
    else [s[..WordLength(s)]] + Fields(s[WordLength(s)..])
  }

  /** A non-empty run of non-space characters. */
  predicate IsWord(w: string) { w != "" && forall i :: 0 <= i < |w| ==> !IsSpace(w[i]) }

  lemma {:induction false} FieldsAreWords(s: string)
    ensures forall i :: 0 <= i < |Fields(s)| ==> IsWord(Fields(s)[i])
    decreases |s|
  {
    if s != "" {
      if IsSpace(s[0]) {
        FieldsAreWords(s[1..]);
      } else {
        WordLengthShape(s);
        FieldsAreWords(s[WordLength(s)..]);
      }
    }
  }

  lemma {:induction false} FieldsOfWord(w: string, rest: string)
    requires IsWord(w)
    requires rest == "" || IsSpace(rest[0])
    ensures Fields(w + rest) == [w] + Fields(rest)
  {
    WordLengthIs(w, rest);
    assert (w + rest)[..|w|] == w;
    assert (w + rest)[|w|..] == rest;
  }

  lemma OneField(w: string)
    requires IsWord(w)
    ensures Fields(w) == [w]
  {
    FieldsOfWord(w, "");
    assert w + "" == w;
  }

  lemma FirstWord(a: string)
    requires a != "" && !IsSpace(a[0])
    ensures var word, rest := a[..WordLength(a)], a[WordLength(a)..];
            IsWord(word) && a == word + rest && Fields(a) == [word] + Fields(rest) && (rest == "" || IsSpace(rest[0]))
  {
    WordLengthShape(a);
  }

  lemma FieldsStep(s: string)
    requires s != ""
    ensures Fields(s) == if IsSpace(s[0]) then Fields(s[1..]) else [s[..WordLength(s)]] + Fields(s[WordLength(s)..])
    ensures Fields("") == [] && IsSpace(' ')
    ensures !IsSpace(s[0]) ==> WordLength(s) > 0
  {}

  /** A space between two texts separates their fields. */
  lemma {:induction false} FieldsConcat(a: string, b: string)
    ensures Fields(a + " " + b) == Fields(a) + Fields(b)
    decreases |a|
  {
    hide Fields, WordLength, IsSpace;
    var s := a + " " + b;
    FieldsStep(s);
    if a == "" {
      assert s[1..] == b;
    } else {
      FieldsStep(a);
      if IsSpace(a[0]) {
        FieldsConcat(a[1..], b);
        assert s[1..] == a[1..] + " " + b;
      } else {
        var word, rest := a[..WordLength(a)], a[WordLength(a)..];
        FieldsConcat(rest, b);
        FirstWord(a);
        FieldsOfWord(word, rest + " " + b);
        assert word + (rest + " " + b) == s;
      }
    }
  }

  // ---- Order --------------------------------------------------------------------------------------

  /** Go's `<` on strings. */
  predicate Less(a: string, b: string) {
    b != "" && (a == "" || a[0] < b[0] || (a[0] == b[0] && Less(a[1..], b[1..])))
  }

  lemma {:induction false} LessTotal(a: string, b: string)
    ensures Less(a, b) || Less(b, a) || a == b
  {
    if a != "" && b != "" && a[0] == b[0] {
      LessTotal(a[1..], b[1..]);
      assert a == [a[0]] + a[1..] && b == [b[0]] + b[1..];
    }
  }

  lemma {:induction false} LessAsymmetric(a: string, b: string)
    requires Less(a, b)
    ensures !Less(b, a) && a != b
  {
    if a != "" && b != "" && a[0] == b[0] {
      LessAsymmetric(a[1..], b[1..]);
    }
  }

  lemma {:induction false} LessTransitive(a: string, b: string, c: string)
    requires Less(a, b) && Less(b, c)
    ensures Less(a, c)
  {
    if a != "" && a[0] == b[0] && b[0] == c[0] {
      LessTransitive(a[1..], b[1..], c[1..]);
    }
  }
}

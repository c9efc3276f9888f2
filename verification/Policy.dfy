/** `internal/policy`: the schedule name and the change-detection hash that every backend shares. */
module Policy {
  import opened Powers
  import opened Sequences
  import opened Text
  import opened NormalizedManifests
  import opened Canonical
  import opened KeyOrder

  // ---- Schedule names -----------------------------------------------------------------------------

  const SCHEDULE_PREFIX := "cronix-"

  function ScheduleName(app: string, job: string, idx: nat): string {
    SCHEDULE_PREFIX + app + "-" + job + "-" + Digits(idx)
  }

  /** Two texts that end in a separator and a separator-free word agree on both sides of the last separator. */
  lemma LastSeparator(a: string, b: string, v: string, w: string, sep: char)
    requires sep !in v && sep !in w
    requires a + [sep] + v == b + [sep] + w
    ensures a == b && v == w
  {
    var s, t := a + [sep] + v, b + [sep] + w;
    SplitLast(a, sep, v);
    SplitLast(b, sep, w);
    assert (Split(a, sep) + [v])[|Split(s, sep)| - 1] == v && (Split(b, sep) + [w])[|Split(t, sep)| - 1] == w;
    assert s[..|a|] == a && t[..|b|] == b;
  }

  /** For one app the name determines the job and the schedule index. */
  lemma ScheduleNameInjective(app: string, job1: string, i: nat, job2: string, j: nat)
    ensures ScheduleName(app, job1, i) == ScheduleName(app, job2, j) <==> job1 == job2 && i == j
  {
    if ScheduleName(app, job1, i) == ScheduleName(app, job2, j) {
      var p := SCHEDULE_PREFIX + app + "-";
      assert ScheduleName(app, job1, i) == (p + job1) + ['-'] + Digits(i);
      assert ScheduleName(app, job2, j) == (p + job2) + ['-'] + Digits(j);
      LastSeparator(p + job1, p + job2, Digits(i), Digits(j), '-');
      CancelLeft(p, job1, job2);
      DigitsRoundTrip(i);
      DigitsRoundTrip(j);
    }
  }

  /** Across apps it does not: a hyphen may belong to the app or to the job.  Two schedules share a name exactly when
      their indices are equal and app and job, joined by a hyphen, are the same text. */
  lemma ScheduleNamesCollideExactly(app1: string, job1: string, i: nat, app2: string, job2: string, j: nat)
    ensures ScheduleName(app1, job1, i) == ScheduleName(app2, job2, j) <==>
            i == j && app1 + "-" + job1 == app2 + "-" + job2
  {
    var a, b := app1 + "-" + job1, app2 + "-" + job2;
    assert ScheduleName(app1, job1, i) == (SCHEDULE_PREFIX + a) + ['-'] + Digits(i);
    assert ScheduleName(app2, job2, j) == (SCHEDULE_PREFIX + b) + ['-'] + Digits(j);
    if ScheduleName(app1, job1, i) == ScheduleName(app2, job2, j) {
      LastSeparator(SCHEDULE_PREFIX + a, SCHEDULE_PREFIX + b, Digits(i), Digits(j), '-');
      CancelLeft(SCHEDULE_PREFIX, a, b);
      DigitsRoundTrip(i);
      DigitsRoundTrip(j);
    }
  }

  /** One app extends the other by a hyphen and some text, and that text and another hyphen begin the other's job. */
  ghost predicate Shifted(app1: string, job1: string, app2: string, job2: string) {
    exists middle :: app2 == app1 + "-" + middle && job1 == middle + "-" + job2
  }

  lemma JoinedShorter(app1: string, job1: string, app2: string, job2: string)
    requires |app1| < |app2|
    ensures app1 + "-" + job1 == app2 + "-" + job2 <==> Shifted(app1, job1, app2, job2)
  {
    var s, t := app1 + "-" + job1, app2 + "-" + job2;
    if s == t {
      assert t[..|app2|] == app2 && s[..|app1|] == app1 && s[|app1|] == '-';
      var middle := app2[|app1| + 1..];
      assert app2 == app1 + "-" + middle;
      assert s[|app1| + 1..] == job1 && t[|app1| + 1..] == middle + "-" + job2;
    }
    if middle :| app2 == app1 + "-" + middle && job1 == middle + "-" + job2 {
      assert s == t;
    }
  }

  /** So two apps share a name exactly when one of them is the other, a hyphen and the beginning of the other's job. */
  lemma AppsShareNameExactly(app1: string, job1: string, i: nat, app2: string, job2: string, j: nat)
    requires app1 != app2
    ensures ScheduleName(app1, job1, i) == ScheduleName(app2, job2, j) <==>
            i == j && (Shifted(app1, job1, app2, job2) || Shifted(app2, job2, app1, job1))
  {
    hide ScheduleName;
    ScheduleNamesCollideExactly(app1, job1, i, app2, job2, j);
    if |app1| < |app2| {
      JoinedShorter(app1, job1, app2, job2);
    } else if |app2| < |app1| {
      JoinedShorter(app2, job2, app1, job1);
    } else {
      var s, t := app1 + "-" + job1, app2 + "-" + job2;
      assert s[..|app1|] == app1 && t[..|app1|] == app2;
    }
  }

  /** Apps without a hyphen never do; apps with one can. */
  lemma HyphenlessAppsNeverCollide(app1: string, job1: string, i: nat, app2: string, job2: string, j: nat)
    requires '-' !in app1 && '-' !in app2 && app1 != app2
    ensures ScheduleName(app1, job1, i) != ScheduleName(app2, job2, j)
    ensures ScheduleName("a", "b-c", i) == ScheduleName("a-b", "c", i)
  {
    hide ScheduleName;
    AppsShareNameExactly(app1, job1, i, app2, job2, j);
    ScheduleNamesCollideExactly("a", "b-c", i, "a-b", "c", i);
  }

  // ---- 64-bit words -------------------------------------------------------------------------------

  const TWO64: nat := 0x1_0000_0000_0000_0000

  type uint64 = n: int | 0 <= n < TWO64

  /** Exclusive or, bit by bit from the lowest. */
  function Xor(a: nat, b: nat): nat {
    if a == 0 then b
    else (if a % 2 == b % 2 then 0 else 1) + 2 * Xor(a / 2, b / 2)
  }

  lemma {:induction false} XorCancels(a: nat, b: nat)
    ensures Xor(a, Xor(a, b)) == b
  {
    if a != 0 {
      XorCancels(a / 2, b / 2);
      var x := Xor(a, b);
      assert x / 2 == Xor(a / 2, b / 2) && x % 2 == (if a % 2 == b % 2 then 0 else 1);
    }
  }

  lemma {:induction false} XorCommutes(a: nat, b: nat)
    ensures Xor(a, b) == Xor(b, a)
  {
    if a == 0 {
      if b != 0 { XorCommutes(0, b / 2); }
    } else {
      XorCommutes(a / 2, b / 2);
      if b == 0 { assert Xor(a / 2, 0) == a / 2; }
    }
  }

  lemma {:induction false} XorBounded(a: nat, b: nat, bound: nat, bits: nat)
    requires bound == Power2(bits) && a < bound && b < bound
    ensures Xor(a, b) < bound
  {
    if a != 0 && bits != 0 {
      XorBounded(a / 2, b / 2, bound / 2, bits - 1);
    }
  }

  lemma TwoToThe64()
    ensures Power2(64) == TWO64
  {
    assert Power2(8) == 0x100;
    assert Power2(16) == 0x1_0000;
    assert Power2(24) == 0x100_0000;
    assert Power2(32) == 0x1_0000_0000;
    assert Power2(40) == 0x100_0000_0000;
    assert Power2(48) == 0x1_0000_0000_0000;
    assert Power2(56) == 0x100_0000_0000_0000;
  }

  function Xor64(a: uint64, b: uint64): uint64 {
    TwoToThe64();
    XorBounded(a, b, TWO64, 64);
    Xor(a, b)
  }

  // ---- The hash -----------------------------------------------------------------------------------

  const FNV_OFFSET: uint64 := 1469598103934665603
  const FNV_PRIME: uint64 := 1099511628211

  /** One round: mix a word in, then multiply, modulo 2^64. */
  function Mix(h: uint64, x: uint64): uint64 { Xor64(h, x) * FNV_PRIME % TWO64 }

  function MixAll(h: uint64, bytes: seq<byte>): uint64 {
    if bytes == [] then h else Mix(MixAll(h, bytes[..|bytes| - 1]), bytes[|bytes| - 1])
  }

  predicate IsHexText(s: string) { forall i :: 0 <= i < |s| ==> '0' <= s[i] <= '9' || 'a' <= s[i] <= 'f' }

  /** `%0<width>x`: lower-case hexadecimal digits, the low `width` of them. */
  function Hex(n: nat, width: nat): (s: string)
    ensures |s| == width && IsHexText(s)
  {
    if width == 0 then "" else Hex(n / 16, width - 1) + [HexDigit(n % 16)]
  }

  function HashText(canonical: seq<byte>, idx: uint64): string {
    Hex(Mix(MixAll(FNV_OFFSET, canonical), idx), 16)
  }

  function CanonicalJob(job: NormalizedJob): seq<byte> { Canonicalize(NormalizedManifest(1, "_hash_", [job])) }

  /** Different jobs always feed different bytes to the hash. */
  lemma DifferentJobsDifferentBytes(a: NormalizedJob, b: NormalizedJob)
    ensures CanonicalJob(a) == CanonicalJob(b) <==> a == b
  {
    hide Canonicalize;
    CanonicalizeInjective(NormalizedManifest(1, "_hash_", [a]), NormalizedManifest(1, "_hash_", [b]));
    assert [a] == [b] <==> a == b by { assert [a][0] == a && [b][0] == b; }
  }

  /** `policy.Hash(job, idx)`. */
  function Hash(job: NormalizedJob, idx: nat): (h: string)
    ensures |h| == 16 && IsHexText(h)
  {
    HashText(CanonicalJob(job), idx % TWO64)
  }

  /** The loop of `policy.Hash` over the canonical bytes. */
  method ComputeHash(job: NormalizedJob, idx: nat) returns (text: string)
    ensures text == Hash(job, idx)
  {
    var b := CanonicalJob(job);
    var h: uint64 := FNV_OFFSET;
    var i := 0;
    while i < |b|
      invariant 0 <= i <= |b|
      invariant h == MixAll(FNV_OFFSET, b[..i])
    {
      h := Xor64(h, b[i]);
      h := h * FNV_PRIME % TWO64;
      i := i + 1;
      assert b[..i][..i - 1] == b[..i - 1];
    }
    assert b[..i] == b;
    h := Xor64(h, idx % TWO64);
    h := h * FNV_PRIME % TWO64;
    text := Hex(h, 16);
  }

  /** Multiplying by the prime modulo 2^64 can be undone, because the prime is odd. */
  lemma MultiplyInjective(g: uint64, h: uint64)
    requires g * FNV_PRIME % TWO64 == h * FNV_PRIME % TWO64
    ensures g == h
  {
    var inverse: int := 0xce96_5057_aff6_957b;
    var k: int := inverse * FNV_PRIME / TWO64;
    assert inverse * FNV_PRIME == k * TWO64 + 1;
    var q := g * FNV_PRIME / TWO64 - h * FNV_PRIME / TWO64;
    assert (g - h) * FNV_PRIME == q * TWO64;
    assert g - h == TWO64 * (q * inverse - k * (g - h));
  }

  lemma XorLeftInjective(a: uint64, x: uint64, y: uint64)
    requires Xor64(a, x) == Xor64(a, y)
    ensures x == y
  {
    XorCancels(a, x);
    XorCancels(a, y);
  }

  /** A round loses nothing: with either argument fixed it is injective in the other. */
  lemma MixInjective(g: uint64, x: uint64, h: uint64, y: uint64)
    requires Mix(g, x) == Mix(h, y)
    ensures g == h <==> x == y
  {
    MultiplyInjective(Xor64(g, x), Xor64(h, y));
    if g == h { XorLeftInjective(g, x, y); }
    if x == y {
      XorCommutes(g, x);
      XorCommutes(h, x);
      XorLeftInjective(x, g, h);
    }
  }

  lemma {:induction false} HexInjective(a: nat, b: nat, bound: nat, width: nat)
    requires bound == Power2(4 * width) && a < bound && b < bound
    requires Hex(a, width) == Hex(b, width)
    ensures a == b
  {
    if width > 0 {
      var s, t := Hex(a, width), Hex(b, width);
      assert s[..width - 1] == Hex(a / 16, width - 1) && t[..width - 1] == Hex(b / 16, width - 1);
      HexDigitInjective(a % 16, b % 16, s[width - 1], t[width - 1]);
      var k := 4 * (width - 1);
      assert Power2(k + 1) == 2 * Power2(k) && Power2(k + 2) == 4 * Power2(k) && Power2(k + 3) == 8 * Power2(k);
      assert bound == Power2(k + 4) == 16 * Power2(k);
      HexInjective(a / 16, b / 16, bound / 16, width - 1);
    }
  }

  lemma Hex64Injective(a: uint64, b: uint64)
    requires Hex(a, 16) == Hex(b, 16)
    ensures a == b
  {
    TwoToThe64();
    HexInjective(a, b, TWO64, 16);
  }

  lemma HashTextInjectiveInIndex(canonical: seq<byte>, i: uint64, j: uint64)
    ensures HashText(canonical, i) == HashText(canonical, j) <==> i == j
  {
    if HashText(canonical, i) == HashText(canonical, j) {
      var h := MixAll(FNV_OFFSET, canonical);
      Hex64Injective(Mix(h, i), Mix(h, j));
      MixInjective(h, i, h, j);
    }
  }

  lemma HashIs(job: NormalizedJob, idx: nat)
    requires idx < TWO64
    ensures Hash(job, idx) == HashText(CanonicalJob(job), idx)
  {
    assert idx % TWO64 == idx;
  }

  /** The schedules of one job never share a hash. */
  lemma HashInjectiveInIndex(job: NormalizedJob, i: nat, j: nat)
    requires i < TWO64 && j < TWO64
    ensures Hash(job, i) == Hash(job, j) <==> i == j
  {
    HashIs(job, i);
    HashIs(job, j);
    HashTextInjectiveInIndex(CanonicalJob(job), i, j);
  }

  lemma {:induction false} MixAllSameTail(g: uint64, h: uint64, tail: seq<byte>)
    requires MixAll(g, tail) == MixAll(h, tail)
    ensures g == h
  {
    if tail != [] {
      var n := |tail| - 1;
      MixInjective(MixAll(g, tail[..n]), tail[n], MixAll(h, tail[..n]), tail[n]);
      MixAllSameTail(g, h, tail[..n]);
    }
  }

  lemma {:induction false} MixAllConcat(h: uint64, a: seq<byte>, b: seq<byte>)
    ensures MixAll(h, a + b) == MixAll(MixAll(h, a), b)
  {
    if b == [] {
      assert a + b == a;
    } else {
      var n := |b| - 1;
      MixAllConcat(h, a, b[..n]);
      assert (a + b)[..|a + b| - 1] == a + b[..n];
    }
  }

  /** Encodings of one length that differ in exactly one byte never share a hash. */
  lemma OneByteChangesHash(before: seq<byte>, x: byte, y: byte, after: seq<byte>, idx: uint64)
    ensures HashText(before + [x] + after, idx) == HashText(before + [y] + after, idx) <==> x == y
  {
    if HashText(before + [x] + after, idx) == HashText(before + [y] + after, idx) {
      var h := MixAll(FNV_OFFSET, before);
      MixAllConcat(FNV_OFFSET, before + [x], after);
      MixAllConcat(FNV_OFFSET, before + [y], after);
      MixAllConcat(FNV_OFFSET, before, [x]);
      MixAllConcat(FNV_OFFSET, before, [y]);
      assert MixAll(h, [x]) == Mix(h, x) by { assert [x][..0] == []; }
      assert MixAll(h, [y]) == Mix(h, y) by { assert [y][..0] == []; }
      var g1, g2 := MixAll(Mix(h, x), after), MixAll(Mix(h, y), after);
      Hex64Injective(Mix(g1, idx), Mix(g2, idx));
      MixInjective(g1, idx, g2, idx);
      MixAllSameTail(Mix(h, x), Mix(h, y), after);
      MixInjective(h, x, h, y);
    }
  }

  // ---- The hash in numbers ------------------------------------------------------------------------

  /** Bit k of a number, and digit k of its hexadecimal form, from the lowest. */
  function Bit(n: nat, k: nat): nat { if k == 0 then n % 2 else Bit(n / 2, k - 1) }

  function Digit16(n: nat, k: nat): (d: nat)
    ensures d < 16
  {
    if k == 0 then n % 16 else Digit16(n / 16, k - 1)
  }

  function DigitChars(): (s: string)
    ensures |s| == 16
  {
    "0123456789abcdef"
  }

  /** Every bit of an exclusive or is set exactly when the two bits differ. */
  lemma {:induction false} XorBits(a: nat, b: nat, k: nat)
    ensures Bit(Xor(a, b), k) == 1 <==> Bit(a, k) != Bit(b, k)
  {
    XorHalf(a, b);
    if k > 0 {
      XorBits(a / 2, b / 2, k - 1);
    }
  }

  lemma XorHalf(a: nat, b: nat)
    ensures Xor(a, b) / 2 == Xor(a / 2, b / 2)
    ensures Xor(a, b) % 2 == 1 <==> a % 2 != b % 2
  {}

  /** The words that the hash goes through, from the offset on: each byte is mixed in and the result multiplied. */
  ghost predicate Rounds(bytes: seq<byte>, words: seq<uint64>) {
    && |words| == |bytes| + 1 && words[0] == 1469598103934665603
    && forall i :: 0 <= i < |bytes| ==>
         words[i + 1] == Xor(words[i], bytes[i]) * 1099511628211 % 0x1_0000_0000_0000_0000
  }

  lemma {:induction false} RoundsOf(bytes: seq<byte>) returns (words: seq<uint64>)
    ensures Rounds(bytes, words) && words[|bytes|] == MixAll(FNV_OFFSET, bytes)
  {
    if bytes == [] {
      words := [FNV_OFFSET];
    } else {
      var n := |bytes| - 1;
      var before := RoundsOf(bytes[..n]);
      words := before + [Mix(before[n], bytes[n])];
      forall i | 0 <= i < |bytes|
        ensures words[i + 1] == Xor(words[i], bytes[i]) * 1099511628211 % 0x1_0000_0000_0000_0000
      {
        assert i < n ==> bytes[..n][i] == bytes[i];
      }
    }
  }

  lemma {:induction false} HexAt(n: nat, width: nat, i: nat)
    requires i < width
    ensures Hex(n, width)[i] == DigitChars()[Digit16(n, width - 1 - i)]
  {
    hide DigitChars, HexDigit;
    if i < width - 1 {
      HexAt(n / 16, width - 1, i);
    } else {
      DigitAt(n % 16);
    }
  }

  lemma DigitAt(d: nat)
    requires d < 16
    ensures HexDigit(d) == DigitChars()[d]
  {}

  /** The hash of any job: the rounds over the bytes of its one-job manifest, one more for the index, and the sixteen
      digits of the last word. */
  lemma HashInRounds(job: NormalizedJob, idx: nat) returns (words: seq<uint64>, last: nat)
    requires idx < 0x1_0000_0000_0000_0000
    ensures var bytes := Utf8(PrintManifest(Go, NormalizedManifest(1, "_hash_", [job])));
            && Rounds(bytes, words)
            && last == Xor(words[|bytes|], idx) * 1099511628211 % 0x1_0000_0000_0000_0000
    ensures forall i :: 0 <= i < 16 ==> Hash(job, idx)[i] == DigitChars()[Digit16(last, 15 - i)]
  {
    hide PrintManifest, Utf8, MixAll, DigitChars, Hex, Digit16;
    var bytes := CanonicalJob(job);
    words := RoundsOf(bytes);
    last := Mix(MixAll(FNV_OFFSET, bytes), idx);
    HashIs(job, idx);
    forall i | 0 <= i < 16 ensures Hash(job, idx)[i] == DigitChars()[Digit16(last, 15 - i)] {
      HexAt(last, 16, i);
    }
  }

  lemma NameSample()
    ensures ScheduleName("a", "b", 3) == "cronix-a-b-3"
  {
    assert Digits(3) == "3";
  }
}

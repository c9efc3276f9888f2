/** Request signatures: `internal/auth` in Go and `core/auth.ts` in TypeScript.  Texts are sequences of bytes here: one
    character is one byte. */
module Auth {
  import opened Wrappers
  import opened Sequences
  import opened Text
  import opened Canonical
  import opened Policy
  import Timing

  const SIG_VERSION := "v1"
  const HEX_LENGTH := 64
  const MAX_SAFE_INTEGER: int := 0x1f_ffff_ffff_ffff

  // ---- Hexadecimal --------------------------------------------------------------------------------

  predicate IsHexDigit(c: char) { '0' <= c <= '9' || 'a' <= c <= 'f' || 'A' <= c <= 'F' }

  predicate AllHex(s: string) { forall i :: 0 <= i < |s| ==> IsHexDigit(s[i]) }

  function Lower(c: char): char { if 'A' <= c <= 'Z' then (c as int + 32) as char else c }

  /** `strings.ToLower` and `toLowerCase`, on ASCII. */
  function ToLower(s: string): (r: string)
    ensures |r| == |s| && forall i :: 0 <= i < |r| ==> r[i] == Lower(s[i])
  {
    seq(|s|, i requires 0 <= i < |s| => Lower(s[i]))
  }

  function Upper(c: char): char { if 'a' <= c <= 'z' then (c as int - 32) as char else c }

  /** `strings.ToUpper` and `toUpperCase`, on ASCII. */
  function ToUpper(s: string): (r: string)
    ensures |r| == |s| && forall i :: 0 <= i < |r| ==> r[i] == Upper(s[i])
  {
    seq(|s|, i requires 0 <= i < |s| => Upper(s[i]))
  }

  function HexValue(c: char): (n: nat)
    requires IsHexDigit(c)
    ensures n < 16
  {
    if '0' <= c <= '9' then c as int - '0' as int
    else if 'a' <= c <= 'f' then c as int - 'a' as int + 10
    else c as int - 'A' as int + 10
  }

  /** `hex.EncodeToString`. */
  function EncodeHex(bytes: seq<byte>): (s: string)
    ensures |s| == 2 * |bytes|
  {
    if bytes == [] then "" else [HexDigit(bytes[0] / 16), HexDigit(bytes[0] % 16)] + EncodeHex(bytes[1..])
  }

  /** `hex.DecodeString`. */
  function DecodeHex(s: string): (r: Option<seq<byte>>)
    ensures r.Some? <==> AllHex(s) && |s| % 2 == 0
    ensures r.Some? ==> 2 * |r.value| == |s|
  {
    if s == "" then Some([])
    else if |s| == 1 then None
    else if !IsHexDigit(s[0]) || !IsHexDigit(s[1]) then None
    else
      match DecodeHex(s[2..])
      case None => HexBroken(s); None
      case Some(rest) => HexWhole(s); Some([HexValue(s[0]) * 16 + HexValue(s[1])] + rest)
  }

  lemma HexBroken(s: string)
    requires |s| >= 2 && !(AllHex(s[2..]) && |s[2..]| % 2 == 0)
    ensures !(AllHex(s) && |s| % 2 == 0)
  {}

  lemma HexWhole(s: string)
    requires |s| >= 2 && AllHex(s[2..]) && |s[2..]| % 2 == 0 && IsHexDigit(s[0]) && IsHexDigit(s[1])
    ensures AllHex(s) && |s| % 2 == 0
  {
    forall i | 0 <= i < |s| ensures IsHexDigit(s[i]) {
      if i >= 2 { assert s[i] == s[2..][i - 2]; }
    }
  }

  lemma HexDigitValue(n: nat)
    requires n < 16
    ensures IsHexDigit(HexDigit(n)) && HexValue(HexDigit(n)) == n && Lower(HexDigit(n)) == HexDigit(n)
  {}

  lemma HexOfByte(b: byte, rest: string)
    ensures var s := [HexDigit(b / 16), HexDigit(b % 16)] + rest;
            s[2..] == rest && IsHexDigit(s[0]) && IsHexDigit(s[1]) && HexValue(s[0]) * 16 + HexValue(s[1]) == b
            && Lower(s[0]) == s[0] && Lower(s[1]) == s[1]
  {
    HexDigitValue(b / 16);
    HexDigitValue(b % 16);
  }

  lemma {:induction false} EncodedIsLower(bytes: seq<byte>)
    ensures forall i :: 0 <= i < |EncodeHex(bytes)| ==> Lower(EncodeHex(bytes)[i]) == EncodeHex(bytes)[i]
  {
    hide Lower, HexDigit;
    if bytes != [] {
      EncodedIsLower(bytes[1..]);
      HexOfByte(bytes[0], EncodeHex(bytes[1..]));
    }
  }

  /** Encoding is undone by decoding, and is in lower case. */
  lemma {:induction false} HexRoundTrip(bytes: seq<byte>)
    ensures DecodeHex(EncodeHex(bytes)) == Some(bytes) && ToLower(EncodeHex(bytes)) == EncodeHex(bytes)
  {
    hide Lower, HexDigit, HexValue, IsHexDigit;
    EncodedIsLower(bytes);
    assert ToLower(EncodeHex(bytes)) == EncodeHex(bytes);
    if bytes != [] {
      HexRoundTrip(bytes[1..]);
      HexOfByte(bytes[0], EncodeHex(bytes[1..]));
      HeadAndTail([bytes[0]] + bytes[1..], bytes);
    }
  }

  // ---- The header, in Go --------------------------------------------------------------------------

  /** What the loop of a parser has seen: the last timestamp and the last signature. */
  datatype Parsed<T> = Parsed(ts: Option<int>, sig: Option<T>)

  /** One segment: its key and its value, if it has an equals sign. */
  function Segment(part: string): Option<(string, string)> {
    var i := CutAt(part, '=');
    if i < 0 then None else Some((part[..i], part[i + 1..]))
  }

  function GoSegment(p: Parsed<string>, part: string): Option<Parsed<string>> {
    match Segment(part)
    case None => None
    case Some((k, v)) =>
      if k == "t" then
        match ParseInt(v)
        case None => None
        case Some(n) => if n < 0 then None else Some(p.(ts := Some(n)))
      else if k == SIG_VERSION then (if |v| != HEX_LENGTH then None else Some(p.(sig := Some(ToLower(v)))))
      else Some(p)
  }

  function GoUpTo(parts: seq<string>, n: nat): Option<Parsed<string>>
    requires n <= |parts|
  {
    if n == 0 then Some(Parsed(None, None))
    else
      match GoUpTo(parts, n - 1)
      case None => None
      case Some(p) => GoSegment(p, parts[n - 1])
  }

  /** `parseHeader` of `auth.go`. */
  function GoParse(header: string): Option<(int, seq<byte>)> {
    if header == "" then None
    else
      var parts := Split(header, ',');
      match GoUpTo(parts, |parts|)
      case None => None
      case Some(p) =>
        if p.ts.None? || p.sig.None? then None
        else
          match DecodeHex(p.sig.value)
          case None => None
          case Some(sig) => Some((p.ts.value, sig))
  }

  lemma {:induction false} GoStops(parts: seq<string>, n: nat, k: nat)
    requires n <= k <= |parts| && GoUpTo(parts, n).None?
    ensures GoUpTo(parts, k).None?
    decreases k
  {
    hide GoSegment;
    if n < k {
      GoStops(parts, n, k - 1);
    }
  }

  method GoParseHeader(header: string) returns (r: Option<(int, seq<byte>)>)
    ensures r == GoParse(header)
  {
    hide ParseInt;
    if header == "" {
      return None;
    }
    var ts, sigHex, hasTS, hasSig := 0, "", false, false;
    var parts := Split(header, ',');
    var i := 0;
    while i < |parts|
      invariant 0 <= i <= |parts|
      invariant GoUpTo(parts, i) == Some(Parsed(if hasTS then Some(ts) else None, if hasSig then Some(sigHex)
          else None))
    {
      var part := parts[i];
      i := i + 1;
      var eq := CutAt(part, '=');
      if eq < 0 {
        GoStops(parts, i, |parts|);
        return None;
      }
      var k, v := part[..eq], part[eq + 1..];
      if k == "t" {
        var n := ParseInt(v);
        if n.None? || n.value < 0 {
          GoStops(parts, i, |parts|);
          return None;
        }
        ts, hasTS := n.value, true;
      } else if k == SIG_VERSION {
        if |v| != HEX_LENGTH {
          GoStops(parts, i, |parts|);
          return None;
        }
        sigHex, hasSig := ToLower(v), true;
      }
    }
    if !hasTS || !hasSig {
      return None;
    }
    var sig := DecodeHex(sigHex);
    r := if sig.None? then None else Some((ts, sig.value));
  }

  // ---- The header, in TypeScript ------------------------------------------------------------------

  function TsSegment(p: Parsed<string>, part: string): Option<Parsed<string>> {
    match Segment(part)
    case None => None
    case Some((k, v)) =>
      if k == "t" then
        if v == "" || !AllDigits(v) || DigitsValue(v) > MAX_SAFE_INTEGER then None
            else Some(p.(ts := Some(DigitsValue(v))))
      else if k == SIG_VERSION then
        if v == "" || !AllHex(v) || |v| != HEX_LENGTH then None else Some(p.(sig := Some(ToLower(v))))
      else Some(p)
  }

  function TsUpTo(parts: seq<string>, n: nat): Option<Parsed<string>>
    requires n <= |parts|
  {
    if n == 0 then Some(Parsed(None, None))
    else
      match TsUpTo(parts, n - 1)
      case None => None
      case Some(p) => TsSegment(p, parts[n - 1])
  }

  /** `parseHeader` of `auth.ts`. */
  function TsParse(header: string): Option<(int, string)> {
    if header == "" then None
    else
      var parts := Split(header, ',');
      match TsUpTo(parts, |parts|)
      case None => None
      case Some(p) => if p.ts.None? || p.sig.None? then None else Some((p.ts.value, p.sig.value))
  }

  lemma {:induction false} TsStops(parts: seq<string>, n: nat, k: nat)
    requires n <= k <= |parts| && TsUpTo(parts, n).None?
    ensures TsUpTo(parts, k).None?
    decreases k
  {
    hide TsSegment;
    if n < k {
      TsStops(parts, n, k - 1);
    }
  }

  method TsParseHeader(header: string) returns (r: Option<(int, string)>)
    ensures r == TsParse(header)
  {
    if |header| == 0 {
      return None;
    }
    var ts: Option<int>, sigHex: Option<string> := None, None;
    var parts := Split(header, ',');
    var i := 0;
    while i < |parts|
      invariant 0 <= i <= |parts|
      invariant TsUpTo(parts, i) == Some(Parsed(ts, sigHex))
    {
      var part := parts[i];
      i := i + 1;
      var eq := CutAt(part, '=');
      if eq < 0 {
        TsStops(parts, i, |parts|);
        return None;
      }
      var k, v := part[..eq], part[eq + 1..];
      if k == "t" {
        if v == "" || !AllDigits(v) || DigitsValue(v) > MAX_SAFE_INTEGER {
          TsStops(parts, i, |parts|);
          return None;
        }
        ts := Some(DigitsValue(v));
      } else if k == SIG_VERSION {
        if v == "" || !AllHex(v) || |v| != HEX_LENGTH {
          TsStops(parts, i, |parts|);
          return None;
        }
        sigHex := Some(ToLower(v));
      }
    }
    if ts.None? || sigHex.None? {
      return None;
    }
    r := Some((ts.value, sigHex.value));
  }

  // ---- The two parsers agree ----------------------------------------------------------------------

  /** What the TypeScript parser asks of a segment beyond what the Go parser does. */
  predicate Strict(part: string) {
    match Segment(part)
    case None => true
    case Some((k, v)) =>
      && (k == "t" ==> AllDigits(v) && DigitsValue(v) <= MAX_SAFE_INTEGER)
      && (k == SIG_VERSION ==> AllHex(v))
  }

  predicate AllStrict(parts: seq<string>, n: nat)
    requires n <= |parts|
  {
    forall i :: 0 <= i < n ==> Strict(parts[i])
  }

  lemma UnsignedDigits(v: string)
    requires v != "" && AllDigits(v) && DigitsValue(v) <= MAX_SAFE_INTEGER
    ensures ParseInt(v) == Some(DigitsValue(v))
  {
    assert IsDigit(v[0]);
  }

  lemma SegmentsAgree(p: Parsed<string>, part: string)
    ensures TsSegment(p, part) == if Strict(part) then GoSegment(p, part) else None
  {
    hide Segment, DigitsValue;
    var seg := Segment(part);
    if seg.Some? && seg.value.0 == "t" && seg.value.1 != "" && AllDigits(seg.value.1)
        && DigitsValue(seg.value.1) <= MAX_SAFE_INTEGER {
      UnsignedDigits(seg.value.1);
    }
  }

  lemma {:induction false} PrefixesAgree(parts: seq<string>, n: nat)
    requires n <= |parts|
    ensures TsUpTo(parts, n) == if AllStrict(parts, n) then GoUpTo(parts, n) else None
  {
    hide TsSegment, GoSegment, Strict;
    if n > 0 {
      PrefixesAgree(parts, n - 1);
      if TsUpTo(parts, n - 1).Some? {
        SegmentsAgree(TsUpTo(parts, n - 1).value, parts[n - 1]);
      } else if GoUpTo(parts, n - 1).Some? {
        SegmentsAgree(GoUpTo(parts, n - 1).value, parts[n - 1]);
      }
    }
  }

  /** A signature the Go loop has accepted is decoded exactly when it is hexadecimal, and lower case does not matter. */
  lemma LowerHex(v: string)
    requires |v| == HEX_LENGTH
    ensures DecodeHex(ToLower(v)).Some? <==> AllHex(v)
  {
    forall i | 0 <= i < |v| ensures IsHexDigit(Lower(v[i])) <==> IsHexDigit(v[i]) {}
    if AllHex(ToLower(v)) {
      forall i | 0 <= i < |v| ensures IsHexDigit(v[i]) { assert IsHexDigit(ToLower(v)[i]); }
    }
  }

  lemma {:induction false} TsSignature(parts: seq<string>, n: nat)
    requires n <= |parts|
    ensures var p := TsUpTo(parts, n);
            p.Some? && p.value.sig.Some? ==> DecodeHex(p.value.sig.value).Some?
  {
    if n > 0 {
      TsSignature(parts, n - 1);
      var before := TsUpTo(parts, n - 1);
      if before.Some? {
        TsSegmentSignature(before.value, parts[n - 1]);
      }
    }
  }

  lemma TsSegmentSignature(p: Parsed<string>, part: string)
    requires p.sig.Some? ==> DecodeHex(p.sig.value).Some?
    ensures var q := TsSegment(p, part); q.Some? && q.value.sig.Some? ==> DecodeHex(q.value.sig.value).Some?
  {
    hide Segment, DigitsValue, DecodeHex;
    var seg := Segment(part);
    if seg.Some? && |seg.value.1| == HEX_LENGTH {
      LowerHex(seg.value.1);
    }
  }

  /** Every header the TypeScript parser accepts, the Go parser accepts with the same timestamp and the same signature
      bytes; and it accepts a header exactly when the Go parser does and every `t` and `v1` segment, not only the last
      of each, is strict. */
  lemma ParsersAgree(header: string)
    ensures TsParse(header).Some? <==>
            GoParse(header).Some? && AllStrict(Split(header, ','), |Split(header, ',')|)
    ensures TsParse(header).Some? ==>
              GoParse(header).value.0 == TsParse(header).value.0 && DecodeHex(TsParse(header).value.1) ==
                  Some(GoParse(header).value.1)
  {
    hide TsUpTo, GoUpTo, AllStrict, DecodeHex;
    var parts := Split(header, ',');
    PrefixesAgree(parts, |parts|);
    TsSignature(parts, |parts|);
  }

  /** `Number.parseInt` of two characters to base 16, as an element of a Uint8Array: a sign or white space may come
      first, a second character that is no digit is ignored, and `0x` is a prefix with nothing behind it. */
  function ParsePair(c: char, d: char): Option<byte> {
    if IsHexDigit(c) then
      if IsHexDigit(d) then Some(HexValue(c) * 16 + HexValue(d))
      else if c == '0' && (d == 'x' || d == 'X') then None
      else Some(HexValue(c))
    else if !IsHexDigit(d) then None
    else if c == '-' then Some((256 - HexValue(d)) % 256)
    else if c == '+' || IsJsSpace(c) then Some(HexValue(d))
    else None
  }

  /** `hexToBytes`. */
  function JsDecodeHex(s: string): (r: Option<seq<byte>>)
    ensures r.Some? ==> |s| % 2 == 0
  {
    if s == "" then Some([])
    else if |s| == 1 || ParsePair(s[0], s[1]).None? then None
    else
      match JsDecodeHex(s[2..])
      case None => None
      case Some(rest) => Some([ParsePair(s[0], s[1]).value] + rest)
  }

  /** It takes more texts than the decoder of Go, and the same bytes from those that both take. */
  lemma {:induction false} JsDecodesMore(s: string)
    ensures DecodeHex(s).Some? ==> JsDecodeHex(s) == DecodeHex(s)
    ensures JsDecodeHex(s) == DecodeHex(s) <==> AllHex(s) || JsDecodeHex(s).None?
  {
    hide IsJsSpace;
    if |s| >= 2 {
      JsDecodesMore(s[2..]);
    }
  }

  /** One that only TypeScript takes. */
  lemma LooseHex()
    ensures JsDecodeHex("1g") == Some([1]) && DecodeHex("1g") == None
  {
    var s := "1g";
    assert s[2..] == "" && !IsHexDigit(s[1]);
    assert JsDecodeHex("") == Some([]);
    assert ParsePair(s[0], s[1]) == Some(1);
    ConcatEmpty([1]);
  }

  function Prepend(out: seq<byte>, rest: Option<seq<byte>>): Option<seq<byte>> {
    if rest.Some? then Some(out + rest.value) else None
  }

  lemma HexStep(hex: string, i: nat, out: seq<byte>)
    requires i + 2 <= |hex|
    ensures Prepend(out, JsDecodeHex(hex[i..])) ==
            var pair := ParsePair(hex[i], hex[i + 1]);
            if pair.None? then None else Prepend(out + [pair.value], JsDecodeHex(hex[i + 2..]))
  {
    hide ParsePair;
    var rest, pair := hex[i..], ParsePair(hex[i], hex[i + 1]);
    assert rest[2..] == hex[i + 2..] && rest[0] == hex[i] && rest[1] == hex[i + 1];
    if pair.Some? && JsDecodeHex(hex[i + 2..]).Some? {
      ConcatAssociative(out, [pair.value], JsDecodeHex(hex[i + 2..]).value);
    }
  }

  lemma HexEnds(hex: string, out: seq<byte>)
    ensures Prepend([], JsDecodeHex(hex)) == JsDecodeHex(hex) && Prepend(out, JsDecodeHex("")) == Some(out)
  {
    ConcatEmpty(out);
    if JsDecodeHex(hex).Some? {
      ConcatEmpty(JsDecodeHex(hex).value);
    }
  }

  /** The loop that turns the signature into bytes in TypeScript. */
  method HexToBytes(hex: string) returns (bytes: Option<seq<byte>>)
    ensures bytes == JsDecodeHex(hex)
  {
    hide ParsePair, JsDecodeHex, Prepend;
    if |hex| % 2 != 0 {
      return None;
    }
    var out: seq<byte> := [];
    var i := 0;
    assert hex[0..] == hex;
    HexEnds(hex, out);
    while i < |hex|
      invariant 0 <= i <= |hex| && i % 2 == 0
      invariant JsDecodeHex(hex) == Prepend(out, JsDecodeHex(hex[i..]))
    {
      var pair := ParsePair(hex[i], hex[i + 1]);
      HexStep(hex, i, out);
      if pair.None? {
        return None;
      }
      out := out + [pair.value];
      i := i + 2;
    }
    assert hex[i..] == "";
    HexEnds(hex, out);
    bytes := Some(out);
  }

  // ---- Comparing in constant time -----------------------------------------------------------------

  /** Bitwise or. */
  function Or(a: nat, b: nat): nat {
    if a == 0 then b
    else (if a % 2 == 1 || b % 2 == 1 then 1 else 0) + 2 * Or(a / 2, b / 2)
  }

  lemma {:induction false} OrZero(a: nat, b: nat)
    ensures Or(a, b) == 0 <==> a == 0 && b == 0
  {
    if a != 0 {
      OrZero(a / 2, b / 2);
    }
  }

  lemma {:induction false} XorZero(a: nat, b: nat)
    ensures Xor(a, b) == 0 <==> a == b
  {
    if a != 0 {
      XorZero(a / 2, b / 2);
    }
  }

  /** `constantTimeEqual`: it looks at every byte, and says whether all are equal. */
  method ConstantTimeEqual(a: seq<byte>, b: seq<byte>) returns (equal: bool)
    ensures equal <==> a == b
  {
    if |a| != |b| {
      return false;
    }
    var diff: nat := 0;
    var i := 0;
    while i < |a|
      invariant 0 <= i <= |a|
      invariant diff == 0 <==> a[..i] == b[..i]
    {
      OrZero(diff, Xor(a[i], b[i]));
      XorZero(a[i], b[i]);
      TakeNext(a, i);
      TakeNext(b, i);
      assert a[..i + 1] == b[..i + 1] <==> a[..i] == b[..i] && a[i] == b[i];
      diff := Or(diff, Xor(a[i], b[i]));
      i := i + 1;
    }
    TakeAll(a);
    TakeAll(b);
    equal := diff == 0;
  }

  // ---- Signing and verifying ----------------------------------------------------------------------

  function NoMac(secret: string, payload: string): seq<byte> { seq(32, _ => 0) }

  /** A keyed hash with 32-byte results, in the place of HMAC-SHA256. */
  type Mac = f: (string, string) -> seq<byte> | forall k, p :: |f(k, p)| == 32 witness NoMac

  /** `fmt.Sprintf("%d", n)`. */
  function IntText(n: int): string { if n < 0 then "-" + Digits(-n) else Digits(n) }

  /** `canonicalSignedPayload`. */
  function Payload(ts: int, method_: string, path: string, body: string): string {
    IntText(ts) + "." + ToUpper(method_) + "." + path + "." + body
  }

  function Header(ts: int, mac: seq<byte>): string { "t=" + IntText(ts) + "," + SIG_VERSION + "=" + EncodeHex(mac) }

  /** `Sign`: the header and its timestamp; a timestamp of zero means now. */
  function Sign(mac: Mac, secret: string, method_: string, path: string, body: string, timestamp: int,
      clock: int): Option<(string, int)> {
    if secret == "" then None
    else
      var ts := if timestamp == 0 then clock else timestamp;
      Some((Header(ts, mac(secret, Payload(ts, method_, path, body))), ts))
  }

  datatype Verdict = Match(secret: nat) | Malformed | Stale | Mismatch

  /** The distance of two times, as 64-bit arithmetic has it. */
  function Delta(now: int, ts: int): int {
    var d := Wrap(now - ts);
    if d < 0 then Wrap(-d) else d
  }

  /** The first secret at or after `from` that is not empty and gives the signature. */
  function FirstMatch(mac: Mac, secrets: seq<string>, payload: string, sig: seq<byte>, from: nat): Verdict
    requires from <= |secrets|
    decreases |secrets| - from
  {
    if from == |secrets| then Mismatch
    else if secrets[from] != "" && mac(secrets[from], payload) == sig then Match(from)
    else FirstMatch(mac, secrets, payload, sig, from + 1)
  }

  /** `Verify`, once the defaults for the time and the skew are filled in. */
  function GoVerdict(mac: Mac, secrets: seq<string>, method_: string, path: string, body: string, header: string,
      now: int, skew: int): Verdict {
    if secrets == [] then Malformed
    else
      match GoParse(header)
      case None => Malformed
      case Some((ts, sig)) =>
        if Delta(now, ts) > skew then Stale
        else FirstMatch(mac, secrets, Payload(ts, method_, path, body), sig, 0)
  }

  function OrElse(n: int, fallback: int): int { if n == 0 then fallback else n }

  method Verify(mac: Mac, secrets: seq<string>, method_: string, path: string, body: string, header: string,
      now: int, clock: int, skew: int)
    returns (verdict: Verdict)
    ensures verdict == GoVerdict(mac, secrets, method_, path, body, header, OrElse(now, clock),
        OrElse(skew, Timing.REPLAY_WINDOW))
  {
    hide GoParse, Payload, Wrap, Split;
    if |secrets| == 0 {
      return Malformed;
    }
    var parsed := GoParseHeader(header);
    if parsed.None? {
      return Malformed;
    }
    var (ts, sig) := parsed.value;
    var delta := Wrap(OrElse(now, clock) - ts);
    if delta < 0 {
      delta := Wrap(-delta);
    }
    if delta > OrElse(skew, Timing.REPLAY_WINDOW) {
      return Stale;
    }
    var payload := Payload(ts, method_, path, body);
    var i := 0;
    while i < |secrets|
      invariant 0 <= i <= |secrets|
      invariant FirstMatch(mac, secrets, payload, sig, 0) == FirstMatch(mac, secrets, payload, sig, i)
    {
      if secrets[i] != "" {
        var equal := ConstantTimeEqual(mac(secrets[i], payload), sig);
        if equal {
          return Match(i);
        }
      }
      i := i + 1;
    }
    verdict := Mismatch;
  }

  /** What a verdict means: the first secret that is not empty and gives the signature, or that there is none. */
  lemma {:induction false} FirstMatchExactly(mac: Mac, secrets: seq<string>, payload: string, sig: seq<byte>, from: nat)
    requires from <= |secrets|
    ensures var verdict := FirstMatch(mac, secrets, payload, sig, from);
            match verdict
            case Match(i) =>
              from <= i < |secrets| && secrets[i] != "" && mac(secrets[i], payload) == sig
              && forall j :: from <= j < i ==> secrets[j] == "" || mac(secrets[j], payload) != sig
            case Mismatch => forall j :: from <= j < |secrets| ==> secrets[j] == "" || mac(secrets[j], payload) != sig
            case _ => false
    decreases |secrets| - from
  {
    if from < |secrets| {
      FirstMatchExactly(mac, secrets, payload, sig, from + 1);
    }
  }

  /** The distance of two times, and what 64-bit arithmetic makes of one beyond 2^63. */
  function Distance(now: int, ts: int): int {
    var gap := if now >= ts then now - ts else ts - now;
    if gap > MAX_INT64 + 1 then 2 * (MAX_INT64 + 1) - gap else if gap == MAX_INT64 + 1 then MIN_INT64 else gap
  }

  lemma DeltaIs(now: int, ts: int)
    requires IsInt64(now) && 0 <= ts <= MAX_INT64
    ensures Delta(now, ts) == Distance(now, ts)
  {}

  lemma IntTextPlain(n: int)
    ensures forall i :: 0 <= i < |IntText(n)| ==> IntText(n)[i] == '-' || IsDigit(IntText(n)[i])
  {}

  lemma ParseIntText(n: int)
    requires IsInt64(n)
    ensures ParseInt(IntText(n)) == Some(n)
  {
    if n < 0 {
      DigitsRoundTrip(-n);
      assert IntText(n)[1..] == Digits(-n);
    } else {
      ParseDigits(n);
    }
  }

  lemma {:induction false} EncodedIsHex(bytes: seq<byte>)
    ensures AllHex(EncodeHex(bytes))
  {
    HexRoundTrip(bytes);
  }

  lemma HeaderParts(ts: int, mac: seq<byte>)
    ensures Split(Header(ts, mac), ',') == ["t=" + IntText(ts), "v1=" + EncodeHex(mac)]
  {
    hide IntText, EncodeHex;
    var first, second := "t=" + IntText(ts), "v1=" + EncodeHex(mac);
    IntTextPlain(ts);
    EncodedIsHex(mac);
    assert Header(ts, mac) == first + [','] + second;
    assert ',' !in first && ',' !in second;
    SplitCons(first, ',', second);
    SplitAtom(second, ',');
  }

  lemma SegmentOf(key: string, value: string)
    requires '=' !in key
    ensures Segment(key + "=" + value) == Some((key, value))
  {
    CutLine(key, '=', value);
  }

  /** The header that is printed is read back, by the Go parser exactly when the timestamp is not negative. */
  lemma HeaderRoundTrip(ts: int, mac: seq<byte>)
    requires IsInt64(ts) && |mac| == 32
    ensures GoParse(Header(ts, mac)) == if ts >= 0 then Some((ts, mac)) else None
    ensures TsParse(Header(ts, mac)) == if 0 <= ts <= MAX_SAFE_INTEGER then Some((ts, EncodeHex(mac))) else None
  {
    hide IntText, EncodeHex, ParseInt, DecodeHex, Segment;
    var parts := ["t=" + IntText(ts), "v1=" + EncodeHex(mac)];
    HeaderParts(ts, mac);
    assert parts[0] == "t" + "=" + IntText(ts) && parts[1] == "v1" + "=" + EncodeHex(mac);
    SegmentOf("t", IntText(ts));
    SegmentOf("v1", EncodeHex(mac));
    ParseIntText(ts);
    HexRoundTrip(mac);
    EncodedIsHex(mac);
    TwoParts(parts);
    StrictTimestamp(ts);
    ParsersAgree(Header(ts, mac));
  }

  lemma StrictTimestamp(ts: int)
    requires IsInt64(ts)
    ensures IntText(ts) != "" && (AllDigits(IntText(ts)) <==> ts >= 0)
    ensures ts >= 0 ==> DigitsValue(IntText(ts)) == ts
  {
    if ts >= 0 {
      DigitsRoundTrip(ts);
    } else {
      assert IntText(ts)[0] == '-';
    }
  }

  lemma TwoParts(parts: seq<string>)
    requires |parts| == 2
    ensures GoUpTo(parts, 2) ==
            match GoSegment(Parsed(None, None), parts[0])
            case None => None
            case Some(p) => GoSegment(p, parts[1])
    ensures TsUpTo(parts, 2) ==
            match TsSegment(Parsed(None, None), parts[0])
            case None => None
            case Some(p) => TsSegment(p, parts[1])
  {
    hide GoSegment, TsSegment;
    assert GoUpTo(parts, 0) == Some(Parsed(None, None)) && TsUpTo(parts, 0) == Some(Parsed(None, None));
    assert GoUpTo(parts, 1) == GoSegment(Parsed(None, None), parts[0]);
    assert TsUpTo(parts, 1) == TsSegment(Parsed(None, None), parts[0]);
  }

  /** Verifying what was signed: it is judged by the sign of its timestamp and by its age alone, and then by the first
      secret that gives the same mac. */
  lemma VerifySigned(mac: Mac, secret: string, secrets: seq<string>, method_: string, path: string, body: string,
      timestamp: int, clock: int, now: int, skew: int)
    requires secret != "" && secrets != [] && IsInt64(OrElse(timestamp, clock)) && IsInt64(now)
    ensures var ts := OrElse(timestamp, clock);
            var payload := Payload(ts, method_, path, body);
            var signed := Sign(mac, secret, method_, path, body, timestamp, clock);
            && signed.Some? && signed.value.1 == ts
            && GoVerdict(mac, secrets, method_, path, body, signed.value.0, now, skew) ==
               if ts < 0 then Malformed
               else if Distance(now, ts) > skew then Stale
               else FirstMatch(mac, secrets, payload, mac(secret, payload), 0)
  {
    hide Header, Payload, FirstMatch, GoParse, Distance, Delta;
    var ts := OrElse(timestamp, clock);
    HeaderRoundTrip(ts, mac(secret, Payload(ts, method_, path, body)));
    if ts >= 0 {
      DeltaIs(now, ts);
    }
  }

  /** A signature within the skew, of a time that is not before 1970, is accepted when its secret is configured, by that
      secret or one before it that gives the same mac. */
  lemma SignedIsAccepted(mac: Mac, secret: string, secrets: seq<string>, k: nat, method_: string, path: string,
      body: string, timestamp: int, clock: int, now: int, skew: int)
    requires secret != "" && k < |secrets| && secrets[k] == secret
    requires IsInt64(OrElse(timestamp, clock)) && IsInt64(now) && IsInt64(skew)
    requires now - OrElse(timestamp, clock) <= skew && OrElse(timestamp, clock) - now <= skew
    ensures var signed := Sign(mac, secret, method_, path, body, timestamp, clock);
            var payload := Payload(OrElse(timestamp, clock), method_, path, body);
            var verdict := GoVerdict(mac, secrets, method_, path, body, signed.value.0, now, skew);
            if OrElse(timestamp, clock) < 0 then verdict == Malformed
            else
              verdict.Match? && verdict.secret <= k && mac(secrets[verdict.secret], payload) == mac(secret, payload)
  {
    hide Header, Payload, FirstMatch, GoVerdict, Sign;
    VerifySigned(mac, secret, secrets, method_, path, body, timestamp, clock, now, skew);
    var payload := Payload(OrElse(timestamp, clock), method_, path, body);
    FirstMatchExactly(mac, secrets, payload, mac(secret, payload), 0);
  }

  // ---- What a payload determines ------------------------------------------------------------------

  /** Two texts that begin with a separator-free word agree on both sides of the first separator. */
  lemma FirstSeparator(v: string, w: string, a: string, b: string, sep: char)
    requires sep !in v && sep !in w
    ensures v + [sep] + a == w + [sep] + b <==> v == w && a == b
  {
    if v + [sep] + a == w + [sep] + b {
      CutLine(v, sep, a);
      CutLine(w, sep, b);
    }
  }

  lemma UpperKeepsDots(s: string)
    ensures '.' in ToUpper(s) <==> '.' in s
  {
    if '.' in s {
      var i :| 0 <= i < |s| && s[i] == '.';
      assert ToUpper(s)[i] == '.';
    }
  }

  lemma DigitsInjective(m: nat, n: nat)
    requires Digits(m) == Digits(n)
    ensures m == n
  {
    hide Digits;
    DigitsRoundTrip(m);
    DigitsRoundTrip(n);
  }

  lemma IntTextInjective(m: int, n: int)
    ensures IntText(m) == IntText(n) <==> m == n
  {
    hide Digits;
    if IntText(m) == IntText(n) {
      IntTextSign(m);
      IntTextSign(n);
      if m >= 0 {
        DigitsInjective(m, n);
      } else {
        CancelLeft("-", Digits(-m), Digits(-n));
        DigitsInjective(-m, -n);
      }
    }
  }

  lemma IntTextSign(n: int)
    ensures IntText(n)[0] == '-' <==> n < 0
  {
    if n >= 0 {
      assert IsDigit(Digits(n)[0]);
    }
  }

  /** A payload determines the timestamp, the method up to its case, and the path and body joined by a dot, when no
      method holds a dot. */
  lemma PayloadDetermines(ts: int, m: string, p: string, b: string, ts2: int, m2: string, p2: string, b2: string)
    requires '.' !in m && '.' !in m2
    ensures Payload(ts, m, p, b) == Payload(ts2, m2, p2, b2) <==>
            ts == ts2 && ToUpper(m) == ToUpper(m2) && p + "." + b == p2 + "." + b2
  {
    hide IntText, ToUpper;
    var rest, rest2 := p + "." + b, p2 + "." + b2;
    IntTextPlain(ts);
    IntTextPlain(ts2);
    UpperKeepsDots(m);
    UpperKeepsDots(m2);
    PayloadIs(ts, m, p, b);
    PayloadIs(ts2, m2, p2, b2);
    FirstSeparator(IntText(ts), IntText(ts2), ToUpper(m) + ['.'] + rest, ToUpper(m2) + ['.'] + rest2, '.');
    FirstSeparator(ToUpper(m), ToUpper(m2), rest, rest2, '.');
    IntTextInjective(ts, ts2);
  }

  lemma PayloadIs(ts: int, m: string, p: string, b: string)
    ensures Payload(ts, m, p, b) == IntText(ts) + ['.'] + (ToUpper(m) + ['.'] + (p + "." + b))
  {
    hide IntText, ToUpper;
    var t, u := IntText(ts), ToUpper(m);
    ConcatAssociative(t + "." + u + "." + p, ".", b);
    ConcatAssociative(t + "." + u + ".", p, "." + b);
    ConcatAssociative(t + "." + u, ".", p + ("." + b));
    ConcatAssociative(t + ".", u, "." + (p + ("." + b)));
    ConcatAssociative(p, ".", b);
    ConcatAssociative(u, ".", p + ("." + b));
  }

  /** And it determines all four when no path holds a dot either. */
  lemma PayloadDeterminesAll(ts: int, m: string, p: string, b: string, ts2: int, m2: string, p2: string, b2: string)
    requires '.' !in m && '.' !in m2 && '.' !in p && '.' !in p2
    ensures Payload(ts, m, p, b) == Payload(ts2, m2, p2, b2) <==>
            ts == ts2 && ToUpper(m) == ToUpper(m2) && p == p2 && b == b2
  {
    PayloadDetermines(ts, m, p, b, ts2, m2, p2, b2);
    FirstSeparator(p, p2, b, b2, '.');
  }

  /** A dot in a path leaves it open where the path ends. */
  lemma PayloadConfusesPathAndBody(ts: int, m: string, p: string, q: string, b: string)
    ensures Payload(ts, m, p + "." + q, b) == Payload(ts, m, p, q + "." + b)
  {
    hide IntText, ToUpper;
    PayloadIs(ts, m, p + "." + q, b);
    PayloadIs(ts, m, p, q + "." + b);
    ConcatAssociative(p + ".", q + ".", b);
    assert (p + "." + q) + "." + b == p + "." + (q + "." + b);
  }

  // ---- Verifying in TypeScript --------------------------------------------------------------------

  /** `verify` of `auth.ts`: here a time or a skew of zero is not replaced by a default. */
  function TsVerdict(mac: Mac, secrets: seq<string>, method_: string, path: string, body: string, header: string,
      now: int, skew: int): Verdict {
    if secrets == [] then Malformed
    else
      match TsParse(header)
      case None => Malformed
      case Some((ts, hex)) =>
        if now - ts > skew || ts - now > skew then Stale
        else
          match JsDecodeHex(hex)
          case None => Malformed
          case Some(sig) => FirstMatch(mac, secrets, Payload(ts, method_, path, body), sig, 0)
  }

  /** Whatever the TypeScript verifier decides about a header it can parse, the Go verifier decides too, for the same
      time, if its distance from the timestamps that TypeScript can parse does not wrap around, and the same skew. */
  lemma VerifiersAgree(mac: Mac, secrets: seq<string>, method_: string, path: string, body: string, header: string,
      now: int, skew: int)
    requires MIN_INT64 + MAX_SAFE_INTEGER < now <= MAX_INT64
    ensures TsParse(header).Some? ==>
              TsVerdict(mac, secrets, method_, path, body, header, now, skew) ==
              GoVerdict(mac, secrets, method_, path, body, header, now, skew)
    ensures TsVerdict(mac, secrets, method_, path, body, header, now, skew).Match? ==>
              TsVerdict(mac, secrets, method_, path, body, header, now, skew) ==
              GoVerdict(mac, secrets, method_, path, body, header, now, skew)
  {
    hide Payload, FirstMatch, DecodeHex, JsDecodeHex, Delta;
    ParsersAgree(header);
    if TsParse(header).Some? {
      TimestampFits(header);
      DeltaIs(now, TsParse(header).value.0);
      JsDecodesMore(TsParse(header).value.1);
    }
  }

  lemma {:induction false} TimestampInRange(parts: seq<string>, n: nat)
    requires n <= |parts|
    ensures var p := TsUpTo(parts, n); p.Some? && p.value.ts.Some? ==> 0 <= p.value.ts.value <= MAX_SAFE_INTEGER
  {
    if n > 0 {
      TimestampInRange(parts, n - 1);
    }
  }

  lemma TimestampFits(header: string)
    requires TsParse(header).Some?
    ensures 0 <= TsParse(header).value.0 <= MAX_SAFE_INTEGER
  {
    var parts := Split(header, ',');
    TimestampInRange(parts, |parts|);
  }
}

/** What `Verify` decides, said of the header, the secrets and the numbers of seconds alone. */
module Verdicts {
  import opened Wrappers
  import opened Sequences
  import opened Text
  import opened Canonical
  import opened Auth
  import Timing

  // ---- Which headers the parser takes -------------------------------------------------------------

  predicate IsTime(part: string) { "t=" <= part }

  predicate IsSignature(part: string) { "v1=" <= part }

  /** It has an equals sign; a time is a number that is not negative, and a signature has 64 characters. */
  predicate SegmentOk(part: string) {
    && '=' in part
    && (IsTime(part) ==> ParseInt(part[2..]).Some? && ParseInt(part[2..]).value >= 0)
    && (IsSignature(part) ==> |part[3..]| == 64)
  }

  /** Of the first n parts, the last that is a time has this one, or there is none. */
  ghost predicate LastTime(parts: seq<string>, n: nat, ts: Option<int>)
    requires n <= |parts|
  {
    match ts
    case Some(v) => exists i :: 0 <= i < n && IsTime(parts[i]) && ParseInt(parts[i][2..]) == Some(v)
                      && forall j :: i < j < n ==> !IsTime(parts[j])
    case None => forall i :: 0 <= i < n ==> !IsTime(parts[i])
  }

  ghost predicate LastSignature(parts: seq<string>, n: nat, sig: Option<string>)
    requires n <= |parts|
  {
    match sig
    case Some(v) => exists i :: 0 <= i < n && IsSignature(parts[i]) && ToLower(parts[i][3..]) == v
                      && forall j :: i < j < n ==> !IsSignature(parts[j])
    case None => forall i :: 0 <= i < n ==> !IsSignature(parts[i])
  }

  /** All segments are in order, and the last time and the last signature are these. */
  ghost predicate HeaderIs(header: string, ts: int, sig: seq<byte>) {
    var parts := Split(header, ',');
    && (forall i :: 0 <= i < |parts| ==> SegmentOk(parts[i]))
    && LastTime(parts, |parts|, Some(ts))
    && exists text :: LastSignature(parts, |parts|, Some(text)) && DecodeHex(text) == Some(sig)
  }

  lemma {:induction false} CutsFirst(s: string, sep: char)
    ensures var i := CutAt(s, sep);
            (i < 0 <==> sep !in s) && forall j :: 0 <= j < i ==> s[j] != sep
  {
    if s != "" {
      CutsFirst(s[1..], sep);
      assert s == [s[0]] + s[1..];
    }
  }

  /** The key of a segment is what stands before its first equals sign. */
  lemma SegmentIs(part: string)
    ensures Segment(part).Some? <==> '=' in part
    ensures IsTime(part) <==> Segment(part).Some? && Segment(part).value.0 == "t"
    ensures IsTime(part) ==> Segment(part).value.1 == part[2..]
    ensures IsSignature(part) <==> Segment(part).Some? && Segment(part).value.0 == "v1"
    ensures IsSignature(part) ==> Segment(part).value.1 == part[3..]
  {
    CutsFirst(part, '=');
    if IsTime(part) {
      assert part[1] == '=' && part[..1] == "t";
    }
    if IsSignature(part) {
      assert part[0] == 'v' && part[1] == '1' && part[2] == '=' && part[..2] == "v1";
    }
    var i := CutAt(part, '=');
    if i >= 0 {
      assert part[..i + 1] == part[..i] + "=";
    }
  }

  lemma SegmentExactly(p: Parsed<string>, part: string)
    ensures GoSegment(p, part) ==
            if !SegmentOk(part) then None
            else if IsTime(part) then Some(p.(ts := ParseInt(part[2..])))
            else if IsSignature(part) then Some(p.(sig := Some(ToLower(part[3..])))) else Some(p)
    ensures !(IsTime(part) && IsSignature(part))
    ensures SegmentOk(part) && IsTime(part) ==> ParseInt(part[2..]).Some?
  {
    hide ParseInt, CutAt, ToLower;
    SegmentIs(part);
    hide Segment, IsTime, IsSignature;
  }

  lemma {:induction false} UpToExactly(parts: seq<string>, n: nat)
    requires n <= |parts|
    ensures GoUpTo(parts, n).Some? <==> forall i :: 0 <= i < n ==> SegmentOk(parts[i])
    ensures GoUpTo(parts, n).Some? ==>
              LastTime(parts, n, GoUpTo(parts, n).value.ts) && LastSignature(parts, n, GoUpTo(parts, n).value.sig)
  {
    hide GoSegment, SegmentOk, ParseInt, ToLower, IsTime, IsSignature;
    if n > 0 {
      UpToExactly(parts, n - 1);
      if GoUpTo(parts, n - 1).Some? {
        var p := GoUpTo(parts, n - 1).value;
        SegmentExactly(p, parts[n - 1]);
        LastTimeNext(parts, n - 1, p.ts);
        LastSignatureNext(parts, n - 1, p.sig);
      }
    }
  }

  lemma LastTimeNext(parts: seq<string>, n: nat, ts: Option<int>)
    requires n < |parts| && LastTime(parts, n, ts)
    ensures if IsTime(parts[n])
            then ParseInt(parts[n][2..]).Some? ==> LastTime(parts, n + 1, ParseInt(parts[n][2..]))
            else LastTime(parts, n + 1, ts)
  {
    hide ParseInt;
  }

  lemma LastSignatureNext(parts: seq<string>, n: nat, sig: Option<string>)
    requires n < |parts| && LastSignature(parts, n, sig)
    ensures LastSignature(parts, n + 1, if IsSignature(parts[n]) then Some(ToLower(parts[n][3..])) else sig)
  {
    hide ToLower;
  }

  lemma LastTimeUnique(parts: seq<string>, n: nat, a: Option<int>, b: Option<int>)
    requires n <= |parts| && LastTime(parts, n, a) && LastTime(parts, n, b)
    ensures a == b
  {
    hide ParseInt;
  }

  lemma LastSignatureUnique(parts: seq<string>, n: nat, a: Option<string>, b: Option<string>)
    requires n <= |parts| && LastSignature(parts, n, a) && LastSignature(parts, n, b)
    ensures a == b
  {
    hide ToLower;
  }

  /** The Go parser takes exactly those headers. */
  lemma GoParseExactly(header: string, ts: int, sig: seq<byte>)
    ensures GoParse(header) == Some((ts, sig)) <==> HeaderIs(header, ts, sig)
  {
    hide LastTime, LastSignature, SegmentOk, GoUpTo, Split, DecodeHex;
    var parts := Split(header, ',');
    UpToExactly(parts, |parts|);
    EmptyHeader();
    if HeaderIs(header, ts, sig) {
      assert parts != [] ==> SegmentOk(parts[0]);
      var text :| LastSignature(parts, |parts|, Some(text)) && DecodeHex(text) == Some(sig);
      var p := GoUpTo(parts, |parts|).value;
      LastTimeUnique(parts, |parts|, Some(ts), p.ts);
      LastSignatureUnique(parts, |parts|, Some(text), p.sig);
    }
  }

  lemma EmptyHeader()
    ensures Split("", ',') == [""] && !SegmentOk("")
  {}

  // ---- What is decided ----------------------------------------------------------------------------

  /** Secret i is used and signs the request so. */
  predicate SignsSo(mac: Mac, secret: string, ts: int, method_: string, path: string, body: string, sig: seq<byte>) {
    secret != "" && mac(secret, IntText(ts) + "." + ToUpper(method_) + "." + path + "." + body) == sig
  }

  /** The first secret that signs the request so, or a mismatch when none does. */
  predicate Judged(mac: Mac, secrets: seq<string>, ts: int, method_: string, path: string, body: string,
      sig: seq<byte>, verdict: Verdict) {
    match verdict
    case Match(i) =>
      && i < |secrets| && SignsSo(mac, secrets[i], ts, method_, path, body, sig)
      && forall j :: 0 <= j < i ==> !SignsSo(mac, secrets[j], ts, method_, path, body, sig)
    case Mismatch => forall j :: 0 <= j < |secrets| ==> !SignsSo(mac, secrets[j], ts, method_, path, body, sig)
    case _ => false
  }

  /** Every verdict; a time of 0 means the clock, a skew of 0 means 300 seconds. */
  ghost predicate VerdictIs(mac: Mac, secrets: seq<string>, method_: string, path: string, body: string, header: string,
      now: int, clock: int, skew: int, verdict: Verdict) {
    var time := if now == 0 then clock else now;
    var window := if skew == 0 then 300 else skew;
    if secrets == [] || forall ts, sig :: !HeaderIs(header, ts, sig) then verdict == Malformed
    else
      exists ts, sig :: HeaderIs(header, ts, sig) &&
        if Distance(time, ts) > window then verdict == Stale
        else Judged(mac, secrets, ts, method_, path, body, sig, verdict)
  }

  lemma VerdictExactly(mac: Mac, secrets: seq<string>, method_: string, path: string, body: string, header: string,
      now: int, clock: int, skew: int)
    requires IsInt64(OrElse(now, clock))
    ensures var verdict := GoVerdict(mac, secrets, method_, path, body, header, OrElse(now, clock),
                                     OrElse(skew, Timing.REPLAY_WINDOW));
            VerdictIs(mac, secrets, method_, path, body, header, now, clock, skew, verdict)
  {
    hide GoParse, HeaderIs, Distance, Delta, ToUpper, IntText, FirstMatch;
    forall ts, sig ensures GoParse(header) == Some((ts, sig)) <==> HeaderIs(header, ts, sig) {
      GoParseExactly(header, ts, sig);
    }
    if secrets != [] && GoParse(header).Some? {
      var (ts, sig) := GoParse(header).value;
      ParsedFits(header);
      DeltaIs(OrElse(now, clock), ts);
      FirstMatchExactly(mac, secrets, Payload(ts, method_, path, body), sig, 0);
      assert HeaderIs(header, ts, sig);
    }
  }

  lemma ParsedFits(header: string)
    requires GoParse(header).Some?
    ensures 0 <= GoParse(header).value.0 <= MAX_INT64
  {
    hide Split, ParseInt, DecodeHex, LastSignature, GoUpTo;
    var ts := GoParse(header).value.0;
    var parts := Split(header, ',');
    UpToExactly(parts, |parts|);
    var i :| 0 <= i < |parts| && IsTime(parts[i]) && ParseInt(parts[i][2..]) == Some(ts);
    assert SegmentOk(parts[i]);
    ParsedIsInt64(parts[i][2..]);
  }

  lemma ParsedIsInt64(s: string)
    ensures ParseInt(s).Some? ==> IsInt64(ParseInt(s).value)
  {}

  /** With the default window a request signed at one time is stale at another exactly when they are more than 300
      seconds apart; for a later time that is what the clock of a fire calls fresh. */
  lemma StaleAfterFiveMinutes(mac: Mac, secret: string, secrets: seq<string>, method_: string, path: string,
      body: string, signedAt: nat, now: nat)
    requires secret != "" && secrets != [] && signedAt <= MAX_INT64 && now <= MAX_INT64
    ensures var s, t := signedAt / 1_000_000_000, now / 1_000_000_000;
            var signed := Sign(mac, secret, method_, path, body, 0, s);
            var verdict := GoVerdict(mac, secrets, method_, path, body, signed.value.0, OrElse(0, t),
                                     OrElse(0, Timing.REPLAY_WINDOW));
            && (verdict == Stale <==> t - s > 300 || s - t > 300)
            && (signedAt <= now ==> (verdict == Stale <==> !Timing.Fresh(signedAt, now)))
  {
    hide Payload, FirstMatch, GoVerdict;
    var s, t := signedAt / 1_000_000_000, now / 1_000_000_000;
    VerifySigned(mac, secret, secrets, method_, path, body, 0, s, t, 300);
    var payload := Payload(s, method_, path, body);
    FirstMatchExactly(mac, secrets, payload, mac(secret, payload), 0);
  }

  // ---- The method in a payload --------------------------------------------------------------------

  function Small(): (s: string)
    ensures |s| == 26
  {
    "abcdefghijklmnopqrstuvwxyz"
  }

  function Capital(): (s: string)
    ensures |s| == 26
  {
    "ABCDEFGHIJKLMNOPQRSTUVWXYZ"
  }

  lemma SmallAt(k: nat)
    requires k < 26
    ensures Small()[k] as int == 'a' as int + k
  {}

  lemma CapitalAt(k: nat)
    requires k < 26
    ensures Capital()[k] as int == 'A' as int + k
  {}

  /** A small letter becomes the capital in its place, and back; every other character stays. */
  lemma CaseExactly(s: string, i: nat, k: nat)
    requires i < |s| && k < 26
    ensures s[i] == Small()[k] ==> ToUpper(s)[i] == Capital()[k] && ToLower(s)[i] == s[i]
    ensures s[i] == Capital()[k] ==> ToLower(s)[i] == Small()[k] && ToUpper(s)[i] == s[i]
    ensures s[i] !in Small() && s[i] !in Capital() ==> ToUpper(s)[i] == s[i] && ToLower(s)[i] == s[i]
  {
    hide Small, Capital;
    SmallAt(k);
    CapitalAt(k);
    if 'a' <= s[i] <= 'z' {
      SmallAt(s[i] as int - 'a' as int);
    }
    if 'A' <= s[i] <= 'Z' {
      CapitalAt(s[i] as int - 'A' as int);
    }
  }
}

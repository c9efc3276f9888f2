/** The canonical JSON form of a manifest, as Go's `encoding/json` and as `canonicalize` in TypeScript print it, and its
    UTF-8 bytes.

    A `string` here is a sequence of Unicode scalar values, so every string is valid UTF-8.  Each printer takes
    the text that follows it.  Its law then says that the printed value and the text after it can both be read
    back, which is what lets the printers nest; and that where the two implementations print the same, they were
    given the same value, in which nothing is printed differently. */
module Canonical {
  import opened Sequences
  import opened Text
  import opened NormalizedManifests
  import opened KeyOrder

  // ---- Strings ------------------------------------------------------------------------------------

  function HexDigit(n: nat): char
    requires n < 16
  {
    if n < 10 then ('0' as int + n) as char else ('a' as int + n - 10) as char
  }

  function UnicodeEscape(code: nat): string
    requires code < 0x10000
  {
    ['\\', 'u', HexDigit(code / 4096), HexDigit(code / 256 % 16), HexDigit(code / 16 % 16), HexDigit(code % 16)]
  }

  /** The five characters that only Go escapes: the HTML characters and the two line separators. */
  predicate OnlyGoEscapes(c: char) { c == '<' || c == '>' || c == '&' || c == '\U{2028}' || c == '\U{2029}' }

  predicate Plain(s: string) { forall i :: 0 <= i < |s| ==> !OnlyGoEscapes(s[i]) }

  /** One character inside a JSON string: the short escapes, `\u` for other controls and what else Go escapes, and
      every other character as it is. */
  function EscapeChar(style: Style, c: char): (s: string)
    ensures |s| >= 1
  {
    if c == '"' || c == '\\' then ['\\', c]
    else if c == '\U{8}' then "\\b"
    else if c == '\U{C}' then "\\f"
    else if c == '\n' then "\\n"
    else if c == '\r' then "\\r"
    else if c == '\t' then "\\t"
    else if c < ' ' || (style.Go? && OnlyGoEscapes(c)) then UnicodeEscape(c as int)
    else [c]
  }

  function StringBody(style: Style, s: string, rest: string): string {
    if s == "" then "\"" + rest else EscapeChar(style, s[0]) + StringBody(style, s[1..], rest)
  }

  function PrintString(style: Style, s: string, rest: string): string { "\"" + StringBody(style, s, rest) }

  lemma UnicodeEscapeInjective(a: nat, b: nat)
    requires a < 0x10000 && b < 0x10000
    requires UnicodeEscape(a) == UnicodeEscape(b)
    ensures a == b
  {
    var x, y := UnicodeEscape(a), UnicodeEscape(b);
    HexDigitInjective(a / 4096, b / 4096, x[2], y[2]);
    HexDigitInjective(a / 256 % 16, b / 256 % 16, x[3], y[3]);
    HexDigitInjective(a / 16 % 16, b / 16 % 16, x[4], y[4]);
    HexDigitInjective(a % 16, b % 16, x[5], y[5]);
    Base16(a);
    Base16(b);
  }

  lemma HexDigitInjective(n: nat, m: nat, c: char, d: char)
    requires n < 16 && m < 16 && c == HexDigit(n) && d == HexDigit(m)
    ensures n == m <==> c == d
  {}

  lemma Base16(a: nat)
    ensures a == a / 4096 * 4096 + a / 256 % 16 * 256 + a / 16 % 16 * 16 + a % 16
  {
    assert a == a / 16 * 16 + a % 16;
    assert a / 16 == a / 256 * 16 + a / 16 % 16;
    assert a / 256 == a / 4096 * 16 + a / 256 % 16;
  }

  lemma EscapeCharDecodes(d: Style, e: Style, a: char, b: char, x: string, y: string)
    requires EscapeChar(d, a) + x == EscapeChar(e, b) + y
    ensures a == b && x == y && (d == e || !OnlyGoEscapes(a))
  {
    var u, v := EscapeChar(d, a) + x, EscapeChar(e, b) + y;
    assert u[0] == EscapeChar(d, a)[0] && v[0] == EscapeChar(e, b)[0];
    if u[0] == '\\' {
      assert u[1] == EscapeChar(d, a)[1] && v[1] == EscapeChar(e, b)[1];
      if u[1] == 'u' {
        assert u[..6] == EscapeChar(d, a) && v[..6] == EscapeChar(e, b);
        UnicodeEscapeInjective(a as int, b as int);
      }
    }
    CancelLeft(EscapeChar(d, a), x, y);
  }

  lemma StringBodyHead(d: Style, s: string, x: string)
    ensures StringBody(d, s, x) != "" && (StringBody(d, s, x)[0] == '"' <==> s == "")
  {
    if s != "" {
      assert StringBody(d, s, x)[0] == EscapeChar(d, s[0])[0];
    }
  }

  lemma {:induction false} StringBodyDecodes(d: Style, e: Style, s: string, t: string, x: string, y: string)
    requires StringBody(d, s, x) == StringBody(e, t, y)
    ensures s == t && x == y && (d == e || Plain(s))
  {
    StringBodyHead(d, s, x);
    StringBodyHead(e, t, y);
    if s == "" {
      CancelLeft("\"", x, y);
    } else {
      EscapeCharDecodes(d, e, s[0], t[0], StringBody(d, s[1..], x), StringBody(e, t[1..], y));
      StringBodyDecodes(d, e, s[1..], t[1..], x, y);
      HeadAndTail(s, t);
    }
  }

  lemma PrintStringDecodes(d: Style, e: Style, s: string, t: string, x: string, y: string)
    requires PrintString(d, s, x) == PrintString(e, t, y)
    ensures s == t && x == y && (d == e || Plain(s))
  {
    CancelLeft("\"", StringBody(d, s, x), StringBody(e, t, y));
    StringBodyDecodes(d, e, s, t, x, y);
  }

  // ---- Numbers ------------------------------------------------------------------------------------

  function PrintInt(n: int, rest: string): string {
    if n < 0 then "-" + Digits(-n) + rest else Digits(n) + rest
  }

  predicate EndsNumber(rest: string) { rest != "" && !IsDigit(rest[0]) }

  lemma NumberEnd(n: nat, x: string)
    requires EndsNumber(x)
    ensures var a, u := Digits(n), Digits(n) + x;
            u[..|a|] == a && !IsDigit(u[|a|]) && forall i :: 0 <= i < |a| ==> IsDigit(u[i])
  {
    assert (Digits(n) + x)[|Digits(n)|] == x[0];
  }

  lemma DigitsDecode(n: nat, m: nat, x: string, y: string)
    requires EndsNumber(x) && EndsNumber(y)
    requires Digits(n) + x == Digits(m) + y
    ensures n == m && x == y
  {
    NumberEnd(n, x);
    NumberEnd(m, y);
    DigitsRoundTrip(n);
    DigitsRoundTrip(m);
    assert Digits(n) == Digits(m);
    CancelLeft(Digits(n), x, y);
  }

  lemma PrintIntDecodes(n: int, m: int, x: string, y: string)
    requires EndsNumber(x) && EndsNumber(y)
    requires PrintInt(n, x) == PrintInt(m, y)
    ensures n == m && x == y
  {
    var u, v := PrintInt(n, x), PrintInt(m, y);
    assert u[0] == (if n < 0 then '-' else Digits(n)[0]) && v[0] == (if m < 0 then '-' else Digits(m)[0]);
    if n < 0 {
      assert u == "-" + (Digits(-n) + x) && v == "-" + (Digits(-m) + y);
      CancelLeft("-", Digits(-n) + x, Digits(-m) + y);
      DigitsDecode(-n, -m, x, y);
    } else {
      DigitsDecode(n, m, x, y);
    }
  }

  // ---- Arrays of strings --------------------------------------------------------------------------

  predicate PlainAll(ss: seq<string>) { forall i :: 0 <= i < |ss| ==> Plain(ss[i]) }

  function ArrayTail(style: Style, ss: seq<string>, first: bool, rest: string): string {
    if ss == [] then "]" + rest
    else (if first then "" else ",") + PrintString(style, ss[0], ArrayTail(style, ss[1..], false, rest))
  }

  function PrintArray(style: Style, ss: seq<string>, rest: string): string { "[" + ArrayTail(style, ss, true, rest) }

  lemma ArrayTailHead(d: Style, ss: seq<string>, first: bool, x: string)
    ensures ArrayTail(d, ss, first, x) != "" && (ArrayTail(d, ss, first, x)[0] == ']' <==> ss == [])
  {}

  lemma {:induction false} ArrayTailDecodes(
    d: Style, e: Style, ss: seq<string>, tt: seq<string>, first: bool, x: string, y: string)
    requires ArrayTail(d, ss, first, x) == ArrayTail(e, tt, first, y)
    ensures ss == tt && x == y && (d == e || PlainAll(ss))
  {
    ArrayTailHead(d, ss, first, x);
    ArrayTailHead(e, tt, first, y);
    if ss == [] {
      CancelLeft("]", x, y);
    } else {
      var u, v := ArrayTail(d, ss[1..], false, x), ArrayTail(e, tt[1..], false, y);
      CancelLeft(if first then "" else ",", PrintString(d, ss[0], u), PrintString(e, tt[0], v));
      PrintStringDecodes(d, e, ss[0], tt[0], u, v);
      ArrayTailDecodes(d, e, ss[1..], tt[1..], false, x, y);
      HeadAndTail(ss, tt);
    }
  }

  lemma PrintArrayDecodes(d: Style, e: Style, ss: seq<string>, tt: seq<string>, x: string, y: string)
    requires PrintArray(d, ss, x) == PrintArray(e, tt, y)
    ensures ss == tt && x == y && (d == e || PlainAll(ss))
  {
    CancelLeft("[", ArrayTail(d, ss, true, x), ArrayTail(e, tt, true, y));
    ArrayTailDecodes(d, e, ss, tt, true, x, y);
  }

  // ---- Header maps, printed in the order of their keys --------------------------------------------

  function PrintPair(style: Style, k: string, v: string, rest: string): string {
    PrintString(style, k, ":" + PrintString(style, v, rest))
  }

  lemma PrintPairDecodes(d: Style, e: Style, k: string, l: string, v: string, w: string, x: string, y: string)
    requires PrintPair(d, k, v, x) == PrintPair(e, l, w, y)
    ensures k == l && v == w && x == y && (d == e || (Plain(k) && Plain(v)))
  {
    PrintStringDecodes(d, e, k, l, ":" + PrintString(d, v, x), ":" + PrintString(e, w, y));
    CancelLeft(":", PrintString(d, v, x), PrintString(e, w, y));
    PrintStringDecodes(d, e, v, w, x, y);
  }

  function PairsTail(style: Style, keys: seq<string>, m: map<string, string>, first: bool, rest: string): string
    requires forall k :: k in keys ==> k in m
  {
    if keys == [] then "}" + rest
    else
      (if first then "" else ",") +
      PrintPair(style, keys[0], m[keys[0]], PairsTail(style, keys[1..], m, false, rest))
  }

  function PrintObject(style: Style, m: map<string, string>, rest: string): string {
    "{" + PairsTail(style, SortedKeys(style, m.Keys), m, true, rest)
  }

  lemma PairsTailHead(d: Style, keys: seq<string>, m: map<string, string>, first: bool, x: string)
    requires forall k :: k in keys ==> k in m
    ensures PairsTail(d, keys, m, first, x) != "" && (PairsTail(d, keys, m, first, x)[0] == '}' <==> keys == [])
  {}

  ghost predicate SamePairs(keys: seq<string>, m: map<string, string>, n: map<string, string>) {
    forall k :: k in keys ==> k in m && k in n && m[k] == n[k]
  }

  predicate PlainPairs(keys: seq<string>, m: map<string, string>) {
    forall k :: k in keys ==> k in m && Plain(k) && Plain(m[k])
  }

  lemma {:induction false} PairsTailDecodes(
    d: Style, e: Style, ks: seq<string>, ls: seq<string>, m: map<string, string>, n: map<string, string>, first: bool,
    x: string, y: string)
    requires (forall k :: k in ks ==> k in m) && (forall k :: k in ls ==> k in n)
    requires PairsTail(d, ks, m, first, x) == PairsTail(e, ls, n, first, y)
    ensures ks == ls && x == y && SamePairs(ks, m, n) && (d == e || PlainPairs(ks, m))
  {
    hide PrintPair, Plain;
    PairsTailHead(d, ks, m, first, x);
    PairsTailHead(e, ls, n, first, y);
    if ks == [] {
      CancelLeft("}", x, y);
    } else {
      var u, v := PairsTail(d, ks[1..], m, false, x), PairsTail(e, ls[1..], n, false, y);
      CancelLeft(if first then "" else ",", PrintPair(d, ks[0], m[ks[0]], u), PrintPair(e, ls[0], n[ls[0]], v));
      PrintPairDecodes(d, e, ks[0], ls[0], m[ks[0]], n[ls[0]], u, v);
      PairsTailDecodes(d, e, ks[1..], ls[1..], m, n, false, x, y);
      HeadAndTail(ks, ls);
      assert forall k :: k in ks <==> k == ks[0] || k in ks[1..];
    }
  }

  /** Headers that both implementations print alike: plain texts, under names whose orders agree. */
  ghost predicate AlikeHeaders(m: map<string, string>) {
    (forall k :: k in m ==> Plain(k) && Plain(m[k])) && OrdersAgree(m.Keys)
  }

  lemma PrintObjectDecodes(d: Style, e: Style, m: map<string, string>, n: map<string, string>, x: string, y: string)
    requires PrintObject(d, m, x) == PrintObject(e, n, y)
    ensures m == n && x == y && (d == e || AlikeHeaders(m))
  {
    hide Plain, SortedKeys, OrdersAgree;
    var ks, ls := SortedKeys(d, m.Keys), SortedKeys(e, n.Keys);
    CancelLeft("{", PairsTail(d, ks, m, true, x), PairsTail(e, ls, n, true, y));
    PairsTailDecodes(d, e, ks, ls, m, n, true, x, y);
    assert m.Keys == n.Keys;
    assert m == n;
    ListedAlikeExactly(m.Keys);
  }

  // ---- The manifest -------------------------------------------------------------------------------

  /** A key of a struct, in quotes, and the colon. */
  function Key(k: string): string { "\"" + k + "\":" }

  function PrintRetries(r: NormalizedRetries, rest: string): string {
    "{" + Key("max_attempts") + PrintInt(r.maxAttempts,
    "," + Key("min_seconds") + PrintInt(r.minSeconds,
    "," + Key("max_seconds") + PrintInt(r.maxSeconds, "}" + rest)))
  }

  function PrintPolicy(style: Style, p: NormalizedPolicy, rest: string): string {
    "{" + Key("concurrency") + PrintString(style, p.concurrency,
    "," + Key("concurrency_scope") + PrintString(style, p.concurrencyScope,
    "," + Key("timeout_seconds") + PrintInt(p.timeoutSeconds,
    "," + Key("retries") + PrintRetries(p.retries, "}" + rest))))
  }

  function PrintRequest(style: Style, r: NormalizedRequest, rest: string): string {
    "{" + Key("method") + PrintString(style, r.method_,
    "," + Key("url") + PrintString(style, r.url,
    "," + Key("headers") + PrintObject(style, r.headers,
    "," + Key("body") + PrintString(style, r.body, "}" + rest))))
  }

  function PrintJob(style: Style, j: NormalizedJob, rest: string): string {
    "{" + Key("name") + PrintString(style, j.name,
    "," + Key("schedules") + PrintArray(style, j.schedules,
    "," + Key("timezone") + PrintString(style, j.timezone,
    "," + Key("request") + PrintRequest(style, j.request,
    "," + Key("policy") + PrintPolicy(style, j.policy,
    "," + Key("auth") + "{" + Key("secret_refs") + PrintArray(style, j.secretRefs, "}}" + rest))))))
  }

  function JobsTail(style: Style, jobs: seq<NormalizedJob>, first: bool, rest: string): string {
    if jobs == [] then "]" + rest
    else (if first then "" else ",") + PrintJob(style, jobs[0], JobsTail(style, jobs[1..], false, rest))
  }

  /** `canonicalize` writes the version as a constant. */
  function PrintManifest(style: Style, m: NormalizedManifest): string {
    "{" + Key("version") + PrintInt(if style.Js? then 1 else m.version,
    "," + Key("app") + PrintString(style, m.app,
    "," + Key("jobs") + "[" + JobsTail(style, m.jobs, true, "}")))
  }

  // ---- What both implementations print alike ------------------------------------------------------

  predicate PlainPolicy(p: NormalizedPolicy) { Plain(p.concurrency) && Plain(p.concurrencyScope) }

  ghost predicate AlikeRequest(r: NormalizedRequest) {
    Plain(r.method_) && Plain(r.url) && AlikeHeaders(r.headers) && Plain(r.body)
  }

  ghost predicate AlikeJob(j: NormalizedJob) {
    && Plain(j.name) && PlainAll(j.schedules) && Plain(j.timezone) && AlikeRequest(j.request) && PlainPolicy(j.policy)
    && PlainAll(j.secretRefs)
  }

  ghost predicate AlikeJobs(jobs: seq<NormalizedJob>) { forall i :: 0 <= i < |jobs| ==> AlikeJob(jobs[i]) }

  /** No text of the manifest holds one of the five characters, no job has two header names that the two orders put
      differently, and the version is 1. */
  ghost predicate AlikeManifest(m: NormalizedManifest) { m.version == 1 && Plain(m.app) && AlikeJobs(m.jobs) }

  lemma PrintRetriesDecodes(r: NormalizedRetries, s: NormalizedRetries, x: string, y: string)
    requires PrintRetries(r, x) == PrintRetries(s, y)
    ensures r == s && x == y
  {
    var a3, b3 := "}" + x, "}" + y;
    var a2 := "," + Key("max_seconds") + PrintInt(r.maxSeconds, a3);
    var b2 := "," + Key("max_seconds") + PrintInt(s.maxSeconds, b3);
    var a1 := "," + Key("min_seconds") + PrintInt(r.minSeconds, a2);
    var b1 := "," + Key("min_seconds") + PrintInt(s.minSeconds, b2);
    CancelLeft("{" + Key("max_attempts"), PrintInt(r.maxAttempts, a1), PrintInt(s.maxAttempts, b1));
    PrintIntDecodes(r.maxAttempts, s.maxAttempts, a1, b1);
    CancelLeft("," + Key("min_seconds"), PrintInt(r.minSeconds, a2), PrintInt(s.minSeconds, b2));
    PrintIntDecodes(r.minSeconds, s.minSeconds, a2, b2);
    CancelLeft("," + Key("max_seconds"), PrintInt(r.maxSeconds, a3), PrintInt(s.maxSeconds, b3));
    PrintIntDecodes(r.maxSeconds, s.maxSeconds, a3, b3);
    CancelLeft("}", x, y);
  }

  lemma PrintPolicyDecodes(d: Style, e: Style, p: NormalizedPolicy, q: NormalizedPolicy, x: string, y: string)
    requires PrintPolicy(d, p, x) == PrintPolicy(e, q, y)
    ensures p == q && x == y && (d == e || PlainPolicy(p))
  {
    hide PrintString, Plain;
    var a3, b3 := "," + Key("retries") + PrintRetries(p.retries, "}" + x), "," + Key("retries")
        + PrintRetries(q.retries, "}" + y);
    var a2, b2 := "," + Key("timeout_seconds") + PrintInt(p.timeoutSeconds, a3), "," + Key("timeout_seconds")
        + PrintInt(q.timeoutSeconds, b3);
    var a1 := "," + Key("concurrency_scope") + PrintString(d, p.concurrencyScope, a2);
    var b1 := "," + Key("concurrency_scope") + PrintString(e, q.concurrencyScope, b2);
    CancelLeft("{" + Key("concurrency"), PrintString(d, p.concurrency, a1), PrintString(e, q.concurrency, b1));
    PrintStringDecodes(d, e, p.concurrency, q.concurrency, a1, b1);
    CancelLeft("," + Key("concurrency_scope"), PrintString(d, p.concurrencyScope, a2),
               PrintString(e, q.concurrencyScope, b2));
    PrintStringDecodes(d, e, p.concurrencyScope, q.concurrencyScope, a2, b2);
    CancelLeft("," + Key("timeout_seconds"), PrintInt(p.timeoutSeconds, a3), PrintInt(q.timeoutSeconds, b3));
    PrintIntDecodes(p.timeoutSeconds, q.timeoutSeconds, a3, b3);
    CancelLeft("," + Key("retries"), PrintRetries(p.retries, "}" + x), PrintRetries(q.retries, "}" + y));
    PrintRetriesDecodes(p.retries, q.retries, "}" + x, "}" + y);
    CancelLeft("}", x, y);
  }

  lemma PrintRequestDecodes(d: Style, e: Style, r: NormalizedRequest, s: NormalizedRequest, x: string, y: string)
    requires PrintRequest(d, r, x) == PrintRequest(e, s, y)
    ensures r == s && x == y && (d == e || AlikeRequest(r))
  {
    hide PrintString, PrintObject, Plain, AlikeHeaders;
    var a3 := "," + Key("body") + PrintString(d, r.body, "}" + x);
    var b3 := "," + Key("body") + PrintString(e, s.body, "}" + y);
    var a2 := "," + Key("headers") + PrintObject(d, r.headers, a3);
    var b2 := "," + Key("headers") + PrintObject(e, s.headers, b3);
    var a1, b1 := "," + Key("url") + PrintString(d, r.url, a2), "," + Key("url") + PrintString(e, s.url, b2);
    CancelLeft("{" + Key("method"), PrintString(d, r.method_, a1), PrintString(e, s.method_, b1));
    PrintStringDecodes(d, e, r.method_, s.method_, a1, b1);
    CancelLeft("," + Key("url"), PrintString(d, r.url, a2), PrintString(e, s.url, b2));
    PrintStringDecodes(d, e, r.url, s.url, a2, b2);
    CancelLeft("," + Key("headers"), PrintObject(d, r.headers, a3), PrintObject(e, s.headers, b3));
    PrintObjectDecodes(d, e, r.headers, s.headers, a3, b3);
    CancelLeft("," + Key("body"), PrintString(d, r.body, "}" + x), PrintString(e, s.body, "}" + y));
    PrintStringDecodes(d, e, r.body, s.body, "}" + x, "}" + y);
    CancelLeft("}", x, y);
  }

  lemma PrintJobDecodes(d: Style, e: Style, j: NormalizedJob, k: NormalizedJob, x: string, y: string)
    requires PrintJob(d, j, x) == PrintJob(e, k, y)
    ensures j == k && x == y && (d == e || AlikeJob(j))
  {
    hide PrintString, PrintArray, PrintRequest, PrintPolicy, Plain, PlainAll, AlikeRequest, PlainPolicy;
    var a5 := "," + Key("auth") + "{" + Key("secret_refs") + PrintArray(d, j.secretRefs, "}}" + x);
    var b5 := "," + Key("auth") + "{" + Key("secret_refs") + PrintArray(e, k.secretRefs, "}}" + y);
    var a4 := "," + Key("policy") + PrintPolicy(d, j.policy, a5);
    var b4 := "," + Key("policy") + PrintPolicy(e, k.policy, b5);
    var a3 := "," + Key("request") + PrintRequest(d, j.request, a4);
    var b3 := "," + Key("request") + PrintRequest(e, k.request, b4);
    var a2 := "," + Key("timezone") + PrintString(d, j.timezone, a3);
    var b2 := "," + Key("timezone") + PrintString(e, k.timezone, b3);
    var a1 := "," + Key("schedules") + PrintArray(d, j.schedules, a2);
    var b1 := "," + Key("schedules") + PrintArray(e, k.schedules, b2);
    CancelLeft("{" + Key("name"), PrintString(d, j.name, a1), PrintString(e, k.name, b1));
    PrintStringDecodes(d, e, j.name, k.name, a1, b1);
    CancelLeft("," + Key("schedules"), PrintArray(d, j.schedules, a2), PrintArray(e, k.schedules, b2));
    PrintArrayDecodes(d, e, j.schedules, k.schedules, a2, b2);
    CancelLeft("," + Key("timezone"), PrintString(d, j.timezone, a3), PrintString(e, k.timezone, b3));
    PrintStringDecodes(d, e, j.timezone, k.timezone, a3, b3);
    CancelLeft("," + Key("request"), PrintRequest(d, j.request, a4), PrintRequest(e, k.request, b4));
    PrintRequestDecodes(d, e, j.request, k.request, a4, b4);
    CancelLeft("," + Key("policy"), PrintPolicy(d, j.policy, a5), PrintPolicy(e, k.policy, b5));
    PrintPolicyDecodes(d, e, j.policy, k.policy, a5, b5);
    CancelLeft("," + Key("auth") + "{" + Key("secret_refs"), PrintArray(d, j.secretRefs, "}}" + x),
               PrintArray(e, k.secretRefs, "}}" + y));
    PrintArrayDecodes(d, e, j.secretRefs, k.secretRefs, "}}" + x, "}}" + y);
    CancelLeft("}}", x, y);
  }

  lemma JobsTailHead(d: Style, jobs: seq<NormalizedJob>, first: bool, x: string)
    ensures JobsTail(d, jobs, first, x) != "" && (JobsTail(d, jobs, first, x)[0] == ']' <==> jobs == [])
  {
    if jobs != [] {
      assert PrintJob(d, jobs[0], JobsTail(d, jobs[1..], false, x))[0] == '{';
    }
  }

  lemma JobsTailStep(
    d: Style, e: Style, js: seq<NormalizedJob>, ks: seq<NormalizedJob>, first: bool, x: string, y: string)
    requires js != [] && ks != []
    requires JobsTail(d, js, first, x) == JobsTail(e, ks, first, y)
    ensures js[0] == ks[0] && JobsTail(d, js[1..], false, x) == JobsTail(e, ks[1..], false, y)
    ensures d == e || AlikeJob(js[0])
  {
    hide PrintJob, AlikeJob;
    var u, v := JobsTail(d, js[1..], false, x), JobsTail(e, ks[1..], false, y);
    CancelLeft(if first then "" else ",", PrintJob(d, js[0], u), PrintJob(e, ks[0], v));
    PrintJobDecodes(d, e, js[0], ks[0], u, v);
  }

  lemma JobsTailEnd(
    d: Style, e: Style, js: seq<NormalizedJob>, ks: seq<NormalizedJob>, first: bool, x: string, y: string)
    requires JobsTail(d, js, first, x) == JobsTail(e, ks, first, y)
    ensures js == [] <==> ks == []
    ensures js == [] ==> x == y
  {
    JobsTailHead(d, js, first, x);
    JobsTailHead(e, ks, first, y);
    if js == [] {
      CancelLeft("]", x, y);
    }
  }

  lemma {:induction false} JobsTailDecodes(
    d: Style, e: Style, js: seq<NormalizedJob>, ks: seq<NormalizedJob>, first: bool, x: string, y: string)
    requires JobsTail(d, js, first, x) == JobsTail(e, ks, first, y)
    ensures js == ks && x == y && (d == e || AlikeJobs(js))
  {
    hide AlikeJob, JobsTail, PrintJob;
    JobsTailEnd(d, e, js, ks, first, x, y);
    if js != [] {
      JobsTailStep(d, e, js, ks, first, x, y);
      JobsTailDecodes(d, e, js[1..], ks[1..], false, x, y);
      HeadAndTail(js, ks);
    }
  }

  lemma ManifestDecodes(d: Style, e: Style, m: NormalizedManifest, n: NormalizedManifest)
    requires PrintManifest(d, m) == PrintManifest(e, n)
    ensures (if d.Js? then 1 else m.version) == (if e.Js? then 1 else n.version)
    ensures m.app == n.app && m.jobs == n.jobs && (d == e || (Plain(m.app) && AlikeJobs(m.jobs)))
  {
    hide PrintString, JobsTail, Plain, AlikeJobs;
    var v, w := if d.Js? then 1 else m.version, if e.Js? then 1 else n.version;
    var a2 := "," + Key("jobs") + "[" + JobsTail(d, m.jobs, true, "}");
    var b2 := "," + Key("jobs") + "[" + JobsTail(e, n.jobs, true, "}");
    var a1, b1 := "," + Key("app") + PrintString(d, m.app, a2), "," + Key("app") + PrintString(e, n.app, b2);
    CancelLeft("{" + Key("version"), PrintInt(v, a1), PrintInt(w, b1));
    PrintIntDecodes(v, w, a1, b1);
    CancelLeft("," + Key("app"), PrintString(d, m.app, a2), PrintString(e, n.app, b2));
    PrintStringDecodes(d, e, m.app, n.app, a2, b2);
    CancelLeft("," + Key("jobs") + "[", JobsTail(d, m.jobs, true, "}"), JobsTail(e, n.jobs, true, "}"));
    JobsTailDecodes(d, e, m.jobs, n.jobs, true, "}", "}");
  }

  /** Two manifests with the same printed text are the same manifest. */
  lemma PrintManifestInjective(m: NormalizedManifest, n: NormalizedManifest)
    requires PrintManifest(Go, m) == PrintManifest(Go, n)
    ensures m == n
  {
    hide PrintManifest;
    ManifestDecodes(Go, Go, m, n);
  }

  lemma {:induction false} PlainBody(s: string, rest: string)
    requires Plain(s)
    ensures StringBody(Go, s, rest) == StringBody(Js, s, rest)
  {
    if s != "" {
      PlainBody(s[1..], rest);
    }
  }

  lemma PlainString(s: string, rest: string)
    requires Plain(s)
    ensures PrintString(Go, s, rest) == PrintString(Js, s, rest)
  {
    PlainBody(s, rest);
  }

  lemma {:induction false} PlainArray(ss: seq<string>, first: bool, rest: string)
    requires PlainAll(ss)
    ensures ArrayTail(Go, ss, first, rest) == ArrayTail(Js, ss, first, rest)
  {
    hide PrintString, Plain;
    if ss != [] {
      PlainArray(ss[1..], false, rest);
      PlainString(ss[0], ArrayTail(Go, ss[1..], false, rest));
    }
  }

  lemma {:induction false} PlainPairsTail(keys: seq<string>, m: map<string, string>, first: bool, rest: string)
    requires PlainPairs(keys, m)
    ensures PairsTail(Go, keys, m, first, rest) == PairsTail(Js, keys, m, first, rest)
  {
    hide PrintString, Plain;
    if keys != [] {
      PlainPairsTail(keys[1..], m, false, rest);
      var u := PairsTail(Go, keys[1..], m, false, rest);
      PlainString(m[keys[0]], u);
      PlainString(keys[0], ":" + PrintString(Go, m[keys[0]], u));
    }
  }

  lemma HeadersAlike(m: map<string, string>, rest: string)
    requires AlikeHeaders(m)
    ensures PrintObject(Go, m, rest) == PrintObject(Js, m, rest)
  {
    hide Plain, SortedKeys, OrdersAgree, PairsTail;
    ListedAlikeExactly(m.Keys);
    PlainPairsTail(SortedKeys(Go, m.Keys), m, true, rest);
  }

  lemma RequestAlike(r: NormalizedRequest, rest: string)
    requires AlikeRequest(r)
    ensures PrintRequest(Go, r, rest) == PrintRequest(Js, r, rest)
  {
    hide PrintString, PrintObject, Plain, AlikeHeaders;
    var a3 := "," + Key("body") + PrintString(Go, r.body, "}" + rest);
    var a2 := "," + Key("headers") + PrintObject(Go, r.headers, a3);
    PlainString(r.body, "}" + rest);
    HeadersAlike(r.headers, a3);
    PlainString(r.url, a2);
    PlainString(r.method_, "," + Key("url") + PrintString(Go, r.url, a2));
  }

  lemma PolicyAlike(p: NormalizedPolicy, rest: string)
    requires PlainPolicy(p)
    ensures PrintPolicy(Go, p, rest) == PrintPolicy(Js, p, rest)
  {
    hide PrintString, Plain;
    var a3 := "," + Key("retries") + PrintRetries(p.retries, "}" + rest);
    var a2 := "," + Key("timeout_seconds") + PrintInt(p.timeoutSeconds, a3);
    PlainString(p.concurrencyScope, a2);
    PlainString(p.concurrency, "," + Key("concurrency_scope") + PrintString(Go, p.concurrencyScope, a2));
  }

  lemma JobAlike(j: NormalizedJob, rest: string)
    requires AlikeJob(j)
    ensures PrintJob(Go, j, rest) == PrintJob(Js, j, rest)
  {
    hide PrintString, ArrayTail, PrintRequest, PrintPolicy, Plain, PlainAll, AlikeRequest, PlainPolicy;
    var a5 := "," + Key("auth") + "{" + Key("secret_refs") + PrintArray(Go, j.secretRefs, "}}" + rest);
    var a4 := "," + Key("policy") + PrintPolicy(Go, j.policy, a5);
    var a3 := "," + Key("request") + PrintRequest(Go, j.request, a4);
    var a2 := "," + Key("timezone") + PrintString(Go, j.timezone, a3);
    PlainArray(j.secretRefs, true, "}}" + rest);
    PolicyAlike(j.policy, a5);
    RequestAlike(j.request, a4);
    PlainString(j.timezone, a3);
    PlainArray(j.schedules, true, a2);
    PlainString(j.name, "," + Key("schedules") + PrintArray(Go, j.schedules, a2));
  }

  lemma {:induction false} JobsAlike(jobs: seq<NormalizedJob>, first: bool, rest: string)
    requires AlikeJobs(jobs)
    ensures JobsTail(Go, jobs, first, rest) == JobsTail(Js, jobs, first, rest)
  {
    hide PrintJob, AlikeJob;
    if jobs != [] {
      JobsAlike(jobs[1..], false, rest);
      JobAlike(jobs[0], JobsTail(Go, jobs[1..], false, rest));
    }
  }

  /** The two implementations print a manifest alike exactly when its version is 1, none of its texts holds one of the
      five characters, and no job has two header names that the two orders put differently. */
  lemma TextsAgreeExactly(m: NormalizedManifest)
    ensures PrintManifest(Go, m) == PrintManifest(Js, m) <==> AlikeManifest(m)
  {
    hide PrintString, JobsTail, Plain, AlikeJobs;
    if PrintManifest(Go, m) == PrintManifest(Js, m) {
      ManifestDecodes(Go, Js, m, m);
    }
    if AlikeManifest(m) {
      JobsAlike(m.jobs, true, "}");
      PlainString(m.app, "," + Key("jobs") + "[" + JobsTail(Go, m.jobs, true, "}"));
    }
  }

  // ---- UTF-8 --------------------------------------------------------------------------------------

  type byte = b: int | 0 <= b < 256

  /** The UTF-8 bytes of one character. */
  function Utf8Char(ch: char): (bs: seq<byte>)
    ensures 1 <= |bs| <= 4
  {
    var c := ch as int;
    if c < 0x80 then [c]
    else if c < 0x800 then [0xC0 + c / 64, 0x80 + c % 64]
    else if c < 0x10000 then [0xE0 + c / 4096, 0x80 + c / 64 % 64, 0x80 + c % 64]
    else [0xF0 + c / 262144, 0x80 + c / 4096 % 64, 0x80 + c / 64 % 64, 0x80 + c % 64]
  }

  function Utf8(s: string): seq<byte> {
    if s == "" then [] else Utf8Char(s[0]) + Utf8(s[1..])
  }

  /** What a lead byte and its continuation bytes say, read back. */
  function Utf8Value(bs: seq<int>): int
    requires 1 <= |bs| <= 4
  {
    if |bs| == 1 then bs[0]
    else if |bs| == 2 then (bs[0] - 0xC0) * 64 + (bs[1] - 0x80)
    else if |bs| == 3 then (bs[0] - 0xE0) * 4096 + (bs[1] - 0x80) * 64 + (bs[2] - 0x80)
    else (bs[0] - 0xF0) * 262144 + (bs[1] - 0x80) * 4096 + (bs[2] - 0x80) * 64 + (bs[3] - 0x80)
  }

  lemma Utf8CharInverts(ch: char)
    ensures Utf8Value(Utf8Char(ch)) == ch as int
  {
    var c := ch as int;
    assert c == c / 64 * 64 + c % 64;
    assert c / 64 == c / 4096 * 64 + c / 64 % 64;
    assert c / 4096 == c / 262144 * 64 + c / 4096 % 64;
  }

  lemma Utf8CharDecodes(c: char, d: char, x: seq<byte>, y: seq<byte>)
    requires Utf8Char(c) + x == Utf8Char(d) + y
    ensures c == d && x == y
  {
    var u, v := Utf8Char(c) + x, Utf8Char(d) + y;
    assert u[0] == Utf8Char(c)[0] && v[0] == Utf8Char(d)[0];
    assert |Utf8Char(c)| == |Utf8Char(d)|;
    assert u[..|Utf8Char(c)|] == Utf8Char(c) && v[..|Utf8Char(d)|] == Utf8Char(d);
    Utf8CharInverts(c);
    Utf8CharInverts(d);
    CancelLeft(Utf8Char(c), x, y);
  }

  lemma {:induction false} Utf8Injective(s: string, t: string)
    requires Utf8(s) == Utf8(t)
    ensures s == t
  {
    if s != "" && t != "" {
      Utf8CharDecodes(s[0], t[0], Utf8(s[1..]), Utf8(t[1..]));
      Utf8Injective(s[1..], t[1..]);
      HeadAndTail(s, t);
    }
  }

  /** `manifest.Canonicalize`. */
  function Canonicalize(m: NormalizedManifest): seq<byte> { Utf8(PrintManifest(Go, m)) }

  lemma LexAt(a: seq<int>, b: seq<int>, i: nat)
    requires i < |a| && i < |b| && a[..i] == b[..i] && a[i] < b[i]
    ensures LexLess(a, b) && !LexLess(b, a)
  {
    LexCancel(a[..i], a[i..], b[i..]);
    LexCancel(a[..i], b[i..], a[i..]);
    assert a == a[..i] + a[i..] && b == b[..i] + b[i..];
  }

  /** The first byte in which two characters differ is smaller for the smaller one. */
  lemma FirstByte(c: char, d: char) returns (i: nat)
    requires c < d
    ensures var u, v := Utf8Char(c), Utf8Char(d);
            i < |u| && i < |v| && u[..i] == v[..i] && u[i] < v[i]
  {
    var u, v := Utf8Char(c), Utf8Char(d);
    if |u| != |v| || u[0] != v[0] {
      i := 0;
    } else {
      SameLead(c, d);
      i := if u[1] != v[1] then 1 else if u[2] != v[2] then 2 else 3;
    }
  }

  /** Characters of the same lead byte are ordered by what follows it. */
  lemma SameLead(c: char, d: char)
    requires c < d && |Utf8Char(c)| == |Utf8Char(d)| && Utf8Char(c)[0] == Utf8Char(d)[0]
    ensures var u, v := Utf8Char(c), Utf8Char(d);
            && |u| > 1 && u[1] <= v[1]
            && (u[1] == v[1] ==> |u| > 2 && u[2] <= v[2])
            && (u[1] == v[1] && u[2] == v[2] ==> |u| > 3 && u[3] < v[3])
  {
    var m, n := c as int, d as int;
    Digit64(m, n);
    Digit64(m / 64, n / 64);
    Digit64(m / 4096, n / 4096);
    assert m / 64 / 64 == m / 4096 && n / 64 / 64 == n / 4096;
    assert m / 4096 / 64 == m / 262144 && n / 4096 / 64 == n / 262144;
  }

  lemma Digit64(m: nat, n: nat)
    requires m <= n
    ensures m / 64 <= n / 64
    ensures m / 64 == n / 64 ==> m % 64 <= n % 64 && (m == n <==> m % 64 == n % 64)
  {}

  lemma CharOrder(c: char, d: char, x: seq<byte>, y: seq<byte>)
    requires c < d
    ensures LexLess(Utf8Char(c) + x, Utf8Char(d) + y) && !LexLess(Utf8Char(d) + y, Utf8Char(c) + x)
  {
    hide Utf8Char;
    var i := FirstByte(c, d);
    var u, v := Utf8Char(c) + x, Utf8Char(d) + y;
    assert u[..i] == Utf8Char(c)[..i] && v[..i] == Utf8Char(d)[..i];
    LexAt(u, v, i);
  }

  /** Go sorts names by their bytes, which is sorting by characters. */
  lemma {:induction false} BytesOrder(a: string, b: string)
    ensures LexLess(Utf8(a), Utf8(b)) <==> Less(a, b)
  {
    hide Utf8Char;
    if a != "" && b != "" {
      if a[0] == b[0] {
        BytesOrder(a[1..], b[1..]);
        LexCancel(Utf8Char(a[0]), Utf8(a[1..]), Utf8(b[1..]));
      } else if a[0] < b[0] {
        CharOrder(a[0], b[0], Utf8(a[1..]), Utf8(b[1..]));
      } else {
        CharOrder(b[0], a[0], Utf8(b[1..]), Utf8(a[1..]));
      }
    }
  }

  /** Different manifests have different canonical bytes. */
  lemma CanonicalizeInjective(m: NormalizedManifest, n: NormalizedManifest)
    ensures Canonicalize(m) == Canonicalize(n) <==> m == n
  {
    if Canonicalize(m) == Canonicalize(n) {
      Utf8Injective(PrintManifest(Go, m), PrintManifest(Go, n));
      PrintManifestInjective(m, n);
    }
  }
}

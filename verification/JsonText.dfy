/** A reader of JSON (RFC 8259), defined apart from the printers: objects, arrays, strings and whole numbers, as
    `json.Marshal` writes them, without white space.  What the printers write is read as the object with the keys of
    the structs of `manifest.go`, in their order. */
module JsonText {
  import opened Wrappers
  import opened Sequences
  import opened Text
  import opened NormalizedManifests
  import opened KeyOrder
  import opened Canonical

  datatype Value =
    | Number(n: int)
    | Str(s: string)
    | Array(items: seq<Value>)
    | Object(members: seq<(string, Value)>)

  // ---- The reader ---------------------------------------------------------------------------------

  function HexCode(c: char): Option<nat> {
    if '0' <= c <= '9' then Some(c as int - '0' as int)
    else if 'a' <= c <= 'f' then Some(c as int - 'a' as int + 10)
    else if 'A' <= c <= 'F' then Some(c as int - 'A' as int + 10)
    else None
  }

  /** Four hexadecimal digits that are no half of a surrogate pair. */
  function ReadCode(s: string): Option<char>
    requires |s| == 4
  {
    match (HexCode(s[0]), HexCode(s[1]), HexCode(s[2]), HexCode(s[3]))
    case (Some(a), Some(b), Some(c), Some(d)) =>
      var code := ((a * 16 + b) * 16 + c) * 16 + d;
      if 0 <= code < 0xD800 || 0xE000 <= code < 0x11_0000 then Some(code as char) else None
    case _ => None
  }

  function ShortEscape(c: char): Option<char> {
    if c == '"' || c == '\\' || c == '/' then Some(c)
    else if c == 'b' then Some('\U{8}')
    else if c == 'f' then Some('\U{C}')
    else if c == 'n' then Some('\n')
    else if c == 'r' then Some('\r')
    else if c == 't' then Some('\t')
    else None
  }

  /** One character of a string, and the text after it. */
  function ReadChar(s: string): (r: Option<(char, string)>)
    ensures r.Some? ==> |r.value.1| < |s|
  {
    if s == "" || s[0] < ' ' || s[0] == '"' then None
    else if s[0] != '\\' then Some((s[0], s[1..]))
    else if |s| >= 2 && ShortEscape(s[1]).Some? then Some((ShortEscape(s[1]).value, s[2..]))
    else if |s| >= 6 && s[1] == 'u' && ReadCode(s[2..6]).Some? then Some((ReadCode(s[2..6]).value, s[6..]))
    else None
  }

  /** The characters up to the closing quote. */
  function ReadBody(s: string): (r: Option<(string, string)>)
    ensures r.Some? ==> |r.value.1| < |s|
    decreases |s|
  {
    if s != "" && s[0] == '"' then Some(("", s[1..]))
    else
      match ReadChar(s)
      case None => None
      case Some((c, rest)) =>
        match ReadBody(rest)
        case None => None
        case Some((t, more)) => Some(([c] + t, more))
  }

  function ReadString(s: string): (r: Option<(string, string)>)
    ensures r.Some? ==> |r.value.1| < |s|
  {
    if s != "" && s[0] == '"' then ReadBody(s[1..]) else None
  }

  function DigitRun(s: string): (n: nat)
    ensures n <= |s| && forall i :: 0 <= i < n ==> IsDigit(s[i])
  {
    if s != "" && IsDigit(s[0]) then 1 + DigitRun(s[1..]) else 0
  }

  function ReadNumber(s: string): (r: Option<(int, string)>)
    ensures r.Some? ==> |r.value.1| < |s|
  {
    if s != "" && s[0] == '-' then
      match ReadDigits(s[1..])
      case None => None
      case Some((n, rest)) => Some((-n, rest))
    else ReadDigits(s)
  }

  function ReadDigits(s: string): (r: Option<(int, string)>)
    ensures r.Some? ==> |r.value.1| < |s|
  {
    var n := DigitRun(s);
    if n == 0 then None else Some((DigitsValue(s[..n]), s[n..]))
  }

  function ReadValue(s: string): (r: Option<(Value, string)>)
    ensures r.Some? ==> |r.value.1| < |s|
    decreases |s|, 0
  {
    if s == "" then None
    else if s[0] == '{' then
      if |s| >= 2 && s[1] == '}' then Some((Object([]), s[2..]))
      else
        match ReadMembers(s[1..])
        case None => None
        case Some((members, rest)) => Some((Object(members), rest))
    else if s[0] == '[' then
      if |s| >= 2 && s[1] == ']' then Some((Array([]), s[2..]))
      else
        match ReadItems(s[1..])
        case None => None
        case Some((items, rest)) => Some((Array(items), rest))
    else if s[0] == '"' then
      match ReadString(s)
      case None => None
      case Some((t, rest)) => Some((Str(t), rest))
    else
      match ReadNumber(s)
      case None => None
      case Some((n, rest)) => Some((Number(n), rest))
  }

  /** One member or more, and the closing brace. */
  function ReadMembers(s: string): (r: Option<(seq<(string, Value)>, string)>)
    ensures r.Some? ==> |r.value.1| < |s|
    decreases |s|, 1
  {
    match ReadString(s)
    case None => None
    case Some((k, after)) =>
      if after == "" || after[0] != ':' then None
      else
        match ReadValue(after[1..])
        case None => None
        case Some((v, rest)) =>
          if rest != "" && rest[0] == '}' then Some(([(k, v)], rest[1..]))
          else if rest == "" || rest[0] != ',' then None
          else
            match ReadMembers(rest[1..])
            case None => None
            case Some((members, more)) => Some(([(k, v)] + members, more))
  }

  /** One item or more, and the closing bracket. */
  function ReadItems(s: string): (r: Option<(seq<Value>, string)>)
    ensures r.Some? ==> |r.value.1| < |s|
    decreases |s|, 1
  {
    match ReadValue(s)
    case None => None
    case Some((v, rest)) =>
      if rest != "" && rest[0] == ']' then Some(([v], rest[1..]))
      else if rest == "" || rest[0] != ',' then None
      else
        match ReadItems(rest[1..])
        case None => None
        case Some((items, more)) => Some(([v] + items, more))
  }

  // ---- What the printers write --------------------------------------------------------------------

  lemma HexCodeOf(n: nat)
    requires n < 16
    ensures HexCode(HexDigit(n)) == Some(n)
  {}

  lemma ReadsCode(c: char)
    requires c as int < 0x10000
    ensures ReadCode(UnicodeEscape(c as int)[2..]) == Some(c)
  {
    var n, s := c as int, UnicodeEscape(c as int)[2..];
    HexCodeOf(n / 4096);
    HexCodeOf(n / 256 % 16);
    HexCodeOf(n / 16 % 16);
    HexCodeOf(n % 16);
    Base16(n);
    assert s[0] == HexDigit(n / 4096) && s[1] == HexDigit(n / 256 % 16);
    assert s[2] == HexDigit(n / 16 % 16) && s[3] == HexDigit(n % 16);
  }

  lemma ReadsChar(style: Style, c: char, x: string)
    ensures var s := EscapeChar(style, c) + x; ReadChar(s) == Some((c, x)) && s[0] != '"'
  {
    var e := EscapeChar(style, c);
    var s := e + x;
    assert s[|e|..] == x && s[0] == e[0];
    if e[0] == '\\' {
      assert s[1] == e[1];
      if e[1] == 'u' {
        ReadsCode(c);
        assert s[2..6] == e[2..];
      }
    }
  }

  lemma {:induction false} ReadsBody(style: Style, t: string, x: string)
    ensures ReadBody(StringBody(style, t, x)) == Some((t, x))
  {
    hide EscapeChar, ReadChar;
    if t == "" {
      assert ("\"" + x)[1..] == x;
    } else {
      ReadsBody(style, t[1..], x);
      ReadsChar(style, t[0], StringBody(style, t[1..], x));
      assert [t[0]] + t[1..] == t;
    }
  }

  lemma ReadsString(style: Style, t: string, x: string)
    ensures ReadString(PrintString(style, t, x)) == Some((t, x))
    ensures ReadValue(PrintString(style, t, x)) == Some((Str(t), x))
  {
    hide StringBody, ReadBody;
    ReadsBody(style, t, x);
    assert PrintString(style, t, x)[1..] == StringBody(style, t, x);
  }

  lemma {:induction false} DigitRunIs(a: string, x: string)
    requires AllDigits(a) && EndsNumber(x)
    ensures DigitRun(a + x) == |a|
  {
    if a == "" {
      assert a + x == x;
    } else {
      DigitRunIs(a[1..], x);
      assert (a + x)[1..] == a[1..] + x;
    }
  }

  lemma ReadsDigits(n: nat, x: string)
    requires EndsNumber(x)
    ensures ReadDigits(Digits(n) + x) == Some((n, x))
    ensures Digits(n) != "" && IsDigit(Digits(n)[0])
  {
    hide Digits;
    DigitsRoundTrip(n);
    DigitRunIs(Digits(n), x);
    assert (Digits(n) + x)[..|Digits(n)|] == Digits(n);
    assert (Digits(n) + x)[|Digits(n)|..] == x;
  }

  lemma ReadsInt(n: int, x: string)
    requires EndsNumber(x)
    ensures ReadValue(PrintInt(n, x)) == Some((Number(n), x))
  {
    hide Digits, ReadDigits;
    if n < 0 {
      ReadsDigits(-n, x);
      assert PrintInt(n, x) == "-" + (Digits(-n) + x);
      assert PrintInt(n, x)[1..] == Digits(-n) + x;
    } else {
      ReadsDigits(n, x);
      assert PrintInt(n, x)[0] == Digits(n)[0];
    }
  }

  function Strs(ss: seq<string>): seq<Value> { if ss == [] then [] else [Str(ss[0])] + Strs(ss[1..]) }

  lemma LastItem(s: string, v: Value, x: string)
    requires ReadValue(s) == Some((v, "]" + x))
    ensures ReadItems(s) == Some(([v], x))
  {
    assert ("]" + x)[1..] == x;
  }

  lemma NextItem(s: string, v: Value, more: string, items: seq<Value>, x: string)
    requires ReadValue(s) == Some((v, "," + more)) && ReadItems(more) == Some((items, x))
    ensures ReadItems(s) == Some(([v] + items, x))
  {
    assert ("," + more)[1..] == more;
  }

  lemma ArrayOf(s: string, items: seq<Value>, x: string)
    requires s != "" && s[0] != ']' && ReadItems(s) == Some((items, x))
    ensures ReadValue("[" + s) == Some((Array(items), x))
  {
    assert ("[" + s)[1..] == s;
  }

  lemma NoItems(x: string)
    ensures ReadValue("[" + ("]" + x)) == Some((Array([]), x))
  {
    assert ("[" + ("]" + x))[2..] == x;
  }

  lemma {:induction false} ReadsItems(style: Style, ss: seq<string>, x: string)
    requires ss != []
    ensures ReadItems(ArrayTail(style, ss, true, x)) == Some((Strs(ss), x))
  {
    hide PrintString, ReadItems, ReadValue;
    var rest := ss[1..];
    ReadsString(style, ss[0], ArrayTail(style, rest, false, x));
    var s := PrintString(style, ss[0], ArrayTail(style, rest, false, x));
    assert ArrayTail(style, ss, true, x) == s by { EmptyConcat(s); }
    if rest == [] {
      LastItem(s, Str(ss[0]), x);
      assert [Str(ss[0])] + Strs(rest) == [Str(ss[0])];
    } else {
      ReadsItems(style, rest, x);
      TailAgain(style, rest, x);
      NextItem(s, Str(ss[0]), ArrayTail(style, rest, true, x), Strs(rest), x);
    }
  }

  lemma EmptyConcat(s: string)
    ensures "" + s == s
  {}

  lemma TailAgain(style: Style, ss: seq<string>, x: string)
    requires ss != []
    ensures ArrayTail(style, ss, false, x) == "," + ArrayTail(style, ss, true, x)
  {
    hide PrintString;
    EmptyConcat(ArrayTail(style, ss, true, x));
  }

  lemma ReadsArray(style: Style, ss: seq<string>, x: string)
    ensures ReadValue(PrintArray(style, ss, x)) == Some((Array(Strs(ss)), x))
  {
    hide ReadValue, ReadItems;
    if ss == [] {
      NoItems(x);
    } else {
      ReadsItems(style, ss, x);
      ArrayTailHead(style, ss, true, x);
      ArrayOf(ArrayTail(style, ss, true, x), Strs(ss), x);
    }
  }

  // ---- Members ------------------------------------------------------------------------------------

  lemma LastMember(s: string, k: string, after: string, v: Value, x: string)
    requires ReadString(s) == Some((k, ":" + after)) && ReadValue(after) == Some((v, "}" + x))
    ensures ReadMembers(s) == Some(([(k, v)], x))
  {
    assert (":" + after)[1..] == after;
    assert ("}" + x)[1..] == x;
  }

  lemma NextMember(s: string, k: string, after: string, v: Value, more: string, members: seq<(string, Value)>,
      x: string)
    requires ReadString(s) == Some((k, ":" + after)) && ReadValue(after) == Some((v, "," + more))
    requires ReadMembers(more) == Some((members, x))
    ensures ReadMembers(s) == Some(([(k, v)] + members, x))
  {
    assert (":" + after)[1..] == after;
    assert ("," + more)[1..] == more;
  }

  lemma ObjectOf(s: string, members: seq<(string, Value)>, x: string)
    requires s != "" && s[0] != '}' && ReadMembers(s) == Some((members, x))
    ensures ReadValue("{" + s) == Some((Object(members), x))
  {
    assert ("{" + s)[1..] == s;
  }

  lemma NoMembers(x: string)
    ensures ReadValue("{" + ("}" + x)) == Some((Object([]), x))
  {
    assert ("{" + ("}" + x))[2..] == x;
  }

  function Pairs(keys: seq<string>, m: map<string, string>): seq<(string, Value)>
    requires forall k :: k in keys ==> k in m
  {
    if keys == [] then [] else [(keys[0], Str(m[keys[0]]))] + Pairs(keys[1..], m)
  }

  lemma {:induction false} ReadsPairs(style: Style, keys: seq<string>, m: map<string, string>, x: string)
    requires keys != [] && forall k :: k in keys ==> k in m
    ensures ReadMembers(PairsTail(style, keys, m, true, x)) == Some((Pairs(keys, m), x))
  {
    hide PrintString, ReadMembers, ReadValue, ReadString;
    var k, rest := keys[0], keys[1..];
    var tail := PairsTail(style, rest, m, false, x);
    var after := PrintString(style, m[k], tail);
    var s := PrintString(style, k, ":" + after);
    ReadsString(style, m[k], tail);
    ReadsString(style, k, ":" + after);
    assert PairsTail(style, keys, m, true, x) == s by { EmptyConcat(s); }
    if rest == [] {
      LastMember(s, k, after, Str(m[k]), x);
      assert [(k, Str(m[k]))] + Pairs(rest, m) == [(k, Str(m[k]))];
    } else {
      ReadsPairs(style, rest, m, x);
      PairsAgain(style, rest, m, x);
      NextMember(s, k, after, Str(m[k]), PairsTail(style, rest, m, true, x), Pairs(rest, m), x);
    }
  }

  lemma PairsAgain(style: Style, keys: seq<string>, m: map<string, string>, x: string)
    requires keys != [] && forall k :: k in keys ==> k in m
    ensures PairsTail(style, keys, m, false, x) == "," + PairsTail(style, keys, m, true, x)
  {
    hide PrintPair;
    EmptyConcat(PairsTail(style, keys, m, true, x));
  }

  function HeadersTree(style: Style, m: map<string, string>): Value { Object(Pairs(SortedKeys(style, m.Keys), m)) }

  lemma ReadsHeaders(style: Style, m: map<string, string>, x: string)
    ensures ReadValue(PrintObject(style, m, x)) == Some((HeadersTree(style, m), x))
  {
    hide ReadValue, ReadMembers, SortedKeys;
    var keys := SortedKeys(style, m.Keys);
    if keys == [] {
      NoMembers(x);
    } else {
      ReadsPairs(style, keys, m, x);
      PairsTailHead(style, keys, m, true, x);
      ObjectOf(PairsTail(style, keys, m, true, x), Pairs(keys, m), x);
    }
  }

  // ---- The manifest -------------------------------------------------------------------------------

  predicate IsKey(k: string) { forall i :: 0 <= i < |k| ==> 'a' <= k[i] <= 'z' || k[i] == '_' }

  lemma {:induction false} ReadsKeyBody(k: string, x: string)
    requires IsKey(k)
    ensures ReadBody(k + "\"" + x) == Some((k, x))
  {
    if k == "" {
      assert k + "\"" + x == "\"" + x;
      assert ("\"" + x)[1..] == x;
    } else {
      ReadsKeyBody(k[1..], x);
      var s := k + "\"" + x;
      assert s[1..] == k[1..] + "\"" + x;
      assert [k[0]] + k[1..] == k;
    }
  }

  lemma ReadsKey(k: string, x: string)
    requires IsKey(k)
    ensures ReadString(Key(k) + x) == Some((k, ":" + x))
  {
    hide ReadBody;
    ReadsKeyBody(k, ":" + x);
    assert (Key(k) + x)[1..] == k + "\"" + (":" + x);
  }

  lemma LastKey(k: string, after: string, v: Value, x: string)
    requires IsKey(k) && ReadValue(after) == Some((v, "}" + x))
    ensures ReadMembers(Key(k) + after) == Some(([(k, v)], x))
  {
    hide ReadString, ReadValue, ReadMembers;
    ReadsKey(k, after);
    LastMember(Key(k) + after, k, after, v, x);
  }

  /** A key after the first, with the comma before it. */
  lemma NextKey(k: string, after: string, v: Value, l: string, more: string, members: seq<(string, Value)>, x: string)
    requires IsKey(k) && ReadValue(after) == Some((v, "," + Key(l) + more))
    requires ReadMembers(Key(l) + more) == Some((members, x))
    ensures ReadMembers(Key(k) + after) == Some(([(k, v)] + members, x))
  {
    hide ReadString, ReadValue, ReadMembers, Key;
    ReadsKey(k, after);
    ConcatAssociative(",", Key(l), more);
    NextMember(Key(k) + after, k, after, v, Key(l) + more, members, x);
  }

  lemma FirstKey(k: string, after: string, members: seq<(string, Value)>, x: string)
    requires ReadMembers(Key(k) + after) == Some((members, x))
    ensures ReadValue("{" + Key(k) + after) == Some((Object(members), x))
  {
    hide ReadValue, ReadMembers;
    ConcatAssociative("{", Key(k), after);
    ObjectOf(Key(k) + after, members, x);
  }

  function RetriesTree(r: NormalizedRetries): Value {
    Object([("max_attempts", Number(r.maxAttempts)), ("min_seconds", Number(r.minSeconds)),
            ("max_seconds", Number(r.maxSeconds))])
  }

  function PolicyTree(p: NormalizedPolicy): Value {
    Object([("concurrency", Str(p.concurrency)), ("concurrency_scope", Str(p.concurrencyScope)),
            ("timeout_seconds", Number(p.timeoutSeconds)), ("retries", RetriesTree(p.retries))])
  }

  function RequestTree(style: Style, r: NormalizedRequest): Value {
    Object([("method", Str(r.method_)), ("url", Str(r.url)), ("headers", HeadersTree(style, r.headers)),
            ("body", Str(r.body))])
  }

  function AuthTree(refs: seq<string>): Value { Object([("secret_refs", Array(Strs(refs)))]) }

  function JobTree(style: Style, j: NormalizedJob): Value {
    Object([("name", Str(j.name)), ("schedules", Array(Strs(j.schedules))), ("timezone", Str(j.timezone)),
            ("request", RequestTree(style, j.request)), ("policy", PolicyTree(j.policy)),
            ("auth", AuthTree(j.secretRefs))])
  }

  function JobTrees(style: Style, jobs: seq<NormalizedJob>): seq<Value> {
    if jobs == [] then [] else [JobTree(style, jobs[0])] + JobTrees(style, jobs[1..])
  }

  /** The keys of the structs in their order; TypeScript writes the version as a constant. */
  function ManifestTree(style: Style, m: NormalizedManifest): Value {
    Object([("version", Number(if style.Js? then 1 else m.version)), ("app", Str(m.app)),
            ("jobs", Array(JobTrees(style, m.jobs)))])
  }

  lemma ThreeOf<T>(a: T, b: T, c: T)
    ensures [a] + ([b] + [c]) == [a, b, c]
  {}

  lemma FourOf<T>(a: T, b: T, c: T, d: T)
    ensures [a] + ([b] + ([c] + [d])) == [a, b, c, d]
  {}

  lemma SixOf<T>(a: T, b: T, c: T, d: T, e: T, f: T)
    ensures [a] + ([b] + ([c] + ([d] + ([e] + [f])))) == [a, b, c, d, e, f]
  {}

  lemma RetriesKeys()
    ensures IsKey("max_attempts") && IsKey("min_seconds") && IsKey("max_seconds")
  {}

  lemma ReadsRetries(r: NormalizedRetries, x: string)
    ensures ReadValue(PrintRetries(r, x)) == Some((RetriesTree(r), x))
  {
    hide ReadValue, ReadMembers, PrintInt, IsKey, Key;
    RetriesKeys();
    var m1, m2, m3 := ("max_attempts", Number(r.maxAttempts)), ("min_seconds", Number(r.minSeconds)),
      ("max_seconds", Number(r.maxSeconds));
    var a3 := PrintInt(r.maxSeconds, "}" + x);
    var a2 := PrintInt(r.minSeconds, "," + Key(m3.0) + a3);
    var a1 := PrintInt(r.maxAttempts, "," + Key(m2.0) + a2);
    ReadsInt(r.maxSeconds, "}" + x);
    ReadsInt(r.minSeconds, "," + Key(m3.0) + a3);
    ReadsInt(r.maxAttempts, "," + Key(m2.0) + a2);
    LastKey(m3.0, a3, m3.1, x);
    NextKey(m2.0, a2, m2.1, m3.0, a3, [m3], x);
    NextKey(m1.0, a1, m1.1, m2.0, a2, [m2] + [m3], x);
    ThreeOf(m1, m2, m3);
    FirstKey(m1.0, a1, [m1, m2, m3], x);
  }

  lemma PolicyKeys()
    ensures IsKey("concurrency") && IsKey("concurrency_scope") && IsKey("timeout_seconds") && IsKey("retries")
  {}

  lemma ReadsPolicy(style: Style, p: NormalizedPolicy, x: string)
    ensures ReadValue(PrintPolicy(style, p, x)) == Some((PolicyTree(p), x))
  {
    hide ReadValue, ReadMembers, ReadString, PrintInt, PrintString, PrintRetries, RetriesTree, IsKey, Key;
    PolicyKeys();
    var m1, m2 := ("concurrency", Str(p.concurrency)), ("concurrency_scope", Str(p.concurrencyScope));
    var m3, m4 := ("timeout_seconds", Number(p.timeoutSeconds)), ("retries", RetriesTree(p.retries));
    var a4 := PrintRetries(p.retries, "}" + x);
    var a3 := PrintInt(p.timeoutSeconds, "," + Key(m4.0) + a4);
    var a2 := PrintString(style, p.concurrencyScope, "," + Key(m3.0) + a3);
    var a1 := PrintString(style, p.concurrency, "," + Key(m2.0) + a2);
    ReadsRetries(p.retries, "}" + x);
    ReadsInt(p.timeoutSeconds, "," + Key(m4.0) + a4);
    ReadsString(style, p.concurrencyScope, "," + Key(m3.0) + a3);
    ReadsString(style, p.concurrency, "," + Key(m2.0) + a2);
    LastKey(m4.0, a4, m4.1, x);
    NextKey(m3.0, a3, m3.1, m4.0, a4, [m4], x);
    NextKey(m2.0, a2, m2.1, m3.0, a3, [m3] + [m4], x);
    NextKey(m1.0, a1, m1.1, m2.0, a2, [m2] + ([m3] + [m4]), x);
    FourOf(m1, m2, m3, m4);
    FirstKey(m1.0, a1, [m1, m2, m3, m4], x);
  }

  lemma RequestKeys()
    ensures IsKey("method") && IsKey("url") && IsKey("headers") && IsKey("body")
  {}

  lemma ReadsRequest(style: Style, r: NormalizedRequest, x: string)
    ensures ReadValue(PrintRequest(style, r, x)) == Some((RequestTree(style, r), x))
  {
    hide ReadValue, ReadMembers, ReadString, PrintObject, PrintString, HeadersTree, IsKey, Key;
    RequestKeys();
    var m1, m2, m3 := ("method", Str(r.method_)), ("url", Str(r.url)), ("headers", HeadersTree(style, r.headers));
    var m4 := ("body", Str(r.body));
    var a4 := PrintString(style, r.body, "}" + x);
    var a3 := PrintObject(style, r.headers, "," + Key(m4.0) + a4);
    var a2 := PrintString(style, r.url, "," + Key(m3.0) + a3);
    var a1 := PrintString(style, r.method_, "," + Key(m2.0) + a2);
    ReadsString(style, r.body, "}" + x);
    ReadsHeaders(style, r.headers, "," + Key(m4.0) + a4);
    ReadsString(style, r.url, "," + Key(m3.0) + a3);
    ReadsString(style, r.method_, "," + Key(m2.0) + a2);
    LastKey(m4.0, a4, m4.1, x);
    NextKey(m3.0, a3, m3.1, m4.0, a4, [m4], x);
    NextKey(m2.0, a2, m2.1, m3.0, a3, [m3] + [m4], x);
    NextKey(m1.0, a1, m1.1, m2.0, a2, [m2] + ([m3] + [m4]), x);
    FourOf(m1, m2, m3, m4);
    FirstKey(m1.0, a1, [m1, m2, m3, m4], x);
  }

  lemma ReadsAuth(style: Style, refs: seq<string>, x: string)
    ensures ReadValue("{" + Key("secret_refs") + PrintArray(style, refs, "}" + x)) == Some((AuthTree(refs), x))
  {
    hide ReadValue, ReadMembers, PrintArray, Key;
    var a := PrintArray(style, refs, "}" + x);
    ReadsArray(style, refs, "}" + x);
    LastKey("secret_refs", a, Array(Strs(refs)), x);
    FirstKey("secret_refs", a, [("secret_refs", Array(Strs(refs)))], x);
  }

  lemma JobKeys()
    ensures IsKey("name") && IsKey("schedules") && IsKey("timezone") && IsKey("request") && IsKey("policy")
    ensures IsKey("auth")
  {}

  /** The text of a job from its auth object on. */
  lemma AuthText(style: Style, refs: seq<string>, x: string)
    ensures "," + Key("auth") + "{" + Key("secret_refs") + PrintArray(style, refs, "}}" + x) ==
            "," + Key("auth") + ("{" + Key("secret_refs") + PrintArray(style, refs, "}" + ("}" + x)))
  {
    hide Key, PrintArray;
    assert "}}" + x == "}" + ("}" + x);
    ConcatAssociative("," + Key("auth"), "{", Key("secret_refs"));
    ConcatAssociative("," + Key("auth"), "{" + Key("secret_refs"), PrintArray(style, refs, "}}" + x));
  }

  lemma ReadsJob(style: Style, j: NormalizedJob, x: string)
    ensures ReadValue(PrintJob(style, j, x)) == Some((JobTree(style, j), x))
  {
    hide ReadValue, ReadMembers, ReadString, PrintArray, PrintString, PrintRequest, PrintPolicy, RequestTree,
      PolicyTree, Strs, IsKey, Key;
    JobKeys();
    var m1, m2, m3 := ("name", Str(j.name)), ("schedules", Array(Strs(j.schedules))), ("timezone", Str(j.timezone));
    var m4, m5 := ("request", RequestTree(style, j.request)), ("policy", PolicyTree(j.policy));
    var m6 := ("auth", AuthTree(j.secretRefs));
    var a6 := "{" + Key("secret_refs") + PrintArray(style, j.secretRefs, "}" + ("}" + x));
    var a5 := PrintPolicy(style, j.policy, "," + Key(m6.0) + a6);
    var a4 := PrintRequest(style, j.request, "," + Key(m5.0) + a5);
    var a3 := PrintString(style, j.timezone, "," + Key(m4.0) + a4);
    var a2 := PrintArray(style, j.schedules, "," + Key(m3.0) + a3);
    var a1 := PrintString(style, j.name, "," + Key(m2.0) + a2);
    AuthText(style, j.secretRefs, x);
    ReadsAuth(style, j.secretRefs, "}" + x);
    ReadsPolicy(style, j.policy, "," + Key(m6.0) + a6);
    ReadsRequest(style, j.request, "," + Key(m5.0) + a5);
    ReadsString(style, j.timezone, "," + Key(m4.0) + a4);
    ReadsArray(style, j.schedules, "," + Key(m3.0) + a3);
    ReadsString(style, j.name, "," + Key(m2.0) + a2);
    LastKey(m6.0, a6, m6.1, x);
    NextKey(m5.0, a5, m5.1, m6.0, a6, [m6], x);
    NextKey(m4.0, a4, m4.1, m5.0, a5, [m5] + [m6], x);
    NextKey(m3.0, a3, m3.1, m4.0, a4, [m4] + ([m5] + [m6]), x);
    NextKey(m2.0, a2, m2.1, m3.0, a3, [m3] + ([m4] + ([m5] + [m6])), x);
    NextKey(m1.0, a1, m1.1, m2.0, a2, [m2] + ([m3] + ([m4] + ([m5] + [m6]))), x);
    SixOf(m1, m2, m3, m4, m5, m6);
    FirstKey(m1.0, a1, [m1, m2, m3, m4, m5, m6], x);
  }

  lemma {:induction false} ReadsJobs(style: Style, jobs: seq<NormalizedJob>, x: string)
    requires jobs != []
    ensures ReadItems(JobsTail(style, jobs, true, x)) == Some((JobTrees(style, jobs), x))
  {
    hide PrintJob, JobTree, ReadItems, ReadValue;
    var rest := jobs[1..];
    var s := PrintJob(style, jobs[0], JobsTail(style, rest, false, x));
    ReadsJob(style, jobs[0], JobsTail(style, rest, false, x));
    assert JobsTail(style, jobs, true, x) == s by { EmptyConcat(s); }
    if rest == [] {
      LastItem(s, JobTree(style, jobs[0]), x);
      assert [JobTree(style, jobs[0])] + JobTrees(style, rest) == [JobTree(style, jobs[0])];
    } else {
      ReadsJobs(style, rest, x);
      JobsAgain(style, rest, x);
      NextItem(s, JobTree(style, jobs[0]), JobsTail(style, rest, true, x), JobTrees(style, rest), x);
    }
  }

  lemma JobsAgain(style: Style, jobs: seq<NormalizedJob>, x: string)
    requires jobs != []
    ensures JobsTail(style, jobs, false, x) == "," + JobsTail(style, jobs, true, x)
  {
    hide PrintJob;
    EmptyConcat(JobsTail(style, jobs, true, x));
  }

  lemma ReadsJobArray(style: Style, jobs: seq<NormalizedJob>, x: string)
    ensures ReadValue("[" + JobsTail(style, jobs, true, x)) == Some((Array(JobTrees(style, jobs)), x))
  {
    hide ReadValue, ReadItems, PrintJob, JobTree;
    if jobs == [] {
      NoItems(x);
    } else {
      ReadsJobs(style, jobs, x);
      JobsTailHead(style, jobs, true, x);
      ArrayOf(JobsTail(style, jobs, true, x), JobTrees(style, jobs), x);
    }
  }

  lemma ManifestKeys()
    ensures IsKey("version") && IsKey("app") && IsKey("jobs")
  {}

  /** What both implementations print is read as this object, and nothing is left over. */
  lemma ManifestReadsBack(style: Style, m: NormalizedManifest)
    ensures ReadValue(PrintManifest(style, m)) == Some((ManifestTree(style, m), ""))
  {
    hide ReadValue, ReadMembers, ReadString, PrintInt, PrintString, JobsTail, JobTrees, IsKey, Key;
    ManifestKeys();
    var version := if style.Js? then 1 else m.version;
    var m1, m2, m3 := ("version", Number(version)), ("app", Str(m.app)), ("jobs", Array(JobTrees(style, m.jobs)));
    assert "}" + "" == "}";
    var a3 := "[" + JobsTail(style, m.jobs, true, "}");
    var a2 := PrintString(style, m.app, "," + Key(m3.0) + a3);
    var a1 := PrintInt(version, "," + Key(m2.0) + a2);
    ConcatAssociative("," + Key(m3.0), "[", JobsTail(style, m.jobs, true, "}"));
    ReadsJobArray(style, m.jobs, "}" + "");
    ReadsString(style, m.app, "," + Key(m3.0) + a3);
    ReadsInt(version, "," + Key(m2.0) + a2);
    LastKey(m3.0, a3, m3.1, "");
    NextKey(m2.0, a2, m2.1, m3.0, a3, [m3], "");
    NextKey(m1.0, a1, m1.1, m2.0, a2, [m2] + [m3], "");
    ThreeOf(m1, m2, m3);
    FirstKey(m1.0, a1, [m1, m2, m3], "");
  }
}

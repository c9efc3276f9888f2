/** `splitScheduleAndCommand` of `crontab/adopt.go`: the five schedule fields of a crontab line, and its command. */
module Commands {
  import opened Wrappers
  import opened Sequences
  import opened Text

  /** Where the k-th field of a text ends. */
  function FieldsEnd(s: string, k: nat): (end: nat)
    requires k <= |Fields(s)|
    ensures end <= |s|
    decreases |s|
  {
    if k == 0 then 0
    else if IsSpace(s[0]) then 1 + FieldsEnd(s[1..], k)
    else WordLength(s) + FieldsEnd(s[WordLength(s)..], k - 1)
  }

  datatype Command = Command(cron: string, tail: string)

  /** The five fields joined by single spaces, and the trimmed rest with its own spacing. */
  function SplitCommand(line: string): Option<Command> {
    if |Fields(line)| < 6 then None
    else Some(Command(Join(Fields(line)[..5], ' '), TrimSpace(line[FieldsEnd(line, 5)..])))
  }

  /** `strings.Index`. */
  function Index(s: string, sub: string): int {
    if sub <= s then 0
    else if s == "" then -1
    else if Index(s[1..], sub) < 0 then -1
    else 1 + Index(s[1..], sub)
  }

  /** The first occurrence of the next field is where that field begins. */
  lemma {:induction false} IndexOfFirstField(s: string)
    requires Fields(s) != []
    ensures Index(s, Fields(s)[0]) >= 0
    ensures Index(s, Fields(s)[0]) + |Fields(s)[0]| == FieldsEnd(s, 1)
    ensures Fields(s[FieldsEnd(s, 1)..]) == Fields(s)[1..]
    decreases |s|
  {
    FieldsAreWords(s);
    if IsSpace(s[0]) {
      IndexOfFirstField(s[1..]);
      assert s[1..][FieldsEnd(s[1..], 1)..] == s[FieldsEnd(s, 1)..];
      assert Fields(s)[0][0] != s[0];
    } else {
      var n := WordLength(s);
      assert Fields(s)[0] == s[..n];
      assert FieldsEnd(s[n..], 0) == 0;
    }
  }

  lemma FieldsBasics(s: string)
    ensures FieldsEnd(s, 0) == 0 && (Fields(s) != [] ==> s != "")
    ensures s != "" && !IsSpace(s[0]) ==> WordLength(s) > 0
  {}

  lemma SkipSpace(s: string, k: nat)
    requires 0 < k <= |Fields(s)| && IsSpace(s[0])
    ensures Fields(s) == Fields(s[1..]) && FieldsEnd(s, k) == 1 + FieldsEnd(s[1..], k)
  {}

  lemma SkipWord(s: string, k: nat)
    requires 0 < k <= |Fields(s)| && !IsSpace(s[0])
    ensures var n := WordLength(s);
            Fields(s) == [s[..n]] + Fields(s[n..]) && FieldsEnd(s, k) == n + FieldsEnd(s[n..], k - 1)
  {}

  lemma {:induction false} FieldsEndStep(s: string, k: nat)
    requires k < |Fields(s)|
    ensures Fields(s[FieldsEnd(s, k)..]) == Fields(s)[k..]
    ensures FieldsEnd(s, k + 1) == FieldsEnd(s, k) + FieldsEnd(s[FieldsEnd(s, k)..], 1)
    decreases |s|
  {
    hide Fields, FieldsEnd, WordLength, IsSpace;
    FieldsBasics(s);
    if k == 0 {
      assert s[0..] == s && Fields(s)[0..] == Fields(s);
    } else {
      var n := if IsSpace(s[0]) then 1 else WordLength(s);
      var j := if IsSpace(s[0]) then k else k - 1;
      if IsSpace(s[0]) {
        SkipSpace(s, k);
        SkipSpace(s, k + 1);
      } else {
        SkipWord(s, k);
        SkipWord(s, k + 1);
        assert Fields(s)[k..] == Fields(s[n..])[k - 1..];
      }
      FieldsEndStep(s[n..], j);
      DropDrop(s, n, FieldsEnd(s[n..], j));
    }
  }

  /** `splitScheduleAndCommand`: it searches for each field in turn, and the search never goes astray. */
  method SplitScheduleAndCommand(line: string) returns (r: Option<Command>)
    ensures r == SplitCommand(line)
  {
    var fields := Fields(line);
    if |fields| < 6 {
      return None;
    }
    var cron := Join(fields[..5], ' ');
    var idx := 0;
    var fIdx := 0;
    while fIdx < 5
      invariant 0 <= fIdx <= 5
      invariant idx == FieldsEnd(line, fIdx)
    {
      FieldsEndStep(line, fIdx);
      IndexOfFirstField(line[idx..]);
      assert fields[fIdx..][0] == fields[fIdx];
      var j := Index(line[idx..], fields[fIdx]);
      if j < 0 {
        return None;
      }
      idx := idx + j + |fields[fIdx]|;
      fIdx := fIdx + 1;
    }
    r := Some(Command(cron, TrimSpace(line[idx..])));
  }

  /** A text that ends in a field, then a space and more: the fields of the text end where the text does. */
  lemma {:induction false} FieldsEndConcat(a: string, b: string)
    requires a == "" || !IsSpace(a[|a| - 1])
    ensures |Fields(a + " " + b)| == |Fields(a)| + |Fields(b)|
    ensures FieldsEnd(a + " " + b, |Fields(a)|) == |a|
    decreases |a|
  {
    hide Fields, FieldsEnd, WordLength;
    FieldsConcat(a, b);
    FieldsOfNothing();
    var s := a + " " + b;
    if a != "" {
      var n := if IsSpace(a[0]) then 1 else WordLength(a);
      FieldsBasics(a);
      FieldsEndConcat(a[n..], b);
      ConcatAssociative(a, " ", b);
      DropConcat(a, " " + b, n);
      ConcatAssociative(a[n..], " ", b);
      FieldsNotEmpty(a);
      if IsSpace(a[0]) {
        SkipSpace(s, |Fields(a)|);
        SkipSpace(a, |Fields(a)|);
      } else {
        WordLengthPrefix(a, " " + b);
        FirstWord(a);
        SkipWord(s, |Fields(a)|);
      }
    } else {
      FieldsBasics(s);
    }
  }

  lemma {:induction false} FieldsNotEmpty(a: string)
    requires a != "" && !IsSpace(a[|a| - 1])
    ensures Fields(a) != []
  {
    if IsSpace(a[0]) {
      FieldsNotEmpty(a[1..]);
    }
  }

  lemma WordLengthPrefix(a: string, b: string)
    requires b != "" && IsSpace(b[0])
    ensures WordLength(a + b) == WordLength(a)
  {
    WordLengthShape(a);
    var n := WordLength(a);
    WordLengthIs(a[..n], a[n..] + b);
    assert a[..n] + (a[n..] + b) == a + b;
  }

  // ---- The grammar of a line that runs a command, without the search --------------------------------

  predicate Spaces(s: string) { forall i :: 0 <= i < |s| ==> IsSpace(s[i]) }

  /** White space, a word, and something that begins with white space. */
  predicate WordThen(s: string, gap: string, word: string, more: string) {
    Spaces(gap) && IsWord(word) && s == gap + word + more && more != "" && IsSpace(more[0])
  }

  /** The words and then the rest, with white space before each word and before the rest. */
  ghost predicate Spread(s: string, words: seq<string>, rest: string)
    decreases |words|
  {
    if words == [] then exists gap :: Spaces(gap) && s == gap + rest
    else exists gap, more :: WordThen(s, gap, words[0], more) && Spread(more, words[1..], rest)
  }

  /** A crontab line runs a command on a schedule: five words, the first without a `#` in front, and the command, with
      any white space around them. */
  ghost predicate Runs(line: string, cron: string, command: string) {
    && command != "" && Trimmed(command)
    && exists words, body, trail :: RunsWith(line, words, body, trail, command) && cron == Join(words, ' ')
  }

  ghost predicate RunsWith(line: string, words: seq<string>, body: string, trail: string, command: string) {
    && line == body + trail && Spaces(trail)
    && |words| == 5 && Spread(body, words, command) && words[0] != "" && words[0][0] != '#'
  }

  lemma {:induction false} LeadingSpaces(gap: string, s: string, k: nat)
    requires Spaces(gap) && 0 < k <= |Fields(s)|
    ensures Fields(gap + s) == Fields(s)
    ensures FieldsEnd(gap + s, k) == |gap| + FieldsEnd(s, k)
    ensures (gap + s)[FieldsEnd(gap + s, k)..] == s[FieldsEnd(s, k)..]
  {
    if gap == "" {
      assert gap + s == s;
    } else {
      LeadingSpaces(gap[1..], s, k);
      assert (gap + s)[1..] == gap[1..] + s;
    }
  }

  lemma {:induction false} TrimLeftSpaces(gap: string, s: string)
    requires Spaces(gap) && s != "" && !IsSpace(s[0])
    ensures TrimLeft(gap + s) == s
  {
    if gap == "" {
      assert gap + s == s;
    } else {
      TrimLeftSpaces(gap[1..], s);
      assert (gap + s)[1..] == gap[1..] + s;
    }
  }

  lemma {:induction false} TrimRightSpaces(s: string, trail: string)
    requires Spaces(trail) && s != "" && !IsSpace(s[|s| - 1])
    ensures TrimRight(s + trail) == s
  {
    if trail == "" {
      assert s + trail == s;
    } else {
      TrimRightSpaces(s, trail[..|trail| - 1]);
      ConcatFront(s, trail);
      assert (s + trail)[..|s + trail| - 1] == s + trail[..|trail| - 1];
    }
  }

  /** The fields of such a text are the word and those of what follows, and they end where those do. */
  lemma WordThenFields(s: string, gap: string, word: string, more: string, k: nat)
    requires WordThen(s, gap, word, more) && k <= |Fields(more)|
    ensures Fields(s) == [word] + Fields(more)
    ensures s[FieldsEnd(s, k + 1)..] == more[FieldsEnd(more, k)..]
  {
    hide FieldsEnd;
    var t := word + more;
    FieldsOfWord(word, more);
    WordLengthIs(word, more);
    ConcatAssociative(gap, word, more);
    LeadingSpaces(gap, t, k + 1);
    SkipWord(t, k + 1);
    assert t[|word|..] == more;
    DropDrop(t, |word|, FieldsEnd(more, k));
  }

  lemma NoFieldsEnd(s: string)
    ensures s[FieldsEnd(s, 0)..] == s && Fields(s)[..0] == []
  {}

  lemma SpreadNone(s: string, rest: string) returns (gap: string)
    requires Spread(s, [], rest)
    ensures Spaces(gap) && s == gap + rest
  {
    gap :| Spaces(gap) && s == gap + rest;
  }

  lemma SpreadSome(s: string, words: seq<string>, rest: string) returns (gap: string, more: string)
    requires Spread(s, words, rest) && words != []
    ensures WordThen(s, gap, words[0], more) && Spread(more, words[1..], rest)
  {
    gap, more :| WordThen(s, gap, words[0], more) && Spread(more, words[1..], rest);
  }

  /** Such a text has those fields first, and the rest stands behind them. */
  lemma {:induction false} SpreadFields(s: string, words: seq<string>, rest: string)
    requires Spread(s, words, rest) && rest != "" && !IsSpace(rest[0])
    ensures Fields(s) == words + Fields(rest) && Fields(rest) != []
    ensures TrimLeft(s[FieldsEnd(s, |words|)..]) == rest
    ensures |rest| <= |s| && s[|s| - |rest|..] == rest
    decreases |words|
  {
    hide Fields, FieldsEnd, TrimLeft, Spread, WordLength, IsSpace;
    FieldsStep(rest);
    if words == [] {
      var gap := SpreadNone(s, rest);
      LeadingSpaces(gap, rest, 1);
      TrimLeftSpaces(gap, rest);
      NoFieldsEnd(s);
    } else {
      var gap, more := SpreadSome(s, words, rest);
      SpreadFields(more, words[1..], rest);
      WordThenFields(s, gap, words[0], more, |words| - 1);
      assert words == [words[0]] + words[1..];
    }
  }

  lemma SpreadNoneIs(s: string)
    ensures Spread(s, [], TrimLeft(s))
  {
    TrimLeftShape(s);
    var gap := s[..|s| - |TrimLeft(s)|];
    assert Spaces(gap) && s == gap + TrimLeft(s);
  }

  lemma SpreadSomeIs(s: string, gap: string, more: string, words: seq<string>, rest: string)
    requires words != [] && WordThen(s, gap, words[0], more) && Spread(more, words[1..], rest)
    ensures Spread(s, words, rest)
  {}

  /** And the other way round: a text is spread into its first fields and what follows them. */
  lemma {:induction false} FieldsSpread(s: string, k: nat)
    requires k < |Fields(s)|
    ensures Spread(s, Fields(s)[..k], TrimLeft(s[FieldsEnd(s, k)..]))
    decreases k
  {
    hide Fields, FieldsEnd, TrimLeft, Spread, WordThen;
    if k == 0 {
      NoFieldsEnd(s);
      SpreadNoneIs(s);
    } else {
      var gap, more := FirstWordOf(s);
      var words := Fields(s)[..k];
      WordThenFields(s, gap, words[0], more, 0);
      WordThenFields(s, gap, words[0], more, k - 1);
      FieldsSpread(more, k - 1);
      assert words[1..] == Fields(more)[..k - 1];
      SpreadSomeIs(s, gap, more, words, TrimLeft(s[FieldsEnd(s, k)..]));
    }
  }

  lemma {:induction false} FirstWordOf(s: string) returns (gap: string, more: string)
    requires |Fields(s)| > 1
    ensures WordThen(s, gap, Fields(s)[0], more)
    decreases |s|
  {
    hide Fields, FieldsEnd, WordLength;
    FieldsBasics(s);
    if IsSpace(s[0]) {
      SkipSpace(s, 1);
      gap, more := FirstWordOf(s[1..]);
      assert s == [s[0]] + s[1..];
      gap := [s[0]] + gap;
    } else {
      FirstWord(s);
      gap, more := "", s[WordLength(s)..];
      if more == "" {
        FieldsOfNothing();
        assert false;
      }
    }
  }

  lemma FieldsOfNothing()
    ensures Fields("") == []
  {}

  lemma SpreadAfter(gap: string, s: string, words: seq<string>, rest: string)
    requires Spaces(gap) && Spread(s, words, rest)
    ensures Spread(gap + s, words, rest)
  {
    if words == [] {
      var g :| Spaces(g) && s == g + rest;
      assert Spaces(gap + g) && gap + s == (gap + g) + rest;
    } else {
      var g, more :| WordThen(s, g, words[0], more) && Spread(more, words[1..], rest);
      assert gap + s == gap + g + words[0] + more;
      assert WordThen(gap + s, gap + g, words[0], more);
    }
  }
}

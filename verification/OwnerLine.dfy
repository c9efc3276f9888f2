/** `crontab/parse.go`, the grammar of one owner line, and the two lines that `render` writes for a schedule. */
module OwnerLine {
  import opened Wrappers
  import opened Text
  import opened NormalizedManifests
  import Policy

  const OWNER_MARKER := "# cronix:owned"

  /** What an owner line says. */
  datatype Owner = Owner(app: string, job: string, hash: string, idx: nat)

  predicate IsNameChar(c: char) { 'a' <= c <= 'z' || '0' <= c <= '9' || c == '-' }

  /** `[a-z][a-z0-9-]{0,62}`. */
  predicate IsName(s: string) {
    1 <= |s| <= 63 && 'a' <= s[0] <= 'z' && forall i :: 0 <= i < |s| ==> IsNameChar(s[i])
  }

  /** `[0-9a-f]{1,64}`. */
  predicate IsHash(s: string) { 1 <= |s| <= 64 && Policy.IsHexText(s) }

  /** A change-detection hash whose text fits an owner line.  Every backend and the reconciler share one. */
  type Hasher = f: (NormalizedJob, nat) -> string | forall job, i :: IsHash(f(job, i)) witness Policy.Hash

  /** `strconv.Atoi` with its error dropped: a number that does not fit reads as the largest one that does. */
  function Atoi(digits: string): nat
    requires AllDigits(digits)
  {
    if DigitsValue(digits) > MAX_INT64 then MAX_INT64 else DigitsValue(digits)
  }

  /** `ownerLineRe`.  None of the four values can hold a space, so the words of the line are its fields. */
  function MatchOwner(line: string): Option<Owner> { MatchWords(Split(line, ' ')) }

  function MatchWords(w: seq<string>): Option<Owner> {
    if |w| == 6 && w[0] == "#" && w[1] == "cronix:owned"
      && "app=" <= w[2] && "job=" <= w[3] && "hash=" <= w[4] && "idx=" <= w[5]
    then
      var app, job, hash, digits := w[2][4..], w[3][4..], w[4][5..], w[5][4..];
      if IsName(app) && IsName(job) && IsHash(hash) && digits != "" && AllDigits(digits)
      then Some(Owner(app, job, hash, Atoi(digits)))
      else None
    else None
  }

  predicate IsMarker(line: string) { MatchOwner(line).Some? }

  /** An owner line with a given run of digits for its index. */
  function MarkerText(app: string, job: string, hash: string, digits: string): string {
    OWNER_MARKER + " " + ("app=" + app) + " " + ("job=" + job) + " " + ("hash=" + hash) + " " + ("idx=" + digits)
  }

  function RenderMarker(app: string, job: string, hash: string, idx: nat): string {
    MarkerText(app, job, hash, Digits(idx))
  }

  function RenderSchedule(cron: string, triggerBin: string, app: string, job: string): string {
    cron + " " + triggerBin + " trigger " + app + "." + job
  }

  lemma FourWords(head: string, a: string, b: string, c: string, d: string)
    requires ' ' !in a && ' ' !in b && ' ' !in c && ' ' !in d
    ensures Split(head + " " + a + " " + b + " " + c + " " + d, ' ') == Split(head, ' ') + [a, b, c, d]
  {
    var s1 := head + " " + a;
    var s2 := s1 + " " + b;
    var s3 := s2 + " " + c;
    SplitLast(s3, ' ', d);
    SplitLast(s2, ' ', c);
    SplitLast(s1, ' ', b);
    SplitLast(head, ' ', a);
  }

  lemma MarkerWords(app: string, job: string, hash: string, digits: string)
    requires IsName(app) && IsName(job) && IsHash(hash) && AllDigits(digits)
    ensures Split(MarkerText(app, job, hash, digits), ' ') ==
            ["#", "cronix:owned", "app=" + app, "job=" + job, "hash=" + hash, "idx=" + digits]
  {
    hide Split, IsName, IsHash, AllDigits;
    NoSpace("app=", app);
    NoSpace("job=", job);
    NoSpace("hash=", hash);
    NoSpace("idx=", digits);
    FourWords(OWNER_MARKER, "app=" + app, "job=" + job, "hash=" + hash, "idx=" + digits);
    OwnerMarkerWords();
  }

  lemma NoSpace(key: string, value: string)
    requires ' ' !in key
    ensures IsName(value) || IsHash(value) || AllDigits(value) ==> ' ' !in key + value
  {}

  lemma OwnerMarkerWords()
    ensures Split(OWNER_MARKER, ' ') == ["#", "cronix:owned"]
  {
    assert OWNER_MARKER == "#" + " " + "cronix:owned";
    SplitLast("#", ' ', "cronix:owned");
    SplitAtom("#", ' ');
  }

  lemma MatchesWords(app: string, job: string, hash: string, digits: string)
    requires IsName(app) && IsName(job) && IsHash(hash) && digits != "" && AllDigits(digits)
    ensures MatchWords(["#", "cronix:owned", "app=" + app, "job=" + job, "hash=" + hash, "idx=" + digits]) ==
            Some(Owner(app, job, hash, Atoi(digits)))
  {
    assert ("app=" + app)[4..] == app && ("job=" + job)[4..] == job;
    assert ("hash=" + hash)[5..] == hash && ("idx=" + digits)[4..] == digits;
  }

  /** A text with six words is these words and five spaces. */
  lemma SixWords(line: string, w: seq<string>)
    requires Split(line, ' ') == w && |w| == 6
    ensures line == w[0] + " " + w[1] + " " + w[2] + " " + w[3] + " " + w[4] + " " + w[5]
  {
    JoinSplit(line, ' ');
    assert w[1..][1..] == w[2..] && w[2..][1..] == w[3..] && w[3..][1..] == w[4..] && w[4..][1..] == [w[5]];
    assert Join(w[4..], ' ') == w[4] + " " + w[5];
    assert Join(w[3..], ' ') == w[3] + " " + Join(w[4..], ' ');
    assert Join(w[2..], ' ') == w[2] + " " + Join(w[3..], ' ');
    assert Join(w[1..], ' ') == w[1] + " " + Join(w[2..], ' ');
  }

  lemma KeyAndValue(word: string, key: string)
    requires key <= word
    ensures word == key + word[|key|..]
  {}

  /** The grammar of owner lines, both ways: a line is recognised exactly when it has this form, whatever its digits,
      and it says what stands in it. */
  lemma MarkerExactly(line: string, o: Owner)
    ensures MatchOwner(line) == Some(o) <==>
            && IsName(o.app) && IsName(o.job) && IsHash(o.hash)
            && exists digits :: digits != "" && AllDigits(digits) && Atoi(digits) == o.idx && line ==
                MarkerText(o.app, o.job, o.hash, digits)
  {
    hide Split, IsName, IsHash;
    if MatchOwner(line) == Some(o) {
      var w := Split(line, ' ');
      SixWords(line, w);
      KeyAndValue(w[2], "app=");
      KeyAndValue(w[3], "job=");
      KeyAndValue(w[4], "hash=");
      KeyAndValue(w[5], "idx=");
      MarkerTextIs(o.app, o.job, o.hash, w[5][4..]);
      assert line == MarkerText(o.app, o.job, o.hash, w[5][4..]);
    }
    if IsName(o.app) && IsName(o.job) && IsHash(o.hash) {
      forall digits | digits != "" && AllDigits(digits) && Atoi(digits) == o.idx && line ==
          MarkerText(o.app, o.job, o.hash, digits)
        ensures MatchOwner(line) == Some(o)
      {
        MarkerWords(o.app, o.job, o.hash, digits);
        MatchesWords(o.app, o.job, o.hash, digits);
      }
    }
  }

  lemma MarkerTextIs(app: string, job: string, hash: string, digits: string)
    ensures MarkerText(app, job, hash, digits) ==
            "#" + " " + "cronix:owned" + " " + ("app=" + app) + " " + ("job=" + job) + " " + ("hash=" + hash) + " "
                + ("idx=" + digits)
  {
    assert OWNER_MARKER == "#" + " " + "cronix:owned";
  }

  /** A rendered owner line is recognised, and read back as what was rendered. */
  lemma MarkerRoundTrip(app: string, job: string, hash: string, idx: nat)
    requires IsName(app) && IsName(job) && IsHash(hash) && idx <= MAX_INT64
    ensures MatchOwner(RenderMarker(app, job, hash, idx)) == Some(Owner(app, job, hash, idx))
  {
    hide Split, IsName, IsHash, MatchOwner, MarkerText;
    DigitsRoundTrip(idx);
    MarkerExactly(RenderMarker(app, job, hash, idx), Owner(app, job, hash, idx));
  }

  /** Whatever its cron text, a rendered schedule line is never an owner line: its last word holds a dot. */
  lemma ScheduleIsNotMarker(cron: string, triggerBin: string, app: string, job: string)
    requires IsName(app) && IsName(job)
    ensures !IsMarker(RenderSchedule(cron, triggerBin, app, job))
  {
    var word := app + "." + job;
    var line := RenderSchedule(cron, triggerBin, app, job);
    assert line == (cron + " " + triggerBin + " trigger") + [' '] + word;
    SplitLast(cron + " " + triggerBin + " trigger", ' ', word);
    assert word[|app|] == '.';
    if |app| >= 4 {
      assert word[4..][|app| - 4] == '.';
    }
  }
}

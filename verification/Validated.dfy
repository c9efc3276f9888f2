/** What validation promises the crontab backend of a schedule, and what it does not. */
module Validated {
  import opened Wrappers
  import opened Text
  import opened NormalizedManifests
  import opened OwnerLine
  import opened Validation
  import opened Defaults
  import Cron
  import CrontabLines
  import Crontab
  import Converge
  import Convergence

  /** A valid `@every` that divides its period. */
  predicate EveryDivides(rest: string) {
    |rest| >= 2 &&
    var unit, n := rest[|rest| - 1], ParseInt(rest[..|rest| - 1]);
    n.Some? && n.value > 0 && ((unit == 'm' && n.value < 60 && 60 % n.value == 0)
        || (unit == 'h' && n.value < 24 && 24 % n.value == 0))
  }

  /** A schedule that validation accepts can still be one that the crontab cannot express: exactly the `@every` forms
      with another unit than a lower-case m or h, or with an interval that does not divide the hour or the day. */
  lemma ValidTranslatesExactly(checks: Checks, s: string)
    requires ValidSchedule(checks, s)
    ensures var t := TrimSpace(s);
            Cron.Translate(s).Some? <==> !("@every" <= t) || EveryDivides(TrimSpace(t[|"@every"|..]))
  {
    hide TrimSpace, Fields, ParseInt, Cron.TranslateEvery, ValidEvery, EveryDivides;
    var t := TrimSpace(s);
    if "@every" <= t {
      assert t[1] == 'e';
      EveryTranslates(TrimSpace(t[|"@every"|..]));
    }
  }

  lemma EveryTranslates(rest: string)
    ensures Cron.TranslateEvery(rest).Some? <==> EveryDivides(rest)
  {
    hide ParseInt, Cron.EveryMinutes, Cron.EveryHours;
  }

  /** Such a schedule: a number of minutes that does not divide the hour. */
  lemma UndividedHour(checks: Checks, n: nat)
    requires 0 < n < 60 && 60 % n != 0
    ensures ValidSchedule(checks, "@every " + Digits(n) + "m") && Cron.Translate("@every " + Digits(n) + "m").None?
  {
    hide TrimSpace, Fields, ParseInt, Digits, Cron.TranslateEvery, ValidEvery;
    var s, rest := "@every " + Digits(n) + "m", Digits(n) + "m";
    assert s[0] == '@' && s[1] == 'e' && s[|s| - 1] == 'm';
    TrimSpaceTrims(s);
    assert s[|"@every"|..] == " " + rest;
    TrimAfterSpace(rest);
    assert rest[|rest| - 1] == 'm' && IsDigit(rest[0]);
    TrimSpaceTrims(rest);
    ParseDigits(n);
    EveryOfMinutes(Digits(n), n);
  }

  lemma EveryOfMinutes(number: string, n: nat)
    requires 0 < n < 60 && 60 % n != 0 && ParseInt(number) == Some(n)
    ensures ValidEvery(number + "m") && Cron.TranslateEvery(number + "m").None?
  {
    assert number != "";
    assert (number + "m")[..|number|] == number;
    WrapFits(n * 60);
    Cron.EveryAccepted(number, n, 'm');
  }

  /** For one, every seven minutes. */
  lemma SevenMinutes(checks: Checks)
    ensures ValidSchedule(checks, "@every 7m") && Cron.Translate("@every 7m").None?
  {
    hide ValidSchedule, Cron.Translate;
    assert Digits(7) == "7";
    assert "@every " + Digits(7) + "m" == "@every 7m";
    UndividedHour(checks, 7);
  }

  /** The cron parsers take any white space between two fields. */
  const TWO_LINES := "0 0\n* * *"

  lemma FieldsOfStars()
    ensures Fields("* * *") == ["*", "*", "*"]
  {
    hide Fields;
    OneField("*");
    FieldsConcat("*", "*");
    FieldsConcat("* *", "*");
    assert "* *" == "*" + " " + "*" && "* * *" == "* *" + " " + "*";
  }

  lemma FieldsOfTwoLines()
    ensures |Fields(TWO_LINES)| == 5
  {
    hide Fields;
    var rest := "\n* * *";
    OneField("0");
    FieldsOfStars();
    FieldsStep(rest);
    assert rest[1..] == "* * *";
    FieldsOfWord("0", rest);
    FieldsConcat("0", "0" + rest);
    assert TWO_LINES == "0" + " " + ("0" + rest);
  }

  lemma TwoLinesTranslate()
    ensures TrimSpace(TWO_LINES) == TWO_LINES && |Fields(TWO_LINES)| == 5
    ensures Cron.Translate(TWO_LINES) == Some(TWO_LINES)
  {
    hide Fields;
    TrimSpaceTrims(TWO_LINES);
    FieldsOfTwoLines();
    assert TWO_LINES[0] == '0';
  }

  /** So a schedule with a newline between two fields is valid, and the file its create writes reads back as other
      lines. */
  lemma TwoLinesMisread(checks: Checks, cfg: Crontab.Config, lines: seq<string>, app: string, job: NormalizedJob)
    requires checks.cronOk(TWO_LINES) && TWO_LINES in job.schedules
    requires Convergence.GoodConfig(cfg) && CrontabLines.Clean(lines) && IsName(app) && IsName(job.name)
    ensures ValidSchedule(checks, TWO_LINES)
    ensures var after := Crontab.EditLines(cfg, lines, Crontab.CreateJob(app, job));
            CrontabLines.ParseLines(CrontabLines.Serialize(after)) != after
  {
    hide Fields, TrimSpace, IsName, Cron.Translate, CrontabLines.ParseLines, Crontab.EditLines;
    TwoLinesTranslate();
    Convergence.CreateReadsBackExactly(cfg, lines, app, job);
    var i :| 0 <= i < |job.schedules| && job.schedules[i] == TWO_LINES;
    assert TWO_LINES[3] == '\n';
    assert !Crontab.IsOneLine(Cron.Translate(job.schedules[i]).value);
  }

  /** Of what the convergence of the crontab needs, validation gives all but two things: that the schedules translate,
      and that none holds a newline. */
  lemma ConvergenceApplies(checks: Checks, m: Manifest)
    requires ValidManifest(checks, m)
    ensures var r := ApplyDefaultsWith(m, TrimSpace);
            Converge.GoodManifest(r) <==>
            forall i, k :: 0 <= i < |r.jobs| && 0 <= k < |r.jobs[i].schedules| ==>
              Cron.Translate(r.jobs[i].schedules[k]).Some? && '\n' !in r.jobs[i].schedules[k]
  {
    hide TrimSpace, SortByName, Less, IsName, Cron.Translate, ValidSchedule, IsSecretRef, ValidRequest, ValidPolicy;
    var all := NormalizeAll(m.jobs, TrimSpace);
    NormalizedNames(m, TrimSpace);
    SortedFacts(all);
    var jobs := SortByName(all);
    forall i | 0 <= i < |jobs| ensures IsName(jobs[i].name) && 1 <= |jobs[i].schedules| <= MAX_SCHEDULES_PER_JOB {
      assert jobs[i] in all;
      var k :| 0 <= k < |all| && all[k] == jobs[i];
      assert ValidJob(checks, m.jobs[k]);
    }
  }
}

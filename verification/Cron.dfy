/** `crontab/cron.go`: the 5-field form of a manifest schedule, and what the `@every` forms mean when cron runs them. */
module Cron {
  import opened Wrappers
  import opened Text

  function EveryMinutes(n: nat): string { "*/" + Digits(n) + " * * * *" }

  function EveryHours(n: nat): string { "0 */" + Digits(n) + " * * *" }

  /** `translateEvery`. */
  function TranslateEvery(rest: string): Option<string> {
    if |rest| < 2 then None
    else
      var unit := rest[|rest| - 1];
      match ParseInt(rest[..|rest| - 1])
      case None => None
      case Some(n) =>
        if n <= 0 then None
        else if unit == 'm' && n < 60 && 60 % n == 0 then Some(EveryMinutes(n))
        else if unit == 'h' && n < 24 && 24 % n == 0 then Some(EveryHours(n))
        else None
  }

  /** `translate`. */
  function Translate(s: string): Option<string> {
    var t := TrimSpace(s);
    if t == "@hourly" then Some("0 * * * *")
    else if t == "@daily" || t == "@midnight" then Some("0 0 * * *")
    else if t == "@weekly" then Some("0 0 * * 0")
    else if t == "@monthly" then Some("0 0 1 * *")
    else if t == "@yearly" || t == "@annually" then Some("0 0 1 1 *")
    else if "@every" <= t then TranslateEvery(TrimSpace(t[|"@every"|..]))
    else if |Fields(t)| == 5 then Some(t)
    else None
  }

  // ---- What cron does with the emitted forms ------------------------------------------------------

  /** Whether a crontab field accepts a value: `*`, a step over the whole range, or one number. */
  predicate FieldAccepts(field: string, value: nat) {
    || field == "*"
    || ("*/" <= field && AllDigits(field[2..]) && DigitsValue(field[2..]) > 0 && value % DigitsValue(field[2..]) == 0)
    || (field != "" && AllDigits(field) && value == DigitsValue(field))
  }

  /** Whether an expression with unrestricted days and months fires at a minute, counted on a clock of fixed offset. */
  predicate FiresAt(expr: string, minute: int) {
    var fields := Split(expr, ' ');
    && |fields| == 5
    && FieldAccepts(fields[0], minute % 60)
    && FieldAccepts(fields[1], minute / 60 % 24)
    && fields[2] == "*" && fields[3] == "*" && fields[4] == "*"
  }

  /** It fires at instant 0, and from every firing the next one comes exactly `gap` minutes later. */
  ghost predicate EquallySpaced(fires: int -> bool, gap: nat) {
    && fires(0)
    && forall t, u :: fires(t) && t < u <= t + gap ==> (fires(u) <==> u == t + gap)
  }

  lemma StepField(n: nat)
    requires n > 0
    ensures ' ' !in "*/" + Digits(n)
    ensures forall value: nat :: FieldAccepts("*/" + Digits(n), value) <==> value % n == 0
  {
    DigitsRoundTrip(n);
    assert ("*/" + Digits(n))[2..] == Digits(n);
    assert !AllDigits("*/" + Digits(n)) by { assert ("*/" + Digits(n))[0] == '*'; }
  }

  lemma ZeroField()
    ensures forall value: nat :: FieldAccepts("0", value) <==> value == 0
  {
    assert "0"[..0] == "";
    assert DigitsValue("0") == 0;
  }

  lemma SplitFive(a: string, b: string, expr: string)
    requires ' ' !in a && ' ' !in b
    requires expr == a + " " + b + " * * *"
    ensures Split(expr, ' ') == [a, b, "*", "*", "*"]
  {
    assert expr == a + [' '] + (b + [' '] + ("*" + [' '] + ("*" + [' '] + "*")));
    SplitAtom("*", ' ');
    SplitCons("*", ' ', "*");
    SplitCons("*", ' ', "*" + [' '] + "*");
    SplitCons(b, ' ', "*" + [' '] + ("*" + [' '] + "*"));
    SplitCons(a, ' ', b + [' '] + ("*" + [' '] + ("*" + [' '] + "*")));
  }

  lemma EveryMinutesFires(n: nat, t: int)
    requires n > 0
    ensures n < 60 ==> (FiresAt(EveryMinutes(n), t) <==> Ticks(t, 60, n))
  {
    StepField(n);
    SplitFive("*/" + Digits(n), "*", EveryMinutes(n));
  }

  lemma EveryHoursFires(n: nat, t: int)
    requires n > 0
    ensures n < 24 ==> (FiresAt(EveryHours(n), t) <==> t % 60 == 0 && Ticks(t / 60, 24, n))
  {
    StepField(n);
    ZeroField();
    SplitFive("0", "*/" + Digits(n), EveryHours(n));
  }

  /** The multiples of n within each period. */
  predicate Ticks(t: int, period: nat, n: nat)
    requires 0 < n < period
  {
    t % period % n == 0
  }

  lemma RemainderUnique(x: int, n: nat, q: int, r: nat)
    requires r < n && x == n * q + r
    ensures x % n == r && x / n == q
  {
    var d := x / n - q;
    assert n * d == r - x % n;
    MultipleIsFar(n, d);
  }

  lemma MultipleIsFar(n: nat, d: int)
    ensures d >= 1 ==> n * d >= n
    ensures d <= -1 ==> n * d <= 0 - n
  {}

  lemma NestedRemainder(t: int, period: nat, n: nat)
    requires 0 < n < period && period % n == 0
    ensures t % period % n == t % n
  {
    var m, q, r := period / n, t / period, t % period;
    assert t == period * q + r && period == n * m;
    assert period * q == n * (m * q);
    assert r == n * (r / n) + r % n;
    RemainderUnique(t, n, m * q + r / n, r % n);
  }

  lemma DivisorTicks(t: int, period: nat, n: nat, k: nat)
    requires 0 < n < period && period % n == 0 && Ticks(t, period, n) && 0 < k <= n
    ensures Ticks(t + k, period, n) <==> k == n
  {
    NestedRemainder(t, period, n);
    NestedRemainder(t + k, period, n);
    var q := t / n;
    assert t == n * q;
    if k == n {
      RemainderUnique(t + k, n, q + 1, 0);
    } else {
      RemainderUnique(t + k, n, q, k);
    }
  }

  /** When n does not divide the period, the last multiple in it is followed too soon by the next period's first. */
  lemma NonDivisorBreaks(period: nat, n: nat) returns (t: nat, k: nat)
    requires 0 < n < period && period % n != 0
    ensures t < period && Ticks(t, period, n) && 0 < k < n && t + k == period && Ticks(t + k, period, n)
  {
    t, k := period / n * n, period % n;
    assert t == period - period % n;
    RemainderUnique(t, n, period / n, 0);
    RemainderUnique(t, period, 0, t);
    RemainderUnique(period, period, 1, 0);
  }

  lemma EveryAccepted(number: string, n: nat, unit: char)
    requires 0 < n < 60 && ParseInt(number) == Some(n)
    ensures TranslateEvery(number + [unit]) ==
            if unit == 'm' && 60 % n == 0 then Some(EveryMinutes(n))
            else if unit == 'h' && n < 24 && 24 % n == 0 then Some(EveryHours(n))
            else None
  {
    assert number != "";
    assert (number + [unit])[..|number|] == number;
  }

  /** Ticks that a period divides into are equally spaced, whatever the length of one unit. */
  lemma DivisorSpacing(fires: int -> bool, unit: nat, period: nat, n: nat)
    requires unit > 0 && 0 < n < period && period % n == 0
    requires forall t :: fires(t) <==> t % unit == 0 && Ticks(t / unit, period, n)
    ensures EquallySpaced(fires, unit * n)
  {
    FirstTick(unit, period, n);
    assert fires(0);
    forall t, u | fires(t) && t < u <= t + unit * n ensures fires(u) <==> u == t + unit * n {
      UnitSteps(t, u, unit, n);
      if u % unit == 0 {
        DivisorTicks(t / unit, period, n, u / unit - t / unit);
      }
    }
  }

  lemma FirstTick(unit: nat, period: nat, n: nat)
    requires unit > 0 && 0 < n < period
    ensures 0 % unit == 0 && 0 / unit == 0 && Ticks(0, period, n)
  {
    RemainderUnique(0, unit, 0, 0);
    RemainderUnique(0, period, 0, 0);
    RemainderUnique(0, n, 0, 0);
  }

  lemma UnitSteps(t: int, u: int, unit: nat, n: nat)
    requires unit > 0 && t % unit == 0 && t < u <= t + unit * n
    ensures (t + unit * n) % unit == 0
    ensures u % unit == 0 ==> 0 < u / unit - t / unit <= n && (u / unit - t / unit == n <==> u == t + unit * n)
  {
    var q := t / unit;
    assert t == unit * q;
    RemainderUnique(t + unit * n, unit, q + n, 0);
    if u % unit == 0 {
      var d := u / unit - q;
      assert u - t == unit * d;
      MultipleIsFar(unit, d);
      MultipleIsFar(unit, d - n);
      assert unit * (d - n) == unit * d - unit * n;
    }
  }

  /** Otherwise the gap at the end of a period is too short. */
  lemma NonDivisorSpacing(fires: int -> bool, unit: nat, period: nat, n: nat)
    requires unit > 0 && 0 < n < period && period % n != 0
    requires forall t :: fires(t) <==> t % unit == 0 && Ticks(t / unit, period, n)
    ensures !EquallySpaced(fires, unit * n)
  {
    var t, k := NonDivisorBreaks(period, n);
    RemainderUnique(unit * t, unit, t, 0);
    RemainderUnique(unit * t + unit * k, unit, t + k, 0);
    MultipleIsFar(unit, k);
    MultipleIsFar(unit, n - k);
    assert unit * (n - k) == unit * n - unit * k;
    assert fires(unit * t) && fires(unit * t + unit * k);
  }

  /** For 0 < n < 60, however n is spelt, `@every <n>m` is accepted exactly when the form it would map to fires every n
      minutes. */
  lemma EveryMinutesExact(number: string, n: nat)
    requires 0 < n < 60 && ParseInt(number) == Some(n)
    ensures TranslateEvery(number + "m") ==
            if EquallySpaced(t => FiresAt(EveryMinutes(n), t), n) then Some(EveryMinutes(n)) else None
  {
    EveryAccepted(number, n, 'm');
    var fires := t => FiresAt(EveryMinutes(n), t);
    forall t: int ensures fires(t) <==> t % 1 == 0 && Ticks(t / 1, 60, n) { EveryMinutesFires(n, t); }
    if 60 % n == 0 {
      DivisorSpacing(fires, 1, 60, n);
    } else {
      NonDivisorSpacing(fires, 1, 60, n);
    }
  }

  /** For 0 < n < 24, however n is spelt, `@every <n>h` is accepted exactly when the form it would map to fires every n
      hours. */
  lemma EveryHoursExact(number: string, n: nat)
    requires 0 < n < 24 && ParseInt(number) == Some(n)
    ensures TranslateEvery(number + "h") ==
            if EquallySpaced(t => FiresAt(EveryHours(n), t), 60 * n) then Some(EveryHours(n)) else None
  {
    EveryAccepted(number, n, 'h');
    var fires := t => FiresAt(EveryHours(n), t);
    forall t: int ensures fires(t) <==> t % 60 == 0 && Ticks(t / 60, 24, n) { EveryHoursFires(n, t); }
    if 24 % n == 0 {
      DivisorSpacing(fires, 60, 24, n);
    } else {
      NonDivisorSpacing(fires, 60, 24, n);
    }
  }
}

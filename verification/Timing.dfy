/** The clock of a fire (`trigger/shim.go`): the backoff between attempts, how long a fire can last, and whether its one
    timestamp stays acceptable.  Durations are whole nanoseconds, as in Go. */
module Timing {
  import opened Powers
  import opened Text

  const SECOND := 1_000_000_000
  const REPLAY_WINDOW := 300
  const LOCK_HEADROOM := 30 * SECOND

  function Min(a: int, b: int): int { if a <= b then a else b }

  // ---- Backoff ------------------------------------------------------------------------------------

  /** The loop of `computeBackoff` from a given pass on. */
  function BackoffFrom(d: int, i: nat, attempt: nat, min: int, max: int): int
    requires i >= 1
    decreases attempt - i
  {
    if i >= attempt then (if d < min then min else d)
    else if Wrap(d * 2) >= max then max
    else BackoffFrom(Wrap(d * 2), i + 1, attempt, min, max)
  }

  /** `computeBackoff`. */
  method ComputeBackoff(attempt: nat, min: int, max: int) returns (backoff: int)
    ensures backoff == BackoffFrom(min, 1, attempt, min, max)
  {
    var d := min;
    var i := 1;
    while i < attempt
      invariant 1 <= i
      invariant BackoffFrom(min, 1, attempt, min, max) == BackoffFrom(d, i, attempt, min, max)
      decreases attempt - i
    {
      d := Wrap(d * 2);
      if d >= max {
        return max;
      }
      i := i + 1;
    }
    if d < min {
      return min;
    }
    return d;
  }

  /** The first wait is not capped; every later one is. */
  function Backoff(attempt: nat, min: int, max: int): int {
    if attempt <= 1 then min else Min(max, min * Power2(attempt - 1))
  }

  /** `time.Duration(seconds) * time.Second`. */
  function Duration(seconds: int): int { Wrap(seconds * SECOND) }

  /** The first number of seconds that is more than half of what a duration can hold. */
  const HALF_SECONDS := 4_611_686_019

  lemma DurationFits(seconds: nat)
    requires seconds * SECOND <= MAX_INT64
    ensures Duration(seconds) == seconds * SECOND
  {
    WrapFits(seconds * SECOND);
  }

  /** The loop from a pass with less than half of that. */
  lemma {:induction false} DoublingFrom(s: nat, i: nat, attempt: nat, minSeconds: nat, maxSeconds: nat)
    requires 1 <= i <= attempt && minSeconds <= s < HALF_SECONDS && maxSeconds <= HALF_SECONDS
    requires i == 1 || s < maxSeconds
    ensures BackoffFrom(s * SECOND, i, attempt, minSeconds * SECOND, maxSeconds * SECOND) ==
            if i == attempt then s * SECOND else Min(maxSeconds * SECOND, s * SECOND * Power2(attempt - i))
    decreases attempt - i
  {
    hide Wrap;
    if i < attempt {
      WrapFits(s * SECOND * 2);
      PowerNext(s * SECOND, attempt - i);
      if s * 2 >= maxSeconds {
        PowerAtLeast(s * SECOND, attempt - i);
      } else {
        DoublingFrom(s * 2, i + 1, attempt, minSeconds, maxSeconds);
        if i + 1 == attempt {
          assert Power2(1) == 2 * Power2(0);
        }
      }
    }
  }

  /** With equal waits the loop has nothing to do, whatever wraps around. */
  lemma {:induction false} EqualWaits(d: int, i: nat, attempt: nat, wait: int)
    requires i >= 1 && d <= wait
    ensures BackoffFrom(d, i, attempt, wait, wait) == wait
    decreases attempt - i
  {
    hide Wrap;
    if i < attempt && Wrap(d * 2) < wait {
      EqualWaits(Wrap(d * 2), i + 1, attempt, wait);
    }
  }

  lemma PowerNext(d: int, n: nat)
    requires n >= 1
    ensures d * Power2(n) == d * 2 * Power2(n - 1)
  {}

  lemma {:induction false} PowerAtLeast(d: int, n: nat)
    requires d >= 0 && n >= 1
    ensures d * Power2(n) >= d * 2
  {
    if n > 1 {
      PowerAtLeast(d, n - 1);
      assert d * Power2(n) == 2 * (d * Power2(n - 1));
    }
  }

  /** The first wait is the smallest one, every later one the doubled and capped wait. */
  lemma BackoffClosed(attempt: nat, minSeconds: nat, maxSeconds: nat)
    requires maxSeconds <= HALF_SECONDS && (minSeconds < HALF_SECONDS || minSeconds == maxSeconds)
    ensures BackoffFrom(Duration(minSeconds), 1, attempt, Duration(minSeconds), Duration(maxSeconds)) ==
            Backoff(attempt, minSeconds * SECOND, maxSeconds * SECOND)
  {
    hide Wrap;
    DurationFits(minSeconds);
    DurationFits(maxSeconds);
    if attempt >= 2 {
      if minSeconds == maxSeconds {
        EqualWaits(minSeconds * SECOND, 1, attempt, minSeconds * SECOND);
        PowerAtLeast(minSeconds * SECOND, attempt - 1);
      } else {
        DoublingFrom(minSeconds, 1, attempt, minSeconds, maxSeconds);
      }
    }
  }

  /** That is so for all smaller smallest waits exactly when the largest wait is at most 4611686019 seconds.  Above, the
      doubling of some wait wraps around, or the largest wait itself does. */
  lemma BackoffExact(maxSeconds: nat)
    ensures (forall minSeconds: nat, attempt: nat :: minSeconds <= maxSeconds ==>
               BackoffFrom(Duration(minSeconds), 1, attempt, Duration(minSeconds), Duration(maxSeconds)) ==
               Backoff(attempt, minSeconds * SECOND, maxSeconds * SECOND))
            <==> maxSeconds <= HALF_SECONDS
  {
    hide BackoffFrom, Backoff, Duration;
    if maxSeconds <= HALF_SECONDS {
      forall minSeconds: nat, attempt: nat | minSeconds <= maxSeconds
        ensures BackoffFrom(Duration(minSeconds), 1, attempt, Duration(minSeconds), Duration(maxSeconds)) ==
                Backoff(attempt, minSeconds * SECOND, maxSeconds * SECOND)
      {
        BackoffClosed(attempt, minSeconds, maxSeconds);
      }
    } else {
      BackoffWraps(maxSeconds);
    }
  }

  lemma BackoffWraps(maxSeconds: nat)
    requires maxSeconds > HALF_SECONDS
    ensures var min := Duration(maxSeconds - 1);
            BackoffFrom(min, 1, 2, min, Duration(maxSeconds)) !=
            Backoff(2, (maxSeconds - 1) * SECOND, maxSeconds * SECOND)
  {
    var s := maxSeconds - 1;
    var min, max := Duration(s), Duration(maxSeconds);
    assert Power2(1) == 2 * Power2(0);
    assert Backoff(2, s * SECOND, maxSeconds * SECOND) == maxSeconds * SECOND;
    if maxSeconds * SECOND <= MAX_INT64 {
      DurationFits(s);
      DurationFits(maxSeconds);
      assert Wrap(min * 2) == min * 2 - 0x1_0000_0000_0000_0000;
      assert BackoffFrom(min, 1, 2, min, max) == BackoffFrom(Wrap(min * 2), 2, 2, min, max) == min;
    } else {
      assert BackoffFrom(Wrap(min * 2), 2, 2, min, max) <= MAX_INT64;
      assert BackoffFrom(min, 1, 2, min, max) <= MAX_INT64;
    }
  }

  // ---- How long a fire lasts ----------------------------------------------------------------------

  /** The waits after the first n attempts. */
  function BackoffSum(n: nat, min: int, max: int): int {
    if n == 0 then 0 else BackoffSum(n - 1, min, max) + Backoff(n, min, max)
  }

  function Sum(durations: seq<nat>): nat {
    if durations == [] then 0 else Sum(durations[..|durations| - 1]) + durations[|durations| - 1]
  }

  /** The attempts of a fire, each cut off at the timeout. */
  predicate Possible(durations: seq<nat>, timeout: nat) { forall k :: 0 <= k < |durations| ==> durations[k] <= timeout }

  /** When attempt k + 1 starts, counted from the end of the wait for the lock. */
  function StartAfter(durations: seq<nat>, k: nat, min: int, max: int): int
    requires k <= |durations|
  {
    Sum(durations[..k]) + BackoffSum(k, min, max)
  }

  /** When the last attempt ends. */
  function EndAfter(durations: seq<nat>, min: int, max: int): int
    requires durations != []
  {
    Sum(durations) + BackoffSum(|durations| - 1, min, max)
  }

  lemma {:induction false} SumBound(durations: seq<nat>, timeout: nat)
    requires Possible(durations, timeout)
    ensures Sum(durations) <= |durations| * timeout
  {
    if durations != [] {
      SumBound(durations[..|durations| - 1], timeout);
    }
  }

  lemma {:induction false} SumFull(n: nat, timeout: nat) returns (durations: seq<nat>)
    ensures |durations| == n && Possible(durations, timeout) && Sum(durations) == n * timeout
  {
    if n == 0 {
      durations := [];
    } else {
      var front := SumFull(n - 1, timeout);
      durations := front + [timeout];
      assert durations[..n - 1] == front;
    }
  }

  lemma BackoffNotNegative(attempt: nat, min: int, max: int)
    requires min >= 0 && max >= 0
    ensures Backoff(attempt, min, max) >= 0
  {
    PowerPositive(if attempt == 0 then 0 else attempt - 1);
  }

  lemma {:induction false} BackoffSumMonotone(j: nat, n: nat, min: int, max: int)
    requires j <= n && min >= 0 && max >= 0
    ensures 0 <= BackoffSum(j, min, max) <= BackoffSum(n, min, max)
    decreases n
  {
    hide Backoff;
    if n > 0 {
      BackoffNotNegative(n, min, max);
      BackoffSumMonotone(if j == n then n - 1 else j, n - 1, min, max);
    }
  }

  /** The latest start of the last of n attempts. */
  function LatestStart(n: nat, wait: nat, timeout: nat, min: int, max: int): int
    requires n >= 1
  {
    wait + (n - 1) * timeout + BackoffSum(n - 1, min, max)
  }

  /** Both ends of the skew check work on whole seconds. */
  predicate Fresh(signed: nat, now: nat) { now / SECOND - signed / SECOND <= REPLAY_WINDOW }

  /** Attempt k + 1 of a fire that was signed at `fire`, and then waited for the lock, starts with a fresh timestamp. */
  predicate StartsFresh(fire: nat, wait: nat, durations: seq<nat>, k: nat, min: int, max: int)
    requires k <= |durations|
  {
    var start := StartAfter(durations, k, min, max);
    start >= 0 && Fresh(fire, fire + wait + start)
  }

  /** Every attempt of every possible fire does. */
  ghost predicate AlwaysFresh(n: nat, maxWait: nat, timeout: nat, min: int, max: int) {
    forall fire: nat, wait: nat, durations: seq<nat>, k: nat
      | wait <= maxWait && |durations| == n && Possible(durations, timeout) && k < n ::
      StartsFresh(fire, wait, durations, k, min, max)
  }

  lemma StartBound(durations: seq<nat>, k: nat, timeout: nat, min: int, max: int)
    requires k < |durations| && Possible(durations, timeout) && min >= 0 && max >= 0
    ensures 0 <= StartAfter(durations, k, min, max) <= (|durations| - 1) * timeout
        + BackoffSum(|durations| - 1, min, max)
  {
    hide Sum, BackoffSum;
    SumBound(durations[..k], timeout);
    BackoffSumMonotone(k, |durations| - 1, min, max);
    TimesMonotone(k, |durations| - 1, timeout);
  }

  lemma TimesMonotone(a: nat, b: nat, n: nat)
    requires a <= b
    ensures a * n <= b * n
  {}

  /** The timestamp is taken once, before the lock.  Every attempt of every possible fire is within the replay window
      exactly when the latest start of the last attempt is. */
  lemma FreshExactly(n: nat, maxWait: nat, timeout: nat, min: int, max: int)
    requires n >= 1 && min >= 0 && max >= 0
    ensures AlwaysFresh(n, maxWait, timeout, min, max) <==>
        LatestStart(n, maxWait, timeout, min, max) <= 300 * SECOND
  {
    hide Sum, BackoffSum, Possible;
    var latest := LatestStart(n, maxWait, timeout, min, max);
    if latest <= REPLAY_WINDOW * SECOND {
      forall fire: nat, wait: nat, durations: seq<nat>, k: nat
        | wait <= maxWait && |durations| == n && Possible(durations, timeout) && k < n
        ensures StartsFresh(fire, wait, durations, k, min, max)
      {
        StartBound(durations, k, timeout, min, max);
        WithinWindow(fire, wait + StartAfter(durations, k, min, max));
      }
    } else {
      LateStart(n, maxWait, timeout, min, max);
    }
  }

  lemma WithinWindow(fire: nat, delay: nat)
    requires delay <= REPLAY_WINDOW * SECOND
    ensures Fresh(fire, fire + delay)
  {}

  lemma LateStart(n: nat, maxWait: nat, timeout: nat, min: int, max: int)
    requires n >= 1 && min >= 0 && max >= 0 && LatestStart(n, maxWait, timeout, min, max) > REPLAY_WINDOW * SECOND
    ensures !AlwaysFresh(n, maxWait, timeout, min, max)
  {
    var front := SumFull(n - 1, timeout);
    var durations := front + [0];
    assert durations[..n - 1] == front;
    var start := StartAfter(durations, n - 1, min, max);
    assert maxWait + start == LatestStart(n, maxWait, timeout, min, max);
    BackoffSumMonotone(n - 1, n - 1, min, max);
    assert !Fresh(SECOND - 1, SECOND - 1 + maxWait + start);
    assert !StartsFresh(SECOND - 1, maxWait, durations, n - 1, min, max);
  }

  /** The lock lives for the timeout and some headroom.  No fire outlives its own lock exactly when all that comes
      before the last attempt fits in the headroom. */
  lemma LockOutlivesFire(n: nat, timeout: nat, min: int, max: int)
    requires n >= 1 && min >= 0 && max >= 0
    ensures (forall durations: seq<nat> :: |durations| == n && Possible(durations, timeout) ==>
               EndAfter(durations, min, max) <= timeout + 30 * SECOND)
            <==> (n - 1) * timeout + BackoffSum(n - 1, min, max) <= 30 * SECOND
  {
    hide Sum, BackoffSum, Possible;
    if (n - 1) * timeout + BackoffSum(n - 1, min, max) <= 30 * SECOND {
      forall durations: seq<nat> | |durations| == n && Possible(durations, timeout)
        ensures EndAfter(durations, min, max) <= timeout + 30 * SECOND
      {
        SumBound(durations, timeout);
      }
    } else {
      var durations := SumFull(n, timeout);
      assert EndAfter(durations, min, max) > timeout + 30 * SECOND;
    }
  }

  /** The defaults (60 seconds, three attempts, waits of 1 to 60 seconds) keep the timestamp fresh, with up to 177
      seconds for the lock, but let a fire outlive its lock; a single attempt never does. */
  lemma DefaultTiming(maxWait: nat, timeout: nat, min: int, max: int)
    requires min >= 0 && max >= 0
    ensures AlwaysFresh(3, maxWait, 60 * SECOND, SECOND, 60 * SECOND) <==> maxWait <= 177 * SECOND
    ensures !(forall durations: seq<nat> :: |durations| == 3 && Possible(durations, 60 * SECOND) ==>
                EndAfter(durations, SECOND, 60 * SECOND) <= 60 * SECOND + LOCK_HEADROOM)
    ensures forall durations: seq<nat> :: |durations| == 1 && Possible(durations, timeout) ==>
              EndAfter(durations, min, max) <= timeout + LOCK_HEADROOM
  {
    hide AlwaysFresh, Possible, EndAfter;
    DefaultSum();
    FreshExactly(3, maxWait, 60 * SECOND, SECOND, 60 * SECOND);
    LockOutlivesFire(3, 60 * SECOND, SECOND, 60 * SECOND);
    LockOutlivesFire(1, timeout, min, max);
  }

  lemma DefaultSum()
    ensures BackoffSum(2, SECOND, 60 * SECOND) == 3 * SECOND
  {
    assert Power2(1) == 2 * Power2(0);
    assert Backoff(2, SECOND, 60 * SECOND) == 2 * SECOND;
    assert BackoffSum(1, SECOND, 60 * SECOND) == SECOND;
  }
}

/** `locks/redis`: one key of a Redis server, and the handles of any number of clients.  The server runs each command or
    script atomically; replies may be lost and scripts may arrive late.  Times are in milliseconds of the server. */
module Redis {
  import opened Wrappers
  import opened Sequences

  /** The stored value; the key is gone once the clock is past its expiry. */
  datatype Entry = Entry(token: string, expiresAt: nat)

  /** A handle, known by its token.  `lease` is when the server last acquired or refreshed the key for it. */
  datatype Handle = Handle(ttl: nat, released: bool, lease: nat)

  datatype State = State(clock: nat, store: Option<Entry>, handles: map<string, Handle>, used: set<string>)

  const INITIAL := State(0, None, map[], {})

  predicate Alive(s: State) { s.store.Some? && s.clock <= s.store.value.expiresAt }

  /** The key is there and holds the token. */
  predicate Holds(s: State, token: string) { Alive(s) && s.store.value.token == token }

  datatype Step =
    | Tick(ms: nat)
    | Acquire(token: string, ttl: nat, replied: bool)  // SET NX; without a reply no handle comes of it
    | MarkReleased(token: string)                      // Release sets its flag before it runs the script
    | ReleaseScript(token: string)                     // and the script runs, late, more than once, or never
    | RefreshScript(token: string)

  predicate Enabled(s: State, e: Step) {
    match e
    case Tick(_) => true
    case Acquire(token, ttl, _) => ttl > 0 && token !in s.used && !Alive(s)
    case MarkReleased(token) => token in s.handles
    case ReleaseScript(token) => token in s.handles && s.handles[token].released
    case RefreshScript(token) => token in s.handles
  }

  /** `EXPIRE` takes whole seconds, and deletes the key when they are zero. */
  function Expire(s: State, token: string): Option<Entry>
    requires token in s.handles
  {
    var seconds := s.handles[token].ttl / 1000;
    if seconds == 0 then None else Some(Entry(token, s.clock + seconds * 1000))
  }

  function Next(s: State, e: Step): State
    requires Enabled(s, e)
  {
    match e
    case Tick(ms) => s.(clock := s.clock + ms)
    case Acquire(token, ttl, replied) =>
      s.(store := Some(Entry(token, s.clock + ttl)), used := s.used + {token},
         handles := if replied then s.handles[token := Handle(ttl, false, s.clock)] else s.handles)
    case MarkReleased(token) => s.(handles := s.handles[token := s.handles[token].(released := true)])
    case ReleaseScript(token) => if Holds(s, token) then s.(store := None) else s
    case RefreshScript(token) =>
      if Holds(s, token)
      then s.(store := Expire(s, token), handles := s.handles[token := s.handles[token].(lease := s.clock)])
      else s
  }

  /** The ttls for which a refresh gives the handle as long a lease as its acquire did. */
  predicate KeepsLease(ttl: nat) { ttl >= 1000 && ttl % 1000 <= 1 }

  /** It was acquired or refreshed less than its ttl ago and has not been released. */
  predicate Current(s: State, token: string) {
    token in s.handles && !s.handles[token].released && s.clock < s.handles[token].lease + s.handles[token].ttl
  }

  // ---- What every step keeps ----------------------------------------------------------------------

  ghost predicate TokensUsed(s: State) {
    && (s.store.Some? ==> s.store.value.token in s.used)
    && forall token :: token in s.handles ==> token in s.used
  }

  /** As long as its lease runs, the key is the handle's and does not expire. */
  ghost predicate LeaseHeld(s: State, token: string)
    requires token in s.handles
  {
    var h := s.handles[token];
    || s.clock >= h.lease + h.ttl
    || (s.store.Some? && s.store.value.token == token && s.store.value.expiresAt + 1 >= h.lease + h.ttl)
  }

  ghost predicate Inv(s: State) {
    && TokensUsed(s)
    && (forall token :: token in s.handles && !s.handles[token].released && KeepsLease(s.handles[token].ttl) ==>
        LeaseHeld(s, token))
    && (forall token :: token in s.handles && s.store.Some? && s.store.value.token == token ==>
         s.store.value.expiresAt <= s.handles[token].lease + s.handles[token].ttl)
  }

  lemma WholeSeconds(ttl: nat)
    ensures ttl / 1000 * 1000 <= ttl
    ensures KeepsLease(ttl) ==> ttl / 1000 > 0 && ttl / 1000 * 1000 + 1 >= ttl
  {}

  lemma StepKeeps(s: State, e: Step)
    requires Inv(s) && Enabled(s, e)
    ensures Inv(Next(s, e))
  {
    hide KeepsLease;
    if e.RefreshScript? {
      WholeSeconds(s.handles[e.token].ttl);
    }
  }

  /** Any interleaving of steps of any number of clients, and of the clock. */
  ghost predicate IsRun(states: seq<State>, steps: seq<Step>) {
    && |states| == |steps| + 1 && states[0] == INITIAL
    && forall k :: 0 <= k < |steps| ==> Enabled(states[k], steps[k]) && states[k + 1] == Next(states[k], steps[k])
  }

  lemma {:induction false} RunKeeps(states: seq<State>, steps: seq<Step>, n: nat)
    requires IsRun(states, steps) && n <= |steps|
    ensures Inv(states[n])
  {
    hide Next, Enabled;
    if n == 0 {
      assert Inv(INITIAL);
    } else {
      RunKeeps(states, steps, n - 1);
      StepKeeps(states[n - 1], steps[n - 1]);
    }
  }

  // ---- Safety -------------------------------------------------------------------------------------

  /** Over every interleaving: a handle acquired or refreshed less than its ttl ago, and not released, owns the key, and
      no other handle is in that position; and once the ttl is over it owns it no longer. */
  lemma SoleOwner(states: seq<State>, steps: seq<Step>, n: nat, token: string)
    requires IsRun(states, steps) && n <= |steps|
    requires token in states[n].handles && KeepsLease(states[n].handles[token].ttl)
    ensures var s := states[n];
            && (Current(s, token) ==> Holds(s, token))
            && (forall other :: other != token && Current(s, token) && Current(s, other) ==>
                 !KeepsLease(s.handles[other].ttl))
            && (s.clock > s.handles[token].lease + s.handles[token].ttl ==> !Holds(s, token))
  {
    hide Next, Enabled, KeepsLease;
    RunKeeps(states, steps, n);
  }

  /** Whatever script any other handle runs, however late, the stored token and expiry stay as they are. */
  lemma OthersCannotTouch(states: seq<State>, steps: seq<Step>, n: nat, token: string)
    requires IsRun(states, steps) && n < |steps|
    requires Current(states[n], token) && KeepsLease(states[n].handles[token].ttl)
    requires !steps[n].Tick? && (steps[n].Acquire? || steps[n].token != token)
    ensures states[n + 1].store == states[n].store && states[n + 1].handles[token] == states[n].handles[token]
  {
    hide KeepsLease;
    RunKeeps(states, steps, n);
  }

  /** For any other ttl the guarantee fails after one refresh: the key expires early and a second handle, of any ttl,
      owns it while the first is still current. */
  lemma ShortRefresh(ttl: nat, ttl2: nat, a: string, b: string) returns (states: seq<State>, steps: seq<Step>)
    requires ttl > 0 && ttl2 > 0 && a != b && !KeepsLease(ttl)
    ensures IsRun(states, steps)
    ensures var last := states[|steps|];
            Current(last, a) && Current(last, b) && Holds(last, b) && last.handles[a].ttl == ttl
  {
    var whole := ttl / 1000 * 1000;
    var wait := if whole == 0 then 0 else whole + 1;
    ShortLease(ttl);
    var s1 := Next(INITIAL, Acquire(a, ttl, true));
    var s2 := Next(s1, RefreshScript(a));
    var s3 := Next(s2, Tick(wait));
    var s4 := Next(s3, Acquire(b, ttl2, true));
    states := [INITIAL, s1, s2, s3, s4];
    steps := [Acquire(a, ttl, true), RefreshScript(a), Tick(wait), Acquire(b, ttl2, true)];
  }

  lemma ShortLease(ttl: nat)
    requires ttl > 0 && !KeepsLease(ttl)
    ensures ttl / 1000 == 0 || ttl / 1000 * 1000 + 1 < ttl
  {}

  // ---- What each command does ---------------------------------------------------------------------

  /** The key is there, unexpired, and holds the token; said with the fields alone. */
  predicate Stored(s: State, token: string) {
    s.store.Some? && s.store.value.token == token && s.clock <= s.store.value.expiresAt
  }

  predicate SameButStore(s: State, t: State) { t.clock == s.clock && t.handles == s.handles && t.used == s.used }

  /** A token that nobody used yet can acquire exactly when no unexpired entry is stored. */
  lemma AcquirableExactly(states: seq<State>, steps: seq<Step>, n: nat, token: string, ttl: nat, replied: bool)
    requires IsRun(states, steps) && n <= |steps| && ttl > 0 && token !in states[n].used
    ensures var s := states[n];
            Enabled(s, Acquire(token, ttl, replied)) <==> s.store == None || s.clock > s.store.value.expiresAt
    ensures Enabled(states[n], Acquire(token, ttl, replied)) ==>
              var s, t := states[n], Next(states[n], Acquire(token, ttl, replied));
              && t.clock == s.clock && t.used == s.used + {token}
              && t.handles == if replied then s.handles[token := Handle(ttl, false, s.clock)] else s.handles
  {}

  /** The release script frees the key of its own token at once, for anybody, and leaves any other key alone. */
  lemma ReleaseFrees(states: seq<State>, steps: seq<Step>, n: nat, token: string)
    requires IsRun(states, steps) && n < |steps| && steps[n] == ReleaseScript(token)
    ensures var s, t := states[n], states[n + 1];
            && !Stored(t, token) && SameButStore(s, t)
            && (Stored(s, token) ==>
                 t.store == None
                 && forall other, ttl: nat, replied ::
                      other !in t.used && ttl > 0 ==> Enabled(t, Acquire(other, ttl, replied)))
            && (!Stored(s, token) ==> t.store == s.store)
  {}

  /** A refresh by the owner moves the expiry to whole seconds from now, or deletes the key when there are none; a
      refresh by anybody else does nothing. */
  lemma RefreshExtends(states: seq<State>, steps: seq<Step>, n: nat, token: string)
    requires IsRun(states, steps) && n < |steps| && steps[n] == RefreshScript(token)
    ensures var s, t, ttl := states[n], states[n + 1], states[n].handles[token].ttl;
            if !Stored(s, token) then t == s
            else
              && t.clock == s.clock && t.used == s.used
              && t.store == (if ttl < 1000 then None else Some(Entry(token, s.clock + ttl / 1000 * 1000)))
              && t.handles == s.handles[token := Handle(ttl, s.handles[token].released, s.clock)]
  {}

  /** The clock and the flag of a released handle change nothing else. */
  lemma TickAndMark(states: seq<State>, steps: seq<Step>, n: nat)
    requires IsRun(states, steps) && n < |steps|
    ensures var s, t := states[n], states[n + 1];
            match steps[n]
            case Tick(ms) => t == State(s.clock + ms, s.store, s.handles, s.used)
            case MarkReleased(token) =>
              t == State(s.clock, s.store,
                         s.handles[token := Handle(s.handles[token].ttl, true, s.handles[token].lease)], s.used)
            case _ => true
  {}

  /** A token that was used and does not own the key never owns it again. */
  lemma {:induction false} NeverAgain(states: seq<State>, steps: seq<Step>, n: nat, m: nat, token: string)
    requires IsRun(states, steps) && n <= m <= |steps|
    requires token in states[n].used && !Stored(states[n], token)
    ensures token in states[m].used && !Stored(states[m], token)
    decreases m
  {
    if n < m {
      NeverAgain(states, steps, n, m - 1, token);
      assert states[m] == Next(states[m - 1], steps[m - 1]);
    }
  }

  /** Until one of its own scripts runs, a token owns the key for its ttl to the millisecond, and no longer. */
  lemma {:induction false} AcquireOwnsExactly(states: seq<State>, steps: seq<Step>, n: nat, m: nat, token: string)
    requires IsRun(states, steps) && n < m <= |steps| && steps[n].Acquire? && steps[n].token == token
    requires forall k :: n < k < m ==> !(steps[k].ReleaseScript? || steps[k].RefreshScript?) || steps[k].token != token
    ensures Stored(states[m], token) <==> states[m].clock <= states[n].clock + steps[n].ttl
    ensures Stored(states[m], token) ==> states[m].store == Some(Entry(token, states[n].clock + steps[n].ttl))
    ensures token in states[m].used
    decreases m
  {
    assert states[m] == Next(states[m - 1], steps[m - 1]);
    if n + 1 < m {
      AcquireOwnsExactly(states, steps, n, m - 1, token);
      if !Stored(states[m - 1], token) {
        NeverAgain(states, steps, m - 1, m, token);
      }
    }
  }

  /** After its release script has run a handle owns the key at no later state of the run, whatever else runs. */
  lemma ReleasedForGood(states: seq<State>, steps: seq<Step>, n: nat, m: nat, token: string)
    requires IsRun(states, steps) && n < m <= |steps| && steps[n] == ReleaseScript(token)
    ensures !Stored(states[m], token)
  {
    hide Next;
    RunKeeps(states, steps, n);
    ReleaseFrees(states, steps, n, token);
    NeverAgain(states, steps, n + 1, m, token);
  }

  /** One client releases and another acquires in the same millisecond. */
  lemma HandOver(ttl: nat, ttl2: nat, a: string, b: string) returns (states: seq<State>, steps: seq<Step>)
    requires ttl > 0 && ttl2 > 0 && a != b
    ensures IsRun(states, steps) && |steps| == 4
    ensures steps[0] == Acquire(a, ttl, true) && steps[2] == ReleaseScript(a) && steps[3] == Acquire(b, ttl2, true)
    ensures Stored(states[2], a) && Stored(states[4], b) && states[4].clock == 0
  {
    var s1 := Next(INITIAL, Acquire(a, ttl, true));
    var s2 := Next(s1, MarkReleased(a));
    var s3 := Next(s2, ReleaseScript(a));
    var s4 := Next(s3, Acquire(b, ttl2, true));
    states := [INITIAL, s1, s2, s3, s4];
    steps := [Acquire(a, ttl, true), MarkReleased(a), ReleaseScript(a), Acquire(b, ttl2, true)];
  }
}

/** `locks/flock`: the file lock of one key, with the sidecar file that names its holder.  Any number of processes act
    one atomic step at a time, and each may die at any step.  Two processes never share host and pid. */
module Flock {
  import opened Wrappers
  import opened Sequences
  import opened Text

  // ---- The sidecar file ---------------------------------------------------------------------------

  datatype Proc = Proc(host: string, pid: nat)

  datatype Holder = Holder(pid: int, host: string)

  /** What `makeHandle` writes. */
  function HolderText(p: Proc): string { "pid=" + Digits(p.pid) + "\n" + "host=" + p.host + "\n" }

  /** One line of the file: an unreadable pid spoils the whole file. */
  function HolderLine(h: Holder, line: string): Option<Holder> {
    var i := CutAt(line, '=');
    if i < 0 then Some(h)
    else if line[..i] == "pid" then
      match ParseInt(TrimSpace(line[i + 1..]))
      case None => None
      case Some(pid) => Some(h.(pid := pid))
    else if line[..i] == "host" then Some(h.(host := TrimSpace(line[i + 1..])))
    else Some(h)
  }

  function HolderUpTo(lines: seq<string>, n: nat): Option<Holder>
    requires n <= |lines|
  {
    if n == 0 then Some(Holder(0, ""))
    else
      match HolderUpTo(lines, n - 1)
      case None => None
      case Some(h) => HolderLine(h, lines[n - 1])
  }

  function ParseHolder(raw: string): Option<Holder> {
    var lines := Split(raw, '\n');
    match HolderUpTo(lines, |lines|)
    case None => None
    case Some(h) => if h.pid == 0 then None else Some(h)
  }

  lemma {:induction false} HolderSpoiled(lines: seq<string>, n: nat, k: nat)
    requires n <= k <= |lines| && HolderUpTo(lines, n).None?
    ensures HolderUpTo(lines, k).None?
    decreases k
  {
    if n < k {
      HolderSpoiled(lines, n, k - 1);
    }
  }

  /** `readHolder`, after the file was read. */
  method ReadHolder(raw: string) returns (holder: Option<Holder>)
    ensures holder == ParseHolder(raw)
  {
    hide TrimSpace, ParseInt, CutAt, Split;
    var lines := Split(raw, '\n');
    var h := Holder(0, "");
    var i := 0;
    while i < |lines|
      invariant 0 <= i <= |lines|
      invariant HolderUpTo(lines, i) == Some(h)
    {
      var line := lines[i];
      var cut := CutAt(line, '=');
      if cut >= 0 {
        var k, v := line[..cut], line[cut + 1..];
        if k == "pid" {
          var pid := ParseInt(TrimSpace(v));
          if pid.None? {
            HolderSpoiled(lines, i + 1, |lines|);
            return None;
          }
          h := h.(pid := pid.value);
        } else if k == "host" {
          h := h.(host := TrimSpace(v));
        }
      }
      i := i + 1;
    }
    holder := if h.pid == 0 then None else Some(h);
  }

  lemma DigitsTrimmed(n: nat)
    ensures TrimSpace(Digits(n)) == Digits(n) && '\n' !in Digits(n)
  {
    var s := Digits(n);
    assert IsDigit(s[0]) && IsDigit(s[|s| - 1]);
    TrimSpaceTrims(s);
    forall i | 0 <= i < |s| ensures s[i] != '\n' { assert IsDigit(s[i]); }
  }

  lemma HolderTextLines(p: Proc)
    requires '\n' !in p.host
    ensures Split(HolderText(p), '\n') == ["pid=" + Digits(p.pid), "host=" + p.host, ""]
  {
    var first, second := "pid=" + Digits(p.pid), "host=" + p.host;
    DigitsTrimmed(p.pid);
    assert HolderText(p) == first + ['\n'] + (second + ['\n'] + "");
    SplitCons(first, '\n', second + ['\n'] + "");
    SplitCons(second, '\n', "");
    SplitAtom("", '\n');
  }

  lemma PidLine(h: Holder, pid: nat)
    requires pid <= MAX_INT64
    ensures HolderLine(h, "pid=" + Digits(pid)) == Some(h.(pid := pid))
  {
    hide TrimSpace, ParseInt, Digits;
    assert "pid=" + Digits(pid) == "pid" + "=" + Digits(pid);
    CutLine("pid", '=', Digits(pid));
    DigitsTrimmed(pid);
    ParseDigits(pid);
  }

  lemma HostLine(h: Holder, host: string)
    ensures HolderLine(h, "host=" + host) == Some(h.(host := TrimSpace(host)))
  {
    hide TrimSpace, ParseInt;
    assert "host=" + host == "host" + "=" + host;
    CutLine("host", '=', host);
  }

  /** What is written is read back, but for white space around the host. */
  lemma HolderRoundTrip(p: Proc)
    requires '\n' !in p.host && 0 < p.pid <= MAX_INT64
    ensures ParseHolder(HolderText(p)) == Some(Holder(p.pid, TrimSpace(p.host)))
  {
    hide HolderText, TrimSpace, Digits, CutAt;
    var lines := Split(HolderText(p), '\n');
    HolderTextLines(p);
    PidLine(Holder(0, ""), p.pid);
    HostLine(Holder(p.pid, ""), p.host);
    ThreeLines(lines, Holder(0, ""), Holder(p.pid, ""), Holder(p.pid, TrimSpace(p.host)));
  }

  lemma ThreeLines(lines: seq<string>, h0: Holder, h1: Holder, h2: Holder)
    requires |lines| == 3 && lines[2] == "" && h0 == Holder(0, "")
    requires HolderLine(h0, lines[0]) == Some(h1) && HolderLine(h1, lines[1]) == Some(h2)
    ensures HolderUpTo(lines, 3) == Some(h2)
  {
    hide HolderLine;
    assert HolderUpTo(lines, 0) == Some(h0);
    assert HolderUpTo(lines, 1) == Some(h1);
    assert HolderUpTo(lines, 2) == Some(h2);
    assert HolderLine(h2, "") == Some(h2) by { BlankLine(h2); }
  }

  lemma BlankLine(h: Holder)
    ensures HolderLine(h, "") == Some(h)
  {}

  /** An empty or truncated file names nobody. */
  lemma EmptyNamesNobody()
    ensures ParseHolder("") == None
  {
    assert HolderUpTo([""], 0) == Some(Holder(0, ""));
    assert HolderUpTo([""], 1) == Some(Holder(0, ""));
  }

  // ---- Processes and their steps ------------------------------------------------------------------

  /** Where a process is in `Acquire`, `AcquireOrReplace` or `Release`. */
  datatype Phase =
    | Idle
    | Locked                 // TryLock went through, the sidecar is not written yet
    | Truncated              // WriteFile has opened the sidecar
    | Holding(wrote: bool)   // the handle is out; `wrote` says whether the sidecar write went through
    | Unlocking              // Release has dealt with the sidecar
    | Leaked                 // Unlock failed
    | Contended              // AcquireOrReplace found the lock taken
    | Signalling(pid: int)   // it read a holder it may signal
    | Waiting                // it polls after the signal
    | Dead

  predicate Critical(ph: Phase) { ph.Locked? || ph.Truncated? || ph.Holding? || ph.Unlocking? || ph.Leaked? }

  /** The lock, the sidecar, the processes; and four records of the past: who ever held the lock, who died holding it,
      whose removal of the sidecar failed, and which process signalled which pid. */
  datatype State = State(
    owner: Option<Proc>, sidecar: Option<string>, phases: map<Proc, Phase>,
    held: set<Proc>, crashed: set<Proc>, unremoved: set<Proc>, signals: set<(Proc, int)>)

  const INITIAL := State(None, None, map[], {}, {}, {}, {})

  function PhaseOf(s: State, p: Proc): Phase { if p in s.phases then s.phases[p] else Idle }

  function Goto(s: State, p: Proc, ph: Phase): State { s.(phases := s.phases[p := ph]) }

  /** One atomic step; `p` is the process that takes it. */
  datatype Step =
    | TryLock(p: Proc)
    | Contend(p: Proc)
    | Truncate(p: Proc)
    | Write(p: Proc, ok: bool)
    | Remove(p: Proc, ok: bool)
    | Unlock(p: Proc, ok: bool)
    | ReadSidecar(p: Proc)
    | Kill(p: Proc, ok: bool)
    | GiveUp(p: Proc)
    | Die(p: Proc)

  /** What a contender does with the sidecar it read: it signals a holder on its own host that is not itself, and gives
      up otherwise. */
  function Target(sidecar: Option<string>, p: Proc): Option<int> {
    match sidecar
    case None => None
    case Some(raw) =>
      match ParseHolder(raw)
      case None => None
      case Some(h) => if h.host != p.host || h.pid == p.pid then None else Some(h.pid)
  }

  predicate Enabled(s: State, e: Step) {
    var ph := PhaseOf(s, e.p);
    match e
    case TryLock(_) => (ph.Idle? || ph.Waiting?) && s.owner.None?
    case Contend(_) => ph.Idle? && s.owner.Some?
    case Truncate(_) => ph.Locked?
    case Write(_, ok) => ph.Truncated? || (ph.Locked? && !ok)
    case Remove(_, _) => ph.Holding?
    case Unlock(_, _) => ph.Unlocking?
    case ReadSidecar(_) => ph.Contended?
    case Kill(_, _) => ph.Signalling?
    case GiveUp(_) => ph.Waiting?
    case Die(_) => !ph.Dead?
  }

  function Next(s: State, e: Step): State
    requires Enabled(s, e)
  {
    var p := e.p;
    match e
    case TryLock(_) => Goto(s, p, Locked).(owner := Some(p), held := s.held + {p})
    case Contend(_) => Goto(s, p, Contended)
    case Truncate(_) => Goto(s, p, Truncated).(sidecar := Some(""))
    case Write(_, ok) => Goto(s, p, Holding(ok)).(sidecar := if ok then Some(HolderText(p)) else s.sidecar)
    case Remove(_, ok) =>
      Goto(s, p, Unlocking).(sidecar := if ok then None else s.sidecar,
                             unremoved := if ok then s.unremoved else s.unremoved + {p})
    case Unlock(_, ok) => if ok then Goto(s, p, Idle).(owner := None) else Goto(s, p, Leaked)
    case ReadSidecar(_) =>
      match Target(s.sidecar, p) {
        case None => Goto(s, p, Idle)
        case Some(pid) => Goto(s, p, Signalling(pid))
      }
    case Kill(_, ok) =>
      Goto(s, p, if ok then Waiting else Idle).(signals := s.signals + {(p, PhaseOf(s, p).pid)})
    case GiveUp(_) => Goto(s, p, Idle)
    case Die(_) =>
      var after := Goto(s, p, Dead);
      if s.owner == Some(p) then after.(owner := None, crashed := s.crashed + {p}) else after
  }

  /** Hosts as operating systems name them, and pids that are positive and fit the file. */
  predicate RealProc(p: Proc) { '\n' !in p.host && Trimmed(p.host) && 0 < p.pid <= MAX_INT64 }

  // ---- What every step keeps ----------------------------------------------------------------------

  /** Mutual exclusion: a process is between lock and unlock exactly when it owns the lock. */
  ghost predicate OwnerIsCritical(s: State) { forall p :: Critical(PhaseOf(s, p)) <==> s.owner == Some(p) }

  /** Whose the sidecar is: it names the current owner, or one that died holding the lock, or one that could not remove
      it; and one that is empty or garbled stems from such a process too. */
  ghost predicate SidecarIsExplained(s: State) {
    match s.sidecar
    case None => true
    case Some(raw) => exists q :: Explains(s, raw, q)
  }

  ghost predicate Explains(s: State, raw: string, q: Proc) {
    && q in s.held && RealProc(q) && (raw == HolderText(q) || raw == "")
    && (s.owner == Some(q) || q in s.crashed || q in s.unremoved)
  }

  /** Once its write went through, the holder's sidecar stays its own. */
  ghost predicate WrittenStays(s: State) {
    forall p :: PhaseOf(s, p) == Holding(true) ==> s.sidecar == Some(HolderText(p))
  }

  /** A pid that a process may signal belongs to another process of its host, and that process held the lock. */
  ghost predicate MayBeSignalled(s: State, p: Proc, pid: int) {
    exists q :: q in s.held && q.pid == pid && q.host == p.host && q != p
  }

  ghost predicate SignalsAreSafe(s: State) {
    && (forall p :: PhaseOf(s, p).Signalling? ==> MayBeSignalled(s, p, PhaseOf(s, p).pid))
    && (forall p, pid :: (p, pid) in s.signals ==> MayBeSignalled(s, p, pid))
  }

  /** A process about to unlock has removed the sidecar, or is on record for not having. */
  ghost predicate UnlockingRemoved(s: State) {
    forall p :: PhaseOf(s, p).Unlocking? ==> s.sidecar.None? || p in s.unremoved
  }

  ghost predicate HeldIsRecorded(s: State) {
    (s.owner.Some? ==> s.owner.value in s.held) && forall p :: p in s.held ==> RealProc(p)
  }

  ghost predicate Inv(s: State) {
    && OwnerIsCritical(s) && HeldIsRecorded(s) && UnlockingRemoved(s)
    && SidecarIsExplained(s) && WrittenStays(s) && SignalsAreSafe(s)
  }

  lemma InitialInv()
    ensures Inv(INITIAL)
  {}

  lemma OwnerKept(s: State, e: Step)
    requires OwnerIsCritical(s) && Enabled(s, e)
    ensures OwnerIsCritical(Next(s, e))
  {
    hide Target, HolderText, RealProc;
  }

  lemma WrittenKept(s: State, e: Step)
    requires OwnerIsCritical(s) && WrittenStays(s) && Enabled(s, e)
    ensures WrittenStays(Next(s, e))
  {
    hide Target, HolderText, RealProc;
  }

  lemma UnlockingKept(s: State, e: Step)
    requires OwnerIsCritical(s) && UnlockingRemoved(s) && Enabled(s, e)
    ensures UnlockingRemoved(Next(s, e))
  {
    hide Target, HolderText, RealProc;
    var t := Next(s, e);
    forall p | PhaseOf(t, p).Unlocking? ensures t.sidecar.None? || p in t.unremoved {
      assert Critical(PhaseOf(s, e.p)) ==> s.owner == Some(e.p);
      assert Critical(PhaseOf(s, p)) ==> s.owner == Some(p);
    }
  }

  lemma HeldKept(s: State, e: Step)
    requires HeldIsRecorded(s) && Enabled(s, e) && RealProc(e.p)
    ensures HeldIsRecorded(Next(s, e))
  {
    hide Target, HolderText, RealProc;
  }

  lemma SidecarKept(s: State, e: Step)
    requires Inv(s) && Enabled(s, e) && RealProc(e.p)
    ensures SidecarIsExplained(Next(s, e))
  {
    hide Target, HolderText, RealProc, SignalsAreSafe, WrittenStays;
    var t := Next(s, e);
    if t.sidecar.Some? {
      if e.Truncate? || (e.Write? && e.ok) {
        assert s.owner == Some(e.p);
        assert Explains(t, t.sidecar.value, e.p);
      } else {
        var q :| Explains(s, s.sidecar.value, q);
        assert Explains(t, t.sidecar.value, q);
      }
    }
  }

  /** Whom a readable sidecar lets a contender signal. */
  lemma TargetIsSafe(s: State, p: Proc)
    requires HeldIsRecorded(s) && SidecarIsExplained(s) && Target(s.sidecar, p).Some?
    ensures MayBeSignalled(s, p, Target(s.sidecar, p).value)
  {
    hide HolderText, ParseHolder;
    var raw := s.sidecar.value;
    var q :| Explains(s, raw, q);
    EmptyNamesNobody();
    HolderRoundTrip(q);
    TrimSpaceTrims(q.host);
  }

  lemma SignalsKept(s: State, e: Step)
    requires HeldIsRecorded(s) && SidecarIsExplained(s) && SignalsAreSafe(s) && Enabled(s, e)
    ensures SignalsAreSafe(Next(s, e))
  {
    hide Target, HolderText, RealProc, SidecarIsExplained;
    if e.ReadSidecar? && Target(s.sidecar, e.p).Some? {
      TargetIsSafe(s, e.p);
    }
    var t := Next(s, e);
    forall p, pid | MayBeSignalled(s, p, pid) ensures MayBeSignalled(t, p, pid) { StillMayBeSignalled(s, t, p, pid); }
    forall p | PhaseOf(t, p).Signalling? ensures MayBeSignalled(t, p, PhaseOf(t, p).pid) {
      if p == e.p && e.ReadSidecar? {
        assert PhaseOf(t, p).pid == Target(s.sidecar, p).value;
      } else {
        assert PhaseOf(t, p) == PhaseOf(s, p);
      }
    }
    forall p, pid | (p, pid) in t.signals ensures MayBeSignalled(t, p, pid) {
      assert MayBeSignalled(s, p, pid);
    }
  }

  lemma StillMayBeSignalled(s: State, t: State, p: Proc, pid: int)
    requires MayBeSignalled(s, p, pid) && s.held <= t.held
    ensures MayBeSignalled(t, p, pid)
  {}

  /** Every step of every process keeps the invariant. */
  lemma StepKeeps(s: State, e: Step)
    requires Inv(s) && Enabled(s, e) && RealProc(e.p)
    ensures Inv(Next(s, e))
  {
    hide OwnerIsCritical, HeldIsRecorded, UnlockingRemoved, SidecarIsExplained, WrittenStays, SignalsAreSafe, RealProc;
    OwnerKept(s, e);
    HeldKept(s, e);
    UnlockingKept(s, e);
    SidecarKept(s, e);
    WrittenKept(s, e);
    SignalsKept(s, e);
  }

  // ---- Runs ---------------------------------------------------------------------------------------

  /** Any interleaving of steps of any number of processes, from the start. */
  ghost predicate IsRun(states: seq<State>, steps: seq<Step>) {
    && |states| == |steps| + 1 && states[0] == INITIAL
    && forall k :: 0 <= k < |steps| ==>
         RealProc(steps[k].p) && Enabled(states[k], steps[k]) && states[k + 1] == Next(states[k], steps[k])
  }

  lemma {:induction false} RunKeeps(states: seq<State>, steps: seq<Step>, n: nat)
    requires IsRun(states, steps) && n <= |steps|
    ensures Inv(states[n])
  {
    hide Inv, Next, Enabled, RealProc;
    if n == 0 {
      InitialInv();
    } else {
      RunKeeps(states, steps, n - 1);
      StepKeeps(states[n - 1], steps[n - 1]);
    }
  }

  /** Over every interleaving: at most one process is between lock and unlock; a sidecar names the owner, or a process
      that died holding the lock, or one that could not remove it; and every pid that was signalled belongs to another
      process of the same host that held the lock. */
  lemma FlockSafety(states: seq<State>, steps: seq<Step>, n: nat)
    requires IsRun(states, steps) && n <= |steps|
    ensures var s := states[n];
            && (forall p, q :: Critical(PhaseOf(s, p)) && Critical(PhaseOf(s, q)) ==> p == q)
            && (forall q :: RealProc(q) && s.sidecar == Some(HolderText(q)) ==>
                 s.owner == Some(q) || q in s.crashed || q in s.unremoved)
            && (s.sidecar.Some? && s.owner.None? ==> s.crashed + s.unremoved != {})
            && (forall p, pid :: (p, pid) in s.signals ==>
                 exists q :: q in s.held && q.pid == pid && q.host == p.host && q != p)
  {
    hide HolderText, Next, Enabled, RealProc;
    RunKeeps(states, steps, n);
    var s := states[n];
    forall p, q | Critical(PhaseOf(s, p)) && Critical(PhaseOf(s, q)) ensures p == q {
      assert s.owner == Some(p);
    }
    forall q | RealProc(q) && s.sidecar == Some(HolderText(q))
      ensures s.owner == Some(q) || q in s.crashed || q in s.unremoved
    {
      var o :| Explains(s, s.sidecar.value, o);
      HolderTextNames(q, o);
    }
    forall p, pid | (p, pid) in s.signals
      ensures exists q :: q in s.held && q.pid == pid && q.host == p.host && q != p
    {
      assert MayBeSignalled(s, p, pid);
    }
  }

  /** A written sidecar determines its process. */
  lemma HolderTextNames(p: Proc, q: Proc)
    requires RealProc(p) && RealProc(q)
    ensures HolderText(p) == HolderText(q) <==> p == q
    ensures HolderText(p) != ""
  {
    hide ParseHolder;
    HolderRoundTrip(p);
    HolderRoundTrip(q);
    TrimSpaceTrims(p.host);
    TrimSpaceTrims(q.host);
  }

  /** While a process owns the lock nobody else touches the sidecar: no release deletes the sidecar of another live
      holder, and the holder's record stays what it wrote until it removes it. */
  lemma OnlyTheOwnerTouchesTheSidecar(states: seq<State>, steps: seq<Step>, n: nat)
    requires IsRun(states, steps) && n < |steps|
    requires states[n + 1].sidecar != states[n].sidecar
    ensures states[n].owner == Some(steps[n].p)
    ensures forall q :: q != steps[n].p ==> !Critical(PhaseOf(states[n], q)) && !Critical(PhaseOf(states[n + 1], q))
  {
    hide HolderText, RealProc, Target;
    RunKeeps(states, steps, n);
    RunKeeps(states, steps, n + 1);
    assert Critical(PhaseOf(states[n], steps[n].p));
  }

  /** When the holder's sidecar write went through, a contender of its host reads exactly the holder. */
  lemma ReplaceTargetsTheHolder(states: seq<State>, steps: seq<Step>, n: nat, p: Proc, holder: Proc)
    requires IsRun(states, steps) && n <= |steps| && PhaseOf(states[n], holder) == Holding(true)
    ensures Target(states[n].sidecar, p) == if holder.host != p.host || holder.pid == p.pid then None
        else Some(holder.pid)
  {
    hide HolderText, ParseHolder, Next, Enabled;
    RunKeeps(states, steps, n);
    assert states[n].owner == Some(holder);
    HolderRoundTrip(holder);
    TrimSpaceTrims(holder.host);
  }

  // ---- Whom a signal reaches ----------------------------------------------------------------------

  /** From one point of a run to another the process neither unlocks nor dies. */
  ghost predicate StaysLocked(steps: seq<Step>, q: Proc, start: nat, end: nat)
    requires end <= |steps|
  {
    forall k :: start <= k < end ==> steps[k] != Unlock(q, true) && steps[k] != Die(q)
  }

  /** Who owns the lock: a process that owned it earlier and has kept it, or one that has locked it since. */
  lemma {:induction false} OwnsExactly(states: seq<State>, steps: seq<Step>, q: Proc, start: nat, end: nat)
    requires IsRun(states, steps) && start <= end <= |steps|
    ensures states[end].owner == Some(q) <==>
            || (states[start].owner == Some(q) && StaysLocked(steps, q, start, end))
            || exists j :: start <= j < end && steps[j] == TryLock(q) && StaysLocked(steps, q, j + 1, end)
    decreases end
  {
    hide HolderText, Target, RealProc;
    if start < end {
      var k := end - 1;
      OwnsExactly(states, steps, q, start, k);
      RunKeeps(states, steps, k);
      OwnerNext(states[k], steps[k], q);
      if steps[k] == TryLock(q) {
        assert StaysLocked(steps, q, k + 1, end);
      } else if steps[k] != Unlock(q, true) && steps[k] != Die(q) {
        if j :| start <= j < k && steps[j] == TryLock(q) && StaysLocked(steps, q, j + 1, k) {
          assert StaysLocked(steps, q, j + 1, end);
        }
        if j :| start <= j < end && steps[j] == TryLock(q) && StaysLocked(steps, q, j + 1, end) {
          assert StaysLocked(steps, q, j + 1, k);
        }
      }
    }
  }

  lemma OwnerNext(s: State, e: Step, q: Proc)
    requires Inv(s) && Enabled(s, e)
    ensures Next(s, e).owner == Some(q) <==>
            e == TryLock(q) || (s.owner == Some(q) && e != Unlock(q, true) && e != Die(q))
  {
    hide HolderText, Target, RealProc, SidecarIsExplained, WrittenStays, SignalsAreSafe, HeldIsRecorded;
    assert Critical(PhaseOf(s, e.p)) <==> s.owner == Some(e.p);
  }

  /** A process about to signal has read the sidecar, and has done nothing since. */
  lemma {:induction false} ReadBefore(states: seq<State>, steps: seq<Step>, p: Proc, n: nat) returns (r: nat)
    requires IsRun(states, steps) && n <= |steps| && PhaseOf(states[n], p).Signalling?
    ensures r < n && steps[r] == ReadSidecar(p) && forall k :: r < k < n ==> steps[k].p != p
    ensures Target(states[r].sidecar, p) == Some(PhaseOf(states[n], p).pid)
  {
    hide HolderText, Target, RealProc;
    assert n > 0;
    if steps[n - 1].p == p {
      r := n - 1;
    } else {
      r := ReadBefore(states, steps, p, n - 1);
    }
  }

  /** What a contender reads before it signals is what one process wrote, whatever has become of that process. */
  lemma TargetWrote(s: State, p: Proc)
    requires Inv(s) && Target(s.sidecar, p).Some?
    ensures Target(s.sidecar, p).value > 0
    ensures var q := Proc(p.host, Target(s.sidecar, p).value as nat);
            s.sidecar == Some(HolderText(q)) && q in s.held && q != p
  {
    hide HolderText, ParseHolder, OwnerIsCritical, UnlockingRemoved, WrittenStays, SignalsAreSafe;
    var raw := s.sidecar.value;
    var q :| Explains(s, raw, q);
    EmptyNamesNobody();
    HolderRoundTrip(q);
    TrimSpaceTrims(q.host);
    assert q == Proc(p.host, q.pid);
  }

  /** Whom a Replace contender signals: always the process q that wrote the sidecar it has read; and that process owns
      the lock at the signal exactly when it owned it at the read and has neither unlocked nor died in between, or has
      locked it again in between and kept it. */
  lemma SignalReachesTheOwnerExactly(states: seq<State>, steps: seq<Step>, n: nat) returns (r: nat, q: Proc)
    requires IsRun(states, steps) && n < |steps| && steps[n].Kill?
    ensures var p := steps[n].p;
            && r < n && steps[r] == ReadSidecar(p) && (forall k :: r < k < n ==> steps[k].p != p)
            && q.host == p.host && q.pid == PhaseOf(states[n], p).pid && q != p
            && q in states[r].held && states[r].sidecar == Some(HolderText(q))
    ensures states[n].owner == Some(q) <==>
            || (states[r].owner == Some(q) && StaysLocked(steps, q, r, n))
            || exists j :: r <= j < n && steps[j] == TryLock(q) && StaysLocked(steps, q, j + 1, n)
  {
    hide HolderText, Target, RealProc, Inv, StaysLocked, Next;
    var p := steps[n].p;
    assert Enabled(states[n], steps[n]);
    r := ReadBefore(states, steps, p, n);
    RunKeeps(states, steps, r);
    TargetWrote(states[r], p);
    q := Proc(p.host, PhaseOf(states[n], p).pid as nat);
    OwnsExactly(states, steps, q, r, n);
  }

  /** A run grows by any step that is enabled at its end. */
  lemma Extend(states: seq<State>, steps: seq<Step>, e: Step) returns (moreStates: seq<State>, moreSteps: seq<Step>,
      last: State)
    requires IsRun(states, steps) && RealProc(e.p) && Enabled(states[|steps|], e)
    ensures IsRun(moreStates, moreSteps) && last == moreStates[|moreSteps|] == Next(states[|steps|], e)
  {
    moreStates, moreSteps, last := ExtendBy(states, steps, e);
  }

  lemma ExtendBy(states: seq<State>, steps: seq<Step>, e: Step) returns (moreStates: seq<State>, moreSteps: seq<Step>,
      last: State)
    requires IsRun(states, steps) && RealProc(e.p) && Enabled(states[|steps|], e)
    ensures IsRun(moreStates, moreSteps) && last == moreStates[|moreSteps|] == Next(states[|steps|], e)
    ensures moreStates[..|moreSteps|] == states && moreSteps == steps + [e]
  {
    last := Next(states[|steps|], e);
    moreStates, moreSteps := states + [last], steps + [e];
  }

  /** So a signal can miss the owner in two ways.  The first is a sidecar that was stale when it was read: a removal
      failed, and the process it names has released the lock. */
  lemma StaleSignal(a: Proc, b: Proc, c: Proc)
    returns (states: seq<State>, steps: seq<Step>)
    requires RealProc(a) && RealProc(b) && RealProc(c) && a != b && b != c && a != c && a.host == c.host
    ensures IsRun(states, steps)
    ensures var last := states[|steps|];
            (c, a.pid as int) in last.signals && last.owner == Some(b) && PhaseOf(last, a) == Idle
  {
    hide HolderText, ParseHolder, RealProc, Target, IsRun;
    var s;
    states, steps, s := Leftover(a);
    states, steps, s := Extend(states, steps, TryLock(b));
    states, steps, s := Extend(states, steps, Contend(c));
    SidecarOf(s, a, c);
    states, steps, s := Extend(states, steps, ReadSidecar(c));
    states, steps, s := Extend(states, steps, Kill(c, true));
  }

  /** The second needs no failure at all: the owner releases the lock between the read and the signal, and another
      process takes it. */
  lemma LateSignal(a: Proc, b: Proc, c: Proc)
    returns (states: seq<State>, steps: seq<Step>)
    requires RealProc(a) && RealProc(b) && RealProc(c) && a != b && b != c && a != c && a.host == c.host
    ensures IsRun(states, steps)
    ensures var last := states[|steps|];
            && (c, a.pid as int) in last.signals && last.owner == Some(b) && PhaseOf(last, a) == Idle
            && last.unremoved == {} && last.crashed == {}
  {
    hide HolderText, ParseHolder, RealProc, Target, IsRun;
    var s;
    states, steps, s := ReadWhileHeld(a, c);
    states, steps, s := Extend(states, steps, Remove(a, true));
    states, steps, s := Extend(states, steps, Unlock(a, true));
    states, steps, s := Extend(states, steps, TryLock(b));
    states, steps, s := Extend(states, steps, Kill(c, true));
  }

  // ---- Who can take the lock ----------------------------------------------------------------------

  /** A process that has not begun, or polls after its signal, can take the lock exactly when no process is between lock
      and unlock, and then owns it. */
  lemma LockableExactly(states: seq<State>, steps: seq<Step>, n: nat, p: Proc)
    requires IsRun(states, steps) && n <= |steps|
    ensures var s := states[n];
            Enabled(s, TryLock(p)) <==>
            (PhaseOf(s, p) == Idle || PhaseOf(s, p) == Waiting) && forall q :: !Critical(PhaseOf(s, q))
    ensures Enabled(states[n], TryLock(p)) ==>
              Next(states[n], TryLock(p)).owner == Some(p) && PhaseOf(Next(states[n], TryLock(p)), p) == Locked
  {
    hide HolderText, Target, RealProc, Critical;
    RunKeeps(states, steps, n);
    var s := states[n];
    if s.owner.Some? {
      assert Critical(PhaseOf(s, s.owner.value));
    }
  }

  /** When the owner unlocks or dies, everybody who waits or has not begun can take the lock at once; no other step
      frees it. */
  lemma FreedExactly(states: seq<State>, steps: seq<Step>, n: nat, q: Proc)
    requires IsRun(states, steps) && n < |steps| && states[n].owner == Some(q)
    ensures states[n + 1].owner == None <==> steps[n] == Unlock(q, true) || steps[n] == Die(q)
    ensures states[n + 1].owner == None ==>
              forall p :: PhaseOf(states[n + 1], p).Idle? || PhaseOf(states[n + 1], p).Waiting? ==>
                Enabled(states[n + 1], TryLock(p))
  {
    hide HolderText, Target, RealProc, SidecarIsExplained, WrittenStays, SignalsAreSafe, HeldIsRecorded,
      UnlockingRemoved, Enabled;
    RunKeeps(states, steps, n);
    StepFrees(states[n], steps[n], q);
    forall p | states[n + 1].owner == None && (PhaseOf(states[n + 1], p).Idle? || PhaseOf(states[n + 1], p).Waiting?)
      ensures Enabled(states[n + 1], TryLock(p))
    {
      WaitingCanLock(states[n + 1], p);
    }
  }

  lemma StepFrees(s: State, e: Step, q: Proc)
    requires OwnerIsCritical(s) && Enabled(s, e) && s.owner == Some(q)
    ensures Next(s, e).owner == None <==> e == Unlock(q, true) || e == Die(q)
  {
    hide HolderText, Target, RealProc;
    assert Critical(PhaseOf(s, e.p)) <==> e.p == q;
  }

  lemma WaitingCanLock(s: State, p: Proc)
    requires s.owner == None && (PhaseOf(s, p).Idle? || PhaseOf(s, p).Waiting?)
    ensures Enabled(s, TryLock(p))
  {}

  /** What Replace is for: the contender signals the holder, the holder dies or releases, and the contender owns the
      lock. */
  lemma ReplaceSucceeds(a: Proc, c: Proc, dies: bool)
    returns (states: seq<State>, steps: seq<Step>)
    requires RealProc(a) && RealProc(c) && a != c && a.host == c.host
    ensures IsRun(states, steps) && |steps| >= 1 && steps[|steps| - 1] == TryLock(c)
    ensures var before, last := states[|steps| - 1], states[|steps|];
            && PhaseOf(before, c) == Waiting && PhaseOf(before, a) == (if dies then Dead else Idle)
            && (c, a.pid as int) in last.signals && last.owner == Some(c) && PhaseOf(last, c) == Locked
  {
    hide HolderText, ParseHolder, RealProc, Target, IsRun;
    var s;
    states, steps, s := ReadWhileHeld(a, c);
    states, steps, s := Extend(states, steps, Kill(c, true));
    if dies {
      states, steps, s := Extend(states, steps, Die(a));
    } else {
      states, steps, s := Extend(states, steps, Remove(a, true));
      states, steps, s := Extend(states, steps, Unlock(a, true));
    }
    states, steps, s := ExtendBy(states, steps, TryLock(c));
  }

  lemma ReadWhileHeld(a: Proc, c: Proc) returns (states: seq<State>, steps: seq<Step>, s: State)
    requires RealProc(a) && RealProc(c) && a != c && a.host == c.host
    ensures IsRun(states, steps) && s == states[|steps|]
    ensures s == State(Some(a), Some(HolderText(a)), map[a := Holding(true), c := Signalling(a.pid)], {a}, {}, {}, {})
  {
    hide HolderText, ParseHolder, RealProc, Target, IsRun;
    states, steps := [INITIAL], [];
    assert IsRun(states, steps) by { NothingRun(); }
    states, steps, s := Extend(states, steps, TryLock(a));
    states, steps, s := Extend(states, steps, Truncate(a));
    states, steps, s := Extend(states, steps, Write(a, true));
    states, steps, s := Extend(states, steps, Contend(c));
    SidecarOf(s, a, c);
    states, steps, s := Extend(states, steps, ReadSidecar(c));
  }

  /** What a failed removal leaves behind. */
  lemma Leftover(a: Proc) returns (states: seq<State>, steps: seq<Step>, s: State)
    requires RealProc(a)
    ensures IsRun(states, steps) && s == states[|steps|]
    ensures s == State(None, Some(HolderText(a)), map[a := Idle], {a}, {}, {a}, {})
  {
    hide HolderText, RealProc, IsRun;
    states, steps := [INITIAL], [];
    assert IsRun(states, steps) by { NothingRun(); }
    states, steps, s := Extend(states, steps, TryLock(a));
    states, steps, s := Extend(states, steps, Truncate(a));
    states, steps, s := Extend(states, steps, Write(a, true));
    states, steps, s := Extend(states, steps, Remove(a, false));
    states, steps, s := Extend(states, steps, Unlock(a, true));
  }

  lemma NothingRun()
    ensures IsRun([INITIAL], [])
  {}

  lemma SidecarOf(s: State, a: Proc, c: Proc)
    requires RealProc(a) && s.sidecar == Some(HolderText(a)) && a != c && a.host == c.host
    ensures Target(s.sidecar, c) == Some(a.pid)
  {
    hide HolderText, ParseHolder;
    HolderRoundTrip(a);
    TrimSpaceTrims(a.host);
  }
}

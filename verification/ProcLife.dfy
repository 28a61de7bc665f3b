/** The life of a process: what its state goes through on every run of the CAS protocol, that exit() is final, and what each
    call does to the table when nobody interferes. */
module ProcLife {
  import opened Base
  import opened Proc
  import opened ProcInv
  import opened ProcRuns

  // ---- The life cycle

  /** A slot goes from free to embryo to runnable to running; from there it yields, sleeps or exits, each through the negated
      state; a sleeper is woken or killed; a zombie is reaped and the slot free again. wait() calls off its own sleep. */
  predicate Edge(a: PState, b: PState) {
    match a
    case Unused => b == Embryo
    case Embryo => b == Runnable || b == Unused
    case Runnable => b == NegRunning
    case NegRunning => b == Running
    case Running => b == NegRunnable || b == NegSleeping || b == NegZombie
    case NegRunnable => b == Runnable
    case NegSleeping => b == Sleeping || b == Running
    case Sleeping => b == NegRunnable || b == Runnable
    case NegZombie => b == Zombie
    case Zombie => b == PreUnused
    case PreUnused => b == Unused
  }

  /** What a step may do to slot `p`: follow an edge, begin an incarnation when it becomes an embryo, and list the incarnation
      among the reaped when it stops being a zombie. */
  ghost predicate Follows(s: State, t: State, p: nat)
    requires p < |s.slots| == |t.slots|
  {
    var a, b := s.slots[p], t.slots[p];
    && (b.state == a.state || Edge(a.state, b.state))
    && b.incarnation == a.incarnation + (if a.state == Unused && b.state == Embryo then 1 else 0)
    && (a.state == Zombie && b.state == PreUnused ==> (p, a.incarnation) in t.reaped)
    && (forall e :: e in s.reaped ==> e in t.reaped)
    && (forall e :: e in t.reaped && e !in s.reaped && e.0 == p ==> a.state == Zombie && b.state == PreUnused && e.1 == a.incarnation)
  }

  lemma {:induction false} SchedFollows(s: State, c: nat, step: SchedStep, p: nat)
    requires Inv(s) && CanSched(s, c, step) && p < |s.slots|
    ensures |DoSched(s, c, step).slots| == |s.slots| && Follows(s, DoSched(s, c, step), p)
    ensures DoSched(s, c, step).slots[p].state == NegZombie ==> s.slots[p].state == NegZombie
  {
  }

  lemma {:induction false} LeaveFollows(s: State, c: nat, step: LeaveStep, p: nat)
    requires Inv(s) && CanLeave(s, c, step) && p < |s.slots|
    ensures |DoLeave(s, c, step).slots| == |s.slots| && Follows(s, DoLeave(s, c, step), p)
    ensures DoLeave(s, c, step).slots[p].state == NegZombie ==> s.slots[p].state == NegZombie || (step == Exit && Cur(s, c) == p)
  {
  }

  lemma {:induction false} WaitFollows(s: State, c: nat, step: WaitStep, p: nat)
    requires Inv(s) && CanWait(s, c, step) && p < |s.slots|
    ensures |DoWait(s, c, step).slots| == |s.slots| && Follows(s, DoWait(s, c, step), p)
    ensures DoWait(s, c, step).slots[p].state == NegZombie ==> s.slots[p].state == NegZombie
  {
  }

  lemma {:induction false} OtherFollows(s: State, c: nat, step: OtherStep, p: nat)
    requires Inv(s) && CanOther(s, c, step) && p < |s.slots|
    ensures |DoOther(s, c, step).slots| == |s.slots| && Follows(s, DoOther(s, c, step), p)
    ensures DoOther(s, c, step).slots[p].state == NegZombie ==> s.slots[p].state == NegZombie
  {
    if step.ForkFail? || step.ForkDone? {
      assert SlotOk(s, Cur(s, c));
    }
  }

  lemma {:induction false} StepFollows(s: State, step: Step, p: nat)
    requires Inv(s) && Can(s, step) && p < |s.slots|
    ensures |Do(s, step).slots| == |s.slots| && Follows(s, Do(s, step), p)
    ensures Do(s, step).slots[p].state == NegZombie ==> s.slots[p].state == NegZombie || IsExit(s, step, p)
  {
    match step
    case Sched(c, x) => SchedFollows(s, c, x, p);
    case Leave(c, x) => LeaveFollows(s, c, x, p);
    case Wait(c, x) => WaitFollows(s, c, x, p);
    case Other(c, x) => OtherFollows(s, c, x, p);
  }

  /** The CAS of exit() by process `p`. */
  predicate IsExit(s: State, step: Step, p: nat) {
    step.Leave? && step.l == Exit && CanLeave(s, step.c, step.l) && Cur(s, step.c) == p
  }

  /** On a run without a stale CAS every slot follows the life cycle from each state to the next. */
  lemma {:induction false} LifeCycle(run: seq<State>, steps: seq<Step>, i: nat, p: nat)
    requires IsRun(run, steps) && i < |steps| && forall k :: 0 <= k < i ==> !Stale(run[k], steps[k])
    requires p < |run[i].slots|
    ensures |run[i + 1].slots| == |run[i].slots| && Follows(run[i], run[i + 1], p)
  {
    RunKeeps(run, steps, i);
    StepFollows(run[i], steps[i], p);
  }

  // ---- Panics

  /** The state that a CAS finds is not the one that it needs, in a place where the kernel panics then; or sched() is entered by a
      process that is still running. */
  predicate Fails(s: State, step: Step)
    requires Can(s, step)
  {
    match step
    case Sched(c, x) => false
    case Leave(c, x) =>
      var st := s.slots[Cur(s, c)].state;
      if x == Yield || x == Sleep then st != Running else x == Switch && st == Running
    case Wait(c, x) =>
      if x == Resume || x == GiveUp then s.slots[Cur(s, c)].state != NegSleeping
      else x == Free && s.slots[s.slots[Cur(s, c)].pc.child].state != PreUnused
    case Other(c, x) =>
      if x == WakeDone then s.slots[s.cpus[c].waking.value].state != NegRunnable
      else x == ForkDone && s.slots[s.slots[Cur(s, c)].embryo.value].state != Embryo
  }

  /** These panics, and no others, are recorded. */
  lemma {:induction false} PanicIff(s: State, step: Step)
    requires Can(s, step)
    ensures Do(s, step).panicked <==> s.panicked || Fails(s, step)
  {
  }

  // ---- exit() is final

  /** The process in slot `p` has exited, and the slot has not been allocated since: it is on its way out, or a zombie, or has
      been reaped. */
  ghost predicate Exited(s: State, p: nat)
    requires p < |s.slots|
  {
    var x := s.slots[p];
    || x.state == NegZombie || x.state == Zombie
    || ((x.state == PreUnused || x.state == Unused) && (p, x.incarnation) in s.reaped)
  }

  /** While its state is negated, its CPU still runs it, or has the CAS before it that makes it a zombie; a zombie is not
      reaped yet; and no CPU has a reaped process. */
  ghost predicate Settled(s: State, p: nat)
    requires p < |s.slots|
  {
    var x := s.slots[p];
    && (x.state == NegZombie ==> exists c :: 0 <= c < |s.cpus| && Departing(s.cpus[c].phase, p))
    && (x.state == Zombie ==> (p, x.incarnation) !in s.reaped)
    && (x.state != NegZombie ==> forall c: nat :: !Current(s, c, p))
  }

  predicate Departing(ph: Phase, p: nat) {
    ph == On(p) || (ph.After? && ph.p == p && ph.n <= 2 && !ph.done)
  }

  lemma {:induction false} ExitedSettled(s: State, p: nat)
    requires Inv(s) && p < |s.slots| && Exited(s, p)
    ensures Settled(s, p)
  {
    assert OwnerOk(s, p);
    forall c: nat | c < |s.cpus| && s.cpus[c].waking == Some(p) ensures s.slots[p].state == NegRunnable {
      assert CpuOk(s, c);
    }
    forall r: nat | r < |s.slots| && s.slots[r].embryo == Some(p) ensures s.slots[p].state == Embryo {
      assert SlotOk(s, r);
    }
    forall r: nat | r < |s.slots| && (s.slots[r].pc == Reaping(p) || s.slots[r].pc == Freed(p)) ensures s.slots[p].state == PreUnused {
      assert SlotOk(s, r);
    }
    forall c: nat | c < |s.cpus| && Keeps(s.cpus[c].phase, p) && s.slots[p].state == NegZombie ensures Departing(s.cpus[c].phase, p) {
      assert CpuOk(s, c);
    }
    forall c: nat | Current(s, c, p) ensures s.slots[p].state in {NegRunning, Running, NegRunnable, NegSleeping, NegZombie} {
      assert CpuOk(s, c);
    }
  }

  /** A step that does not allocate the slot anew. */
  lemma {:induction false} StaysExited(s: State, t: State, p: nat)
    requires p < |s.slots| == |t.slots| && Follows(s, t, p) && Exited(s, p) && t.slots[p].incarnation == s.slots[p].incarnation
    ensures Exited(t, p)
  {
  }

  lemma {:induction false} ExitsNow(s: State, step: Step, p: nat)
    requires Inv(s) && IsExit(s, step, p)
    ensures Can(s, step) && p < |s.slots| == |Do(s, step).slots| && Exited(Do(s, step), p)
  {
    assert CpuOk(s, step.c);
  }

  /** The state after step `i` of a run, if that is the CAS of exit(). */
  lemma {:induction false} ExitsAt(run: seq<State>, steps: seq<Step>, i: nat, p: nat)
    requires IsRun(run, steps) && i < |steps| && forall k :: 0 <= k < i ==> !Stale(run[k], steps[k])
    requires IsExit(run[i], steps[i], p)
    ensures p < |run[i].slots| == |run[i + 1].slots| && Exited(run[i + 1], p) && run[i + 1].slots[p].incarnation == run[i].slots[p].incarnation
  {
    RunKeeps(run, steps, i);
    ExitsNow(run[i], steps[i], p);
    assert run[i + 1] == Do(run[i], steps[i]);
  }

  lemma {:induction false} SettledAt(run: seq<State>, steps: seq<Step>, n: nat, p: nat)
    requires IsRun(run, steps) && n < |run| && p < |run[n].slots| && Exited(run[n], p)
    requires forall k :: 0 <= k < n ==> !Stale(run[k], steps[k])
    ensures Settled(run[n], p) && !Dispatched(run, steps, n, p)
  {
    RunKeeps(run, steps, n);
    ExitedSettled(run[n], p);
    if n < |steps| {
      assert Can(run[n], steps[n]);
    }
  }

  /** Step `n` of the run picks process `p`. */
  predicate Dispatched(run: seq<State>, steps: seq<Step>, n: nat, p: nat) {
    n < |steps| && steps[n].Sched? && steps[n].s == Pick(p)
  }

  lemma {:induction false} Incarnations(run: seq<State>, steps: seq<Step>, i: nat, n: nat, p: nat)
    requires IsRun(run, steps) && i <= n < |run| && forall k :: 0 <= k < n ==> !Stale(run[k], steps[k])
    requires p < |run[i].slots|
    ensures |run[n].slots| == |run[i].slots| && run[i].slots[p].incarnation <= run[n].slots[p].incarnation
  {
    if i < n {
      Incarnations(run, steps, i, n - 1, p);
      LifeCycle(run, steps, n - 1, p);
    }
  }

  /** Once process `p` has made the CAS of exit(), it is never dispatched again before its slot has been reaped and allocated
      anew: until then it is on its way out, a zombie, or reaped. */
  lemma {:induction false} ExitIsFinal(run: seq<State>, steps: seq<Step>, i: nat, n: nat, p: nat)
    requires IsRun(run, steps) && i < n < |run| && forall k :: 0 <= k < n ==> !Stale(run[k], steps[k])
    requires IsExit(run[i], steps[i], p) && p < |run[i].slots|
    ensures
      && p < |run[n].slots|
      && (run[n].slots[p].incarnation == run[i].slots[p].incarnation ==> Exited(run[n], p) && Settled(run[n], p) && !Dispatched(run, steps, n, p))
  {
    ExitsAt(run, steps, i, p);
    ExitedUntil(run, steps, i + 1, n, p);
    if run[n].slots[p].incarnation == run[i].slots[p].incarnation {
      SettledAt(run, steps, n, p);
    }
  }

  lemma {:induction false} ExitedUntil(run: seq<State>, steps: seq<Step>, i: nat, n: nat, p: nat)
    requires IsRun(run, steps) && i <= n < |run| && forall k :: 0 <= k < n ==> !Stale(run[k], steps[k])
    requires p < |run[i].slots| && Exited(run[i], p)
    ensures p < |run[n].slots| && (run[n].slots[p].incarnation == run[i].slots[p].incarnation ==> Exited(run[n], p))
  {
    if i < n {
      ExitedUntil(run, steps, i, n - 1, p);
      Incarnations(run, steps, i, n - 1, p);
      ExitedNext(run, steps, n - 1, p);
    }
  }

  lemma {:induction false} ExitedNext(run: seq<State>, steps: seq<Step>, m: nat, p: nat)
    requires IsRun(run, steps) && m < |steps| && forall k :: 0 <= k < m ==> !Stale(run[k], steps[k])
    requires p < |run[m].slots|
    ensures p < |run[m + 1].slots| && run[m].slots[p].incarnation <= run[m + 1].slots[p].incarnation
    ensures Exited(run[m], p) && run[m + 1].slots[p].incarnation == run[m].slots[p].incarnation ==> Exited(run[m + 1], p)
  {
    LifeCycle(run, steps, m, p);
    if Exited(run[m], p) && run[m + 1].slots[p].incarnation == run[m].slots[p].incarnation {
      StaysExited(run[m], run[m + 1], p);
    }
  }

  /** Nobody becomes a zombie, or is reaped, without having called exit() in the same incarnation. */
  lemma {:induction false} ZombieExited(run: seq<State>, steps: seq<Step>, n: nat, p: nat) returns (i: nat)
    requires IsRun(run, steps) && n < |run| && forall k :: 0 <= k < n ==> !Stale(run[k], steps[k])
    requires p < |run[n].slots| && Exited(run[n], p)
    ensures i < n && p < |run[i].slots| && IsExit(run[i], steps[i], p)
    ensures run[i].slots[p].incarnation == run[n].slots[p].incarnation
  {
    assert n > 0;
    LastStep(run, steps, n - 1, p);
    if Exited(run[n - 1], p) {
      i := ZombieExited(run, steps, n - 1, p);
    } else {
      i := n - 1;
    }
  }

  /** Who has exited after a step had before, or does so with it. */
  lemma {:induction false} LastStep(run: seq<State>, steps: seq<Step>, m: nat, p: nat)
    requires IsRun(run, steps) && m < |steps| && forall k :: 0 <= k < m ==> !Stale(run[k], steps[k])
    requires p < |run[m + 1].slots| && Exited(run[m + 1], p)
    ensures p < |run[m].slots| && run[m].slots[p].incarnation == run[m + 1].slots[p].incarnation
    ensures Exited(run[m], p) || IsExit(run[m], steps[m], p)
  {
    RunKeeps(run, steps, m);
    assert run[m + 1] == Do(run[m], steps[m]);
    Sizes(run[m], steps[m]);
    StepFollows(run[m], steps[m], p);
    ExitedBefore(run[m], run[m + 1], p);
  }

  lemma {:induction false} ExitedBefore(s: State, t: State, p: nat)
    requires Inv(s) && p < |s.slots| == |t.slots| && Follows(s, t, p) && Exited(t, p)
    ensures t.slots[p].incarnation == s.slots[p].incarnation
    ensures t.slots[p].state != NegZombie || s.slots[p].state == NegZombie ==> Exited(s, p)
  {
    assert OwnerOk(s, p);
    if (p, s.slots[p].incarnation) in s.reaped {
      var i :| 0 <= i < |s.reaped| && s.reaped[i] == (p, s.slots[p].incarnation);
      assert Over(s, s.reaped[i]);
    }
  }

  lemma {:induction false} Sizes(s: State, step: Step)
    requires Inv(s) && Can(s, step)
    ensures |Do(s, step).slots| == |s.slots|
  {
    if |s.slots| > 0 {
      StepFollows(s, step, 0);
    }
  }

  // ---- Calls that nobody interferes with

  /** `t` is the state after the step. */
  ghost predicate Next(s: State, step: Step, t: State) {
    Can(s, step) && t == Do(s, step)
  }

  /** `t` is `s` with process `p` in state `st`, at `pc`, and CPU `c` in phase `ph`. */
  ghost predicate Becomes(s: State, t: State, c: nat, ph: Phase, p: nat, st: PState, pc: Pc) {
    && p < |s.slots| == |s.owner| == |t.owner| && c < |s.cpus| == |t.cpus|
    && t.slots == s.slots[p := s.slots[p].(state := st, pc := pc)] && t.reaped == s.reaped && t.panicked == s.panicked
    && t.cpus[c] == Cpu(ph, None)
  }

  lemma {:induction false} CasAlone(s: State, c: nat, p: nat, n: nat, done: bool) returns (t: State)
    requires c < |s.cpus| && s.cpus[c] == Cpu(After(p, n, done), None) && n < 3 && p < |s.slots| == |s.owner|
    ensures Next(s, Sched(c, PostCas), t)
    ensures
      var x := s.slots[p].state;
      var hit := (n == 0 && x == NegRunnable) || (n == 1 && x == NegSleeping) || (n == 2 && x == NegZombie);
      var to := if x == NegRunnable then Runnable else if x == NegSleeping then Sleeping else Zombie;
      Becomes(s, t, c, After(p, n + 1, done || hit), p, if hit then to else x, s.slots[p].pc)
  {
    t := Do(s, Sched(c, PostCas));
  }

  /** The post-switch block: a process that has left the CPU goes from the negated state to the state meant. */
  lemma {:induction false} BlockAlone(s: State, c: nat, p: nat) returns (s1: State, s2: State, s3: State, t: State)
    requires c < |s.cpus| && s.cpus[c] == Cpu(After(p, 0, false), None) && p < |s.slots| == |s.owner|
    requires s.slots[p].state == NegRunnable || s.slots[p].state == NegSleeping || s.slots[p].state == NegZombie
    ensures Next(s, Sched(c, PostCas), s1) && Next(s1, Sched(c, PostCas), s2) && Next(s2, Sched(c, PostCas), s3) && Next(s3, Sched(c, PostEnd), t)
    ensures
      var x := s.slots[p].state;
      Becomes(s, t, c, Idle, p, if x == NegRunnable then Runnable else if x == NegSleeping then Sleeping else Zombie, s.slots[p].pc)
  {
    s1 := CasAlone(s, c, p, 0, false);
    s2 := CasAlone(s1, c, p, 1, s1.cpus[c].phase.done);
    s3 := CasAlone(s2, c, p, 2, s2.cpus[c].phase.done);
    t := Do(s3, Sched(c, PostEnd));
  }

  /** yield(), sleep() and exit(), up to the switch to the scheduler. */
  lemma {:induction false} LeaveAlone(s: State, c: nat, p: nat, step: LeaveStep) returns (s1: State, s2: State, t: State)
    requires Inv(s) && RunsAt(s, c, Normal) && Cur(s, c) == p && s.slots[p].embryo.None? && (step == Yield || step == Sleep || step == Exit)
    ensures Next(s, Leave(c, step), s1) && Next(s2, Leave(c, Switch), t)
    ensures if step == Exit then Next(s1, Leave(c, ExitSched), s2) else s2 == s1
    ensures Becomes(s, t, c, After(p, 0, false), p, if step == Yield then NegRunnable else if step == Sleep then NegSleeping else NegZombie, Normal)
  {
    assert CpuOk(s, c);
    s1 := Do(s, Leave(c, step));
    s2 := if step == Exit then Do(s1, Leave(c, ExitSched)) else s1;
    t := Do(s2, Leave(c, Switch));
  }

  /** The whole of them: a process that yields is runnable again, one that sleeps is asleep, and one that exits is a zombie,
      which its parent's wait() can take; the CPU goes on with its scheduler, and nobody else is touched. */
  lemma {:induction false} DepartAlone(s: State, c: nat, p: nat, step: LeaveStep)
      returns (s1: State, s2: State, u: State, u1: State, u2: State, u3: State, t: State)
    requires Inv(s) && RunsAt(s, c, Normal) && Cur(s, c) == p && s.slots[p].embryo.None? && (step == Yield || step == Sleep || step == Exit)
    ensures Next(s, Leave(c, step), s1) && (if step == Exit then Next(s1, Leave(c, ExitSched), s2) else s2 == s1) && Next(s2, Leave(c, Switch), u)
    ensures Next(u, Sched(c, PostCas), u1) && Next(u1, Sched(c, PostCas), u2) && Next(u2, Sched(c, PostCas), u3) && Next(u3, Sched(c, PostEnd), t)
    ensures Becomes(s, t, c, Idle, p, if step == Yield then Runnable else if step == Sleep then Sleeping else Zombie, Normal)
    ensures step == Exit ==> forall d: nat :: RunsAt(t, d, Scanning) ==> CanWait(t, d, Take(p))
  {
    s1, s2, u := LeaveAlone(s, c, p, step);
    u1, u2, u3, t := BlockAlone(u, c, p);
    if step == Exit {
      ZombieTaken(t, p);
    }
  }

  lemma {:induction false} ZombieTaken(t: State, p: nat)
    requires p < |t.slots| && t.slots[p].state == Zombie
    ensures forall d: nat :: RunsAt(t, d, Scanning) ==> CanWait(t, d, Take(p))
  {
  }

  /** The scheduler runs a runnable process. */
  lemma {:induction false} DispatchAlone(s: State, c: nat, p: nat) returns (s1: State, t: State)
    requires Inv(s) && c < |s.cpus| && s.cpus[c] == Cpu(Idle, None) && p < |s.slots| && s.slots[p].state == Runnable
    ensures Next(s, Sched(c, Pick(p)), s1) && Next(s1, Sched(c, Dispatch), t)
    ensures Becomes(s, t, c, On(p), p, Running, s.slots[p].pc) && RunsAt(t, c, Normal)
  {
    assert SlotOk(s, p) && OwnerOk(s, p);
    s1 := Do(s, Sched(c, Pick(p)));
    t := Do(s1, Sched(c, Dispatch));
  }

  /** wakeup() makes a sleeper runnable, and may be called by a process, by one that exits, and by an interrupt of an idle CPU. */
  lemma {:induction false} WakeAlone(s: State, c: nat, q: nat) returns (s1: State, t: State)
    requires Inv(s) && c < |s.cpus| && q < |s.slots| && s.slots[q].state == Sleeping
    requires s.cpus[c] == Cpu(Idle, None) || RunsAt(s, c, Normal) || RunsAt(s, c, Exiting)
    ensures Next(s, Other(c, Wake(q)), s1) && Next(s1, Other(c, WakeDone), t)
    ensures Becomes(s, t, c, s.cpus[c].phase, q, Runnable, s.slots[q].pc)
  {
    s1 := Do(s, Other(c, Wake(q)));
    t := Do(s1, Other(c, WakeDone));
  }

  /** So does kill(). */
  lemma {:induction false} KillAlone(s: State, c: nat, q: nat) returns (t: State)
    requires Inv(s) && RunsAt(s, c, Normal) && q < |s.slots| && s.slots[q].state == Sleeping
    ensures Next(s, Other(c, Kill(q)), t) && Becomes(s, t, c, s.cpus[c].phase, q, Runnable, s.slots[q].pc)
  {
    t := Do(s, Other(c, Kill(q)));
  }

  /** `t` has the slots `slots`, and CPUs and everything else as in `s`. */
  ghost predicate OnlySlots(s: State, t: State, slots: seq<Slot>) {
    t.slots == slots && t.cpus == s.cpus && |t.owner| == |s.owner| && t.reaped == s.reaped && t.panicked == s.panicked
  }

  lemma {:induction false} AllocAlone(s: State, c: nat, p: nat, q: nat) returns (t: State)
    requires Inv(s) && RunsAt(s, c, Normal) && Cur(s, c) == p && s.slots[p].embryo.None? && q < |s.slots| && s.slots[q].state == Unused
    ensures p != q && Next(s, Other(c, Alloc(q)), t)
    ensures OnlySlots(s, t, s.slots[q := Slot(Embryo, Normal, None, s.slots[q].incarnation + 1)][p := s.slots[p].(embryo := Some(q))])
  {
    assert CpuOk(s, c);
    t := Do(s, Other(c, Alloc(q)));
  }

  lemma {:induction false} ForkEndsAlone(s: State, c: nat, p: nat, q: nat, step: OtherStep) returns (t: State)
    requires RunsAt(s, c, Normal) && Cur(s, c) == p && p != q && s.slots[p].embryo == Some(q) && q < |s.slots| && s.slots[q].state == Embryo
    requires step == ForkDone || step == ForkFail
    ensures Next(s, Other(c, step), t)
    ensures OnlySlots(s, t, s.slots[q := s.slots[q].(state := if step == ForkDone then Runnable else Unused)][p := s.slots[p].(embryo := None)])
  {
    t := Do(s, Other(c, step));
  }

  /** fork() makes a new process in a free slot, or leaves the slot free. */
  lemma {:induction false} ForkAlone(s: State, c: nat, p: nat, q: nat, step: OtherStep) returns (s1: State, t: State)
    requires Inv(s) && RunsAt(s, c, Normal) && Cur(s, c) == p && s.slots[p].embryo.None? && q < |s.slots| && s.slots[q].state == Unused
    requires step == ForkDone || step == ForkFail
    ensures Next(s, Other(c, Alloc(q)), s1) && Next(s1, Other(c, step), t)
    ensures OnlySlots(s, t, s.slots[q := Slot(if step == ForkDone then Runnable else Unused, Normal, None, s.slots[q].incarnation + 1)])
  {
    s1 := AllocAlone(s, c, p, q);
    t := ForkEndsAlone(s1, c, p, q, step);
    assert t.slots == s.slots[q := t.slots[q]];
  }

  /** The first half of wait(): a zombie is taken. */
  lemma {:induction false} TakeAlone(s: State, c: nat, p: nat, q: nat) returns (s1: State, t: State)
    requires Inv(s) && RunsAt(s, c, Normal) && Cur(s, c) == p && s.slots[p].embryo.None? && q < |s.slots| && s.slots[q].state == Zombie
    ensures p != q && Next(s, Wait(c, Start), s1) && Next(s1, Wait(c, Take(q)), t)
    ensures t.slots == s.slots[q := s.slots[q].(state := PreUnused)][p := s.slots[p].(state := NegSleeping, pc := Reaping(q))]
    ensures t.cpus == s.cpus && |t.owner| == |s.owner| && t.panicked == s.panicked && t.reaped == s.reaped + [(q, s.slots[q].incarnation)]
  {
    assert CpuOk(s, c);
    s1 := Do(s, Wait(c, Start));
    t := Do(s1, Wait(c, Take(q)));
  }

  /** wait() takes a zombie and frees its slot, and the parent goes on. */
  lemma {:induction false} WaitAlone(s: State, c: nat, p: nat, q: nat) returns (s1: State, s2: State, s3: State, t: State)
    requires Inv(s) && RunsAt(s, c, Normal) && Cur(s, c) == p && s.slots[p].embryo.None? && q < |s.slots| && s.slots[q].state == Zombie
    ensures Next(s, Wait(c, Start), s1) && Next(s1, Wait(c, Take(q)), s2) && Next(s2, Wait(c, Resume), s3) && Next(s3, Wait(c, Free), t)
    ensures t.slots == s.slots[q := s.slots[q].(state := Unused)] && t.cpus == s.cpus && t.panicked == s.panicked
    ensures t.reaped == s.reaped + [(q, s.slots[q].incarnation)]
  {
    assert CpuOk(s, c);
    s1, s2 := TakeAlone(s, c, p, q);
    s3 := Do(s2, Wait(c, Resume));
    t := Do(s3, Wait(c, Free));
  }

  /** wait() without children, or when killed, gives up, and the parent goes on. */
  lemma {:induction false} GiveUpAlone(s: State, c: nat, p: nat) returns (s1: State, t: State)
    requires Inv(s) && RunsAt(s, c, Normal) && Cur(s, c) == p && s.slots[p].embryo.None?
    ensures Next(s, Wait(c, Start), s1) && Next(s1, Wait(c, GiveUp), t)
    ensures t.slots == s.slots && t.cpus == s.cpus && t.panicked == s.panicked
  {
    assert CpuOk(s, c);
    s1 := Do(s, Wait(c, Start));
    t := Do(s1, Wait(c, GiveUp));
  }

  /** wait() for children that live on goes to sleep, as sleep() does. */
  lemma {:induction false} SleepAlone(s: State, c: nat, p: nat) returns (s1: State, s2: State, t: State)
    requires Inv(s) && RunsAt(s, c, Normal) && Cur(s, c) == p && s.slots[p].embryo.None?
    ensures Next(s, Wait(c, Start), s1) && Next(s1, Wait(c, GoToSleep), s2) && Next(s2, Leave(c, Switch), t)
    ensures Becomes(s, t, c, After(p, 0, false), p, NegSleeping, Normal)
  {
    assert CpuOk(s, c);
    s1 := Do(s, Wait(c, Start));
    s2 := Do(s1, Wait(c, GoToSleep));
    t := Do(s2, Leave(c, Switch));
  }
}

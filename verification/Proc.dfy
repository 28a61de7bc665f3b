/** The process table of proc.c, whose lock is replaced by compare-and-swap on `state`. Each step is one CAS or
    store of one CPU; CPUs interleave freely. `parent`, `chan`, `pid` and `killed` only restrict which slot a step
    may aim at, so the steps here may aim at any slot. */
module Proc {
  import opened Base

  /** enum procstate; the Neg forms are the negated values that mark an unfinished transition. */
  datatype PState = Unused | Embryo | Sleeping | Runnable | Running | Zombie | PreUnused
                  | NegSleeping | NegRunnable | NegRunning | NegZombie

  /** Where the kernel thread of a process is, while a CPU runs it. */
  datatype Pc =
    | Normal                 // anywhere else
    | Leaving                // in sched(), its state already negated
    | Scanning               // in wait(), looking for a zombie
    | Reaping(child: nat)    // in wait(), after ZOMBIE -> PRE_UNUSED
    | Freed(child: nat)      // in wait(), running again, before PRE_UNUSED -> UNUSED
    | Exiting                // in exit(), after RUNNING -> -ZOMBIE

  /** `incarnation` counts the times the slot was allocated; `embryo` is the slot a fork() in progress has allocated. */
  datatype Slot = Slot(state: PState, pc: Pc, embryo: Option<nat>, incarnation: nat)

  /** What a CPU is doing. In After(p, n, done) it is back in scheduler() with n of the three CAS of the post-switch
      block executed; `done` says whether such a CAS, by this CPU or another, has since moved the process on: bookkeeping
      for the invariant, never read by a step. */
  datatype Phase =
    | Idle
    | Picked(p: nat)
    | On(p: nat)
    | After(p: nat, n: nat, done: bool)

  /** `waking` is the slot on which this CPU is between the two CAS of wakeup1(). */
  datatype Cpu = Cpu(phase: Phase, waking: Option<nat>)

  /** Who may change a slot: bookkeeping for the invariant, never read by a step. */
  datatype Owner = Nobody | OnCpu(c: nat) | Waker(c: nat) | Forker(p: nat) | Reaper(p: nat)

  /** `reaped` lists the (slot, incarnation) pairs taken by wait(); `panicked` records a failed CAS that panics. */
  datatype State = State(slots: seq<Slot>, cpus: seq<Cpu>, owner: seq<Owner>, reaped: seq<(nat, nat)>, panicked: bool)

  /** Steps of scheduler() on a CPU. */
  datatype SchedStep = Pick(p: nat) | Dispatch | PostCas | PostEnd

  /** Steps of yield(), sleep(), sched() and exit() by the process on a CPU. */
  datatype LeaveStep = Yield | Sleep | Exit | ExitSched | Switch

  /** Steps of wait() by the process on a CPU. */
  datatype WaitStep = Start | Take(q: nat) | Resume | Free | GiveUp | GoToSleep

  /** Steps of wakeup1(), kill(), allocproc() and fork(), aimed at another slot. */
  datatype OtherStep = Wake(q: nat) | WakeDone | Kill(q: nat) | Alloc(q: nat) | ForkFail | ForkDone

  datatype Step = Sched(c: nat, s: SchedStep) | Leave(c: nat, l: LeaveStep) | Wait(c: nat, w: WaitStep) | Other(c: nat, o: OtherStep)

  // ---- Steps

  /** CPU `c` runs the kernel thread of a process, which is at `pc`, and is not inside wakeup1(). */
  predicate RunsAt(s: State, c: nat, pc: Pc) {
    Runs(s, c) && s.slots[Cur(s, c)].pc == pc
  }

  predicate Runs(s: State, c: nat) {
    && c < |s.cpus| && s.cpus[c].waking.None? && s.cpus[c].phase.On?
    && s.cpus[c].phase.p < |s.slots| == |s.owner|
  }

  /** The process on CPU `c`. */
  function Cur(s: State, c: nat): nat
    requires c < |s.cpus| && !s.cpus[c].phase.Idle?
  {
    s.cpus[c].phase.p
  }

  function SetState(s: State, p: nat, st: PState): State
    requires p < |s.slots|
  {
    s.(slots := s.slots[p := s.slots[p].(state := st)])
  }

  function SetPc(s: State, p: nat, pc: Pc): State
    requires p < |s.slots|
  {
    s.(slots := s.slots[p := s.slots[p].(pc := pc)])
  }

  function SetEmbryo(s: State, p: nat, q: Option<nat>): State
    requires p < |s.slots|
  {
    s.(slots := s.slots[p := s.slots[p].(embryo := q)])
  }

  function SetCpu(s: State, c: nat, cpu: Cpu): State
    requires c < |s.cpus|
  {
    s.(cpus := s.cpus[c := cpu])
  }

  function SetOwner(s: State, p: nat, o: Owner): State
    requires p < |s.owner|
  {
    s.(owner := s.owner[p := o])
  }

  /** cas(&slots[p].state, from, to) in a place where failure panics. */
  function CasOrPanic(s: State, p: nat, from: PState, to: PState): (t: State)
    requires p < |s.slots|
    ensures |t.slots| == |s.slots| && t.cpus == s.cpus && t.owner == s.owner
  {
    if s.slots[p].state == from then SetState(s, p, to) else s.(panicked := true)
  }

  /** cas(&slots[p].state, from, to) in a place where failure is ignored. */
  function Cas(s: State, p: nat, from: PState, to: PState): (t: State)
    requires p < |s.slots|
    ensures |t.slots| == |s.slots| && t.cpus == s.cpus && t.owner == s.owner
  {
    if s.slots[p].state == from then SetState(s, p, to) else s
  }

  /** The n-th CAS of the post-switch block: what it expects and what it stores. */
  function PostFrom(n: nat): PState {
    if n == 0 then NegRunnable else if n == 1 then NegSleeping else NegZombie
  }

  function PostTo(n: nat): PState {
    if n == 0 then Runnable else if n == 1 then Sleeping else Zombie
  }

  /** Every CPU that has left process `p` and not finished its block learns that `p` has been moved on. */
  function MovedOn(cpus: seq<Cpu>, p: nat): (r: seq<Cpu>)
    ensures |r| == |cpus|
  {
    seq(|cpus|, d requires 0 <= d < |cpus| =>
      if cpus[d].phase.After? && cpus[d].phase.p == p then cpus[d].(phase := cpus[d].phase.(done := true)) else cpus[d])
  }

  predicate CanSched(s: State, c: nat, step: SchedStep) {
    && c < |s.cpus| && s.cpus[c].waking.None? && |s.owner| == |s.slots|
    && var ph := s.cpus[c].phase;
    match step
    case Pick(p) => ph.Idle? && p < |s.slots| && s.slots[p].state == Runnable
    case Dispatch => ph.Picked? && ph.p < |s.slots|
    case PostCas => ph.After? && ph.n < 3 && ph.p < |s.slots|
    case PostEnd => ph.After? && ph.n == 3
  }

  function DoSched(s: State, c: nat, step: SchedStep): State
    requires CanSched(s, c, step)
  {
    var ph := s.cpus[c].phase;
    match step
    case Pick(p) => SetCpu(SetOwner(SetState(s, p, NegRunning), p, OnCpu(c)), c, Cpu(Picked(p), None))
    case Dispatch => SetCpu(Cas(s, ph.p, NegRunning, Running), c, Cpu(On(ph.p), None))
    case PostCas =>
      var hit := s.slots[ph.p].state == PostFrom(ph.n);
      var t := SetCpu(Cas(s, ph.p, PostFrom(ph.n), PostTo(ph.n)), c, Cpu(After(ph.p, ph.n + 1, ph.done), None));
      if hit then SetOwner(t, ph.p, Nobody).(cpus := MovedOn(t.cpus, ph.p)) else t
    case PostEnd => SetCpu(s, c, Cpu(Idle, None))
  }

  predicate CanLeave(s: State, c: nat, step: LeaveStep) {
    match step
    case Yield => RunsAt(s, c, Normal)
    case Sleep => RunsAt(s, c, Normal)
    case Exit => RunsAt(s, c, Normal) && s.slots[Cur(s, c)].embryo.None?
    case ExitSched => RunsAt(s, c, Exiting)
    case Switch => RunsAt(s, c, Leaving)
  }

  function DoLeave(s: State, c: nat, step: LeaveStep): State
    requires CanLeave(s, c, step)
  {
    var p := Cur(s, c);
    match step
    case Yield => SetPc(CasOrPanic(s, p, Running, NegRunnable), p, Leaving)
    case Sleep => SetPc(CasOrPanic(s, p, Running, NegSleeping), p, Leaving)
    case Exit => SetPc(Cas(s, p, Running, NegZombie), p, Exiting)
    case ExitSched => SetPc(s, p, Leaving)
    case Switch =>
      SetPc(SetCpu(s, c, Cpu(After(p, 0, false), None)), p, Normal).(panicked := s.panicked || s.slots[p].state == Running)
  }

  predicate CanWait(s: State, c: nat, step: WaitStep) {
    match step
    case Start => RunsAt(s, c, Normal) && s.slots[Cur(s, c)].embryo.None?
    case Take(q) => RunsAt(s, c, Scanning) && q < |s.slots| && s.slots[q].state == Zombie
    case Resume => Runs(s, c) && s.slots[Cur(s, c)].pc.Reaping?
    case Free => Runs(s, c) && s.slots[Cur(s, c)].pc.Freed? && s.slots[Cur(s, c)].pc.child < |s.slots|
    case GiveUp => RunsAt(s, c, Scanning)
    case GoToSleep => RunsAt(s, c, Scanning)
  }

  function DoWait(s: State, c: nat, step: WaitStep): State
    requires CanWait(s, c, step)
  {
    var p := Cur(s, c);
    match step
    case Start => SetPc(Cas(s, p, Running, NegSleeping), p, Scanning)
    case Take(q) =>
      SetPc(SetOwner(SetState(s, q, PreUnused), q, Reaper(p)), p, Reaping(q))
      .(reaped := s.reaped + [(q, s.slots[q].incarnation)])
    case Resume => SetPc(CasOrPanic(s, p, NegSleeping, Running), p, Freed(s.slots[p].pc.child))
    case Free =>
      var q := s.slots[p].pc.child;
      SetPc(SetOwner(CasOrPanic(s, q, PreUnused, Unused), q, Nobody), p, Normal)
    case GiveUp => SetPc(CasOrPanic(s, p, NegSleeping, Running), p, Normal)
    case GoToSleep => SetPc(s, p, Leaving)
  }

  predicate CanOther(s: State, c: nat, step: OtherStep) {
    match step
    case Wake(q) =>
      && c < |s.cpus| && q < |s.slots| == |s.owner| && s.slots[q].state == Sleeping
      && (s.cpus[c] == Cpu(Idle, None) || RunsAt(s, c, Normal) || RunsAt(s, c, Exiting))
    case WakeDone => c < |s.cpus| && s.cpus[c].waking.Some? && s.cpus[c].waking.value < |s.slots| == |s.owner|
    case Kill(q) => RunsAt(s, c, Normal) && q < |s.slots| && s.slots[q].state == Sleeping
    case Alloc(q) => RunsAt(s, c, Normal) && s.slots[Cur(s, c)].embryo.None? && q < |s.slots| && s.slots[q].state == Unused
    case ForkFail => RunsAt(s, c, Normal) && s.slots[Cur(s, c)].embryo.Some? && s.slots[Cur(s, c)].embryo.value < |s.slots|
    case ForkDone => RunsAt(s, c, Normal) && s.slots[Cur(s, c)].embryo.Some? && s.slots[Cur(s, c)].embryo.value < |s.slots|
  }

  function DoOther(s: State, c: nat, step: OtherStep): State
    requires CanOther(s, c, step)
  {
    match step
    case Wake(q) => SetCpu(SetOwner(SetState(s, q, NegRunnable), q, Waker(c)), c, s.cpus[c].(waking := Some(q)))
    case WakeDone =>
      var q := s.cpus[c].waking.value;
      SetCpu(SetOwner(CasOrPanic(s, q, NegRunnable, Runnable), q, Nobody), c, s.cpus[c].(waking := None))
    case Kill(q) => SetState(s, q, Runnable)
    case Alloc(q) =>
      var t := SetOwner(s.(slots := s.slots[q := Slot(Embryo, Normal, None, s.slots[q].incarnation + 1)]), q, Forker(Cur(s, c)));
      SetEmbryo(t, Cur(s, c), Some(q))
    case ForkFail =>
      var q := s.slots[Cur(s, c)].embryo.value;
      SetEmbryo(SetOwner(SetState(s, q, Unused), q, Nobody), Cur(s, c), None)
    case ForkDone =>
      var q := s.slots[Cur(s, c)].embryo.value;
      SetEmbryo(SetOwner(CasOrPanic(s, q, Embryo, Runnable), q, Nobody), Cur(s, c), None)
  }

  predicate Can(s: State, step: Step) {
    match step
    case Sched(c, x) => CanSched(s, c, x)
    case Leave(c, x) => CanLeave(s, c, x)
    case Wait(c, x) => CanWait(s, c, x)
    case Other(c, x) => CanOther(s, c, x)
  }

  function Do(s: State, step: Step): State
    requires Can(s, step)
  {
    match step
    case Sched(c, x) => DoSched(s, c, x)
    case Leave(c, x) => DoLeave(s, c, x)
    case Wait(c, x) => DoWait(s, c, x)
    case Other(c, x) => DoOther(s, c, x)
  }

  /** A CAS of the post-switch block that succeeds on a process that, by then, another CPU is running again or is
      between the two CAS of waking. */
  predicate Stale(s: State, step: Step) {
    && step.Sched? && step.s.PostCas? && CanSched(s, step.c, PostCas)
    && s.slots[Cur(s, step.c)].state == PostFrom(s.cpus[step.c].phase.n)
    && exists d :: 0 <= d < |s.cpus| && Busy(s.cpus[d], Cur(s, step.c))
  }

  /** The CPU is running process `p`, or waking it. */
  predicate Busy(cpu: Cpu, p: nat) {
    cpu.phase == On(p) || cpu.waking == Some(p)
  }
}

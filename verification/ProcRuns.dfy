/** Runs of the CAS protocol: what holds in all of them, and what a stale CAS can do. */
module ProcRuns {
  import opened Base
  import opened Proc
  import opened ProcInv

  /** After userinit(): the first process is RUNNABLE, every other slot is UNUSED, and every CPU enters scheduler(). */
  predicate Init(s: State) {
    && |s.owner| == |s.slots| && |s.slots| > 0
    && s.slots[0] == Slot(Runnable, Normal, None, 1)
    && (forall p :: 1 <= p < |s.slots| ==> s.slots[p] == Slot(Unused, Normal, None, 0))
    && (forall p :: 0 <= p < |s.owner| ==> s.owner[p] == Nobody)
    && (forall c :: 0 <= c < |s.cpus| ==> s.cpus[c] == Cpu(Idle, None))
    && s.reaped == [] && !s.panicked
  }

  ghost predicate IsRun(run: seq<State>, steps: seq<Step>) {
    && |run| == |steps| + 1 && Init(run[0])
    && forall i {:trigger steps[i]} :: 0 <= i < |steps| ==> Can(run[i], steps[i]) && run[i + 1] == Do(run[i], steps[i])
  }

  /** CPU `c` has process `p` as its current process. */
  predicate Current(s: State, c: nat, p: nat) {
    c < |s.cpus| && (s.cpus[c].phase == Picked(p) || s.cpus[c].phase == On(p))
  }

  /** What the CAS protocol is for. */
  ghost predicate Safe(s: State) {
    && (forall c: nat, d: nat, p: nat :: Current(s, c, p) && Current(s, d, p) ==> c == d)
    && (forall c: nat, p: nat :: Current(s, c, p) && p < |s.slots| ==> !Stable(s.slots[p].state))
    && (forall c: nat :: c < |s.cpus| ==> WakesAlone(s, c))
    && (forall i, j :: 0 <= i < j < |s.reaped| ==> s.reaped[i] != s.reaped[j])
    && !s.panicked
  }

  /** While CPU `c` is between the two CAS of wakeup1(), the process it wakes stays as the first CAS left it. */
  predicate WakesAlone(s: State, c: nat)
    requires c < |s.cpus|
  {
    var w := s.cpus[c].waking;
    w.Some? && w.value < |s.slots| ==> s.slots[w.value].state == NegRunnable
  }

  lemma {:induction false} InvIsSafe(s: State)
    requires Inv(s)
    ensures Safe(s)
  {
    forall c: nat, p: nat | Current(s, c, p) ensures p < |s.slots| && s.owner[p] == OnCpu(c) && !Stable(s.slots[p].state) {
      assert CpuOk(s, c);
      assert OwnerOk(s, p);
    }
    forall c: nat | c < |s.cpus| ensures WakesAlone(s, c) {
      assert CpuOk(s, c);
    }
  }

  /** A stale CAS breaks the protocol at once: the process is no longer in the state that its CPU left it in. */
  lemma {:induction false} StaleIsUnsafe(s: State, step: Step)
    requires Inv(s) && Can(s, step) && Stale(s, step)
    ensures !Safe(Do(s, step))
  {
    var t, p := Do(s, step), Cur(s, step.c);
    var d: nat :| d < |s.cpus| && Busy(s.cpus[d], p);
    assert CpuOk(s, d) && CpuOk(s, step.c);
    assert t.cpus[d] == s.cpus[d];
    if s.cpus[d].phase == On(p) {
      assert Current(t, d, p) && Stable(t.slots[p].state);
    } else {
      assert !WakesAlone(t, d);
    }
  }

  /** The condition is exact, step by step: from a state of the invariant, a step leads to a safe state if and only if
      it is not a stale CAS, and then the invariant holds again. */
  lemma {:induction false} OnlyStaleBreaks(s: State, step: Step)
    requires Inv(s) && Can(s, step)
    ensures Safe(Do(s, step)) <==> !Stale(s, step)
    ensures Inv(Do(s, step)) <==> !Stale(s, step)
  {
    if Stale(s, step) {
      StaleIsUnsafe(s, step);
      if Inv(Do(s, step)) { InvIsSafe(Do(s, step)); }
    } else {
      StepKeeps(s, step);
      InvIsSafe(Do(s, step));
    }
  }

  lemma {:induction false} InitIsInv(s: State)
    requires Init(s)
    ensures Inv(s)
  {
    forall p | 0 <= p < |s.slots| ensures OwnerOk(s, p) && SlotOk(s, p) {
      assert s.owner[p] == Nobody;
    }
  }

  lemma {:induction false} RunKeeps(run: seq<State>, steps: seq<Step>, n: nat)
    requires IsRun(run, steps) && n < |run|
    requires forall i :: 0 <= i < n ==> !Stale(run[i], steps[i])
    ensures Inv(run[n])
  {
    if n == 0 {
      InitIsInv(run[0]);
    } else {
      RunKeeps(run, steps, n - 1);
      var s, step := run[n - 1], steps[n - 1];
      assert run[n] == Do(s, step);
      StepKeeps(s, step);
    }
  }

  /** The first stale CAS of a run leads to an unsafe state. */
  lemma {:induction false} FirstStale(run: seq<State>, steps: seq<Step>, i: nat)
    requires IsRun(run, steps) && i < |steps| && Stale(run[i], steps[i])
    ensures exists n :: 0 <= n < |run| && !Safe(run[n])
  {
    if forall k :: 0 <= k < i ==> !Stale(run[k], steps[k]) {
      RunKeeps(run, steps, i);
      OnlyStaleBreaks(run[i], steps[i]);
      assert !Safe(run[i + 1]);
    } else {
      var k :| 0 <= k < i && Stale(run[k], steps[k]);
      FirstStale(run, steps, k);
    }
  }

  /** In every state of a run no process is current on two CPUs; a process that is current is not RUNNABLE, SLEEPING,
      ZOMBIE or UNUSED; a process that is being woken is left alone; each incarnation of a zombie was reaped at most
      once; and none of the CAS whose failure panics has failed. Every interleaving keeps this up if, and only if, no
      CAS of its post-switch blocks is stale. */
  lemma {:induction false} ProtocolIsSafe(run: seq<State>, steps: seq<Step>)
    requires IsRun(run, steps)
    ensures (forall n :: 0 <= n < |run| ==> Safe(run[n])) <==> (forall i :: 0 <= i < |steps| ==> !Stale(run[i], steps[i]))
  {
    if i: nat :| i < |steps| && Stale(run[i], steps[i]) {
      FirstStale(run, steps, i);
    } else {
      forall n | 0 <= n < |run| ensures Safe(run[n]) {
        RunKeeps(run, steps, n);
        InvIsSafe(run[n]);
      }
    }
  }

  // ---- What goes wrong otherwise

  /** The steps of the run below. */
  function BadStep(i: nat): Step {
    if i == 0 then Sched(0, Pick(0)) else if i == 1 then Sched(0, Dispatch) else if i == 2 then Leave(0, Yield)
    else if i == 3 then Leave(0, Switch) else if i == 4 then Sched(0, PostCas) else if i == 5 then Sched(1, Pick(0))
    else if i == 6 then Sched(1, Dispatch) else if i == 7 then Leave(1, Sleep) else if i == 8 then Sched(0, PostCas)
    else if i == 9 then Sched(0, PostCas) else if i == 10 then Sched(0, PostEnd) else if i == 11 then Other(0, Wake(0))
    else if i == 12 then Other(0, WakeDone) else Sched(0, Pick(0))
  }

  /** Its states. */
  function BadState(i: nat): State {
    if i == 0 then Table(Runnable, Normal, Idle, None, Idle, Nobody)
    else if i == 1 then Table(NegRunning, Normal, Picked(0), None, Idle, OnCpu(0))
    else if i == 2 then Table(Running, Normal, On(0), None, Idle, OnCpu(0))
    else if i == 3 then Table(NegRunnable, Leaving, On(0), None, Idle, OnCpu(0))
    else if i == 4 then Table(NegRunnable, Normal, After(0, 0, false), None, Idle, OnCpu(0))
    else if i == 5 then Table(Runnable, Normal, After(0, 1, true), None, Idle, Nobody)
    else if i == 6 then Table(NegRunning, Normal, After(0, 1, true), None, Picked(0), OnCpu(1))
    else if i == 7 then Table(Running, Normal, After(0, 1, true), None, On(0), OnCpu(1))
    else if i == 8 then Table(NegSleeping, Leaving, After(0, 1, true), None, On(0), OnCpu(1))
    else if i == 9 then Table(Sleeping, Leaving, After(0, 2, true), None, On(0), Nobody)
    else if i == 10 then Table(Sleeping, Leaving, After(0, 3, true), None, On(0), Nobody)
    else if i == 11 then Table(Sleeping, Leaving, Idle, None, On(0), Nobody)
    else if i == 12 then Table(NegRunnable, Leaving, Idle, Some(0), On(0), Waker(0))
    else if i == 13 then Table(Runnable, Leaving, Idle, None, On(0), Nobody)
    else Table(NegRunning, Leaving, Picked(0), None, On(0), OnCpu(0))
  }

  /** A step changes the process, its owner and CPU `c`. */
  lemma {:induction false} OneCpu(s: State, t: State, c: nat)
    requires |s.slots| == |t.slots| == |s.owner| == |t.owner| == 1 && |s.cpus| == |t.cpus| == 2 && c < 2 && s.cpus[1 - c] == t.cpus[1 - c]
    ensures s.slots[0 := t.slots[0]] == t.slots && s.owner[0 := t.owner[0]] == t.owner && s.cpus[c := t.cpus[c]] == t.cpus
  {
  }

  /** Each of the steps can be taken; one is stale. */
  lemma {:induction false} BadStepsCan(i: nat)
    requires i < 14
    ensures Can(BadState(i), BadStep(i)) && (Stale(BadState(i), BadStep(i)) <==> i == 8)
  {
    if i == 8 {
      assert Busy(BadState(i).cpus[1], 0);
    }
  }

  lemma {:induction false} BadStepsAreSteps(i: nat, s: State, step: Step, t: State)
    requires i < 14 && s == BadState(i) && step == BadStep(i) && t == BadState(i + 1) && Can(s, step)
    ensures t == Do(s, step)
  {
    OneCpu(s, t, if 5 <= i < 8 then 1 else 0);
    match i {
      case 0 => case 1 => case 2 => case 3 => case 4 => case 5 => case 6 => case 7 => case 8 => case 9 => case 10 => case 11 => case 12 => case _ =>
    }
  }

  lemma {:induction false} BadEnds()
    ensures Init(BadState(0))
    ensures Current(BadState(9), 1, 0) && BadState(9).slots == [Slot(Sleeping, Leaving, None, 1)]
    ensures Current(BadState(14), 0, 0) && Current(BadState(14), 1, 0)
  {
  }

  /** The three CAS of the post-switch block are separate instructions. CPU 0 puts the yielding process back to
      RUNNABLE; before its next CAS, CPU 1 runs the process, which goes to sleep; CPU 0 then turns -SLEEPING into
      SLEEPING under the feet of CPU 1, wakes the process up and picks it: it is current on both CPUs. */
  lemma {:induction false} StaleCasIsUnsafe(run: seq<State>, steps: seq<Step>)
    requires |run| == 15 && |steps| == 14
    requires forall i :: 0 <= i < 15 ==> run[i] == BadState(i)
    requires forall i :: 0 <= i < 14 ==> steps[i] == BadStep(i)
    ensures IsRun(run, steps) && forall i :: 0 <= i < 14 ==> (Stale(run[i], steps[i]) <==> i == 8)
    ensures Current(run[9], 1, 0) && run[9].slots == [Slot(Sleeping, Leaving, None, 1)]
    ensures Current(run[14], 0, 0) && Current(run[14], 1, 0)
  {
    BadEnds();
    forall i {:trigger steps[i]} | 0 <= i < 14
      ensures Can(run[i], steps[i]) && run[i + 1] == Do(run[i], steps[i]) && (Stale(run[i], steps[i]) <==> i == 8)
    {
      BadStepsCan(i);
      BadStepsAreSteps(i, run[i], steps[i], run[i + 1]);
    }
  }

  /** A table with one slot, in its first incarnation, on a machine with two CPUs. */
  function Table(st: PState, pc: Pc, phase0: Phase, waking0: Option<nat>, phase1: Phase, o: Owner): State {
    State([Slot(st, pc, None, 1)], [Cpu(phase0, waking0), Cpu(phase1, None)], [o], [], false)
  }
}

/** The invariant of the CAS protocol: every slot that is not in a stable state has one owner, who alone may change it. Each
    step that is not a stale CAS keeps it. */
module ProcInv {
  import opened Base
  import opened Proc

  // ---- The invariant

  /** The stable states, in which nobody is changing the slot. */
  predicate Stable(st: PState) {
    st == Unused || st == Runnable || st == Sleeping || st == Zombie
  }

  /** CPU phase in which slot `p` belongs to the CPU. */
  predicate Keeps(ph: Phase, p: nat) {
    !ph.Idle? && ph.p == p && !(ph.After? && ph.done)
  }

  /** Does the state of a process fit what its kernel thread is doing? */
  predicate Fits(pc: Pc, st: PState) {
    match pc
    case Normal => st == Running
    case Leaving => st == NegRunnable || st == NegSleeping || st == NegZombie
    case Scanning => st == NegSleeping
    case Reaping(_) => st == NegSleeping
    case Freed(_) => st == Running
    case Exiting => st == NegZombie
  }

  /** After n CAS of the block that all failed, the state is one that a later CAS expects. */
  predicate Awaits(n: nat, st: PState) {
    (n == 0 && st == NegRunnable) || (n <= 1 && st == NegSleeping) || (n <= 2 && st == NegZombie)
  }

  ghost predicate CpuOk(s: State, c: nat)
    requires c < |s.cpus| && |s.owner| == |s.slots|
  {
    var ph, w := s.cpus[c].phase, s.cpus[c].waking;
    && (!ph.Idle? ==> ph.p < |s.slots|)
    && (!ph.Idle? && Keeps(ph, ph.p) ==> s.owner[ph.p] == OnCpu(c))
    && (ph.Picked? ==> s.slots[ph.p].state == NegRunning && s.slots[ph.p].pc == Normal)
    && (ph.On? ==> Fits(s.slots[ph.p].pc, s.slots[ph.p].state))
    && (ph.After? ==> ph.n <= 3 && (!ph.done ==> Awaits(ph.n, s.slots[ph.p].state) && s.slots[ph.p].pc == Normal))
    && (w.Some? ==> w.value < |s.slots| && s.owner[w.value] == Waker(c) && s.slots[w.value].state == NegRunnable)
    && (w.Some? ==> ph.Idle? || ph.On?)
  }

  ghost predicate OwnerOk(s: State, p: nat)
    requires p < |s.slots| == |s.owner|
  {
    match s.owner[p]
    case Nobody => Stable(s.slots[p].state)
    case OnCpu(c) => c < |s.cpus| && Keeps(s.cpus[c].phase, p) && !Stable(s.slots[p].state)
    case Waker(c) => c < |s.cpus| && s.cpus[c].waking == Some(p) && !Stable(s.slots[p].state)
    case Forker(r) => r < |s.slots| && s.slots[r].embryo == Some(p) && !Stable(s.slots[p].state)
    case Reaper(r) => r < |s.slots| && (s.slots[r].pc == Reaping(p) || s.slots[r].pc == Freed(p)) && !Stable(s.slots[p].state)
  }

  ghost predicate SlotOk(s: State, p: nat)
    requires p < |s.slots| == |s.owner|
  {
    var x := s.slots[p];
    && (x.embryo.Some? ==>
          && x.embryo.value < |s.slots| && s.owner[x.embryo.value] == Forker(p) && s.slots[x.embryo.value].state == Embryo
          && x.state != Unused && x.state != Embryo && x.state != Zombie && x.state != PreUnused && x.state != NegZombie)
    && (x.pc.Reaping? || x.pc.Freed? ==>
          x.pc.child < |s.slots| && s.owner[x.pc.child] == Reaper(p) && s.slots[x.pc.child].state == PreUnused)
    && (!s.owner[p].OnCpu? ==> x.pc == Normal)
  }

  /** A reaped incarnation is over: the slot is being freed, free, or in a later incarnation. */
  ghost predicate Over(s: State, e: (nat, nat)) {
    && e.0 < |s.slots| && e.1 <= s.slots[e.0].incarnation
    && (e.1 == s.slots[e.0].incarnation ==> s.slots[e.0].state == PreUnused || s.slots[e.0].state == Unused)
  }

  ghost predicate ReapedOk(s: State) {
    && (forall i, j :: 0 <= i < j < |s.reaped| ==> s.reaped[i] != s.reaped[j])
    && (forall i :: 0 <= i < |s.reaped| ==> Over(s, s.reaped[i]))
  }

  ghost predicate Inv(s: State) {
    && |s.owner| == |s.slots|
    && !s.panicked
    && (forall c: nat {:trigger CpuOk(s, c)} :: c < |s.cpus| ==> CpuOk(s, c))
    && (forall p: nat {:trigger OwnerOk(s, p)} :: p < |s.slots| ==> OwnerOk(s, p))
    && (forall p: nat {:trigger SlotOk(s, p)} :: p < |s.slots| ==> SlotOk(s, p))
    && ReapedOk(s)
  }

  /** Steps that reap nothing and leave freed slots alone until they are allocated again. */
  lemma {:induction false} ReapedKept(s: State, t: State)
    requires ReapedOk(s) && t.reaped == s.reaped && |t.slots| == |s.slots|
    requires forall q :: 0 <= q < |s.slots| ==>
      && s.slots[q].incarnation <= t.slots[q].incarnation
      && (t.slots[q].incarnation == s.slots[q].incarnation && (s.slots[q].state == PreUnused || s.slots[q].state == Unused) ==>
            t.slots[q].state == PreUnused || t.slots[q].state == Unused)
    ensures ReapedOk(t)
  {
  }

  /** Slot `r` may be changed by CPU `c` while it works on slots `p` and `q`. */
  predicate Mine(o: Owner, c: nat, p: nat, q: nat) {
    o == Nobody || o == OnCpu(c) || o == Waker(c) || o == Forker(p) || o == Forker(q) || o == Reaper(p) || o == Reaper(q)
  }

  /** `t` differs from `s` on CPU `c` and slots `p` and `q` only, and that CPU may change those slots. */
  ghost predicate Touches(s: State, t: State, c: nat, p: nat, q: nat) {
    && |t.slots| == |s.slots| == |t.owner| == |s.owner| && |t.cpus| == |s.cpus|
    && c < |s.cpus| && p < |s.slots| && q < |s.slots|
    && (forall d :: 0 <= d < |s.cpus| && d != c ==> t.cpus[d] == s.cpus[d])
    && (forall r :: 0 <= r < |s.slots| && r != p && r != q ==> t.slots[r] == s.slots[r] && t.owner[r] == s.owner[r])
    && Mine(s.owner[p], c, p, q) && Mine(s.owner[q], c, p, q)
  }

  lemma {:induction false} OtherCpu(s: State, t: State, c: nat, p: nat, q: nat, d: nat)
    requires Touches(s, t, c, p, q) && d < |s.cpus| && d != c && CpuOk(s, d)
    ensures CpuOk(t, d)
  {
  }

  lemma {:induction false} OtherSlot(s: State, t: State, c: nat, p: nat, q: nat, r: nat)
    requires Touches(s, t, c, p, q) && r < |s.slots| && r != p && r != q && SlotOk(s, r)
    ensures SlotOk(t, r)
  {
  }

  lemma {:induction false} OtherOwner(s: State, t: State, c: nat, p: nat, q: nat, r: nat)
    requires Touches(s, t, c, p, q) && r < |s.slots| && r != p && r != q && OwnerOk(s, r)
    requires s.owner[r] == Nobody || !Mine(s.owner[r], c, p, q)
    ensures OwnerOk(t, r)
  {
  }

  /** A step that touches slots `p` and `q` only needs to be checked there: everybody else is kept away by ownership. */
  lemma {:induction false} Local(s: State, t: State, c: nat, p: nat, q: nat)
    requires Inv(s) && Touches(s, t, c, p, q) && !t.panicked && ReapedOk(t)
    requires CpuOk(t, c) && OwnerOk(t, p) && SlotOk(t, p) && OwnerOk(t, q) && SlotOk(t, q)
    requires forall r :: 0 <= r < |s.slots| && r != p && r != q && s.owner[r] != Nobody && Mine(s.owner[r], c, p, q) ==> OwnerOk(t, r)
    ensures Inv(t)
  {
    forall d | 0 <= d < |t.cpus| ensures CpuOk(t, d) {
      if d != c { OtherCpu(s, t, c, p, q, d); }
    }
    forall r | 0 <= r < |t.slots| ensures OwnerOk(t, r) && SlotOk(t, r) {
      if r != p && r != q {
        OtherSlot(s, t, c, p, q, r);
        if s.owner[r] == Nobody || !Mine(s.owner[r], c, p, q) { OtherOwner(s, t, c, p, q, r); }
      }
    }
  }

  /** `t` differs from `s` on CPU `c` and slot `p` only, and the CPU goes on working on what it had in hand. */
  ghost predicate Works(s: State, t: State, c: nat, p: nat) {
    && Touches(s, t, c, p, p) && !t.panicked && t.reaped == s.reaped
    && (s.cpus[c].phase.Idle? || s.cpus[c].phase.p == p)
    && (s.cpus[c].waking == t.cpus[c].waking || s.cpus[c].waking.None? || s.cpus[c].waking.value == p)
    && var x, y := s.slots[p], t.slots[p];
    && y.embryo == x.embryo && y.incarnation == x.incarnation
    && (x.pc.Reaping? || x.pc.Freed? ==> (y.pc.Reaping? || y.pc.Freed?) && y.pc.child == x.pc.child)
    && x.state != PreUnused && x.state != Unused
  }

  /** Such a step only needs to be checked on that CPU and that slot. */
  lemma {:induction false} WorkKeeps(s: State, t: State, c: nat, p: nat)
    requires Inv(s) && Works(s, t, c, p) && CpuOk(t, c) && OwnerOk(t, p) && SlotOk(t, p)
    ensures Inv(t)
  {
    ReapedKept(s, t);
    forall r | 0 <= r < |s.slots| && r != p && s.owner[r] != Nobody && Mine(s.owner[r], c, p, p) ensures OwnerOk(t, r) {
      assert OwnerOk(s, r);
    }
    Local(s, t, c, p, p);
  }

  // ---- scheduler()

  lemma {:induction false} PickKeeps(s: State, c: nat, p: nat)
    requires Inv(s) && CanSched(s, c, Pick(p))
    ensures Inv(DoSched(s, c, Pick(p)))
  {
    assert CpuOk(s, c);
    assert OwnerOk(s, p) && SlotOk(s, p);
    WorkKeeps(s, DoSched(s, c, Pick(p)), c, p);
  }

  lemma {:induction false} DispatchKeeps(s: State, c: nat)
    requires Inv(s) && CanSched(s, c, Dispatch)
    ensures Inv(DoSched(s, c, Dispatch))
  {
    assert CpuOk(s, c);
    assert OwnerOk(s, Cur(s, c)) && SlotOk(s, Cur(s, c));
    WorkKeeps(s, DoSched(s, c, Dispatch), c, Cur(s, c));
  }

  /** Steps that only move a CPU off a slot that is no longer its own. */
  lemma {:induction false} LetGo(s: State, c: nat, ph: Phase)
    requires Inv(s) && c < |s.cpus| && s.cpus[c].phase.After? && s.cpus[c].phase.done && s.cpus[c].waking.None?
    requires ph.Idle? || (ph.After? && ph.done && ph.p < |s.slots| && ph.n <= 3)
    ensures Inv(SetCpu(s, c, Cpu(ph, None)))
  {
    var t := SetCpu(s, c, Cpu(ph, None));
    ReapedKept(s, t);
    forall d | 0 <= d < |t.cpus| ensures CpuOk(t, d) { assert CpuOk(s, d); }
    forall r | 0 <= r < |t.slots| ensures OwnerOk(t, r) && SlotOk(t, r) { assert OwnerOk(s, r) && SlotOk(s, r); }
  }

  /** CPU `d` has left process `p` and nobody has moved it on yet: whoever does, leaves the slot to nobody. */
  lemma {:induction false} MoveKeeps(s: State, d: nat, n: nat, k: nat, t: State)
    requires Inv(s) && d < |s.cpus| && s.cpus[d].phase.After? && !s.cpus[d].phase.done && n <= 3
    requires s.cpus[d].phase.p < |s.slots| && s.slots[s.cpus[d].phase.p].state == PostFrom(k)
    requires var p := s.cpus[d].phase.p;
      t == SetCpu(SetOwner(SetState(s, p, PostTo(k)), p, Nobody), d, Cpu(After(p, n, true), None))
    ensures Inv(t)
  {
    assert CpuOk(s, d);
    assert OwnerOk(s, Cur(s, d)) && SlotOk(s, Cur(s, d));
    WorkKeeps(s, t, d, Cur(s, d));
  }

  /** At most the owner of a slot has left it without its having been moved on. */
  lemma {:induction false} MovedOnce(s: State, p: nat, d: nat)
    requires Inv(s) && p < |s.slots| && d < |s.cpus| && s.owner[p] == OnCpu(d)
    ensures forall e :: 0 <= e < |s.cpus| && e != d ==> MovedOn(s.cpus, p)[e] == s.cpus[e]
  {
    forall e | 0 <= e < |s.cpus| && e != d ensures MovedOn(s.cpus, p)[e] == s.cpus[e] {
      assert CpuOk(s, e);
    }
  }

  /** A CAS that hits a process that CPU `d` has left, and that nobody is running or waking. */
  lemma {:induction false} HitKeeps(s: State, c: nat, d: nat)
    requires Inv(s) && CanSched(s, c, PostCas)
    requires var ph := s.cpus[c].phase;
      && s.slots[ph.p].state == PostFrom(ph.n) && s.owner[ph.p] == OnCpu(d) && d < |s.cpus|
      && s.cpus[d].phase.After? && s.cpus[d].phase.p == ph.p && !s.cpus[d].phase.done && (ph.done || d == c)
    ensures Inv(DoSched(s, c, PostCas))
  {
    var ph, t := s.cpus[c].phase, DoSched(s, c, PostCas);
    assert CpuOk(s, c) && CpuOk(s, d);
    MovedOnce(s, ph.p, d);
    if d == c {
      assert t.cpus == s.cpus[c := Cpu(After(ph.p, ph.n + 1, true), None)];
      MoveKeeps(s, c, ph.n + 1, ph.n, t);
    } else {
      var s1 := SetCpu(s, c, Cpu(After(ph.p, ph.n + 1, true), None));
      LetGo(s, c, After(ph.p, ph.n + 1, true));
      assert t.cpus == s1.cpus[d := Cpu(After(ph.p, s.cpus[d].phase.n, true), None)];
      MoveKeeps(s1, d, s.cpus[d].phase.n, ph.n, t);
    }
  }

  lemma {:induction false} EmbryoOf(s: State, p: nat, r: nat)
    requires Inv(s) && p < |s.slots| && s.owner[p] == Forker(r)
    ensures s.slots[p].state == Embryo
  {
    assert OwnerOk(s, p);
    assert SlotOk(s, r);
  }

  lemma {:induction false} ReapedBy(s: State, p: nat, r: nat)
    requires Inv(s) && p < |s.slots| && s.owner[p] == Reaper(r)
    ensures s.slots[p].state == PreUnused
  {
    assert OwnerOk(s, p);
    assert SlotOk(s, r);
  }

  /** Whose process a CAS of the post-switch block hits: one that a CPU is busy with, or has left. */
  lemma {:induction false} HitOwner(s: State, c: nat) returns (d: nat)
    requires Inv(s) && CanSched(s, c, PostCas) && s.slots[Cur(s, c)].state == PostFrom(s.cpus[c].phase.n)
    ensures d < |s.cpus|
    ensures Busy(s.cpus[d], Cur(s, c)) || (s.owner[Cur(s, c)] == OnCpu(d) && Keeps(s.cpus[d].phase, Cur(s, c)) && s.cpus[d].phase.After?)
  {
    var p := Cur(s, c);
    assert OwnerOk(s, p);
    var o := s.owner[p];
    if o.Forker? { EmbryoOf(s, p, o.p); }
    if o.Reaper? { ReapedBy(s, p, o.p); }
    d := o.c;
    assert CpuOk(s, d);
  }

  lemma {:induction false} PostCasKeeps(s: State, c: nat)
    requires Inv(s) && CanSched(s, c, PostCas) && !Stale(s, Sched(c, PostCas))
    ensures Inv(DoSched(s, c, PostCas))
  {
    assert CpuOk(s, c);
    var ph := s.cpus[c].phase;
    if s.slots[ph.p].state == PostFrom(ph.n) {
      var d := HitOwner(s, c);
      HitKeeps(s, c, d);
    } else if ph.done {
      LetGo(s, c, After(ph.p, ph.n + 1, true));
    } else {
      assert OwnerOk(s, ph.p) && SlotOk(s, ph.p);
      WorkKeeps(s, DoSched(s, c, PostCas), c, ph.p);
    }
  }

  lemma {:induction false} SchedKeeps(s: State, c: nat, x: SchedStep)
    requires Inv(s) && CanSched(s, c, x) && !Stale(s, Sched(c, x))
    ensures Inv(DoSched(s, c, x))
  {
    match x
    case Pick(p) => PickKeeps(s, c, p);
    case Dispatch => DispatchKeeps(s, c);
    case PostCas => PostCasKeeps(s, c);
    case PostEnd =>
      assert CpuOk(s, c);
      LetGo(s, c, Idle);
  }

  // ---- yield(), sleep(), exit() and wait()

  lemma {:induction false} NegateKeeps(s: State, c: nat, x: LeaveStep)
    requires Inv(s) && CanLeave(s, c, x) && (x.Yield? || x.Sleep? || x.Exit?)
    ensures Inv(DoLeave(s, c, x))
  {
    assert CpuOk(s, c);
    assert OwnerOk(s, Cur(s, c)) && SlotOk(s, Cur(s, c));
    WorkKeeps(s, DoLeave(s, c, x), c, Cur(s, c));
  }

  lemma {:induction false} LeaveKeeps(s: State, c: nat, x: LeaveStep)
    requires Inv(s) && CanLeave(s, c, x)
    ensures Inv(DoLeave(s, c, x))
  {
    if x.ExitSched? || x.Switch? {
      assert CpuOk(s, c);
      assert OwnerOk(s, Cur(s, c)) && SlotOk(s, Cur(s, c));
      WorkKeeps(s, DoLeave(s, c, x), c, Cur(s, c));
    } else {
      NegateKeeps(s, c, x);
    }
  }

  /** wait() begins to look for a zombie, or goes to sleep. */
  lemma {:induction false} ScanKeeps(s: State, c: nat, x: WaitStep)
    requires Inv(s) && CanWait(s, c, x) && (x.Start? || x.GoToSleep?)
    ensures Inv(DoWait(s, c, x))
  {
    assert CpuOk(s, c);
    assert OwnerOk(s, Cur(s, c)) && SlotOk(s, Cur(s, c));
    WorkKeeps(s, DoWait(s, c, x), c, Cur(s, c));
  }

  /** wait() makes its process running again. */
  lemma {:induction false} RunAgainKeeps(s: State, c: nat, x: WaitStep)
    requires Inv(s) && CanWait(s, c, x) && (x.Resume? || x.GiveUp?)
    ensures Inv(DoWait(s, c, x))
  {
    assert CpuOk(s, c);
    assert OwnerOk(s, Cur(s, c)) && SlotOk(s, Cur(s, c));
    WorkKeeps(s, DoWait(s, c, x), c, Cur(s, c));
  }

  /** The zombie taken by wait() was not reaped before in its present incarnation. */
  lemma {:induction false} TakeReaps(s: State, c: nat, q: nat)
    requires ReapedOk(s) && CanWait(s, c, Take(q)) && Cur(s, c) != q
    ensures ReapedOk(DoWait(s, c, Take(q)))
  {
    var t := DoWait(s, c, Take(q));
    forall i | 0 <= i < |t.reaped| ensures Over(t, t.reaped[i]) {
      if i < |s.reaped| { assert Over(s, s.reaped[i]); }
    }
    forall i, j | 0 <= i < j < |t.reaped| ensures t.reaped[i] != t.reaped[j] {
      assert Over(s, s.reaped[i]);
    }
  }

  lemma {:induction false} TakeKeeps(s: State, c: nat, q: nat)
    requires Inv(s) && CanWait(s, c, Take(q))
    ensures Inv(DoWait(s, c, Take(q)))
  {
    var t, p := DoWait(s, c, Take(q)), Cur(s, c);
    assert CpuOk(s, c);
    assert OwnerOk(s, p) && SlotOk(s, p);
    assert OwnerOk(s, q) && SlotOk(s, q);
    TakeReaps(s, c, q);
    forall r | 0 <= r < |s.slots| && r != p && r != q && s.owner[r] != Nobody && Mine(s.owner[r], c, p, q) ensures OwnerOk(t, r) {
      assert OwnerOk(s, r);
    }
    Local(s, t, c, p, q);
  }

  lemma {:induction false} FreeKeeps(s: State, c: nat)
    requires Inv(s) && CanWait(s, c, Free)
    ensures Inv(DoWait(s, c, Free))
  {
    var t := DoWait(s, c, Free);
    assert CpuOk(s, c);
    var p := Cur(s, c);
    assert SlotOk(s, p);
    var q := s.slots[p].pc.child;
    ReapedKept(s, t);
    assert OwnerOk(s, p) && SlotOk(s, p);
    assert OwnerOk(s, q) && SlotOk(s, q);
    forall r | 0 <= r < |s.slots| && r != p && r != q && s.owner[r] != Nobody && Mine(s.owner[r], c, p, q) ensures OwnerOk(t, r) {
      assert OwnerOk(s, r);
    }
    Local(s, t, c, p, q);
  }

  lemma {:induction false} WakeKeeps(s: State, c: nat, q: nat)
    requires Inv(s) && CanOther(s, c, Wake(q))
    ensures Inv(DoOther(s, c, Wake(q)))
  {
    assert CpuOk(s, c);
    assert OwnerOk(s, q) && SlotOk(s, q);
    var t := DoOther(s, c, Wake(q));
    ReapedKept(s, t);
    forall r | 0 <= r < |s.slots| && r != q && s.owner[r] != Nobody && Mine(s.owner[r], c, q, q) ensures OwnerOk(t, r) {
      assert OwnerOk(s, r);
    }
    Local(s, t, c, q, q);
  }

  lemma {:induction false} WakeDoneKeeps(s: State, c: nat)
    requires Inv(s) && CanOther(s, c, WakeDone)
    ensures Inv(DoOther(s, c, WakeDone))
  {
    var t := DoOther(s, c, WakeDone);
    assert CpuOk(s, c);
    var p := s.cpus[c].waking.value;
    ReapedKept(s, t);
    assert OwnerOk(s, p) && SlotOk(s, p);
    forall r | 0 <= r < |s.slots| && r != p && s.owner[r] != Nobody && Mine(s.owner[r], c, p, p) ensures OwnerOk(t, r) {
      assert OwnerOk(s, r);
    }
    Local(s, t, c, p, p);
  }

  lemma {:induction false} KillKeeps(s: State, c: nat, q: nat)
    requires Inv(s) && CanOther(s, c, Kill(q))
    ensures Inv(DoOther(s, c, Kill(q)))
  {
    var t := DoOther(s, c, Kill(q));
    ReapedKept(s, t);
    assert CpuOk(s, c);
    assert OwnerOk(s, q) && SlotOk(s, q);
    forall r | 0 <= r < |s.slots| && r != q && s.owner[r] != Nobody && Mine(s.owner[r], c, q, q) ensures OwnerOk(t, r) {
      assert OwnerOk(s, r);
    }
    Local(s, t, c, q, q);
  }

  lemma {:induction false} AllocKeeps(s: State, c: nat, q: nat)
    requires Inv(s) && CanOther(s, c, Alloc(q))
    ensures Inv(DoOther(s, c, Alloc(q)))
  {
    var t := DoOther(s, c, Alloc(q));
    assert CpuOk(s, c);
    var p := Cur(s, c);
    ReapedKept(s, t);
    assert OwnerOk(s, p) && SlotOk(s, p);
    assert OwnerOk(s, q) && SlotOk(s, q);
    forall r | 0 <= r < |s.slots| && r != p && r != q && s.owner[r] != Nobody && Mine(s.owner[r], c, p, q) ensures OwnerOk(t, r) {
      assert OwnerOk(s, r);
    }
    Local(s, t, c, p, q);
  }

  lemma {:induction false} ForkFailKeeps(s: State, c: nat)
    requires Inv(s) && CanOther(s, c, ForkFail)
    ensures Inv(DoOther(s, c, ForkFail))
  {
    var t := DoOther(s, c, ForkFail);
    assert CpuOk(s, c);
    var p := Cur(s, c);
    assert SlotOk(s, p);
    var q := s.slots[p].embryo.value;
    assert q != p;
    ReapedKept(s, t);
    assert OwnerOk(s, p) && SlotOk(s, p);
    assert OwnerOk(s, q) && SlotOk(s, q);
    forall r | 0 <= r < |s.slots| && r != p && r != q && s.owner[r] != Nobody && Mine(s.owner[r], c, p, q) ensures OwnerOk(t, r) {
      assert OwnerOk(s, r);
    }
    Local(s, t, c, p, q);
  }

  lemma {:induction false} ForkDoneKeeps(s: State, c: nat)
    requires Inv(s) && CanOther(s, c, ForkDone)
    ensures Inv(DoOther(s, c, ForkDone))
  {
    var t := DoOther(s, c, ForkDone);
    assert CpuOk(s, c);
    var p := Cur(s, c);
    assert SlotOk(s, p);
    var q := s.slots[p].embryo.value;
    assert q != p;
    ReapedKept(s, t);
    assert OwnerOk(s, p) && SlotOk(s, p);
    assert OwnerOk(s, q) && SlotOk(s, q);
    forall r | 0 <= r < |s.slots| && r != p && r != q && s.owner[r] != Nobody && Mine(s.owner[r], c, p, q) ensures OwnerOk(t, r) {
      assert OwnerOk(s, r);
    }
    Local(s, t, c, p, q);
  }

  // ---- All steps

  lemma {:induction false} StepKeeps(s: State, step: Step)
    requires Inv(s) && Can(s, step) && !Stale(s, step)
    ensures Inv(Do(s, step))
  {
    match step
    case Sched(c, x) => SchedKeeps(s, c, x);
    case Leave(c, x) => LeaveKeeps(s, c, x);
    case Wait(c, x) => WaitKeeps(s, c, x);
    case Other(c, x) => OtherKeeps(s, c, x);
  }

  lemma {:induction false} WaitKeeps(s: State, c: nat, x: WaitStep)
    requires Inv(s) && CanWait(s, c, x)
    ensures Inv(DoWait(s, c, x))
  {
    match x
    case Take(q) => TakeKeeps(s, c, q);
    case Free => FreeKeeps(s, c);
    case Start => ScanKeeps(s, c, x);
    case GoToSleep => ScanKeeps(s, c, x);
    case _ => RunAgainKeeps(s, c, x);
  }

  lemma {:induction false} OtherKeeps(s: State, c: nat, x: OtherStep)
    requires Inv(s) && CanOther(s, c, x)
    ensures Inv(DoOther(s, c, x))
  {
    match x
    case Wake(q) => WakeKeeps(s, c, q);
    case WakeDone => WakeDoneKeeps(s, c);
    case Kill(q) => KillKeeps(s, c, q);
    case Alloc(q) => AllocKeeps(s, c, q);
    case ForkFail => ForkFailKeeps(s, c);
    case ForkDone => ForkDoneKeeps(s, c);
  }
}

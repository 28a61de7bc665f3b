/** The pending-signals word of one process, which every writer loads and stores back without a lock: kill() on any
    CPU, the pass of handle_signals(), check_cont_sig() in any scheduler(), and the two stores of zero before a forked
    process first runs. Each step is one load or one store, and the CPUs interleave freely. */
module SigRace {
  import opened Signals

  /** What a CPU stores over the word it has loaded. `kills` says whether the signal taken by the pass has the default
      action, which sets `killed` afterwards. */
  datatype Op = Kill(signum: nat) | Take(i: nat, kills: bool) | Cont(i: nat)

  datatype Cpu = Idle | Loaded(copy: set<nat>) | Dying

  /** `clears` counts the stores of zero that allocproc() and fork() have yet to make. */
  datatype State = State(pending: set<nat>, killed: bool, clears: nat, cpus: seq<Cpu>)

  datatype Step = Load(c: nat) | Store(c: nat, op: Op) | Drop(c: nat) | Die(c: nat) | Reset

  // ---- Steps

  /** The handler of SIGKILL is always SIG_DFL, so the pass takes it to kill and check_cont_sig() never takes it. */
  predicate Can(s: State, step: Step) {
    match step
    case Load(c) => c < |s.cpus| && s.cpus[c].Idle?
    case Store(c, op) =>
      c < |s.cpus| && s.cpus[c].Loaded? &&
      (match op
       case Kill(n) => n < NSIG
       case Take(i, kills) => s.clears == 0 && i in s.cpus[c].copy && (i == SIGKILL ==> kills)
       case Cont(i) => i in s.cpus[c].copy && i != SIGKILL)
    case Drop(c) => c < |s.cpus| && s.cpus[c].Loaded?
    case Die(c) => c < |s.cpus| && s.cpus[c].Dying?
    case Reset => s.clears > 0
  }

  /** The word stored: `|=` sets a bit; `&= ~` and `^` remove one that is set. */
  function Stored(copy: set<nat>, op: Op): set<nat> {
    match op
    case Kill(n) => copy + {n}
    case Take(i, _) => copy - {i}
    case Cont(i) => copy - {i}
  }

  function Do(s: State, step: Step): State
    requires Can(s, step)
  {
    match step
    case Load(c) => s.(cpus := s.cpus[c := Loaded(s.pending)])
    case Store(c, op) =>
      s.(pending := Stored(s.cpus[c].copy, op), cpus := s.cpus[c := if op.Take? && op.kills then Dying else Idle])
    case Drop(c) => s.(cpus := s.cpus[c := Idle])
    case Die(c) => s.(killed := true, cpus := s.cpus[c := Idle])
    case Reset => s.(pending := {}, clears := s.clears - 1)
  }

  /** When nobody comes in between, a load and a store change one bit: kill() sets it, the pass and check_cont_sig() clear it. */
  lemma {:induction false} OpAlone(s: State, c: nat, op: Op)
    requires Can(s, Load(c)) && Can(Do(s, Load(c)), Store(c, op))
    ensures
      var t := Do(Do(s, Load(c)), Store(c, op));
      && t.killed == s.killed && t.clears == s.clears && |t.cpus| == |s.cpus|
      && (forall j :: j in t.pending <==> if op.Kill? then j in s.pending || j == op.signum else j in s.pending && j != op.i)
      && (forall d :: 0 <= d < |s.cpus| && d != c ==> t.cpus[d] == s.cpus[d])
  {
  }

  // ---- Runs

  /** The slot has just got its pid: the word is whatever its last process left there. */
  predicate Init(s: State) {
    s.clears <= 2 && !s.killed && forall c :: 0 <= c < |s.cpus| ==> s.cpus[c] == Idle
  }

  ghost predicate IsRun(run: seq<State>, steps: seq<Step>) {
    && |run| == |steps| + 1 && Init(run[0])
    && forall i {:trigger steps[i]} :: 0 <= i < |steps| ==> Can(run[i], steps[i]) && run[i + 1] == Do(run[i], steps[i])
  }

  /** The step with which a kill() of SIGKILL takes effect; it then returns 0. */
  predicate Sends(step: Step) {
    step.Store? && step.op == Kill(SIGKILL)
  }

  ghost predicate Sent(steps: seq<Step>, n: nat)
    requires n <= |steps|
  {
    exists k :: 0 <= k < n && Sends(steps[k])
  }

  /** The process is killed, or the pass is about to set `killed`. */
  ghost predicate Gone(s: State) {
    s.killed || exists c :: 0 <= c < |s.cpus| && s.cpus[c].Dying?
  }

  /** A SIGKILL accepted before state `n` is pending there, or has killed. */
  ghost predicate Kept(run: seq<State>, steps: seq<Step>, n: nat)
    requires n < |run| == |steps| + 1
  {
    Sent(steps, n) ==> SIGKILL in run[n].pending || Gone(run[n])
  }

  predicate By(step: Step, c: nat) {
    !step.Reset? && step.c == c
  }

  /** CPU `c` works in state `n` on what it loaded at step `l`. */
  ghost predicate HoldsLoad(steps: seq<Step>, l: nat, n: nat, c: nat)
    requires n <= |steps|
  {
    l < n && steps[l] == Load(c) && forall j :: l < j < n ==> !By(steps[j], c)
  }

  /** A store that puts back a word loaded without SIGKILL after a kill() of SIGKILL has come in between; it neither
      sends SIGKILL itself nor kills the process otherwise. */
  ghost predicate Overwrites(run: seq<State>, steps: seq<Step>, i: nat)
    requires i < |steps| < |run|
  {
    && steps[i].Store? && !Sends(steps[i]) && !(steps[i].op.Take? && steps[i].op.kills) && !Gone(run[i])
    && exists l: nat, k: nat ::
         HoldsLoad(steps, l, i, steps[i].c) && SIGKILL !in run[l].pending && l < k < i && Sends(steps[k])
  }

  /** A kill() of SIGKILL came in before step `i` stores zero into a process that does not run yet. */
  ghost predicate ClearsIt(steps: seq<Step>, i: nat)
    requires i < |steps|
  {
    steps[i].Reset? && Sent(steps, i)
  }

  // ---- A SIGKILL is lost exactly by these

  lemma {:induction false} GoneStays(run: seq<State>, steps: seq<Step>, m: nat, n: nat)
    requires IsRun(run, steps) && m <= n < |run| && Gone(run[m])
    ensures Gone(run[n])
  {
    if m < n {
      GoneStays(run, steps, m, n - 1);
      var s, t, step := run[n - 1], run[n], steps[n - 1];
      assert t == Do(s, step);
      if !s.killed {
        var c :| 0 <= c < |s.cpus| && s.cpus[c].Dying?;
        assert t.killed || t.cpus[c].Dying?;
      }
    }
  }

  /** Before its last store of zero the process does not run, so nothing has killed it. */
  lemma {:induction false} NotYetGone(run: seq<State>, steps: seq<Step>, n: nat)
    requires IsRun(run, steps) && n < |run| && run[n].clears > 0
    ensures !Gone(run[n])
  {
    if n > 0 {
      var s, step := run[n - 1], steps[n - 1];
      assert run[n] == Do(s, step);
      NotYetGone(run, steps, n - 1);
    }
  }

  /** The word a CPU works on is the one it loaded. */
  lemma {:induction false} CopyIsLoad(run: seq<State>, steps: seq<Step>, l: nat, n: nat, c: nat)
    requires IsRun(run, steps) && n <= |steps| && HoldsLoad(steps, l, n, c)
    ensures c < |run[n].cpus| && run[n].cpus[c] == Loaded(run[l].pending)
  {
    var s, step := run[n - 1], steps[n - 1];
    assert run[n] == Do(s, step) && Can(s, step);
    if l < n - 1 { CopyIsLoad(run, steps, l, n - 1, c); }
  }

  lemma {:induction false} LoadOf(run: seq<State>, steps: seq<Step>, n: nat, c: nat) returns (l: nat)
    requires IsRun(run, steps) && n < |run| && c < |run[n].cpus| && run[n].cpus[c].Loaded?
    ensures n <= |steps| && HoldsLoad(steps, l, n, c)
  {
    assert n > 0;
    var s, step := run[n - 1], steps[n - 1];
    assert run[n] == Do(s, step) && Can(s, step);
    if By(step, c) {
      l := n - 1;
    } else {
      l := LoadOf(run, steps, n - 1, c);
    }
  }

  lemma {:induction false} StoreKeeps(run: seq<State>, steps: seq<Step>, i: nat)
    requires IsRun(run, steps) && i < |steps| && steps[i].Store? && !Overwrites(run, steps, i)
    requires forall n :: 0 <= n <= i ==> Kept(run, steps, n)
    ensures Kept(run, steps, i + 1)
  {
    var s, t, step := run[i], run[i + 1], steps[i];
    assert t == Do(s, step) && Can(s, step);
    var l := LoadOf(run, steps, i, step.c);
    CopyIsLoad(run, steps, l, i, step.c);
    if Gone(s) {
      GoneStays(run, steps, i, i + 1);
    } else if step.op.Take? && step.op.kills {
      assert t.cpus[step.c].Dying?;
    } else if Sent(steps, i + 1) && SIGKILL !in run[l].pending && !Sends(step) {
      SentBefore(run, steps, i, l);
      assert Kept(run, steps, l);
      GoneStays(run, steps, l, i);
    }
  }

  lemma {:induction false} SentBefore(run: seq<State>, steps: seq<Step>, i: nat, l: nat)
    requires i < |steps| < |run| && steps[i].Store? && HoldsLoad(steps, l, i, steps[i].c) && SIGKILL !in run[l].pending
    requires !Overwrites(run, steps, i) && !Gone(run[i]) && !Sends(steps[i]) && !(steps[i].op.Take? && steps[i].op.kills)
    requires Sent(steps, i + 1)
    ensures Sent(steps, l)
  {
    var k: nat :| k < i + 1 && Sends(steps[k]);
    assert k < l;
  }

  lemma {:induction false} StepKeeps(run: seq<State>, steps: seq<Step>, i: nat)
    requires IsRun(run, steps) && i < |steps| && !Overwrites(run, steps, i) && !ClearsIt(steps, i)
    requires forall n :: 0 <= n <= i ==> Kept(run, steps, n)
    ensures Kept(run, steps, i + 1)
  {
    if steps[i].Store? {
      StoreKeeps(run, steps, i);
    } else {
      assert run[i + 1] == Do(run[i], steps[i]);
      assert Kept(run, steps, i);
      if Gone(run[i]) { GoneStays(run, steps, i, i + 1); }
    }
  }

  lemma {:induction false} RunKeeps(run: seq<State>, steps: seq<Step>, n: nat)
    requires IsRun(run, steps) && n < |run|
    requires forall i :: 0 <= i < n ==> !Overwrites(run, steps, i) && !ClearsIt(steps, i)
    ensures Kept(run, steps, n)
    decreases n
  {
    if n > 0 {
      forall m | 0 <= m < n ensures Kept(run, steps, m) { RunKeeps(run, steps, m); }
      StepKeeps(run, steps, n - 1);
    }
  }

  lemma {:induction false} LossIsLoss(run: seq<State>, steps: seq<Step>, i: nat)
    requires IsRun(run, steps) && i < |steps| && (Overwrites(run, steps, i) || ClearsIt(steps, i))
    ensures !Kept(run, steps, i + 1)
  {
    var s, t, step := run[i], run[i + 1], steps[i];
    assert t == Do(s, step) && Can(s, step);
    if ClearsIt(steps, i) {
      NotYetGone(run, steps, i);
      var k :| 0 <= k < i && Sends(steps[k]);
      assert Sent(steps, i + 1);
    } else {
      var l: nat, k: nat :|
        HoldsLoad(steps, l, i, step.c) && SIGKILL !in run[l].pending && l < k < i && Sends(steps[k]);
      CopyIsLoad(run, steps, l, i, step.c);
      assert Sent(steps, i + 1);
    }
  }

  /** On every run, an accepted SIGKILL is in every later state pending or has killed, if and only if no kill() of
      SIGKILL fell between a load that did not see it and the store that followed, on a process not yet being killed,
      nor before a store of zero into a process that does not run yet. */
  lemma {:induction false} SigkillKeptIff(run: seq<State>, steps: seq<Step>)
    requires IsRun(run, steps)
    ensures (forall n :: 0 <= n < |run| ==> Kept(run, steps, n))
       <==> (forall i :: 0 <= i < |steps| ==> !Overwrites(run, steps, i) && !ClearsIt(steps, i))
  {
    if i: nat :| i < |steps| && (Overwrites(run, steps, i) || ClearsIt(steps, i)) {
      LossIsLoss(run, steps, i);
      assert 0 <= i + 1 < |run| && !Kept(run, steps, i + 1);
    } else {
      forall n | 0 <= n < |run| ensures Kept(run, steps, n) { RunKeeps(run, steps, n); }
    }
  }

  // ---- Two runs that lose it

  /** fork() on one CPU, kill() of the child on another: the child has its pid, so kill() finds it and returns 0;
      fork() then stores zero. */
  lemma {:induction false} ForkLosesSigkill(run: seq<State>, steps: seq<Step>)
    requires steps == [Reset, Load(0), Store(0, Kill(SIGKILL)), Reset]
    requires |run| == 5 && run[0] == State({}, false, 2, [Idle])
    requires run[1] == State({}, false, 1, [Idle]) && run[2] == State({}, false, 1, [Loaded({})])
    requires run[3] == State({SIGKILL}, false, 1, [Idle]) && run[4] == State({}, false, 0, [Idle])
    ensures IsRun(run, steps) && ClearsIt(steps, 3) && !Kept(run, steps, 4)
  {
    assert Sends(steps[2]);
    assert [Idle][0 := Loaded({})] == [Loaded({})];
    assert [Loaded({})][0 := Idle] == [Idle];
    assert IsRun(run, steps);
    LossIsLoss(run, steps, 3);
  }

  function PassRun(n: nat): State {
    if n == 0 then State({5}, false, 0, [Idle, Idle])
    else if n == 1 then State({5}, false, 0, [Loaded({5}), Idle])
    else if n == 2 then State({5}, false, 0, [Loaded({5}), Loaded({5})])
    else if n == 3 then State({5, SIGKILL}, false, 0, [Loaded({5}), Idle])
    else State({}, false, 0, [Idle, Idle])
  }

  /** The pass loads the word with signal 5 pending; kill() of SIGKILL sets its bit and returns 0; the pass stores the
      word it loaded, without bit 5. */
  lemma {:induction false} PassLosesSigkill(run: seq<State>, steps: seq<Step>)
    requires steps == [Load(0), Load(1), Store(1, Kill(SIGKILL)), Store(0, Take(5, false))]
    requires |run| == 5 && forall n :: 0 <= n < 5 ==> run[n] == PassRun(n)
    ensures IsRun(run, steps) && Overwrites(run, steps, 3) && !Kept(run, steps, 4)
  {
    assert Sends(steps[2]);
    assert Stored({5}, Kill(SIGKILL)) == {5, SIGKILL} && Stored({5}, Take(5, false)) == {};
    forall i {:trigger steps[i]} | 0 <= i < 4 ensures Can(run[i], steps[i]) && run[i + 1] == Do(run[i], steps[i]) {
      var c := if i == 0 || i == 3 then 0 else 1;
      assert PassRun(i).cpus[c := PassRun(i + 1).cpus[c]] == PassRun(i + 1).cpus;
    }
    assert HoldsLoad(steps, 0, 3, 0) && SIGKILL !in run[0].pending;
    LossIsLoss(run, steps, 3);
  }
}

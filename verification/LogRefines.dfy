/** The operations of log.c over the buffer cache are steps of the concurrent log: each method here performs one of
    them, and names the steps that the abstract state takes with it. */
module LogRefines {
  import opened LogDisk
  import B = Bio
  import L = Log
  import G = GroupCommit

  /** The dirty buffers hold what was logged, except those that their holders have changed since. */
  ghost predicate Cached(s: G.State, latest: Image, changing: set<nat>) {
    && |latest| == |s.img| && (forall b :: b in s.cache <==> b in s.lh)
    && forall b :: b in s.lh && b !in changing ==> b < |latest| && s.cache[b] == latest[b]
  }

  /** The log and its buffer cache stand for the abstract state `s`. */
  ghost predicate Matches(log: L.Log, s: G.State, changing: set<nat>)
    reads log, log.bc
  {
    && log.Ready() && !log.committing && s.phase == G.Idle
    && s.img == log.bc.disk && s.lh == log.lh && |s.active| == log.outstanding
    && Cached(s, log.bc.view.latest, changing)
  }

  /** `steps` lead from one state of `run` to the next. */
  ghost predicate Path(l: Layout, run: seq<G.State>, steps: seq<G.Step>) {
    && |run| == |steps| + 1
    && forall i {:trigger steps[i]} :: 0 <= i < |steps| ==> G.Next(l, run[i], steps[i], run[i + 1])
  }

  lemma {:induction false} PathMore(l: Layout, run: seq<G.State>, steps: seq<G.Step>, step: G.Step, t: G.State)
    requires Path(l, run, steps) && G.Next(l, run[|steps|], step, t)
    ensures Path(l, run + [t], steps + [step])
  {
    var run', steps' := run + [t], steps + [step];
    forall i {:trigger steps'[i]} | 0 <= i < |steps'| ensures G.Next(l, run'[i], steps'[i], run'[i + 1]) {
      if i < |steps| { assert steps'[i] == steps[i] && run'[i + 1] == run[i + 1]; }
    }
  }

  // ---- begin_op, log_write and the buffers

  /** `begin_op` is admitted exactly when the abstract log admits it, and is that step. */
  method BeginOp(log: L.Log, ghost s: G.State, ghost changing: set<nat>) returns (admitted: bool, ghost t: G.State)
    requires Matches(log, s, changing)
    modifies log`outstanding
    ensures Matches(log, t, changing)
    ensures admitted <==> |s.lh| + (|s.active| + 1) * MAXOPBLOCKS <= LOGSIZE
    ensures if admitted then G.Next(log.l, s, G.BeginOp, t) else t == s
  {
    admitted := log.TryBeginOp();
    t := if admitted then s.(active := s.active + [G.Op(s.nextId, {})], nextId := s.nextId + 1) else s;
  }

  /** The holder of a buffer changes it: the abstract log does not see that yet. */
  method Change(log: L.Log, i: nat, b: nat, data: Block, ghost s: G.State, ghost changing: set<nat>)
    requires Matches(log, s, changing) && log.bc.Holds(i, b)
    modifies log.bc
    ensures Matches(log, s, changing + {b})
    ensures b < |old(log.bc.view).latest| && log.bc.view == old(log.bc.view).(latest := old(log.bc.view).latest[b := data])
  {
    log.bc.SetData(i, b, data);
  }

  /** A buffer is released: one that was logged, or that holds what is on the disk. */
  method Release(log: L.Log, i: nat, b: nat, ghost s: G.State, ghost changing: set<nat>)
    requires Matches(log, s, changing) && log.bc.Holds(i, b) && b < |log.bc.disk|
    requires b in log.bc.view.dirty || log.bc.view.latest[b] == log.bc.disk[b]
    modifies log.bc
    ensures Matches(log, s, changing)
  {
    log.bc.Brelse(i, b);
  }

  /** `log_write` of a held buffer logs its present value for call `op`. */
  method LogWrite(log: L.Log, i: nat, b: nat, ghost op: nat, ghost s: G.State, ghost changing: set<nat>) returns (ok: bool, ghost t: G.State)
    requires Matches(log, s, changing) && log.bc.Holds(i, b) && b < |log.bc.disk| && !InLog(log.l, b)
    requires op < |s.active| && |s.active[op].blocks + {b}| <= MAXOPBLOCKS
    modifies log`lh, log.bc
    ensures ok ==> G.Next(log.l, s, G.LogWrite(op, b, old(log.bc.view.latest[b])), t) && Matches(log, t, changing - {b})
    ensures ok ==> log.bc.view == old(log.bc.view).(dirty := old(log.bc.view).dirty + {b})
    ensures ok <==> |s.lh| < LOGSIZE && |s.lh| < log.l.size - 1 && s.active != []
  {
    ghost var latest := log.bc.view.latest;
    CachedLogged(s, latest, changing, op, b);
    t := Logged(s, op, b, latest[b]);
    ok := log.LogWrite(i, b);
  }

  /** A held buffer is changed, logged and released. */
  method WriteHeld(log: L.Log, i: nat, b: nat, data: Block, ghost op: nat, ghost s: G.State, ghost changing: set<nat>) returns (ok: bool, ghost t: G.State)
    requires Matches(log, s, changing) && log.bc.Holds(i, b) && b < |log.bc.disk| && !InLog(log.l, b)
    requires op < |s.active| && |s.active[op].blocks + {b}| <= MAXOPBLOCKS
    modifies log`lh, log.bc
    ensures ok ==> G.Next(log.l, s, G.LogWrite(op, b, data), t) && Matches(log, t, changing - {b})
    ensures ok <==> |s.lh| < LOGSIZE && |s.lh| < log.l.size - 1 && s.active != []
  {
    ghost var rest := changing + {b} - {b};
    assert rest == changing - {b};
    Change(log, i, b, data, s, changing);
    ok, t := LogWrite(log, i, b, op, s, changing + {b});
    if ok {
      Release(log, i, b, t, rest);
    }
  }

  /** How the file system uses these: a block is read, changed, logged and released. All of it is the one step that logs the
      new contents. It fails if there is no buffer for the block, or no room in the log. */
  method Update(log: L.Log, b: nat, data: Block, ghost op: nat, ghost s: G.State, ghost changing: set<nat>) returns (ok: bool, ghost t: G.State)
    requires Matches(log, s, changing) && b < |log.bc.disk| && !InLog(log.l, b) && b !in log.bc.view.held
    requires op < |s.active| && |s.active[op].blocks + {b}| <= MAXOPBLOCKS
    modifies log`lh, log.bc
    ensures ok ==> G.Next(log.l, s, G.LogWrite(op, b, data), t) && Matches(log, t, changing - {b})
    ensures ok <==>
      && |s.lh| < LOGSIZE && |s.lh| < log.l.size - 1
      && (b in old(log.bc.at) || exists i :: 0 <= i < B.NBUF && B.Recyclable(old(log.bc.bufs)[i]))
  {
    var r := log.bc.Bread(b);
    if r.None? {
      return false, s;
    }
    ok, t := WriteHeld(log, r.value, b, data, op, s, changing);
  }

  /** The abstract state once call `op` has logged value `v` of block `b`. */
  ghost function Logged(s: G.State, op: nat, b: nat, v: Block): G.State
    requires op < |s.active|
  {
    s.(cache := s.cache[b := v], lh := Absorb(s.lh, b),
       active := s.active[op := s.active[op].(blocks := s.active[op].blocks + {b})],
       events := s.events + [G.Event(s.active[op].id, b, v)])
  }

  lemma {:induction false} CachedLogged(s: G.State, latest: Image, changing: set<nat>, op: nat, b: nat)
    requires Cached(s, latest, changing) && op < |s.active| && b < |latest|
    ensures Cached(Logged(s, op, b, latest[b]), latest, changing - {b})
  {
  }

  // ---- end_op and the commit

  /** The first `k` writes of a commit are steps of the abstract log. */
  lemma {:induction false} CommitPath(l: Layout, s: G.State, k: nat) returns (run: seq<G.State>, steps: seq<G.Step>)
    requires s.phase.Committing? && s.phase.k == 0 && s.img == s.phase.img0 && G.CommitReady(l, s.img, s.lh, s.phase.vals)
    requires k <= |CommitWrites(l, s.img, s.lh, s.phase.vals)| && InRange(s.img, CommitWrites(l, s.img, s.lh, s.phase.vals))
    ensures Path(l, run, steps) && |steps| == k && run[0] == s && forall i :: 0 <= i < k ==> steps[i] == G.CommitWrite
    ensures
      var t := run[k];
      && t.img == After(s.img, CommitWrites(l, s.img, s.lh, s.phase.vals), k) && t.phase == G.Committing(s.img, s.phase.vals, k)
      && t.lh == s.lh && t.active == s.active
  {
    if k == 0 {
      run, steps := [s], [];
    } else {
      run, steps := CommitPath(l, s, k - 1);
      var t := CommitStep(l, run[k - 1], s.img, s.phase.vals, k - 1);
      PathMore(l, run, steps, G.CommitWrite, t);
      run, steps := run + [t], steps + [G.CommitWrite];
    }
  }

  /** One write of a commit. */
  lemma {:induction false} CommitStep(l: Layout, u: G.State, img: Image, vals: seq<Block>, k: nat) returns (t: G.State)
    requires u.phase == G.Committing(img, vals, k) && G.CommitReady(l, img, u.lh, vals)
    requires k < |CommitWrites(l, img, u.lh, vals)| && InRange(img, CommitWrites(l, img, u.lh, vals))
    requires u.img == After(img, CommitWrites(l, img, u.lh, vals), k)
    ensures G.Next(l, u, G.CommitWrite, t)
    ensures t.img == After(img, CommitWrites(l, img, u.lh, vals), k + 1) && t.phase == G.Committing(img, vals, k + 1)
    ensures t.lh == u.lh && t.active == u.active
  {
    var w := CommitWrites(l, img, u.lh, vals)[k];
    t := u.(img := u.img[w.blockno := w.data], phase := G.Committing(img, vals, k + 1),
            durable := if k == |u.lh| then |u.events| else u.durable);
  }

  /** The abstract state once call `op` has left. */
  ghost function Left(s: G.State, op: nat): G.State
    requires op < |s.active| && forall j :: 0 <= j < |s.lh| ==> s.lh[j] in s.cache
  {
    var rest := s.active[..op] + s.active[op + 1..];
    s.(active := rest, phase := if rest == [] then G.Committing(s.img, G.CacheValues(s.lh, s.cache), 0) else s.phase)
  }

  /** What is committed is what the buffers hold. */
  lemma {:induction false} SameValues(s: G.State, latest: Image)
    requires Cached(s, latest, {})
    ensures (forall j :: 0 <= j < |s.lh| ==> s.lh[j] in s.cache && s.lh[j] < |latest|)
    ensures G.CacheValues(s.lh, s.cache) == L.ValuesOf(latest, s.lh)
  {
    forall j | 0 <= j < |s.lh| ensures s.lh[j] in s.cache && s.lh[j] < |latest| && s.cache[s.lh[j]] == latest[s.lh[j]] {
      assert s.lh[j] in s.lh;
    }
  }

  /** `end_op` of call `op`: the step of that name and, if it was the last call, the steps of the commit. Where the kernel stops in
      the middle of it the disk is that of the state reached. */
  method EndOp(log: L.Log, ghost op: nat, ghost s: G.State, ghost changing: set<nat>)
      returns (ok: bool, ghost run: seq<G.State>, ghost steps: seq<G.Step>)
    requires Matches(log, s, changing) && op < |s.active| && (|s.active| == 1 ==> log.Unheld() && changing == {})
    modifies log`lh, log`outstanding, log`committing, log.bc
    ensures Path(log.l, run, steps) && |steps| > 0 && run[0] == s && steps[0] == G.EndOp(op)
    ensures run[|steps|].img == log.bc.disk
    ensures ok <==> |s.active| > 1 || old(log.CanCommit())
    ensures ok ==> Matches(log, run[|steps|], changing)
  {
    ghost var d0, lh0, latest := log.bc.disk, log.lh, log.bc.view.latest;
    ghost var u := Left(s, op);
    assert G.Next(log.l, s, G.EndOp(op), u);
    run, steps := [s, u], [G.EndOp(op)];
    if |s.active| == 1 {
      SameValues(s, latest);
    }
    ghost var k;
    ok, k := log.EndOp();
    if |s.active| == 1 {
      ghost var ws := CommitWrites(log.l, d0, lh0, L.ValuesOf(latest, lh0));
      assert log.ProgressBody(0, d0, old(log.bc.writes), ws, k);
      run, steps := EndPath(log.l, s, op, u, k, ok);
    }
  }

  /** The last call leaves, `k` blocks are written, and the commit may be over. */
  lemma {:induction false} EndPath(l: Layout, s: G.State, op: nat, u: G.State, k: nat, done: bool) returns (run: seq<G.State>, steps: seq<G.Step>)
    requires G.Next(l, s, G.EndOp(op), u) && u.phase.Committing? && u.phase.k == 0 && u.img == u.phase.img0
    requires G.CommitReady(l, u.img, u.lh, u.phase.vals) && InRange(u.img, CommitWrites(l, u.img, u.lh, u.phase.vals))
    requires k <= |CommitWrites(l, u.img, u.lh, u.phase.vals)| && (done ==> k == |CommitWrites(l, u.img, u.lh, u.phase.vals)|)
    ensures Path(l, run, steps) && |steps| > 0 && run[0] == s && steps[0] == G.EndOp(op)
    ensures run[|steps|].img == After(u.img, CommitWrites(l, u.img, u.lh, u.phase.vals), k)
    ensures done ==> var t := run[|steps|]; t.phase == G.Idle && t.lh == [] && t.cache == map[] && t.active == u.active
  {
    var run1, steps1 := CommitPath(l, u, k);
    PathFirst(l, s, G.EndOp(op), run1, steps1);
    run, steps := [s] + run1, [G.EndOp(op)] + steps1;
    var v := run1[k];
    assert run[|steps|] == v;
    if done {
      var t := v.(cache := map[], lh := [], phase := G.Idle, firstOp := v.nextId);
      assert G.Next(l, v, G.CommitDone, t);
      PathMore(l, run, steps, G.CommitDone, t);
      run, steps := run + [t], steps + [G.CommitDone];
    }
  }

  lemma {:induction false} PathFirst(l: Layout, s: G.State, step: G.Step, run: seq<G.State>, steps: seq<G.Step>)
    requires Path(l, run, steps) && G.Next(l, s, step, run[0])
    ensures Path(l, [s] + run, [step] + steps)
  {
    var run', steps' := [s] + run, [step] + steps;
    forall i {:trigger steps'[i]} | 0 <= i < |steps'| ensures G.Next(l, run'[i], steps'[i], run'[i + 1]) {
      if i > 0 { assert steps'[i] == steps[i - 1] && run'[i] == run[i - 1] && run'[i + 1] == run[i]; }
    }
  }

  // ---- Recovery

  lemma {:induction false} RecoveryPath(l: Layout, s: G.State, k: nat) returns (run: seq<G.State>, steps: seq<G.Step>)
    requires s.phase == G.Recovering(s.img, 0) && Fits(l, s.img) && HeaderOk(l, s.img)
    requires k <= |RecoveryWrites(l, s.img)| && InRange(s.img, RecoveryWrites(l, s.img))
    ensures Path(l, run, steps) && |steps| == k && run[0] == s
    ensures run[k] == s.(img := After(s.img, RecoveryWrites(l, s.img), k), phase := G.Recovering(s.img, k))
  {
    if k == 0 {
      run, steps := [s], [];
    } else {
      run, steps := RecoveryPath(l, s, k - 1);
      var u, w := run[k - 1], RecoveryWrites(l, s.img)[k - 1];
      var t := u.(img := u.img[w.blockno := w.data], phase := G.Recovering(s.img, k));
      PathMore(l, run, steps, G.RecoveryWrite, t);
      run, steps := run + [t], steps + [G.RecoveryWrite];
    }
  }

  /** `recover_from_log` after a crash, on a new cache: the steps of a recovery. */
  method Recover(log: L.Log, ghost s: G.State) returns (ok: bool, ghost run: seq<G.State>, ghost steps: seq<G.Step>)
    requires log.bc.Valid() && Fits(log.l, log.bc.disk) && HeaderOk(log.l, log.bc.disk) && log.bc.view.dirty == {} && log.bc.view.held == map[]
    requires log.outstanding == 0 && !log.committing
    requires s.phase == G.Recovering(s.img, 0) && s.img == log.bc.disk && s.lh == [] && s.active == [] && s.cache == map[]
    modifies log`lh, log.bc
    ensures Path(log.l, run, steps) && run[0] == s && run[|steps|].img == log.bc.disk
    ensures ok <==> old(L.RecoverRoom(log.l, log.bc.view, log.bc.refs, HeaderBlocks(log.l, log.bc.disk)))
    ensures ok ==> Matches(log, run[|steps|], {})
  {
    ghost var d0, ws := log.bc.disk, RecoveryWrites(log.l, log.bc.disk);
    ghost var k;
    ok, k := log.RecoverFromLog();
    assert log.ProgressBody(0, d0, old(log.bc.writes), ws, k);
    run, steps := RecoveryPath(log.l, s, k);
    if ok {
      ghost var t := run[k].(phase := G.Idle);
      PathMore(log.l, run, steps, G.RecoveryDone, t);
      run, steps := run + [t], steps + [G.RecoveryDone];
    }
  }
}

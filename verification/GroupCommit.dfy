/** The concurrent use of the log: any number of system calls interleave `begin_op`, `log_write` and
    `end_op`; the last one out commits the group; the machine may crash between any two block writes. */
module GroupCommit {
  import opened Base
  import opened LogDisk

  /** A system call between `begin_op` and `end_op`, with the blocks it has logged so far. */
  datatype Op = Op(id: nat, blocks: set<nat>)

  /** One `log_write`, in the order the log saw them. */
  datatype Event = Event(op: nat, blockno: nat, data: Block)

  datatype Phase =
    | Idle
    | Committing(img0: Image, vals: seq<Block>, k: nat)   // k writes of this commit are on the disk
    | Recovering(img0: Image, k: nat)                     // k writes of this recovery are on the disk

  /** `lh` and `active` are log.lh.block[..log.lh.n] and the calls that log.outstanding counts; `cache`
      holds the dirty buffers. `nextId`, `firstOp`, `events` and `durable` record the history. */
  datatype State = State(img: Image, cache: map<nat, Block>, lh: seq<nat>, active: seq<Op>, phase: Phase,
                         nextId: nat, firstOp: nat, events: seq<Event>, durable: nat)

  datatype Step =
    | BeginOp
    | LogWrite(i: nat, blockno: nat, data: Block)
    | EndOp(i: nat)
    | CommitWrite
    | CommitDone
    | Crash
    | RecoveryWrite
    | RecoveryDone

  function CacheValues(lh: seq<nat>, cache: map<nat, Block>): seq<Block>
    requires forall i :: 0 <= i < |lh| ==> lh[i] in cache
  {
    seq(|lh|, i requires 0 <= i < |lh| => cache[lh[i]])
  }

  ghost predicate Next(l: Layout, s: State, step: Step, t: State) {
    match step
    case BeginOp =>
      && s.phase == Idle
      && |s.lh| + (|s.active| + 1) * MAXOPBLOCKS <= LOGSIZE
      && t == s.(active := s.active + [Op(s.nextId, {})], nextId := s.nextId + 1)
    case LogWrite(i, b, v) =>
      && i < |s.active|
      && b < |s.img| && !InLog(l, b)
      && |s.active[i].blocks + {b}| <= MAXOPBLOCKS   // the call keeps to its budget
      && |s.lh| < l.size - 1                         // otherwise: panic "too big a transaction"
      && t == s.(cache := s.cache[b := v], lh := Absorb(s.lh, b),
                 active := s.active[i := s.active[i].(blocks := s.active[i].blocks + {b})],
                 events := s.events + [Event(s.active[i].id, b, v)])
    case EndOp(i) =>
      && i < |s.active|
      && var rest := s.active[..i] + s.active[i + 1..];
      && (forall j :: 0 <= j < |s.lh| ==> s.lh[j] in s.cache)   // true in every reachable state, see IdleOk
      && t == s.(active := rest, phase := if rest == [] then Committing(s.img, CacheValues(s.lh, s.cache), 0) else s.phase)
    case CommitWrite =>
      && s.phase.Committing?
      && CommitReady(l, s.phase.img0, s.lh, s.phase.vals)
      && var ws := CommitWrites(l, s.phase.img0, s.lh, s.phase.vals);
      && s.phase.k < |ws| && ws[s.phase.k].blockno < |s.img|
      && t == s.(img := s.img[ws[s.phase.k].blockno := ws[s.phase.k].data],
                 phase := Committing(s.phase.img0, s.phase.vals, s.phase.k + 1),
                 durable := if s.phase.k == |s.lh| then |s.events| else s.durable)
    case CommitDone =>
      && s.phase.Committing?
      && CommitReady(l, s.phase.img0, s.lh, s.phase.vals)
      && s.phase.k == |CommitWrites(l, s.phase.img0, s.lh, s.phase.vals)|
      && t == s.(cache := map[], lh := [], phase := Idle, firstOp := s.nextId)
    case Crash =>
      && s.durable <= |s.events|
      && t == s.(cache := map[], lh := [], active := [], phase := Recovering(s.img, 0), firstOp := s.nextId,
                 events := s.events[..s.durable])
    case RecoveryWrite =>
      && s.phase.Recovering?
      && Fits(l, s.phase.img0) && HeaderOk(l, s.phase.img0)
      && var ws := RecoveryWrites(l, s.phase.img0);
      && s.phase.k < |ws| && ws[s.phase.k].blockno < |s.img|
      && t == s.(img := s.img[ws[s.phase.k].blockno := ws[s.phase.k].data], phase := Recovering(s.phase.img0, s.phase.k + 1))
    case RecoveryDone =>
      && s.phase.Recovering?
      && Fits(l, s.phase.img0) && HeaderOk(l, s.phase.img0)
      && s.phase.k == |RecoveryWrites(l, s.phase.img0)|
      && t == s.(phase := Idle)
  }

  predicate CommitReady(l: Layout, img0: Image, lh: seq<nat>, vals: seq<Block>) {
    Fits(l, img0) && HeaderOk(l, img0) && HeaderCount(l, img0) == 0 && Loggable(l, img0, lh) && |lh| == |vals|
  }

  /** A freshly booted system on a disk whose log is empty. */
  predicate Init(l: Layout, s: State) {
    && Fits(l, s.img) && HeaderOk(l, s.img) && HeaderCount(l, s.img) == 0
    && s == State(s.img, map[], [], [], Idle, 0, 0, [], 0)
  }

  // ---- Meaning of the history

  /** The file system after the first `m` logged writes. */
  function Replay(base: map<nat, Block>, events: seq<Event>, m: nat): map<nat, Block>
    requires m <= |events|
  {
    if m == 0 then base else Replay(base, events, m - 1)[events[m - 1].blockno := events[m - 1].data]
  }

  /** What the file system reads through the buffer cache. */
  function View(l: Layout, s: State): map<nat, Block> {
    map b: nat | b < |s.img| && !InLog(l, b) :: if b in s.cache then s.cache[b] else s.img[b]
  }

  /** Log slots that active calls may still claim. */
  function Reserved(active: seq<Op>): int {
    if active == [] then 0 else Reserved(active[..|active| - 1]) + MAXOPBLOCKS - |active[|active| - 1].blocks|
  }

  /** The durable writes are by calls before `firstOp`, the others by later ones. */
  ghost predicate EventsOk(events: seq<Event>, durable: nat, firstOp: nat, nextId: nat) {
    && durable <= |events| && firstOp <= nextId
    && (forall i, j :: 0 <= i < durable <= j < |events| ==> events[i].op < firstOp <= events[j].op)
    && (forall i :: 0 <= i < |events| ==> events[i].op < nextId)
  }

  ghost predicate Settled(events: seq<Event>, durable: nat, firstOp: nat) {
    forall i :: 0 <= i < durable && i < |events| ==> events[i].op < firstOp
  }

  ghost predicate HistoryOk(s: State) {
    && EventsOk(s.events, s.durable, s.firstOp, s.nextId) && (!s.phase.Committing? ==> Settled(s.events, s.durable, s.firstOp))
    && (forall o :: o in s.active ==> s.firstOp <= o.id < s.nextId)
  }

  ghost predicate BudgetOk(s: State) {
    && |s.lh| + Reserved(s.active) <= LOGSIZE
    && forall o :: o in s.active ==> |o.blocks| <= MAXOPBLOCKS && forall b :: b in o.blocks ==> b in s.lh
  }

  ghost predicate LogOk(l: Layout, s: State) {
    && Fits(l, s.img) && HeaderOk(l, s.img)
    && |s.lh| < l.size && NoDuplicates(s.lh)
    && forall i :: 0 <= i < |s.lh| ==> s.lh[i] < |s.img| && !InLog(l, s.lh[i])
  }

  ghost predicate IdleOk(l: Layout, base: map<nat, Block>, s: State)
    requires Fits(l, s.img)
  {
    && HeaderCount(l, s.img) == 0
    && (forall b :: b in s.cache <==> b in s.lh)
    && Replay(base, s.events, |s.events|) == View(l, s)
    && (s.lh == [] ==> s.durable == |s.events|)
    && (s.active == [] ==> s.lh == [])
  }

  ghost predicate CommittingOk(l: Layout, base: map<nat, Block>, s: State, img0: Image, vals: seq<Block>, k: nat)
    requires s.durable <= |s.events|
  {
    && s.active == []
    && CommitReady(l, img0, s.lh, vals)
    && var ws := CommitWrites(l, img0, s.lh, vals);
    && k <= |ws| && InRange(img0, ws)
    && s.img == After(img0, ws, k)
    && Replay(base, s.events, |s.events|) == Overlay(l, img0, s.lh, vals)
    && (k > |s.lh| || s.lh == [] ==> s.durable == |s.events|)
    && (k <= |s.lh| ==> Replay(base, s.events, s.durable) == Home(l, img0))
  }

  ghost predicate RecoveringOk(l: Layout, base: map<nat, Block>, s: State, img0: Image, k: nat)
    requires s.durable <= |s.events|
  {
    && s.active == [] && s.lh == [] && s.cache == map[] && s.durable == |s.events|
    && Fits(l, img0) && HeaderOk(l, img0)
    && var ws := RecoveryWrites(l, img0);
    && k <= |ws| && InRange(img0, ws)
    && s.img == After(img0, ws, k)
    && Recovered(l, img0) == Replay(base, s.events, s.durable)
  }

  ghost predicate PhaseOk(l: Layout, base: map<nat, Block>, s: State)
    requires Fits(l, s.img) && s.durable <= |s.events|
  {
    match s.phase
    case Idle => IdleOk(l, base, s)
    case Committing(img0, vals, k) => CommittingOk(l, base, s, img0, vals, k)
    case Recovering(img0, k) => RecoveringOk(l, base, s, img0, k)
  }

  ghost predicate Inv(l: Layout, base: map<nat, Block>, s: State) {
    && LogOk(l, s)
    && HistoryOk(s)
    && BudgetOk(s)
    && Recovered(l, s.img) == Replay(base, s.events, s.durable)
    && PhaseOk(l, base, s)
  }

  // ---- Lemmas about the pieces

  lemma {:induction false} ReservedNonNegative(active: seq<Op>)
    requires forall o :: o in active ==> |o.blocks| <= MAXOPBLOCKS
    ensures 0 <= Reserved(active) <= |active| * MAXOPBLOCKS
  {
    if active != [] {
      ReservedNonNegative(active[..|active| - 1]);
    }
  }

  lemma {:induction false} ReservedUpdate(active: seq<Op>, i: nat, op: Op)
    requires i < |active|
    ensures Reserved(active[i := op]) == Reserved(active) + |active[i].blocks| - |op.blocks|
  {
    var n := |active| - 1;
    if i < n {
      ReservedUpdate(active[..n], i, op);
      assert active[i := op][..n] == active[..n][i := op];
    } else {
      assert active[i := op][..n] == active[..n];
    }
  }

  lemma {:induction false} ReservedRemove(active: seq<Op>, i: nat)
    requires i < |active|
    ensures Reserved(active[..i] + active[i + 1..]) == Reserved(active) - MAXOPBLOCKS + |active[i].blocks|
  {
    var n := |active| - 1;
    var rest := active[..i] + active[i + 1..];
    if i < n {
      ReservedRemove(active[..n], i);
      assert rest[..n - 1] == active[..n][..i] + active[..n][i + 1..];
    } else {
      assert rest == active[..n];
    }
  }

  lemma {:induction false} ReplayPrefix(base: map<nat, Block>, es: seq<Event>, fs: seq<Event>, m: nat)
    requires m <= |es| && m <= |fs| && es[..m] == fs[..m]
    ensures Replay(base, es, m) == Replay(base, fs, m)
  {
    if m > 0 {
      assert es[..m - 1] == es[..m][..m - 1];
      assert fs[..m - 1] == fs[..m][..m - 1];
      ReplayPrefix(base, es, fs, m - 1);
      assert es[m - 1] == es[..m][m - 1] == fs[m - 1];
    }
  }

  /** The cached blocks, as the commit will log them, overlay the disk to exactly what readers see. */
  lemma {:induction false} ViewIsOverlay(l: Layout, s: State)
    requires forall b :: b in s.cache <==> b in s.lh
    requires NoDuplicates(s.lh) && forall i :: 0 <= i < |s.lh| ==> s.lh[i] < |s.img|
    ensures View(l, s) == Overlay(l, s.img, s.lh, CacheValues(s.lh, s.cache))
  {
    var vals := CacheValues(s.lh, s.cache);
    forall b: nat | b < |s.img| && !InLog(l, b)
      ensures Overlaid(s.img, s.lh, vals, |s.lh|, b) == if b in s.cache then s.cache[b] else s.img[b]
    {
      if i: nat :| i < |s.lh| && s.lh[i] == b {
        OverlaidHit(s.img, s.lh, vals, |s.lh|, i);
      } else {
        OverlaidMiss(s.img, s.lh, vals, |s.lh|, b);
      }
    }
  }

  // ---- Every step keeps the invariant

  lemma {:induction false} BeginKeeps(l: Layout, base: map<nat, Block>, s: State, t: State)
    requires Inv(l, base, s) && Next(l, s, BeginOp, t)
    ensures Inv(l, base, t)
  {
    ReservedNonNegative(s.active);
    assert t.active[..|s.active|] == s.active;
    assert View(l, t) == View(l, s);
  }

  lemma {:induction false} LogWriteKeepsBudget(l: Layout, s: State, t: State, i: nat, b: nat, v: Block)
    requires BudgetOk(s) && Next(l, s, LogWrite(i, b, v), t)
    ensures BudgetOk(t)
  {
    ReservedUpdate(s.active, i, t.active[i]);
    var before, after := s.active[i].blocks, t.active[i].blocks;
    if b in before {
      assert after == before;
    } else {
      assert |after| == |before| + 1;
    }
  }

  lemma {:induction false} LogWriteKeepsHistory(l: Layout, base: map<nat, Block>, s: State, t: State, i: nat, b: nat, v: Block)
    requires HistoryOk(s) && s.phase == Idle && Next(l, s, LogWrite(i, b, v), t)
    ensures HistoryOk(t)
    ensures Replay(base, t.events, t.durable) == Replay(base, s.events, s.durable)
    ensures Replay(base, t.events, |t.events|) == Replay(base, s.events, |s.events|)[b := v]
  {
    var n := |s.events|;
    assert t.events[..n] == s.events[..n];
    assert t.events[..s.durable] == s.events[..s.durable];
    ReplayPrefix(base, s.events, t.events, n);
    ReplayPrefix(base, s.events, t.events, s.durable);
  }

  lemma {:induction false} LogWriteKeepsView(l: Layout, s: State, t: State, i: nat, b: nat, v: Block)
    requires LogOk(l, s) && Next(l, s, LogWrite(i, b, v), t)
    requires forall b :: b in s.cache <==> b in s.lh
    ensures LogOk(l, t) && View(l, t) == View(l, s)[b := v]
    ensures forall b :: b in t.cache <==> b in t.lh
  {
  }

  lemma {:induction false} LogWriteKeeps(l: Layout, base: map<nat, Block>, s: State, t: State, i: nat, b: nat, v: Block)
    requires Inv(l, base, s) && Next(l, s, LogWrite(i, b, v), t)
    ensures Inv(l, base, t)
  {
    LogWriteKeepsBudget(l, s, t, i, b, v);
    LogWriteKeepsHistory(l, base, s, t, i, b, v);
    LogWriteKeepsView(l, s, t, i, b, v);
  }

  /** The last `end_op` of a group starts the commit of exactly what readers see. */
  lemma {:induction false} EndStartsCommit(l: Layout, base: map<nat, Block>, s: State)
    requires LogOk(l, s) && |s.lh| <= LOGSIZE && s.durable <= |s.events| && IdleOk(l, base, s)
    requires Recovered(l, s.img) == Replay(base, s.events, s.durable)
    ensures CommittingOk(l, base, s.(active := []), s.img, CacheValues(s.lh, s.cache), 0)
  {
    ViewIsOverlay(l, s);
    assert HeaderBlocks(l, s.img) == [];
    assert Recovered(l, s.img) == Home(l, s.img);
    CommitInRange(l, s.img, s.lh, CacheValues(s.lh, s.cache));
  }

  lemma {:induction false} EndKeepsBudget(l: Layout, s: State, t: State, i: nat)
    requires BudgetOk(s) && Next(l, s, EndOp(i), t)
    ensures BudgetOk(t)
  {
    ReservedRemove(s.active, i);
    assert forall o :: o in t.active ==> o in s.active;
  }

  lemma {:induction false} EndKeepsHistory(l: Layout, s: State, t: State, i: nat)
    requires HistoryOk(s) && Next(l, s, EndOp(i), t) && !s.phase.Committing?
    ensures HistoryOk(t)
  {
  }

  lemma {:induction false} EndKeeps(l: Layout, base: map<nat, Block>, s: State, t: State, i: nat)
    requires Inv(l, base, s) && Next(l, s, EndOp(i), t)
    ensures Inv(l, base, t)
  {
    EndKeepsBudget(l, s, t, i);
    EndKeepsHistory(l, s, t, i);
    if t.active == [] {
      ReservedNonNegative(s.active);
      EndStartsCommit(l, base, s);
    } else {
      assert View(l, t) == View(l, s);
    }
  }

  lemma {:induction false} CommitWriteAdvances(l: Layout, base: map<nat, Block>, s: State, t: State)
    requires s.durable <= |s.events| && s.phase.Committing?
    requires CommittingOk(l, base, s, s.phase.img0, s.phase.vals, s.phase.k) && Next(l, s, CommitWrite, t)
    ensures CommittingOk(l, base, t, t.phase.img0, t.phase.vals, t.phase.k)
  {
    var ws := CommitWrites(l, s.phase.img0, s.lh, s.phase.vals);
    assert t.img == After(s.phase.img0, ws, s.phase.k + 1);
  }

  /** Wherever a commit has got to, a crash recovers to the durable part of the history. */
  lemma {:induction false} CommittingRecovers(l: Layout, base: map<nat, Block>, s: State, img0: Image, vals: seq<Block>, k: nat)
    requires s.durable <= |s.events| && CommittingOk(l, base, s, img0, vals, k)
    ensures LogOk(l, s) && Recovered(l, s.img) == Replay(base, s.events, s.durable)
  {
    CommitIsAtomic(l, img0, s.lh, vals, k);
  }

  lemma {:induction false} CommitWriteKeeps(l: Layout, base: map<nat, Block>, s: State, t: State)
    requires Fits(l, s.img) && HistoryOk(s)
    requires s.phase.Committing? && PhaseOk(l, base, s) && Next(l, s, CommitWrite, t)
    ensures LogOk(l, t) && HistoryOk(t) && Recovered(l, t.img) == Replay(base, t.events, t.durable)
    ensures CommittingOk(l, base, t, t.phase.img0, t.phase.vals, t.phase.k)
  {
    CommitWriteAdvances(l, base, s, t);
    CommittingRecovers(l, base, t, t.phase.img0, t.phase.vals, t.phase.k);
  }

  /** Once all writes of a commit are done, the history is in its home locations and the log is empty. */
  lemma {:induction false} CommittedHome(l: Layout, base: map<nat, Block>, s: State, img0: Image, vals: seq<Block>, k: nat)
    requires s.durable <= |s.events| && CommittingOk(l, base, s, img0, vals, k) && k == |CommitWrites(l, img0, s.lh, vals)|
    ensures Fits(l, s.img) && HeaderOk(l, s.img) && HeaderCount(l, s.img) == 0 && s.durable == |s.events|
    ensures Home(l, s.img) == Replay(base, s.events, |s.events|) == Recovered(l, s.img)
  {
    CommitIsAtomic(l, img0, s.lh, vals, k);
    if s.lh == [] {
      assert Overlay(l, img0, s.lh, vals) == Home(l, img0);
    }
  }

  lemma {:induction false} CommitDoneKeeps(l: Layout, base: map<nat, Block>, s: State, t: State)
    requires Inv(l, base, s) && Next(l, s, CommitDone, t)
    ensures Inv(l, base, t)
  {
    CommittedHome(l, base, s, s.phase.img0, s.phase.vals, s.phase.k);
    assert View(l, t) == Home(l, t.img);
  }

  lemma {:induction false} CrashKeeps(l: Layout, base: map<nat, Block>, s: State, t: State)
    requires Inv(l, base, s) && Next(l, s, Crash, t)
    ensures Inv(l, base, t)
  {
    ReplayPrefix(base, s.events, t.events, s.durable);
    RecoveryInRange(l, s.img);
  }

  lemma {:induction false} RecoveringRecovers(l: Layout, base: map<nat, Block>, s: State, img0: Image, k: nat)
    requires s.durable <= |s.events| && RecoveringOk(l, base, s, img0, k)
    ensures LogOk(l, s) && Recovered(l, s.img) == Replay(base, s.events, s.durable)
  {
    RecoveryIsIdempotent(l, img0, k);
  }

  lemma {:induction false} RecoveryWriteAdvances(l: Layout, base: map<nat, Block>, s: State, t: State)
    requires s.durable <= |s.events| && s.phase.Recovering?
    requires RecoveringOk(l, base, s, s.phase.img0, s.phase.k) && Next(l, s, RecoveryWrite, t)
    ensures RecoveringOk(l, base, t, t.phase.img0, t.phase.k)
  {
  }

  lemma {:induction false} RecoveryWriteKeeps(l: Layout, base: map<nat, Block>, s: State, t: State)
    requires Fits(l, s.img) && HistoryOk(s)
    requires s.phase.Recovering? && PhaseOk(l, base, s) && Next(l, s, RecoveryWrite, t)
    ensures LogOk(l, t) && HistoryOk(t) && Recovered(l, t.img) == Replay(base, t.events, t.durable)
    ensures RecoveringOk(l, base, t, t.phase.img0, t.phase.k)
  {
    RecoveryWriteAdvances(l, base, s, t);
    RecoveringRecovers(l, base, t, t.phase.img0, t.phase.k);
  }

  lemma {:induction false} RecoveryDoneKeeps(l: Layout, base: map<nat, Block>, s: State, t: State)
    requires Inv(l, base, s) && Next(l, s, RecoveryDone, t)
    ensures Inv(l, base, t)
  {
  }

  lemma {:induction false} StepKeeps(l: Layout, base: map<nat, Block>, s: State, step: Step, t: State)
    requires Inv(l, base, s) && Next(l, s, step, t)
    ensures Inv(l, base, t)
  {
    match step
    case BeginOp => BeginKeeps(l, base, s, t);
    case LogWrite(i, b, v) => LogWriteKeeps(l, base, s, t, i, b, v);
    case EndOp(i) => EndKeeps(l, base, s, t, i);
    case CommitWrite => CommitWriteKeeps(l, base, s, t);
    case CommitDone => CommitDoneKeeps(l, base, s, t);
    case Crash => CrashKeeps(l, base, s, t);
    case RecoveryWrite => RecoveryWriteKeeps(l, base, s, t);
    case RecoveryDone => RecoveryDoneKeeps(l, base, s, t);
  }

  // ---- Runs

  ghost predicate IsRun(l: Layout, run: seq<State>, steps: seq<Step>) {
    && |run| == |steps| + 1
    && Init(l, run[0])
    && forall i :: 0 <= i < |steps| ==> Next(l, run[i], steps[i], run[i + 1])
  }

  lemma {:induction false} InitOk(l: Layout, s: State)
    requires Init(l, s)
    ensures Inv(l, Home(l, s.img), s)
  {
  }

  lemma {:induction false} RunKeeps(l: Layout, base: map<nat, Block>, run: seq<State>, steps: seq<Step>, n: nat)
    requires |run| == |steps| + 1 && n < |run| && Inv(l, base, run[0])
    requires forall i :: 0 <= i < |steps| ==> Next(l, run[i], steps[i], run[i + 1])
    ensures Inv(l, base, run[n])
  {
    if n > 0 {
      RunKeeps(l, base, run, steps, n - 1);
      StepKeeps(l, base, run[n - 1], steps[n - 1], run[n]);
    }
  }

  /** Group commit. In every state of every run, a crash recovers to the effect of the first `durable` logged
      writes, and no system call has writes on both sides of that line; nothing is outstanding during a commit
      (so `end_op` cannot meet "log.committing"); and once nothing is outstanding everything is durable. */
  lemma {:induction false} AllOrNothing(l: Layout, run: seq<State>, steps: seq<Step>, n: nat)
    requires IsRun(l, run, steps) && n < |run|
    ensures
      var s := run[n];
      && Fits(l, s.img) && HeaderOk(l, s.img) && s.durable <= |s.events|
      && Recovered(l, s.img) == Replay(Home(l, run[0].img), s.events, s.durable)
      && (forall i, j :: 0 <= i < s.durable <= j < |s.events| ==> s.events[i].op != s.events[j].op)
      && (s.phase.Committing? ==> s.active == [])
      && (s.phase == Idle && s.active == [] ==> s.durable == |s.events|)
      && (s.phase == Idle ==> View(l, s) == Replay(Home(l, run[0].img), s.events, |s.events|))
  {
    InitOk(l, run[0]);
    RunKeeps(l, Home(l, run[0].img), run, steps, n);
  }

  /** Reservation: as long as each call logs at most MAXOPBLOCKS distinct blocks, `begin_op` keeps the
      transaction within LOGSIZE, and absorption keeps it free of duplicates. */
  lemma {:induction false} LogNeverOverflows(l: Layout, run: seq<State>, steps: seq<Step>, n: nat)
    requires IsRun(l, run, steps) && n < |run|
    ensures |run[n].lh| <= LOGSIZE && NoDuplicates(run[n].lh) && |run[n].active| <= LOGSIZE / MAXOPBLOCKS
  {
    InitOk(l, run[0]);
    RunKeeps(l, Home(l, run[0].img), run, steps, n);
    ReservedNonNegative(run[n].active);
    AtMostThree(l, run, steps, n);
  }

  lemma {:induction false} AtMostThree(l: Layout, run: seq<State>, steps: seq<Step>, n: nat)
    requires IsRun(l, run, steps) && n < |run|
    ensures |run[n].active| <= LOGSIZE / MAXOPBLOCKS
  {
    if n > 0 {
      AtMostThree(l, run, steps, n - 1);
      assert Next(l, run[n - 1], steps[n - 1], run[n]);
    }
  }
}

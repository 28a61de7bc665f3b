/** The signals of proc.c: the pass over the pending signals on the way back to user mode, delivery to a user
    handler, and return from it. A signal mask is the set of its bits. */
module Signals {
  import opened Base

  const NSIG := 32
  const SIG_DFL := 0
  const SIG_IGN := 1
  const SIGKILL := 9
  const SIGSTOP := 17
  const SIGCONT := 19

  // ---- Memory and trap frames

  const FRAME := 76                  // sizeof(struct trapframe)
  const CODE := 7                    // sigret_end - sigret_start

  // Words of a trap frame.
  const EAX := 7
  const EIP := 14
  const CS := 15
  const ESP := 17

  type Memory = int -> byte

  type Frame = f: seq<byte> | |f| == FRAME witness seq(FRAME, _ => 0)

  /** Distance of address `x` behind address `a`. */
  function Behind(x: int, a: int): nat {
    (x - a) % WORD
  }

  /** memmove() of `bs` to address `a`. */
  function Store(m: Memory, a: int, bs: seq<byte>): Memory {
    x => if Behind(x, a) < |bs| then bs[Behind(x, a)] else m(x)
  }

  function Load(m: Memory, a: int, n: nat): (bs: seq<byte>)
    ensures |bs| == n
  {
    seq(n, i requires 0 <= i < n => m(a + i))
  }

  function Get(f: Frame, k: nat): int
    requires 4 * k + 4 <= FRAME
  {
    WordOf(f[4 * k..4 * k + 4])
  }

  function Put(f: Frame, k: nat, w: int): Frame
    requires 4 * k + 4 <= FRAME
  {
    f[..4 * k] + WordBytes(w) + f[4 * k + 4..]
  }

  /** Overwriting a field and writing its old value back restores the frame. */
  lemma {:induction false} PutBack(f: Frame, k: nat, w: int)
    requires 4 * k + 4 <= FRAME
    ensures Put(Put(f, k, w), k, Get(f, k)) == f
    ensures Get(Put(f, k, w), k) == w % WORD
  {
    var g := Put(f, k, w);
    assert g[..4 * k] == f[..4 * k] && g[4 * k + 4..] == f[4 * k + 4..] && g[4 * k..4 * k + 4] == WordBytes(w);
    BytesOfWord(f[4 * k..4 * k + 4]);
    WordOfBytes(w);
    assert f == f[..4 * k] + f[4 * k..4 * k + 4] + f[4 * k + 4..];
  }

  /** The `n` bytes at `a` and the `m` bytes at `b` do not overlap. */
  ghost predicate Apart(a: int, n: nat, b: int, m: nat) {
    forall x :: Behind(x, a) < n ==> Behind(x, b) >= m
  }

  lemma {:induction false} LoadStored(m: Memory, a: int, bs: seq<byte>)
    requires |bs| < WORD
    ensures Load(Store(m, a, bs), a, |bs|) == bs
  {
    var l := Load(Store(m, a, bs), a, |bs|);
    forall i | 0 <= i < |bs| ensures l[i] == bs[i] {
      assert Behind(a + i, a) == i;
    }
  }

  lemma {:induction false} LoadApart(m: Memory, a: int, bs: seq<byte>, b: int, n: nat)
    requires Apart(b, n, a, |bs|) && n < WORD
    ensures Load(Store(m, a, bs), b, n) == Load(m, b, n)
  {
  }

  /** A range of `len` bytes that starts `d` bytes below `top` and ends at or below it. */
  lemma {:induction false} BelowIsApart(top: int, n: nat, d: nat, len: nat)
    requires len <= d && d + n < WORD
    ensures Apart(top, n, top - d, len) && Apart(top - d, len, top, n)
  {
  }

  lemma {:induction false} PutPut(f: Frame, k: nat, v: int, w: int)
    requires 4 * k + 4 <= FRAME
    ensures Put(Put(f, k, v), k, w) == Put(f, k, w)
  {
  }

  /** The frame that a delivery saves is the frame as it was, although the stack pointer has been lowered. */
  lemma {:induction false} FramePushed(f: Frame, esp: int, h: int)
    requires esp == Get(f, ESP)
    ensures
      var g := Put(f, ESP, esp - FRAME);
      Put(g, ESP, esp) == f && Put(Put(g, ESP, esp - PUSHED), EIP, h) == Put(Put(f, ESP, esp - PUSHED), EIP, h)
  {
    PutBack(f, ESP, esp - FRAME);
    PutPut(f, ESP, esp - FRAME, esp - PUSHED);
  }

  const PUSHED := FRAME + CODE + 8   // bytes that a delivery puts on the user stack

  /** User memory after delivery of signal `i` to a process with frame `f`. */
  ghost function Stack(m: Memory, f: Frame, i: nat): Memory {
    var frame, code := Get(f, ESP) - FRAME, Get(f, ESP) - FRAME - CODE;
    Store(Store(Store(Store(m, frame, f), code, SigretCode), code - 4, WordBytes(i)), code - 8, WordBytes(code))
  }

  /** Only the bytes that a delivery pushes may differ. */
  ghost predicate Pushed(f: Frame, m: Memory, m': Memory) {
    forall x :: Behind(x, Get(f, ESP) - PUSHED) >= PUSHED ==> m'(x) == m(x)
  }

  /** The four stores of a delivery do not overwrite each other, whatever the stack pointer is. */
  lemma {:induction false} StackHolds(m: Memory, f: Frame, i: nat)
    ensures
      var frame, code := Get(f, ESP) - FRAME, Get(f, ESP) - FRAME - CODE;
      && Load(Stack(m, f, i), frame, FRAME) == f && Load(Stack(m, f, i), code, CODE) == SigretCode
      && Load(Stack(m, f, i), code - 4, 4) == WordBytes(i) && Load(Stack(m, f, i), code - 8, 4) == WordBytes(code)
  {
    var frame, code := Get(f, ESP) - FRAME, Get(f, ESP) - FRAME - CODE;
    var m1 := Store(m, frame, f);
    var m2 := Store(m1, code, SigretCode);
    var m3 := Store(m2, code - 4, WordBytes(i));
    LoadStored(m, frame, f);
    LoadStored(m1, code, SigretCode);
    LoadStored(m2, code - 4, WordBytes(i));
    LoadStored(m3, code - 8, WordBytes(code));
    BelowIsApart(frame, FRAME, CODE, CODE);
    BelowIsApart(frame, FRAME, CODE + 4, 4);
    BelowIsApart(frame, FRAME, CODE + 8, 4);
    BelowIsApart(code, CODE, 4, 4);
    BelowIsApart(code, CODE, 8, 4);
    BelowIsApart(code - 4, 4, 4, 4);
    LoadApart(m1, code, SigretCode, frame, FRAME);
    LoadApart(m2, code - 4, WordBytes(i), frame, FRAME);
    LoadApart(m3, code - 8, WordBytes(code), frame, FRAME);
    LoadApart(m2, code - 4, WordBytes(i), code, CODE);
    LoadApart(m3, code - 8, WordBytes(code), code, CODE);
    LoadApart(m3, code - 8, WordBytes(code), code - 4, 4);
  }

  lemma {:induction false} StackLeaves(m: Memory, f: Frame, i: nat, x: int)
    requires Behind(x, Get(f, ESP) - PUSHED) >= PUSHED
    ensures Stack(m, f, i)(x) == m(x)
  {
    Outside(x, Get(f, ESP), FRAME, FRAME);
    Outside(x, Get(f, ESP), FRAME + CODE, CODE);
    Outside(x, Get(f, ESP), FRAME + CODE + 4, 4);
  }

  lemma {:induction false} Outside(x: int, esp: int, d: nat, len: nat)
    requires len <= d <= PUSHED && Behind(x, esp - PUSHED) >= PUSHED
    ensures Behind(x, esp - d) >= len
  {
  }

  // ---- The process

  /** sigret_start up to sigret_end: movl $SYS_sigret, %eax; int $T_SYSCALL. */
  const SigretCode: seq<byte> := [0xB8, 24, 0, 0, 0, 0xCD, 64]

  /** How a pass over the pending signals ends: back to user mode, in the handler of a signal, or stopped for good. */
  datatype Outcome = Returned | Entered(signum: nat) | StillStopped(signum: nat)

  /** struct sigaction. */
  datatype Act = Act(handler: int, mask: set<nat>)

  /** A pointer argument that receives a result: rejected by argptr(), null, or good. */
  datatype Out = Bad | Null | Good

  /** What other processes send in the turn of one signal: before the pass loads the word of pending signals, between
      that load and the store that follows it, while the process is stopped, and while check_cont_sig() looks at the
      word it has loaded. */
  datatype Traffic = Traffic(before: set<nat>, during: set<nat>, stopped: set<nat>, continuing: set<nat>)

  /** signalHandler[]. */
  type Handlers = h: seq<int> | |h| == NSIG witness seq(NSIG, _ => SIG_DFL)

  predicate Blockable(i: nat) {
    i != SIGKILL && i != SIGSTOP
  }

  /** Signal `i` stays pending when its turn comes. */
  predicate Held(h: Handlers, mask: set<nat>, i: nat)
    requires i < NSIG
  {
    Blockable(i) && (i in mask || h[i] == SIG_IGN)
  }

  /** Signal `i` has a handler in user space: its handler is none of the values that stand for a kernel action. */
  predicate UserHandled(h: Handlers, i: nat)
    requires i < NSIG
  {
    !Stops(h, i) && !Conts(h, i) && !Kills(h, i)
  }

  predicate Stops(h: Handlers, i: nat)
    requires i < NSIG
  {
    h[i] == SIGSTOP || i == SIGSTOP
  }

  /** Signal `i` continues a stopped process. */
  predicate Conts(h: Handlers, i: nat)
    requires i < NSIG
  {
    h[i] == SIGCONT || (i == SIGCONT && h[i] == SIG_DFL)
  }

  /** Signal `i`, when taken, kills the process. */
  predicate Kills(h: Handlers, i: nat)
    requires i < NSIG
  {
    !Stops(h, i) && !Conts(h, i) && (h[i] == SIGKILL || h[i] == SIG_DFL)
  }

  /** The signals of `sent` that kill() makes pending. */
  function Accepted(h: Handlers, sent: set<nat>): set<nat> {
    set j | j in sent && j < NSIG && h[j] != SIG_IGN
  }

  // ---- A pass over the pending signals, while others are sent

  predicate In(t: Traffic, j: nat) {
    j in t.before || j in t.during || j in t.stopped || j in t.continuing
  }

  /** Signal `j` was sent in one of the first `i` turns or, if `met`, before turn `i`. */
  ghost predicate Came(traffic: seq<Traffic>, i: nat, met: bool, j: nat)
    requires i <= |traffic|
  {
    (exists k :: 0 <= k < i && In(traffic[k], j)) || (met && i < |traffic| && j in traffic[i].before)
  }

  /** Signal `j` was sent before turn `i` and before its own, and not while a copy of the word was to be stored. */
  ghost predicate Early(traffic: seq<Traffic>, i: nat, met: bool, j: nat)
    requires i <= |traffic|
  {
    (exists k :: 0 <= k < i && k <= j && j in traffic[k].before) || (met && i < |traffic| && i <= j && j in traffic[i].before)
  }

  /** Signal `j` was sent after the pass had loaded the word in its turn. */
  ghost predicate Late(traffic: seq<Traffic>, j: nat) {
    exists k :: j <= k < |traffic| && In(traffic[k], j) &&
      (k == j ==> j in traffic[k].during + traffic[k].stopped + traffic[k].continuing)
  }

  /** Signal `j` was pending in `p0`, where the pass began, or came in time. */
  ghost predicate Expected(h: Handlers, p0: set<nat>, traffic: seq<Traffic>, i: nat, met: bool, j: nat)
    requires i <= |traffic|
  {
    j in p0 || (j < NSIG && h[j] != SIG_IGN && Early(traffic, i, met, j))
  }

  /** Where an expected signal `j` is when the turns before `i` are over: waiting, or dealt with. */
  predicate Seen(h: Handlers, mask: set<nat>, i: nat, pending: set<nat>, killed: bool, j: nat) {
    && j < NSIG
    && (Held(h, mask, j) ==> j in pending)
    && (if j < i then Held(h, mask, j) || (!UserHandled(h, j) && (Kills(h, j) ==> killed)) else j in pending || Conts(h, j))
  }

  /** A pending signal `j` was sent, and not left over from the turns before `i`. */
  ghost predicate Left(h: Handlers, mask: set<nat>, p0: set<nat>, traffic: seq<Traffic>, i: nat, met: bool, j: nat)
    requires i <= |traffic|
  {
    && j < NSIG && (j in p0 || Came(traffic, i, met, j))
    && (j < i ==> Held(h, mask, j) || Late(traffic, j))
  }

  /** The pass that began with `p0` pending has finished the turns before `i` and, if `met`, seen what came before
      turn `i`. */
  ghost predicate Pass(h: Handlers, mask: set<nat>, p0: set<nat>, traffic: seq<Traffic>, i: nat, met: bool,
                       pending: set<nat>, killed: bool)
    requires i <= |traffic|
  {
    && (forall j {:trigger Seen(h, mask, i, pending, killed, j)} ::
          Expected(h, p0, traffic, i, met, j) ==> Seen(h, mask, i, pending, killed, j))
    && (forall j {:trigger Left(h, mask, p0, traffic, i, met, j)} :: j in pending ==> Left(h, mask, p0, traffic, i, met, j))
    && (killed ==> Culprit(h, mask, p0, traffic, i, met))
    && (Halts(h, mask, p0, i) ==> Continuer(h, mask, p0, traffic, i, met))
  }

  /** A pending signal below `i` stops the process. */
  ghost predicate Halts(h: Handlers, mask: set<nat>, p0: set<nat>, i: nat) {
    exists j :: j in p0 && j < i && j < NSIG && Stops(h, j) && !Held(h, mask, j)
  }

  /** A signal that was sent continues the process. */
  ghost predicate Continuer(h: Handlers, mask: set<nat>, p0: set<nat>, traffic: seq<Traffic>, i: nat, met: bool)
    requires i <= |traffic|
  {
    exists j :: 0 <= j < NSIG && Conts(h, j) && j !in mask && (j in p0 || Came(traffic, i, met, j))
  }

  /** Turn `i`, when the process goes on after it, was not one that stops it, or something continued it. */
  ghost predicate GoesOn(h: Handlers, mask: set<nat>, t: Traffic, i: nat, before: set<nat>)
    requires i < NSIG
  {
    i in before && !Held(h, mask, i) && Stops(h, i) ==>
      exists j :: j in before + Accepted(h, t.stopped) && j < NSIG && j !in mask && Conts(h, j)
  }

  /** A signal that was sent kills the process. */
  ghost predicate Culprit(h: Handlers, mask: set<nat>, p0: set<nat>, traffic: seq<Traffic>, i: nat, met: bool)
    requires i <= |traffic|
  {
    exists j :: 0 <= j < NSIG && Kills(h, j) && !Held(h, mask, j) && (j in p0 || Came(traffic, i, met, j))
  }

  /** What turn `i` makes of the pending signals. It stores back what it loaded, so where it takes the signal, whatever
      came in between is lost. */
  ghost predicate Turned(h: Handlers, mask: set<nat>, t: Traffic, i: nat, before: set<nat>, after: set<nat>)
    requires i < NSIG
  {
    if i !in before || Held(h, mask, i) then after == before + Accepted(h, t.during)
    else if Stops(h, i) then
      && after <= before - {i} + Accepted(h, t.stopped) + Accepted(h, t.continuing)
      && forall j :: j in before && j != i ==> j in after || (j < NSIG && Conts(h, j) && j !in mask)
    else after == before - {i}
  }

  lemma {:induction false} MeetKeeps(h: Handlers, mask: set<nat>, p0: set<nat>, traffic: seq<Traffic>, i: nat, pending: set<nat>, killed: bool)
    requires i < |traffic| && Pass(h, mask, p0, traffic, i, false, pending, killed)
    ensures Pass(h, mask, p0, traffic, i, true, pending + Accepted(h, traffic[i].before), killed)
  {
    var after := pending + Accepted(h, traffic[i].before);
    forall j | Expected(h, p0, traffic, i, true, j) ensures Seen(h, mask, i, after, killed, j) {
      if Expected(h, p0, traffic, i, false, j) { assert Seen(h, mask, i, pending, killed, j); }
    }
    forall j | j in after ensures Left(h, mask, p0, traffic, i, true, j) {
      if j in pending { assert Left(h, mask, p0, traffic, i, false, j); } else { assert In(traffic[i], j); }
    }
  }

  lemma {:induction false} CameMore(traffic: seq<Traffic>, i: nat, j: nat)
    requires i < |traffic| && (Came(traffic, i, true, j) || In(traffic[i], j))
    ensures Came(traffic, i + 1, false, j)
  {
    if k :| 0 <= k < i && In(traffic[k], j) {} else { assert In(traffic[i], j); }
  }

  lemma {:induction false} EarlyMore(traffic: seq<Traffic>, i: nat, j: nat)
    requires i < |traffic| && Early(traffic, i + 1, false, j)
    ensures Early(traffic, i, true, j)
  {
  }

  lemma {:induction false} TurnSees(h: Handlers, mask: set<nat>, t: Traffic, i: nat, before: set<nat>, after: set<nat>, killed: bool, j: nat)
    requires i < NSIG && Turned(h, mask, t, i, before, after) && Seen(h, mask, i, before, killed, j)
    requires i in before && !Held(h, mask, i) ==> !UserHandled(h, i)
    ensures Seen(h, mask, i + 1, after, killed || (i in before && !Held(h, mask, i) && Kills(h, i)), j)
  {
  }

  lemma {:induction false} TurnLeaves(h: Handlers, mask: set<nat>, p0: set<nat>, traffic: seq<Traffic>, i: nat, before: set<nat>, after: set<nat>, j: nat)
    requires i < NSIG == |traffic| && Turned(h, mask, traffic[i], i, before, after) && j in after
    requires j in before ==> Left(h, mask, p0, traffic, i, true, j)
    ensures Left(h, mask, p0, traffic, i + 1, false, j)
  {
    if j in before && !In(traffic[i], j) {
      if Came(traffic, i, true, j) { CameMore(traffic, i, j); }
    } else {
      CameMore(traffic, i, j);
    }
  }

  /** One turn that enters no handler. */
  lemma {:induction false} TurnKeeps(h: Handlers, mask: set<nat>, p0: set<nat>, traffic: seq<Traffic>, i: nat, before: set<nat>, after: set<nat>, killed: bool)
    requires i < NSIG == |traffic| && Pass(h, mask, p0, traffic, i, true, before, killed)
    requires Turned(h, mask, traffic[i], i, before, after)
    requires i in before && !Held(h, mask, i) ==> !UserHandled(h, i)
    requires GoesOn(h, mask, traffic[i], i, before) && h[SIGSTOP] == SIG_DFL
    ensures Pass(h, mask, p0, traffic, i + 1, false, after, killed || (i in before && !Held(h, mask, i) && Kills(h, i)))
  {
    var dead := killed || (i in before && !Held(h, mask, i) && Kills(h, i));
    forall j {:trigger Seen(h, mask, i + 1, after, dead, j)} | Expected(h, p0, traffic, i + 1, false, j)
      ensures Seen(h, mask, i + 1, after, dead, j)
    {
      if j !in p0 { EarlyMore(traffic, i, j); }
      TurnSees(h, mask, traffic[i], i, before, after, killed, j);
    }
    forall j | j in after ensures Left(h, mask, p0, traffic, i + 1, false, j) {
      TurnLeaves(h, mask, p0, traffic, i, before, after, j);
    }
    if dead { CulpritMore(h, mask, p0, traffic, i, before, killed); }
    if Halts(h, mask, p0, i + 1) { ContinuerMore(h, mask, p0, traffic, i, before, killed); }
  }

  lemma {:induction false} ContinuerMore(h: Handlers, mask: set<nat>, p0: set<nat>, traffic: seq<Traffic>, i: nat, before: set<nat>, killed: bool)
    requires i < NSIG == |traffic| && Pass(h, mask, p0, traffic, i, true, before, killed)
    requires GoesOn(h, mask, traffic[i], i, before) && Halts(h, mask, p0, i + 1) && h[SIGSTOP] == SIG_DFL
    ensures Continuer(h, mask, p0, traffic, i + 1, false)
  {
    var j: nat;
    if Halts(h, mask, p0, i) {
      j :| 0 <= j < NSIG && Conts(h, j) && j !in mask && (j in p0 || Came(traffic, i, true, j));
    } else {
      assert i in p0 && Seen(h, mask, i, before, killed, i);
      j :| j in before + Accepted(h, traffic[i].stopped) && j < NSIG && j !in mask && Conts(h, j);
      if j in before { assert Left(h, mask, p0, traffic, i, true, j); } else { assert In(traffic[i], j); }
    }
    if j !in p0 { CameMore(traffic, i, j); }
  }

  lemma {:induction false} CameAll(traffic: seq<Traffic>, i: nat, met: bool, j: nat)
    requires i <= |traffic| && Came(traffic, i, met, j)
    ensures Came(traffic, |traffic|, false, j)
  {
    if k :| 0 <= k < i && In(traffic[k], j) {} else { assert In(traffic[i], j); }
  }

  lemma {:induction false} CulpritMore(h: Handlers, mask: set<nat>, p0: set<nat>, traffic: seq<Traffic>, i: nat, before: set<nat>, killed: bool)
    requires i < NSIG == |traffic| && Pass(h, mask, p0, traffic, i, true, before, killed)
    requires killed || (i in before && !Held(h, mask, i) && Kills(h, i))
    ensures Culprit(h, mask, p0, traffic, i + 1, false)
  {
    var j: nat;
    if killed {
      j :| 0 <= j < NSIG && Kills(h, j) && !Held(h, mask, j) && (j in p0 || Came(traffic, i, true, j));
    } else {
      j := i;
      assert Left(h, mask, p0, traffic, i, true, i);
    }
    if j !in p0 { CameMore(traffic, i, j); }
  }

  /** What a whole pass over the signals `p0` does, in terms of what was pending and what was sent meanwhile. */
  ghost predicate Passed(h: Handlers, mask: set<nat>, p0: set<nat>, traffic: seq<Traffic>, o: Outcome, pending: set<nat>, killed: bool)
    requires |traffic| == NSIG
  {
    // A held signal stays pending, and nothing is pending that was not sent.
    && (forall j :: j in p0 ==> j < NSIG && (Held(h, mask, j) ==> j in pending))
    && (forall j :: j in pending ==> j < NSIG && (j in p0 || Came(traffic, NSIG, false, j)))
    // Nothing deliverable is left behind, except what came too late for its turn, and no handler was passed over.
    && (o == Returned ==> forall j :: j in pending ==> Held(h, mask, j) || Late(traffic, j))
    && (o == Returned ==> forall j :: j in p0 ==> Held(h, mask, j) || !UserHandled(h, j))
    // A user handler is entered for the lowest signal that has one, may be delivered, and was sent by its turn.
    && (o.Entered? ==>
          && o.signum < NSIG && UserHandled(h, o.signum) && !Held(h, mask, o.signum)
          && (o.signum in p0 || Came(traffic, o.signum, true, o.signum))
          && (forall j :: 0 <= j < o.signum && (j in p0 || Early(traffic, o.signum, true, j)) ==> Held(h, mask, j) || !UserHandled(h, j))
          && forall j :: j in p0 && o.signum < j ==> j in pending || Conts(h, j))
    // It stays stopped for a signal that stops it, and while nothing is pending that continues it, except what came too late.
    && (o.StillStopped? ==>
          && o.signum < NSIG && Stops(h, o.signum) && !Held(h, mask, o.signum) && (o.signum in p0 || Came(traffic, NSIG, false, o.signum))
          && forall j :: j in pending && j !in traffic[o.signum].continuing ==> j in mask || !Conts(h, j))
    && (o == Returned && Halts(h, mask, p0, NSIG) ==> Continuer(h, mask, p0, traffic, NSIG, false))
    // The process is killed for a signal that kills, once its turn has come, and for nothing else; SIGKILL is not lost.
    && (forall j :: j in p0 && Kills(h, j) && !Held(h, mask, j) ==> killed || (!o.Returned? && o.signum <= j))
    && (killed ==> Culprit(h, mask, p0, traffic, NSIG, false))
    && (SIGKILL in p0 ==> killed || SIGKILL in pending)
  }

  /** Handler values that stand for an action of the kernel: default, ignore, kill, stop and continue. */
  predicate KernelAction(h: int) {
    h == 0 || h == 1 || h == 9 || h == 17 || h == 19
  }

  /** Signal `j`, unless masked, continues the process; signal `j`, unless masked, kills it. */
  predicate Continues(h: Handlers, j: nat)
    requires j < NSIG
  {
    h[j] == 19 || (j == 19 && h[j] == 0)
  }

  predicate Deadly(h: Handlers, j: nat)
    requires j < NSIG
  {
    j != 17 && (h[j] == 9 || (j != 19 && h[j] == 0))
  }

  /** kill() wakes a sleeper: for SIGKILL whatever the mask, else for a signal that is not masked and whose handler is the default
      or kills. */
  predicate Wakes(h: Handlers, mask: set<nat>, j: nat)
    requires j < NSIG
  {
    h[j] != 1 && (j == 9 || (j !in mask && (h[j] == 0 || h[j] == 9)))
  }

  /** What a pass promises, by signal numbers and handler values: 9 is SIGKILL, 17 SIGSTOP and 19 SIGCONT. */
  ghost predicate Promised(h: Handlers, mask: set<nat>, p0: set<nat>, traffic: seq<Traffic>, o: Outcome, pending: set<nat>, killed: bool)
    requires |traffic| == NSIG && forall j :: j in p0 ==> j < NSIG
  {
    // SIGKILL kills and SIGSTOP stops, whatever the mask.
    && (9 in p0 && o == Returned ==> killed)
    && (17 in p0 && o == Returned ==>
          exists j :: 0 <= j < NSIG && j !in mask && Continues(h, j) && (j in p0 || Came(traffic, NSIG, false, j)))
    && (o.StillStopped? ==>
          && o.signum < NSIG && (o.signum == 17 || h[o.signum] == 17)
          && forall j :: j in pending && j < NSIG && j !in traffic[o.signum].continuing ==> j in mask || !Continues(h, j))
    // Any other signal waits while it is masked or ignored; unless it is, the default is to kill, and a user handler is not passed over.
    && (forall j :: j in p0 && j != 9 && j != 17 && (j in mask || h[j] == 1) ==> j in pending)
    && (o == Returned ==> forall j :: j in p0 && j !in mask && Deadly(h, j) ==> killed)
    && (o == Returned ==> forall j :: j in p0 && j !in mask ==> KernelAction(h[j]))
    && (o.Entered? ==> o.signum < NSIG && o.signum !in mask && !KernelAction(h[o.signum]))
    && (killed ==>
          exists j :: 0 <= j < NSIG && (j == 9 || j !in mask) && Deadly(h, j) && (j in p0 || Came(traffic, NSIG, false, j)))
  }

  lemma {:induction false} PassedPromised(h: Handlers, mask: set<nat>, p0: set<nat>, traffic: seq<Traffic>, o: Outcome, pending: set<nat>, killed: bool)
    requires |traffic| == NSIG && Passed(h, mask, p0, traffic, o, pending, killed) && h[SIGKILL] == h[SIGSTOP] == SIG_DFL
    ensures Promised(h, mask, p0, traffic, o, pending, killed)
  {
    if 17 in p0 && o == Returned {
      assert Halts(h, mask, p0, NSIG);
    }
  }

  /** A process that is still frozen when the turns before `i` are over has every signal that continues it before it. */
  ghost predicate StillFrozen(h: Handlers, mask: set<nat>, p0: set<nat>, i: nat, pending: set<nat>) {
    forall j :: j in p0 && j < NSIG && Conts(h, j) && j !in mask ==> i <= j && j in pending
  }

  lemma {:induction false} CulpritAll(h: Handlers, mask: set<nat>, p0: set<nat>, traffic: seq<Traffic>, i: nat, met: bool)
    requires i <= |traffic| == NSIG && Culprit(h, mask, p0, traffic, i, met)
    ensures Culprit(h, mask, p0, traffic, NSIG, false)
  {
    var j :| 0 <= j < NSIG && Kills(h, j) && !Held(h, mask, j) && (j in p0 || Came(traffic, i, met, j));
    if j !in p0 { CameAll(traffic, i, met, j); }
  }

  /** A pass that ends in turn `i`, because the turns are over or nothing is pending. */
  lemma {:induction false} PassEnds(h: Handlers, mask: set<nat>, p0: set<nat>, traffic: seq<Traffic>, i: nat, met: bool, pending: set<nat>, killed: bool)
    requires i <= |traffic| == NSIG && Pass(h, mask, p0, traffic, i, met, pending, killed)
    requires (i == NSIG || pending == {}) && h[SIGKILL] == h[SIGSTOP] == SIG_DFL
    ensures Passed(h, mask, p0, traffic, Returned, pending, killed) && Promised(h, mask, p0, traffic, Returned, pending, killed)
  {
    forall j | j in p0 ensures Seen(h, mask, NSIG, pending, killed, j) {
      assert Seen(h, mask, i, pending, killed, j);
    }
    forall j | j in pending ensures j < NSIG && (j in p0 || Came(traffic, NSIG, false, j)) && (Held(h, mask, j) || Late(traffic, j)) {
      assert Left(h, mask, p0, traffic, i, met, j);
      if j !in p0 { CameAll(traffic, i, met, j); }
    }
    if killed { CulpritAll(h, mask, p0, traffic, i, met); }
    if Halts(h, mask, p0, NSIG) {
      var x :| x in p0 && x < NSIG && Stops(h, x) && !Held(h, mask, x);
      assert Seen(h, mask, i, pending, killed, x);
      var j :| 0 <= j < NSIG && Conts(h, j) && j !in mask && (j in p0 || Came(traffic, i, met, j));
      if j !in p0 { CameAll(traffic, i, met, j); }
    }
    PassedPromised(h, mask, p0, traffic, Returned, pending, killed);
  }

  /** A pass whose process stays stopped in turn `i`. */
  lemma {:induction false} PassStops(h: Handlers, mask: set<nat>, p0: set<nat>, traffic: seq<Traffic>, i: nat, before: set<nat>, after: set<nat>, killed: bool)
    requires i < |traffic| == NSIG && Pass(h, mask, p0, traffic, i, true, before, killed)
    requires Turned(h, mask, traffic[i], i, before, after)
    requires i in before && Stops(h, i) && !Held(h, mask, i) && h[SIGKILL] == h[SIGSTOP] == SIG_DFL
    requires forall j :: j in after && j !in traffic[i].continuing ==> j < NSIG && (j in mask || !Conts(h, j))
    ensures Passed(h, mask, p0, traffic, StillStopped(i), after, killed) && Promised(h, mask, p0, traffic, StillStopped(i), after, killed)
  {
    forall j | j in p0 ensures Seen(h, mask, i + 1, after, killed, j) {
      TurnSees(h, mask, traffic[i], i, before, after, killed, j);
    }
    forall j | j in after ensures j < NSIG && (j in p0 || Came(traffic, NSIG, false, j)) {
      TurnLeaves(h, mask, p0, traffic, i, before, after, j);
      if j !in p0 { CameAll(traffic, i + 1, false, j); }
    }
    if killed { CulpritAll(h, mask, p0, traffic, i, true); }
    assert Left(h, mask, p0, traffic, i, true, i);
    if i !in p0 { CameAll(traffic, i, true, i); }
    PassedPromised(h, mask, p0, traffic, StillStopped(i), after, killed);
  }

  /** A pass that enters the handler of signal `i`. */
  lemma {:induction false} PassEnters(h: Handlers, mask: set<nat>, p0: set<nat>, traffic: seq<Traffic>, i: nat, before: set<nat>, killed: bool)
    requires i < |traffic| == NSIG && Pass(h, mask, p0, traffic, i, true, before, killed)
    requires i in before && !Held(h, mask, i) && UserHandled(h, i) && h[SIGKILL] == h[SIGSTOP] == SIG_DFL
    ensures Passed(h, mask, p0, traffic, Entered(i), before - {i}, killed) && Promised(h, mask, p0, traffic, Entered(i), before - {i}, killed)
  {
    forall j | j in p0 ensures Seen(h, mask, i, before, killed, j) {}
    forall j | j in before ensures j < NSIG && (j in p0 || (Came(traffic, i, true, j) && Came(traffic, NSIG, false, j))) {
      assert Left(h, mask, p0, traffic, i, true, j);
      if j !in p0 { CameAll(traffic, i, true, j); }
    }
    forall j | 0 <= j < i && (j in p0 || Early(traffic, i, true, j)) ensures Held(h, mask, j) || !UserHandled(h, j) {
      assert Expected(h, p0, traffic, i, true, j) ==> Seen(h, mask, i, before, killed, j);
    }
    if killed { CulpritAll(h, mask, p0, traffic, i, true); }
    PassedPromised(h, mask, p0, traffic, Entered(i), before - {i}, killed);
  }

  class Process {
    var pending: set<nat>
    var mask: set<nat>
    var maskBackup: set<nat>
    var handler: Handlers
    var handlerMask: seq<set<nat>>
    var killed: bool
    var frozen: bool
    var tf: Frame
    var memory: Memory           // user memory of the process
    var frameBackup: int         // uTrapFrameBU

    /** SIGKILL and SIGSTOP keep their default handlers. */
    ghost predicate Valid()
      reads this
    {
      && |handlerMask| == NSIG
      && handler[SIGKILL] == SIG_DFL && handler[SIGSTOP] == SIG_DFL
      && (forall i :: i in pending ==> i < NSIG)
    }

    /** allocproc(). */
    constructor (frame: Frame, image: Memory)
      ensures Valid() && pending == {} && mask == {} && !killed && !frozen && tf == frame && memory == image
    {
      handler, handlerMask := seq(NSIG, _ => SIG_DFL), seq(NSIG, _ => {});
      pending, mask, maskBackup, killed, frozen := {}, {}, {}, false, false;
      tf, memory, frameBackup := frame, image, 0;
    }

    /** The signal part of fork(), applied to the newly allocated child: what was sent to it so far is dropped. */
    method InheritFrom(parent: Process)
      requires Valid() && parent.Valid()
      modifies this`mask, this`pending, this`handler, this`handlerMask, this`tf
      ensures Valid() && pending == {} && mask == parent.mask && handler == parent.handler && handlerMask == parent.handlerMask
      ensures tf == Put(parent.tf, EAX, 0)
    {
      tf := parent.tf;
      mask := parent.mask;
      pending := {};
      handler, handlerMask := parent.handler, parent.handlerMask;
      tf := Put(tf, EAX, 0);
    }

    /** The loop of exec() over the handlers: user handlers do not survive, ignored signals stay ignored. */
    method Exec()
      requires Valid()
      modifies this`handler
      ensures Valid()
      ensures forall i :: 0 <= i < NSIG ==> handler[i] == if old(handler)[i] == SIG_IGN then SIG_IGN else SIG_DFL
    {
      var i := 0;
      while i < NSIG
        invariant 0 <= i <= NSIG && Valid()
        invariant forall j :: 0 <= j < i ==> handler[j] == if old(handler)[j] == SIG_IGN then SIG_IGN else SIG_DFL
        invariant forall j :: i <= j < NSIG ==> handler[j] == old(handler)[j]
      {
        if handler[i] != SIG_IGN && handler[i] != SIG_DFL {
          handler := handler[i := SIG_DFL];
        }
        i := i + 1;
      }
    }

    /** sys_sigaction() with sigaction(): `act` is None where argptr() rejects the pointer. */
    method Sigaction(signum: int, act: Option<Act>, oldact: Out) returns (r: int, was: Option<Act>)
      requires Valid()
      modifies this`handler, this`handlerMask
      ensures Valid()
      ensures r == -1 <==> signum == SIGKILL || signum == SIGSTOP || signum < 0 || signum >= NSIG || act.None? || oldact.Bad?
      ensures r == -1 ==> handler == old(handler) && handlerMask == old(handlerMask) && was == None
      ensures r != -1 ==>
        && r == 0 && handler == old(handler)[signum := act.value.handler] && handlerMask == old(handlerMask)[signum := act.value.mask]
        && was == if oldact.Good? then Some(Act(old(handler)[signum], old(handlerMask)[signum])) else None
    {
      was := None;
      if signum == SIGKILL || signum == SIGSTOP || signum < 0 || signum >= NSIG {
        return -1, None;
      }
      if act.None? || oldact.Bad? {
        return -1, None;
      }
      if oldact.Good? {
        was := Some(Act(handler[signum], handlerMask[signum]));
      }
      handler, handlerMask := handler[signum := act.value.handler], handlerMask[signum := act.value.mask];
      r := 0;
    }

    method Sigprocmask(newMask: set<nat>) returns (oldMask: set<nat>)
      requires Valid()
      modifies this`mask
      ensures Valid() && mask == newMask && oldMask == old(mask)
    {
      oldMask, mask := mask, newMask;
    }

    /** kill() once it has found this process, which sleeps or not; `wake` says that it is to be made runnable. */
    method Kill(signum: int, asleep: bool) returns (r: int, wake: bool)
      requires Valid()
      modifies this`pending
      ensures Valid() && (r == 0 <==> 0 <= signum < NSIG) && (r == 0 || r == -1)
      ensures pending == if r == 0 && handler[signum] != SIG_IGN then old(pending) + {signum} else old(pending)
      // A sleeper is woken for whatever will kill it, and for no signal that waits or that a user handler takes.
      ensures r == 0 && asleep && Kills(handler, signum) && !Held(handler, mask, signum) ==> wake
      ensures wake ==> r == 0 && asleep && !Held(handler, mask, signum) && !UserHandled(handler, signum)
      ensures wake <==> r == 0 && asleep && Wakes(handler, mask, signum)
    {
      if signum < 0 || signum >= NSIG {
        return -1, false;
      }
      if handler[signum] == SIG_IGN {
        return 0, false;
      }
      pending := pending + {signum};
      wake := asleep && (signum == SIGKILL || (signum !in mask && (handler[signum] == SIGKILL || handler[signum] == SIG_DFL)));
      r := 0;
    }

    /** check_cont_sig(): takes the lowest pending, unmasked signal that continues the process. Where it takes one, it
        stores the word it loaded at first, and what `during` brought is lost. */
    method CheckCont(during: set<nat>) returns (r: bool)
      requires Valid()
      modifies this`pending
      ensures Valid()
      ensures !r ==> pending == old(pending) + Accepted(handler, during) && forall i :: i in old(pending) ==> i in mask || !Conts(handler, i)
      ensures r ==> exists i ::
        && i in old(pending) && i !in mask && Conts(handler, i) && pending == old(pending) - {i}
        && forall j :: j in old(pending) && j < i ==> j in mask || !Conts(handler, j)
    {
      var copy := pending;
      Arrive(during);
      var i := 0;
      while i < NSIG
        invariant 0 <= i <= NSIG && copy == old(pending) && pending == old(pending) + Accepted(handler, during)
        invariant forall j :: j in copy && j < i ==> j in mask || !Conts(handler, j)
      {
        if i in copy && i !in mask && Conts(handler, i) {
          pending := copy - {i};
          return true;
        }
        i := i + 1;
      }
      return false;
    }

    /** The stack that a user handler for signal `i` finds when it was entered from frame `f`: the saved frame, below
        it the code that calls sigret(), below that the argument and the return address, which is that code. */
    ghost predicate Delivered(f: Frame, i: nat)
      reads this`tf, this`memory, this`frameBackup, this`handler
      requires i < NSIG
    {
      var code := Get(f, ESP) - FRAME - CODE;
      && frameBackup == Get(f, ESP) - FRAME
      && Load(memory, frameBackup, FRAME) == f
      && Load(memory, code, CODE) == SigretCode
      && Load(memory, code - 4, 4) == WordBytes(i)
      && Load(memory, code - 8, 4) == WordBytes(code)
      && tf == Put(Put(f, ESP, code - 8), EIP, handler[i])
    }

    /** The last branch of handle_signals(). Memory outside the pushed bytes is not written. */
    method Deliver(i: nat)
      requires Valid() && i < NSIG
      modifies this`mask, this`maskBackup, this`tf, this`memory, this`frameBackup
      ensures Valid() && maskBackup == old(mask) && mask == handlerMask[i] && Delivered(old(tf), i)
      ensures Pushed(old(tf), old(memory), memory)
    {
      maskBackup := mask;
      mask := handlerMask[i];
      StackHolds(memory, tf, i);
      forall x | Behind(x, Get(tf, ESP) - PUSHED) >= PUSHED ensures Stack(memory, tf, i)(x) == memory(x) {
        StackLeaves(memory, tf, i, x);
      }
      PushFrame(i);
    }

    method PushFrame(i: nat)
      requires i < NSIG
      modifies this`tf, this`memory, this`frameBackup
      ensures memory == Stack(old(memory), old(tf), i) && frameBackup == Get(old(tf), ESP) - FRAME
      ensures tf == Put(Put(old(tf), ESP, Get(old(tf), ESP) - PUSHED), EIP, handler[i])
    {
      var espbu := Get(tf, ESP);
      FramePushed(tf, espbu, handler[i]);
      tf := Put(tf, ESP, espbu - FRAME);
      frameBackup := espbu - FRAME;
      StoreStack(Put(tf, ESP, espbu), i);   // memmove, then uTrapFrameBU->esp = espbu
      tf := Put(Put(tf, ESP, espbu - PUSHED), EIP, handler[i]);
    }

    /** The stores of a delivery: the saved frame, the code, the argument and the return address. */
    method StoreStack(f: Frame, i: nat)
      modifies this`memory
      ensures memory == Stack(old(memory), f, i)
    {
      var frame := Get(f, ESP) - FRAME;
      memory := Store(memory, frame, f);
      var code := frame - CODE;
      memory := Store(memory, code, SigretCode);
      memory := Store(memory, code - 4, WordBytes(i));
      memory := Store(memory, code - 8, WordBytes(code));
    }

    /** sigret(). */
    method Sigret()
      requires Valid()
      modifies this`mask, this`tf
      ensures Valid() && mask == maskBackup && tf == Load(memory, frameBackup, FRAME)
    {
      mask := maskBackup;
      tf := Load(memory, frameBackup, FRAME);
    }

    /** Signals sent by other processes at some moment. */
    method Arrive(sent: set<nat>)
      requires Valid()
      modifies this`pending
      ensures Valid() && pending == old(pending) + Accepted(handler, sent)
    {
      pending := pending + Accepted(handler, sent);
    }

    /** A stopped process: signals arrive, and then the scheduler looks for one that continues it. */
    method Stop(t: Traffic) returns (continued: bool)
      requires Valid()
      modifies this`pending, this`frozen
      ensures Valid() && frozen == !continued
      ensures pending <= old(pending) + Accepted(handler, t.stopped) + Accepted(handler, t.continuing)
      ensures forall j :: j in old(pending) ==> j in pending || (Conts(handler, j) && j !in mask)
      // It goes on exactly if a signal that continues it was there.
      ensures continued <==> exists j :: j in old(pending) + Accepted(handler, t.stopped) && j !in mask && Conts(handler, j)
    {
      frozen := true;
      Arrive(t.stopped);
      continued := CheckCont(t.continuing);
      if continued {
        frozen := false;
      }
    }

    /** handle_signals(), while other processes send `traffic[i]` in the turn of signal `i`. */
    method HandleSignals(traffic: seq<Traffic>) returns (o: Outcome)
      requires Valid() && |traffic| == NSIG
      modifies this
      ensures Valid() && handler == old(handler) && handlerMask == old(handlerMask)
      ensures Get(old(tf), CS) % 4 != 3 || old(killed) ==> o == Returned && pending == old(pending) && killed == old(killed)
      ensures Get(old(tf), CS) % 4 == 3 && !old(killed) ==>
        && Passed(handler, old(mask), old(pending), traffic, o, pending, killed)
        && Promised(handler, old(mask), old(pending), traffic, o, pending, killed)
      ensures Ends(o, old(tf), old(mask), old(memory), old(maskBackup), old(frameBackup))
      ensures if o.StillStopped? then frozen else frozen ==> old(frozen)
      // A signal that continues the process unfreezes it.
      ensures Get(old(tf), CS) % 4 == 3 && !old(killed) && o == Returned && frozen ==>
        forall j :: j in old(pending) && j < NSIG && j !in old(mask) ==> !Continues(handler, j)
    {
      if Get(tf, CS) % 4 != 3 || killed {
        return Returned;
      }
      var i := 0;
      while i < NSIG
        invariant 0 <= i <= NSIG && Valid() && handler == old(handler) && handlerMask == old(handlerMask)
        invariant Quiet(old(tf), old(mask), old(memory), old(maskBackup), old(frameBackup)) && (frozen ==> old(frozen))
        invariant Pass(handler, mask, old(pending), traffic, i, false, pending, killed)
        invariant frozen ==> StillFrozen(handler, mask, old(pending), i, pending)
      {
        MeetKeeps(handler, mask, old(pending), traffic, i, pending, killed);
        Arrive(traffic[i].before);
        if pending == {} {
          PassEnds(handler, mask, old(pending), traffic, i, true, pending, killed);
          return Returned;
        }
        o := PassTurn(old(pending), traffic, i);
        if o != Returned {
          return;
        }
        i := i + 1;
      }
      PassEnds(handler, mask, old(pending), traffic, i, false, pending, killed);
      return Returned;
    }

    /** Turn `i` in a pass that began with `p0` pending. */
    method PassTurn(ghost p0: set<nat>, traffic: seq<Traffic>, i: nat) returns (o: Outcome)
      requires Valid() && i < |traffic| == NSIG && Pass(handler, mask, p0, traffic, i, true, pending, killed)
      modifies this
      ensures Valid() && handler == old(handler) && handlerMask == old(handlerMask)
      ensures Ends(o, old(tf), old(mask), old(memory), old(maskBackup), old(frameBackup))
      ensures if o.StillStopped? then frozen else frozen ==> old(frozen)
      ensures o == Returned && frozen && old(StillFrozen(handler, mask, p0, i, pending)) ==> StillFrozen(handler, mask, p0, i + 1, pending)
      ensures if o == Returned then Pass(handler, mask, p0, traffic, i + 1, false, pending, killed)
              else Passed(handler, old(mask), p0, traffic, o, pending, killed) && Promised(handler, old(mask), p0, traffic, o, pending, killed)
    {
      ghost var before, dead, m := pending, killed, mask;
      o := Turn(i, traffic[i]);
      if o.Entered? {
        PassEnters(handler, m, p0, traffic, i, before, dead);
      } else if o.StillStopped? {
        PassStops(handler, m, p0, traffic, i, before, pending, dead);
      } else {
        TurnKeeps(handler, m, p0, traffic, i, before, pending, dead);
      }
    }

    /** The body of the loop of handle_signals(); `Returned` means that the loop goes on. The pass loads the word of
        pending signals, and what comes before it stores the word back is overwritten. */
    method Turn(i: nat, t: Traffic) returns (o: Outcome)
      requires Valid() && i < NSIG
      modifies this
      ensures Valid() && handler == old(handler) && handlerMask == old(handlerMask)
      ensures Ends(o, old(tf), old(mask), old(memory), old(maskBackup), old(frameBackup))
      ensures Turned(handler, old(mask), t, i, old(pending), pending)
      ensures killed == (old(killed) || (i in old(pending) && !Held(handler, old(mask), i) && Kills(handler, i)))
      ensures o.Entered? <==> i in old(pending) && !Held(handler, old(mask), i) && UserHandled(handler, i)
      ensures o.Entered? ==> o.signum == i
      ensures if o.StillStopped? then frozen else frozen ==> old(frozen)
      ensures o == Returned && frozen ==> !(i in old(pending) && !Held(handler, old(mask), i) && (Stops(handler, i) || Conts(handler, i)))
      ensures o == Returned ==> GoesOn(handler, mask, t, i, old(pending))
      ensures o.StillStopped? ==>
        && o.signum == i && i in old(pending) && !Held(handler, mask, i) && Stops(handler, i)
        && forall j :: j in pending && j !in t.continuing ==> j in mask || !Conts(handler, j)
    {
      o := Returned;
      var copy := pending;
      Arrive(t.during);
      if i in copy && !Held(handler, mask, i) {
        pending := copy - {i};
        if handler[i] == SIGSTOP || i == SIGSTOP {
          var continued := Stop(t);
          if !continued {
            return StillStopped(i);
          }
        } else if handler[i] == SIGCONT || (i == SIGCONT && handler[i] == SIG_DFL) {
          frozen := false;
        } else if handler[i] == SIGKILL || handler[i] == SIG_DFL {
          killed := true;
        } else {
          Deliver(i);
          return Entered(i);
        }
      }
    }

    /** What a pass leaves alone until it enters a user handler. */
    ghost predicate Quiet(f: Frame, m: set<nat>, mem: Memory, mb: set<nat>, fb: int)
      reads this
    {
      tf == f && mask == m && memory == mem && maskBackup == mb && frameBackup == fb
    }

    /** What a pass, or a turn of it, that ends with `o` makes of frame, mask and memory. */
    ghost predicate Ends(o: Outcome, f: Frame, m: set<nat>, mem: Memory, mb: set<nat>, fb: int)
      reads this
    {
      if o.Entered? then
        && o.signum < NSIG == |handlerMask| && Delivered(f, o.signum) && Pushed(f, mem, memory)
        && maskBackup == m && mask == handlerMask[o.signum]
      else Quiet(f, m, mem, mb, fb)
    }

    /** Delivery and return are inverse: if the handler, whatever else it does to memory and to the mask, leaves the
        saved frame alone and no second handler is entered, sigret() restores the whole frame, except that the system
        call stores its result 0 in eax, and the mask. */
    method DeliverAndReturn(i: nat, run: Memory -> Memory, handlerSets: set<nat>)
      requires Valid() && i < NSIG
      requires forall m: Memory :: Load(run(m), Get(tf, ESP) - FRAME, FRAME) == Load(m, Get(tf, ESP) - FRAME, FRAME)
      modifies this
      ensures Valid() && tf == Put(old(tf), EAX, 0) && mask == old(mask)
    {
      Deliver(i);
      memory := run(memory);
      var _ := Sigprocmask(handlerSets);
      Sigret();
      tf := Put(tf, EAX, 0);
    }
  }

  /** Slot `k` is the first one in use with this pid. */
  ghost predicate First(pids: seq<int>, used: seq<bool>, pid: int, k: nat)
    requires |pids| == |used|
  {
    k < |pids| && pids[k] == pid && used[k] && forall j :: 0 <= j < k ==> pids[j] != pid || !used[j]
  }

  /** kill() over the process table. */
  method KillPid(table: seq<Process>, pids: seq<int>, used: seq<bool>, asleep: seq<bool>, pid: int, signum: int) returns (r: int, wake: Option<nat>)
    requires |table| == |pids| == |used| == |asleep|
    requires forall i, j :: 0 <= i < j < |table| ==> table[i] != table[j]
    requires forall i :: 0 <= i < |table| ==> table[i].Valid()
    modifies (set p | p in table)`pending
    ensures forall i :: 0 <= i < |table| ==> table[i].Valid()
    ensures r == 0 || r == -1
    ensures r == 0 <==> 0 <= signum < NSIG && exists k: nat :: First(pids, used, pid, k)
    ensures r == -1 ==> wake == None && forall i :: 0 <= i < |table| ==> table[i].pending == old(table[i].pending)
    ensures r == 0 ==> forall k: nat :: First(pids, used, pid, k) ==>
      && table[k].pending == old(table[k].pending) + Accepted(table[k].handler, {signum})
      && wake == (if asleep[k] && Wakes(table[k].handler, table[k].mask, signum) then Some(k) else None)
      && forall i :: 0 <= i < |table| && i != k ==> table[i].pending == old(table[i].pending)
  {
    if signum < 0 || signum >= NSIG {
      return -1, None;
    }
    var k := 0;
    while k < |table|
      invariant 0 <= k <= |table| && forall j :: 0 <= j < k ==> pids[j] != pid || !used[j]
    {
      if pids[k] == pid && used[k] {
        assert First(pids, used, pid, k);
        var w;
        r, w := table[k].Kill(signum, asleep[k]);
        return r, if w then Some(k) else None;
      }
      k := k + 1;
    }
    return -1, None;
  }
}

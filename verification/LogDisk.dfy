/** The on-disk log of log.c as values: disk images, the block writes that `commit` and
    `recover_from_log` issue, and what recovery makes of an image after a crash. */
module LogDisk {
  import opened Base

  const BLOCK_WORDS := 128      // BSIZE / sizeof(int)
  const MAXOPBLOCKS := 10
  const LOGSIZE := 3 * MAXOPBLOCKS

  type Block = b: seq<int> | |b| == BLOCK_WORDS witness seq(BLOCK_WORDS, _ => 0)

  type Image = seq<Block>

  /** `log.start` and `log.size`: a header block followed by `size - 1` log blocks. */
  datatype Layout = Layout(start: nat, size: nat)

  /** One block write; the disk performs these one at a time. */
  datatype Write = Write(blockno: nat, data: Block)

  predicate InLog(l: Layout, b: nat) {
    l.start <= b < l.start + l.size
  }

  predicate Fits(l: Layout, img: Image) {
    1 <= l.size && l.start + l.size <= |img|
  }

  /** A list of home blocks that the log has room for. */
  predicate Loggable(l: Layout, img: Image, lh: seq<nat>) {
    && |lh| <= LOGSIZE
    && |lh| < l.size
    && NoDuplicates(lh)
    && forall i :: 0 <= i < |lh| ==> lh[i] < |img| && !InLog(l, lh[i])
  }

  /** Log absorption: a block already in the transaction keeps its slot. */
  function Absorb(lh: seq<nat>, b: nat): seq<nat> {
    if b in lh then lh else lh + [b]
  }

  // ---- Header block

  /** Number of committed blocks recorded in the header block. */
  function HeaderCount(l: Layout, img: Image): int
    requires Fits(l, img)
  {
    img[l.start][0]
  }

  predicate HeaderOk(l: Layout, img: Image)
    requires Fits(l, img)
  {
    && 0 <= HeaderCount(l, img) <= LOGSIZE
    && (forall i :: 1 <= i <= HeaderCount(l, img) ==> 0 <= img[l.start][i])
    && Loggable(l, img, HeaderBlocks(l, img))
  }

  /** Block numbers recorded in the header block. */
  function HeaderBlocks(l: Layout, img: Image): seq<nat>
    requires Fits(l, img)
    requires 0 <= HeaderCount(l, img) <= LOGSIZE
    requires forall i :: 1 <= i <= HeaderCount(l, img) ==> 0 <= img[l.start][i]
  {
    img[l.start][1..1 + HeaderCount(l, img)]
  }

  /** `write_head` overwrites the count and the first |lh| slots and keeps the other words. */
  function HeadBlock(hb: Block, lh: seq<nat>): (r: Block)
    requires |lh| <= LOGSIZE
  {
    [|lh|] + lh + hb[1 + |lh|..]
  }

  /** The first `n` blocks of the log area. */
  function LogBlocks(l: Layout, img: Image, n: nat): seq<Block>
    requires Fits(l, img) && n < l.size
  {
    img[l.start + 1..l.start + 1 + n]
  }

  // ---- What an image means

  /** Block `b` of the home area after overlaying the first `m` of the logged blocks. */
  function Overlaid(img: Image, lh: seq<nat>, vals: seq<Block>, m: nat, b: nat): Block
    requires m <= |lh| == |vals| && b < |img|
  {
    if m == 0 then img[b]
    else if lh[m - 1] == b then vals[m - 1]
    else Overlaid(img, lh, vals, m - 1, b)
  }

  function Overlay(l: Layout, img: Image, lh: seq<nat>, vals: seq<Block>): map<nat, Block>
    requires |lh| == |vals|
  {
    map b: nat | b < |img| && !InLog(l, b) :: Overlaid(img, lh, vals, |lh|, b)
  }

  /** The blocks outside the log area. */
  function Home(l: Layout, img: Image): map<nat, Block> {
    map b: nat | b < |img| && !InLog(l, b) :: img[b]
  }

  /** The file system state that recovery will produce from an image. */
  function Recovered(l: Layout, img: Image): map<nat, Block>
    requires Fits(l, img) && HeaderOk(l, img)
  {
    Overlay(l, img, HeaderBlocks(l, img), LogBlocks(l, img, HeaderCount(l, img)))
  }

  // ---- The writes issued by log.c

  function LogWrites(l: Layout, vals: seq<Block>): seq<Write> {
    seq(|vals|, i requires 0 <= i < |vals| => Write(l.start + 1 + i, vals[i]))
  }

  function InstallWrites(lh: seq<nat>, vals: seq<Block>): seq<Write>
    requires |lh| == |vals|
  {
    seq(|vals|, i requires 0 <= i < |vals| => Write(lh[i], vals[i]))
  }

  /** Every block write of `commit`, in order. */
  function CommitWrites(l: Layout, img: Image, lh: seq<nat>, vals: seq<Block>): seq<Write>
    requires Fits(l, img) && Loggable(l, img, lh) && |lh| == |vals|
  {
    if lh == [] then [] else
      var head := HeadBlock(img[l.start], lh);
      LogWrites(l, vals) + [Write(l.start, head)] + InstallWrites(lh, vals) + [Write(l.start, HeadBlock(head, []))]
  }

  /** Every block write of `recover_from_log`, in order. */
  function RecoveryWrites(l: Layout, img: Image): seq<Write>
    requires Fits(l, img) && HeaderOk(l, img)
  {
    InstallWrites(HeaderBlocks(l, img), LogBlocks(l, img, HeaderCount(l, img)))
    + [Write(l.start, HeadBlock(img[l.start], []))]
  }

  predicate InRange(img: Image, ws: seq<Write>) {
    forall i :: 0 <= i < |ws| ==> ws[i].blockno < |img|
  }

  /** The disk when the machine stops after the first `k` writes. */
  function After(img: Image, ws: seq<Write>, k: nat): (r: Image)
    requires InRange(img, ws) && k <= |ws|
    ensures |r| == |img|
  {
    if k == 0 then img else After(img, ws, k - 1)[ws[k - 1].blockno := ws[k - 1].data]
  }

  // ---- Overlay facts

  lemma {:induction false} OverlaidHit(img: Image, lh: seq<nat>, vals: seq<Block>, m: nat, i: nat)
    requires i < m <= |lh| == |vals| && NoDuplicates(lh) && lh[i] < |img|
    ensures Overlaid(img, lh, vals, m, lh[i]) == vals[i]
  {
    if i < m - 1 {
      OverlaidHit(img, lh, vals, m - 1, i);
    }
  }

  lemma {:induction false} OverlaidMiss(img: Image, lh: seq<nat>, vals: seq<Block>, m: nat, b: nat)
    requires m <= |lh| == |vals| && b < |img|
    requires forall i :: 0 <= i < m ==> lh[i] != b
    ensures Overlaid(img, lh, vals, m, b) == img[b]
  {
    if m > 0 {
      OverlaidMiss(img, lh, vals, m - 1, b);
    }
  }

  /** Installing some of the logged blocks does not change the overlay: each is found in the log anyway. */
  lemma {:induction false} OverlaidAbsorbs(img: Image, d: Image, lh: seq<nat>, vals: seq<Block>, k: nat, m: nat, b: nat)
    requires m <= |lh| == |vals| && k <= |lh| && b < |img| == |d|
    requires d[b] == Overlaid(img, lh, vals, k, b) && NoDuplicates(lh) && k <= m
    ensures Overlaid(d, lh, vals, m, b) == Overlaid(img, lh, vals, m, b)
  {
    if i: nat :| i < m && lh[i] == b {
      OverlaidHit(img, lh, vals, m, i);
      OverlaidHit(d, lh, vals, m, i);
    } else {
      OverlaidMiss(img, lh, vals, m, b);
      OverlaidMiss(d, lh, vals, m, b);
      OverlaidMiss(img, lh, vals, k, b);
    }
  }

  /** The overlay is the same over any image that has some of the logged blocks installed. */
  lemma {:induction false} OverlayAbsorbs(l: Layout, img: Image, d: Image, lh: seq<nat>, vals: seq<Block>, k: nat)
    requires |lh| == |vals| && k <= |lh| && |d| == |img| && NoDuplicates(lh)
    requires forall b :: 0 <= b < |img| && !InLog(l, b) ==> d[b] == Overlaid(img, lh, vals, k, b)
    ensures Overlay(l, d, lh, vals) == Overlay(l, img, lh, vals)
    ensures k == |lh| ==> Home(l, d) == Overlay(l, img, lh, vals)
  {
    forall b | 0 <= b < |img| && !InLog(l, b)
      ensures Overlaid(d, lh, vals, |lh|, b) == Overlaid(img, lh, vals, |lh|, b)
    {
      OverlaidAbsorbs(img, d, lh, vals, k, |lh|, b);
    }
  }

  /** An image whose header says that nothing is committed recovers to its home area. */
  lemma {:induction false} NothingCommitted(l: Layout, img: Image)
    requires Fits(l, img) && HeaderCount(l, img) == 0
    ensures HeaderOk(l, img) && Recovered(l, img) == Home(l, img)
  {
    assert HeaderBlocks(l, img) == [] && LogBlocks(l, img, 0) == [];
  }

  // ---- Crash safety of commit

  /** The image after `k` writes of `commit`, described block by block. */
  ghost predicate CommitShape(l: Layout, img: Image, lh: seq<nat>, vals: seq<Block>, k: nat, d: Image)
    requires Fits(l, img) && Loggable(l, img, lh) && |lh| == |vals| && lh != []
  {
    |d| == |img| && forall fold: nat :: CommitShapeBody(fold, l, img, lh, vals, k, d)
  }

  ghost predicate CommitShapeBody(fold: nat, l: Layout, img: Image, lh: seq<nat>, vals: seq<Block>, k: nat, d: Image)
    requires Fits(l, img) && Loggable(l, img, lh) && |lh| == |vals| && lh != [] && |d| == |img|
  {
    var n := |lh|;
    var head := HeadBlock(img[l.start], lh);
    && d[l.start] == (if k <= n then img[l.start] else if k <= 2 * n + 1 then head else HeadBlock(head, []))
    && (forall j :: 0 <= j < n && j < k ==> d[l.start + 1 + j] == vals[j])
    && (forall b :: 0 <= b < |img| && !InLog(l, b) ==>
          d[b] == Overlaid(img, lh, vals, if k <= n then 0 else if k <= 2 * n + 1 then k - n - 1 else n, b))
  }

  /** The writes of `commit` by position. */
  lemma {:induction false} CommitWriteAt(l: Layout, img: Image, lh: seq<nat>, vals: seq<Block>, k: nat)
    requires Fits(l, img) && Loggable(l, img, lh) && |lh| == |vals| && lh != []
    requires k < 2 * |lh| + 2
    ensures |CommitWrites(l, img, lh, vals)| == 2 * |lh| + 2
    ensures
      var n, head := |lh|, HeadBlock(img[l.start], lh);
      CommitWrites(l, img, lh, vals)[k] ==
        if k < n then Write(l.start + 1 + k, vals[k])
        else if k == n then Write(l.start, head)
        else if k <= 2 * n then Write(lh[k - n - 1], vals[k - n - 1])
        else Write(l.start, HeadBlock(head, []))
  {
  }

  lemma {:induction false} CommitInRange(l: Layout, img: Image, lh: seq<nat>, vals: seq<Block>)
    requires Fits(l, img) && Loggable(l, img, lh) && |lh| == |vals|
    ensures InRange(img, CommitWrites(l, img, lh, vals))
  {
  }

  lemma {:induction false} CommitShapeHolds(l: Layout, img: Image, lh: seq<nat>, vals: seq<Block>, k: nat)
    requires Fits(l, img) && Loggable(l, img, lh) && |lh| == |vals| && lh != []
    requires k <= |CommitWrites(l, img, lh, vals)| && InRange(img, CommitWrites(l, img, lh, vals))
    ensures CommitShape(l, img, lh, vals, k, After(img, CommitWrites(l, img, lh, vals), k))
  {
    if k == 0 {
      assert CommitShapeBody(0, l, img, lh, vals, 0, img);
    } else {
      var ws := CommitWrites(l, img, lh, vals);
      CommitWriteAt(l, img, lh, vals, 0);
      CommitWriteAt(l, img, lh, vals, k - 1);
      CommitShapeHolds(l, img, lh, vals, k - 1);
      CommitShapeStep(l, img, lh, vals, k - 1, After(img, ws, k - 1), ws[k - 1]);
    }
  }

  lemma {:induction false} CommitShapeStep(l: Layout, img: Image, lh: seq<nat>, vals: seq<Block>, k: nat, d: Image, w: Write)
    requires Fits(l, img) && Loggable(l, img, lh) && |lh| == |vals| && lh != [] && k < 2 * |lh| + 2
    requires CommitShape(l, img, lh, vals, k, d) && w.blockno < |d|
    requires
      var n, head := |lh|, HeadBlock(img[l.start], lh);
      w == if k < n then Write(l.start + 1 + k, vals[k])
           else if k == n then Write(l.start, head)
           else if k <= 2 * n then Write(lh[k - n - 1], vals[k - n - 1])
           else Write(l.start, HeadBlock(head, []))
    ensures CommitShape(l, img, lh, vals, k + 1, d[w.blockno := w.data])
  {
    assert CommitShapeBody(0, l, img, lh, vals, k, d);
    var d' := d[w.blockno := w.data];
    assert CommitShapeBody(0, l, img, lh, vals, k + 1, d');
  }

  lemma {:induction false} HeadBlockRoundTrip(l: Layout, img: Image, hb: Block, lh: seq<nat>)
    requires Fits(l, img) && Loggable(l, img, lh) && img[l.start] == HeadBlock(hb, lh)
    ensures HeaderCount(l, img) == |lh| && HeaderOk(l, img) && HeaderBlocks(l, img) == lh
  {
  }

  /** Crash atomicity of `commit`: stopped after any number `k` of its writes, the disk recovers to the
      state before the transaction until the header write, and to the whole transaction from then on. */
  lemma {:induction false} CommitIsAtomic(l: Layout, img: Image, lh: seq<nat>, vals: seq<Block>, k: nat)
    requires Fits(l, img) && HeaderOk(l, img) && HeaderCount(l, img) == 0
    requires Loggable(l, img, lh) && |lh| == |vals|
    requires k <= |CommitWrites(l, img, lh, vals)|
    ensures InRange(img, CommitWrites(l, img, lh, vals))
    ensures
      var d := After(img, CommitWrites(l, img, lh, vals), k);
      && HeaderOk(l, d)
      && Recovered(l, d) == (if k <= |lh| then Home(l, img) else Overlay(l, img, lh, vals))
      && (HeaderCount(l, d) > 0 <==> |lh| < k < |CommitWrites(l, img, lh, vals)|)
    ensures k == |CommitWrites(l, img, lh, vals)| ==>
      Home(l, After(img, CommitWrites(l, img, lh, vals), k)) == Overlay(l, img, lh, vals)
  {
    CommitInRange(l, img, lh, vals);
    if lh == [] {
      assert Overlay(l, img, lh, vals) == Home(l, img);
      return;
    }
    CommitWriteAt(l, img, lh, vals, 0);
    CommitShapeHolds(l, img, lh, vals, k);
    CommitShapeRecovers(l, img, lh, vals, k, After(img, CommitWrites(l, img, lh, vals), k));
  }

  lemma {:induction false} CommitShapeRecovers(l: Layout, img: Image, lh: seq<nat>, vals: seq<Block>, k: nat, d: Image)
    requires Fits(l, img) && HeaderOk(l, img) && HeaderCount(l, img) == 0
    requires Loggable(l, img, lh) && |lh| == |vals| && lh != [] && k <= 2 * |lh| + 2
    requires CommitShape(l, img, lh, vals, k, d)
    ensures HeaderOk(l, d)
    ensures Recovered(l, d) == (if k <= |lh| then Home(l, img) else Overlay(l, img, lh, vals))
    ensures HeaderCount(l, d) > 0 <==> |lh| < k < 2 * |lh| + 2
    ensures k == 2 * |lh| + 2 ==> Home(l, d) == Overlay(l, img, lh, vals)
  {
    assert CommitShapeBody(0, l, img, lh, vals, k, d);
    if k <= |lh| {
      NothingCommitted(l, d);
      BeforeHeader(l, img, lh, vals, k, d);
    } else if k <= 2 * |lh| + 1 {
      BehindHeader(l, img, lh, vals, k, d);
    } else {
      HeadBlockRoundTrip(l, d, HeadBlock(img[l.start], lh), []);
      NothingCommitted(l, d);
      OverlayAbsorbs(l, img, d, lh, vals, |lh|);
    }
  }

  lemma {:induction false} BeforeHeader(l: Layout, img: Image, lh: seq<nat>, vals: seq<Block>, k: nat, d: Image)
    requires Fits(l, img) && Loggable(l, img, lh) && |lh| == |vals| && lh != [] && k <= |lh|
    requires CommitShape(l, img, lh, vals, k, d)
    ensures Home(l, d) == Home(l, img)
  {
    assert CommitShapeBody(0, l, img, lh, vals, k, d);
    forall b | 0 <= b < |img| && !InLog(l, b) ensures d[b] == img[b] {
      assert Overlaid(img, lh, vals, 0, b) == img[b];
    }
  }

  lemma {:induction false} BehindHeader(l: Layout, img: Image, lh: seq<nat>, vals: seq<Block>, k: nat, d: Image)
    requires Fits(l, img) && Loggable(l, img, lh) && |lh| == |vals| && lh != [] && |lh| < k <= 2 * |lh| + 1
    requires CommitShape(l, img, lh, vals, k, d)
    ensures HeaderOk(l, d) && HeaderCount(l, d) == |lh| && Recovered(l, d) == Overlay(l, img, lh, vals)
  {
    assert CommitShapeBody(0, l, img, lh, vals, k, d);
    HeadBlockRoundTrip(l, d, img[l.start], lh);
    assert LogBlocks(l, d, |lh|) == vals;
    OverlayAbsorbs(l, img, d, lh, vals, k - |lh| - 1);
  }

  // ---- Crash safety of recovery

  /** The image after `k` writes of recovery, described block by block. */
  ghost predicate RecoveryShape(l: Layout, img: Image, lh: seq<nat>, vals: seq<Block>, k: nat, d: Image)
    requires Fits(l, img) && Loggable(l, img, lh) && |vals| == |lh|
  {
    && |d| == |img|
    && d[l.start] == (if k <= |lh| then img[l.start] else HeadBlock(img[l.start], []))
    && (forall j :: l.start < j < l.start + l.size ==> d[j] == img[j])
    && (forall b :: 0 <= b < |img| && !InLog(l, b) ==>
          d[b] == Overlaid(img, lh, vals, if k <= |lh| then k else |lh|, b))
  }

  lemma {:induction false} RecoveryWriteAt(l: Layout, img: Image, k: nat)
    requires Fits(l, img) && HeaderOk(l, img) && k <= HeaderCount(l, img)
    ensures |RecoveryWrites(l, img)| == HeaderCount(l, img) + 1
    ensures RecoveryWrites(l, img)[k] ==
      if k < HeaderCount(l, img) then Write(HeaderBlocks(l, img)[k], LogBlocks(l, img, HeaderCount(l, img))[k])
      else Write(l.start, HeadBlock(img[l.start], []))
  {
  }

  lemma {:induction false} RecoveryInRange(l: Layout, img: Image)
    requires Fits(l, img) && HeaderOk(l, img)
    ensures InRange(img, RecoveryWrites(l, img))
  {
  }

  lemma {:induction false} RecoveryShapeStep(l: Layout, img: Image, lh: seq<nat>, vals: seq<Block>, k: nat, d: Image, w: Write)
    requires Fits(l, img) && Loggable(l, img, lh) && |vals| == |lh| && k <= |lh|
    requires RecoveryShape(l, img, lh, vals, k, d) && w.blockno < |d|
    requires w == if k < |lh| then Write(lh[k], vals[k]) else Write(l.start, HeadBlock(img[l.start], []))
    ensures RecoveryShape(l, img, lh, vals, k + 1, d[w.blockno := w.data])
  {
  }

  lemma {:induction false} RecoveryShapeHolds(l: Layout, img: Image, lh: seq<nat>, vals: seq<Block>, k: nat)
    requires Fits(l, img) && HeaderOk(l, img) && k <= |RecoveryWrites(l, img)| && InRange(img, RecoveryWrites(l, img))
    requires lh == HeaderBlocks(l, img) && vals == LogBlocks(l, img, |lh|)
    ensures RecoveryShape(l, img, lh, vals, k, After(img, RecoveryWrites(l, img), k))
  {
    if k > 0 {
      RecoveryWriteAt(l, img, 0);
      RecoveryWriteAt(l, img, k - 1);
      RecoveryShapeHolds(l, img, lh, vals, k - 1);
      RecoveryShapeStep(l, img, lh, vals, k - 1, After(img, RecoveryWrites(l, img), k - 1), RecoveryWrites(l, img)[k - 1]);
    }
  }

  lemma {:induction false} RecoveryShapeRecovers(l: Layout, img: Image, lh: seq<nat>, vals: seq<Block>, k: nat, d: Image)
    requires Fits(l, img) && HeaderOk(l, img) && lh == HeaderBlocks(l, img) && vals == LogBlocks(l, img, |lh|)
    requires RecoveryShape(l, img, lh, vals, k, d)
    ensures HeaderOk(l, d) && Recovered(l, d) == Recovered(l, img)
    ensures k > |lh| ==> HeaderCount(l, d) == 0 && Home(l, d) == Recovered(l, img)
  {
    if k <= |lh| {
      assert HeaderBlocks(l, d) == lh;
      assert LogBlocks(l, d, |lh|) == vals;
      OverlayAbsorbs(l, img, d, lh, vals, k);
    } else {
      HeadBlockRoundTrip(l, d, img[l.start], []);
      NothingCommitted(l, d);
      OverlayAbsorbs(l, img, d, lh, vals, |lh|);
    }
  }

  /** A recovery stopped after any number of its writes leaves the recovered state as it was; one that
      completes puts that state into the home area and clears the log. */
  lemma {:induction false} RecoveryIsIdempotent(l: Layout, img: Image, k: nat)
    requires Fits(l, img) && HeaderOk(l, img) && k <= |RecoveryWrites(l, img)|
    ensures InRange(img, RecoveryWrites(l, img))
    ensures
      var d := After(img, RecoveryWrites(l, img), k);
      && HeaderOk(l, d)
      && Recovered(l, d) == Recovered(l, img)
      && (k == |RecoveryWrites(l, img)| ==> HeaderCount(l, d) == 0 && Home(l, d) == Recovered(l, img))
  {
    RecoveryInRange(l, img);
    RecoveryWriteAt(l, img, 0);
    var lh := HeaderBlocks(l, img);
    var vals := LogBlocks(l, img, |lh|);
    RecoveryShapeHolds(l, img, lh, vals, k);
    RecoveryShapeRecovers(l, img, lh, vals, k, After(img, RecoveryWrites(l, img), k));
  }

  /** The disk after recovery was attempted once per entry of `stops`, each attempt dying after that many writes. */
  function AfterAttempts(l: Layout, img: Image, stops: seq<nat>): (r: Image)
    requires Fits(l, img) && HeaderOk(l, img)
    ensures |r| == |img| && HeaderOk(l, r)
    decreases |stops|
  {
    if stops == [] then img else
      var ws := RecoveryWrites(l, img);
      var k := if stops[0] <= |ws| then stops[0] else |ws|;
      RecoveryIsIdempotent(l, img, k);
      AfterAttempts(l, After(img, ws, k), stops[1..])
  }

  lemma {:induction false} AttemptsPreserve(l: Layout, img: Image, stops: seq<nat>)
    requires Fits(l, img) && HeaderOk(l, img)
    ensures Recovered(l, AfterAttempts(l, img, stops)) == Recovered(l, img)
    decreases |stops|
  {
    if stops != [] {
      var ws := RecoveryWrites(l, img);
      var k := if stops[0] <= |ws| then stops[0] else |ws|;
      RecoveryIsIdempotent(l, img, k);
      AttemptsPreserve(l, After(img, ws, k), stops[1..]);
    }
  }

  /** Crash atomicity, end to end: `commit` dies after `k` writes, recovery dies any number of times, and the
      first recovery to complete leaves the home area as before the transaction or with all of it, the latter
      exactly when the header write had reached the disk. */
  lemma {:induction false} CrashAtomicity(l: Layout, img: Image, lh: seq<nat>, vals: seq<Block>, k: nat, stops: seq<nat>)
    requires Fits(l, img) && HeaderOk(l, img) && HeaderCount(l, img) == 0
    requires Loggable(l, img, lh) && |lh| == |vals|
    requires k <= |CommitWrites(l, img, lh, vals)|
    ensures InRange(img, CommitWrites(l, img, lh, vals))
    ensures
      var crashed := After(img, CommitWrites(l, img, lh, vals), k);
      && HeaderOk(l, crashed)
      && var retried := AfterAttempts(l, crashed, stops);
      && InRange(retried, RecoveryWrites(l, retried))
      && var booted := After(retried, RecoveryWrites(l, retried), |RecoveryWrites(l, retried)|);
      && Home(l, booted) == (if k <= |lh| then Home(l, img) else Overlay(l, img, lh, vals))
      && HeaderCount(l, booted) == 0
  {
    CommitIsAtomic(l, img, lh, vals, k);
    var crashed := After(img, CommitWrites(l, img, lh, vals), k);
    AttemptsPreserve(l, crashed, stops);
    var retried := AfterAttempts(l, crashed, stops);
    RecoveryIsIdempotent(l, retried, |RecoveryWrites(l, retried)|);
  }
}

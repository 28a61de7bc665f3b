/** bmap, readi, writei and itrunc of fs.c, and the chunking of filewrite in file.c. */
module FsFile {
  import opened Base
  import opened FsAlloc
  import opened FsInode
  import opened FsDinode

  const MAXOPBLOCKS := 10

  /** Bytes to be read from or written to one block. */
  function Chunk(off: nat, left: nat): nat {
    if left < BSIZE - off % BSIZE then left else BSIZE - off % BSIZE
  }

  /** A round that does not end the transfer ends at a block boundary. */
  lemma {:induction false} ChunkEnds(off: nat, tot: nat, n: nat, k: nat)
    requires tot < n && (if k == 0 then tot == 0 else off % BSIZE + tot == k * BSIZE)
    ensures var m := Chunk(off + tot, n - tot); tot + m == n || off % BSIZE + tot + m == (k + 1) * BSIZE
  {
  }

  /** Blocks that writing `n` bytes at `off` may log: for each block touched itself and, unless it is an unaligned first one,
      its bitmap block; the indirect block and its bitmap block; the inode. */
  function Budget(off: nat, n: nat): nat {
    if n == 0 then 0 else 2 * ((off % BSIZE + n + BSIZE - 1) / BSIZE) + 3 - (if off % BSIZE != 0 then 1 else 0)
  }

  /** The chunk size of filewrite(). */
  const MAXCHUNK := (MAXOPBLOCKS - 1 - 1 - 2) / 2 * 512

  lemma {:induction false} ChunkFitsBudget(off: nat, n: nat)
    requires n <= MAXCHUNK
    ensures Budget(off, n) <= MAXOPBLOCKS
    ensures n == MAXCHUNK && off % BSIZE != 0 ==> Budget(off, n) == MAXOPBLOCKS
  {
  }

  /** No transaction logs more than begin_op reserves for it. */
  ghost predicate WithinBudget(logs: seq<set<Logged>>) {
    forall t {:trigger logs[t]} :: 0 <= t < |logs| ==> |logs[t]| <= MAXOPBLOCKS
  }

  lemma {:induction false} BudgetMore(logs: seq<set<Logged>>, log: set<Logged>)
    requires WithinBudget(logs) && |log| <= MAXOPBLOCKS
    ensures WithinBudget(logs + [log])
  {
  }

  function Max(x: nat, y: nat): nat { if x < y then y else x }

  /** `src` has been written to file `i` at `off`, except that the size field is still to be set. */
  ghost predicate Written(data: seq<Block>, inodes: seq<Inode>, data': seq<Block>, inodes': seq<Inode>, i: nat, off: nat, src: seq<byte>) {
    && |inodes'| == |inodes| && i < |inodes| && off <= inodes[i].size && Extent(data, inodes[i], inodes[i].size)
    && Extent(data', inodes'[i], Max(inodes[i].size, off + |src|))
    && forall fold: nat :: WrittenBody(fold, data, inodes, data', inodes', i, off, src)
  }

  ghost predicate WrittenBody(fold: nat, data: seq<Block>, inodes: seq<Inode>, data': seq<Block>, inodes': seq<Inode>, i: nat, off: nat, src: seq<byte>)
    requires |inodes'| == |inodes| && i < |inodes| && off <= inodes[i].size && Extent(data, inodes[i], inodes[i].size)
    requires Extent(data', inodes'[i], Max(inodes[i].size, off + |src|))
  {
    && OthersKept(data, inodes, data', inodes', i)
    && Bytes(data', inodes'[i], Max(inodes[i].size, off + |src|)) == Splice(Contents(data, inodes[i]), off, src)
    && (off + |src| <= inodes[i].size ==> inodes' == inodes)
  }

  lemma {:induction false} NothingWritten(data: seq<Block>, inodes: seq<Inode>, i: nat, off: nat)
    requires i < |inodes| && off <= inodes[i].size && Extent(data, inodes[i], inodes[i].size)
    ensures Written(data, inodes, data, inodes, i, off, [])
  {
    assert Splice(Contents(data, inodes[i]), off, []) == Contents(data, inodes[i]);
    assert OthersKept(data, inodes, data, inodes, i);
    var none: seq<byte> := [];
    assert WrittenBody(0, data, inodes, data, inodes, i, off, none);
  }

  lemma {:induction false} WrittenStep(data: seq<Block>, inodes: seq<Inode>, data1: seq<Block>, inodes1: seq<Inode>,
                                       data2: seq<Block>, inodes2: seq<Inode>, i: nat, off: nat, src: seq<byte>, piece: seq<byte>)
    requires Written(data, inodes, data1, inodes1, i, off, src) && OthersKept(data1, inodes1, data2, inodes2, i)
    requires
      var ext := Max(inodes[i].size, off + |src|);
      var ext' := Max(ext, off + |src| + |piece|);
      && Extent(data2, inodes2[i], ext') && Bytes(data2, inodes2[i], ext') == Splice(Bytes(data1, inodes1[i], ext), off + |src|, piece)
      && (off + |src| + |piece| <= ext ==> inodes2 == inodes1)
    ensures Written(data, inodes, data2, inodes2, i, off, src + piece)
  {
    assert WrittenBody(0, data, inodes, data1, inodes1, i, off, src);
    OthersTwice(data, inodes, data1, inodes1, data2, inodes2, i);
    SpliceTwice(Contents(data, inodes[i]), off, src, piece);
    var src' := src + piece;
    assert WrittenBody(0, data, inodes, data2, inodes2, i, off, src');
  }

  /** File `i` now holds `x`; every other inode and the contents of its file are as before. */
  ghost predicate Replaced(data: seq<Block>, inodes: seq<Inode>, data': seq<Block>, inodes': seq<Inode>, i: nat, x: seq<byte>) {
    && |inodes'| == |inodes| && i < |inodes|
    && inodes'[i] == inodes[i].(size := |x|, addrs := inodes'[i].addrs) && Extent(data', inodes'[i], |x|) && Contents(data', inodes'[i]) == x
    && (forall j :: 0 <= j < |inodes| && j != i ==> inodes'[j] == inodes[j])
    && (forall j {:trigger FileKept(data, inodes[j], data', inodes'[j], inodes[j].size)} :: 0 <= j < |inodes| && j != i ==>
          FileKept(data, inodes[j], data', inodes'[j], inodes[j].size))
  }

  lemma {:induction false} WrittenReplaces(data: seq<Block>, inodes: seq<Inode>, data': seq<Block>, inodes1: seq<Inode>, inodes2: seq<Inode>,
                                           i: nat, off: nat, src: seq<byte>)
    requires Written(data, inodes, data', inodes1, i, off, src)
    requires
      var n := Max(inodes[i].size, off + |src|);
      && inodes2 == inodes1[i := inodes1[i].(size := n)]
      && Extent(data', inodes2[i], n) && Bytes(data', inodes2[i], n) == Bytes(data', inodes1[i], n)
    ensures Replaced(data, inodes, data', inodes2, i, Splice(Contents(data, inodes[i]), off, src))
    ensures OthersKept(data, inodes, data', inodes1, i)
  {
    assert WrittenBody(0, data, inodes, data', inodes1, i, off, src);
  }

  lemma {:induction false} ReplacedTwice(data: seq<Block>, inodes: seq<Inode>, data1: seq<Block>, inodes1: seq<Inode>,
                                         data2: seq<Block>, inodes2: seq<Inode>, i: nat, x: seq<byte>, y: seq<byte>)
    requires Replaced(data, inodes, data1, inodes1, i, x) && Replaced(data1, inodes1, data2, inodes2, i, y)
    ensures Replaced(data, inodes, data2, inodes2, i, y)
  {
    forall j | 0 <= j < |inodes| && j != i ensures FileKept(data, inodes[j], data2, inodes2[j], inodes[j].size) {
      assert FileKept(data, inodes[j], data1, inodes1[j], inodes[j].size) && FileKept(data1, inodes1[j], data2, inodes2[j], inodes1[j].size);
    }
  }

  /** The first `done` bytes of `src` have been written to file `i` at `off`, and that is all that has changed. */
  ghost predicate WrittenTo(data: seq<Block>, inodes: seq<Inode>, data': seq<Block>, inodes': seq<Inode>, i: nat, off: nat, src: seq<byte>, done: nat) {
    forall fold: nat :: WrittenToBody(fold, data, inodes, data', inodes', i, off, src, done)
  }

  ghost predicate WrittenToBody(fold: nat, data: seq<Block>, inodes: seq<Inode>, data': seq<Block>, inodes': seq<Inode>,
                                i: nat, off: nat, src: seq<byte>, done: nat) {
    && |inodes'| == |inodes| && i < |inodes| && done <= |src| && Extent(data, inodes[i], inodes[i].size)
    && if done == 0 then data' == data && inodes' == inodes
       else
         && off <= inodes[i].size && off + done <= inodes'[i].size <= MAXFILE * BSIZE
         && Replaced(data, inodes, data', inodes', i, Splice(Contents(data, inodes[i]), off, src[..done]))
  }

  /** Why a chunk of filewrite() that is refused ends it: the file begins before `off`, or would be too long. */
  lemma {:induction false} ChunkRefused(data: seq<Block>, inodes: seq<Inode>, data': seq<Block>, inodes': seq<Inode>,
                                        i: nat, off: nat, src: seq<byte>, done: nat, n: nat)
    requires WrittenTo(data, inodes, data', inodes', i, off, src, done) && 0 < n && done + n <= |src| && |inodes'| == |inodes| && i < |inodes|
    ensures off + done > inodes'[i].size || off + done + n > MAXFILE * BSIZE ==> off > inodes[i].size || off + |src| > MAXFILE * BSIZE
    ensures !(off + done > inodes'[i].size || off + done + n > MAXFILE * BSIZE) ==> off <= inodes[i].size && off + done + n <= MAXFILE * BSIZE
  {
    assert WrittenToBody(0, data, inodes, data', inodes', i, off, src, done);
  }

  /** The size of the file, and that all of it is there. */
  lemma {:induction false} WrittenSize(data: seq<Block>, inodes: seq<Inode>, data': seq<Block>, inodes': seq<Inode>,
                                       i: nat, off: nat, src: seq<byte>, done: nat)
    requires WrittenTo(data, inodes, data', inodes', i, off, src, done) && |inodes'| == |inodes| && i < |inodes| && off <= inodes[i].size
    ensures inodes'[i].size == Max(inodes[i].size, off + done) && Extent(data, inodes[i], inodes[i].size)
  {
    assert WrittenToBody(0, data, inodes, data', inodes', i, off, src, done);
  }

  /** A chunk of filewrite() is written behind the `done` bytes before it. */
  lemma {:induction false} ChunkWritten(data: seq<Block>, inodes: seq<Inode>, data1: seq<Block>, inodes1: seq<Inode>,
                                        data2: seq<Block>, inodes2: seq<Inode>, i: nat, off: nat, src: seq<byte>, done: nat, n: nat)
    requires WrittenTo(data, inodes, data1, inodes1, i, off, src, done) && 0 < n && done + n <= |src| && i < |inodes1|
    requires off + done <= inodes1[i].size && Extent(data1, inodes1[i], inodes1[i].size)
    requires Replaced(data1, inodes1, data2, inodes2, i, Splice(Contents(data1, inodes1[i]), off + done, src[done..done + n]))
    ensures WrittenTo(data, inodes, data2, inodes2, i, off, src, done + n)
  {
    assert WrittenToBody(0, data, inodes, data1, inodes1, i, off, src, done);
    var x := Contents(data, inodes[i]);
    assert src[..done] + src[done..done + n] == src[..done + n];
    if done > 0 {
      SpliceTwice(x, off, src[..done], src[done..done + n]);
      ReplacedTwice(data, inodes, data1, inodes1, data2, inodes2, i, Splice(x, off, src[..done]), Splice(x, off, src[..done + n]));
    }
  }

  // ---- Log space

  /** Block `bn` is one that a file of `n` bytes does not have. */
  predicate New(n: nat, bn: nat) {
    bn * BSIZE >= n
  }

  /** Number of blocks that `n` bytes at `off` touch. */
  function BlockCount(off: nat, n: nat): nat {
    if n == 0 then 0 else (off % BSIZE + n + BSIZE - 1) / BSIZE
  }

  /** Blocks that bmap logs when it allocates block `a` for block `bn` of a file with indirect block `ind`. */
  ghost function MapLogs(bn: nat, a: nat, ind: nat, newInd: bool): set<Logged> {
    {BitmapBlock(a / BPB), DataBlock(a)}
    + (if bn >= NDIRECT then {DataBlock(ind)} else {})
    + (if bn >= NDIRECT && newInd then {BitmapBlock(ind / BPB)} else {})
  }

  /** Blocks that one round of writei() logs. */
  ghost function RoundLogs(bn: nat, a: nat, isNew: bool, ind: nat, newInd: bool): set<Logged> {
    {DataBlock(a)} + if isNew then MapLogs(bn, a, ind, newInd) else {}
  }

  /** One of the blocks from `b0` on, of which there are `k`, is new and has its number in the indirect block. */
  ghost predicate NewIndirect(k: nat, b0: nat, n: nat) {
    exists bn :: b0 <= bn < b0 + k && IsNewIndirect(bn, n)
  }

  predicate IsNewIndirect(bn: nat, n: nat) {
    bn >= NDIRECT && New(n, bn)
  }

  ghost function DataLogs(bs: seq<nat>): set<Logged> {
    set j | 0 <= j < |bs| :: DataBlock(bs[j])
  }

  ghost function BitmapLogs(bs: seq<nat>, b0: nat, n: nat): set<Logged> {
    set j | 0 <= j < |bs| && New(n, b0 + j) :: BitmapBlock(bs[j] / BPB)
  }

  ghost function IndirectLogs(k: nat, b0: nat, n: nat, ind: nat, newInd: bool): set<Logged> {
    if !NewIndirect(k, b0, n) then {} else if newInd then {DataBlock(ind), BitmapBlock(ind / BPB)} else {DataBlock(ind)}
  }

  /** All that writei() logs, apart from the inode, when it touches blocks `b0`, `b0 + 1`, ... of a file that had `n` bytes,
      which are blocks `bs` of the disk: each of them, the bitmap blocks of the new ones, and if one of these is found through
      indirect block `ind`, that block, with its bitmap block if it is new too. */
  ghost function WriteLogs(bs: seq<nat>, b0: nat, n: nat, ind: nat, newInd: bool): set<Logged> {
    DataLogs(bs) + BitmapLogs(bs, b0, n) + IndirectLogs(|bs|, b0, n, ind, newInd)
  }

  /** `now` is exactly what rounds for the blocks `bs` have logged; `ind0` was the indirect block before, and `ind` is now. */
  ghost predicate Tally(before: set<Logged>, now: set<Logged>, bs: seq<nat>, b0: nat, n: nat, ind0: nat, ind: nat) {
    forall fold: nat :: TallyBody(fold, before, now, bs, b0, n, ind0, ind)
  }

  ghost predicate TallyBody(fold: nat, before: set<Logged>, now: set<Logged>, bs: seq<nat>, b0: nat, n: nat, ind0: nat, ind: nat) {
    && now == before + WriteLogs(bs, b0, n, ind, ind0 == 0)
    && (ind0 != 0 ==> ind == ind0)
    && (ind0 == 0 ==> (ind != 0 <==> NewIndirect(|bs|, b0, n)))
  }

  lemma {:induction false} DataLogsMore(bs: seq<nat>, a: nat)
    ensures DataLogs(bs + [a]) == DataLogs(bs) + {DataBlock(a)}
  {
    var bs' := bs + [a];
    forall x | x in DataLogs(bs) ensures x in DataLogs(bs') {
      var j :| 0 <= j < |bs| && x == DataBlock(bs[j]);
      assert bs'[j] == bs[j];
    }
    assert bs'[|bs|] == a;
  }

  lemma {:induction false} BitmapLogsMore(bs: seq<nat>, a: nat, b0: nat, n: nat)
    ensures BitmapLogs(bs + [a], b0, n) == BitmapLogs(bs, b0, n) + if New(n, b0 + |bs|) then {BitmapBlock(a / BPB)} else {}
  {
    var bs' := bs + [a];
    forall x | x in BitmapLogs(bs, b0, n) ensures x in BitmapLogs(bs', b0, n) {
      var j :| 0 <= j < |bs| && New(n, b0 + j) && x == BitmapBlock(bs[j] / BPB);
      assert bs'[j] == bs[j];
    }
    assert bs'[|bs|] == a;
  }

  lemma {:induction false} NewIndirectMore(k: nat, b0: nat, n: nat)
    ensures NewIndirect(k + 1, b0, n) <==> NewIndirect(k, b0, n) || IsNewIndirect(b0 + k, n)
  {
  }

  /** One more round. */
  lemma {:induction false} TallyStep(before: set<Logged>, now: set<Logged>, bs: seq<nat>, b0: nat, n: nat, ind0: nat, ind: nat, a: nat, ind': nat)
    requires Tally(before, now, bs, b0, n, ind0, ind) && (ind != 0 ==> ind' == ind)
    requires ind' != 0 <==> ind != 0 || IsNewIndirect(b0 + |bs|, n)
    ensures Tally(before, now + RoundLogs(b0 + |bs|, a, New(n, b0 + |bs|), ind', ind == 0), bs + [a], b0, n, ind0, ind')
  {
    assert TallyBody(0, before, now, bs, b0, n, ind0, ind);
    DataLogsMore(bs, a);
    BitmapLogsMore(bs, a, b0, n);
    NewIndirectMore(|bs|, b0, n);
    var bs', now' := bs + [a], now + RoundLogs(b0 + |bs|, a, New(n, b0 + |bs|), ind', ind == 0);
    assert TallyBody(0, before, now', bs', b0, n, ind0, ind');
  }

  lemma {:induction false} DataLogsSize(bs: seq<nat>)
    ensures |DataLogs(bs)| <= |bs|
  {
    if bs != [] {
      var r := bs[..|bs| - 1];
      assert bs == r + [bs[|bs| - 1]];
      DataLogsSize(r);
      DataLogsMore(r, bs[|bs| - 1]);
    }
  }

  /** A first block that is not new has no bitmap block to log. */
  lemma {:induction false} BitmapLogsSize(bs: seq<nat>, b0: nat, n: nat)
    ensures |BitmapLogs(bs, b0, n)| <= |bs| - (if bs != [] && !New(n, b0) then 1 else 0)
  {
    if bs != [] {
      var r := bs[..|bs| - 1];
      assert bs == r + [bs[|bs| - 1]];
      BitmapLogsSize(r, b0, n);
      BitmapLogsMore(r, bs[|bs| - 1], b0, n);
    }
  }

  lemma {:induction false} FourSize(a: set<Logged>, x: set<Logged>, y: set<Logged>, z: set<Logged>)
    ensures |a + (x + y + z)| <= |a| + |x| + |y| + |z|
  {
    assert a + (x + y + z) == a + x + y + z;
    UnionSize(a, x);
    UnionSize(a + x, y);
    UnionSize(a + x + y, z);
  }

  lemma {:induction false} BudgetCounts(off: nat, len: nat, n: nat)
    requires off <= n && len > 0
    ensures Budget(off, len) == 2 * BlockCount(off, len) + 3 - (if off % BSIZE != 0 then 1 else 0)
    ensures BlockCount(off, len) > 0 && (off % BSIZE != 0 ==> !New(n, off / BSIZE))
  {
  }

  lemma {:induction false} WriteLogsSize(before: set<Logged>, bs: seq<nat>, off: nat, len: nat, n: nat, ind: nat, newInd: bool)
    requires off <= n && |bs| == BlockCount(off, len)
    ensures |before + WriteLogs(bs, off / BSIZE, n, ind, newInd)| + (if len == 0 then 0 else 1) <= |before| + Budget(off, len)
  {
    var b0 := off / BSIZE;
    if len == 0 {
      assert before + WriteLogs(bs, b0, n, ind, newInd) == before;
    } else {
      DataLogsSize(bs);
      BitmapLogsSize(bs, b0, n);
      BudgetCounts(off, len, n);
      FourSize(before, DataLogs(bs), BitmapLogs(bs, b0, n), IndirectLogs(|bs|, b0, n, ind, newInd));
      assert |IndirectLogs(|bs|, b0, n, ind, newInd)| <= 2;
    }
  }

  lemma {:induction false} DataLogsExact(bs: seq<nat>)
    requires NoDuplicates(bs)
    ensures |DataLogs(bs)| == |bs|
  {
    if bs != [] {
      var r, a := bs[..|bs| - 1], bs[|bs| - 1];
      assert bs == r + [a];
      DataLogsExact(r);
      DataLogsMore(r, a);
      assert DataBlock(a) !in DataLogs(r);
    }
  }

  ghost function MapSet(ms: seq<nat>): set<Logged> {
    set j | 0 <= j < |ms| :: BitmapBlock(ms[j])
  }

  lemma {:induction false} MapSetExact(ms: seq<nat>)
    requires NoDuplicates(ms)
    ensures |MapSet(ms)| == |ms|
  {
    if ms != [] {
      var r, a := ms[..|ms| - 1], ms[|ms| - 1];
      MapSetExact(r);
      assert BitmapBlock(a) !in MapSet(r);
      assert MapSet(ms) == MapSet(r) + {BitmapBlock(a)} by {
        forall x | x in MapSet(ms) ensures x in MapSet(r) + {BitmapBlock(a)} {
          var j :| 0 <= j < |ms| && x == BitmapBlock(ms[j]);
          assert j < |r| ==> r[j] == ms[j];
        }
        forall x | x in MapSet(r) ensures x in MapSet(ms) {
          var j :| 0 <= j < |r| && x == BitmapBlock(r[j]);
          assert ms[j] == r[j];
        }
      }
    }
  }

  /** The bitmap blocks of three new blocks behind one that is not. */
  lemma {:induction false} ThreeNew(bs: seq<nat>, b0: nat, n: nat, ind: nat)
    requires |bs| == 4 && !New(n, b0) && New(n, b0 + 1)
    ensures BitmapLogs(bs, b0, n) + {BitmapBlock(ind / BPB)} == MapSet([bs[1] / BPB, bs[2] / BPB, bs[3] / BPB, ind / BPB])
  {
    var ms := [bs[1] / BPB, bs[2] / BPB, bs[3] / BPB, ind / BPB];
    forall x | x in BitmapLogs(bs, b0, n) ensures x in MapSet(ms) {
      var j :| 0 <= j < |bs| && New(n, b0 + j) && x == BitmapBlock(bs[j] / BPB);
      assert j > 0 && ms[j - 1] == bs[j] / BPB;
    }
    assert ms[3] == ind / BPB;
    forall x | x in MapSet(ms) ensures x in BitmapLogs(bs, b0, n) + {BitmapBlock(ind / BPB)} {
      var j :| 0 <= j < |ms| && x == BitmapBlock(ms[j]);
      if j < 3 { assert ms[j] == bs[j + 1] / BPB && New(n, b0 + (j + 1)); }
    }
  }

  lemma {:induction false} KindsApart(bs: seq<nat>, ms: seq<nat>, i: nat)
    ensures |DataLogs(bs) + MapSet(ms) + {InodeBlock(i)}| == |DataLogs(bs)| + |MapSet(ms)| + 1
  {
    assert DataLogs(bs) !! MapSet(ms);
    assert InodeBlock(i) !in DataLogs(bs) + MapSet(ms);
  }

  /** What is logged reaches the budget: a full chunk that does not begin at a block boundary, whose last three blocks are new,
      whose indirect block is new too, and whose four new blocks lie in four different bitmap blocks, logs exactly as many
      blocks as begin_op reserves. */
  lemma {:induction false} ChunkReachesBudget(bs: seq<nat>, ib: nat, off: nat, n: nat, ind: nat)
    requires off % BSIZE != 0 && |bs| == BlockCount(off, MAXCHUNK)
    requires !New(n, off / BSIZE) && New(n, off / BSIZE + 1) && off / BSIZE + 3 >= NDIRECT
    requires NoDuplicates(bs + [ind])
    requires NoDuplicates([bs[1] / BPB, bs[2] / BPB, bs[3] / BPB, ind / BPB])
    ensures |WriteLogs(bs, off / BSIZE, n, ind, true) + {InodeBlock(ib)}| == MAXOPBLOCKS
  {
    var b0, ms := off / BSIZE, [bs[1] / BPB, bs[2] / BPB, bs[3] / BPB, ind / BPB];
    assert |bs| == 4;
    assert IsNewIndirect(b0 + 3, n);
    DataLogsMore(bs, ind);
    ThreeNew(bs, b0, n, ind);
    assert WriteLogs(bs, b0, n, ind, true) == DataLogs(bs + [ind]) + MapSet(ms);
    DataLogsExact(bs + [ind]);
    MapSetExact(ms);
    KindsApart(bs + [ind], ms, ib);
  }

  // ---- Free blocks

  /** How many blocks bmap allocates for block `bn` of a file, if it is new. */
  function BlockNeeds(ip: Inode, isNew: bool, bn: nat): nat
    requires |ip.addrs| == NDIRECT + 1
  {
    if !isNew then 0 else if bn < NDIRECT || ip.addrs[NDIRECT] != 0 then 1 else 2
  }

  /** How many of `k` blocks from `b0` on are new. */
  function NewCount(n: nat, b0: nat, k: nat): nat {
    if k == 0 then 0 else NewCount(n, b0, k - 1) + if New(n, b0 + k - 1) then 1 else 0
  }

  /** How many blocks `k` rounds of writei() take, for a file with inode `ip` before. */
  ghost function Spent(ip: Inode, off: nat, k: nat): nat
    requires |ip.addrs| == NDIRECT + 1
  {
    assert IsSpent(SpentBlocks(ip, off, k), ip, off, k);
    var n: nat :| IsSpent(n, ip, off, k);
    n
  }

  ghost function SpentBlocks(ip: Inode, off: nat, k: nat): nat
    requires |ip.addrs| == NDIRECT + 1
  {
    NewCount(ip.size, off / BSIZE, k) + if ip.addrs[NDIRECT] == 0 && NewIndirect(k, off / BSIZE, ip.size) then 1 else 0
  }

  ghost predicate IsSpent(n: nat, ip: Inode, off: nat, k: nat)
    requires |ip.addrs| == NDIRECT + 1
  {
    forall fold: nat :: SpentBody(fold, n, ip, off, k)
  }

  ghost predicate SpentBody(fold: nat, n: nat, ip: Inode, off: nat, k: nat)
    requires |ip.addrs| == NDIRECT + 1
  {
    n == SpentBlocks(ip, off, k)
  }

  lemma {:induction false} SpentIs(ip: Inode, off: nat, k: nat)
    requires |ip.addrs| == NDIRECT + 1
    ensures Spent(ip, off, k) == SpentBlocks(ip, off, k) && (k == 0 ==> Spent(ip, off, k) == 0)
  {
    assert SpentBody(0, Spent(ip, off, k), ip, off, k);
  }

  lemma {:induction false} SpentStep(data: seq<Block>, ip: Inode, ip0: Inode, before: set<Logged>, now: set<Logged>, off: nat, k: nat)
    requires Counted(data, ip, ip0, before, now, off, k)
    ensures |ip.addrs| == |ip0.addrs| == NDIRECT + 1
    ensures Spent(ip0, off, k + 1) == Spent(ip0, off, k) + BlockNeeds(ip, New(ip0.size, off / BSIZE + k), off / BSIZE + k)
  {
    assert CountedBody(0, data, ip, ip0, before, now, off, k);
    assert TallyBody(0, before, now, Touched(data, ip, off / BSIZE, k), off / BSIZE, ip0.size, ip0.addrs[NDIRECT], ip.addrs[NDIRECT]);
    NewIndirectMore(k, off / BSIZE, ip0.size);
    SpentIs(ip0, off, k);
    SpentIs(ip0, off, k + 1);
    assert NewCount(ip0.size, off / BSIZE, k + 1) == NewCount(ip0.size, off / BSIZE, k) + if New(ip0.size, off / BSIZE + k) then 1 else 0;
  }

  lemma {:induction false} SpentMore(ip: Inode, off: nat, k: nat, k': nat)
    requires |ip.addrs| == NDIRECT + 1 && k <= k'
    ensures Spent(ip, off, k) <= Spent(ip, off, k')
  {
    if k < k' {
      SpentMore(ip, off, k, k' - 1);
      SpentIs(ip, off, k' - 1);
      SpentIs(ip, off, k');
      NewIndirectMore(k' - 1, off / BSIZE, ip.size);
    }
  }

  /** Some of `len` bytes at `off` are in block `bn` of the file. */
  predicate Touches(bn: nat, off: nat, len: nat) {
    len > 0 && bn * BSIZE < off + len && off < (bn + 1) * BSIZE
  }

  /** Blocks of a file that `len` bytes at `off` are in, and that it does not have. */
  ghost function Missing(data: seq<Block>, ip: Inode, off: nat, len: nat): set<nat>
    requires Addressable(data, ip)
  {
    set bn | 0 <= bn < MAXFILE && Touches(bn, off, len) && Slot(data, ip, DataSlot(bn)) == 0
  }

  /** How many free blocks writing `len` bytes at `off` needs: for those, and for the indirect block if one of them is found
      through it and it is missing too. */
  ghost function WriteNeeds(data: seq<Block>, ip: Inode, off: nat, len: nat): nat
    requires Addressable(data, ip)
  {
    assert IsNeeds(MissingCount(data, ip, off, len), data, ip, off, len);
    var n: nat :| IsNeeds(n, data, ip, off, len);
    n
  }

  ghost function MissingCount(data: seq<Block>, ip: Inode, off: nat, len: nat): nat
    requires Addressable(data, ip)
  {
    |Missing(data, ip, off, len)| + if ip.addrs[NDIRECT] == 0 && exists bn :: bn in Missing(data, ip, off, len) && bn >= NDIRECT then 1 else 0
  }

  ghost predicate IsNeeds(n: nat, data: seq<Block>, ip: Inode, off: nat, len: nat)
    requires Addressable(data, ip)
  {
    forall fold: nat :: NeedsBody(fold, n, data, ip, off, len)
  }

  ghost predicate NeedsBody(fold: nat, n: nat, data: seq<Block>, ip: Inode, off: nat, len: nat)
    requires Addressable(data, ip)
  {
    n == MissingCount(data, ip, off, len)
  }

  lemma {:induction false} NeedsIs(data: seq<Block>, ip: Inode, off: nat, len: nat)
    requires Addressable(data, ip)
    ensures WriteNeeds(data, ip, off, len) == MissingCount(data, ip, off, len)
  {
    assert NeedsBody(0, WriteNeeds(data, ip, off, len), data, ip, off, len);
  }

  /** Number of blocks of a file of `n` bytes. */
  function BlocksUp(n: nat): nat { (n + BSIZE - 1) / BSIZE }

  /** A file that grows from `n` to `end` bytes needs its first indirect block. */
  predicate GrowsIndirect(n: nat, end: nat) {
    BlocksUp(end) > BlocksUp(n) && BlocksUp(end) > NDIRECT
  }

  /** Blocks that a file takes when it grows from `n` to `end` bytes. */
  function Growth(n: nat, noIndirect: bool, end: nat): int {
    BlocksUp(Max(n, end)) - BlocksUp(n) + if noIndirect && GrowsIndirect(n, end) then 1 else 0
  }

  lemma {:induction false} GrowthAdd(n: nat, noIndirect: bool, end: nat, end': nat)
    requires end <= end'
    ensures Growth(n, noIndirect, end') == Growth(n, noIndirect, end) + Growth(Max(n, end), noIndirect && !GrowsIndirect(n, end), end')
    ensures Growth(n, noIndirect, end) <= Growth(n, noIndirect, end')
  {
    BlocksUpMore(n, Max(n, end));
    BlocksUpMore(end, end');
    BlocksUpMore(Max(n, end), Max(n, end'));
  }

  lemma {:induction false} RangeSize(s: set<nat>, a: nat, b: nat)
    requires forall x :: x in s <==> a <= x < b
    ensures |s| == if a < b then b - a else 0
  {
    if a < b {
      RangeSize(s - {b - 1}, a, b - 1);
    } else {
      assert s == {};
    }
  }

  /** The blocks that are missing are those behind the end of the file. */
  lemma {:induction false} MissingBehind(data: seq<Block>, ip: Inode, off: nat, len: nat, bn: nat)
    requires Extent(data, ip, ip.size) && off <= ip.size && off + len <= MAXFILE * BSIZE
    ensures bn in Missing(data, ip, off, len) <==> BlocksUp(ip.size) <= bn < BlocksUp(off + len)
    ensures bn in Missing(data, ip, off, len) <==> off / BSIZE <= bn < off / BSIZE + BlockCount(off, len) && New(ip.size, bn)
  {
    assert ExtentBlocks(0, data, ip, ip.size);
    TouchesIff(bn, off, len);
    NewIff(ip.size, bn);
    assert bn < BlocksUp(off + len) ==> bn < MAXFILE;
  }

  lemma {:induction false} NewIff(n: nat, bn: nat)
    ensures New(n, bn) <==> BlocksUp(n) <= bn
  {
  }

  lemma {:induction false} TouchesIff(bn: nat, off: nat, len: nat)
    ensures Touches(bn, off, len) <==> off / BSIZE <= bn < off / BSIZE + BlockCount(off, len)
    ensures len > 0 ==> off / BSIZE + BlockCount(off, len) == BlocksUp(off + len)
    ensures Touches(bn, off, len) ==> bn < BlocksUp(off + len)
    ensures off / BSIZE <= BlocksUp(off)
  {
  }

  /** The count in closed form: blocks and indirect block, by the size of the file before and after. */
  lemma {:induction false} NeedsClosed(data: seq<Block>, ip: Inode, off: nat, len: nat)
    requires Extent(data, ip, ip.size) && off <= ip.size && off + len <= MAXFILE * BSIZE
    ensures WriteNeeds(data, ip, off, len) == Growth(ip.size, ip.addrs[NDIRECT] == 0, off + len)
  {
    var missing, a, b := Missing(data, ip, off, len), BlocksUp(ip.size), BlocksUp(off + len);
    forall bn ensures bn in missing <==> a <= bn < b {
      if bn >= 0 { MissingBehind(data, ip, off, len, bn); }
    }
    RangeSize(missing, a, b);
    NeedsIs(data, ip, off, len);
    if GrowsIndirect(ip.size, off + len) {
      assert b - 1 in missing;
    }
  }

  ghost function NewSet(n: nat, b0: nat, k: nat): set<nat> {
    set bn | b0 <= bn < b0 + k && New(n, bn)
  }

  lemma {:induction false} NewCountIs(n: nat, b0: nat, k: nat)
    ensures |NewSet(n, b0, k)| == NewCount(n, b0, k)
  {
    if k > 0 {
      NewCountIs(n, b0, k - 1);
      assert NewSet(n, b0, k) == NewSet(n, b0, k - 1) + if New(n, b0 + k - 1) then {b0 + k - 1} else {};
    }
  }

  /** The rounds of writei() take what is needed. */
  lemma {:induction false} SpentIsNeeded(data: seq<Block>, ip: Inode, off: nat, len: nat)
    requires Extent(data, ip, ip.size) && off <= ip.size && off + len <= MAXFILE * BSIZE
    ensures Spent(ip, off, BlockCount(off, len)) == WriteNeeds(data, ip, off, len)
    ensures NewIndirect(BlockCount(off, len), off / BSIZE, ip.size) <==> GrowsIndirect(ip.size, off + len)
  {
    var k, b0, missing := BlockCount(off, len), off / BSIZE, Missing(data, ip, off, len);
    SpentIs(ip, off, k);
    NeedsIs(data, ip, off, len);
    NewCountIs(ip.size, b0, k);
    forall bn ensures bn in missing <==> bn in NewSet(ip.size, b0, k)
              ensures bn in missing <==> BlocksUp(ip.size) <= bn < BlocksUp(off + len) {
      if bn >= 0 { MissingBehind(data, ip, off, len, bn); }
    }
    assert missing == NewSet(ip.size, b0, k);
    if NewIndirect(k, b0, ip.size) {
      var bn :| b0 <= bn < b0 + k && IsNewIndirect(bn, ip.size);
      assert bn in missing;
    }
    if GrowsIndirect(ip.size, off + len) {
      assert BlocksUp(off + len) - 1 in missing;
    }
    if bn :| bn in missing && bn >= NDIRECT {
      assert IsNewIndirect(bn, ip.size);
    }
  }

  /** Whether the file has an indirect block, once it has grown to `end` bytes. */
  ghost predicate IndirectAfter(ip: Inode, ip': Inode, end: nat) {
    && |ip.addrs| == |ip'.addrs| == NDIRECT + 1
    && (ip'.addrs[NDIRECT] == 0 <==> ip.addrs[NDIRECT] == 0 && !GrowsIndirect(ip.size, end))
  }

  /** Two writes, one behind the other, need what one write of both needs. */
  lemma {:induction false} NeedsAdd(data: seq<Block>, ip: Inode, data': seq<Block>, ip': Inode, off: nat, done: nat, n: nat)
    requires Extent(data, ip, ip.size) && Extent(data', ip', ip'.size) && off <= ip.size && off + done + n <= MAXFILE * BSIZE
    requires ip'.size == Max(ip.size, off + done) && IndirectAfter(ip, ip', off + done)
    ensures WriteNeeds(data, ip, off, done + n) == WriteNeeds(data, ip, off, done) + WriteNeeds(data', ip', off + done, n)
  {
    NeedsClosed(data, ip, off, done);
    NeedsClosed(data, ip, off, done + n);
    NeedsClosed(data', ip', off + done, n);
    GrowthAdd(ip.size, ip.addrs[NDIRECT] == 0, off + done, off + done + n);
  }

  lemma {:induction false} IndirectTwice(ip: Inode, ip': Inode, ip'': Inode, end: nat, end': nat)
    requires end <= end' && ip'.size == Max(ip.size, end) && IndirectAfter(ip, ip', end) && IndirectAfter(ip', ip'', end')
    ensures IndirectAfter(ip, ip'', end')
  {
    BlocksUpMore(ip.size, ip'.size);
    BlocksUpMore(end, end');
  }

  lemma {:induction false} NeedsMore(data: seq<Block>, ip: Inode, off: nat, len: nat, len': nat)
    requires Extent(data, ip, ip.size) && off <= ip.size && len <= len' && off + len' <= MAXFILE * BSIZE
    ensures WriteNeeds(data, ip, off, len) <= WriteNeeds(data, ip, off, len')
  {
    NeedsClosed(data, ip, off, len);
    NeedsClosed(data, ip, off, len');
    GrowthAdd(ip.size, ip.addrs[NDIRECT] == 0, off + len, off + len');
  }

  lemma {:induction false} BlocksUpMore(n: nat, n': nat)
    requires n <= n'
    ensures BlocksUp(n) <= BlocksUp(n')
  {
  }

  /** The free blocks, once `done` bytes have been written at `off`, and what the file needs for more. */
  ghost predicate Ledger(data0: seq<Block>, ip0: Inode, ip: Inode, off: nat, done: nat, free0: nat, free: nat) {
    forall fold: nat :: LedgerBody(fold, data0, ip0, ip, off, done, free0, free)
  }

  ghost predicate LedgerBody(fold: nat, data0: seq<Block>, ip0: Inode, ip: Inode, off: nat, done: nat, free0: nat, free: nat) {
    && Extent(data0, ip0, ip0.size) && off <= ip0.size && ip.size == Max(ip0.size, off + done) && IndirectAfter(ip0, ip, off + done)
    && free0 == free + WriteNeeds(data0, ip0, off, done)
  }

  lemma {:induction false} LedgerStart(data: seq<Block>, ip: Inode, off: nat, free: nat)
    requires Extent(data, ip, ip.size) && off <= ip.size
    ensures Ledger(data, ip, ip, off, 0, free, free)
  {
    NeedsClosed(data, ip, off, 0);
    BlocksUpMore(off, ip.size);
    assert LedgerBody(0, data, ip, ip, off, 0, free, free);
  }

  lemma {:induction false} LedgerStep(data0: seq<Block>, ip0: Inode, data: seq<Block>, ip: Inode, ip': Inode, off: nat, done: nat, n: nat,
                                      free0: nat, free: nat, free': nat)
    requires Ledger(data0, ip0, ip, off, done, free0, free) && Extent(data, ip, ip.size) && off + done + n <= MAXFILE * BSIZE
    requires free == free' + WriteNeeds(data, ip, off + done, n) && IndirectAfter(ip, ip', off + done + n)
    requires ip'.size == Max(ip0.size, off + done + n)
    ensures Ledger(data0, ip0, ip', off, done + n, free0, free')
  {
    assert LedgerBody(0, data0, ip0, ip, off, done, free0, free);
    NeedsAdd(data0, ip0, data, ip, off, done, n);
    IndirectTwice(ip0, ip, ip', off + done, off + done + n);
    var done' := done + n;
    assert LedgerBody(0, data0, ip0, ip', off, done', free0, free');
  }

  lemma {:induction false} LedgerFails(data0: seq<Block>, ip0: Inode, data: seq<Block>, ip: Inode, off: nat, done: nat, n: nat,
                                       free0: nat, free: nat, total: nat)
    requires Ledger(data0, ip0, ip, off, done, free0, free) && Extent(data, ip, ip.size)
    requires done + n <= total && off + total <= MAXFILE * BSIZE && free < WriteNeeds(data, ip, off + done, n)
    ensures Addressable(data0, ip0) && free0 < WriteNeeds(data0, ip0, off, total)
  {
    assert LedgerBody(0, data0, ip0, ip, off, done, free0, free);
    NeedsAdd(data0, ip0, data, ip, off, done, n);
    NeedsMore(data0, ip0, off, done + n, total);
  }

  /** How many bytes filewrite() writes of `len` at `off`, if it does not run out of blocks: all, or the whole chunks that the
      largest file has room for. */
  function Accepted(off: nat, len: nat): nat {
    if off + len <= MAXFILE * BSIZE then len
    else if off > MAXFILE * BSIZE then 0
    else (MAXFILE * BSIZE - off) / MAXCHUNK * MAXCHUNK
  }

  lemma {:induction false} NextAccepted(off: nat, len: nat, done: nat, n: nat)
    requires done < len && done % MAXCHUNK == 0 && n == (if len - done > MAXCHUNK then MAXCHUNK else len - done)
    requires off <= MAXFILE * BSIZE && done <= Accepted(off, len)
    ensures off + Accepted(off, len) <= MAXFILE * BSIZE && Accepted(off, len) <= len
    ensures if off + done + n > MAXFILE * BSIZE then done == Accepted(off, len) else done + n <= Accepted(off, len)
    ensures done + n == len || (done + n) % MAXCHUNK == 0
  {
    assert MAXCHUNK == 1536;
    var j := done / 1536;
    assert done == j * 1536 && (j * 1536 + 1536) % 1536 == 0;
    if off + len > MAXFILE * BSIZE {
      var room := MAXFILE * BSIZE - off;
      var q := room / 1536;
      assert Accepted(off, len) == q * 1536 && q * 1536 <= room < q * 1536 + 1536 && j <= q;
      if done + n > room {
        assert j == q;
      } else {
        assert n == 1536 && j < q;
      }
    }
  }

  /** Block numbers of `k` blocks of a file, from block `b0` on. */
  ghost function Touched(data: seq<Block>, ip: Inode, b0: nat, k: nat): (bs: seq<nat>)
    requires Addressable(data, ip) && b0 + k <= MAXFILE
    ensures |bs| == k
  {
    seq<nat>(k, j requires 0 <= j < k => Slot(data, ip, DataSlot(b0 + j)))
  }

  /** The blocks that a file had are still where they were. */
  ghost predicate SlotsKept(data: seq<Block>, ip: Inode, data': seq<Block>, ip': Inode) {
    Addressable(data, ip) && Addressable(data', ip') && forall fold: nat :: SlotsKeptBody(fold, data, ip, data', ip')
  }

  ghost predicate SlotsKeptBody(fold: nat, data: seq<Block>, ip: Inode, data': seq<Block>, ip': Inode)
    requires Addressable(data, ip) && Addressable(data', ip')
  {
    forall bn :: 0 <= bn < MAXFILE && Slot(data, ip, DataSlot(bn)) != 0 ==> Slot(data', ip', DataSlot(bn)) == Slot(data, ip, DataSlot(bn))
  }

  /** The log holds exactly what `k` rounds of writei() have logged. */
  ghost predicate Counted(data: seq<Block>, ip: Inode, ip0: Inode, before: set<Logged>, now: set<Logged>, off: nat, k: nat) {
    forall fold: nat :: CountedBody(fold, data, ip, ip0, before, now, off, k)
  }

  ghost predicate CountedBody(fold: nat, data: seq<Block>, ip: Inode, ip0: Inode, before: set<Logged>, now: set<Logged>, off: nat, k: nat) {
    && Addressable(data, ip) && |ip0.addrs| == NDIRECT + 1 && off / BSIZE + k <= MAXFILE
    && Tally(before, now, Touched(data, ip, off / BSIZE, k), off / BSIZE, ip0.size, ip0.addrs[NDIRECT], ip.addrs[NDIRECT])
  }

  lemma {:induction false} CountedStart(data: seq<Block>, ip: Inode, logged: set<Logged>, off: nat)
    requires Addressable(data, ip) && off <= MAXFILE * BSIZE
    ensures Counted(data, ip, ip, logged, logged, off, 0)
  {
    var b0, ind := off / BSIZE, ip.addrs[NDIRECT];
    assert WriteLogs([], b0, ip.size, ind, ind == 0) == {};
    assert Touched(data, ip, b0, 0) == [];
    assert TallyBody(0, logged, logged, [], b0, ip.size, ind, ind);
    assert CountedBody(0, data, ip, ip, logged, logged, off, 0);
  }

  /** One more round. */
  lemma {:induction false} CountedStep(data: seq<Block>, ip: Inode, data': seq<Block>, ip': Inode, ip0: Inode, before: set<Logged>, now: set<Logged>,
                                       off: nat, k: nat, n: nat)
    requires Counted(data, ip, ip0, before, now, off, k) && Extent(data, ip, n) && SlotsKept(data, ip, data', ip')
    requires off / BSIZE + k < MAXFILE && (k > 0 ==> (off / BSIZE + k - 1) * BSIZE < n)
    requires IndirectKept(ip, ip', IsNewIndirect(off / BSIZE + k, ip0.size))
    ensures
      var bn := off / BSIZE + k;
      var now' := now + RoundLogs(bn, Slot(data', ip', DataSlot(bn)), New(ip0.size, bn), ip'.addrs[NDIRECT], ip.addrs[NDIRECT] == 0);
      Counted(data', ip', ip0, before, now', off, k + 1)
  {
    assert CountedBody(0, data, ip, ip0, before, now, off, k);
    var b0 := off / BSIZE;
    var a := Slot(data', ip', DataSlot(b0 + k));
    TouchedMore(data, ip, data', ip', b0, k, n);
    TallyStep(before, now, Touched(data, ip, b0, k), b0, ip0.size, ip0.addrs[NDIRECT], ip.addrs[NDIRECT], a, ip'.addrs[NDIRECT]);
    var now' := now + RoundLogs(b0 + k, a, New(ip0.size, b0 + k), ip'.addrs[NDIRECT], ip.addrs[NDIRECT] == 0);
    assert CountedBody(0, data', ip', ip0, before, now', off, k + 1);
  }

  /** All rounds. */
  lemma {:induction false} CountedEnd(data: seq<Block>, ip: Inode, ip0: Inode, before: set<Logged>, now: set<Logged>, off: nat, len: nat)
    requires Counted(data, ip, ip0, before, now, off, BlockCount(off, len)) && off <= ip0.size
    ensures LoggedBlocks(data, ip, ip0, before, now, off, len)
    ensures |now| + (if len == 0 then 0 else 1) <= |before| + Budget(off, len)
    ensures |ip.addrs| == |ip0.addrs| == NDIRECT + 1
    ensures ip.addrs[NDIRECT] == 0 <==> ip0.addrs[NDIRECT] == 0 && !NewIndirect(BlockCount(off, len), off / BSIZE, ip0.size)
  {
    var b0, k := off / BSIZE, BlockCount(off, len);
    assert CountedBody(0, data, ip, ip0, before, now, off, k);
    assert TallyBody(0, before, now, Touched(data, ip, b0, k), b0, ip0.size, ip0.addrs[NDIRECT], ip.addrs[NDIRECT]);
    assert LoggedBlocksBody(0, data, ip, ip0, before, now, off, len);
    LoggedSize(data, ip, ip0, before, now, off, len);
  }

  /** What a write of `len` bytes at `off` to a file with inode `ip0` before and `ip` after has logged, apart from the inode. */
  ghost predicate LoggedBlocks(data: seq<Block>, ip: Inode, ip0: Inode, before: set<Logged>, now: set<Logged>, off: nat, len: nat) {
    forall fold: nat :: LoggedBlocksBody(fold, data, ip, ip0, before, now, off, len)
  }

  ghost predicate LoggedBlocksBody(fold: nat, data: seq<Block>, ip: Inode, ip0: Inode, before: set<Logged>, now: set<Logged>, off: nat, len: nat) {
    && Addressable(data, ip) && |ip0.addrs| == NDIRECT + 1
    && var b0, k := off / BSIZE, BlockCount(off, len);
    && b0 + k <= MAXFILE
    && now == before + WriteLogs(Touched(data, ip, b0, k), b0, ip0.size, ip.addrs[NDIRECT], ip0.addrs[NDIRECT] == 0)
  }

  /** The same with the inode, number `i`, which is logged if the file grew. */
  ghost predicate LoggedExactly(data: seq<Block>, ip: Inode, ip0: Inode, before: set<Logged>, now: set<Logged>, i: nat, off: nat, len: nat) {
    exists blocks :: LoggedBlocks(data, ip, ip0, before, blocks, off, len)
      && now == blocks + if len > 0 && off + len > ip0.size then {InodeBlock(i / IPB)} else {}
  }

  lemma {:induction false} LoggedResized(data: seq<Block>, ip: Inode, ip0: Inode, before: set<Logged>, now: set<Logged>, off: nat, len: nat, n: nat)
    requires LoggedBlocks(data, ip, ip0, before, now, off, len)
    ensures LoggedBlocks(data, ip.(size := n), ip0, before, now, off, len)
  {
    assert LoggedBlocksBody(0, data, ip, ip0, before, now, off, len);
    var b0, k := off / BSIZE, BlockCount(off, len);
    var ip' := ip.(size := n);
    assert Addressable(data, ip');
    forall bn | b0 <= bn < b0 + k ensures Slot(data, ip', DataSlot(bn)) == Slot(data, ip, DataSlot(bn)) {}
    assert Touched(data, ip', b0, k) == Touched(data, ip, b0, k);
    assert LoggedBlocksBody(0, data, ip', ip0, before, now, off, len);
  }

  lemma {:induction false} LoggedSize(data: seq<Block>, ip: Inode, ip0: Inode, before: set<Logged>, now: set<Logged>, off: nat, len: nat)
    requires LoggedBlocks(data, ip, ip0, before, now, off, len) && off <= ip0.size
    ensures |now| + (if len == 0 then 0 else 1) <= |before| + Budget(off, len)
  {
    assert LoggedBlocksBody(0, data, ip, ip0, before, now, off, len);
    var b0, k := off / BSIZE, BlockCount(off, len);
    WriteLogsSize(before, Touched(data, ip, b0, k), off, len, ip0.size, ip.addrs[NDIRECT], ip0.addrs[NDIRECT] == 0);
  }

  lemma {:induction false} WrittenInode(data: seq<Block>, inodes: seq<Inode>, data': seq<Block>, inodes': seq<Inode>, i: nat, off: nat, src: seq<byte>)
    requires Written(data, inodes, data', inodes', i, off, src)
    ensures inodes' == inodes[i := inodes[i].(addrs := inodes'[i].addrs)]
  {
    assert WrittenBody(0, data, inodes, data', inodes', i, off, src);
  }

  lemma {:induction false} NothingNew(data: seq<Block>, inodes: seq<Inode>, data': seq<Block>, inodes': seq<Inode>, i: nat, off: nat, src: seq<byte>)
    requires Written(data, inodes, data', inodes', i, off, src) && off + |src| <= inodes[i].size
    ensures inodes' == inodes && inodes[i].size == Max(inodes[i].size, off + |src|)
  {
    assert WrittenBody(0, data, inodes, data', inodes', i, off, src);
  }

  /** The indirect block stays what it is, and exists if it did or is `needed`. */
  predicate IndirectKept(ip: Inode, ip': Inode, needed: bool)
    requires |ip.addrs| == |ip'.addrs| == NDIRECT + 1
  {
    && (ip.addrs[NDIRECT] != 0 ==> ip'.addrs[NDIRECT] == ip.addrs[NDIRECT])
    && (ip'.addrs[NDIRECT] != 0 <==> ip.addrs[NDIRECT] != 0 || needed)
  }

  lemma {:induction false} MappedKeepsSlots(data: seq<Block>, inodes: seq<Inode>, data': seq<Block>, inodes': seq<Inode>, i: nat, bn: nat, a: nat, n: nat)
    requires Mapped(data, inodes, data', inodes', i, bn, a) && Extent(data, inodes[i], n)
    ensures SlotsKept(data, inodes[i], data', inodes'[i])
  {
    assert ExtentBlocks(0, data, inodes[i], n);
    forall b | 0 <= b < MAXFILE && Slot(data, inodes[i], DataSlot(b)) != 0
      ensures Slot(data', inodes'[i], DataSlot(b)) == Slot(data, inodes[i], DataSlot(b))
    {
      assert SlotOf(data, inodes, i, DataSlot(b)) != 0;
    }
  }

  lemma {:induction false} PatchedSlots(data: seq<Block>, ip: Inode, data1: seq<Block>, data2: seq<Block>, inodes: seq<Inode>, i: nat)
    requires AllAddressable(data1, inodes) && AllAddressable(data2, inodes) && i < |inodes| && SlotsKept(data, ip, data1, inodes[i])
    requires forall j, m :: 0 <= j < |inodes| && 0 <= m < NSLOTS ==> SlotOf(data2, inodes, j, m) == SlotOf(data1, inodes, j, m)
    ensures SlotsKept(data, ip, data2, inodes[i])
  {
    assert SlotsKeptBody(0, data, ip, data1, inodes[i]);
    forall b | 0 <= b < MAXFILE ensures Slot(data2, inodes[i], DataSlot(b)) == Slot(data1, inodes[i], DataSlot(b)) {
      assert SlotOf(data2, inodes, i, DataSlot(b)) == SlotOf(data1, inodes, i, DataSlot(b));
    }
  }

  /** Round `k` of writei() begins after `tot` bytes. */
  predicate AtRound(off: nat, tot: nat, k: nat) {
    if k == 0 then tot == 0 else off % BSIZE + tot == k * BSIZE
  }

  /** A round that does not end the transfer ends where the next one begins; one that does was the last. */
  lemma {:induction false} NextRound(off: nat, tot: nat, n: nat, k: nat)
    requires tot < n && AtRound(off, tot, k)
    ensures
      var m := Chunk(off + tot, n - tot);
      0 < m <= n - tot && if tot + m < n then AtRound(off, tot + m, k + 1) else k + 1 == BlockCount(off, n)
  {
    ChunkEnds(off, tot, n, k);
  }

  lemma {:induction false} LaterRound(off: nat, tot: nat, n: nat, k: nat)
    requires tot < n && AtRound(off, tot, k)
    ensures k < BlockCount(off, n)
  {
  }

  /** The block that round `k` is about. */
  lemma {:induction false} RoundBlock(off: nat, tot: nat, k: nat, n: nat, len: nat)
    requires AtRound(off, tot, k) && off <= n && tot < len && off + len <= MAXFILE * BSIZE
    ensures (off + tot) / BSIZE == off / BSIZE + k < MAXFILE && (k > 0 ==> (off / BSIZE + k - 1) * BSIZE < off + tot)
    ensures New(Max(n, off + tot), off / BSIZE + k) <==> New(n, off / BSIZE + k)
  {
    assert off == off / BSIZE * BSIZE + off % BSIZE;
  }

  lemma {:induction false} TouchedMore(data: seq<Block>, ip: Inode, data': seq<Block>, ip': Inode, b0: nat, k: nat, n: nat)
    requires Extent(data, ip, n) && SlotsKept(data, ip, data', ip') && b0 + k < MAXFILE && (k > 0 ==> (b0 + k - 1) * BSIZE < n)
    ensures Touched(data', ip', b0, k + 1) == Touched(data, ip, b0, k) + [Slot(data', ip', DataSlot(b0 + k))]
  {
    var t, u := Touched(data', ip', b0, k + 1), Touched(data, ip, b0, k);
    forall j | 0 <= j < k ensures t[j] == u[j] { SameSlot(data, ip, data', ip', b0 + j, n); }
  }

  lemma {:induction false} SameSlot(data: seq<Block>, ip: Inode, data': seq<Block>, ip': Inode, bn: nat, n: nat)
    requires Extent(data, ip, n) && SlotsKept(data, ip, data', ip') && bn < MAXFILE && bn * BSIZE < n
    ensures Slot(data', ip', DataSlot(bn)) == Slot(data, ip, DataSlot(bn))
  {
    assert ExtentBlocks(0, data, ip, n) && SlotsKeptBody(0, data, ip, data', ip');
  }

  lemma {:induction false} JoinSlices(x: seq<byte>, a: nat, b: nat, c: nat)
    requires a <= b <= c <= |x|
    ensures x[a..b] + x[b..c] == x[a..c]
  {
  }

  /** Block numbers of an inode fit the fields on the disk. */
  lemma {:induction false} OwnedStorable(bm: seq<BitBlock>, data: seq<Block>, inodes: seq<Inode>, start: nat, i: nat)
    requires Owned(bm, data, inodes, start) && i < |inodes| && inodes[i].size < WORD
    ensures Storable(inodes[i])
  {
    assert SlotsOwned(0, bm, data, inodes, start);
    forall k | 0 <= k <= NDIRECT ensures inodes[i].addrs[k] < WORD {
      assert SlotOf(data, inodes, i, k) == inodes[i].addrs[k];
    }
  }

  class FileSystem {
    const d: Disk
    const start: nat               // first data block; the blocks before it are always in use
    var inodes: seq<Inode>         // in-memory inodes by number
    var iblocks: seq<Block>        // the blocks of the disk that hold inodes
    ghost var dinodes: seq<Inode>  // what they hold, by inode number

    /** Ownership and layout; holds also in the middle of an operation. */
    ghost predicate Owns()
      reads this, d
    {
      && |d.data| == d.size && |dinodes| == |inodes| && Packed(iblocks, dinodes)
      && Owned(d.bitmap, d.data, inodes, start) && FullBelow(d.bitmap, d.size, start)
    }

    /** How many blocks are free. */
    ghost function Free(): nat
      requires Covers(d.bitmap, d.size)
      reads d
    {
      FreeCount(d.bitmap, d.size)
    }

    /** The invariant between operations: no file has holes or blocks past its end, and memory and disk agree. */
    ghost predicate Valid()
      reads this, d
    {
      && Owns() && dinodes == inodes
      && forall i :: 0 <= i < |inodes| ==> Extent(d.data, inodes[i], inodes[i].size)
    }

    constructor (disk: Disk, start: nat, table: seq<Inode>, iblocks: seq<Block>)
      requires Packed(iblocks, table)
      requires |disk.data| == disk.size && Owned(disk.bitmap, disk.data, table, start) && FullBelow(disk.bitmap, disk.size, start)
      requires forall i :: 0 <= i < |table| ==> Extent(disk.data, table[i], table[i].size)
      ensures Valid() && d == disk && inodes == table
    {
      this.d, this.start, this.inodes, this.iblocks, this.dinodes := disk, start, table, iblocks, table;
    }

    /** iupdate(). */
    method Iupdate(i: nat)
      requires Owns() && i < |inodes| && inodes[i].size < WORD
      modifies this`iblocks, this`dinodes, d`logged
      ensures Owns() && dinodes == old(dinodes)[i := inodes[i]] && d.logged == old(d.logged) + {InodeBlock(i / IPB)}
    {
      OwnedStorable(d.bitmap, d.data, inodes, start, i);
      PackedPut(iblocks, dinodes, i, inodes[i]);
      iblocks := iblocks[i / IPB := PutInode(iblocks[i / IPB], i % IPB, inodes[i])];
      dinodes := dinodes[i := inodes[i]];
      d.logged := d.logged + {InodeBlock(i / IPB)};
    }

    /** balloc() on behalf of slot `k` of inode `i`, which keeps the block in the inode. */
    method AddToInode(i: nat, k: nat) returns (r: Option<nat>)
      requires Owns() && i < |inodes| && k <= NDIRECT && SlotOf(d.data, inodes, i, k) == 0
      modifies this`inodes, d
      ensures r.None? ==> inodes == old(inodes)
      ensures r.None? <==> old(Free()) == 0
      ensures r.Some? ==>
        && Owns() && old(Free()) == Free() + 1 && r.value != 0 && r.value < |old(d.data)| && SlotSet(old(d.data), old(inodes), d.data, inodes, i, k, r.value)
        && d.data == old(d.data)[r.value := ZeroBlock] && !Used(old(d.bitmap), r.value)
        && inodes == old(inodes)[i := old(inodes)[i].(addrs := inodes[i].addrs)]
        && d.logged == old(d.logged) + {BitmapBlock(r.value / BPB), DataBlock(r.value)}
    {
      NoneFree(d.bitmap, d.size);
      r := d.Balloc();
      if r.Some? {
        OneTaken(old(d.bitmap), d.bitmap, d.size, r.value);
        SetInInode(old(d.bitmap), old(d.data), inodes, start, i, k, r.value);
        inodes := inodes[i := inodes[i].(addrs := inodes[i].addrs[k := r.value])];
        OwnedAdd(old(d.bitmap), old(d.data), old(inodes), d.bitmap, d.data, inodes, start, i, k, r.value);
      }
    }

    /** balloc() on behalf of an entry of the indirect block of inode `i`. */
    method AddToIndirect(i: nat, k: nat) returns (r: Option<nat>)
      requires Owns() && i < |inodes| && NDIRECT < k < NSLOTS && inodes[i].addrs[NDIRECT] != 0 && SlotOf(d.data, inodes, i, k) == 0
      modifies d
      ensures r.None? <==> old(Free()) == 0
      ensures r.Some? ==>
        && Owns() && old(Free()) == Free() + 1 && r.value != 0 && r.value < |old(d.data)| && SlotSet(old(d.data), inodes, d.data, inodes, i, k, r.value)
        && (forall b :: 0 <= b < |d.data| && b != r.value && b != inodes[i].addrs[NDIRECT] ==> d.data[b] == old(d.data)[b])
        && d.data[r.value] == ZeroBlock && !Used(old(d.bitmap), r.value)
        && d.logged == old(d.logged) + {BitmapBlock(r.value / BPB), DataBlock(r.value), DataBlock(inodes[i].addrs[NDIRECT])}
    {
      NoneFree(d.bitmap, d.size);
      r := d.Balloc();
      if r.Some? {
        OneTaken(old(d.bitmap), d.bitmap, d.size, r.value);
        var ind := inodes[i].addrs[NDIRECT];
        SetInIndirect(old(d.bitmap), old(d.data), inodes, start, i, k, r.value);
        d.Put(ind, SetWord(d.data[ind], k - NDIRECT - 1, r.value));
        OwnedAdd(old(d.bitmap), old(d.data), inodes, d.bitmap, d.data, inodes, start, i, k, r.value);
      }
    }

    /** bmap(): the block, allocated if missing; `None` is the panic of balloc. */
    method Bmap(i: nat, bn: nat) returns (r: Option<nat>)
      requires Owns() && i < |inodes| && bn < MAXFILE
      modifies this`inodes, d
      ensures r.None? <==> old(Free()) < old(BlockNeeds(inodes[i], SlotOf(d.data, inodes, i, DataSlot(bn)) == 0, bn))
      ensures r.Some? ==> Owns() && old(Free()) == Free() + old(BlockNeeds(inodes[i], SlotOf(d.data, inodes, i, DataSlot(bn)) == 0, bn))
      ensures SlotOf(old(d.data), old(inodes), i, DataSlot(bn)) != 0 ==>
        && r == Some(SlotOf(old(d.data), old(inodes), i, DataSlot(bn)))
        && inodes == old(inodes) && d.data == old(d.data) && d.bitmap == old(d.bitmap) && d.logged == old(d.logged)
      ensures r.Some? && SlotOf(old(d.data), old(inodes), i, DataSlot(bn)) == 0 ==>
        && Mapped(old(d.data), old(inodes), d.data, inodes, i, bn, r.value)
        && d.logged == old(d.logged) + MapLogs(bn, r.value, inodes[i].addrs[NDIRECT], old(inodes)[i].addrs[NDIRECT] == 0)
    {
      if bn < NDIRECT {
        assert SlotOf(d.data, inodes, i, DataSlot(bn)) == inodes[i].addrs[bn];
        if inodes[i].addrs[bn] != 0 {
          return Some(inodes[i].addrs[bn]);
        }
        r := AddToInode(i, bn);
        if r.Some? {
          MappedDirect(old(d.bitmap), old(d.data), old(inodes), start, d.data, inodes, i, bn, r.value);
        }
      } else {
        r := BmapIndirect(i, bn);
      }
    }

    /** The second half of bmap(). */
    method BmapIndirect(i: nat, bn: nat) returns (r: Option<nat>)
      requires Owns() && i < |inodes| && NDIRECT <= bn < MAXFILE
      modifies this`inodes, d
      ensures r.None? <==> old(Free()) < old(BlockNeeds(inodes[i], SlotOf(d.data, inodes, i, DataSlot(bn)) == 0, bn))
      ensures r.Some? ==> Owns() && old(Free()) == Free() + old(BlockNeeds(inodes[i], SlotOf(d.data, inodes, i, DataSlot(bn)) == 0, bn))
      ensures SlotOf(old(d.data), old(inodes), i, DataSlot(bn)) != 0 ==>
        && r == Some(SlotOf(old(d.data), old(inodes), i, DataSlot(bn)))
        && inodes == old(inodes) && d.data == old(d.data) && d.bitmap == old(d.bitmap) && d.logged == old(d.logged)
      ensures r.Some? && SlotOf(old(d.data), old(inodes), i, DataSlot(bn)) == 0 ==>
        && Mapped(old(d.data), old(inodes), d.data, inodes, i, bn, r.value)
        && d.logged == old(d.logged) + MapLogs(bn, r.value, inodes[i].addrs[NDIRECT], old(inodes)[i].addrs[NDIRECT] == 0)
    {
      if inodes[i].addrs[NDIRECT] == 0 {
        assert SlotOf(d.data, inodes, i, DataSlot(bn)) == 0 && SlotOf(d.data, inodes, i, NDIRECT) == 0;
        var x := AddToInode(i, NDIRECT);
        if x.None? {
          return None;
        }
        ghost var data1, inodes1 := d.data, inodes;
        r := BmapEntry(i, bn);
        if r.Some? {
          MappedTwice(old(d.bitmap), old(d.data), old(inodes), start, x.value, data1, inodes1, d.data, inodes, i, bn, r.value);
        }
      } else {
        r := BmapEntry(i, bn);
      }
    }

    /** The entry in the indirect block, which exists. */
    method BmapEntry(i: nat, bn: nat) returns (r: Option<nat>)
      requires Owns() && i < |inodes| && NDIRECT <= bn < MAXFILE && inodes[i].addrs[NDIRECT] != 0
      modifies d
      ensures r.None? <==> old(Free()) < old(BlockNeeds(inodes[i], SlotOf(d.data, inodes, i, DataSlot(bn)) == 0, bn))
      ensures r.Some? ==> Owns() && old(Free()) == Free() + old(BlockNeeds(inodes[i], SlotOf(d.data, inodes, i, DataSlot(bn)) == 0, bn))
      ensures SlotOf(old(d.data), inodes, i, DataSlot(bn)) != 0 ==>
        && r == Some(SlotOf(old(d.data), inodes, i, DataSlot(bn)))
        && d.data == old(d.data) && d.bitmap == old(d.bitmap) && d.logged == old(d.logged)
      ensures r.Some? && SlotOf(old(d.data), inodes, i, DataSlot(bn)) == 0 ==>
        && Mapped(old(d.data), inodes, d.data, inodes, i, bn, r.value)
        && d.logged == old(d.logged) + MapLogs(bn, r.value, inodes[i].addrs[NDIRECT], false)
    {
      var addr := Word(d.data[inodes[i].addrs[NDIRECT]], bn - NDIRECT);
      assert addr == SlotOf(d.data, inodes, i, DataSlot(bn));
      if addr != 0 {
        return Some(addr);
      }
      r := AddToIndirect(i, bn + 1);
      if r.Some? {
        MappedIndirect(old(d.bitmap), old(d.data), inodes, start, d.data, i, bn, r.value);
      }
    }

    // ---- Reading

    /** readi() on a file: the bytes from `off` on that exist, at most `n`; nothing is allocated or changed. */
    method Readi(i: nat, off: nat, n: nat) returns (r: int, dst: seq<byte>)
      requires Valid() && i < |inodes| && off < WORD && n < WORD
      modifies this`inodes, d
      ensures Valid() && inodes == old(inodes) && d.data == old(d.data) && d.bitmap == old(d.bitmap) && d.logged == old(d.logged)
      ensures r == -1 <==> off > inodes[i].size || off + n >= WORD
      ensures r == -1 ==> dst == []
      ensures r != -1 ==> r == if off + n > inodes[i].size then inodes[i].size - off else n
      ensures r != -1 ==> dst == Contents(d.data, inodes[i])[off..off + r]
    {
      var size := inodes[i].size;
      dst := [];
      if off > size || (off + n) % WORD < off {
        return -1, dst;
      }
      var count := if off + n > size then size - off else n;
      dst := ReadAll(i, off, count, size);
      r := count;
    }

    /** The loop of readi(). */
    method ReadAll(i: nat, off: nat, count: nat, ghost n: nat) returns (dst: seq<byte>)
      requires Owns() && i < |inodes| && Extent(d.data, inodes[i], n) && off + count <= n
      modifies this`inodes, d
      ensures Owns() && inodes == old(inodes) && d.data == old(d.data) && d.bitmap == old(d.bitmap) && d.logged == old(d.logged)
      ensures dst == Bytes(d.data, inodes[i], n)[off..off + count]
    {
      var tot := 0;
      dst := [];
      ghost var x := Bytes(d.data, inodes[i], n);
      while tot < count
        invariant Owns() && inodes == old(inodes) && d.data == old(d.data) && d.bitmap == old(d.bitmap) && d.logged == old(d.logged)
        invariant 0 <= tot <= count && dst == x[off..off + tot]
      {
        var m := Chunk(off + tot, count - tot);
        var piece := ReadPiece(i, off + tot, m, n);
        JoinSlices(x, off, off + tot, off + tot + m);
        dst := dst + piece;
        tot := tot + m;
      }
    }

    /** One round of the loop of readi(). */
    method ReadPiece(i: nat, off: nat, m: nat, ghost n: nat) returns (piece: seq<byte>)
      requires Owns() && i < |inodes| && Extent(d.data, inodes[i], n)
      requires off < n && off % BSIZE + m <= BSIZE && off + m <= n
      modifies this`inodes, d
      ensures Owns() && inodes == old(inodes) && d.data == old(d.data) && d.bitmap == old(d.bitmap) && d.logged == old(d.logged)
      ensures piece == Bytes(d.data, inodes[i], n)[off..off + m]
    {
      BytesInBlock(d.data, inodes[i], n, off, m);
      assert SlotOf(d.data, inodes, i, DataSlot(off / BSIZE)) != 0;
      var b := Bmap(i, off / BSIZE);
      piece := d.data[b.value][off % BSIZE..off % BSIZE + m];
    }

    // ---- Writing

    /** bmap() in writei(): the file now has room for the piece, and what it held is still there. */
    method MapPiece(i: nat, off: nat, m: nat, ghost ext: nat) returns (r: Option<nat>)
      requires Owns() && i < |inodes| && Extent(d.data, inodes[i], ext) && off <= ext
      requires 0 < m && off % BSIZE + m <= BSIZE && off + m <= MAXFILE * BSIZE
      modifies this`inodes, d
      ensures r.None? <==> old(Free()) < BlockNeeds(old(inodes)[i], New(ext, off / BSIZE), off / BSIZE)
      ensures r.Some? ==> Owns() && OthersKept(old(d.data), old(inodes), d.data, inodes, i)
      ensures r.Some? ==> old(Free()) == Free() + BlockNeeds(old(inodes)[i], New(ext, off / BSIZE), off / BSIZE)
      ensures r.Some? ==>
        && Extent(d.data, inodes[i], Max(ext, off + m)) && Bytes(d.data, inodes[i], Max(ext, off + m))[..ext] == old(Bytes(d.data, inodes[i], ext))
        && r.value == SlotOf(d.data, inodes, i, DataSlot(off / BSIZE))
      ensures r.Some? && off + m <= ext ==> inodes == old(inodes)
      ensures r.Some? ==> SlotsKept(old(d.data), old(inodes)[i], d.data, inodes[i])
      ensures r.Some? ==> IndirectKept(old(inodes)[i], inodes[i], IsNewIndirect(off / BSIZE, ext))
      ensures r.Some? ==> d.logged == old(d.logged) + if New(ext, off / BSIZE)
        then MapLogs(off / BSIZE, r.value, inodes[i].addrs[NDIRECT], old(inodes)[i].addrs[NDIRECT] == 0) else {}
    {
      var bn := off / BSIZE;
      ghost var isNew := SlotOf(d.data, inodes, i, DataSlot(bn)) == 0;
      assert ExtentBlocks(0, d.data, inodes[i], ext);
      r := Bmap(i, bn);
      if r.Some? {
        if isNew {
          MappedGrows(old(d.data), old(inodes), d.data, inodes, i, bn, r.value, ext, off + m);
          MappedKeepsOthers(old(d.data), old(inodes), d.data, inodes, i, bn, r.value);
          MappedKeepsSlots(old(d.data), old(inodes), d.data, inodes, i, bn, r.value, ext);
        } else {
          ExtentWithin(d.data, inodes[i], ext, Max(ext, off + m));
        }
      }
    }

    /** One round of the loop of writei(): bmap, copy, log_write. */
    method WritePiece(i: nat, off: nat, piece: seq<byte>, ghost ext: nat) returns (r: Option<nat>)
      requires Owns() && i < |inodes| && Extent(d.data, inodes[i], ext) && off <= ext
      requires 0 < |piece| && off % BSIZE + |piece| <= BSIZE && off + |piece| <= MAXFILE * BSIZE
      modifies this`inodes, d
      ensures r.None? <==> old(Free()) < BlockNeeds(old(inodes)[i], New(ext, off / BSIZE), off / BSIZE)
      ensures r.Some? ==> Owns() && OthersKept(old(d.data), old(inodes), d.data, inodes, i)
      ensures r.Some? ==> old(Free()) == Free() + BlockNeeds(old(inodes)[i], New(ext, off / BSIZE), off / BSIZE)
      ensures r.Some? ==>
        && Extent(d.data, inodes[i], Max(ext, off + |piece|))
        && Bytes(d.data, inodes[i], Max(ext, off + |piece|)) == Splice(old(Bytes(d.data, inodes[i], ext)), off, piece)
      ensures r.Some? && off + |piece| <= ext ==> inodes == old(inodes)
      ensures r.Some? ==> SlotsKept(old(d.data), old(inodes)[i], d.data, inodes[i])
      ensures r.Some? ==> Addressable(d.data, inodes[i]) && r.value == Slot(d.data, inodes[i], DataSlot(off / BSIZE))
      ensures r.Some? ==> IndirectKept(old(inodes)[i], inodes[i], IsNewIndirect(off / BSIZE, ext))
      ensures r.Some? ==> d.logged == old(d.logged) + RoundLogs(off / BSIZE, r.value,
        New(ext, off / BSIZE), inodes[i].addrs[NDIRECT], old(inodes)[i].addrs[NDIRECT] == 0)
    {
      ghost var ext' := Max(ext, off + |piece|);
      ghost var x := Bytes(d.data, inodes[i], ext);
      r := MapPiece(i, off, |piece|, ext);
      if r.Some? {
        ghost var data1 := d.data;
        PatchFile(d.bitmap, data1, inodes, start, i, ext', off, piece);
        SpliceLonger(x, Bytes(data1, inodes[i], ext'), off, piece);
        PatchSlots(d.bitmap, data1, inodes, start, i, off / BSIZE, Patch(d.data[r.value], off % BSIZE, piece));
        d.Put(r.value, Patch(d.data[r.value], off % BSIZE, piece));
        PatchedSlots(old(d.data), old(inodes)[i], data1, d.data, inodes, i);
        OthersTwice(old(d.data), old(inodes), data1, inodes, d.data, inodes, i);
      }
    }

    /** The file gets its new length, in memory and on disk. */
    method Resize(i: nat, n: nat)
      requires Owns() && i < |inodes| && Extent(d.data, inodes[i], n)
      modifies this, d`logged
      ensures Owns() && inodes == old(inodes)[i := old(inodes)[i].(size := n)] && dinodes == old(dinodes)[i := inodes[i]]
      ensures Extent(d.data, inodes[i], n) && Bytes(d.data, inodes[i], n) == old(Bytes(d.data, inodes[i], n))
      ensures d.logged == old(d.logged) + {InodeBlock(i / IPB)}
    {
      Resized(d.bitmap, d.data, inodes, start, i, n);
      inodes := inodes[i := inodes[i].(size := n)];
      Iupdate(i);
    }

    /** A round of the loop of writei(), `tot` bytes after the beginning. */
    method WriteRound(i: nat, src: seq<byte>, off: nat, tot: nat, ghost data0: seq<Block>, ghost inodes0: seq<Inode>)
        returns (r: Option<nat>, m: nat)
      requires Owns() && i < |inodes| && tot < |src| && off + |src| <= MAXFILE * BSIZE
      requires Written(data0, inodes0, d.data, inodes, i, off, src[..tot])
      modifies this`inodes, d
      ensures m == Chunk(off + tot, |src| - tot)
      ensures |old(inodes)[i].addrs| == NDIRECT + 1
      ensures
        var bn := (off + tot) / BSIZE;
        var needs := BlockNeeds(old(inodes)[i], New(Max(inodes0[i].size, off + tot), bn), bn);
        if r.None? then old(Free()) < needs else Owns() && old(Free()) == Free() + needs
      ensures r.Some? ==> Owns() && |inodes| == old(|inodes|) && Written(data0, inodes0, d.data, inodes, i, off, src[..tot + m])
      ensures r.Some? ==> SlotsKept(old(d.data), old(inodes)[i], d.data, inodes[i])
      ensures r.Some? ==> Addressable(d.data, inodes[i]) && r.value == Slot(d.data, inodes[i], DataSlot((off + tot) / BSIZE))
      ensures r.Some? ==> IndirectKept(old(inodes)[i], inodes[i], IsNewIndirect((off + tot) / BSIZE, Max(inodes0[i].size, off + tot)))
      ensures r.Some? ==> d.logged == old(d.logged) + RoundLogs((off + tot) / BSIZE, r.value,
        New(Max(inodes0[i].size, off + tot), (off + tot) / BSIZE), inodes[i].addrs[NDIRECT], old(inodes)[i].addrs[NDIRECT] == 0)
    {
      ghost var data1, inodes1 := d.data, inodes;
      m := Chunk(off + tot, |src| - tot);
      var piece := src[tot..tot + m];
      r := WritePiece(i, off + tot, piece, Max(inodes0[i].size, off + tot));
      if r.Some? {
        WrittenStep(data0, inodes0, data1, inodes1, d.data, inodes, i, off, src[..tot], piece);
        assert src[..tot + m] == src[..tot] + piece;
      }
    }

    /** The same round, with what has been logged since the beginning. */
    method CountedRound(i: nat, src: seq<byte>, off: nat, tot: nat, ghost data0: seq<Block>, ghost inodes0: seq<Inode>, ghost logged0: set<Logged>,
                        ghost k: nat, ghost free0: nat)
        returns (ok: bool, m: nat)
      requires Owns() && i < |inodes| && tot < |src| && off + |src| <= MAXFILE * BSIZE
      requires Written(data0, inodes0, d.data, inodes, i, off, src[..tot])
      requires AtRound(off, tot, k) && Counted(d.data, inodes[i], inodes0[i], logged0, d.logged, off, k)
      requires |inodes0[i].addrs| == NDIRECT + 1 && free0 == Free() + Spent(inodes0[i], off, k)
      modifies this`inodes, d
      ensures m == Chunk(off + tot, |src| - tot)
      ensures ok ==> Owns() && |inodes| == old(|inodes|) && Written(data0, inodes0, d.data, inodes, i, off, src[..tot + m])
      ensures ok ==> Counted(d.data, inodes[i], inodes0[i], logged0, d.logged, off, k + 1)
      ensures if ok then free0 == Free() + Spent(inodes0[i], off, k + 1) else free0 < Spent(inodes0[i], off, k + 1)
    {
      ghost var data1, ip1, logged1 := d.data, inodes[i], d.logged;
      RoundBlock(off, tot, k, inodes0[i].size, |src|);
      SpentStep(data1, ip1, inodes0[i], logged0, logged1, off, k);
      var r;
      r, m := WriteRound(i, src, off, tot, data0, inodes0);
      ok := r.Some?;
      if ok {
        CountedStep(data1, ip1, d.data, inodes[i], inodes0[i], logged0, logged1, off, k, Max(inodes0[i].size, off + tot));
      }
    }

    /** The loop of writei(). */
    method WriteAll(i: nat, src: seq<byte>, off: nat) returns (ok: bool)
      requires Valid() && i < |inodes| && off <= inodes[i].size && off + |src| <= MAXFILE * BSIZE
      modifies this`inodes, d
      ensures |old(inodes)[i].addrs| == NDIRECT + 1
      ensures ok <==> old(Free()) >= Spent(old(inodes)[i], off, BlockCount(off, |src|))
      ensures ok ==> Owns() && Written(old(d.data), old(inodes), d.data, inodes, i, off, src)
      ensures ok ==> old(Free()) == Free() + Spent(old(inodes)[i], off, BlockCount(off, |src|))
      ensures ok ==> LoggedBlocks(d.data, inodes[i], old(inodes)[i], old(d.logged), d.logged, off, |src|)
      ensures ok ==> |inodes[i].addrs| == NDIRECT + 1 && (inodes[i].addrs[NDIRECT] == 0 <==>
        old(inodes)[i].addrs[NDIRECT] == 0 && !NewIndirect(BlockCount(off, |src|), off / BSIZE, old(inodes)[i].size))
      ensures ok ==> |d.logged| + (if src == [] then 0 else 1) <= |old(d.logged)| + Budget(off, |src|)
    {
      var tot := 0;
      ghost var k := 0;
      NothingWritten(d.data, inodes, i, off);
      CountedStart(d.data, inodes[i], d.logged, off);
      SpentIs(inodes[i], off, 0);
      while tot < |src|
        invariant 0 <= tot <= |src| && Owns() && |inodes| == old(|inodes|)
        invariant Written(old(d.data), old(inodes), d.data, inodes, i, off, src[..tot])
        invariant Counted(d.data, inodes[i], old(inodes)[i], old(d.logged), d.logged, off, k)
        invariant old(Free()) == Free() + Spent(old(inodes)[i], off, k)
        invariant tot < |src| ==> AtRound(off, tot, k)
        invariant tot == |src| ==> k == BlockCount(off, |src|)
      {
        var m;
        ok, m := CountedRound(i, src, off, tot, old(d.data), old(inodes), old(d.logged), k, old(Free()));
        NextRound(off, tot, |src|, k);
        if !ok {
          LaterRound(off, tot, |src|, k);
          SpentMore(old(inodes)[i], off, k + 1, BlockCount(off, |src|));
          return;
        }
        k, tot := k + 1, tot + m;
      }
      assert src[..tot] == src;
      CountedEnd(d.data, inodes[i], old(inodes)[i], old(d.logged), d.logged, off, |src|);
      ok := true;
    }

    /** The loop of writei() and the update of the size after it. */
    method WriteAndResize(i: nat, src: seq<byte>, off: nat) returns (ok: bool, ghost inodes1: seq<Inode>)
      requires Valid() && i < |inodes| && off <= inodes[i].size && off + |src| <= MAXFILE * BSIZE
      modifies this, d
      ensures ok <==> old(Free()) >= WriteNeeds(old(d.data), old(inodes)[i], off, |src|)
      ensures ok ==> Owns() && Written(old(d.data), old(inodes), d.data, inodes1, i, off, src)
      ensures ok ==> old(Free()) == Free() + WriteNeeds(old(d.data), old(inodes)[i], off, |src|)
      ensures ok ==> i < |inodes| && IndirectAfter(old(inodes)[i], inodes[i], off + |src|)
      ensures ok ==>
        var n := Max(old(inodes)[i].size, off + |src|);
        && |inodes1| == |old(inodes)| && inodes == inodes1[i := inodes1[i].(size := n)]
        && Extent(d.data, inodes[i], n) && Bytes(d.data, inodes[i], n) == Bytes(d.data, inodes1[i], n)
        && dinodes == inodes
      ensures ok ==> LoggedExactly(d.data, inodes[i], old(inodes)[i], old(d.logged), d.logged, i, off, |src|)
      ensures ok ==> |d.logged| <= |old(d.logged)| + Budget(off, |src|)
    {
      SpentIsNeeded(d.data, inodes[i], off, |src|);
      ok := WriteAll(i, src, off);
      inodes1 := inodes;
      if !ok {
        return;
      }
      ghost var logged := d.logged;
      WrittenInode(old(d.data), old(inodes), d.data, inodes, i, off, src);
      if |src| > 0 && off + |src| > inodes[i].size {
        Resize(i, off + |src|);
        UnionSize(logged, {InodeBlock(i / IPB)});
        LoggedResized(d.data, inodes1[i], old(inodes)[i], old(d.logged), logged, off, |src|, off + |src|);
      } else {
        assert inodes[i].(size := Max(old(inodes)[i].size, off + |src|)) == inodes[i];
        NothingNew(old(d.data), old(inodes), d.data, inodes, i, off, src);
      }
    }

    /** writei() on a file; `None` is the panic "out of blocks". */
    method Writei(i: nat, src: seq<byte>, off: nat) returns (r: Option<int>)
      requires Valid() && i < |inodes| && off < WORD && |src| < WORD
      modifies this, d
      ensures r == Some(-1) <==> off > old(inodes)[i].size || off + |src| > MAXFILE * BSIZE
      ensures r == Some(-1) ==>
        && inodes == old(inodes) && dinodes == old(dinodes) && d.data == old(d.data)
        && d.bitmap == old(d.bitmap) && d.logged == old(d.logged)
      ensures r.None? <==>
        && off <= old(inodes)[i].size && off + |src| <= MAXFILE * BSIZE
        && old(Free()) < WriteNeeds(old(d.data), old(inodes)[i], off, |src|)
      ensures r.Some? ==> Valid() && (r.value == -1 || r.value == |src|)
      ensures r.Some? && r.value != -1 ==>
        && old(Free()) == Free() + WriteNeeds(old(d.data), old(inodes)[i], off, |src|)
        && i < |inodes| && IndirectAfter(old(inodes)[i], inodes[i], off + |src|)
        && Replaced(old(d.data), old(inodes), d.data, inodes, i, Splice(old(Contents(d.data, inodes[i])), off, src))
        && i < |inodes| && LoggedExactly(d.data, inodes[i], old(inodes)[i], old(d.logged), d.logged, i, off, |src|)
        && |d.logged| <= |old(d.logged)| + Budget(off, |src|)
    {
      if off > inodes[i].size || (off + |src|) % WORD < off {
        return Some(-1);
      }
      if off + |src| > MAXFILE * BSIZE {
        return Some(-1);
      }
      var ok, inodes1 := WriteAndResize(i, src, off);
      if !ok {
        return None;
      }
      WrittenReplaces(old(d.data), old(inodes), d.data, inodes1, inodes, i, off, src);
      forall j | 0 <= j < |inodes| && j != i ensures Extent(d.data, inodes[j], inodes[j].size) {
        assert FileKept(old(d.data), old(inodes)[j], d.data, inodes[j], old(inodes)[j].size);
      }
      r := Some(|src|);
    }

    // ---- filewrite

    /** One transaction of filewrite(): begin_op, writei, end_op. It logs at most as many blocks as begin_op reserves. */
    method WriteChunk(i: nat, src: seq<byte>, off: nat, done: nat, n: nat, ghost data0: seq<Block>, ghost inodes0: seq<Inode>) returns (r: Option<int>)
      requires Valid() && i < |inodes| && off < WORD && 0 < n <= MAXCHUNK && done + n <= |src| && (done > 0 ==> off + done <= MAXFILE * BSIZE)
      requires WrittenTo(data0, inodes0, d.data, inodes, i, off, src, done)
      modifies this, d
      ensures r == Some(-1) <==> off + done > old(inodes)[i].size || off + done + n > MAXFILE * BSIZE
      ensures r.None? <==> r != Some(-1) && old(Free()) < WriteNeeds(old(d.data), old(inodes)[i], off + done, n)
      ensures r == Some(-1) ==> d.bitmap == old(d.bitmap) && inodes == old(inodes) && d.data == old(d.data)
      ensures r == Some(n) ==>
        && Covers(d.bitmap, d.size) && old(Free()) == Free() + WriteNeeds(old(d.data), old(inodes)[i], off + done, n)
        && i < |inodes| && IndirectAfter(old(inodes)[i], inodes[i], off + done + n)
      ensures r.Some? ==> Valid() && |inodes| == |old(inodes)| && (r.value == -1 || r.value == n) && |d.logged| <= MAXOPBLOCKS
      ensures r == Some(-1) ==> WrittenTo(data0, inodes0, d.data, inodes, i, off, src, done)
      ensures r == Some(n) ==> WrittenTo(data0, inodes0, d.data, inodes, i, off, src, done + n)
    {
      d.logged := {};
      var chunk := src[done..done + n];
      ChunkFitsBudget(off + done, n);
      ghost var data1, inodes1 := d.data, inodes;
      r := Writei(i, chunk, off + done);
      if r == Some(n) {
        ChunkWritten(data0, inodes0, data1, inodes1, d.data, inodes, i, off, src, done, n);
      }
    }

    /** The same, with the free blocks accounted for since the beginning. */
    method WriteNext(i: nat, src: seq<byte>, off: nat, done: nat, n: nat, ghost data0: seq<Block>, ghost inodes0: seq<Inode>,
                     ghost free0: nat, ghost total: nat)
        returns (r: Option<int>)
      requires Valid() && i < |inodes| == |inodes0| && off < WORD && 0 < n <= MAXCHUNK && done + n <= |src|
      requires WrittenTo(data0, inodes0, d.data, inodes, i, off, src, done)
      requires done > 0 ==> off <= inodes0[i].size && off + done <= MAXFILE * BSIZE
      requires off <= inodes0[i].size ==>
        Ledger(data0, inodes0[i], inodes[i], off, done, free0, Free()) && off + total <= MAXFILE * BSIZE
        && (off + done + n <= MAXFILE * BSIZE ==> done + n <= total)
      modifies this, d
      ensures r == Some(-1) <==> off > inodes0[i].size || off + done + n > MAXFILE * BSIZE
      ensures r.None? ==> off <= inodes0[i].size && Addressable(data0, inodes0[i]) && free0 < WriteNeeds(data0, inodes0[i], off, total)
      ensures r.Some? ==> Valid() && |inodes| == |old(inodes)| && (r.value == -1 || r.value == n) && |d.logged| <= MAXOPBLOCKS
      ensures r == Some(-1) ==> WrittenTo(data0, inodes0, d.data, inodes, i, off, src, done)
      ensures r == Some(-1) && off <= inodes0[i].size ==> Ledger(data0, inodes0[i], inodes[i], off, done, free0, Free())
      ensures r == Some(n) ==> WrittenTo(data0, inodes0, d.data, inodes, i, off, src, done + n)
      ensures r == Some(n) ==> Ledger(data0, inodes0[i], inodes[i], off, done + n, free0, Free())
    {
      ChunkRefused(data0, inodes0, d.data, inodes, i, off, src, done, n);
      ghost var data1, ip1, free1 := d.data, inodes[i], Free();
      if off <= inodes0[i].size {
        WrittenSize(data0, inodes0, d.data, inodes, i, off, src, done);
      }
      r := WriteChunk(i, src, off, done, n, data0, inodes0);
      if r.None? {
        LedgerFails(data0, inodes0[i], data1, ip1, off, done, n, free0, free1, total);
      } else if r.value == n {
        WrittenSize(data0, inodes0, d.data, inodes, i, off, src, done + n);
        LedgerStep(data0, inodes0[i], data1, ip1, inodes[i], off, done, n, free0, free1, Free());
      }
    }

    /** filewrite() on a file at offset `off`, which advances by `done`; `logs` has what each transaction logged. */
    method Filewrite(i: nat, src: seq<byte>, off: nat) returns (r: Option<int>, done: nat, ghost logs: seq<set<Logged>>)
      requires Valid() && i < |inodes| && off < WORD
      modifies this, d
      ensures r.Some? ==> Valid() && WrittenTo(old(d.data), old(inodes), d.data, inodes, i, off, src, done)
      ensures r.Some? ==> r.value == if done == |src| then |src| else -1
      ensures r.Some? ==> done == if off <= old(inodes)[i].size then Accepted(off, |src|) else 0
      ensures r.None? <==>
        off <= old(inodes)[i].size && old(Free()) < WriteNeeds(old(d.data), old(inodes)[i], off, Accepted(off, |src|))
      ensures WithinBudget(logs)
    {
      done := 0;
      logs := [];
      ghost var fits, total, free0, ip0 := off <= inodes[i].size, Accepted(off, |src|), Free(), inodes[i];
      if fits {
        LedgerStart(d.data, ip0, off, free0);
      }
      while done < |src|
        invariant 0 <= done <= |src| && Valid() && |inodes| == |old(inodes)| && WithinBudget(logs)
        invariant WrittenTo(old(d.data), old(inodes), d.data, inodes, i, off, src, done)
        invariant done > 0 ==> fits
        invariant fits ==> Ledger(old(d.data), ip0, inodes[i], off, done, free0, Free())
        invariant fits ==> done <= total && off + total <= MAXFILE * BSIZE && (done == |src| || done % MAXCHUNK == 0)
      {
        var n := if |src| - done > MAXCHUNK then MAXCHUNK else |src| - done;
        ChunkRefused(old(d.data), old(inodes), d.data, inodes, i, off, src, done, n);
        if fits {
          NextAccepted(off, |src|, done, n);
        }
        r := WriteNext(i, src, off, done, n, old(d.data), old(inodes), free0, total);
        if r.None? {
          return;
        }
        BudgetMore(logs, d.logged);
        logs := logs + [d.logged];
        if r.value < 0 {
          break;
        }
        done := done + n;
      }
      if fits {
        assert LedgerBody(0, old(d.data), ip0, inodes[i], off, done, free0, Free());
      }
      r := Some(if done == |src| then |src| else -1);
    }

    // ---- itrunc

    /** bfree() of the block in slot `k` of inode `i` of the table `was`, if there is one. It cannot panic. */
    method FreeSlot(ghost bm: seq<BitBlock>, ghost was: seq<Inode>, ghost i: nat, ghost ks: set<nat>, ghost k: nat, b: nat)
      requires Owned(bm, d.data, was, start) && |d.data| == d.size && Covers(d.bitmap, d.size) && i < |was|
      requires Freed(bm, d.bitmap, d.data, was, i, ks) && k < NSLOTS && k !in ks && b == SlotOf(d.data, was, i, k)
      modifies d`bitmap, d`logged
      ensures Covers(d.bitmap, d.size) && Freed(bm, d.bitmap, d.data, was, i, ks + {k})
    {
      if b != 0 {
        StillUsed(bm, d.bitmap, d.data, was, start, i, ks, k);
        ghost var bm1 := d.bitmap;
        var ok := d.Bfree(b);
        assert ok;
        FreedMore(bm, bm1, d.bitmap, d.data, was, start, i, ks, k);
      } else {
        FreedMore(bm, d.bitmap, d.bitmap, d.data, was, start, i, ks, k);
      }
    }

    /** itrunc(): the file is empty, exactly the blocks it owned are free again, and nothing else has changed. */
    method Itrunc(i: nat)
      requires Valid() && i < |inodes|
      modifies this, d
      ensures Valid() && d.data == old(d.data) && inodes == old(inodes)[i := old(inodes)[i].(size := 0, addrs := NoAddrs)]
      ensures AllFreed(old(d.bitmap), d.bitmap, d.data, old(inodes), i)
    {
      ghost var bm, was := d.bitmap, inodes;
      ghost var ks: set<nat> := {};
      var k := 0;
      while k < NDIRECT
        invariant 0 <= k <= NDIRECT && d.data == old(d.data) && Covers(d.bitmap, d.size) && Freed(bm, d.bitmap, d.data, was, i, ks)
        invariant forall m :: m in ks <==> 0 <= m < k
        invariant |inodes| == |was| && |inodes[i].addrs| == NDIRECT + 1 && inodes == was[i := was[i].(addrs := inodes[i].addrs)]
        invariant forall m :: 0 <= m <= NDIRECT ==> inodes[i].addrs[m] == if m < k then 0 else was[i].addrs[m]
        invariant dinodes == old(dinodes) && iblocks == old(iblocks)
      {
        FreeSlot(bm, was, i, ks, k, inodes[i].addrs[k]);
        ks := ks + {k};
        inodes := inodes[i := inodes[i].(addrs := inodes[i].addrs[k := 0])];
        k := k + 1;
      }
      ks := TruncIndirect(i, bm, was, ks);
      FreedAll(bm, d.bitmap, d.data, was, i, ks);
      TruncatedOwned(bm, d.bitmap, d.data, was, start, i);
      inodes := inodes[i := inodes[i].(size := 0)];
      assert inodes[i].addrs == NoAddrs;
      assert inodes == was[i := was[i].(size := 0, addrs := NoAddrs)];
      Iupdate(i);
    }

    /** The indirect block and the blocks it lists. */
    method TruncIndirect(i: nat, ghost bm: seq<BitBlock>, ghost was: seq<Inode>, ghost ks0: set<nat>) returns (ghost ks: set<nat>)
      requires Owned(bm, d.data, was, start) && |d.data| == d.size && Covers(d.bitmap, d.size) && i < |was| == |inodes|
      requires Freed(bm, d.bitmap, d.data, was, i, ks0) && forall m :: m in ks0 <==> 0 <= m < NDIRECT
      requires |inodes[i].addrs| == NDIRECT + 1 && inodes[i].addrs[NDIRECT] == was[i].addrs[NDIRECT]
      modifies this`inodes, d`bitmap, d`logged
      ensures Covers(d.bitmap, d.size) && Freed(bm, d.bitmap, d.data, was, i, ks) && forall m :: 0 <= m < NSLOTS ==> m in ks
      ensures inodes == old(inodes)[i := old(inodes)[i].(addrs := old(inodes)[i].addrs[NDIRECT := 0])]
    {
      ks := ks0;
      var ind := inodes[i].addrs[NDIRECT];
      if ind != 0 {
        var a := d.data[ind];
        var j := 0;
        while j < NINDIRECT
          invariant 0 <= j <= NINDIRECT && Covers(d.bitmap, d.size) && Freed(bm, d.bitmap, d.data, was, i, ks)
          invariant forall m :: m in ks <==> 0 <= m < NDIRECT + 1 + j && m != NDIRECT
          invariant inodes == old(inodes)
        {
          FreeSlot(bm, was, i, ks, NDIRECT + 1 + j, Word(a, j));
          ks := ks + {NDIRECT + 1 + j};
          j := j + 1;
        }
        FreeSlot(bm, was, i, ks, NDIRECT, ind);
        ks := ks + {NDIRECT};
        inodes := inodes[i := inodes[i].(addrs := inodes[i].addrs[NDIRECT := 0])];
      } else {
        ks := FreedEmpty(bm, d.bitmap, d.data, was, start, i, ks);
        assert inodes[i].addrs[NDIRECT := 0] == inodes[i].addrs;
      }
    }
  }
}

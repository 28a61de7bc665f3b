/** Inodes of fs.c as values: the blocks an inode owns, directly and through its indirect block, and the bytes they hold. */
module FsInode {
  import opened Base
  import opened FsAlloc

  const NDIRECT := 12
  const NINDIRECT := BSIZE / 4
  const MAXFILE := NDIRECT + NINDIRECT
  const NSLOTS := NDIRECT + 1 + NINDIRECT

  /** struct dinode and the fields of struct inode that live on disk. */
  datatype Inode = Inode(typ: short, major: short, minor: short, nlink: short, size: nat, addrs: seq<nat>)

  // ---- Words of an indirect block

  function Word(b: Block, j: nat): (w: nat)
    requires j < NINDIRECT
    ensures w < WORD
  {
    WordOf(b[4 * j..4 * j + 4])
  }

  function SetWord(b: Block, j: nat, w: nat): Block
    requires j < NINDIRECT && w < WORD
  {
    b[..4 * j] + WordBytes(w) + b[4 * j + 4..]
  }

  lemma {:induction false} WordSet(b: Block, j: nat, w: nat, m: nat)
    requires j < NINDIRECT && w < WORD && m < NINDIRECT
    ensures Word(SetWord(b, j, w), m) == if m == j then w else Word(b, m)
  {
  }

  // ---- Slots

  predicate Addressable(data: seq<Block>, ip: Inode) {
    |ip.addrs| == NDIRECT + 1 && ip.addrs[NDIRECT] < |data|
  }

  /** Block number in slot `k` of an inode: the direct ones, the indirect block, and the entries of the latter. */
  function Slot(data: seq<Block>, ip: Inode, k: nat): nat
    requires Addressable(data, ip) && k < NSLOTS
  {
    if k <= NDIRECT then ip.addrs[k]
    else if ip.addrs[NDIRECT] == 0 then 0
    else Word(data[ip.addrs[NDIRECT]], k - NDIRECT - 1)
  }

  /** Slot of the `bn`-th block of a file. */
  function DataSlot(bn: nat): (k: nat)
    requires bn < MAXFILE
    ensures k < NSLOTS && k != NDIRECT
  {
    if bn < NDIRECT then bn else bn + 1
  }

  predicate AllAddressable(data: seq<Block>, inodes: seq<Inode>) {
    forall i :: 0 <= i < |inodes| ==> Addressable(data, inodes[i])
  }

  function SlotOf(data: seq<Block>, inodes: seq<Inode>, i: nat, k: nat): nat
    requires AllAddressable(data, inodes) && i < |inodes| && k < NSLOTS
  {
    Slot(data, inodes[i], k)
  }

  /** Block ownership: every block in a slot is a data block in use, and no block is in two slots. The quantifiers are folded:
      they hold of every `fold`, and are unfolded by naming one. */
  ghost predicate Owned(bm: seq<BitBlock>, data: seq<Block>, inodes: seq<Inode>, start: nat) {
    && Covers(bm, |data|) && 0 < start && |data| <= WORD && AllAddressable(data, inodes)
    && forall fold: nat :: SlotsOwned(fold, bm, data, inodes, start)
  }

  ghost predicate SlotsOwned(fold: nat, bm: seq<BitBlock>, data: seq<Block>, inodes: seq<Inode>, start: nat)
    requires Covers(bm, |data|) && AllAddressable(data, inodes)
  {
    && (forall i, k :: 0 <= i < |inodes| && 0 <= k < NSLOTS && SlotOf(data, inodes, i, k) != 0 ==>
          start <= SlotOf(data, inodes, i, k) < |data| && Used(bm, SlotOf(data, inodes, i, k)))
    && (forall i, k, j, m :: 0 <= i < |inodes| && 0 <= k < NSLOTS && 0 <= j < |inodes| && 0 <= m < NSLOTS ==>
          SlotOf(data, inodes, i, k) != 0 && SlotOf(data, inodes, i, k) == SlotOf(data, inodes, j, m) ==> i == j && k == m)
  }

  /** Slot `k` of inode `i` is `a`, and every other slot is as before. */
  ghost predicate SlotSet(data: seq<Block>, inodes: seq<Inode>, data': seq<Block>, inodes': seq<Inode>, i: nat, k: nat, a: nat) {
    && AllAddressable(data, inodes) && AllAddressable(data', inodes') && |inodes'| == |inodes| && i < |inodes| && k < NSLOTS
    && forall j, m :: 0 <= j < |inodes| && 0 <= m < NSLOTS ==>
         SlotOf(data', inodes', j, m) == if j == i && m == k then a else SlotOf(data, inodes, j, m)
  }

  lemma {:induction false} OwnedAdd(bm: seq<BitBlock>, data: seq<Block>, inodes: seq<Inode>, bm': seq<BitBlock>, data': seq<Block>,
                                    inodes': seq<Inode>, start: nat, i: nat, k: nat, a: nat)
    requires Owned(bm, data, inodes, start) && |data'| == |data| && Covers(bm', |data|)
    requires SlotSet(data, inodes, data', inodes', i, k, a) && SlotOf(data, inodes, i, k) == 0
    requires start <= a < |data| && !Used(bm, a) && Flipped(bm, bm', |data|, a, true)
    ensures Owned(bm', data', inodes', start)
  {
    assert SlotsOwned(0, bm, data, inodes, start);
  }

  /** A slot in the inode itself gets a fresh block. */
  lemma {:induction false} SetInInode(bm: seq<BitBlock>, data: seq<Block>, inodes: seq<Inode>, start: nat, i: nat, k: nat, a: nat)
    requires Owned(bm, data, inodes, start) && i < |inodes| && k <= NDIRECT && SlotOf(data, inodes, i, k) == 0
    requires start <= a < |data| && !Used(bm, a)
    ensures SlotSet(data, inodes, data[a := ZeroBlock], inodes[i := inodes[i].(addrs := inodes[i].addrs[k := a])], i, k, a)
  {
    assert SlotsOwned(0, bm, data, inodes, start);
    var data', inodes' := data[a := ZeroBlock], inodes[i := inodes[i].(addrs := inodes[i].addrs[k := a])];
    forall j, m | 0 <= j < |inodes| && 0 <= m < NSLOTS
      ensures SlotOf(data', inodes', j, m) == if j == i && m == k then a else SlotOf(data, inodes, j, m)
    {
      assert SlotOf(data, inodes, j, NDIRECT) == inodes[j].addrs[NDIRECT];
      if j == i && k == NDIRECT && m > NDIRECT {
        var x := m - NDIRECT - 1;
        assert ZeroBlock[4 * x..4 * x + 4] == [0, 0, 0, 0];
      }
    }
  }

  /** An entry of the indirect block gets a fresh block. */
  lemma {:induction false} SetInIndirect(bm: seq<BitBlock>, data: seq<Block>, inodes: seq<Inode>, start: nat, i: nat, k: nat, a: nat)
    requires Owned(bm, data, inodes, start) && i < |inodes| && NDIRECT < k < NSLOTS && inodes[i].addrs[NDIRECT] != 0
    requires start <= a < |data| && !Used(bm, a)
    ensures
      var ind := inodes[i].addrs[NDIRECT];
      ind != a && ind < |data| && SlotSet(data, inodes, data[a := ZeroBlock][ind := SetWord(data[ind], k - NDIRECT - 1, a)], inodes, i, k, a)
  {
    assert SlotsOwned(0, bm, data, inodes, start);
    var ind := inodes[i].addrs[NDIRECT];
    assert SlotOf(data, inodes, i, NDIRECT) == ind;
    var data' := data[a := ZeroBlock][ind := SetWord(data[ind], k - NDIRECT - 1, a)];
    forall j, m | 0 <= j < |inodes| && 0 <= m < NSLOTS
      ensures SlotOf(data', inodes, j, m) == if j == i && m == k then a else SlotOf(data, inodes, j, m)
    {
      assert SlotOf(data, inodes, j, NDIRECT) == inodes[j].addrs[NDIRECT];
      if j == i && m > NDIRECT {
        WordSet(data[ind], k - NDIRECT - 1, a, m - NDIRECT - 1);
      }
    }
  }

  // ---- Contents

  /** The blocks of a file are allocated exactly up to byte `n`, and the indirect block exactly if they need it. */
  ghost predicate Extent(data: seq<Block>, ip: Inode, n: nat) {
    Addressable(data, ip) && n <= MAXFILE * BSIZE && forall fold: nat :: ExtentBlocks(fold, data, ip, n)
  }

  ghost predicate ExtentBlocks(fold: nat, data: seq<Block>, ip: Inode, n: nat)
    requires Addressable(data, ip)
  {
    && (forall bn :: 0 <= bn < MAXFILE ==> (Slot(data, ip, DataSlot(bn)) != 0 <==> bn * BSIZE < n))
    && (forall bn :: 0 <= bn < MAXFILE ==> Slot(data, ip, DataSlot(bn)) < |data|)
    && (ip.addrs[NDIRECT] != 0 <==> n > NDIRECT * BSIZE)
  }

  /** Byte `o` of a file. */
  ghost function ByteAt(data: seq<Block>, ip: Inode, o: nat): byte
    requires Addressable(data, ip) && o < MAXFILE * BSIZE && Slot(data, ip, DataSlot(o / BSIZE)) < |data|
  {
    data[Slot(data, ip, DataSlot(o / BSIZE))][o % BSIZE]
  }

  /** The first `n` bytes of a file. */
  ghost function Bytes(data: seq<Block>, ip: Inode, n: nat): (r: seq<byte>)
    requires Extent(data, ip, n)
    ensures |r| == n
  {
    assert ExtentBlocks(0, data, ip, n);
    seq(n, o requires 0 <= o < n => ByteAt(data, ip, o))
  }

  ghost function Contents(data: seq<Block>, ip: Inode): seq<byte>
    requires Extent(data, ip, ip.size)
  {
    Bytes(data, ip, ip.size)
  }

  /** `x` with `s` written over it at offset `off`, extending it if need be. */
  function Splice(x: seq<byte>, off: nat, s: seq<byte>): seq<byte>
    requires off <= |x|
  {
    x[..off] + s + (if off + |s| < |x| then x[off + |s|..] else [])
  }

  lemma {:induction false} SpliceAt(x: seq<byte>, off: nat, s: seq<byte>, o: nat)
    requires off <= |x| && o < |Splice(x, off, s)|
    ensures |Splice(x, off, s)| == if off + |s| < |x| then |x| else off + |s|
    ensures Splice(x, off, s)[o] == if off <= o < off + |s| then s[o - off] else x[o]
  {
  }

  lemma {:induction false} SpliceTwice(x: seq<byte>, off: nat, s: seq<byte>, t: seq<byte>)
    requires off <= |x|
    ensures off + |s| <= |Splice(x, off, s)| && Splice(Splice(x, off, s), off + |s|, t) == Splice(x, off, s + t)
  {
  }

  /** Files whose blocks a change leaves alone keep their contents. */
  lemma {:induction false} BytesFrame(data: seq<Block>, ip: Inode, data': seq<Block>, ip': Inode, n: nat)
    requires Extent(data, ip, n) && Extent(data', ip', n)
    requires forall bn :: 0 <= bn < MAXFILE && bn * BSIZE < n ==>
      && Slot(data', ip', DataSlot(bn)) == Slot(data, ip, DataSlot(bn)) < |data| && Slot(data, ip, DataSlot(bn)) < |data'|
      && data'[Slot(data', ip', DataSlot(bn))] == data[Slot(data, ip, DataSlot(bn))]
    ensures Bytes(data', ip', n) == Bytes(data, ip, n)
  {
  }

  /** A block with `piece` copied into it. */
  function Patch(b: Block, at: nat, piece: seq<byte>): Block
    requires at + |piece| <= BSIZE
  {
    b[..at] + piece + b[at + |piece|..]
  }

  /** Storing a piece in one block of a file writes it over the contents. */
  lemma {:induction false} BytesPatch(data: seq<Block>, data': seq<Block>, ip: Inode, n: nat, off: nat, piece: seq<byte>)
    requires Extent(data, ip, n) && off < n && off % BSIZE + |piece| <= BSIZE && off + |piece| <= n
    requires Extent(data', ip, n) && |data'| == |data|
    requires
      var b := Slot(data, ip, DataSlot(off / BSIZE));
      && b < |data| && data' == data[b := Patch(data[b], off % BSIZE, piece)]
      && forall bn :: 0 <= bn < MAXFILE && bn * BSIZE < n ==>
           Slot(data', ip, DataSlot(bn)) == Slot(data, ip, DataSlot(bn)) && (bn != off / BSIZE ==> Slot(data, ip, DataSlot(bn)) != b)
    ensures Bytes(data', ip, n) == Splice(Bytes(data, ip, n), off, piece)
  {
    assert ExtentBlocks(0, data, ip, n) && ExtentBlocks(0, data', ip, n);
    var b := Slot(data, ip, DataSlot(off / BSIZE));
    var x := Bytes(data, ip, n);
    var y := Splice(x, off, piece);
    forall o | 0 <= o < n ensures |y| == n && ByteAt(data', ip, o) == y[o] {
      SpliceAt(x, off, piece, o);
      assert o / BSIZE * BSIZE < n;
      if o / BSIZE == off / BSIZE {
        assert o - off == o % BSIZE - off % BSIZE;
      }
    }
  }

  // ---- What bmap may change

  /** Block `bn` of inode `i` is now block `a`: slots and data blocks that were in use keep their number and contents;
      only the slot of that block and the indirect block may be new. */
  ghost predicate Mapped(data: seq<Block>, inodes: seq<Inode>, data': seq<Block>, inodes': seq<Inode>, i: nat, bn: nat, a: nat) {
    && AllAddressable(data, inodes) && AllAddressable(data', inodes') && |data'| == |data| && |inodes'| == |inodes|
    && i < |inodes| && bn < MAXFILE && 0 < a < |data|
    && inodes' == inodes[i := inodes[i].(addrs := inodes'[i].addrs)]
    && SlotOf(data', inodes', i, DataSlot(bn)) == a
    && (forall j, m :: 0 <= j < |inodes| && 0 <= m < NSLOTS && !(j == i && (m == DataSlot(bn) || m == NDIRECT)) ==>
          SlotOf(data', inodes', j, m) == SlotOf(data, inodes, j, m))
    && (inodes'[i].addrs[NDIRECT] != 0 <==> inodes[i].addrs[NDIRECT] != 0 || bn >= NDIRECT)
    && (inodes[i].addrs[NDIRECT] != 0 ==> inodes'[i].addrs[NDIRECT] == inodes[i].addrs[NDIRECT])
    && (forall j, m :: 0 <= j < |inodes| && 0 <= m < NSLOTS && m != NDIRECT ==>
          SlotOf(data, inodes, j, m) != 0 && SlotOf(data, inodes, j, m) < |data| ==>
            SlotOf(data', inodes', j, m) == SlotOf(data, inodes, j, m) && data'[SlotOf(data, inodes, j, m)] == data[SlotOf(data, inodes, j, m)])
  }

  lemma {:induction false} MappedDirect(bm: seq<BitBlock>, data: seq<Block>, inodes: seq<Inode>, start: nat,
                                        data': seq<Block>, inodes': seq<Inode>, i: nat, bn: nat, a: nat)
    requires Owned(bm, data, inodes, start) && bn < NDIRECT && 0 < a < |data| && !Used(bm, a) && data' == data[a := ZeroBlock]
    requires SlotSet(data, inodes, data', inodes', i, DataSlot(bn), a) && SlotOf(data, inodes, i, DataSlot(bn)) == 0
    requires inodes' == inodes[i := inodes[i].(addrs := inodes'[i].addrs)]
    ensures Mapped(data, inodes, data', inodes', i, bn, a)
  {
    assert SlotsOwned(0, bm, data, inodes, start);
    assert SlotOf(data', inodes', i, NDIRECT) == SlotOf(data, inodes, i, NDIRECT);
  }

  lemma {:induction false} MappedIndirect(bm: seq<BitBlock>, data: seq<Block>, inodes: seq<Inode>, start: nat,
                                          data': seq<Block>, i: nat, bn: nat, a: nat)
    requires Owned(bm, data, inodes, start) && NDIRECT <= bn < MAXFILE && 0 < a < |data| == |data'| && !Used(bm, a) && i < |inodes|
    requires inodes[i].addrs[NDIRECT] != 0 && SlotOf(data, inodes, i, DataSlot(bn)) == 0
    requires SlotSet(data, inodes, data', inodes, i, DataSlot(bn), a)
    requires forall b :: 0 <= b < |data| && b != a && b != inodes[i].addrs[NDIRECT] ==> data'[b] == data[b]
    ensures Mapped(data, inodes, data', inodes, i, bn, a)
  {
    assert SlotsOwned(0, bm, data, inodes, start);
    assert SlotOf(data, inodes, i, NDIRECT) == inodes[i].addrs[NDIRECT];
  }

  /** First the indirect block, then the entry in it. */
  lemma {:induction false} MappedTwice(bm: seq<BitBlock>, data: seq<Block>, inodes: seq<Inode>, start: nat, x: nat,
                                       data1: seq<Block>, inodes1: seq<Inode>, data2: seq<Block>, inodes2: seq<Inode>, i: nat, bn: nat, a: nat)
    requires Owned(bm, data, inodes, start) && 0 < x < |data| && !Used(bm, x) && data1 == data[x := ZeroBlock]
    requires SlotSet(data, inodes, data1, inodes1, i, NDIRECT, x) && bn >= NDIRECT && inodes[i].addrs[NDIRECT] == 0
    requires inodes1 == inodes[i := inodes[i].(addrs := inodes1[i].addrs)]
    requires Mapped(data1, inodes1, data2, inodes2, i, bn, a)
    ensures Mapped(data, inodes, data2, inodes2, i, bn, a)
  {
    assert SlotsOwned(0, bm, data, inodes, start);
    forall j, m | 0 <= j < |inodes| && 0 <= m < NSLOTS && m != NDIRECT && SlotOf(data, inodes, j, m) != 0
      ensures SlotOf(data2, inodes2, j, m) == SlotOf(data, inodes, j, m) && data2[SlotOf(data, inodes, j, m)] == data[SlotOf(data, inodes, j, m)]
    {
      assert SlotOf(data1, inodes1, j, m) == SlotOf(data, inodes, j, m);
    }
  }

  /** Files other than `i` keep their extent and contents. */
  lemma {:induction false} MappedOthers(data: seq<Block>, inodes: seq<Inode>, data': seq<Block>, inodes': seq<Inode>, i: nat, bn: nat, a: nat,
                                        j: nat, n: nat)
    requires Mapped(data, inodes, data', inodes', i, bn, a) && j < |inodes| && j != i && Extent(data, inodes[j], n)
    ensures Extent(data', inodes'[j], n) && Bytes(data', inodes'[j], n) == Bytes(data, inodes[j], n)
  {
    assert ExtentBlocks(0, data, inodes[j], n);
    assert SlotOf(data', inodes', j, NDIRECT) == SlotOf(data, inodes, j, NDIRECT);
    forall b | 0 <= b < MAXFILE ensures Slot(data', inodes'[j], DataSlot(b)) == Slot(data, inodes[j], DataSlot(b)) {
      assert SlotOf(data', inodes', j, DataSlot(b)) == SlotOf(data, inodes, j, DataSlot(b));
    }
    assert Extent(data', inodes'[j], n);
    forall b | 0 <= b < MAXFILE && b * BSIZE < n
      ensures data'[Slot(data', inodes'[j], DataSlot(b))] == data[Slot(data, inodes[j], DataSlot(b))]
    {
      assert SlotOf(data, inodes, j, DataSlot(b)) != 0;
    }
    BytesFrame(data, inodes[j], data', inodes'[j], n);
  }

  /** File `i` grows by the block that bmap has just allocated behind its last one; what it held stays. */
  lemma {:induction false} MappedGrows(data: seq<Block>, inodes: seq<Inode>, data': seq<Block>, inodes': seq<Inode>, i: nat, bn: nat, a: nat,
                                       n: nat, n': nat)
    requires Mapped(data, inodes, data', inodes', i, bn, a) && Extent(data, inodes[i], n)
    requires n <= bn * BSIZE < n' <= (bn + 1) * BSIZE && (bn - 1) * BSIZE < n
    ensures Extent(data', inodes'[i], n') && Bytes(data', inodes'[i], n')[..n] == Bytes(data, inodes[i], n)
  {
    assert ExtentBlocks(0, data, inodes[i], n);
    forall b | 0 <= b < MAXFILE && b != bn ensures Slot(data', inodes'[i], DataSlot(b)) == Slot(data, inodes[i], DataSlot(b)) {
      assert SlotOf(data', inodes', i, DataSlot(b)) == SlotOf(data, inodes, i, DataSlot(b));
    }
    assert Slot(data', inodes'[i], DataSlot(bn)) == a;
    assert Extent(data', inodes'[i], n');
    forall o | 0 <= o < n ensures ByteAt(data', inodes'[i], o) == ByteAt(data, inodes[i], o) {
      assert SlotOf(data, inodes, i, DataSlot(o / BSIZE)) != 0;
    }
  }

  // ---- Writing a data block

  /** A block that holds file data is no indirect block: changing it changes no slot. */
  lemma {:induction false} PatchSlots(bm: seq<BitBlock>, data: seq<Block>, inodes: seq<Inode>, start: nat, i: nat, bn: nat, block: Block)
    requires Owned(bm, data, inodes, start) && i < |inodes| && bn < MAXFILE && SlotOf(data, inodes, i, DataSlot(bn)) != 0
    ensures SlotOf(data, inodes, i, DataSlot(bn)) < |data|
    ensures
      var data' := data[SlotOf(data, inodes, i, DataSlot(bn)) := block];
      && AllAddressable(data', inodes) && Owned(bm, data', inodes, start)
      && forall j, m :: 0 <= j < |inodes| && 0 <= m < NSLOTS ==> SlotOf(data', inodes, j, m) == SlotOf(data, inodes, j, m)
  {
    assert SlotsOwned(0, bm, data, inodes, start);
    var b := SlotOf(data, inodes, i, DataSlot(bn));
    var data' := data[b := block];
    forall j, m | 0 <= j < |inodes| && 0 <= m < NSLOTS ensures SlotOf(data', inodes, j, m) == SlotOf(data, inodes, j, m) {
      assert SlotOf(data, inodes, j, NDIRECT) == inodes[j].addrs[NDIRECT];
    }
  }

  /** Writing a piece into a file splices it into the contents and leaves every other file alone. */
  lemma {:induction false} PatchFile(bm: seq<BitBlock>, data: seq<Block>, inodes: seq<Inode>, start: nat, i: nat, n: nat, off: nat, piece: seq<byte>)
    requires Owned(bm, data, inodes, start) && i < |inodes| && Extent(data, inodes[i], n)
    requires off < n && off % BSIZE + |piece| <= BSIZE && off + |piece| <= n
    ensures 0 < SlotOf(data, inodes, i, DataSlot(off / BSIZE)) < |data|
    ensures
      var b := SlotOf(data, inodes, i, DataSlot(off / BSIZE));
      var data' := data[b := Patch(data[b], off % BSIZE, piece)];
      && Owned(bm, data', inodes, start) && Extent(data', inodes[i], n)
      && Bytes(data', inodes[i], n) == Splice(Bytes(data, inodes[i], n), off, piece) && OthersKept(data, inodes, data', inodes, i)
  {
    assert ExtentBlocks(0, data, inodes[i], n);
    assert SlotsOwned(0, bm, data, inodes, start);
    var bn := off / BSIZE;
    assert Slot(data, inodes[i], DataSlot(bn)) != 0;
    var b := SlotOf(data, inodes, i, DataSlot(bn));
    var data' := data[b := Patch(data[b], off % BSIZE, piece)];
    PatchSlots(bm, data, inodes, start, i, bn, Patch(data[b], off % BSIZE, piece));
    forall j, c | 0 <= j < |inodes| && 0 <= c < MAXFILE
      ensures Slot(data', inodes[j], DataSlot(c)) == Slot(data, inodes[j], DataSlot(c))
      ensures j != i || c != bn ==> Slot(data, inodes[j], DataSlot(c)) != b
    {
      assert SlotOf(data', inodes, j, DataSlot(c)) == SlotOf(data, inodes, j, DataSlot(c));
    }
    BytesPatch(data, data', inodes[i], n, off, piece);
    forall j, len: nat | 0 <= j < |inodes| && j != i ensures FileKept(data, inodes[j], data', inodes[j], len) {
      if Extent(data, inodes[j], len) {
        assert ExtentBlocks(0, data, inodes[j], len);
        BytesFrame(data, inodes[j], data', inodes[j], len);
      }
    }
  }

  /** The last block of a file may be used up to its end. */
  lemma {:induction false} ExtentWithin(data: seq<Block>, ip: Inode, n: nat, n': nat)
    requires Extent(data, ip, n) && n <= n' && forall bn :: 0 <= bn < MAXFILE ==> (bn * BSIZE < n <==> bn * BSIZE < n')
    requires n' <= MAXFILE * BSIZE
    ensures Extent(data, ip, n') && Bytes(data, ip, n')[..n] == Bytes(data, ip, n)
  {
    assert ExtentBlocks(0, data, ip, n);
    assert NDIRECT * BSIZE < n <==> NDIRECT * BSIZE < n';
  }

  /** Writing over a longer sequence with the same beginning gives the same result, if it is not too long. */
  lemma {:induction false} SpliceLonger(x: seq<byte>, y: seq<byte>, off: nat, s: seq<byte>)
    requires off <= |x| <= |y| && y[..|x|] == x && |y| == (if off + |s| < |x| then |x| else off + |s|)
    ensures Splice(y, off, s) == Splice(x, off, s)
  {
  }

  /** The part of a block that belongs to a stretch of the file. */
  lemma {:induction false} BytesInBlock(data: seq<Block>, ip: Inode, n: nat, off: nat, m: nat)
    requires Extent(data, ip, n) && off < n && off % BSIZE + m <= BSIZE && off + m <= n
    ensures
      var b := Slot(data, ip, DataSlot(off / BSIZE));
      0 < b < |data| && data[b][off % BSIZE..off % BSIZE + m] == Bytes(data, ip, n)[off..off + m]
  {
    assert ExtentBlocks(0, data, ip, n);
    var b := Slot(data, ip, DataSlot(off / BSIZE));
    assert off / BSIZE * BSIZE < n;
    forall o | off <= o < off + m ensures ByteAt(data, ip, o) == data[b][off % BSIZE + (o - off)] {
      assert o / BSIZE == off / BSIZE && o % BSIZE == off % BSIZE + (o - off);
    }
  }

  // ---- Other files

  /** A file has the same extent and contents as before. */
  ghost predicate FileKept(data: seq<Block>, ip: Inode, data': seq<Block>, ip': Inode, n: nat) {
    Extent(data, ip, n) ==> Extent(data', ip', n) && Bytes(data', ip', n) == Bytes(data, ip, n)
  }

  /** Every inode but `i` is as before, with the same extent and contents; of inode `i` only the addresses may differ. */
  ghost predicate OthersKept(data: seq<Block>, inodes: seq<Inode>, data': seq<Block>, inodes': seq<Inode>, i: nat) {
    && |inodes'| == |inodes| && i < |inodes| && inodes' == inodes[i := inodes[i].(addrs := inodes'[i].addrs)]
    && forall j, n: nat {:trigger FileKept(data, inodes[j], data', inodes'[j], n)} :: 0 <= j < |inodes| && j != i ==>
         FileKept(data, inodes[j], data', inodes'[j], n)
  }

  lemma {:induction false} OthersTwice(data: seq<Block>, inodes: seq<Inode>, data1: seq<Block>, inodes1: seq<Inode>,
                                       data2: seq<Block>, inodes2: seq<Inode>, i: nat)
    requires OthersKept(data, inodes, data1, inodes1, i) && OthersKept(data1, inodes1, data2, inodes2, i)
    ensures OthersKept(data, inodes, data2, inodes2, i)
  {
    assert inodes2[i] == inodes[i].(addrs := inodes2[i].addrs);
    forall j, n: nat | 0 <= j < |inodes| && j != i ensures FileKept(data, inodes[j], data2, inodes2[j], n) {
      assert FileKept(data, inodes[j], data1, inodes1[j], n) && FileKept(data1, inodes1[j], data2, inodes2[j], n);
    }
  }

  lemma {:induction false} MappedKeepsOthers(data: seq<Block>, inodes: seq<Inode>, data': seq<Block>, inodes': seq<Inode>, i: nat, bn: nat, a: nat)
    requires Mapped(data, inodes, data', inodes', i, bn, a)
    ensures OthersKept(data, inodes, data', inodes', i)
  {
    forall j, n: nat | 0 <= j < |inodes| && j != i ensures FileKept(data, inodes[j], data', inodes'[j], n) {
      if Extent(data, inodes[j], n) {
        MappedOthers(data, inodes, data', inodes', i, bn, a, j, n);
      }
    }
  }

  /** The size field has no part in which blocks an inode owns. */
  lemma {:induction false} Resized(bm: seq<BitBlock>, data: seq<Block>, inodes: seq<Inode>, start: nat, i: nat, n: nat)
    requires Owned(bm, data, inodes, start) && i < |inodes| && Extent(data, inodes[i], n)
    ensures
      var inodes' := inodes[i := inodes[i].(size := n)];
      Owned(bm, data, inodes', start) && Extent(data, inodes'[i], n) && Bytes(data, inodes'[i], n) == Bytes(data, inodes[i], n)
  {
    assert ExtentBlocks(0, data, inodes[i], n);
    assert SlotsOwned(0, bm, data, inodes, start);
    var inodes' := inodes[i := inodes[i].(size := n)];
    forall k | 0 <= k < NSLOTS ensures Slot(data, inodes'[i], k) == Slot(data, inodes[i], k) {
    }
    forall j, m | 0 <= j < |inodes| && 0 <= m < NSLOTS
      ensures AllAddressable(data, inodes') && SlotOf(data, inodes', j, m) == SlotOf(data, inodes, j, m)
    {
    }
    assert Extent(data, inodes'[i], n);
    BytesFrame(data, inodes[i], data, inodes'[i], n);
  }

  // ---- Freeing an inode's blocks

  /** Block `x` is in one of the slots `ks` of inode `i`. */
  ghost predicate InSlots(data: seq<Block>, inodes: seq<Inode>, i: nat, ks: set<nat>, x: nat)
    requires AllAddressable(data, inodes) && i < |inodes|
  {
    x != 0 && exists k :: k in ks && k < NSLOTS && SlotOf(data, inodes, i, k) == x
  }

  /** `bm'` is `bm` with the bits of exactly these blocks cleared. */
  ghost predicate Freed(bm: seq<BitBlock>, bm': seq<BitBlock>, data: seq<Block>, inodes: seq<Inode>, i: nat, ks: set<nat>)
    requires AllAddressable(data, inodes) && i < |inodes| && Covers(bm, |data|) && Covers(bm', |data|)
  {
    forall x :: 0 <= x < |data| ==> (Used(bm', x) <==> Used(bm, x) && !InSlots(data, inodes, i, ks, x))
  }

  /** The block in the next slot is still in use. */
  lemma {:induction false} StillUsed(bm: seq<BitBlock>, bm': seq<BitBlock>, data: seq<Block>, inodes: seq<Inode>, start: nat, i: nat, ks: set<nat>, k: nat)
    requires Owned(bm, data, inodes, start) && i < |inodes| && Covers(bm', |data|) && Freed(bm, bm', data, inodes, i, ks)
    requires k < NSLOTS && k !in ks && SlotOf(data, inodes, i, k) != 0
    ensures SlotOf(data, inodes, i, k) < |data| && Used(bm', SlotOf(data, inodes, i, k))
  {
    assert SlotsOwned(0, bm, data, inodes, start);
    assert !InSlots(data, inodes, i, ks, SlotOf(data, inodes, i, k));
  }

  lemma {:induction false} FreedMore(bm: seq<BitBlock>, bm1: seq<BitBlock>, bm2: seq<BitBlock>, data: seq<Block>, inodes: seq<Inode>, start: nat, i: nat,
                                     ks: set<nat>, k: nat)
    requires Owned(bm, data, inodes, start) && i < |inodes| && Covers(bm1, |data|) && Covers(bm2, |data|) && k < NSLOTS
    requires Freed(bm, bm1, data, inodes, i, ks)
    requires var b := SlotOf(data, inodes, i, k); if b == 0 then bm2 == bm1 else Flipped(bm1, bm2, |data|, b, false)
    ensures Freed(bm, bm2, data, inodes, i, ks + {k})
  {
  }

  /** Without an indirect block the slots behind the direct ones are all empty. */
  lemma {:induction false} FreedEmpty(bm: seq<BitBlock>, bm': seq<BitBlock>, data: seq<Block>, inodes: seq<Inode>, start: nat, i: nat, ks: set<nat>)
      returns (all: set<nat>)
    requires Owned(bm, data, inodes, start) && i < |inodes| && Covers(bm', |data|) && Freed(bm, bm', data, inodes, i, ks)
    requires inodes[i].addrs[NDIRECT] == 0 && forall m :: 0 <= m < NDIRECT ==> m in ks
    ensures Freed(bm, bm', data, inodes, i, all) && forall m :: 0 <= m < NSLOTS ==> m in all
  {
    assert SlotsOwned(0, bm, data, inodes, start);
    all := ks;
    var k := NDIRECT;
    while k < NSLOTS
      invariant NDIRECT <= k <= NSLOTS && Freed(bm, bm', data, inodes, i, all) && forall m :: 0 <= m < k ==> m in all
    {
      FreedMore(bm, bm', bm', data, inodes, start, i, all, k);
      all := all + {k};
      k := k + 1;
    }
  }

  const NoAddrs: seq<nat> := seq(NDIRECT + 1, _ => 0)

  /** Block `x` belongs to inode `i`. */
  ghost predicate BlockOf(data: seq<Block>, inodes: seq<Inode>, i: nat, x: nat)
    requires AllAddressable(data, inodes) && i < |inodes|
  {
    x != 0 && exists k :: 0 <= k < NSLOTS && SlotOf(data, inodes, i, k) == x
  }

  /** `bm'` is `bm` with the bits of exactly the inode's own blocks cleared. */
  ghost predicate AllFreed(bm: seq<BitBlock>, bm': seq<BitBlock>, data: seq<Block>, inodes: seq<Inode>, i: nat) {
    && AllAddressable(data, inodes) && i < |inodes| && Covers(bm, |data|) && Covers(bm', |data|)
    && forall x :: 0 <= x < |data| ==> (Used(bm', x) <==> Used(bm, x) && !BlockOf(data, inodes, i, x))
  }

  lemma {:induction false} FreedAll(bm: seq<BitBlock>, bm': seq<BitBlock>, data: seq<Block>, inodes: seq<Inode>, i: nat, ks: set<nat>)
    requires AllAddressable(data, inodes) && i < |inodes| && Covers(bm, |data|) && Covers(bm', |data|)
    requires Freed(bm, bm', data, inodes, i, ks) && forall k :: 0 <= k < NSLOTS ==> k in ks
    ensures AllFreed(bm, bm', data, inodes, i)
  {
  }

  /** With its blocks freed and its addresses cleared an inode owns nothing, and the others own what they owned. */
  lemma {:induction false} TruncatedOwned(bm: seq<BitBlock>, bm': seq<BitBlock>, data: seq<Block>, inodes: seq<Inode>, start: nat, i: nat)
    requires Owned(bm, data, inodes, start) && i < |inodes| && AllFreed(bm, bm', data, inodes, i)
    requires FullBelow(bm, |data|, start)
    ensures
      var inodes' := inodes[i := inodes[i].(size := 0, addrs := NoAddrs)];
      && Owned(bm', data, inodes', start) && Extent(data, inodes'[i], 0) && FullBelow(bm', |data|, start)
  {
    assert SlotsOwned(0, bm, data, inodes, start);
    var inodes' := inodes[i := inodes[i].(size := 0, addrs := NoAddrs)];
    assert SlotOf(data, inodes, i, NDIRECT) == inodes[i].addrs[NDIRECT];
    forall j, m | 0 <= j < |inodes| && 0 <= m < NSLOTS
      ensures AllAddressable(data, inodes')
      ensures SlotOf(data, inodes', j, m) == if j == i then 0 else SlotOf(data, inodes, j, m)
      ensures j != i && SlotOf(data, inodes, j, m) != 0 ==> Used(bm', SlotOf(data, inodes, j, m))
    {
      if j != i && SlotOf(data, inodes, j, m) != 0 {
        assert !BlockOf(data, inodes, i, SlotOf(data, inodes, j, m));
      }
    }
    TruncatedFull(bm, bm', data, inodes, start, i);
  }

  /** The blocks before the data area are nobody's, and stay marked. */
  lemma {:induction false} TruncatedFull(bm: seq<BitBlock>, bm': seq<BitBlock>, data: seq<Block>, inodes: seq<Inode>, start: nat, i: nat)
    requires Owned(bm, data, inodes, start) && i < |inodes| && AllFreed(bm, bm', data, inodes, i)
    requires FullBelow(bm, |data|, start)
    ensures FullBelow(bm', |data|, start)
  {
    assert SlotsOwned(0, bm, data, inodes, start);
    forall x | 0 <= x < start && x < |data| ensures Used(bm', x) {
      assert !BlockOf(data, inodes, i, x);
    }
  }
}
/** The block layer of fs.c: the free bit map and the zeroed data blocks it hands out. Blocks are read and written
    through the log, so `data` and `bitmap` are their latest contents. */
module FsAlloc {
  import opened Base

  const BSIZE := 512
  const BPB := BSIZE * 8            // bits per bitmap block

  type Block = b: seq<byte> | |b| == BSIZE witness seq(BSIZE, _ => 0)

  /** A byte of the bit map, as its bits: bit k is tested, set and cleared with the mask 1 << k. */
  type BitByte = b: seq<bool> | |b| == 8 witness seq(8, _ => false)

  type BitBlock = b: seq<BitByte> | |b| == BSIZE witness seq(BSIZE, _ => seq(8, _ => false))

  const ZeroBlock: Block := seq(BSIZE, _ => 0)

  /** A block that a transaction may log. */
  datatype Logged = BitmapBlock(n: nat) | DataBlock(b: nat) | InodeBlock(n: nat)

  // ---- The bit map

  predicate Covers(bm: seq<BitBlock>, size: nat) {
    size <= |bm| * BPB
  }

  /** Bit `b` of the map: block `b` is in use. */
  predicate Used(bm: seq<BitBlock>, b: nat)
    requires b / BPB < |bm|
  {
    bm[b / BPB][b % BPB / 8][b % BPB % 8]
  }

  function WithBit(bm: seq<BitBlock>, b: nat, on: bool): seq<BitBlock>
    requires b / BPB < |bm|
  {
    var n, k, j := b / BPB, b % BPB / 8, b % BPB % 8;
    bm[n := bm[n][k := bm[n][k][j := on]]]
  }

  lemma {:induction false} WithBitFlips(bm: seq<BitBlock>, size: nat, b: nat, on: bool)
    requires Covers(bm, size) && b < size
    ensures Flipped(bm, WithBit(bm, b, on), size, b, on)
  {
  }

  /** All bits below `n` are set. */
  ghost predicate FullBelow(bm: seq<BitBlock>, size: nat, n: int)
    requires Covers(bm, size)
  {
    forall x :: 0 <= x < n && x < size ==> Used(bm, x)
  }

  /** `bm'` is `bm` with bit `b` set, or cleared. */
  ghost predicate Flipped(bm: seq<BitBlock>, bm': seq<BitBlock>, size: nat, b: nat, on: bool)
    requires Covers(bm, size) && Covers(bm', size)
  {
    forall x :: 0 <= x < size ==> (Used(bm', x) <==> if x == b then on else Used(bm, x))
  }

  /** The free blocks. */
  ghost function FreeSet(bm: seq<BitBlock>, size: nat): set<nat>
    requires Covers(bm, size)
  {
    set b | 0 <= b < size && !Used(bm, b)
  }

  /** How many there are. */
  ghost function FreeCount(bm: seq<BitBlock>, size: nat): nat
    requires Covers(bm, size)
  {
    assert IsFreeCount(|FreeSet(bm, size)|, bm, size);
    var n: nat :| IsFreeCount(n, bm, size);
    n
  }

  ghost predicate IsFreeCount(n: nat, bm: seq<BitBlock>, size: nat)
    requires Covers(bm, size)
  {
    forall fold: nat :: FreeCountBody(fold, n, bm, size)
  }

  ghost predicate FreeCountBody(fold: nat, n: nat, bm: seq<BitBlock>, size: nat)
    requires Covers(bm, size)
  {
    n == |FreeSet(bm, size)|
  }

  lemma {:induction false} FreeCountIs(bm: seq<BitBlock>, size: nat)
    requires Covers(bm, size)
    ensures FreeCount(bm, size) == |FreeSet(bm, size)|
  {
    assert FreeCountBody(0, FreeCount(bm, size), bm, size);
  }

  lemma {:induction false} NoneFree(bm: seq<BitBlock>, size: nat)
    requires Covers(bm, size)
    ensures FreeCount(bm, size) == 0 <==> FullBelow(bm, size, size)
  {
    FreeCountIs(bm, size);
    if !FullBelow(bm, size, size) {
      var x: nat :| x < size && !Used(bm, x);
      assert x in FreeSet(bm, size);
    } else {
      assert FreeSet(bm, size) == {};
    }
  }

  lemma {:induction false} OneTaken(bm: seq<BitBlock>, bm': seq<BitBlock>, size: nat, b: nat)
    requires Covers(bm, size) && Covers(bm', size) && b < size && !Used(bm, b) && Flipped(bm, bm', size, b, true)
    ensures FreeCount(bm, size) == FreeCount(bm', size) + 1
  {
    FreeCountIs(bm, size);
    FreeCountIs(bm', size);
    assert FreeSet(bm', size) == FreeSet(bm, size) - {b};
  }

  class Disk {
    const size: nat                  // sb.size
    var bitmap: seq<BitBlock>
    var data: seq<Block>             // by block number
    ghost var logged: set<Logged>    // blocks logged in the current transaction

    ghost predicate Sized()
      reads this
    {
      |data| == size && Covers(bitmap, size)
    }

    constructor (bitmap: seq<BitBlock>, data: seq<Block>)
      requires Covers(bitmap, |data|)
      ensures Sized() && this.bitmap == bitmap && this.data == data && logged == {}
    {
      this.size, this.bitmap, this.data, this.logged := |data|, bitmap, data, {};
    }

    /** balloc(): the first free block, now in use and zeroed; `None` is the panic "out of blocks". */
    method Balloc() returns (r: Option<nat>)
      requires Sized()
      modifies this
      ensures Sized()
      ensures r.None? <==> FullBelow(old(bitmap), size, size)
      ensures r.None? ==> data == old(data) && bitmap == old(bitmap) && logged == old(logged)
      ensures r.Some? ==>
        && r.value < size && !Used(old(bitmap), r.value) && FullBelow(old(bitmap), size, r.value)
        && Flipped(old(bitmap), bitmap, size, r.value, true) && data == old(data)[r.value := ZeroBlock]
        && logged == old(logged) + {BitmapBlock(r.value / BPB), DataBlock(r.value)}
    {
      var b := 0;
      while b < size
        invariant bitmap == old(bitmap) && data == old(data) && logged == old(logged)
        invariant 0 <= b && b % BPB == 0 && FullBelow(bitmap, size, b)
      {
        var bi := 0;
        while bi < BPB && b + bi < size
          invariant bitmap == old(bitmap) && data == old(data) && logged == old(logged)
          invariant 0 <= bi <= BPB && FullBelow(bitmap, size, b + bi)
        {
          Position(b, bi);
          if !bitmap[b / BPB][bi / 8][bi % 8] {
            assert !Used(bitmap, b + bi);
            Take(b + bi);
            return Some(b + bi);
          }
          assert Used(bitmap, b + bi);
          bi := bi + 1;
        }
        b := b + BPB;
      }
      return None;
    }

    /** The block found by balloc() is marked and zeroed. */
    method Take(b: nat)
      requires Sized() && b < size
      modifies this
      ensures Sized() && Flipped(old(bitmap), bitmap, size, b, true)
      ensures data == old(data)[b := ZeroBlock] && logged == old(logged) + {BitmapBlock(b / BPB), DataBlock(b)}
    {
      WithBitFlips(bitmap, size, b, true);
      bitmap := WithBit(bitmap, b, true);
      data := data[b := ZeroBlock];
      logged := logged + {BitmapBlock(b / BPB), DataBlock(b)};
    }

    /** bfree(); `false` is the panic "freeing free block". */
    method Bfree(b: nat) returns (ok: bool)
      requires Sized() && b < size
      modifies this`bitmap, this`logged
      ensures Sized() && (ok <==> Used(old(bitmap), b))
      ensures if ok then Flipped(old(bitmap), bitmap, size, b, false) && logged == old(logged) + {BitmapBlock(b / BPB)}
              else bitmap == old(bitmap) && logged == old(logged)
    {
      var bi := b % BPB;
      if !bitmap[b / BPB][bi / 8][bi % 8] {
        return false;
      }
      WithBitFlips(bitmap, size, b, false);
      bitmap := WithBit(bitmap, b, false);
      logged := logged + {BitmapBlock(b / BPB)};
      ok := true;
    }

    /** The holder of a data block changes it and calls log_write(). */
    method Put(b: nat, block: Block)
      requires Sized() && b < size
      modifies this`data, this`logged
      ensures Sized() && data == old(data)[b := block] && logged == old(logged) + {DataBlock(b)}
    {
      data := data[b := block];
      logged := logged + {DataBlock(b)};
    }
  }

  lemma {:induction false} Position(b: nat, bi: nat)
    requires b % BPB == 0 && bi < BPB
    ensures (b + bi) / BPB == b / BPB && (b + bi) % BPB == bi
  {
  }
}
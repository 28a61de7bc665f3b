/** How inodes are laid out on the disk: struct dinode of fs.h, several of them to a block. */
module FsDinode {
  import opened Base
  import opened FsAlloc
  import opened FsInode

  const DINODE := 64                    // sizeof(struct dinode)
  const IPB := 8                        // inodes per block, BSIZE / DINODE

  // ---- Fields

  function ShortBytes(x: short): (bs: seq<byte>)
    ensures |bs| == 2
  {
    var u := x as int % 0x1_0000;
    [u % 256, u / 256]
  }

  function ShortOf(bs: seq<byte>): short
    requires |bs| == 2
  {
    var u := bs[0] as int + 256 * bs[1] as int;
    if u < 0x8000 then u else u - 0x1_0000
  }

  lemma {:induction false} ShortRoundTrip(x: short)
    ensures ShortOf(ShortBytes(x)) == x
  {
    var u := x as int % 0x1_0000;
    assert u == u % 256 + 256 * (u / 256);
  }

  function AddrBytes(addrs: seq<nat>): (bs: seq<byte>)
    ensures |bs| == 4 * |addrs|
  {
    if addrs == [] then [] else AddrBytes(addrs[..|addrs| - 1]) + WordBytes(addrs[|addrs| - 1])
  }

  function AddrsOf(bs: seq<byte>): seq<nat>
    requires |bs| % 4 == 0
  {
    if bs == [] then [] else AddrsOf(bs[..|bs| - 4]) + [WordOf(bs[|bs| - 4..])]
  }

  lemma {:induction false} AddrsRoundTrip(addrs: seq<nat>)
    requires forall k :: 0 <= k < |addrs| ==> addrs[k] < WORD
    ensures AddrsOf(AddrBytes(addrs)) == addrs
  {
    if addrs != [] {
      var r, a := addrs[..|addrs| - 1], addrs[|addrs| - 1];
      AddrsRoundTrip(r);
      var bs := AddrBytes(addrs);
      assert bs == AddrBytes(r) + WordBytes(a);
      assert bs[..|bs| - 4] == AddrBytes(r) && bs[|bs| - 4..] == WordBytes(a);
      WordOfBytes(a);
    }
  }

  // ---- One inode

  /** The numbers of an inode fit the fields of struct dinode. */
  predicate Storable(ip: Inode) {
    ip.size < WORD && |ip.addrs| == NDIRECT + 1 && forall k :: 0 <= k < |ip.addrs| ==> ip.addrs[k] < WORD
  }

  function Encode(ip: Inode): (bs: seq<byte>)
    requires |ip.addrs| == NDIRECT + 1
    ensures |bs| == DINODE
  {
    ShortBytes(ip.typ) + ShortBytes(ip.major) + ShortBytes(ip.minor) + ShortBytes(ip.nlink) + WordBytes(ip.size) + AddrBytes(ip.addrs)
  }

  function Decode(bs: seq<byte>): Inode
    requires |bs| == DINODE
  {
    Inode(ShortOf(bs[..2]), ShortOf(bs[2..4]), ShortOf(bs[4..6]), ShortOf(bs[6..8]), WordOf(bs[8..12]), AddrsOf(bs[12..]))
  }

  lemma {:induction false} Fields(a: seq<byte>, b: seq<byte>, c: seq<byte>, d: seq<byte>, e: seq<byte>, f: seq<byte>)
    requires |a| == |b| == |c| == |d| == 2 && |e| == 4
    ensures
      var bs := a + b + c + d + e + f;
      bs[..2] == a && bs[2..4] == b && bs[4..6] == c && bs[6..8] == d && bs[8..12] == e && bs[12..] == f
  {
  }

  lemma {:induction false} InodeRoundTrip(ip: Inode)
    requires Storable(ip)
    ensures Decode(Encode(ip)) == ip
  {
    Fields(ShortBytes(ip.typ), ShortBytes(ip.major), ShortBytes(ip.minor), ShortBytes(ip.nlink), WordBytes(ip.size), AddrBytes(ip.addrs));
    ShortRoundTrip(ip.typ);
    ShortRoundTrip(ip.major);
    ShortRoundTrip(ip.minor);
    ShortRoundTrip(ip.nlink);
    WordOfBytes(ip.size);
    AddrsRoundTrip(ip.addrs);
  }

  /** Where struct dinode has its fields: four shorts, the size, and from byte 12 on the block numbers. */
  lemma {:induction false} InodeLayout(ip: Inode, k: nat)
    requires |ip.addrs| == NDIRECT + 1 && k < 13
    ensures
      var bs := Encode(ip);
      && |bs| == 64 && bs[0..2] == ShortBytes(ip.typ) && bs[2..4] == ShortBytes(ip.major) && bs[4..6] == ShortBytes(ip.minor)
      && bs[6..8] == ShortBytes(ip.nlink) && bs[8..12] == WordBytes(ip.size) && bs[12 + 4 * k..16 + 4 * k] == WordBytes(ip.addrs[k])
  {
    Fields(ShortBytes(ip.typ), ShortBytes(ip.major), ShortBytes(ip.minor), ShortBytes(ip.nlink), WordBytes(ip.size), AddrBytes(ip.addrs));
    AddrAt(ip.addrs, k);
    assert Encode(ip)[12 + 4 * k..16 + 4 * k] == Encode(ip)[12..][4 * k..4 * k + 4];
  }

  lemma {:induction false} AddrAt(addrs: seq<nat>, k: nat)
    requires k < |addrs|
    ensures AddrBytes(addrs)[4 * k..4 * k + 4] == WordBytes(addrs[k])
  {
    if k < |addrs| - 1 {
      var r := addrs[..|addrs| - 1];
      AddrAt(r, k);
      assert AddrBytes(addrs)[4 * k..4 * k + 4] == AddrBytes(r)[4 * k..4 * k + 4];
    }
  }

  // ---- Blocks of inodes

  /** The `k`-th inode of a block. */
  function GetInode(b: Block, k: nat): Inode
    requires k < IPB
  {
    Decode(b[DINODE * k..DINODE * k + DINODE])
  }

  function PutInode(b: Block, k: nat, ip: Inode): Block
    requires k < IPB && |ip.addrs| == NDIRECT + 1
  {
    b[..DINODE * k] + Encode(ip) + b[DINODE * k + DINODE..]
  }

  /** Storing an inode into its block changes that inode and none of its neighbours. */
  lemma {:induction false} GetPut(b: Block, k: nat, ip: Inode, j: nat)
    requires k < IPB && j < IPB && Storable(ip)
    ensures GetInode(PutInode(b, k, ip), j) == if j == k then ip else GetInode(b, j)
  {
    var b' := PutInode(b, k, ip);
    if j == k {
      assert b'[DINODE * k..DINODE * k + DINODE] == Encode(ip);
      InodeRoundTrip(ip);
    } else if j < k {
      assert b'[DINODE * j..DINODE * j + DINODE] == b[DINODE * j..DINODE * j + DINODE];
    } else {
      var rest := b[DINODE * k + DINODE..];
      assert b'[DINODE * k + DINODE..] == rest;
      assert b'[DINODE * j..DINODE * j + DINODE] == rest[DINODE * (j - k - 1)..DINODE * (j - k)] == b[DINODE * j..DINODE * j + DINODE];
    }
  }

  /** The blocks hold exactly the inodes of the table, by number. */
  ghost predicate Packed(blocks: seq<Block>, table: seq<Inode>) {
    |table| <= IPB * |blocks| && forall fold: nat :: PackedBody(fold, blocks, table)
  }

  ghost predicate PackedBody(fold: nat, blocks: seq<Block>, table: seq<Inode>)
    requires |table| <= IPB * |blocks|
  {
    forall i :: 0 <= i < |table| ==> GetInode(blocks[i / IPB], i % IPB) == table[i]
  }

  /** Updating the block of one inode updates that inode in the table. */
  lemma {:induction false} PackedPut(blocks: seq<Block>, table: seq<Inode>, i: nat, ip: Inode)
    requires Packed(blocks, table) && i < |table| && Storable(ip)
    ensures i / IPB < |blocks| && Packed(blocks[i / IPB := PutInode(blocks[i / IPB], i % IPB, ip)], table[i := ip])
  {
    assert PackedBody(0, blocks, table);
    var n := i / IPB;
    var blocks', table' := blocks[n := PutInode(blocks[n], i % IPB, ip)], table[i := ip];
    forall j | 0 <= j < |table'| ensures GetInode(blocks'[j / IPB], j % IPB) == table'[j] {
      assert GetInode(blocks[j / IPB], j % IPB) == table[j];
      PutAt(blocks, i, ip, j);
    }
    assert PackedBody(0, blocks', table');
  }

  lemma {:induction false} PutAt(blocks: seq<Block>, i: nat, ip: Inode, j: nat)
    requires i < IPB * |blocks| && j < IPB * |blocks| && Storable(ip)
    ensures
      var blocks' := blocks[i / IPB := PutInode(blocks[i / IPB], i % IPB, ip)];
      GetInode(blocks'[j / IPB], j % IPB) == if j == i then ip else GetInode(blocks[j / IPB], j % IPB)
  {
    SamePlace(i, j);
    if j / IPB == i / IPB {
      GetPut(blocks[i / IPB], i % IPB, ip, j % IPB);
    }
  }

  lemma {:induction false} SamePlace(i: nat, j: nat)
    ensures i / IPB == j / IPB && i % IPB == j % IPB <==> i == j
  {
    assert i == IPB * (i / IPB) + i % IPB && j == IPB * (j / IPB) + j % IPB;
  }
}

/** The user-level allocator of umalloc.c: a circular list of free blocks in address order. */
module Umalloc {
  import opened Base
  import K = Kalloc

  const HEADER := 8                     // sizeof(Header), the allocation unit in bytes
  const MIN_UNITS := 4096               // least number of units asked of sbrk
  const TOP := 0x8000_0000              // KERNBASE, where sbrk stops

  /** A block of `units` units, header included, at byte address `addr`. */
  datatype Block = Block(addr: int, units: nat) {
    function End(): int { addr + HEADER * units }
  }

  // ---- Sizes

  /** `nunits` of `malloc`, computed in 32 bits. */
  function Units(nbytes: nat): (n: nat)
    requires nbytes < WORD
  {
    (nbytes + HEADER - 1) % WORD / HEADER + 1
  }

  /** The units hold the header and the requested bytes, exactly if rounding up does not wrap; and no fewer would do. */
  lemma {:induction false} UnitsSuffice(nbytes: nat)
    requires nbytes < WORD
    ensures HEADER * Units(nbytes) >= nbytes + HEADER <==> nbytes + HEADER - 1 < WORD
    ensures HEADER * (Units(nbytes) - 1) < nbytes + HEADER
  {
  }

  /** A request just below 4 GB gets a block without room for a single byte. */
  lemma {:induction false} UnitsWrap()
    ensures Units(0xFFFF_FFFF) == 1
  {
  }

  /** The units that `morecore` asks for. */
  function Asked(nu: nat): nat {
    if nu < MIN_UNITS then MIN_UNITS else nu
  }

  /** The argument of `sbrk`, an int, when `morecore` asks for `nu` units. */
  function SbrkArgument(nu: nat): int {
    var bytes := Asked(nu) * HEADER % WORD;
    if bytes < WORD / 2 then bytes else bytes - WORD
  }

  /** `morecore` asks for the bytes it will use, exactly if they fit an int. */
  lemma {:induction false} MorecoreAsksEnough(nu: nat)
    requires nu <= WORD / HEADER
    ensures Asked(nu) >= nu && Asked(nu) >= 4096 && (Asked(nu) == nu || Asked(nu) == 4096)
    ensures SbrkArgument(nu) == HEADER * Asked(nu) <==> nu < WORD / 2 / HEADER
    ensures nu >= WORD / 2 / HEADER ==> SbrkArgument(nu) <= 0
  {
  }

  /** What `sbrk` returns, -1 if it fails, and the size of the process and the number of its pages afterwards. */
  datatype Sbrked = Sbrked(addr: int, sz: nat, pages: nat)

  /** Every byte of the process is on one of its pages. */
  predicate Backed(sz: int, pages: nat) {
    sz <= K.PGSIZE * pages
  }

  /** `sys_sbrk` with `growproc`, for a process of size `sz`; `grant` says whether the kernel has the memory. A
      negative argument is passed on to `deallocuvm`. That takes a new size that wraps around zero for a larger one,
      and does nothing; a new size of zero it returns after it has freed every page, which `growproc` takes for a
      failure. */
  function GrowBy(sz: nat, n: int, grant: bool): Sbrked
    requires 0 < sz < TOP
  {
    if n > 0 then
      if sz + n >= TOP || !grant then Sbrked(-1, sz, K.PagesUp(sz)) else Sbrked(sz, sz + n, K.PagesUp(sz + n))
    else
      var newsz := (sz + n) % WORD;
      if newsz >= sz then Sbrked(sz, sz, K.PagesUp(sz))
      else if newsz == 0 then Sbrked(-1, sz, 0)
      else Sbrked(sz, newsz, K.PagesUp(newsz))
  }

  /** `sbrk` returns the old size, and with the same argument negated it undoes what it did; of nothing it does nothing. It does
      not shrink a process below zero. */
  lemma {:induction false} SbrkRoundTrip(sz: nat, n: int, grant: bool)
    requires 0 < sz < TOP && 0 <= n < TOP
    ensures sz + n < TOP ==> GrowBy(sz, n, true) == Sbrked(sz, sz + n, K.PagesUp(sz + n))
    ensures sz + n < TOP ==> GrowBy(sz + n, -n, grant) == Sbrked(sz + n, sz, K.PagesUp(sz))
    ensures n > 0 && (sz + n >= TOP || !grant) ==> GrowBy(sz, n, grant) == Sbrked(-1, sz, K.PagesUp(sz))
    ensures n > sz ==> GrowBy(sz, -n, grant) == Sbrked(sz, sz, K.PagesUp(sz))
  {
  }

  /** `sbrk` has no such memory to give to `morecore`. */
  predicate Refuses(sz: int, nu: nat, grant: bool) {
    !grant || sz + HEADER * Asked(nu) >= TOP
  }

  /** If `sbrk` fails, the process is as it was, and if it succeeds, there is room for the block that goes on the list:
      each exactly if the size of that block fits an int. Which of the two it is, is then a matter of memory. */
  lemma {:induction false} SbrkCoversIff(sz: nat, nu: nat, grant: bool)
    requires 0 < sz < TOP && nu <= WORD / HEADER
    ensures
      var g := GrowBy(sz, SbrkArgument(nu), grant);
      if g.addr == -1 then g.sz == sz && (Backed(g.sz, g.pages) <==> nu < WORD / 2 / HEADER)
      else g.addr == sz && Backed(g.sz, g.pages) && (Block(sz, Asked(nu)).End() <= g.sz <==> nu < WORD / 2 / HEADER)
    ensures nu < WORD / 2 / HEADER ==> (GrowBy(sz, SbrkArgument(nu), grant).addr == -1 <==> Refuses(sz, nu, grant))
  {
    MorecoreAsksEnough(nu);
  }

  /** For 2 GB less a header `sbrk` is asked for -2 GB. It succeeds without giving anything, and a block of 2 GB that
      begins at the end of the process goes on the free list. */
  lemma {:induction false} TwoGigabytes(sz: nat, grant: bool)
    requires 0 < sz < TOP
    ensures Units(0x7FFF_FFF8) == 0x1000_0000 && SbrkArgument(0x1000_0000) == -0x8000_0000
    ensures GrowBy(sz, -0x8000_0000, grant) == Sbrked(sz, sz, K.PagesUp(sz))
    ensures Block(sz, Asked(0x1000_0000)).End() == sz + 0x8000_0000
  {
  }

  /** For 4 GB less the size of the process and a header `sbrk` is asked to shrink it to nothing. It reports failure,
      and no page of the process is left. A process of four pages is an example. */
  lemma {:induction false} WholeProcessGone(sz: int, grant: bool)
    requires 0 < sz < TOP && sz % HEADER == 0
    ensures SbrkArgument(Units(WORD - sz - HEADER)) == -sz && GrowBy(sz, -sz, grant) == Sbrked(-1, sz, 0)
    ensures Units(0xFFFF_BFF8) == 0x1FFF_F800 && SbrkArgument(0x1FFF_F800) == -0x4000
    ensures GrowBy(0x4000, -0x4000, grant) == Sbrked(-1, 0x4000, 0) && !Backed(0x4000, 0)
  {
    var m := sz / HEADER;
    assert sz == HEADER * m && WORD - sz == HEADER * (WORD / HEADER - m);
    assert Units(WORD - sz - HEADER) == WORD / HEADER - m;
  }

  // ---- The free list as a value

  /** Address order with a gap between any two blocks, so that no two could be joined. */
  ghost predicate Sorted(s: seq<Block>) {
    forall i, j :: 0 <= i < j < |s| ==> s[i].End() < s[j].addr
  }

  function Total(s: seq<Block>): nat {
    if s == [] then 0 else Total(s[..|s| - 1]) + s[|s| - 1].units
  }

  lemma {:induction false} TotalAppend(s: seq<Block>, t: seq<Block>)
    ensures Total(s + t) == Total(s) + Total(t)
  {
    if t == [] {
      assert s + t == s;
    } else {
      TotalAppend(s, t[..|t| - 1]);
      assert (s + t)[..|s + t| - 1] == s + t[..|t| - 1];
    }
  }

  lemma {:induction false} TotalAround(s: seq<Block>, x: Block, t: seq<Block>)
    ensures Total(s + [x] + t) == Total(s) + x.units + Total(t)
  {
    TotalAppend(s + [x], t);
    TotalAppend(s, [x]);
  }

  /** Position of the last block below address `a`. */
  ghost predicate Before(s: seq<Block>, k: nat, a: int) {
    k < |s| && s[k].addr < a && forall i :: k < i < |s| ==> a < s[i].addr
  }

  lemma {:induction false} BeforeExists(s: seq<Block>, a: int) returns (k: nat)
    requires Sorted(s) && |s| > 0 && s[0].addr < a && forall i :: 0 <= i < |s| ==> s[i].addr != a
    ensures Before(s, k, a)
  {
    var n := |s| - 1;
    if s[n].addr < a {
      k := n;
    } else {
      k := BeforeExists(s[..n], a);
    }
  }

  predicate JoinsNext(s: seq<Block>, k: nat, b: Block) {
    k + 1 < |s| && b.End() == s[k + 1].addr
  }

  /** `b`, joined with the block behind it if they touch. */
  function Grown(s: seq<Block>, k: nat, b: Block): Block {
    if JoinsNext(s, k, b) then Block(b.addr, b.units + s[k + 1].units) else b
  }

  function Rest(s: seq<Block>, k: nat, b: Block): seq<Block>
    requires k < |s|
  {
    if JoinsNext(s, k, b) then s[k + 2..] else s[k + 1..]
  }

  /** `b` put back after position `k`, joined with its neighbours where they touch. */
  function Insert(s: seq<Block>, k: nat, b: Block): seq<Block>
    requires k < |s|
  {
    var b1 := Grown(s, k, b);
    if s[k].End() == b.addr then s[..k] + [Block(s[k].addr, s[k].units + b1.units)] + Rest(s, k, b)
    else s[..k + 1] + [b1] + Rest(s, k, b)
  }

  /** Block `b` fits between the blocks at `k` and `k + 1`. */
  ghost predicate Between(s: seq<Block>, k: nat, b: Block) {
    && k < |s| && b.units > 0 && s[k].End() <= b.addr
    && (k + 1 < |s| ==> b.End() <= s[k + 1].addr)
  }

  lemma {:induction false} SortedAround(s: seq<Block>, x: Block, t: seq<Block>)
    requires Sorted(s) && Sorted(t) && x.units > 0
    requires forall i :: 0 <= i < |s| ==> s[i].End() < x.addr
    requires forall j :: 0 <= j < |t| ==> x.End() < t[j].addr
    ensures Sorted(s + [x] + t)
  {
  }

  lemma {:induction false} RestBehind(s: seq<Block>, k: nat, b: Block, j: nat)
    requires Sorted(s) && Between(s, k, b) && j < |Rest(s, k, b)|
    ensures Grown(s, k, b).End() < Rest(s, k, b)[j].addr
  {
  }

  lemma {:induction false} InsertSorted(s: seq<Block>, k: nat, b: Block)
    requires Sorted(s) && Between(s, k, b)
    ensures Sorted(Insert(s, k, b))
  {
    var b1, rest := Grown(s, k, b), Rest(s, k, b);
    forall j | 0 <= j < |rest| ensures b1.End() < rest[j].addr { RestBehind(s, k, b, j); }
    if s[k].End() == b.addr {
      SortedAround(s[..k], Block(s[k].addr, s[k].units + b1.units), rest);
    } else {
      SortedAround(s[..k + 1], b1, rest);
    }
  }

  lemma {:induction false} GrownTotal(s: seq<Block>, k: nat, b: Block)
    requires k < |s|
    ensures Total(s) + b.units == Total(s[..k + 1]) + Grown(s, k, b).units + Total(Rest(s, k, b))
  {
    if JoinsNext(s, k, b) {
      assert s == s[..k + 1] + [s[k + 1]] + s[k + 2..];
      TotalAround(s[..k + 1], s[k + 1], s[k + 2..]);
    } else {
      assert s == s[..k + 1] + s[k + 1..];
      TotalAppend(s[..k + 1], s[k + 1..]);
    }
  }

  lemma {:induction false} InsertTotal(s: seq<Block>, k: nat, b: Block)
    requires k < |s|
    ensures Total(Insert(s, k, b)) == Total(s) + b.units
  {
    GrownTotal(s, k, b);
    var b1, rest := Grown(s, k, b), Rest(s, k, b);
    assert Total(s[..k + 1]) == Total(s[..k]) + s[k].units by {
      assert s[..k + 1] == s[..k] + [s[k]];
      TotalAppend(s[..k], [s[k]]);
    }
    if s[k].End() == b.addr {
      TotalAround(s[..k], Block(s[k].addr, s[k].units + b1.units), rest);
    } else {
      TotalAround(s[..k + 1], b1, rest);
    }
  }

  /** The list after `malloc` takes `n` units from block `m`: the whole block, or its tail. */
  function Take(s: seq<Block>, m: nat, n: nat): seq<Block>
    requires m < |s| && n <= s[m].units
  {
    if s[m].units == n then s[..m] + s[m + 1..] else s[m := Block(s[m].addr, s[m].units - n)]
  }

  lemma {:induction false} TakeTotal(s: seq<Block>, m: nat, n: nat)
    requires m < |s| && n <= s[m].units
    ensures Total(Take(s, m, n)) == Total(s) - n
  {
    TotalAt(s, m);
    if s[m].units == n {
      TotalAppend(s[..m], s[m + 1..]);
    } else {
      var t := s[m := Block(s[m].addr, s[m].units - n)];
      TotalAt(t, m);
      assert t[..m] == s[..m] && t[m + 1..] == s[m + 1..];
    }
  }

  lemma {:induction false} TotalAt(s: seq<Block>, m: nat)
    requires m < |s|
    ensures Total(s) == Total(s[..m]) + s[m].units + Total(s[m + 1..])
  {
    assert s == s[..m] + [s[m]] + s[m + 1..];
    TotalAround(s[..m], s[m], s[m + 1..]);
  }

  lemma {:induction false} TakenAt(s: seq<Block>, m: nat)
    requires m < |s|
    ensures
      var r := Take(s, m, s[m].units);
      |r| == |s| - 1 && r[..m] == s[..m] && r[m..] == s[m + 1..] && forall i :: 0 <= i < |r| ==> r[i] == s[if i < m then i else i + 1]
  {
  }

  /** Freeing a block just taken whole gives back the very same list. */
  lemma {:induction false} FreeUndoesTakeWhole(s: seq<Block>, m: nat)
    requires Sorted(s) && 0 < m < |s| && s[m].units > 0
    ensures
      var r := Take(s, m, s[m].units);
      && Insert(r, m - 1, s[m]) == s
      && forall k: nat :: Before(r, k, s[m].addr) <==> k == m - 1
  {
    TakenAt(s, m);
    var r := Take(s, m, s[m].units);
    assert Insert(r, m - 1, s[m]) == s by {
      assert r[m - 1] == s[m - 1] && (m < |r| ==> r[m] == s[m + 1]);
      assert s[..m] + [s[m]] + s[m + 1..] == s;
    }
    forall k: nat ensures Before(r, k, s[m].addr) <==> k == m - 1 { TakenPlace(s, m, k); }
  }

  lemma {:induction false} TakenPlace(s: seq<Block>, m: nat, k: nat)
    requires Sorted(s) && 0 < m < |s| && s[m].units > 0
    ensures Before(Take(s, m, s[m].units), k, s[m].addr) <==> k == m - 1
  {
    TakenAt(s, m);
    var r := Take(s, m, s[m].units);
    assert r[m - 1] == s[m - 1];
    if k < |r| && k < m - 1 { assert r[m - 1].addr < s[m].addr; }
    if m - 1 < k < |r| { assert r[k] == s[k + 1]; }
  }

  /** Freeing a block just cut off the end of another joins the two again. */
  lemma {:induction false} FreeUndoesTakeTail(s: seq<Block>, m: nat, n: nat)
    requires Sorted(s) && m < |s| && 0 < n < s[m].units
    ensures
      var r, b := Take(s, m, n), Block(s[m].End() - HEADER * n, n);
      && Insert(r, m, b) == s
      && forall k: nat :: Before(r, k, b.addr) <==> k == m
  {
    var r, b := Take(s, m, n), Block(s[m].End() - HEADER * n, n);
    assert r[m].End() == b.addr && !JoinsNext(r, m, b);
    assert r[..m] == s[..m] && r[m + 1..] == s[m + 1..];
    assert s[..m] + [s[m]] + s[m + 1..] == s;
    forall k: nat ensures Before(r, k, b.addr) <==> k == m { CutPlace(s, m, n, k); }
  }

  lemma {:induction false} CutPlace(s: seq<Block>, m: nat, n: nat, k: nat)
    requires Sorted(s) && m < |s| && 0 < n < s[m].units
    ensures Before(Take(s, m, n), k, s[m].End() - HEADER * n) <==> k == m
  {
    var r, a := Take(s, m, n), s[m].End() - HEADER * n;
    assert r[m].addr == s[m].addr < a;
    forall i | m < i < |s| ensures a < r[i].addr { assert s[m].End() < s[i].addr; }
  }

  // ---- The list in memory

  /** Where a chain `s` that ends at address `e` begins. */
  function Head(s: seq<Block>, e: int): int {
    if s == [] then e else s[0].addr
  }

  /** The `ptr` and `size` fields of the headers store the blocks `s`, the last of which points to `e`. */
  ghost predicate Chain(s: seq<Block>, ptr: map<int, int>, size: map<int, nat>, e: int) {
    s != [] ==>
    && s[0].addr in ptr && ptr[s[0].addr] == Head(s[1..], e)
    && s[0].addr in size && size[s[0].addr] == s[0].units
    && Chain(s[1..], ptr, size, e)
  }

  lemma {:induction false} ChainFrame(s: seq<Block>, ptr: map<int, int>, size: map<int, nat>, ptr': map<int, int>, size': map<int, nat>, e: int)
    requires Chain(s, ptr, size, e)
    requires forall i :: 0 <= i < |s| ==> (s[i].addr in ptr ==> s[i].addr in ptr' && ptr'[s[i].addr] == ptr[s[i].addr])
    requires forall i :: 0 <= i < |s| ==> (s[i].addr in size ==> s[i].addr in size' && size'[s[i].addr] == size[s[i].addr])
    ensures Chain(s, ptr', size', e)
  {
    if s != [] {
      ChainFrame(s[1..], ptr, size, ptr', size', e);
    }
  }

  lemma {:induction false} ChainSplit(s: seq<Block>, k: nat, ptr: map<int, int>, size: map<int, nat>, e: int)
    requires Chain(s, ptr, size, e) && k <= |s|
    ensures Chain(s[..k], ptr, size, Head(s[k..], e)) && Chain(s[k..], ptr, size, e)
  {
    if k > 0 {
      ChainSplit(s[1..], k - 1, ptr, size, e);
      assert s[1..][..k - 1] == s[..k][1..];
      assert s[1..][k - 1..] == s[k..];
    }
  }

  lemma {:induction false} ChainAppend(s: seq<Block>, t: seq<Block>, ptr: map<int, int>, size: map<int, nat>, e: int)
    requires Chain(s, ptr, size, Head(t, e)) && Chain(t, ptr, size, e)
    ensures Chain(s + t, ptr, size, e)
  {
    if s == [] {
      assert s + t == t;
    } else {
      ChainAppend(s[1..], t, ptr, size, e);
      assert (s + t)[1..] == s[1..] + t;
    }
  }

  lemma {:induction false} ChainAround(s: seq<Block>, x: Block, t: seq<Block>, ptr: map<int, int>, size: map<int, nat>, e: int)
    requires Chain(s, ptr, size, x.addr) && Chain(t, ptr, size, e)
    requires x.addr in ptr && ptr[x.addr] == Head(t, e) && x.addr in size && size[x.addr] == x.units
    ensures Chain(s + [x] + t, ptr, size, e)
  {
    assert ([x] + t)[1..] == t;
    ChainAppend(s, [x] + t, ptr, size, e);
    assert s + [x] + t == s + ([x] + t);
  }

  /** The pointer and size found at position `k`. */
  lemma {:induction false} ChainAt(s: seq<Block>, k: nat, ptr: map<int, int>, size: map<int, nat>, e: int)
    requires Chain(s, ptr, size, e) && k < |s|
    ensures s[k].addr in ptr && ptr[s[k].addr] == Head(s[k + 1..], e)
    ensures s[k].addr in size && size[s[k].addr] == s[k].units
  {
    ChainSplit(s, k, ptr, size, e);
    assert s[k..][1..] == s[k + 1..];
  }

  /** Stores to the headers of s[k..m] and outside the chain leave both ends of the chain alone. */
  lemma {:induction false} ChainEnds(s: seq<Block>, k: nat, m: nat, ptr: map<int, int>, size: map<int, nat>, e: int,
                                     ptr': map<int, int>, size': map<int, nat>)
    requires Chain(s, ptr, size, e) && k < m <= |s|
    requires forall i :: 0 <= i < |s| && !(k <= i < m) ==>
      (s[i].addr in ptr ==> s[i].addr in ptr' && ptr'[s[i].addr] == ptr[s[i].addr]) &&
      (s[i].addr in size ==> s[i].addr in size' && size'[s[i].addr] == size[s[i].addr])
    ensures Chain(s[..k], ptr', size', s[k].addr) && Chain(s[m..], ptr', size', e)
  {
    ChainSplit(s, k, ptr, size, e);
    ChainSplit(s, m, ptr, size, e);
    ChainFrame(s[..k], ptr, size, ptr', size', s[k].addr);
    ChainFrame(s[m..], ptr, size, ptr', size', e);
  }

  lemma {:induction false} TakeOneMore(s: seq<Block>, k: nat, t: seq<Block>)
    requires k < |s|
    ensures s[..k] + [s[k]] + t == s[..k + 1] + t
  {
    assert s[..k] + [s[k]] == s[..k + 1];
  }

  /** What `free` stores when block `b` touches the one before it: that block grows. */
  lemma {:induction false} ChainExtend(s: seq<Block>, k: nat, b: Block, ptr: map<int, int>, size: map<int, nat>, e: int)
    requires Chain(s, ptr, size, e) && Sorted(s) && Between(s, k, b) && s[k].End() == b.addr && s[k].addr < b.addr
    requires forall i :: 0 <= i < |s| ==> s[i].addr != b.addr
    ensures
      var b1, next := Grown(s, k, b), Head(Rest(s, k, b), e);
      Chain(Insert(s, k, b), ptr[b.addr := next][s[k].addr := next],
            size[b.addr := b1.units][s[k].addr := s[k].units + b1.units], e)
  {
    var b1, rest := Grown(s, k, b), Rest(s, k, b);
    var next := Head(rest, e);
    var ptr', size' := ptr[b.addr := next][s[k].addr := next], size[b.addr := b1.units][s[k].addr := s[k].units + b1.units];
    ChainEnds(s, k, if JoinsNext(s, k, b) then k + 2 else k + 1, ptr, size, e, ptr', size');
    ChainAround(s[..k], Block(s[k].addr, s[k].units + b1.units), rest, ptr', size', e);
  }

  /** What `free` stores otherwise: `b` becomes a block of the list. */
  lemma {:induction false} ChainInsert(s: seq<Block>, k: nat, b: Block, ptr: map<int, int>, size: map<int, nat>, e: int)
    requires Chain(s, ptr, size, e) && Sorted(s) && Between(s, k, b) && s[k].End() != b.addr && s[k].addr < b.addr
    requires forall i :: 0 <= i < |s| ==> s[i].addr != b.addr
    ensures Chain(Insert(s, k, b), ptr[b.addr := Head(Rest(s, k, b), e)][s[k].addr := b.addr], size[b.addr := Grown(s, k, b).units], e)
  {
    var b1, rest := Grown(s, k, b), Rest(s, k, b);
    var ptr', size' := ptr[b.addr := Head(rest, e)][s[k].addr := b.addr], size[b.addr := b1.units];
    ChainAt(s, k, ptr, size, e);
    ChainEnds(s, k, if JoinsNext(s, k, b) then k + 2 else k + 1, ptr, size, e, ptr', size');
    ChainAround(s[..k], s[k], [b1], ptr', size', Head(rest, e));
    TakeOneMore(s, k, [b1]);
    ChainAppend(s[..k + 1] + [b1], rest, ptr', size', e);
  }

  /** What `malloc` stores when the block at `m` fits exactly: its predecessor skips it. */
  lemma {:induction false} ChainRemove(s: seq<Block>, m: nat, ptr: map<int, int>, size: map<int, nat>, e: int)
    requires Chain(s, ptr, size, e) && Sorted(s) && 0 < m < |s|
    ensures s[m].addr in ptr && Chain(s[..m] + s[m + 1..], ptr[s[m - 1].addr := ptr[s[m].addr]], size, e)
  {
    ChainAt(s, m, ptr, size, e);
    ChainAt(s, m - 1, ptr, size, e);
    ChainEnds(s, m - 1, m + 1, ptr, size, e, ptr[s[m - 1].addr := ptr[s[m].addr]], size);
    ChainAround(s[..m - 1], s[m - 1], s[m + 1..], ptr[s[m - 1].addr := ptr[s[m].addr]], size, e);
    assert s[..m - 1] + [s[m - 1]] + s[m + 1..] == s[..m] + s[m + 1..];
  }

  /** What `malloc` stores when it takes the tail of the block at `m`. */
  lemma {:induction false} ChainShrink(s: seq<Block>, m: nat, n: nat, ptr: map<int, int>, size: map<int, nat>, e: int)
    requires Chain(s, ptr, size, e) && Sorted(s) && m < |s| && 0 < n < s[m].units
    ensures
      var shrunk := Block(s[m].addr, s[m].units - n);
      Chain(s[m := shrunk], ptr, size[s[m].addr := shrunk.units][shrunk.End() := n], e)
  {
    var shrunk := Block(s[m].addr, s[m].units - n);
    var size' := size[s[m].addr := shrunk.units][shrunk.End() := n];
    ChainAt(s, m, ptr, size, e);
    NoneWithin(s, m, shrunk.End());
    ChainEnds(s, m, m + 1, ptr, size, e, ptr, size');
    ChainAround(s[..m], shrunk, s[m + 1..], ptr, size', e);
    assert s[..m] + [shrunk] + s[m + 1..] == s[m := shrunk];
  }

  lemma {:induction false} NoneWithin(s: seq<Block>, m: nat, a: int)
    requires Sorted(s) && m < |s| && s[m].addr < a < s[m].End()
    ensures forall i :: 0 <= i < |s| ==> s[i].addr != a && (i != m ==> s[i].addr != s[m].addr)
  {
    forall i | 0 <= i < |s| ensures s[i].addr != a && (i != m ==> s[i].addr != s[m].addr) {
      if i < m { assert s[i].End() < s[m].addr; } else if m < i { assert s[m].End() < s[i].addr; }
    }
  }

  // ---- Free and live blocks

  predicate Disjoint(x: Block, y: Block) {
    x.End() <= y.addr || y.End() <= x.addr
  }

  /** The free list starts with `base`, which has no units; every other block lies between it and the break. */
  ghost predicate ListOk(s: seq<Block>, base: int, brk: int) {
    && |s| > 0 && s[0] == Block(base, 0) && Sorted(s)
    && forall i :: 1 <= i < |s| ==> s[i].units > 0 && base + HEADER <= s[i].addr && s[i].End() <= brk
  }

  /** Blocks handed out: each with its size in its header, apart from each other and from every free block. */
  ghost predicate LiveOk(live: map<int, nat>, s: seq<Block>, size: map<int, nat>, base: int, brk: int) {
    && (forall a :: a in live ==> live[a] > 0 && base + HEADER <= a && Block(a, live[a]).End() <= brk)
    && (forall a :: a in live ==> a in size && size[a] == live[a])
    && (forall a, i :: a in live && 0 <= i < |s| ==> Disjoint(Block(a, live[a]), s[i]))
    && (forall a, c :: a in live && c in live && a != c ==> Disjoint(Block(a, live[a]), Block(c, live[c])))
  }

  ghost predicate HeapBody(fold: nat, s: seq<Block>, live: map<int, nat>, ptr: map<int, int>, size: map<int, nat>, base: int, brk: int) {
    ListOk(s, base, brk) && Chain(s, ptr, size, base) && LiveOk(live, s, size, base, brk)
  }

  /** The allocator's data structure. Quantified so that it stays folded: `assert HeapBody(0, ...)` unfolds it. */
  ghost predicate Heap(s: seq<Block>, live: map<int, nat>, ptr: map<int, int>, size: map<int, nat>, base: int, brk: int) {
    |s| > 0 && forall fold: nat :: HeapBody(fold, s, live, ptr, size, base, brk)
  }

  ghost function LiveUnits(live: map<int, nat>): nat
    decreases |live|
  {
    if exists a: int :: a in live then
      var a: int :| a in live;
      live[a] + LiveUnits(live - {a})
    else 0
  }

  lemma {:induction false} LiveUnitsRemove(live: map<int, nat>, a: int)
    requires a in live
    ensures LiveUnits(live) == live[a] + LiveUnits(live - {a})
    decreases |live|
  {
    var c: int :| c in live && LiveUnits(live) == live[c] + LiveUnits(live - {c});
    if c != a {
      LiveUnitsRemove(live - {c}, a);
      LiveUnitsRemove(live - {a}, c);
      assert live - {c} - {a} == live - {a} - {c};
    }
  }

  lemma {:induction false} LiveUnitsAdd(live: map<int, nat>, a: int, n: nat)
    requires a !in live
    ensures LiveUnits(live[a := n]) == LiveUnits(live) + n
  {
    LiveUnitsRemove(live[a := n], a);
    assert live[a := n] - {a} == live;
  }

  lemma {:induction false} InsertDisjoint(s: seq<Block>, k: nat, b: Block, x: Block, i: nat)
    requires Sorted(s) && Between(s, k, b) && i < |Insert(s, k, b)| && x.units > 0
    requires Disjoint(x, b) && forall j :: 0 <= j < |s| ==> Disjoint(x, s[j])
    ensures Disjoint(x, Insert(s, k, b)[i])
  {
  }

  lemma {:induction false} InsertListOk(s: seq<Block>, k: nat, b: Block, base: int, brk: int)
    requires ListOk(s, base, brk) && Between(s, k, b) && base + HEADER <= b.addr && b.End() <= brk
    ensures ListOk(Insert(s, k, b), base, brk)
  {
    InsertSorted(s, k, b);
    var r := Insert(s, k, b);
    assert r[0] == s[0];
    forall i | 1 <= i < |r| ensures r[i].units > 0 && base + HEADER <= r[i].addr && r[i].End() <= brk {
      InsertAt(s, k, b, i, base, brk);
    }
  }

  lemma {:induction false} InsertAt(s: seq<Block>, k: nat, b: Block, i: nat, base: int, brk: int)
    requires ListOk(s, base, brk) && Between(s, k, b) && base + HEADER <= b.addr && b.End() <= brk && 1 <= i < |Insert(s, k, b)|
    ensures var x := Insert(s, k, b)[i]; x.units > 0 && base + HEADER <= x.addr && x.End() <= brk
  {
    var r, b1 := Insert(s, k, b), Grown(s, k, b);
    var at := if s[k].End() == b.addr then k + 1 else k + 2;
    assert b1.addr == b.addr && b1.End() <= brk && b1.units > 0;
    if i >= at {
      assert r[i] == Rest(s, k, b)[i - at];
      RestAt(s, k, b, i - at);
    } else if i < k {
      assert r[i] == s[i];
    } else if s[k].End() == b.addr {
      assert r[i] == Block(s[k].addr, s[k].units + b1.units);
    } else if i == k {
      assert r[i] == s[k];
    } else {
      assert r[i] == b1;
    }
  }

  lemma {:induction false} RestAt(s: seq<Block>, k: nat, b: Block, i: nat)
    requires k < |s| && i < |Rest(s, k, b)|
    ensures Rest(s, k, b)[i] == if JoinsNext(s, k, b) then s[k + 2 + i] else s[k + 1 + i]
  {
  }

  /** A block apart from all free blocks goes between two of them. */
  lemma {:induction false} BetweenHolds(s: seq<Block>, k: nat, b: Block, base: int, brk: int)
    requires ListOk(s, base, brk) && b.units > 0 && base + HEADER <= b.addr && Before(s, k, b.addr)
    requires forall i :: 0 <= i < |s| ==> Disjoint(b, s[i])
    ensures Between(s, k, b) && (s[k].End() == b.addr ==> k > 0)
  {
  }

  /** How `malloc` ends: with null, with the address of the new block's first byte, or with a heap that is no longer
      the process's memory. */
  datatype Outcome = Null | Ptr(addr: int) | Broken

  /** No free block has `n` units. */
  ghost predicate Short(s: seq<Block>, n: nat) {
    forall fold: nat :: ShortBody(fold, s, n)
  }

  ghost predicate ShortBody(fold: nat, s: seq<Block>, n: nat) {
    forall g :: 0 <= g < |s| ==> s[g].units < n
  }

  /** The free list once the first call of `malloc` has set it up. */
  ghost function Started(s: seq<Block>, base: int): seq<Block> {
    if s == [] then [Block(base, 0)] else s
  }

  /** Pages of the process are gone or, wherever `free` puts block `b`, the list is not one of blocks below the break. */
  ghost predicate Breaks(s: seq<Block>, base: int, brk: int, pages: nat, b: Block) {
    !Backed(brk, pages) || forall k: nat :: Before(s, k, b.addr) ==> !ListOk(Insert(s, k, b), base, brk)
  }

  lemma {:induction false} BreaksList(s: seq<Block>, base: int, brk: int, pages: nat, b: Block)
    requires brk < b.End() && b.units > 0
    ensures Breaks(s, base, brk, pages, b)
  {
    forall k: nat | Before(s, k, b.addr) ensures !ListOk(Insert(s, k, b), base, brk) {
      var r, g := Insert(s, k, b), if s[k].End() == b.addr then k else k + 1;
      assert r[g].End() >= b.End();
    }
  }

  /** The free list after `morecore`: `sbrk` has returned `g`, and the new block goes behind the one at `k`. */
  ghost function Extended(s: seq<Block>, k: nat, g: Sbrked, nu: nat): seq<Block>
    requires k < |s|
  {
    if g.addr == -1 then s else Insert(s, k, Block(g.addr, Asked(nu)))
  }

  /** Whether `sbrk` fails or not, the free list stays one of blocks of the process, whose pages are all there, exactly
      if the size of the new block fits an int. */
  lemma {:induction false} MorecoreKeepsIff(s: seq<Block>, base: int, sz: nat, nu: nat, grant: bool, k: nat)
    requires 0 < sz < TOP && nu <= WORD / HEADER && ListOk(s, base, sz) && base + HEADER <= sz && Before(s, k, sz)
    ensures
      var g := GrowBy(sz, SbrkArgument(nu), grant);
      ListOk(Extended(s, k, g, nu), base, g.sz) && Backed(g.sz, g.pages) <==> nu < WORD / 2 / HEADER
  {
    SbrkCoversIff(sz, nu, grant);
    var g := GrowBy(sz, SbrkArgument(nu), grant);
    if g.addr != -1 {
      var b := Block(g.addr, Asked(nu));
      if nu < WORD / 2 / HEADER {
        LastPlace(s, k, base, sz);
        InsertListOk(s, k, b, base, g.sz);
      } else {
        BreaksList(s, base, g.sz, g.pages, b);
      }
    }
  }

  /** A block at the break goes behind all others. */
  lemma {:induction false} LastPlace(s: seq<Block>, k: nat, base: int, sz: int)
    requires ListOk(s, base, sz) && base + HEADER <= sz && Before(s, k, sz)
    ensures k == |s| - 1 && s[k].End() <= sz
  {
    assert s[|s| - 1].addr < sz;
  }

  /** What the heap is like once `sbrk` has been called for `nu` units, with the break at `sz` then. */
  lemma {:induction false} SbrkOutcome(s: seq<Block>, live: map<int, nat>, ptr: map<int, int>, size: map<int, nat>, base: int, brk: int,
                                       sz: nat, nu: nat, grant: bool)
    requires Heap(s, live, ptr, size, base, brk) && brk <= sz && 0 < sz < TOP && nu <= WORD / HEADER
    ensures Heap(s, live, ptr, size, base, sz)
    ensures
      var g, b := GrowBy(sz, SbrkArgument(nu), grant), Block(sz, Asked(nu));
      if nu >= WORD / 2 / HEADER then Breaks(s, base, g.sz, g.pages, b)
      else if Refuses(sz, nu, grant) then g == Sbrked(-1, sz, K.PagesUp(sz))
      else g == Sbrked(sz, b.End(), K.PagesUp(b.End())) && g.sz < TOP
  {
    BreakOk(s, live, ptr, size, base, brk, sz);
    SbrkCoversIff(sz, nu, grant);
    MorecoreAsksEnough(nu);
    var g := GrowBy(sz, SbrkArgument(nu), grant);
    if g.addr != -1 && nu >= WORD / 2 / HEADER {
      BreaksList(s, base, g.sz, g.pages, Block(sz, Asked(nu)));
    }
  }

  /** The block at `m` is the first that is large enough, from the one behind position `at` on around the circle. */
  ghost predicate FirstFit(s: seq<Block>, at: nat, n: nat, m: nat) {
    m < |s| && s[m].units >= n && forall g :: 0 <= g < |s| && Sooner(at, g, m) ==> s[g].units < n
  }

  /** A walk from behind position `at` comes to position `g` before `m`. */
  predicate Sooner(at: nat, g: nat, m: nat) {
    if g > at then m <= at || g < m else g < m <= at
  }

  lemma {:induction false} FirstFound(s: seq<Block>, at: nat, d: nat, n: nat)
    requires at < |s| && d < |s| && SmallSoFar(s, at, d, n) && s[Pos(at, d + 1, |s|)].units >= n
    ensures FirstFit(s, at, n, Pos(at, d + 1, |s|))
  {
    var m := Pos(at, d + 1, |s|);
    forall g | 0 <= g < |s| && Sooner(at, g, m) ensures Ahead(at, g, |s|) < d {}
  }

  /** `malloc` has cut `n` units off the end of the first block that fits, and they begin at `r` - HEADER. */
  ghost predicate TakesFirst(s: seq<Block>, at: nat, n: nat, s': seq<Block>, r: int) {
    exists m: nat :: FirstFit(s, at, n, m) && s' == Take(s, m, n) && r - HEADER == s[m].End() - HEADER * n
  }

  class Allocator {
    const base: int              // address of the static header `base`
    var ptr: map<int, int>       // s.ptr of the header at each address
    var size: map<int, nat>      // s.size of the header at each address
    var freep: int               // 0 until the first call of malloc
    var brk: nat                 // the size of the process, moved by sbrk
    var pages: nat               // how many pages of it are mapped

    ghost var list: seq<Block>   // the free list, from `base` on
    ghost var at: nat            // position of `freep` in it
    ghost var live: map<int, nat>
    ghost var obtained: nat      // units obtained from sbrk so far

    ghost predicate Valid()
      reads this
    {
      && 0 < base && base + HEADER <= brk < TOP && pages == K.PagesUp(brk)
      && obtained == Total(list) + LiveUnits(live)
      && if freep == 0 then list == [] && live == map[] && obtained == 0
         else
           && Heap(list, live, ptr, size, base, brk)
           && at < |list| && list[at].addr == freep
    }

    constructor (base: int, brk: nat)
      requires 0 < base && base + HEADER <= brk < TOP
      ensures Valid() && freep == 0 && this.base == base && this.brk == brk
    {
      this.base, this.brk, this.pages := base, brk, K.PagesUp(brk);
      freep, ptr, size := 0, map[], map[];
      list, at, live, obtained := [], 0, map[], 0;
    }

    /** The loop of `free`: the last free block below the block being freed. */
    method FindPlace(bp: int) returns (p: int, ghost k: nat)
      requires ListOk(list, base, brk) && Chain(list, ptr, size, base) && at < |list| && list[at].addr == freep
      requires base < bp && forall i :: 0 <= i < |list| ==> list[i].addr != bp
      ensures Before(list, k, bp) && p == list[k].addr
    {
      k := BeforeExists(list, bp);
      p := freep;
      ghost var i, n := at, |list|;
      NextAt(list, i, ptr, size);
      while !(bp > p && bp < ptr[p])
        invariant 0 <= i < n && p == list[i].addr && p in ptr
        invariant ptr[p] == list[if i + 1 < n then i + 1 else 0].addr
        decreases if i <= k then k - i else k + n - i
      {
        WalkOn(list, i, k, bp);
        if p >= ptr[p] && (bp > p || bp < ptr[p]) {
          return;
        }
        p := ptr[p];
        i := if i + 1 < n then i + 1 else 0;
        NextAt(list, i, ptr, size);
      }
      WalkOn(list, i, k, bp);
    }

    /** `free`: the block goes back to the list, joined with its neighbours, and nothing else changes hands. */
    method Free(ap: int)
      requires Valid() && freep != 0 && ap - HEADER in live
      modifies this`ptr, this`size, this`freep, this`list, this`at, this`live
      ensures Valid() && freep != 0 && live == old(live) - {ap - HEADER}
      ensures exists k: nat ::
        && Before(old(list), k, ap - HEADER) && freep == old(list)[k].addr
        && list == Insert(old(list), k, Block(ap - HEADER, old(live)[ap - HEADER]))
    {
      var bp := ap - HEADER;
      LiveBlock(list, live, ptr, size, base, brk, bp);
      var p, k := FindPlace(bp);
      PutBack(bp, p, k);
    }

    /** The rest of `free`, once the block's place behind the one at `p` is found. */
    method PutBack(bp: int, p: int, ghost k: nat)
      requires Valid() && freep != 0 && bp in live && Before(list, k, bp) && p == list[k].addr
      modifies this`ptr, this`size, this`freep, this`list, this`at, this`live
      ensures Valid() && freep != 0 && live == old(live) - {bp}
      ensures freep == p && list == Insert(old(list), k, Block(bp, old(live)[bp]))
    {
      ghost var b := Block(bp, live[bp]);
      LiveBlock(list, live, ptr, size, base, brk, bp);
      FreeOk(list, live, ptr, size, base, brk, k, b);
      InsertTotal(list, k, b);
      LiveUnitsRemove(live, bp);
      Relink(bp, p, list, k, b);
      list, live := Insert(list, k, b), live - {bp};
      freep, at := p, k;
    }

    /** `sbrk`, when other code has moved the break up by `gap` since the last call. */
    method Sbrk(n: int, grant: bool, gap: nat) returns (p: int)
      requires 0 < brk && brk + gap < TOP
      modifies this`brk, this`pages
      ensures Sbrked(p, brk, pages) == GrowBy(old(brk) + gap, n, grant)
    {
      brk := brk + gap;
      pages := K.PagesUp(brk);
      p := brk;
      if n > 0 {
        if brk + n >= TOP || !grant {
          return -1;
        }
        brk := brk + n;
        pages := K.PagesUp(brk);
      } else if n < 0 {
        var newsz := (brk + n) % WORD;
        if newsz < brk {
          pages := K.PagesUp(newsz);
          if newsz == 0 {
            return -1;
          }
          brk := newsz;
        }
      }
    }

    /** `morecore`, up to the call of `free` that puts the new block on the list: None if `sbrk` fails. */
    method Extend(nu: nat, grant: bool, gap: nat) returns (p: Option<int>)
      requires Valid() && freep != 0 && nu <= WORD / HEADER && brk + gap < TOP
      modifies this`brk, this`pages
      ensures nu < WORD / 2 / HEADER ==> (p.None? <==> Refuses(old(brk) + gap, nu, grant))
      ensures nu < WORD / 2 / HEADER && p.None? ==> Valid()
      ensures nu < WORD / 2 / HEADER && p.Some? ==>
        && p.value == old(brk) + gap && Heap(list, live, ptr, size, base, p.value)
        && p.value + HEADER * Asked(nu) == brk < TOP && pages == K.PagesUp(brk)
      ensures nu >= WORD / 2 / HEADER ==> Breaks(list, base, brk, pages, Block(old(brk) + gap, Asked(nu)))
    {
      SbrkOutcome(list, live, ptr, size, base, brk, brk + gap, nu, grant);
      ghost var g := GrowBy(brk + gap, SbrkArgument(nu), grant);
      var a := Sbrk(SbrkArgument(nu), grant, gap);
      assert a == g.addr && brk == g.sz && pages == g.pages;
      p := if a == -1 then None else Some(a);
    }

    /** `morecore`: on success some free block has at least `nu` units. It is `Broken` where the size does not fit an
        int: `sbrk` then leaves the process without its pages, or returns what is not room for the block. */
    method Morecore(nu: nat, grant: bool, gap: nat) returns (o: Outcome)
      requires Valid() && freep != 0 && 0 < nu <= WORD / HEADER && brk + gap < TOP
      modifies this`ptr, this`size, this`freep, this`brk, this`pages, this`list, this`at, this`live, this`obtained
      ensures o.Broken? <==> nu >= WORD / 2 / HEADER
      ensures o.Null? <==> nu < WORD / 2 / HEADER && Refuses(old(brk) + gap, nu, grant)
      ensures o.Broken? ==> Breaks(old(list), base, brk, pages, Block(old(brk) + gap, Asked(nu)))
      ensures o.Null? ==> list == old(list) && obtained == old(obtained) && freep == old(freep)
      ensures !o.Broken? ==> Valid() && freep != 0 && live == old(live)
      ensures o.Ptr? ==> o.addr == freep && obtained == old(obtained) + Asked(nu) && !Short(list, nu)
    {
      var p := Extend(nu, grant, gap);
      if nu >= WORD / 2 / HEADER {
        return Broken;
      }
      if p.None? {
        return Null;
      }
      AddBlock(p.value, Asked(nu), nu);
      o := Ptr(freep);
    }

    /** The block at `p`, which `sbrk` has just added to the process, goes on the list. */
    method AddBlock(p: int, n: nat, ghost nu: nat)
      requires freep != 0 && 0 < n && 0 < base && base + HEADER <= p && p + HEADER * n == brk < TOP && pages == K.PagesUp(brk)
      requires Heap(list, live, ptr, size, base, p) && at < |list| && list[at].addr == freep
      requires obtained == Total(list) + LiveUnits(live)
      modifies this`ptr, this`size, this`freep, this`list, this`at, this`live, this`obtained
      ensures Valid() && freep != 0 && live == old(live) && obtained == old(obtained) + n
      ensures nu <= n ==> !Short(list, nu)
    {
      GrantOk(list, live, ptr, size, base, p, n, brk);
      LiveUnitsAdd(live, p, n);
      size := size[p := n];
      live := live[p := n];
      obtained := obtained + n;
      ghost var before := list;
      Free(p + HEADER);
      assert live == old(live);
      InsertBig(before, list, p, n, nu);
    }

    /** `malloc`: a new live block of Units(nbytes) units; or, exactly if no free block is large enough, null, if `sbrk`
        refuses a size that fits an int, and `Broken`, if the size does not fit one, whatever `sbrk` returns. `grant` and `gap` describe the one call of `sbrk` it may make. */
    method Malloc(nbytes: nat, grant: bool, gap: nat) returns (o: Outcome)
      requires Valid() && nbytes < WORD && brk + gap < TOP
      modifies this
      ensures o.Null? <==>
        Short(old(list), Units(nbytes)) && Units(nbytes) < WORD / 2 / HEADER && Refuses(old(brk) + gap, Units(nbytes), grant)
      ensures o.Broken? <==> Short(old(list), Units(nbytes)) && Units(nbytes) >= WORD / 2 / HEADER
      ensures !o.Broken? ==> Valid() && freep != 0
      ensures o.Broken? ==> Breaks(Started(old(list), base), base, brk, pages, Block(old(brk) + gap, Asked(Units(nbytes))))
      ensures o.Null? ==> live == old(live) && list == Started(old(list), base) && obtained == old(obtained)
      ensures o.Ptr? ==> base < o.addr && o.addr - HEADER !in old(live) && live == old(live)[o.addr - HEADER := Units(nbytes)]
      ensures o.Ptr? ==> obtained == old(obtained) + if Short(old(list), Units(nbytes)) then Asked(Units(nbytes)) else 0
      ensures o.Ptr? && !Short(old(list), Units(nbytes)) ==> TakesFirst(old(list), old(at), Units(nbytes), list, o.addr)
    {
      var nunits := Units(nbytes);
      if freep == 0 {
        ptr, size, freep := ptr[base := base], size[base := 0], base;
        list, at := [Block(base, 0)], 0;
        StartOk(ptr, size, base, brk);
      }
      o := Search(nunits, grant, gap);
    }

    /** The loop of `malloc`, split where it calls `morecore`, after which it starts again from `freep`. It calls
        `morecore` at most once: the second round finds a block. */
    method Search(nunits: nat, grant: bool, gap: nat) returns (o: Outcome)
      requires Valid() && freep != 0 && 0 < nunits <= WORD / HEADER && brk + gap < TOP
      modifies this`ptr, this`size, this`freep, this`brk, this`pages, this`list, this`at, this`live, this`obtained
      ensures o.Null? <==> Short(old(list), nunits) && nunits < WORD / 2 / HEADER && Refuses(old(brk) + gap, nunits, grant)
      ensures o.Broken? <==> Short(old(list), nunits) && nunits >= WORD / 2 / HEADER
      ensures !o.Broken? ==> Valid() && freep != 0
      ensures o.Broken? ==> Breaks(old(list), base, brk, pages, Block(old(brk) + gap, Asked(nunits)))
      ensures o.Null? ==> live == old(live) && list == old(list) && obtained == old(obtained)
      ensures o.Ptr? ==> base < o.addr && o.addr - HEADER !in old(live) && live == old(live)[o.addr - HEADER := nunits]
      ensures o.Ptr? ==> obtained == old(obtained) + if Short(old(list), nunits) then Asked(nunits) else 0
      ensures o.Ptr? && !Short(old(list), nunits) ==> TakesFirst(old(list), old(at), nunits, list, o.addr)
    {
      var found, p, prevp, m := Walk(nunits);
      if !found {
        o := Morecore(nunits, grant, gap);
        if !o.Ptr? {
          return;
        }
        found, p, prevp, m := Walk(nunits);
      }
      var r := TakeUnits(p, prevp, nunits, m);
      o := Ptr(r);
    }

    /** `malloc` takes `n` units from the block at `p`, whose predecessor is `prevp`. */
    method TakeUnits(p: int, prevp: int, n: nat, ghost m: nat) returns (r: int)
      requires Valid() && freep != 0 && 0 < m < |list| && list[m].addr == p && list[m - 1].addr == prevp && 0 < n <= list[m].units
      requires p in ptr && p in size && size[p] == list[m].units
      modifies this`ptr, this`size, this`freep, this`list, this`at, this`live
      ensures Valid() && freep != 0 && base < r && r - HEADER !in old(live) && live == old(live)[r - HEADER := n]
      ensures list == Take(old(list), m, n) && freep == prevp && r - HEADER == old(list)[m].End() - HEADER * n
    {
      if size[p] == n {
        r := TakeWhole(p, prevp, m);
      } else {
        r := TakeTail(p, prevp, n, m);
      }
    }

    /** One round of the list from the successor of `freep`: a block of at least `nunits` units and its predecessor. */
    method Walk(nunits: nat) returns (found: bool, p: int, prevp: int, ghost m: nat)
      requires Valid() && freep != 0 && 0 < nunits
      ensures found <==> !Short(list, nunits)
      ensures found ==> 0 < m < |list| && list[m].addr == p && list[m - 1].addr == prevp && list[m].units >= nunits
      ensures found ==> p in ptr && p in size && size[p] == list[m].units && FirstFit(list, at, nunits, m)
    {
      NextOf(list, live, ptr, size, base, brk, at);
      prevp, p := freep, ptr[freep];
      ghost var d := 0;
      while true
        invariant d < |list| && p == list[Pos(at, d + 1, |list|)].addr && prevp == list[Pos(at, d, |list|)].addr
        invariant SmallSoFar(list, at, d, nunits)
        decreases |list| - d
      {
        m := Pos(at, d + 1, |list|);
        NextOf(list, live, ptr, size, base, brk, m);
        if size[p] >= nunits {
          assert list[m].units >= nunits && !ShortBody(0, list, nunits);
          FirstFound(list, at, d, nunits);
          found := true;
          return;
        }
        WalkStep(list, at, d, nunits);
        if p == freep {
          found := false;
          return;
        }
        d := d + 1;
        prevp, p := p, ptr[p];
      }
    }

    /** `malloc` unlinks the whole block at `p`, whose predecessor is `prevp`. */
    method TakeWhole(p: int, prevp: int, ghost m: nat) returns (r: int)
      requires Valid() && freep != 0 && 0 < m < |list| && list[m].addr == p && list[m - 1].addr == prevp && list[m].units > 0
      requires p in ptr
      modifies this`ptr, this`freep, this`list, this`at, this`live
      ensures Valid() && freep != 0 && base < r && r - HEADER !in old(live) && live == old(live)[r - HEADER := old(list)[m].units]
      ensures list == Take(old(list), m, old(list)[m].units) && freep == prevp && r == p + HEADER
    {
      TakeWholeOk(list, live, ptr, size, base, brk, m);
      TakeTotal(list, m, list[m].units);
      LiveUnitsAdd(live, p, list[m].units);
      ptr := ptr[prevp := ptr[p]];
      list, live := Take(list, m, list[m].units), live[p := list[m].units];
      freep, at := prevp, m - 1;
      r := p + HEADER;
    }

    /** `malloc` takes the last `n` units of the block at `p`, whose predecessor is `prevp`. */
    method TakeTail(p: int, prevp: int, n: nat, ghost m: nat) returns (r: int)
      requires Valid() && freep != 0 && 0 < m < |list| && list[m].addr == p && list[m - 1].addr == prevp && 0 < n < list[m].units
      requires p in size && size[p] == list[m].units
      modifies this`size, this`freep, this`list, this`at, this`live
      ensures Valid() && freep != 0 && base < r && r - HEADER !in old(live) && live == old(live)[r - HEADER := n]
      ensures list == Take(old(list), m, n) && freep == prevp && r - HEADER == old(list)[m].End() - HEADER * n
    {
      TakeTailOk(list, live, ptr, size, base, brk, m, n);
      TakeTotal(list, m, n);
      size := size[p := size[p] - n];
      var q := p + HEADER * size[p];
      LiveUnitsAdd(live, q, n);
      size := size[q := n];
      list, live := Take(list, m, n), live[q := n];
      freep, at := prevp, m - 1;
      r := q + HEADER;
    }

    /** The assignments of `free`. */
    method Relink(bp: int, p: int, ghost s: seq<Block>, ghost k: nat, ghost b: Block)
      requires Between(s, k, b) && s[k].addr == p && b.addr == bp && bp in size && size[bp] == b.units && bp != p
      requires Placed(s, k, b, ptr, size)
      modifies this`ptr, this`size
      ensures ptr == FreePtr(s, k, b, old(ptr)) && size == FreeSize(s, k, b, old(size))
    {
      if bp + HEADER * size[bp] == ptr[p] {
        size, ptr := size[bp := size[bp] + size[ptr[p]]], ptr[bp := ptr[ptr[p]]];
      } else {
        ptr := ptr[bp := ptr[p]];
      }
      assert size == old(size)[bp := Grown(s, k, b).units];
      if p + HEADER * size[p] == bp {
        size, ptr := size[p := size[p] + size[bp]], ptr[p := ptr[bp]];
      } else {
        ptr := ptr[p := bp];
      }
    }
  }

  /** The `ptr` fields after `free` has put `b` back at position `k`. */
  ghost function FreePtr(s: seq<Block>, k: nat, b: Block, ptr: map<int, int>): map<int, int>
    requires k < |s|
  {
    var next := Head(Rest(s, k, b), s[0].addr);
    ptr[b.addr := next][s[k].addr := if s[k].End() == b.addr then next else b.addr]
  }

  /** The `size` fields after `free` has put `b` back at position `k`. */
  ghost function FreeSize(s: seq<Block>, k: nat, b: Block, size: map<int, nat>): map<int, nat>
    requires k < |s|
  {
    var size1 := size[b.addr := Grown(s, k, b).units];
    if s[k].End() == b.addr then size1[s[k].addr := s[k].units + Grown(s, k, b).units] else size1
  }

  lemma {:induction false} LiveBlock(s: seq<Block>, live: map<int, nat>, ptr: map<int, int>, size: map<int, nat>, base: int, brk: int, a: int)
    requires Heap(s, live, ptr, size, base, brk) && a in live
    ensures ListOk(s, base, brk) && Chain(s, ptr, size, base)
    ensures base + HEADER <= a && live[a] > 0 && Block(a, live[a]).End() <= brk && a in size && size[a] == live[a]
    ensures forall i :: 0 <= i < |s| ==> Disjoint(Block(a, live[a]), s[i]) && s[i].addr != a
  {
    assert HeapBody(0, s, live, ptr, size, base, brk);
    forall i | 0 <= i < |s| ensures Disjoint(Block(a, live[a]), s[i]) && s[i].addr != a {
      assert i > 0 ==> s[i].units > 0;
    }
  }

  lemma {:induction false} ChainAfterFree(s: seq<Block>, k: nat, b: Block, ptr: map<int, int>, size: map<int, nat>)
    requires |s| > 0 && Chain(s, ptr, size, s[0].addr) && Sorted(s) && Between(s, k, b) && s[k].addr < b.addr
    requires forall i :: 0 <= i < |s| ==> s[i].addr != b.addr
    ensures Chain(Insert(s, k, b), FreePtr(s, k, b, ptr), FreeSize(s, k, b, size), s[0].addr)
  {
    if s[k].End() == b.addr {
      ChainExtend(s, k, b, ptr, size, s[0].addr);
    } else {
      ChainInsert(s, k, b, ptr, size, s[0].addr);
    }
  }

  /** Everything `free` must keep, and what its assignments rely on. */
  lemma {:induction false} FreeOk(s: seq<Block>, live: map<int, nat>, ptr: map<int, int>, size: map<int, nat>, base: int, brk: int,
                                  k: nat, b: Block)
    requires Heap(s, live, ptr, size, base, brk) && b.addr in live && live[b.addr] == b.units && Before(s, k, b.addr)
    ensures Between(s, k, b) && Placed(s, k, b, ptr, size)
    ensures Heap(Insert(s, k, b), live - {b.addr}, FreePtr(s, k, b, ptr), FreeSize(s, k, b, size), base, brk)
    ensures k < |Insert(s, k, b)| && Insert(s, k, b)[k].addr == s[k].addr
  {
    LiveBlock(s, live, ptr, size, base, brk, b.addr);
    BetweenHolds(s, k, b, base, brk);
    Neighbours(s, k, b, ptr, size);
    InsertListOk(s, k, b, base, brk);
    ChainAfterFree(s, k, b, ptr, size);
    LiveAfterInsert(live, s, ptr, size, base, brk, k, b, FreeSize(s, k, b, size));
  }

  /** What the stored fields say about the blocks on either side of the place for `b`. */
  ghost predicate Placed(s: seq<Block>, k: nat, b: Block, ptr: map<int, int>, size: map<int, nat>)
    requires k < |s|
  {
    var p := s[k].addr;
    && p in ptr && p in size && size[p] == s[k].units
    && (b.End() == ptr[p] <==> JoinsNext(s, k, b))
    && (if JoinsNext(s, k, b) then
          ptr[p] in ptr && ptr[p] in size && size[ptr[p]] == s[k + 1].units && ptr[ptr[p]] == Head(Rest(s, k, b), s[0].addr)
        else ptr[p] == Head(Rest(s, k, b), s[0].addr))
  }

  lemma {:induction false} Neighbours(s: seq<Block>, k: nat, b: Block, ptr: map<int, int>, size: map<int, nat>)
    requires |s| > 0 && Sorted(s) && Chain(s, ptr, size, s[0].addr) && Between(s, k, b) && s[0].addr < b.addr
    ensures Placed(s, k, b, ptr, size)
  {
    ChainAt(s, k, ptr, size, s[0].addr);
    if k + 1 < |s| {
      ChainAt(s, k + 1, ptr, size, s[0].addr);
    }
  }

  /** Freeing a live block leaves the others live and apart from the new list. */
  lemma {:induction false} LiveAfterInsert(live: map<int, nat>, s: seq<Block>, ptr: map<int, int>, size: map<int, nat>, base: int, brk: int,
                                           k: nat, b: Block, size': map<int, nat>)
    requires Heap(s, live, ptr, size, base, brk) && Between(s, k, b)
    requires b.addr in live && live[b.addr] == b.units
    requires forall a :: a in size && a != b.addr && a != s[k].addr ==> a in size' && size'[a] == size[a]
    ensures LiveOk(live - {b.addr}, Insert(s, k, b), size', base, brk)
  {
    assert HeapBody(0, s, live, ptr, size, base, brk);
    var live' := live - {b.addr};
    forall a, i | a in live' && 0 <= i < |Insert(s, k, b)| ensures Disjoint(Block(a, live'[a]), Insert(s, k, b)[i]) {
      InsertDisjoint(s, k, b, Block(a, live[a]), i);
    }
    forall a | a in live' ensures a != s[k].addr {
      assert Disjoint(Block(a, live[a]), s[k]);
    }
  }

  /** Position `d` steps after `at` on a circle of `n`. */
  function Pos(at: nat, d: nat, n: nat): nat
    requires at < n && d <= n
    ensures Pos(at, d, n) < n
  {
    if at + d < n then at + d else at + d - n
  }

  lemma {:induction false} NextOf(s: seq<Block>, live: map<int, nat>, ptr: map<int, int>, size: map<int, nat>, base: int, brk: int, i: nat)
    requires Heap(s, live, ptr, size, base, brk) && i < |s|
    ensures s[i].addr in ptr && ptr[s[i].addr] == s[if i + 1 < |s| then i + 1 else 0].addr
    ensures s[i].addr in size && size[s[i].addr] == s[i].units && s[0].units == 0 && s[i].addr >= base
    ensures forall j :: 0 <= j < |s| && j != i ==> s[j].addr != s[i].addr
  {
    assert HeapBody(0, s, live, ptr, size, base, brk);
    ChainAt(s, i, ptr, size, base);
  }

  /** Steps from the successor of `at` to `g`. */
  function Ahead(at: nat, g: nat, n: nat): int {
    if g > at then g - at - 1 else g - at - 1 + n
  }

  /** The first `d` blocks after `at` have fewer than `n` units. */
  ghost predicate SmallSoFar(s: seq<Block>, at: nat, d: nat, n: nat) {
    forall g :: 0 <= g < |s| && Ahead(at, g, |s|) < d ==> s[g].units < n
  }

  /** A walk around the whole circle has seen every block. */
  lemma {:induction false} WalkStep(s: seq<Block>, at: nat, d: nat, n: nat)
    requires at < |s| && d < |s| && SmallSoFar(s, at, d, n) && s[Pos(at, d + 1, |s|)].units < n
    ensures SmallSoFar(s, at, d + 1, n)
    ensures Pos(at, d + 1, |s|) == at <==> d + 1 == |s|
    ensures d + 1 == |s| ==> Short(s, n)
  {
    assert d + 1 == |s| ==> ShortBody(0, s, n);
  }

  lemma {:induction false} InsertBig(s: seq<Block>, r: seq<Block>, a: int, n: nat, nu: nat)
    requires exists k: nat :: Before(s, k, a) && r == Insert(s, k, Block(a, n))
    ensures nu <= n ==> !Short(r, nu)
  {
    var k: nat :| Before(s, k, a) && r == Insert(s, k, Block(a, n));
    assert r[if s[k].End() == a then k else k + 1].units >= n;
    assert nu <= n ==> !ShortBody(0, r, nu);
  }

  lemma {:induction false} StartOk(ptr: map<int, int>, size: map<int, nat>, base: int, brk: int)
    requires base in ptr && ptr[base] == base && base in size && size[base] == 0
    ensures Heap([Block(base, 0)], map[], ptr, size, base, brk) && Total([Block(base, 0)]) == 0 && LiveUnits(map[]) == 0
  {
    var s := [Block(base, 0)];
    assert s[1..] == [] && Chain(s[1..], ptr, size, base);
    assert Chain(s, ptr, size, base) && ListOk(s, base, brk);
    assert LiveOk(map[], s, size, base, brk);
    assert s[..0] == [];
  }

  lemma {:induction false} BreakOk(s: seq<Block>, live: map<int, nat>, ptr: map<int, int>, size: map<int, nat>, base: int, brk: int, brk': int)
    requires Heap(s, live, ptr, size, base, brk) && brk <= brk'
    ensures Heap(s, live, ptr, size, base, brk')
  {
    assert HeapBody(0, s, live, ptr, size, base, brk);
  }

  /** New memory from `sbrk` is apart from everything below the old break. */
  lemma {:induction false} GrantOk(s: seq<Block>, live: map<int, nat>, ptr: map<int, int>, size: map<int, nat>, base: int,
                                   a: int, n: nat, brk: int)
    requires Heap(s, live, ptr, size, base, a) && 0 < n && base + HEADER <= a && a + HEADER * n == brk
    ensures a !in live && Heap(s, live[a := n], ptr, size[a := n], base, brk)
  {
    assert HeapBody(0, s, live, ptr, size, base, a);
    forall i | 0 <= i < |s| ensures s[i].addr < a && s[i].End() <= a {}
    ChainFrame(s, ptr, size, ptr, size[a := n], base);
    LiveGrant(s, live, size, base, a, n, brk);
    var live', size' := live[a := n], size[a := n];
    assert forall fold: nat :: HeapBody(fold, s, live', ptr, size', base, brk);
  }

  lemma {:induction false} LiveGrant(s: seq<Block>, live: map<int, nat>, size: map<int, nat>, base: int, a: int, n: nat, brk: int)
    requires LiveOk(live, s, size, base, a) && 0 < n && base + HEADER <= a && a + HEADER * n == brk
    requires forall i :: 0 <= i < |s| ==> s[i].End() <= a
    ensures a !in live && LiveOk(live[a := n], s, size[a := n], base, brk)
  {
    forall c | c in live ensures c != a && Block(c, live[c]).End() <= a {}
  }

  /** The live blocks, one more of them, and a list that covers nothing it did not cover before. */
  lemma {:induction false} LiveAdd(live: map<int, nat>, s: seq<Block>, r: seq<Block>, size: map<int, nat>, size': map<int, nat>,
                                   base: int, brk: int, m: nat, x: Block)
    requires LiveOk(live, s, size, base, brk) && m < |s| && x.units > 0 && base + HEADER <= x.addr && x.End() <= brk
    requires s[m].addr <= x.addr && x.End() <= s[m].End()
    requires forall i :: 0 <= i < |r| ==> Disjoint(x, r[i]) && exists j :: 0 <= j < |s| && Within(r[i], s[j])
    requires x.addr in size' && size'[x.addr] == x.units
    requires forall a :: a in size && a != x.addr && a != s[m].addr ==> a in size' && size'[a] == size[a]
    ensures x.addr !in live && LiveOk(live[x.addr := x.units], r, size', base, brk)
  {
    forall a | a in live ensures Disjoint(Block(a, live[a]), x) && a != x.addr && a != s[m].addr {
      assert Disjoint(Block(a, live[a]), s[m]);
    }
    forall a, i | a in live && 0 <= i < |r| ensures Disjoint(Block(a, live[a]), r[i]) {
      var j :| 0 <= j < |s| && Within(r[i], s[j]);
      assert Disjoint(Block(a, live[a]), s[j]);
    }
  }

  predicate Within(x: Block, y: Block) {
    y.addr <= x.addr && x.End() <= y.End()
  }

  /** Handing out a whole block. */
  lemma {:induction false} TakeWholeOk(s: seq<Block>, live: map<int, nat>, ptr: map<int, int>, size: map<int, nat>, base: int, brk: int, m: nat)
    requires Heap(s, live, ptr, size, base, brk) && 0 < m < |s| && s[m].addr in ptr
    ensures 0 < base ==> s[m - 1].addr != 0
    ensures s[m].addr !in live && base < s[m].addr && m - 1 < |Take(s, m, s[m].units)| && Take(s, m, s[m].units)[m - 1] == s[m - 1]
    ensures Heap(Take(s, m, s[m].units), live[s[m].addr := s[m].units], ptr[s[m - 1].addr := ptr[s[m].addr]], size, base, brk)
  {
    assert HeapBody(0, s, live, ptr, size, base, brk);
    var r := Take(s, m, s[m].units);
    ChainAt(s, m, ptr, size, base);
    ChainRemove(s, m, ptr, size, base);
    WholeList(s, m, base, brk);
    LiveAdd(live, s, r, size, size, base, brk, m, s[m]);
  }

  lemma {:induction false} WholeList(s: seq<Block>, m: nat, base: int, brk: int)
    requires ListOk(s, base, brk) && 0 < m < |s|
    ensures
      var r := s[..m] + s[m + 1..];
      ListOk(r, base, brk) && forall i :: 0 <= i < |r| ==> Disjoint(s[m], r[i]) && exists j :: 0 <= j < |s| && Within(r[i], s[j])
  {
  }

  /** Handing out the tail of a block. */
  lemma {:induction false} TakeTailOk(s: seq<Block>, live: map<int, nat>, ptr: map<int, int>, size: map<int, nat>, base: int, brk: int,
                                      m: nat, n: nat)
    requires Heap(s, live, ptr, size, base, brk) && 0 < m < |s| && 0 < n < s[m].units
    ensures 0 < base ==> s[m - 1].addr != 0
    ensures
      var shrunk := Block(s[m].addr, s[m].units - n);
      && shrunk.End() !in live && base < shrunk.End()
      && Heap(Take(s, m, n), live[shrunk.End() := n], ptr, size[s[m].addr := shrunk.units][shrunk.End() := n], base, brk)
  {
    assert HeapBody(0, s, live, ptr, size, base, brk);
    var shrunk := Block(s[m].addr, s[m].units - n);
    ChainShrink(s, m, n, ptr, size, base);
    TailList(s, m, n, base, brk);
    LiveAdd(live, s, s[m := shrunk], size, size[s[m].addr := shrunk.units][shrunk.End() := n], base, brk, m, Block(shrunk.End(), n));
  }

  lemma {:induction false} TailList(s: seq<Block>, m: nat, n: nat, base: int, brk: int)
    requires ListOk(s, base, brk) && 0 < m < |s| && 0 < n < s[m].units
    ensures
      var shrunk := Block(s[m].addr, s[m].units - n);
      var r := s[m := shrunk];
      ListOk(r, base, brk) && forall i :: 0 <= i < |r| ==> Disjoint(Block(shrunk.End(), n), r[i]) && exists j :: 0 <= j < |s| && Within(r[i], s[j])
  {
  }

  lemma {:induction false} NextAt(s: seq<Block>, i: nat, ptr: map<int, int>, size: map<int, nat>)
    requires i < |s| && Chain(s, ptr, size, s[0].addr)
    ensures s[i].addr in ptr && ptr[s[i].addr] == s[if i + 1 < |s| then i + 1 else 0].addr
  {
    ChainAt(s, i, ptr, size, s[0].addr);
  }

  /** At position `i`, `free` leaves its loop by the inner test exactly when it stands at the end and at the place. */
  lemma {:induction false} WalkOn(s: seq<Block>, i: nat, k: nat, bp: int)
    requires Sorted(s) && i < |s| && Before(s, k, bp) && s[0].addr < bp
    ensures
      var p, next := s[i].addr, s[if i + 1 < |s| then i + 1 else 0].addr;
      && (p >= next && (bp > p || bp < next) <==> i == k == |s| - 1)
      && (bp > p && bp < next <==> i == k && i + 1 < |s|)
  {
  }
}
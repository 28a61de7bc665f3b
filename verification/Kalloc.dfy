/** The physical page allocator of kalloc.c: free frames chained through their own first words. */
module Kalloc {

  const PGSIZE := 4096
  const KERNBASE := 0x8000_0000
  const PHYSTOP := 0xE00_0000
  const NWORDS := PGSIZE / 4          // words of a page

  /** PGROUNDUP, in pages. */
  function PagesUp(n: nat): nat { (n + PGSIZE - 1) / PGSIZE }

  type Page = p: seq<nat> | |p| == NWORDS witness seq(NWORDS, _ => 0)

  const ZeroPage: Page := seq(NWORDS, _ => 0)
  const JunkPage: Page := seq(NWORDS, _ => 0x0101_0101)

  /** Kernel virtual address of a frame. */
  function Ptr(f: nat): nat { KERNBASE + PGSIZE * f }

  /** Pointer to the page behind the `k`-th of a list. */
  function Next(free: seq<nat>, k: nat): nat {
    if k + 1 < |free| then Ptr(free[k + 1]) else 0
  }

  /** The free list is exactly `free`, in order, without repetition, within the frames from `lo` on. */
  ghost predicate Linked(mem: seq<Page>, head: nat, free: seq<nat>, lo: nat) {
    && 0 < lo && |mem| == PHYSTOP / PGSIZE
    && head == (if free == [] then 0 else Ptr(free[0]))
    && (forall k :: 0 <= k < |free| ==> lo <= free[k] < |mem|)
    && (forall k, l :: 0 <= k < l < |free| ==> free[k] != free[l])
    && (forall k {:trigger Next(free, k)} :: 0 <= k < |free| ==> mem[free[k]][0] == Next(free, k))
  }

  lemma {:induction false} LinkedPop(mem: seq<Page>, head: nat, free: seq<nat>, lo: nat)
    requires Linked(mem, head, free, lo) && free != []
    ensures Linked(mem, mem[free[0]][0], free[1..], lo) && free[0] !in free[1..]
  {
    assert Next(free, 0) == mem[free[0]][0];
    forall k | 0 <= k < |free[1..]| ensures mem[free[1..][k]][0] == Next(free[1..], k) {
      assert Next(free, k + 1) == Next(free[1..], k);
    }
  }

  lemma {:induction false} LinkedPush(mem: seq<Page>, head: nat, free: seq<nat>, lo: nat, f: nat, page: Page)
    requires Linked(mem, head, free, lo) && lo <= f < |mem| && f !in free && page[0] == head
    ensures Linked(mem[f := page], Ptr(f), [f] + free, lo)
  {
    var mem', free' := mem[f := page], [f] + free;
    forall k | 0 <= k < |free'| ensures mem'[free'[k]][0] == Next(free', k) {
      if k > 0 {
        assert free'[k] == free[k - 1] && free'[k] != f && Next(free', k) == Next(free, k - 1);
      }
    }
  }

  /** Frames outside the list may change freely. */
  lemma {:induction false} LinkedFrame(mem: seq<Page>, head: nat, free: seq<nat>, lo: nat, f: nat, page: Page)
    requires Linked(mem, head, free, lo) && f < |mem| && f !in free
    ensures Linked(mem[f := page], head, free, lo)
  {
  }

  /** The pointer found `n` links behind `p`. */
  function Follow(mem: seq<Page>, p: nat, n: nat): nat
    decreases n
  {
    if n == 0 || p < KERNBASE || (p - KERNBASE) / PGSIZE >= |mem| then p else Follow(mem, mem[(p - KERNBASE) / PGSIZE][0], n - 1)
  }

  /** A free list ends, behind as many links as it has frames. */
  lemma {:induction false} ListEnds(mem: seq<Page>, head: nat, free: seq<nat>, lo: nat)
    requires Linked(mem, head, free, lo)
    ensures Follow(mem, head, |free|) == 0
    decreases |free|
  {
    if free != [] {
      LinkedPop(mem, head, free, lo);
      ListEnds(mem, mem[free[0]][0], free[1..], lo);
    }
  }

  /** Freeing the frame at `k` a second time closes a circle: from any frame up to it, the list never ends. */
  lemma {:induction false} Circle(mem: seq<Page>, head: nat, free: seq<nat>, lo: nat, k: nat, page: Page, j: nat, n: nat)
    requires Linked(mem, head, free, lo) && j <= k < |free| && page[0] == head
    ensures Follow(mem[free[k] := page], Ptr(free[j]), n) != 0
    decreases n
  {
    var mem' := mem[free[k] := page];
    if n > 0 {
      assert (Ptr(free[j]) - KERNBASE) / PGSIZE == free[j];
      if j < k {
        assert mem[free[j]][0] == Next(free, j);
        Circle(mem, head, free, lo, k, page, j + 1, n - 1);
      } else {
        Circle(mem, head, free, lo, k, page, 0, n - 1);
      }
    }
  }

  class Memory {
    const lo: nat                    // first frame behind the kernel
    var mem: seq<Page>               // all of physical memory
    var freelist: nat                // pointer to the first free page, or 0
    ghost var free: seq<nat>

    ghost predicate Valid()
      reads this
    {
      Linked(mem, freelist, free, lo)
    }

    /** kinit: no page is free until freerange() has been called. */
    constructor (mem: seq<Page>, lo: nat)
      requires 0 < lo && |mem| == PHYSTOP / PGSIZE
      ensures Valid() && free == [] && this.mem == mem && this.lo == lo
    {
      this.mem, this.lo, this.freelist, this.free := mem, lo, 0, [];
    }

    /** kalloc(): a free frame, or 0. */
    method Kalloc() returns (f: nat)
      requires Valid()
      modifies this`freelist, this`free
      ensures Valid() && (f == 0 <==> old(free) == [])
      ensures if f == 0 then free == old(free) else old(free) == [f] + free && f !in free && lo <= f < |mem|
    {
      var r := freelist;
      f := 0;
      if r != 0 {
        LinkedPop(mem, freelist, free, lo);
        f := (r - KERNBASE) / PGSIZE;
        freelist, free := mem[f][0], free[1..];
      }
    }

    /** kfree(); `false` is its panic. The free list stays one, exactly if the page is not on it; else it never ends. */
    method Kfree(f: nat) returns (ok: bool)
      requires Valid()
      modifies this
      ensures ok <==> lo <= f < |mem|
      ensures ok ==> |mem| == |old(mem)| && mem == old(mem)[f := mem[f]] && forall k :: 1 <= k < NWORDS ==> mem[f][k] == 0x0101_0101
      ensures ok && f !in old(free) ==> Valid() && free == [f] + old(free)
      ensures ok && f in old(free) ==> forall n: nat :: Follow(mem, freelist, n) != 0
      ensures !ok ==> Valid() && free == old(free) && mem == old(mem)
    {
      if f < lo || f >= |mem| {
        return false;
      }
      var page: Page := JunkPage[0 := freelist];
      if f !in free {
        LinkedPush(mem, freelist, free, lo, f, page);
        free := [f] + free;
      } else {
        ghost var k: nat :| k < |free| && free[k] == f;
        ghost var mem' := mem[f := page];
        forall n: nat ensures Follow(mem', Ptr(f), n) != 0 { Circle(mem, freelist, free, lo, k, page, k, n); }
      }
      mem, freelist := mem[f := page], Ptr(f);
      ok := true;
    }

    /** freerange() of the frames from `a` up to `b`: each is now free, once. */
    method Freerange(a: nat, b: nat)
      requires Valid() && lo <= a <= b <= |mem| && forall f :: a <= f < b ==> f !in free
      modifies this
      ensures Valid() && |mem| == |old(mem)| && forall f :: f in free <==> f in old(free) || a <= f < b
      ensures forall f :: 0 <= f < |mem| && !(a <= f < b) ==> mem[f] == old(mem)[f]
    {
      var f := a;
      while f < b
        invariant a <= f <= b && Valid() && |mem| == |old(mem)| && forall g :: g in free <==> g in old(free) || a <= g < f
        invariant forall g :: 0 <= g < |mem| && !(a <= g < f) ==> mem[g] == old(mem)[g]
      {
        var ok := Kfree(f);
        f := f + 1;
      }
    }

    /** A page that is not on the free list is changed. */
    method Put(f: nat, page: Page)
      requires Valid() && f < |mem| && f !in free
      modifies this`mem
      ensures Valid() && mem == old(mem)[f := page]
    {
      LinkedFrame(mem, freelist, free, lo, f, page);
      mem := mem[f := page];
    }
  }
}

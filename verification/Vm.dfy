/** Page table operations of vm.c over the frames of kalloc.c. Each takes the address space that the directory stands for
    and returns the one that it then stands for. */
module Vm {
  import opened Kalloc
  import opened VmSpace

  /** walkpgdir(): the page table for page `v`, or 0. */
  method Walkpgdir(m: Memory, pd: nat, v: nat, alloc: bool, ghost s: Space) returns (pt: nat, ghost s': Space)
    requires m.Valid() && Good(m.mem, m.free, m.lo, s) && pd == s.pd && v < NPAGES
    modifies m
    ensures m.Valid() && Good(m.mem, m.free, m.lo, s') && Step(old(m.mem), old(m.free), s, m.mem, m.free, s', {})
    ensures pt == 0 <==> v / NENTRIES !in s.pts && (!alloc || old(m.free) == [])
    ensures v / NENTRIES in s.pts ==> pt == s.pts[v / NENTRIES] && s' == s && m.mem == old(m.mem) && m.free == old(m.free)
    ensures v / NENTRIES !in s.pts && (!alloc || old(m.free) == []) ==> pt == 0 && s' == s && m.mem == old(m.mem) && m.free == old(m.free)
    ensures v / NENTRIES !in s.pts && alloc && old(m.free) != [] ==>
      pt == old(m.free)[0] && pt != 0 && s' == s.(pts := s.pts[v / NENTRIES := pt]) && m.free == old(m.free)[1..]
  {
    var i := v / NENTRIES;
    s' := s;
    NoStep(m.mem, m.free, s);
    DirEntry(m.mem, m.free, m.lo, s, i);
    var pde := m.mem[pd][i];
    if Present(pde) {
      pt := Frame(pde);
    } else if !alloc {
      pt := 0;
    } else {
      pt := m.Kalloc();
      if pt != 0 {
        StepTable(m.mem, old(m.free), m.lo, s, i);
        s' := s.(pts := s.pts[i := pt]);
        m.Put(pt, ZeroPage);
        m.Put(pd, m.mem[pd][i := Entry(pt, PTE_W + PTE_U)]);
      }
    }
  }

  datatype Outcome = Done | NoMemory | Panicked

  /** One round of mappages(). */
  method MapPage(m: Memory, pd: nat, v: nat, f: nat, perm: nat, ghost s: Space) returns (r: Outcome, ghost s': Space)
    requires m.Valid() && Good(m.mem, m.free, m.lo, s) && pd == s.pd && v < NPAGES && perm < PGSIZE && Takeable(m.free, m.lo, |m.mem|, s, v, f)
    modifies m
    ensures m.Valid() && Good(m.mem, m.free, m.lo, s') && s'.pd == s.pd
    ensures r == Panicked <==> v in s.pages
    ensures r == NoMemory <==> v / NENTRIES !in s.pts && old(m.free) == []
    ensures r != Done ==> s' == s && m.mem == old(m.mem) && m.free == old(m.free)
    ensures |m.mem| == |old(m.mem)| && (v < KERNPAGE ==> m.mem[f] == old(m.mem)[f])
    ensures r == Done ==> s'.pages == s.pages[v := Entry(f, perm)] && Step(old(m.mem), old(m.free), s, m.mem, m.free, s', Brings(v, f))
    ensures r == Done ==> s'.pts.Keys == s.pts.Keys + {v / NENTRIES} && |old(m.free)| == |m.free| + if v / NENTRIES in s.pts then 0 else 1
  {
    HasTable(m.mem, m.free, m.lo, s);
    var pt;
    pt, s' := Walkpgdir(m, pd, v, true, s);
    if pt == 0 {
      return NoMemory, s';
    }
    TableEntry(m.mem, m.free, m.lo, s', v);
    if v < KERNPAGE {
      StepLeaves(old(m.mem), old(m.free), s, m.mem, m.free, s', {}, f);
    }
    if Present(m.mem[pt][v % NENTRIES]) {
      return Panicked, s';
    }
    ghost var mem1, free1, s1 := m.mem, m.free, s';
    StillTakeable(old(m.mem), old(m.free), s, mem1, free1, s1, {}, m.lo, |m.mem|, v, f);
    assert v < KERNPAGE ==> pt != f;
    StepMap(mem1, free1, m.lo, s1, v, f, perm);
    m.Put(pt, m.mem[pt][v % NENTRIES := Entry(f, perm)]);
    s' := s1.(pages := s1.pages[v := Entry(f, perm)]);
    StepTwice(old(m.mem), old(m.free), s, mem1, free1, s1, m.mem, m.free, s', {}, Brings(v, f));
    assert {} + Brings(v, f) == Brings(v, f);
    r := Done;
  }

  /** The loop of mappages(): pages `a` up to `last` are mapped to frames from `f` on, `n` of them with success. */
  method MapAll(m: Memory, pd: nat, a: nat, last: nat, f: nat, perm: nat, ghost s: Space) returns (r: Outcome, n: nat, ghost s': Space)
    requires m.Valid() && Good(m.mem, m.free, m.lo, s) && pd == s.pd && perm < PGSIZE && a <= last < NPAGES
    requires TakeableAll(m.free, m.lo, |m.mem|, s, a, last + 1 - a, f)
    modifies m
    ensures m.Valid() && Good(m.mem, m.free, m.lo, s') && s'.pd == s.pd
    ensures a + n <= last + 1 && (r == Done <==> a + n == last + 1) && (r == Panicked ==> a + n in s.pages)
    ensures MappedSoFar(s, old(m.mem), old(m.free), s', m.mem, m.free, a, n, last + 1 - a, f, perm)
    ensures r == NoMemory ==> m.free == [] && (a + n) / NENTRIES !in s'.pts
    ensures n == 0 ==> s' == s && m.mem == old(m.mem) && m.free == old(m.free)
  {
    n, s' := 0, s;
    NothingMapped(s, m.mem, m.free, a, last + 1 - a, f, perm);
    while true
      invariant 0 <= n && a + n <= last && m.Valid() && Good(m.mem, m.free, m.lo, s') && s'.pd == s.pd
      invariant MappedSoFar(s, old(m.mem), old(m.free), s', m.mem, m.free, a, n, last + 1 - a, f, perm)
      invariant n == 0 ==> s' == s && m.mem == old(m.mem) && m.free == old(m.free)
      decreases last - a - n
    {
      r, s' := MapNext(m, pd, a, n, last + 1 - a, f, perm, s, s', old(m.mem), old(m.free));
      if r != Done {
        return;
      }
      n := n + 1;
      if a + n - 1 == last {
        return;
      }
    }
  }

  /** A round of that loop, as a step from the state that the loop began in. */
  method MapNext(m: Memory, pd: nat, a: nat, n: nat, count: nat, f: nat, perm: nat, ghost s0: Space, ghost s: Space, ghost mem0: seq<Page>, ghost free0: seq<nat>)
      returns (r: Outcome, ghost s': Space)
    requires m.Valid() && Good(m.mem, m.free, m.lo, s) && pd == s.pd && n < count && a + n < NPAGES && perm < PGSIZE
    requires TakeableAll(free0, m.lo, |m.mem|, s0, a, count, f) && MappedSoFar(s0, mem0, free0, s, m.mem, m.free, a, n, count, f, perm)
    modifies m
    ensures m.Valid() && Good(m.mem, m.free, m.lo, s') && s'.pd == s.pd
    ensures r == Done ==> MappedSoFar(s0, mem0, free0, s', m.mem, m.free, a, n + 1, count, f, perm)
    ensures r != Done ==> s' == s && m.mem == old(m.mem) && m.free == old(m.free)
    ensures r == Panicked ==> a + n in s0.pages
    ensures r == NoMemory ==> m.free == [] && (a + n) / NENTRIES !in s.pts
  {
    ghost var mem1, free1 := m.mem, m.free;
    MapsNext(s0, mem0, free0, s, mem1, free1, m.lo, a, n, count, f, perm);
    r, s' := MapPage(m, pd, a + n, f + n, perm, s);
    if r == Done {
      MappedOneMore(s0, mem0, free0, s, mem1, free1, s', m.mem, m.free, m.lo, a, n, count, f, perm);
    }
  }

  /** mappages() of the pages from that of the first byte to that of the last. */
  method Mappages(m: Memory, pd: nat, va: nat, size: nat, f: nat, perm: nat, ghost s: Space) returns (r: Outcome, ghost n: nat, ghost s': Space)
    requires m.Valid() && Good(m.mem, m.free, m.lo, s) && pd == s.pd && perm < PGSIZE && 0 < size && va + size <= 0x1_0000_0000
    requires TakeableAll(m.free, m.lo, |m.mem|, s, va / PGSIZE, (va + size - 1) / PGSIZE + 1 - va / PGSIZE, f)
    modifies m
    ensures m.Valid() && Good(m.mem, m.free, m.lo, s') && s'.pd == s.pd
    ensures va / PGSIZE + n <= (va + size - 1) / PGSIZE + 1 && (r == Done <==> va / PGSIZE + n == (va + size - 1) / PGSIZE + 1)
    ensures r == Panicked ==> va / PGSIZE + n in s.pages
    ensures MappedSoFar(s, old(m.mem), old(m.free), s', m.mem, m.free, va / PGSIZE, n, (va + size - 1) / PGSIZE + 1 - va / PGSIZE, f, perm)
    ensures r == NoMemory ==> m.free == [] && (va / PGSIZE + n) / NENTRIES !in s'.pts
    ensures n == 0 ==> s' == s && m.mem == old(m.mem) && m.free == old(m.free)
  {
    r, n, s' := MapAll(m, pd, va / PGSIZE, (va + size - 1) / PGSIZE, f, perm, s);
  }

  /** A user page that is present is freed and its entry cleared. */
  method UnmapPage(m: Memory, pt: nat, v: nat, ghost s: Space) returns (ok: bool, ghost s': Space)
    requires m.Valid() && Good(m.mem, m.free, m.lo, s) && v in s.pages && v < KERNPAGE && v / NENTRIES in s.pts && pt == s.pts[v / NENTRIES]
    modifies m
    ensures ok && s' == s.(pages := s.pages - {v})
    ensures m.Valid() && Good(m.mem, m.free, m.lo, s') && Step(old(m.mem), old(m.free), s, m.mem, m.free, s', {})
  {
    TableEntry(m.mem, m.free, m.lo, s, v);
    var f := Frame(m.mem[pt][v % NENTRIES]);
    Located(m.mem, m.free, m.lo, s, v);
    if f == 0 {
      return false, s;
    }
    ok := m.Kfree(f);
    StepUnmap(old(m.mem), old(m.free), m.lo, s, v, m.mem[f]);
    m.Put(pt, m.mem[pt][v % NENTRIES := 0]);
    s' := s.(pages := s.pages - {v});
  }

  /** One round of deallocuvm() at page `a`, after those from `first` on; `next` is the page to go on with. */
  method UnmapNext(m: Memory, pd: nat, first: nat, a: nat, ghost s0: Space, ghost s: Space, ghost mem0: seq<Page>, ghost free0: seq<nat>)
      returns (next: nat, ghost s': Space)
    requires m.Valid() && Good(m.mem, m.free, m.lo, s) && pd == s.pd && first <= a < KERNPAGE
    requires s == s0.(pages := Without(s0.pages, first, a)) && Step(mem0, free0, s0, m.mem, m.free, s, {})
    requires forall x :: x in s0.pages ==> x / NENTRIES in s0.pts
    modifies m
    ensures a < next <= KERNPAGE && forall b :: a < b <= next ==> s' == s0.(pages := Without(s0.pages, first, b))
    ensures m.Valid() && Good(m.mem, m.free, m.lo, s') && Step(mem0, free0, s0, m.mem, m.free, s', {})
  {
    var pt;
    pt, s' := Walkpgdir(m, pd, a, false, s);
    WithoutMore(s0.pages, first, a);
    next := a;
    if pt == 0 {
      WithoutSkip(s0.pages, s0.pts, first, a);
      next := (a / NENTRIES + 1) * NENTRIES - 1;
    } else {
      TableEntry(m.mem, m.free, m.lo, s, a);
      if Present(m.mem[pt][a % NENTRIES]) {
        ghost var mem1, free1 := m.mem, m.free;
        var ok;
        ok, s' := UnmapPage(m, pt, a, s);
        StepTwice(mem0, free0, s0, mem1, free1, s, m.mem, m.free, s', {}, {});
        ghost var none: set<nat> := {};
        assert none + none == none;
      }
    }
    next := next + 1;
  }

  /** deallocuvm(): whether or not page tables are skipped, exactly the pages between the two sizes are gone. */
  method Deallocuvm(m: Memory, pd: nat, oldsz: nat, newsz: nat, ghost s: Space) returns (r: nat, ghost s': Space)
    requires m.Valid() && Good(m.mem, m.free, m.lo, s) && pd == s.pd && oldsz <= KERNBASE
    modifies m
    ensures m.Valid() && Good(m.mem, m.free, m.lo, s') && Step(old(m.mem), old(m.free), s, m.mem, m.free, s', {})
    ensures newsz >= oldsz ==> r == oldsz && s' == s && m.mem == old(m.mem) && m.free == old(m.free)
    ensures newsz < oldsz ==> r == newsz && s' == s.(pages := Without(s.pages, PagesUp(newsz), PagesUp(oldsz)))
  {
    s' := s;
    NoStep(m.mem, m.free, s);
    if newsz >= oldsz {
      return oldsz, s';
    }
    HasTable(m.mem, m.free, m.lo, s);
    var first := PagesUp(newsz);
    var a := first;
    assert Without(s.pages, first, first) == s.pages;
    while a * PGSIZE < oldsz
      invariant first <= a <= KERNPAGE && m.Valid() && Good(m.mem, m.free, m.lo, s')
      invariant s' == s.(pages := Without(s.pages, first, if a * PGSIZE < oldsz then a else PagesUp(oldsz)))
      invariant Step(old(m.mem), old(m.free), s, m.mem, m.free, s', {})
      decreases KERNPAGE - a
    {
      a, s' := UnmapNext(m, pd, first, a, s, s', old(m.mem), old(m.free));
    }
    r := newsz;
  }

  /** mappages() of one user page. */
  method MapNew(m: Memory, pd: nat, v: nat, f: nat, perm: nat, ghost s: Space) returns (r: Outcome, ghost s': Space)
    requires m.Valid() && Good(m.mem, m.free, m.lo, s) && pd == s.pd && v < KERNPAGE && perm < PGSIZE && Takeable(m.free, m.lo, |m.mem|, s, v, f)
    modifies m
    ensures m.Valid() && Good(m.mem, m.free, m.lo, s') && s'.pd == s.pd && |m.mem| == |old(m.mem)| && f < |m.mem| && m.mem[f] == old(m.mem)[f]
    ensures r == Panicked ==> v in s.pages
    ensures r == NoMemory ==> m.free == [] && v / NENTRIES !in s.pts
    ensures r != Done ==> s' == s && m.mem == old(m.mem) && m.free == old(m.free)
    ensures r == Done ==>
      && v !in s.pages && s'.pages == s.pages[v := Entry(f, perm)] && Step(old(m.mem), old(m.free), s, m.mem, m.free, s', {f})
      && s'.pts.Keys == s.pts.Keys + {v / NENTRIES} && |old(m.free)| == |m.free| + if v / NENTRIES in s.pts then 0 else 1
  {
    assert v * PGSIZE / PGSIZE == v && (v * PGSIZE + PGSIZE - 1) / PGSIZE == v;
    assert TakeAt(m.free, m.lo, |m.mem|, s, v, f, f);
    ghost var n;
    r, n, s' := Mappages(m, pd, v * PGSIZE, PGSIZE, f, perm, s);
    OneMapped(s, old(m.mem), old(m.free), s', m.mem, m.free, v, n, f, perm);
  }

  /** kalloc() of a frame, filled with `page`, for user page `v`. If there is no memory for a page table the frame `f` is left over. */
  method NewPage(m: Memory, pd: nat, v: nat, perm: nat, page: Page, ghost s: Space) returns (r: Outcome, f: nat, ghost s': Space)
    requires m.Valid() && Good(m.mem, m.free, m.lo, s) && pd == s.pd && v < KERNPAGE && perm < PGSIZE
    modifies m
    ensures m.Valid() && Good(m.mem, m.free, m.lo, s') && (r == Panicked ==> v in s.pages)
    ensures r == Done ==>
      && v !in s.pages && s'.pages == s.pages[v := Entry(f, perm)] && Step(old(m.mem), old(m.free), s, m.mem, m.free, s', {})
      && f < |m.mem| && m.mem[f] == page && s'.pd == s.pd
    ensures r == NoMemory <==> |old(m.free)| < 1 + (if v / NENTRIES in s.pts then 0 else 1)
    ensures r == Done ==> s'.pts.Keys == s.pts.Keys + {v / NENTRIES} && |old(m.free)| == |m.free| + 1 + if v / NENTRIES in s.pts then 0 else 1
    ensures r == NoMemory ==> s' == s
    ensures r == NoMemory && f == 0 ==> m.mem == old(m.mem) && m.free == old(m.free)
    ensures r == NoMemory && f != 0 ==> old(m.free) == [f] + m.free && m.lo <= f < |old(m.mem)| && f !in m.free && m.mem == old(m.mem)[f := page]
  {
    HasTable(m.mem, m.free, m.lo, s);
    f := m.Kalloc();
    s' := s;
    if f == 0 {
      return NoMemory, f, s';
    }
    ghost var free1 := m.free;
    assert old(m.free)[1..] == free1;
    Float(old(m.mem), old(m.free), m.lo, s, page);
    m.Put(f, page);
    r, s' := MapNew(m, pd, v, f, perm, s);
    if r == Done {
      Absorb(old(m.mem), old(m.free), m.lo, s, page, m.mem, m.free, s');
    }
  }

  /** deallocuvm() when memory has run out, and kfree() of a frame `f` that is left over. */
  method Unwind(m: Memory, pd: nat, oldsz: nat, newsz: nat, f: nat, ghost s: Space, ghost mem0: seq<Page>, ghost free0: seq<nat>, ghost page: Page)
      returns (ghost s': Space)
    requires m.Valid() && Good(m.mem, m.free, m.lo, s) && Good(mem0, free0, m.lo, s) && pd == s.pd && newsz < oldsz <= KERNBASE
    requires f == 0 ==> m.mem == mem0 && m.free == free0
    requires f != 0 ==> free0 == [f] + m.free && m.lo <= f < |mem0| && f !in m.free && m.mem == mem0[f := page]
    modifies m
    ensures m.Valid() && Good(m.mem, m.free, m.lo, s') && Step(mem0, free0, s, m.mem, m.free, s', {})
    ensures s' == s.(pages := Without(s.pages, PagesUp(newsz), PagesUp(oldsz)))
  {
    var r;
    r, s' := Deallocuvm(m, pd, oldsz, newsz, s);
    if f != 0 {
      assert free0[1..] == old(m.free) && free0[0] == f;
      SameSize(old(m.mem), old(m.free), s, m.mem, m.free, s', {});
      Sink(mem0, free0, m.lo, s, page, m.mem, m.free, s', ZeroPage);
      ghost var mem1, free1 := m.mem, m.free;
      var ok := m.Kfree(f);
      Sink(mem0, free0, m.lo, s, page, mem1, free1, s', m.mem[f]);
    }
  }

  /** allocuvm(): the new size, or 0. When memory runs out the pages are as before, and each frame is where it was, or is a page table. */
  method Allocuvm(m: Memory, pd: nat, oldsz: nat, newsz: nat, ghost s: Space) returns (r: nat, ghost s': Space)
    requires m.Valid() && Good(m.mem, m.free, m.lo, s) && pd == s.pd
    requires forall v :: PagesUp(oldsz) <= v < PagesUp(newsz) ==> v !in s.pages
    modifies m
    ensures m.Valid() && Good(m.mem, m.free, m.lo, s') && Step(old(m.mem), old(m.free), s, m.mem, m.free, s', {})
    ensures newsz >= KERNBASE ==> r == 0 && s' == s
    ensures newsz < KERNBASE && newsz < oldsz ==> r == oldsz && s' == s
    ensures oldsz <= newsz < KERNBASE ==>
      var first, last := PagesUp(oldsz), PagesUp(newsz);
      if |old(m.free)| >= Frames(s, first, last) then r == newsz && Grown(s, old(m.free), s', m.mem, m.free, first, last)
      else r == 0 && s'.pages == s.pages
  {
    NoStep(m.mem, m.free, s);
    s' := s;
    if newsz >= KERNBASE {
      return 0, s';
    }
    if newsz < oldsz {
      return oldsz, s';
    }
    var first := PagesUp(oldsz);
    var a := first;
    GrownStart(s, m.mem, m.free, first);
    while a * PGSIZE < newsz
      invariant first <= a <= PagesUp(newsz) && m.Valid() && Good(m.mem, m.free, m.lo, s') && s'.pd == s.pd
      invariant Grown(s, old(m.free), s', m.mem, m.free, first, a)
      invariant Step(old(m.mem), old(m.free), s, m.mem, m.free, s', {})
    {
      var o;
      o, s' := GrowPage(m, pd, first, a, oldsz, newsz, s, s', old(m.mem), old(m.free));
      if o == NoMemory {
        return 0, s';
      }
      a := a + 1;
    }
    assert GrownBody(0, s, old(m.free), s', m.mem, m.free, first, a);
    r := newsz;
  }

  /** A round of the loop of allocuvm(). */
  method GrowPage(m: Memory, pd: nat, first: nat, a: nat, oldsz: nat, newsz: nat, ghost s0: Space, ghost s: Space, ghost mem0: seq<Page>, ghost free0: seq<nat>)
      returns (o: Outcome, ghost s': Space)
    requires m.Valid() && Good(m.mem, m.free, m.lo, s) && pd == s.pd && first == PagesUp(oldsz) <= a && a * PGSIZE < newsz < KERNBASE
    requires Unmapped(s0.pages, first, PagesUp(newsz) - first)
    requires Grown(s0, free0, s, m.mem, m.free, first, a) && Step(mem0, free0, s0, m.mem, m.free, s, {})
    modifies m
    ensures o != Panicked && m.Valid() && Good(m.mem, m.free, m.lo, s') && s'.pd == s.pd && Step(mem0, free0, s0, m.mem, m.free, s', {})
    ensures o == NoMemory ==> s'.pages == s0.pages && |free0| < Frames(s0, first, PagesUp(newsz))
    ensures o == Done ==> Grown(s0, free0, s', m.mem, m.free, first, a + 1)
  {
    ghost var mem1, free1 := m.mem, m.free;
    assert GrownBody(0, s0, free0, s, mem1, free1, first, a);
    var f;
    o, f, s' := NewPage(m, pd, a, PTE_W + PTE_U, ZeroPage, s);
    if o == NoMemory {
      TooFew(s0, free0, s, mem1, free1, first, a, PagesUp(newsz));
      s' := Unwind(m, pd, newsz, oldsz, f, s, mem1, free1, ZeroPage);
      ExtendsWithout(s0.pages, s.pages, first, a, PagesUp(newsz));
    } else {
      GrownMore(s0, free0, mem1, free1, s, m.mem, m.free, s', first, a, f);
    }
    StepTwice(mem0, free0, s0, mem1, free1, s, m.mem, m.free, s', {}, {});
    ghost var none: set<nat> := {};
    assert none + none == none;
  }

  /** The page tables of a space without user pages are freed; the directory still lists them. */
  method FreeTables(m: Memory, pd: nat, ghost s: Space)
    requires m.Valid() && Good(m.mem, m.free, m.lo, s) && pd == s.pd
    modifies m
    ensures m.Valid() && TablesFreed(old(m.free), m.free, s, NENTRIES) && m.lo <= pd < |m.mem| && pd !in m.free && |m.mem| == |old(m.mem)|
    ensures forall f :: 0 <= f < |m.mem| && f !in m.free ==> m.mem[f] == old(m.mem)[f]
  {
    GoodParts(m.mem, m.free, m.lo, s);
    ghost var mem1, free1 := m.mem, m.free;
    DirEntry(mem1, free1, m.lo, s, 0);
    var i := 0;
    while i < NENTRIES
      invariant 0 <= i <= NENTRIES && m.Valid() && TablesFreed(free1, m.free, s, i) && |m.mem| == |mem1| && pd !in m.free
      invariant forall f :: 0 <= f < |m.mem| && f !in m.free ==> m.mem[f] == mem1[f]
    {
      DirEntry(mem1, free1, m.lo, s, i);
      FreeTable(free1, m.free, s, m.lo, |mem1|, i);
      var pde := m.mem[pd][i];
      if Present(pde) {
        var ok := m.Kfree(Frame(pde));
      }
      i := i + 1;
    }
  }

  /** freevm(): everything that the space owned is free again, and no other frame is touched. */
  method Freevm(m: Memory, pd: nat, ghost s: Space)
    requires m.Valid() && Good(m.mem, m.free, m.lo, s) && pd == s.pd
    modifies m
    ensures m.Valid() && |m.mem| == |old(m.mem)| && forall f :: f in m.free <==> f in old(m.free) || Owned(s, f)
    ensures forall f :: 0 <= f < |m.mem| && f !in m.free ==> m.mem[f] == old(m.mem)[f]
  {
    var r;
    ghost var s1;
    r, s1 := Deallocuvm(m, pd, KERNBASE, 0, s);
    GoodParts(m.mem, m.free, m.lo, s1);
    StepParts(old(m.mem), old(m.free), s, m.mem, m.free, s1, {});
    ghost var mem1, free1 := m.mem, m.free;
    FreeTables(m, pd, s1);
    AllFreed(free1, m.free, s1);
    var ok := m.Kfree(pd);
  }

  // ---- setupkvm

  datatype Kmap = Kmap(virt: nat, physStart: nat, size: nat, perm: nat)

  const EXTMEM := 0x10_0000
  const KERNLINK := KERNBASE + EXTMEM
  const DEVSPACE := 0xFE00_0000

  /** The kernel's mappings, which are in every page table; `data` is where its data begins, on a page boundary. */
  function KmapTable(data: nat): (t: seq<Kmap>)
    requires KernelLayout(data)
    ensures forall k :: 0 <= k < |t| ==> t[k].virt % PGSIZE == 0 && t[k].size % PGSIZE == 0 && 0 < t[k].size
    ensures forall k :: 0 <= k < |t| ==> KERNBASE <= t[k].virt && t[k].virt + t[k].size <= 0x1_0000_0000 && t[k].perm < PGSIZE
    ensures forall k, l :: 0 <= k < l < |t| ==> t[k].virt + t[k].size <= t[l].virt
  {
    [ Kmap(KERNBASE, 0, EXTMEM, PTE_W),
      Kmap(KERNLINK, EXTMEM, data - KERNLINK, 0),
      Kmap(data, data - KERNBASE, PHYSTOP - (data - KERNBASE), PTE_W),
      Kmap(DEVSPACE, DEVSPACE, 0x1_0000_0000 - DEVSPACE, PTE_W) ]
  }

  predicate KernelLayout(data: nat) {
    data % PGSIZE == 0 && KERNLINK < data < KERNBASE + PHYSTOP
  }

  /** The pages of the first `k` kernel mappings. */
  ghost function KernelPages(data: nat, k: nat): map<nat, nat>
    requires KernelLayout(data) && k <= |KmapTable(data)|
  {
    if k == 0 then map[]
    else
      var t := KmapTable(data)[k - 1];
      MapRange(KernelPages(data, k - 1), t.virt / PGSIZE, t.size / PGSIZE, t.physStart / PGSIZE, t.perm)
  }

  /** First page of the `k`-th mapping, or of nothing. */
  function MapStart(data: nat, k: nat): nat
    requires KernelLayout(data)
  {
    if k < |KmapTable(data)| then KmapTable(data)[k].virt / PGSIZE else NPAGES
  }

  lemma {:induction false} MapEnd(data: nat, k: nat)
    requires KernelLayout(data) && k < |KmapTable(data)|
    ensures var t := KmapTable(data)[k]; KERNPAGE <= t.virt / PGSIZE && t.virt / PGSIZE + t.size / PGSIZE <= MapStart(data, k + 1)
    ensures var t := KmapTable(data)[k]; (t.virt + t.size - 1) / PGSIZE + 1 == t.virt / PGSIZE + t.size / PGSIZE
  {
  }

  /** Kernel mappings are above the user's and one behind the other. */
  lemma {:induction false} KernelPagesIn(data: nat, k: nat)
    requires KernelLayout(data) && k <= |KmapTable(data)|
    ensures forall v :: v in KernelPages(data, k) ==> KERNPAGE <= v < MapStart(data, k)
  {
    if k > 0 {
      var t := KmapTable(data)[k - 1];
      KernelPagesIn(data, k - 1);
      MapEnd(data, k - 1);
      var before := KernelPages(data, k - 1);
      MapRangeAt(before, t.virt / PGSIZE, t.size / PGSIZE, t.physStart / PGSIZE, t.perm);
      forall v | v in KernelPages(data, k) ensures KERNPAGE <= v < MapStart(data, k) {
        assert v in before || t.virt / PGSIZE <= v < t.virt / PGSIZE + t.size / PGSIZE;
        assert v in before ==> v < MapStart(data, k - 1) == t.virt / PGSIZE;
      }
    }
  }

  // ---- What the kernel's mappings say

  /** Bits 1 and 2 of an entry: the page may be written to, and may be used in user mode. */
  predicate Writable(e: nat) { e / 2 % 2 == 1 }

  predicate UserMay(e: nat) { e / 4 % 2 == 1 }

  /** The kernel sees all of physical memory at KERNBASE, and the devices where they are. */
  predicate InMemory(v: nat) { 0x8000_0000 <= v * PGSIZE < 0x8000_0000 + PHYSTOP }

  predicate InDevices(v: nat) { 0xFE00_0000 <= v * PGSIZE < 0x1_0000_0000 }

  /** Page `v` is mapped as a kernel page, or not at all: user code has no access to it, and the kernel's text, from 1 MB on up to
      its data, cannot be written to. */
  ghost predicate KernelPage(pages: map<nat, nat>, data: nat, v: nat) {
    && (v in pages <==> InMemory(v) || InDevices(v))
    && (v in pages ==>
          && Present(pages[v]) && Frame(pages[v]) == (if InMemory(v) then v - 0x8_0000 else v)
          && !UserMay(pages[v]) && (Writable(pages[v]) <==> !(0x8010_0000 <= v * PGSIZE < data)))
  }

  lemma {:induction false} EntryBits(f: nat, perm: nat)
    requires perm == 0 || perm == 2
    ensures Present(Entry(f, perm)) && Frame(Entry(f, perm)) == f && !UserMay(Entry(f, perm)) && (Writable(Entry(f, perm)) <==> perm == 2)
  {
  }

  /** Where the `k`-th mapping says something about page `v`. */
  lemma {:induction false} KernelPagesOne(data: nat, k: nat, v: nat)
    requires KernelLayout(data) && k < |KmapTable(data)|
    ensures
      var t, r, before := KmapTable(data)[k], KernelPages(data, k + 1), KernelPages(data, k);
      var here := t.virt <= v * PGSIZE < t.virt + t.size;
      && (v in r <==> v in before || here)
      && (v in r ==> r[v] == if here then Entry((t.physStart + (v * PGSIZE - t.virt)) / PGSIZE, t.perm) else before[v])
  {
    var t := KmapTable(data)[k];
    var a, n := t.virt / PGSIZE, t.size / PGSIZE;
    MapRangeOne(KernelPages(data, k), a, n, t.physStart / PGSIZE, t.perm, v);
    assert t.virt == a * PGSIZE && t.size == n * PGSIZE && t.physStart % PGSIZE == 0;
    if a <= v < a + n {
      assert (t.physStart + (v * PGSIZE - t.virt)) / PGSIZE == t.physStart / PGSIZE + (v - a);
    }
  }

  /** The four mappings together. */
  lemma {:induction false} KernelPageAt(data: nat, v: nat)
    requires KernelLayout(data)
    ensures KernelPage(KernelPages(data, |KmapTable(data)|), data, v)
  {
    KernelPagesOne(data, 0, v);
    KernelPagesOne(data, 1, v);
    KernelPagesOne(data, 2, v);
    KernelPagesOne(data, 3, v);
    var r := KernelPages(data, 4);
    if v in r {
      var f, perm := if InMemory(v) then v - 0x8_0000 else v, if 0x8010_0000 <= v * PGSIZE < data then 0 else 2;
      assert r[v] == Entry(f, perm);
      EntryBits(f, perm);
    }
  }

  /** The page tables of the first `k` kernel mappings, by directory index. */
  ghost function KernelKeys(data: nat, k: nat): set<nat>
    requires KernelLayout(data) && k <= |KmapTable(data)|
  {
    if k == 0 then {}
    else
      var t := KmapTable(data)[k - 1];
      Tabled(KernelKeys(data, k - 1), t.virt / PGSIZE, t.size / PGSIZE)
  }

  /** How many there are. */
  ghost function KernelNeeds(data: nat, k: nat): nat
    requires KernelLayout(data) && k <= |KmapTable(data)|
  {
    if k == 0 then 0
    else
      var t := KmapTable(data)[k - 1];
      KernelNeeds(data, k - 1) + Needs(KernelKeys(data, k - 1), t.virt / PGSIZE, t.size / PGSIZE)
  }

  lemma {:induction false} KernelNeedsMore(data: nat, k: nat, l: nat)
    requires KernelLayout(data) && k <= l <= |KmapTable(data)|
    ensures KernelNeeds(data, k) <= KernelNeeds(data, l)
  {
    if k < l {
      KernelNeedsMore(data, k, l - 1);
    }
  }

  const KERNEL_TABLES := 64           // for 224 MB of memory and 32 MB of devices

  predicate KernelTable(i: nat) {
    TablesUp(KERNPAGE) <= i < TablesUp((KERNBASE + PHYSTOP) / PGSIZE) || TablesUp(DEVSPACE / PGSIZE) <= i < NENTRIES
  }

  /** Where the first `k` mappings end; they follow on one another, up to the last. */
  function RowEnd(data: nat, k: nat): nat
    requires KernelLayout(data) && k < |KmapTable(data)|
  {
    if k == 0 then KERNPAGE else if k == 1 then KERNLINK / PGSIZE else if k == 2 then data / PGSIZE else (KERNBASE + PHYSTOP) / PGSIZE
  }

  lemma {:induction false} KernelRow(data: nat, k: nat)
    requires KernelLayout(data) && k < |KmapTable(data)|
    ensures KERNPAGE <= RowEnd(data, k) && KernelNeeds(data, k) == TablesUp(RowEnd(data, k)) - TablesUp(KERNPAGE)
    ensures forall i :: i in KernelKeys(data, k) <==> TablesUp(KERNPAGE) <= i < TablesUp(RowEnd(data, k))
  {
    if k > 0 {
      KernelRow(data, k - 1);
      var t, a := KmapTable(data)[k - 1], RowEnd(data, k - 1);
      assert t.virt / PGSIZE == a && a + t.size / PGSIZE == RowEnd(data, k);
      TableUp(a);
      NeedsRow(KernelKeys(data, k - 1), a, t.size / PGSIZE);
    }
  }

  /** The kernel's mappings take the same page tables wherever its data begins. */
  lemma {:induction false} KernelTablesCount(data: nat)
    requires KernelLayout(data)
    ensures KernelNeeds(data, |KmapTable(data)|) == KERNEL_TABLES
    ensures forall i :: i in KernelKeys(data, |KmapTable(data)|) <==> KernelTable(i)
  {
    KernelRow(data, 3);
    NeedsRow(KernelKeys(data, 3), DEVSPACE / PGSIZE, (0x1_0000_0000 - DEVSPACE) / PGSIZE);
  }

  /** mappages() of a kernel mapping. When memory runs out there were too few frames for its page tables. */
  method MapRow(m: Memory, pd: nat, t: Kmap, ghost s: Space) returns (r: Outcome, ghost s': Space)
    requires m.Valid() && Good(m.mem, m.free, m.lo, s) && pd == s.pd && t.perm < PGSIZE
    requires t.virt % PGSIZE == 0 && t.size % PGSIZE == 0 && 0 < t.size && KERNBASE <= t.virt && t.virt + t.size <= 0x1_0000_0000
    requires forall v :: v in s.pages ==> v < t.virt / PGSIZE
    modifies m
    ensures r != Panicked && m.Valid() && Good(m.mem, m.free, m.lo, s') && s'.pd == s.pd && Step(old(m.mem), old(m.free), s, m.mem, m.free, s', {})
    ensures r == Done ==>
      && s'.pages == MapRange(s.pages, t.virt / PGSIZE, t.size / PGSIZE, t.physStart / PGSIZE, t.perm)
      && s'.pts.Keys == Tabled(s.pts.Keys, t.virt / PGSIZE, t.size / PGSIZE)
      && |old(m.free)| == |m.free| + Needs(s.pts.Keys, t.virt / PGSIZE, t.size / PGSIZE)
    ensures r == NoMemory ==> |old(m.free)| < Needs(s.pts.Keys, t.virt / PGSIZE, t.size / PGSIZE)
  {
    ghost var a, f, count := t.virt / PGSIZE, t.physStart / PGSIZE, (t.virt + t.size - 1) / PGSIZE + 1 - t.virt / PGSIZE;
    assert count == t.size / PGSIZE;
    forall g | f <= g < f + count ensures TakeAt(m.free, m.lo, |m.mem|, s, a, f, g) {}
    ghost var n;
    r, n, s' := Mappages(m, pd, t.virt, t.size, t.physStart / PGSIZE, t.perm, s);
    KernelMapped(s, old(m.mem), old(m.free), s', m.mem, m.free, a, n, count, f, t.perm);
    if r == NoMemory {
      NeedsNext(s.pts.Keys, a, n);
      NeedsMore(s.pts.Keys, a, n + 1, count);
    }
  }

  /** One round of setupkvm(). It does not run into a mapping that is there already. */
  method MapKernel(m: Memory, pd: nat, data: nat, k: nat, ghost s: Space) returns (r: Outcome, ghost s': Space)
    requires m.Valid() && Good(m.mem, m.free, m.lo, s) && pd == s.pd && KernelLayout(data) && k < |KmapTable(data)|
    requires s.pages == KernelPages(data, k) && s.pts.Keys == KernelKeys(data, k)
    modifies m
    ensures r != Panicked && m.Valid() && Good(m.mem, m.free, m.lo, s') && s'.pd == s.pd && Step(old(m.mem), old(m.free), s, m.mem, m.free, s', {})
    ensures r == Done ==> s'.pages == KernelPages(data, k + 1) && s'.pts.Keys == KernelKeys(data, k + 1)
    ensures r == Done ==> |old(m.free)| == |m.free| + KernelNeeds(data, k + 1) - KernelNeeds(data, k)
    ensures r == NoMemory ==> |old(m.free)| < KernelNeeds(data, k + 1) - KernelNeeds(data, k)
  {
    KernelPagesIn(data, k);
    r, s' := MapRow(m, pd, KmapTable(data)[k], s);
  }

  /** Frames for a directory with the kernel's mappings and the first `n` user pages. */
  function SpaceFrames(n: nat): nat {
    1 + KERNEL_TABLES + n + TablesUp(n)
  }

  /** The space has the page tables of the kernel's mappings and of the first `n` user pages. */
  ghost predicate HasTables(s: Space, n: nat) {
    forall i: nat :: i in s.pts.Keys <==> i < TablesUp(n) || KernelTable(i)
  }

  /** setupkvm(): a new space with the kernel's mappings, or 0, if there are too few frames, and then the same are free as before. */
  method Setupkvm(m: Memory, data: nat) returns (pd: nat, ghost s: Space)
    requires m.Valid() && KernelLayout(data)
    modifies m
    ensures m.Valid() && |m.mem| == |old(m.mem)|
    ensures pd != 0 ==>
      && s.pd == pd && s.pages == KernelPages(data, |KmapTable(data)|)
      && Good(m.mem, m.free, m.lo, s) && Carved(old(m.mem), old(m.free), m.mem, m.free, s)
    ensures pd != 0 ==> forall v: nat :: KernelPage(s.pages, data, v)
    ensures pd != 0 <==> |old(m.free)| >= SpaceFrames(0)
    ensures pd != 0 ==> |old(m.free)| == |m.free| + SpaceFrames(0) && HasTables(s, 0)
    ensures pd == 0 ==>
      && (forall f :: f in m.free <==> f in old(m.free))
      && forall f :: 0 <= f < |m.mem| && f !in m.free ==> m.mem[f] == old(m.mem)[f]
  {
    pd := m.Kalloc();
    s := Space(pd, map[], map[]);
    if pd == 0 {
      return;
    }
    assert old(m.free)[0] == pd && old(m.free)[1..] == m.free;
    CarvedEmpty(old(m.mem), old(m.free), m.lo);
    m.Put(pd, ZeroPage);
    KernelTablesCount(data);
    forall v: nat ensures KernelPage(KernelPages(data, |KmapTable(data)|), data, v) {
      KernelPageAt(data, v);
    }
    var k := 0;
    while k < |KmapTable(data)|
      invariant 0 <= k <= |KmapTable(data)| && m.Valid() && Good(m.mem, m.free, m.lo, s) && s.pd == pd && |m.mem| == |old(m.mem)|
      invariant s.pages == KernelPages(data, k) && Carved(old(m.mem), old(m.free), m.mem, m.free, s)
      invariant s.pts.Keys == KernelKeys(data, k) && |old(m.free)| == |m.free| + 1 + KernelNeeds(data, k)
    {
      ghost var mem1, free1, s1 := m.mem, m.free, s;
      var r;
      r, s := MapKernel(m, pd, data, k, s);
      CarvedStep(old(m.mem), old(m.free), mem1, free1, s1, m.mem, m.free, s);
      SameSize(mem1, free1, s1, m.mem, m.free, s, {});
      if r == NoMemory {
        KernelNeedsMore(data, k + 1, |KmapTable(data)|);
        ghost var mem2, free2 := m.mem, m.free;
        Freevm(m, pd, s);
        CarvedFreed(old(m.mem), old(m.free), mem2, free2, s, m.mem, m.free);
        pd := 0;
        return;
      }
      k := k + 1;
    }
  }

  // ---- copyuvm

  /** What user page `n` adds to the page tables and to the number of frames. */
  lemma {:induction false} OneMoreTable(s: Space, n: nat)
    requires HasTables(s, n) && n < KERNPAGE
    ensures SpaceFrames(n + 1) == SpaceFrames(n) + 1 + if n / NENTRIES in s.pts then 0 else 1
    ensures forall s': Space :: s'.pts.Keys == s.pts.Keys + {n / NENTRIES} ==> HasTables(s', n + 1)
  {
    TableUp(n);
  }

  /** How copyuvm() ends, when there are `frames` free frames: it panics if it comes to a page that is missing. */
  ghost function CopyOutcome(frames: nat, pages: map<nat, nat>, n: nat): Outcome {
    if exists v: nat :: v < n && v !in pages && SpaceFrames(v) <= frames then Panicked
    else if SpaceFrames(n) <= frames then Done
    else NoMemory
  }

  lemma {:induction false} CopyRunsOut(frames: nat, pages: map<nat, nat>, n: nat, i: nat)
    requires i <= n && frames < SpaceFrames(i) && forall v: nat :: v < i ==> v in pages
    ensures CopyOutcome(frames, pages, n) == NoMemory
  {
    assert forall v: nat :: i <= v ==> TablesUp(i) <= TablesUp(v);
    assert forall v: nat :: i <= v ==> frames < SpaceFrames(v);
  }

  /** One round of copyuvm(): page `i` of the space `p` is copied into the space `c`. A panic means that it is missing. */
  method CopyPage(m: Memory, pd: nat, d: nat, i: nat, ghost p: Space, ghost c: Space, ghost kernel: map<nat, nat>, ghost mem0: seq<Page>, ghost free0: seq<nat>)
      returns (o: Outcome, ghost c': Space)
    requires m.Valid() && Good(mem0, free0, m.lo, p) && pd == p.pd && d == c.pd && i < KERNPAGE
    requires Good(m.mem, m.free, m.lo, c) && Carved(mem0, free0, m.mem, m.free, c)
    requires Copied(mem0, p.pages, m.mem, c.pages, kernel, i) && forall v :: v in kernel ==> v >= KERNPAGE
    requires HasTables(c, i) && |free0| == |m.free| + SpaceFrames(i)
    modifies m
    ensures m.Valid() && (o == Panicked <==> i !in p.pages) && |m.mem| == |old(m.mem)|
    ensures o != Panicked ==> c'.pd == c.pd && Good(m.mem, m.free, m.lo, c') && Carved(mem0, free0, m.mem, m.free, c')
    ensures o == Done ==> Copied(mem0, p.pages, m.mem, c'.pages, kernel, i + 1)
    ensures o == Done ==> HasTables(c', i + 1) && |free0| == |m.free| + SpaceFrames(i + 1)
    ensures o == NoMemory ==> |free0| < SpaceFrames(i + 1)
  {
    CarvedOther(mem0, free0, m.mem, m.free, c, m.lo, p);
    HasTable(m.mem, m.free, m.lo, p);
    ghost var p', mem1, free1 := p, m.mem, m.free;
    c' := c;
    var pt;
    pt, p' := Walkpgdir(m, pd, i, false, p);
    if pt == 0 {
      return Panicked, c';
    }
    TableEntry(m.mem, m.free, m.lo, p, i);
    var pte := m.mem[pt][i % NENTRIES];
    if !Present(pte) {
      return Panicked, c';
    }
    var f;
    OneMoreTable(c, i);
    o, f, c' := NewPage(m, d, i, Flags(pte), m.mem[Frame(pte)], c);
    if o == Done {
      CopiedMore(mem0, p.pages, mem1, free1, c, m.mem, m.free, c', kernel, i, f);
    } else if f != 0 {
      GiveBack(m, f, c, mem1, free1, mem1[Frame(pte)]);
    } else {
      NoStep(mem1, free1, c);
    }
    CarvedStep(mem0, free0, mem1, free1, c, m.mem, m.free, c');
    CarvedOther(mem0, free0, m.mem, m.free, c', m.lo, p);
  }

  /** kfree() of a frame that was taken and written but not used. */
  method GiveBack(m: Memory, f: nat, ghost s: Space, ghost mem0: seq<Page>, ghost free0: seq<nat>, ghost page: Page)
    requires m.Valid() && Good(mem0, free0, m.lo, s) && Good(m.mem, m.free, m.lo, s)
    requires free0 == [f] + m.free && m.lo <= f < |mem0| && f !in m.free && m.mem == mem0[f := page]
    modifies m
    ensures m.Valid() && Good(m.mem, m.free, m.lo, s) && Step(mem0, free0, s, m.mem, m.free, s, {})
  {
    assert free0[1..] == m.free && free0[0] == f;
    NoStep(m.mem, m.free, s);
    ghost var mem1, free1 := m.mem, m.free;
    var ok := m.Kfree(f);
    Sink(mem0, free0, m.lo, s, page, mem1, free1, s, m.mem[f]);
  }

  /** The loop of copyuvm(), for a space `c` that setupkvm() has made. */
  method CopyPages(m: Memory, pd: nat, d: nat, sz: nat, ghost p: Space, ghost s: Space, ghost kernel: map<nat, nat>, ghost mem0: seq<Page>, ghost free0: seq<nat>)
      returns (o: Outcome, ghost c: Space)
    requires m.Valid() && Good(mem0, free0, m.lo, p) && pd == p.pd && d == s.pd && sz <= KERNBASE
    requires Good(m.mem, m.free, m.lo, s) && Carved(mem0, free0, m.mem, m.free, s)
    requires s.pages == kernel && forall v :: v in kernel ==> v >= KERNPAGE
    requires HasTables(s, 0) && |free0| == |m.free| + SpaceFrames(0)
    modifies m
    ensures m.Valid() && |m.mem| == |old(m.mem)| && o == CopyOutcome(|free0|, p.pages, PagesUp(sz))
    ensures o != Panicked ==> c.pd == d && Good(m.mem, m.free, m.lo, c) && Carved(mem0, free0, m.mem, m.free, c)
    ensures o == Done ==> Copied(mem0, p.pages, m.mem, c.pages, kernel, PagesUp(sz))
  {
    var i := 0;
    c := s;
    while i * PGSIZE < sz
      invariant 0 <= i <= PagesUp(sz) && m.Valid() && |m.mem| == |old(m.mem)| && c.pd == d
      invariant Good(m.mem, m.free, m.lo, c) && Carved(mem0, free0, m.mem, m.free, c)
      invariant Copied(mem0, p.pages, m.mem, c.pages, kernel, i) && forall v: nat :: v < i ==> v in p.pages
      invariant HasTables(c, i) && |free0| == |m.free| + SpaceFrames(i)
    {
      o, c := CopyPage(m, pd, d, i, p, c, kernel, mem0, free0);
      if o == Panicked {
        return;
      }
      if o == NoMemory {
        CopyRunsOut(|free0|, p.pages, PagesUp(sz), i + 1);
        return;
      }
      i := i + 1;
    }
    o := Done;
  }

  /** The copy has the kernel's mappings. */
  lemma {:induction false} CopiedKernel(mem0: seq<Page>, p: map<nat, nat>, mem: seq<Page>, c: map<nat, nat>, kernel: map<nat, nat>, n: nat, data: nat)
    requires Copied(mem0, p, mem, c, kernel, n) && n <= KERNPAGE && forall v: nat :: KernelPage(kernel, data, v)
    ensures forall v: nat :: v >= KERNPAGE ==> KernelPage(c, data, v)
  {
    forall v: nat | v >= KERNPAGE ensures KernelPage(c, data, v) {
      assert KernelPage(kernel, data, v);
    }
  }

  /** copyuvm() of the first `sz` bytes of the space `p`: a new space whose pages are copies, or 0, and then the same frames are free as before.
      Either way the parent and every frame that was not free is as before. It panics exactly if it comes to a page that is missing. */
  method Copyuvm(m: Memory, pd: nat, sz: nat, data: nat, ghost p: Space) returns (o: Outcome, d: nat, ghost c: Space)
    requires m.Valid() && Good(m.mem, m.free, m.lo, p) && pd == p.pd && sz <= KERNBASE && KernelLayout(data)
    modifies m
    ensures m.Valid() && |m.mem| == |old(m.mem)|
    ensures o == CopyOutcome(|old(m.free)|, p.pages, PagesUp(sz))
    ensures o == Done ==>
      && d == c.pd && Good(m.mem, m.free, m.lo, c) && Carved(old(m.mem), old(m.free), m.mem, m.free, c)
      && Copied(old(m.mem), p.pages, m.mem, c.pages, KernelPages(data, |KmapTable(data)|), PagesUp(sz)) && Fresh(c.pages, old(m.free))
    ensures o == Done ==> forall v: nat :: v >= KERNPAGE ==> KernelPage(c.pages, data, v)
    ensures o != Panicked ==> SpaceKept(old(m.mem), m.mem, m.free, m.lo, p)
    ensures o == NoMemory ==>
      && d == 0 && (forall f :: f in m.free <==> f in old(m.free))
      && forall f :: 0 <= f < |m.mem| && f !in m.free ==> m.mem[f] == old(m.mem)[f]
  {
    ghost var kernel := KernelPages(data, |KmapTable(data)|);
    KernelPagesIn(data, |KmapTable(data)|);
    d, c := Setupkvm(m, data);
    if d == 0 {
      CopyRunsOut(|old(m.free)|, p.pages, PagesUp(sz), 0);
      KeepSpace(old(m.mem), old(m.free), m.mem, m.free, m.lo, p);
      return NoMemory, 0, c;
    }
    o, c := CopyPages(m, pd, d, sz, p, c, kernel, old(m.mem), old(m.free));
    if o == Panicked {
      return;
    }
    if o == NoMemory {
      ghost var mem1, free1 := m.mem, m.free;
      Freevm(m, d, c);
      CarvedFreed(old(m.mem), old(m.free), mem1, free1, c, m.mem, m.free);
      KeepSpace(old(m.mem), old(m.free), m.mem, m.free, m.lo, p);
      d := 0;
      return;
    }
    CarvedOther(old(m.mem), old(m.free), m.mem, m.free, c, m.lo, p);
    CarvedFresh(old(m.mem), old(m.free), m.mem, m.free, c, m.lo);
    CopiedKernel(old(m.mem), p.pages, m.mem, c.pages, kernel, PagesUp(sz), data);
  }
}

/** Two-level page tables of vm.c as values: the flat map they stand for, and the frames they own. */
module VmSpace {
  import opened Kalloc

  const NENTRIES := 1024              // entries of a directory or a table
  const KERNPAGE := KERNBASE / PGSIZE // first kernel page
  const NPAGES := NENTRIES * NENTRIES

  const PTE_P := 1
  const PTE_W := 2
  const PTE_U := 4

  // ---- Entries: a frame number times the page size, plus flags

  predicate Present(e: nat) { e % 2 == PTE_P }

  function Frame(e: nat): nat { e / PGSIZE }

  function Flags(e: nat): nat { e % PGSIZE }

  /** pa | perm | PTE_P, for a page-aligned pa. */
  function Entry(f: nat, perm: nat): nat { f * PGSIZE + (if perm % 2 == PTE_P then perm else perm + PTE_P) }

  lemma {:induction false} EntryParts(f: nat, perm: nat)
    requires perm < PGSIZE
    ensures Present(Entry(f, perm)) && Frame(Entry(f, perm)) == f
    ensures Flags(Entry(f, perm)) == if perm % 2 == PTE_P then perm else perm + PTE_P
  {
  }

  // ---- Address spaces

  /** An address space: its directory, its page tables by directory index, and the entries of its present pages by page number. */
  datatype Space = Space(pd: nat, pts: map<nat, nat>, pages: map<nat, nat>)

  predicate Shaped(mem: seq<Page>, s: Space) {
    && s.pd < |mem|
    && (forall i :: i in s.pts ==> i < NENTRIES && s.pts[i] < |mem|)
    && (forall v :: v in s.pages ==> v / NENTRIES in s.pts)
  }

  function Pte(mem: seq<Page>, s: Space, v: nat): nat
    requires Shaped(mem, s) && v / NENTRIES in s.pts
  {
    mem[s.pts[v / NENTRIES]][v % NENTRIES]
  }

  // Predicates that are folded hold of every `fold`, and are unfolded by naming one.

  /** The directory and the tables in memory stand for `s`. The entries of the directory are present, writable and for user mode, so
      that those of the tables decide. */
  ghost predicate Rep(mem: seq<Page>, s: Space) {
    forall fold: nat :: RepBody(fold, mem, s)
  }

  ghost predicate RepBody(fold: nat, mem: seq<Page>, s: Space) {
    && Shaped(mem, s)
    && (forall i :: 0 <= i < NENTRIES ==> (i in s.pts <==> Present(mem[s.pd][i])))
    && (forall i :: i in s.pts ==> Frame(mem[s.pd][i]) == s.pts[i] && Flags(mem[s.pd][i]) == 7)
    && (forall v: nat :: v / NENTRIES in s.pts ==> (v in s.pages <==> Present(Pte(mem, s, v))))
    && (forall v :: v in s.pages ==> Pte(mem, s, v) == s.pages[v])
  }

  // ---- The frames an address space owns

  datatype Slot = Dir | Table(i: nat) | User(v: nat)

  predicate Holds(s: Space, r: Slot) {
    match r
    case Dir => true
    case Table(i) => i in s.pts
    case User(v) => v in s.pages && v < KERNPAGE
  }

  function At(s: Space, r: Slot): nat
    requires Holds(s, r)
  {
    match r
    case Dir => s.pd
    case Table(i) => s.pts[i]
    case User(v) => Frame(s.pages[v])
  }

  ghost predicate Owned(s: Space, f: nat) {
    exists r :: Holds(s, r) && At(s, r) == f
  }

  /** Each frame has one place in one space; none is free. */
  ghost predicate Apart(s: Space, free: seq<nat>, lo: nat, top: nat) {
    && (forall r :: Holds(s, r) ==> lo <= At(s, r) < top && At(s, r) !in free)
    && (forall r, q :: Holds(s, r) && Holds(s, q) && At(s, r) == At(s, q) ==> r == q)
  }

  /** The free frames and the frames of the space, together, are the same as before but for the frames `x`. */
  ghost predicate Conserved(free: seq<nat>, s: Space, free': seq<nat>, s': Space, x: set<nat>) {
    forall f :: f in free' || Owned(s', f) <==> f in free || Owned(s, f) || f in x
  }

  /** User pages that are in both spaces, with the same entry, have the same contents. */
  ghost predicate UserKept(mem: seq<Page>, mem': seq<Page>, s: Space, s': Space) {
    && |mem'| == |mem|
    && forall v :: v in s.pages && v in s'.pages && v < KERNPAGE && s'.pages[v] == s.pages[v] && Frame(s.pages[v]) < |mem| ==>
         mem'[Frame(s.pages[v])] == mem[Frame(s.pages[v])]
  }

  ghost predicate TablesKept(s: Space, s': Space) {
    s'.pd == s.pd && forall i :: i in s.pts ==> i in s'.pts && s'.pts[i] == s.pts[i]
  }

  /** Frames that were neither free nor part of the space nor in `x` have not been touched. */
  ghost predicate Untouched(mem: seq<Page>, mem': seq<Page>, free: seq<nat>, s: Space, x: set<nat>) {
    |mem'| == |mem| && forall f :: 0 <= f < |mem| && f !in free && !Owned(s, f) && f !in x ==> mem'[f] == mem[f]
  }

  /** A space whose frames are untouched is what it was. */
  lemma {:induction false} RepFrame(mem: seq<Page>, mem': seq<Page>, s: Space)
    requires Rep(mem, s) && |mem'| == |mem|
    requires Shaped(mem, s) && mem'[s.pd] == mem[s.pd] && forall i :: i in s.pts ==> mem'[s.pts[i]] == mem[s.pts[i]]
    ensures Rep(mem', s)
  {
    assert RepBody(0, mem, s);
  }

  // ---- Slots that come and go

  /** `s'` has one slot more than `s`: slot `x`, with frame `f`. */
  ghost predicate Gains(s: Space, s': Space, x: Slot, f: nat) {
    && !Holds(s, x) && Holds(s', x) && At(s', x) == f
    && forall r :: r != x ==> (Holds(s', r) <==> Holds(s, r)) && (Holds(s, r) ==> At(s', r) == At(s, r))
  }

  lemma {:induction false} GainedOwned(s: Space, s': Space, x: Slot, f: nat)
    requires Gains(s, s', x, f)
    ensures forall g :: Owned(s', g) <==> Owned(s, g) || g == f
  {
  }

  lemma {:induction false} GainedApart(s: Space, s': Space, free: seq<nat>, lo: nat, top: nat, x: Slot, f: nat)
    requires Gains(s, s', x, f) && Apart(s, free, lo, top) && lo <= f < top && f !in free && !Owned(s, f)
    ensures Apart(s', free, lo, top)
  {
  }

  lemma {:induction false} LostOwned(s: Space, s': Space, free: seq<nat>, lo: nat, top: nat, x: Slot, f: nat)
    requires Gains(s', s, x, f) && Apart(s, free, lo, top)
    ensures Apart(s', [f] + free, lo, top) && !Owned(s', f) && Conserved(free, s, [f] + free, s', {})
  {
  }

  // ---- What the operations do to memory

  /** A frame that an operation took from the free list is a new page table. */
  lemma {:induction false} AddTable(mem: seq<Page>, s: Space, i: nat, f: nat)
    requires Rep(mem, s) && Shaped(mem, s) && i < NENTRIES && i !in s.pts && f < |mem| && f != s.pd && forall j :: j in s.pts ==> s.pts[j] != f && s.pts[j] != s.pd
    ensures
      var s' := s.(pts := s.pts[i := f]);
      Rep(mem[f := ZeroPage][s.pd := mem[s.pd][i := Entry(f, PTE_W + PTE_U)]], s') && Gains(s, s', Table(i), f)
  {
    assert RepBody(0, mem, s);
    var s' := s.(pts := s.pts[i := f]);
    var mem' := mem[f := ZeroPage][s.pd := mem[s.pd][i := Entry(f, PTE_W + PTE_U)]];
    EntryParts(f, PTE_W + PTE_U);
    assert Shaped(mem', s');
    forall v: nat | v / NENTRIES in s'.pts
      ensures v in s'.pages <==> Present(Pte(mem', s', v))
      ensures v in s'.pages ==> Pte(mem', s', v) == s'.pages[v]
    {
      if v / NENTRIES == i {
        assert Pte(mem', s', v) == 0;
      } else {
        assert Pte(mem', s', v) == Pte(mem, s, v);
      }
    }
  }

  /** An entry of a page table is set, or cleared. */
  function SetPage(s: Space, v: nat, e: nat): Space {
    if Present(e) then s.(pages := s.pages[v := e]) else s.(pages := s.pages - {v})
  }

  lemma {:induction false} SetEntry(mem: seq<Page>, s: Space, v: nat, e: nat)
    requires Rep(mem, s) && Shaped(mem, s) && v / NENTRIES in s.pts && s.pts[v / NENTRIES] != s.pd
    requires forall i :: i in s.pts && i != v / NENTRIES ==> s.pts[i] != s.pts[v / NENTRIES]
    ensures
      var pt := s.pts[v / NENTRIES];
      Rep(mem[pt := mem[pt][v % NENTRIES := e]], SetPage(s, v, e))
  {
    assert RepBody(0, mem, s);
    var pt, s' := s.pts[v / NENTRIES], SetPage(s, v, e);
    var mem' := mem[pt := mem[pt][v % NENTRIES := e]];
    assert Shaped(mem', s');
    forall w: nat | w / NENTRIES in s'.pts ensures Pte(mem', s', w) == if w == v then e else Pte(mem, s, w) {
      if w / NENTRIES == v / NENTRIES && w % NENTRIES == v % NENTRIES {
        assert w == v;
      }
    }
  }

  // ---- States and steps

  /** The directory stands for `s`, whose frames are its own. */
  ghost predicate Good(mem: seq<Page>, free: seq<nat>, lo: nat, s: Space) {
    forall fold: nat :: GoodBody(fold, mem, free, lo, s)
  }

  ghost predicate GoodBody(fold: nat, mem: seq<Page>, free: seq<nat>, lo: nat, s: Space) {
    Rep(mem, s) && Shaped(mem, s) && Apart(s, free, lo, |mem|)
  }

  /** A step from one state to another that takes the frames `x` into the space. */
  ghost predicate Step(mem: seq<Page>, free: seq<nat>, s: Space, mem': seq<Page>, free': seq<nat>, s': Space, x: set<nat>) {
    forall fold: nat :: StepBody(fold, mem, free, s, mem', free', s', x)
  }

  ghost predicate StepBody(fold: nat, mem: seq<Page>, free: seq<nat>, s: Space, mem': seq<Page>, free': seq<nat>, s': Space, x: set<nat>) {
    Conserved(free, s, free', s', x) && Untouched(mem, mem', free, s, x) && UserKept(mem, mem', s, s') && TablesKept(s, s')
  }

  lemma {:induction false} MakeGood(mem: seq<Page>, free: seq<nat>, lo: nat, s: Space)
    requires Rep(mem, s) && Apart(s, free, lo, |mem|)
    ensures Good(mem, free, lo, s)
  {
    assert RepBody(0, mem, s);
  }

  lemma {:induction false} NoStep(mem: seq<Page>, free: seq<nat>, s: Space)
    ensures Step(mem, free, s, mem, free, s, {})
  {
  }

  /** What the directory in memory says about entry `i`. */
  lemma {:induction false} DirEntry(mem: seq<Page>, free: seq<nat>, lo: nat, s: Space, i: nat)
    requires Good(mem, free, lo, s) && i < NENTRIES
    ensures s.pd < |mem| && (Present(mem[s.pd][i]) <==> i in s.pts) && (i in s.pts ==> Frame(mem[s.pd][i]) == s.pts[i])
    ensures s.pd !in free && lo <= s.pd && (i in s.pts ==> lo <= s.pts[i] < |mem| && s.pts[i] !in free)
  {
    assert GoodBody(0, mem, free, lo, s) && RepBody(0, mem, s);
    assert At(s, Dir) == s.pd && (i in s.pts ==> At(s, Table(i)) == s.pts[i]);
  }

  /** What `Apart` says about the frames of directory and tables. */
  lemma {:induction false} Tables(s: Space, free: seq<nat>, lo: nat, top: nat)
    requires Apart(s, free, lo, top)
    ensures forall i :: i in s.pts ==> s.pts[i] != s.pd && s.pts[i] !in free && lo <= s.pts[i] < top && Owned(s, s.pts[i])
    ensures forall i, j :: i in s.pts && j in s.pts && i != j ==> s.pts[i] != s.pts[j]
    ensures s.pd !in free && lo <= s.pd < top && Owned(s, s.pd)
  {
    assert Holds(s, Dir) && At(s, Dir) == s.pd;
    assert forall i :: i in s.pts ==> Holds(s, Table(i)) && At(s, Table(i)) == s.pts[i];
  }

  /** What `Apart` says about the frame of a user page. */
  lemma {:induction false} UserFrame(s: Space, free: seq<nat>, lo: nat, top: nat, v: nat)
    requires Apart(s, free, lo, top) && v in s.pages && v < KERNPAGE
    ensures
      var f := Frame(s.pages[v]);
      && lo <= f < top && f !in free && Owned(s, f) && f != s.pd && (forall i :: i in s.pts ==> s.pts[i] != f)
      && forall w :: w in s.pages && w < KERNPAGE && w != v ==> Frame(s.pages[w]) != f
  {
    assert Holds(s, User(v)) && At(s, User(v)) == Frame(s.pages[v]);
    assert Holds(s, Dir) && At(s, Dir) == s.pd;
    assert forall i :: i in s.pts ==> Holds(s, Table(i)) && At(s, Table(i)) == s.pts[i];
    assert forall w :: w in s.pages && w < KERNPAGE ==> Holds(s, User(w)) && At(s, User(w)) == Frame(s.pages[w]);
  }

  /** A step that changes the frames `changed`, none of them that of a user page that stays. */
  lemma {:induction false} MakeStep(mem: seq<Page>, free: seq<nat>, s: Space, mem': seq<Page>, free': seq<nat>, s': Space, x: set<nat>, changed: set<nat>)
    requires Conserved(free, s, free', s', x) && |mem'| == |mem| && forall f :: 0 <= f < |mem| && f !in changed ==> mem'[f] == mem[f]
    requires forall f :: f in changed ==> f in free || Owned(s, f)
    requires forall v :: v in s.pages && v in s'.pages && v < KERNPAGE ==> Frame(s.pages[v]) !in changed
    requires TablesKept(s, s')
    ensures Step(mem, free, s, mem', free', s', x)
  {
  }

  /** What `Apart` says about the frames of all user pages. */
  lemma {:induction false} Users(s: Space, free: seq<nat>, lo: nat, top: nat)
    requires Apart(s, free, lo, top)
    ensures forall v :: v in s.pages && v < KERNPAGE ==> Frame(s.pages[v]) !in free && Frame(s.pages[v]) != s.pd
    ensures forall i, v :: i in s.pts && v in s.pages && v < KERNPAGE ==> s.pts[i] != Frame(s.pages[v])
  {
    forall v | v in s.pages && v < KERNPAGE
      ensures Frame(s.pages[v]) !in free && Frame(s.pages[v]) != s.pd && forall i :: i in s.pts ==> s.pts[i] != Frame(s.pages[v])
    {
      UserFrame(s, free, lo, top, v);
    }
  }

  /** The slots of a space with a table in the first free frame. */
  lemma {:induction false} TableSlots(s: Space, free: seq<nat>, lo: nat, top: nat, i: nat)
    requires Apart(s, free, lo, top) && free != [] && i !in s.pts && free[0] !in free[1..] && lo <= free[0] < top
    ensures var s' := s.(pts := s.pts[i := free[0]]); Apart(s', free[1..], lo, top) && Conserved(free, s, free[1..], s', {})
  {
    var f, s' := free[0], s.(pts := s.pts[i := free[0]]);
    assert Gains(s, s', Table(i), f);
    GainedOwned(s, s', Table(i), f);
    assert Apart(s, free[1..], lo, top) && !Owned(s, f);
    GainedApart(s, s', free[1..], lo, top, Table(i), f);
  }

  /** The first free frame becomes a page table. */
  lemma {:induction false} StepTable(mem: seq<Page>, free: seq<nat>, lo: nat, s: Space, i: nat)
    requires Good(mem, free, lo, s) && free != [] && i < NENTRIES && i !in s.pts && free[0] !in free[1..] && lo <= free[0] < |mem|
    ensures s.pd < |mem| && s.pd != free[0]
    ensures
      var f := free[0];
      var mem', s' := mem[f := ZeroPage][s.pd := mem[s.pd][i := Entry(f, PTE_W + PTE_U)]], s.(pts := s.pts[i := f]);
      Good(mem', free[1..], lo, s') && Step(mem, free, s, mem', free[1..], s', {})
  {
    assert GoodBody(0, mem, free, lo, s);
    var f := free[0];
    var mem', s' := mem[f := ZeroPage][s.pd := mem[s.pd][i := Entry(f, PTE_W + PTE_U)]], s.(pts := s.pts[i := f]);
    Tables(s, free, lo, |mem|);
    AddTable(mem, s, i, f);
    TableSlots(s, free, lo, |mem|, i);
    MakeGood(mem', free[1..], lo, s');
    Users(s, free, lo, |mem|);
    MakeStep(mem, free, s, mem', free[1..], s', {}, {f, s.pd});
  }

  /** Frames that a mapping of page `v` to frame `f` brings into the space: user pages are owned, kernel pages are not. */
  function Brings(v: nat, f: nat): set<nat> {
    if v < KERNPAGE then {f} else {}
  }

  /** Frame `f` may become the frame of page `v`. */
  ghost predicate Takeable(free: seq<nat>, lo: nat, top: nat, s: Space, v: nat, f: nat) {
    v < KERNPAGE ==> lo <= f < top && f !in free && !Owned(s, f)
  }

  /** The slots of a space with page `v` filled in. */
  lemma {:induction false} MapSlots(s: Space, free: seq<nat>, lo: nat, top: nat, v: nat, f: nat, e: nat)
    requires Apart(s, free, lo, top) && v !in s.pages && Takeable(free, lo, top, s, v, f) && Frame(e) == f
    ensures
      var s' := s.(pages := s.pages[v := e]);
      Apart(s', free, lo, top) && Conserved(free, s, free, s', Brings(v, f))
  {
    var s' := s.(pages := s.pages[v := e]);
    if v < KERNPAGE {
      assert Gains(s, s', User(v), f);
      GainedOwned(s, s', User(v), f);
      GainedApart(s, s', free, lo, top, User(v), f);
    } else {
      SameSlots(s, s');
    }
  }

  /** A page table entry is filled in. */
  lemma {:induction false} StepMap(mem: seq<Page>, free: seq<nat>, lo: nat, s: Space, v: nat, f: nat, perm: nat)
    requires Good(mem, free, lo, s) && v / NENTRIES in s.pts && v !in s.pages && perm < PGSIZE && Takeable(free, lo, |mem|, s, v, f)
    ensures s.pts[v / NENTRIES] < |mem|
    ensures
      var pt, e := s.pts[v / NENTRIES], Entry(f, perm);
      var mem', s' := mem[pt := mem[pt][v % NENTRIES := e]], s.(pages := s.pages[v := e]);
      Good(mem', free, lo, s') && Step(mem, free, s, mem', free, s', Brings(v, f))
  {
    assert GoodBody(0, mem, free, lo, s);
    EntryParts(f, perm);
    Tables(s, free, lo, |mem|);
    SetEntry(mem, s, v, Entry(f, perm));
    MapSlots(s, free, lo, |mem|, v, f, Entry(f, perm));
    var pt := s.pts[v / NENTRIES];
    Users(s, free, lo, |mem|);
    MakeStep(mem, free, s, mem[pt := mem[pt][v % NENTRIES := Entry(f, perm)]], free, s.(pages := s.pages[v := Entry(f, perm)]), Brings(v, f), {pt});
  }

  lemma {:induction false} SameSlots(s: Space, s': Space)
    requires forall r :: (Holds(s', r) <==> Holds(s, r)) && (Holds(s, r) ==> At(s', r) == At(s, r))
    ensures forall f :: Owned(s', f) <==> Owned(s, f)
  {
  }

  lemma {:induction false} UnmapRep(mem: seq<Page>, s: Space, v: nat, junk: Page)
    requires Rep(mem, s) && Shaped(mem, s) && v in s.pages && Frame(s.pages[v]) < |mem| && Frame(s.pages[v]) != s.pd
    requires forall i :: i in s.pts ==> s.pts[i] != s.pd && s.pts[i] != Frame(s.pages[v])
    requires forall i, j :: i in s.pts && j in s.pts && i != j ==> s.pts[i] != s.pts[j]
    ensures
      var pt, f := s.pts[v / NENTRIES], Frame(s.pages[v]);
      Rep(mem[f := junk][pt := mem[pt][v % NENTRIES := 0]], s.(pages := s.pages - {v}))
  {
    var pt, f, s' := s.pts[v / NENTRIES], Frame(s.pages[v]), s.(pages := s.pages - {v});
    var mem1 := mem[pt := mem[pt][v % NENTRIES := 0]];
    SetEntry(mem, s, v, 0);
    RepFrame(mem1, mem1[f := junk], s');
    assert mem1[f := junk] == mem[f := junk][pt := mem[pt][v % NENTRIES := 0]];
  }

  lemma {:induction false} UnmapSlots(s: Space, free: seq<nat>, lo: nat, top: nat, v: nat)
    requires Apart(s, free, lo, top) && v in s.pages && v < KERNPAGE
    ensures
      var s', f := s.(pages := s.pages - {v}), Frame(s.pages[v]);
      Apart(s', [f] + free, lo, top) && Conserved(free, s, [f] + free, s', {})
  {
    var s', f := s.(pages := s.pages - {v}), Frame(s.pages[v]);
    assert Gains(s', s, User(v), f);
    LostOwned(s, s', free, lo, top, User(v), f);
  }

  /** Where a user page is and where its entry is. */
  lemma {:induction false} Located(mem: seq<Page>, free: seq<nat>, lo: nat, s: Space, v: nat)
    requires Good(mem, free, lo, s) && v in s.pages && v < KERNPAGE
    ensures v / NENTRIES in s.pts && lo <= Frame(s.pages[v]) < |mem| && Frame(s.pages[v]) !in free && Owned(s, Frame(s.pages[v]))
    ensures lo <= s.pts[v / NENTRIES] < |mem| && s.pts[v / NENTRIES] != Frame(s.pages[v]) && Owned(s, s.pts[v / NENTRIES])
  {
    assert GoodBody(0, mem, free, lo, s);
    Tables(s, free, lo, |mem|);
    UserFrame(s, free, lo, |mem|, v);
  }

  lemma {:induction false} UnmapGood(mem: seq<Page>, free: seq<nat>, lo: nat, s: Space, v: nat, junk: Page)
    requires Good(mem, free, lo, s) && v in s.pages && v < KERNPAGE
    requires v / NENTRIES in s.pts && s.pts[v / NENTRIES] < |mem| && Frame(s.pages[v]) < |mem|
    ensures
      var pt, f := s.pts[v / NENTRIES], Frame(s.pages[v]);
      Good(mem[f := junk][pt := mem[pt][v % NENTRIES := 0]], [f] + free, lo, s.(pages := s.pages - {v}))
  {
    assert GoodBody(0, mem, free, lo, s);
    Tables(s, free, lo, |mem|);
    UserFrame(s, free, lo, |mem|, v);
    UnmapRep(mem, s, v, junk);
    UnmapSlots(s, free, lo, |mem|, v);
    var pt, f := s.pts[v / NENTRIES], Frame(s.pages[v]);
    MakeGood(mem[f := junk][pt := mem[pt][v % NENTRIES := 0]], [f] + free, lo, s.(pages := s.pages - {v}));
  }

  lemma {:induction false} UnmapStep(mem: seq<Page>, free: seq<nat>, lo: nat, s: Space, v: nat, junk: Page)
    requires Good(mem, free, lo, s) && v in s.pages && v < KERNPAGE
    requires v / NENTRIES in s.pts && s.pts[v / NENTRIES] < |mem| && Frame(s.pages[v]) < |mem|
    requires Owned(s, s.pts[v / NENTRIES]) && Owned(s, Frame(s.pages[v]))
    ensures
      var pt, f := s.pts[v / NENTRIES], Frame(s.pages[v]);
      Step(mem, free, s, mem[f := junk][pt := mem[pt][v % NENTRIES := 0]], [f] + free, s.(pages := s.pages - {v}), {})
  {
    assert GoodBody(0, mem, free, lo, s);
    var pt, f, s' := s.pts[v / NENTRIES], Frame(s.pages[v]), s.(pages := s.pages - {v});
    UserFrame(s, free, lo, |mem|, v);
    UnmapSlots(s, free, lo, |mem|, v);
    Users(s, free, lo, |mem|);
    MakeStep(mem, free, s, mem[f := junk][pt := mem[pt][v % NENTRIES := 0]], [f] + free, s', {}, {pt, f});
  }

  /** A user page is freed and its entry cleared. */
  lemma {:induction false} StepUnmap(mem: seq<Page>, free: seq<nat>, lo: nat, s: Space, v: nat, junk: Page)
    requires Good(mem, free, lo, s) && v in s.pages && v < KERNPAGE
    ensures v / NENTRIES in s.pts && lo <= Frame(s.pages[v]) < |mem| && Frame(s.pages[v]) !in free
    ensures lo <= s.pts[v / NENTRIES] < |mem| && s.pts[v / NENTRIES] != Frame(s.pages[v])
    ensures
      var pt, f := s.pts[v / NENTRIES], Frame(s.pages[v]);
      var mem', s' := mem[f := junk][pt := mem[pt][v % NENTRIES := 0]], s.(pages := s.pages - {v});
      Good(mem', [f] + free, lo, s') && Step(mem, free, s, mem', [f] + free, s', {})
  {
    Located(mem, free, lo, s, v);
    UnmapGood(mem, free, lo, s, v, junk);
    UnmapStep(mem, free, lo, s, v, junk);
  }

  /** Steps compose, if the middle space has every page that the outer two agree on. */
  lemma {:induction false} StepTwice(mem: seq<Page>, free: seq<nat>, s: Space, mem1: seq<Page>, free1: seq<nat>, s1: Space,
                                     mem2: seq<Page>, free2: seq<nat>, s2: Space, x: set<nat>, y: set<nat>)
    requires Step(mem, free, s, mem1, free1, s1, x) && Step(mem1, free1, s1, mem2, free2, s2, y)
    requires forall v :: v in s.pages && v in s2.pages && s.pages[v] == s2.pages[v] ==> v in s1.pages && s1.pages[v] == s.pages[v]
    ensures Step(mem, free, s, mem2, free2, s2, x + y)
  {
    assert StepBody(0, mem, free, s, mem1, free1, s1, x) && StepBody(0, mem1, free1, s1, mem2, free2, s2, y);
  }

  /** What the page table in memory says about page `v`. */
  lemma {:induction false} TableEntry(mem: seq<Page>, free: seq<nat>, lo: nat, s: Space, v: nat)
    requires Good(mem, free, lo, s) && v / NENTRIES in s.pts
    ensures
      var pt := s.pts[v / NENTRIES];
      && lo <= pt < |mem| && pt !in free && (Present(mem[pt][v % NENTRIES]) <==> v in s.pages)
      && (v in s.pages ==> mem[pt][v % NENTRIES] == s.pages[v]) && Owned(s, pt)
  {
    assert GoodBody(0, mem, free, lo, s) && RepBody(0, mem, s);
    Tables(s, free, lo, |mem|);
    assert Pte(mem, s, v) == mem[s.pts[v / NENTRIES]][v % NENTRIES];
  }

  /** A page is present only if its table is. */
  lemma {:induction false} HasTable(mem: seq<Page>, free: seq<nat>, lo: nat, s: Space)
    requires Good(mem, free, lo, s)
    ensures forall v :: v in s.pages ==> v / NENTRIES in s.pts
  {
    assert GoodBody(0, mem, free, lo, s);
  }

  lemma {:induction false} StillTakeable(mem: seq<Page>, free: seq<nat>, s: Space, mem': seq<Page>, free': seq<nat>, s': Space, x: set<nat>,
                                         lo: nat, top: nat, v: nat, f: nat)
    requires Step(mem, free, s, mem', free', s', x) && Takeable(free, lo, top, s, v, f) && f !in x
    ensures Takeable(free', lo, top, s', v, f)
  {
    assert StepBody(0, mem, free, s, mem', free', s', x);
  }

  /** The frame of a user page that stays mapped keeps its contents. */
  lemma {:induction false} StepKeepsPage(mem: seq<Page>, free: seq<nat>, s: Space, mem': seq<Page>, free': seq<nat>, s': Space, x: set<nat>, v: nat)
    requires Step(mem, free, s, mem', free', s', x) && v < KERNPAGE && v in s.pages && v in s'.pages && s'.pages[v] == s.pages[v]
    requires Frame(s.pages[v]) < |mem|
    ensures |mem'| == |mem| && mem'[Frame(s.pages[v])] == mem[Frame(s.pages[v])]
  {
    assert StepBody(0, mem, free, s, mem', free', s', x);
  }

  // ---- Ranges of pages

  /** Page `a + k` is to be mapped to frame `f + k`: is frame `g` takeable for its page? */
  ghost predicate TakeAt(free: seq<nat>, lo: nat, top: nat, s: Space, a: nat, f: nat, g: nat)
    requires f <= g
  {
    Takeable(free, lo, top, s, a + (g - f), g)
  }

  ghost predicate TakeableAll(free: seq<nat>, lo: nat, top: nat, s: Space, a: nat, n: nat, f: nat) {
    forall g {:trigger TakeAt(free, lo, top, s, a, f, g)} :: f <= g < f + n ==> TakeAt(free, lo, top, s, a, f, g)
  }

  /** The frames that mapping `n` pages from `a` on to frames from `f` on brings into the space. */
  ghost function BringsAll(a: nat, n: nat, f: nat): set<nat> {
    set g | f <= g < f + n && ForUser(a, f, g)
  }

  predicate ForUser(a: nat, f: nat, g: nat) {
    a + g < f + KERNPAGE
  }

  lemma {:induction false} BringsMore(a: nat, n: nat, f: nat)
    ensures BringsAll(a, n + 1, f) == BringsAll(a, n, f) + Brings(a + n, f + n) && f + n !in BringsAll(a, n, f)
  {
  }

  /** The frames to be mapped as user pages have the contents they had. */
  ghost predicate FramesKept(mem: seq<Page>, mem': seq<Page>, a: nat, n: nat, f: nat) {
    |mem'| == |mem| && forall g :: f <= g < f + n && ForUser(a, f, g) && g < |mem| ==> mem'[g] == mem[g]
  }

  /** The page tables that a space with those of `keys` has once it maps `n` pages from `a` on. */
  ghost function Tabled(keys: set<nat>, a: nat, n: nat): set<nat> {
    if n == 0 then keys else Tabled(keys, a, n - 1) + {(a + n - 1) / NENTRIES}
  }

  /** How many page tables have to be allocated for that. */
  ghost function Needs(keys: set<nat>, a: nat, n: nat): nat {
    if n == 0 then 0 else Needs(keys, a, n - 1) + if (a + n - 1) / NENTRIES in Tabled(keys, a, n - 1) then 0 else 1
  }

  lemma {:induction false} TabledMore(keys: set<nat>, a: nat, n: nat)
    ensures Tabled(keys, a, n + 1) == Tabled(keys, a, n) + {(a + n) / NENTRIES}
    ensures Tabled(keys, a, 0) == keys
  {
  }

  lemma {:induction false} NeedsNext(keys: set<nat>, a: nat, n: nat)
    ensures Needs(keys, a, n + 1) == Needs(keys, a, n) + if (a + n) / NENTRIES in Tabled(keys, a, n) then 0 else 1
  {
  }

  lemma {:induction false} NeedsMore(keys: set<nat>, a: nat, n: nat, n': nat)
    requires n <= n'
    ensures Needs(keys, a, n) <= Needs(keys, a, n')
  {
    if n < n' { NeedsMore(keys, a, n, n' - 1); }
  }

  /** How many page tables the first `n` pages take. */
  function TablesUp(n: nat): nat { (n + NENTRIES - 1) / NENTRIES }

  /** Pages in a row need one table after the other; the table of the first page is there, unless the page is the first in it. */
  lemma {:induction false} NeedsRow(keys: set<nat>, a: nat, n: nat)
    requires a % NENTRIES != 0 ==> a / NENTRIES in keys
    requires forall i :: i in keys ==> i < TablesUp(a) || TablesUp(a + n) <= i
    ensures Needs(keys, a, n) == TablesUp(a + n) - TablesUp(a)
    ensures forall i :: i in Tabled(keys, a, n) <==> i in keys || TablesUp(a) <= i < TablesUp(a + n)
  {
    if n > 0 {
      var m, q := n - 1, (a + n - 1) / NENTRIES;
      RowStep(a, m);
      NeedsRow(keys, a, m);
      RowNext(keys, Tabled(keys, a, m), TablesUp(a), TablesUp(a + m), TablesUp(a + n), q);
      assert Needs(keys, a, n) == Needs(keys, a, m) + if q in Tabled(keys, a, m) then 0 else 1;
      assert Tabled(keys, a, n) == Tabled(keys, a, m) + {q};
    }
  }

  /** The table of page a + m is the next one, or the last one of the pages before, or that of page `a`. */
  lemma {:induction false} RowStep(a: nat, m: nat)
    ensures
      var q, hi := (a + m) / NENTRIES, TablesUp(a + m);
      && TablesUp(a) <= hi && (if q == hi then TablesUp(a + m + 1) == hi + 1 else q + 1 == TablesUp(a + m + 1) == hi)
      && (q < TablesUp(a) ==> a % NENTRIES != 0 && a / NENTRIES == q)
  {
    TableUp(a);
    TableUp(a + m);
  }

  /** Table `q`, the next of the row from `lo` up to `hi`, or the last of it. */
  lemma {:induction false} RowNext(keys: set<nat>, tabled: set<nat>, lo: nat, hi: nat, hi': nat, q: nat)
    requires lo <= hi && (if q == hi then hi' == hi + 1 else q + 1 == hi' == hi) && (q < lo ==> q in keys)
    requires forall i :: i in keys ==> i < lo || hi' <= i
    requires forall i :: i in tabled <==> i in keys || lo <= i < hi
    ensures (q in tabled <==> q < hi) && forall i :: i in tabled + {q} <==> i in keys || lo <= i < hi'
  {
  }

  lemma {:induction false} TableUp(n: nat)
    ensures if n % NENTRIES == 0 then n / NENTRIES == TablesUp(n) == TablesUp(n + 1) - 1 else TablesUp(n) == TablesUp(n + 1) == n / NENTRIES + 1
  {
  }

  lemma {:induction false} SameSize(mem: seq<Page>, free: seq<nat>, s: Space, mem': seq<Page>, free': seq<nat>, s': Space, x: set<nat>)
    requires Step(mem, free, s, mem', free', s', x)
    ensures |mem'| == |mem|
  {
    assert StepBody(0, mem, free, s, mem', free', s', x);
  }

  lemma {:induction false} StepParts(mem: seq<Page>, free: seq<nat>, s: Space, mem': seq<Page>, free': seq<nat>, s': Space, x: set<nat>)
    requires Step(mem, free, s, mem', free', s', x)
    ensures Conserved(free, s, free', s', x) && Untouched(mem, mem', free, s, x)
  {
    assert StepBody(0, mem, free, s, mem', free', s', x);
  }

  lemma {:induction false} StepLeaves(mem: seq<Page>, free: seq<nat>, s: Space, mem': seq<Page>, free': seq<nat>, s': Space, x: set<nat>, f: nat)
    requires Step(mem, free, s, mem', free', s', x) && f < |mem| && f !in free && f !in x && !Owned(s, f)
    ensures |mem'| == |mem| && mem'[f] == mem[f]
  {
    assert StepBody(0, mem, free, s, mem', free', s', x);
  }

  // ---- Ranges of pages

  /** `n` pages from `v` on are mapped to consecutive frames. */
  ghost function MapRange(pages: map<nat, nat>, v: nat, n: nat, f: nat, perm: nat): map<nat, nat> {
    if n == 0 then pages else MapRange(pages, v, n - 1, f, perm)[v + n - 1 := Entry(f + n - 1, perm)]
  }

  lemma {:induction false} MapRangeOne(pages: map<nat, nat>, v: nat, n: nat, f: nat, perm: nat, w: nat)
    ensures
      var r := MapRange(pages, v, n, f, perm);
      && (w in r <==> w in pages || v <= w < v + n)
      && (w in r ==> r[w] == if v <= w < v + n then Entry(f + (w - v), perm) else pages[w])
  {
    if n > 0 {
      MapRangeOne(pages, v, n - 1, f, perm, w);
      var before := MapRange(pages, v, n - 1, f, perm);
      var r := before[v + n - 1 := Entry(f + n - 1, perm)];
      assert MapRange(pages, v, n, f, perm) == r;
      if w == v + n - 1 {
        assert f + (w - v) == f + n - 1;
      } else {
        assert w in r ==> r[w] == before[w];
      }
    }
  }

  lemma {:induction false} MapRangeAt(pages: map<nat, nat>, v: nat, n: nat, f: nat, perm: nat)
    ensures
      var r := MapRange(pages, v, n, f, perm);
      && (forall w: nat :: w in r <==> w in pages || v <= w < v + n)
      && (forall w: nat :: w in r ==> r[w] == if v <= w < v + n then Entry(f + (w - v), perm) else pages[w])
  {
    var r := MapRange(pages, v, n, f, perm);
    forall w: nat ensures (w in r <==> w in pages || v <= w < v + n) &&
      (w in r ==> r[w] == if v <= w < v + n then Entry(f + (w - v), perm) else pages[w])
    {
      MapRangeOne(pages, v, n, f, perm, w);
    }
  }

  /** None of `n` pages from `v` on is present. */
  ghost predicate Unmapped(pages: map<nat, nat>, v: nat, n: nat) {
    forall w :: v <= w < v + n ==> w !in pages
  }

  /** One page more is mapped behind `n` that were not present before. */
  lemma {:induction false} MapRangeMore(pages: map<nat, nat>, v: nat, n: nat, f: nat, perm: nat)
    requires Unmapped(pages, v, n)
    ensures v + n in MapRange(pages, v, n, f, perm) <==> v + n in pages
    ensures v + n !in pages ==> Unmapped(pages, v, n + 1)
    ensures forall w :: w in pages ==> w in MapRange(pages, v, n, f, perm) && MapRange(pages, v, n, f, perm)[w] == pages[w]
  {
    MapRangeAt(pages, v, n, f, perm);
  }

  /** The pages from `v` up to `w` are unmapped. */
  ghost function Without(pages: map<nat, nat>, v: nat, w: nat): (r: map<nat, nat>)
    ensures forall x :: x in r <==> x in pages && !(v <= x < w)
    ensures forall x :: x in r ==> r[x] == pages[x]
  {
    map x | x in pages && !(v <= x < w) :: pages[x]
  }

  lemma {:induction false} WithoutMore(pages: map<nat, nat>, v: nat, w: nat)
    requires v <= w
    ensures Without(pages, v, w + 1) == Without(pages, v, w) - {w} && (w in Without(pages, v, w) <==> w in pages)
    ensures w !in pages ==> Without(pages, v, w + 1) == Without(pages, v, w)
  {
  }

  /** Pages without a table need not be visited. */
  lemma {:induction false} WithoutSkip(pages: map<nat, nat>, pts: map<nat, nat>, v: nat, w: nat)
    requires v <= w && w / NENTRIES !in pts && forall x :: x in pages ==> x / NENTRIES in pts
    ensures forall x :: w <= x <= (w / NENTRIES + 1) * NENTRIES ==> Without(pages, v, x) == Without(pages, v, w)
  {
  }

  /** Pages from `first` up to `a` are added to `pages0`, and nothing else has changed. */
  ghost predicate Extends(pages0: map<nat, nat>, pages: map<nat, nat>, first: nat, a: nat) {
    && (forall v: nat :: v in pages <==> v in pages0 || first <= v < a)
    && (forall v :: v in pages0 ==> v in pages && pages[v] == pages0[v])
  }

  /** Unmapping again what was added leaves what there was. */
  lemma {:induction false} ExtendsWithout(pages0: map<nat, nat>, pages: map<nat, nat>, first: nat, a: nat, last: nat)
    requires Extends(pages0, pages, first, a) && first <= a <= last && Unmapped(pages0, first, last - first)
    ensures Without(pages, first, last) == pages0
  {
  }

  predicate Blank(page: Page) {
    forall k :: 0 <= k < NWORDS ==> page[k] == 0
  }

  /** These pages are present, writable, for user mode (bits 0 to 2), and full of zeros. */
  ghost predicate Zeroed(mem: seq<Page>, pages: map<nat, nat>, first: nat, a: nat) {
    forall v: nat :: first <= v < a ==>
      v in pages && Flags(pages[v]) == 7 && Frame(pages[v]) < |mem| && Blank(mem[Frame(pages[v])])
  }

  lemma {:induction false} ExtendsMore(mem: seq<Page>, free: seq<nat>, s: Space, mem': seq<Page>, free': seq<nat>, s': Space,
                                       pages0: map<nat, nat>, first: nat, a: nat, f: nat)
    requires Step(mem, free, s, mem', free', s', {}) && first <= a < KERNPAGE && a !in s.pages && s'.pages == s.pages[a := Entry(f, PTE_W + PTE_U)]
    requires Extends(pages0, s.pages, first, a) && Zeroed(mem, s.pages, first, a) && f < |mem'| && mem'[f] == ZeroPage
    ensures Extends(pages0, s'.pages, first, a + 1) && Zeroed(mem', s'.pages, first, a + 1)
  {
    assert StepBody(0, mem, free, s, mem', free', s', {});
    EntryParts(f, PTE_W + PTE_U);
    assert forall v: nat :: v in s'.pages <==> v in pages0 || first <= v < a + 1;
    forall v: nat | first <= v < a + 1
      ensures v in s'.pages && Flags(s'.pages[v]) == PTE_P + PTE_W + PTE_U && Frame(s'.pages[v]) < |mem'| && Blank(mem'[Frame(s'.pages[v])])
    {
      if v < a {
        assert v in s.pages && s'.pages[v] == s.pages[v];
      }
    }
  }

  // ---- A frame between the free list and a space

  /** A frame taken from the free list may be written, and may become a page. */
  lemma {:induction false} Float(mem: seq<Page>, free: seq<nat>, lo: nat, s: Space, page: Page)
    requires Good(mem, free, lo, s) && free != [] && lo <= free[0] < |mem| && free[0] !in free[1..]
    ensures Good(mem[free[0] := page], free[1..], lo, s) && !Owned(s, free[0])
  {
    assert GoodBody(0, mem, free, lo, s);
    var f := free[0];
    assert !Owned(s, f);
    Tables(s, free, lo, |mem|);
    RepFrame(mem, mem[f := page], s);
    assert Apart(s, free[1..], lo, |mem|);
    MakeGood(mem[f := page], free[1..], lo, s);
  }

  /** Taking a frame from the free list and bringing it into the space conserves frames. */
  lemma {:induction false} Absorb(mem: seq<Page>, free: seq<nat>, lo: nat, s: Space, page: Page, mem': seq<Page>, free': seq<nat>, s': Space)
    requires Good(mem, free, lo, s) && free != [] && lo <= free[0] < |mem|
    requires Step(mem[free[0] := page], free[1..], s, mem', free', s', {free[0]})
    ensures Step(mem, free, s, mem', free', s', {})
  {
    var f := free[0];
    assert GoodBody(0, mem, free, lo, s) && StepBody(0, mem[f := page], free[1..], s, mem', free', s', {f});
    assert free == [f] + free[1..];
    Users(s, free, lo, |mem|);
  }

  /** A frame that was taken and not used is still apart from everything, and can be given back. */
  lemma {:induction false} Sink(mem: seq<Page>, free: seq<nat>, lo: nat, s: Space, page: Page, mem': seq<Page>, free': seq<nat>, s': Space, junk: Page)
    requires Good(mem, free, lo, s) && free != [] && lo <= free[0] < |mem| == |mem'| && free[0] !in free[1..]
    requires Step(mem[free[0] := page], free[1..], s, mem', free', s', {}) && Good(mem', free', lo, s')
    ensures free[0] !in free'
    ensures Good(mem'[free[0] := junk], [free[0]] + free', lo, s') && Step(mem, free, s, mem'[free[0] := junk], [free[0]] + free', s', {})
  {
    var f := free[0];
    Float(mem, free, lo, s, page);
    assert !Owned(s', f) && f !in free' by {
      assert StepBody(0, mem[f := page], free[1..], s, mem', free', s', {});
    }
    SinkGood(mem', free', lo, s', f, junk);
    SinkStep(mem, free, lo, s, page, mem', free', s', junk);
  }

  lemma {:induction false} SinkGood(mem: seq<Page>, free: seq<nat>, lo: nat, s: Space, f: nat, junk: Page)
    requires Good(mem, free, lo, s) && f < |mem| && f !in free && !Owned(s, f)
    ensures Good(mem[f := junk], [f] + free, lo, s)
  {
    assert GoodBody(0, mem, free, lo, s);
    Tables(s, free, lo, |mem|);
    RepFrame(mem, mem[f := junk], s);
    assert Apart(s, [f] + free, lo, |mem|);
    MakeGood(mem[f := junk], [f] + free, lo, s);
  }

  lemma {:induction false} SinkStep(mem: seq<Page>, free: seq<nat>, lo: nat, s: Space, page: Page, mem': seq<Page>, free': seq<nat>, s': Space, junk: Page)
    requires Good(mem, free, lo, s) && free != [] && lo <= free[0] < |mem| == |mem'|
    requires Step(mem[free[0] := page], free[1..], s, mem', free', s', {})
    ensures Step(mem, free, s, mem'[free[0] := junk], [free[0]] + free', s', {})
  {
    var f := free[0];
    assert GoodBody(0, mem, free, lo, s) && StepBody(0, mem[f := page], free[1..], s, mem', free', s', {});
    assert free == [f] + free[1..];
    Users(s, free, lo, |mem|);
  }

  // ---- Giving a whole space back

  /** The tables with an index below `i` have joined the free frames. */
  ghost predicate TablesFreed(free: seq<nat>, free': seq<nat>, s: Space, i: nat) {
    forall f :: f in free' <==> f in free || exists j :: j in s.pts && j < i && s.pts[j] == f
  }

  lemma {:induction false} FreeTable(free: seq<nat>, free': seq<nat>, s: Space, lo: nat, top: nat, i: nat)
    requires Apart(s, free, lo, top) && TablesFreed(free, free', s, i)
    ensures i in s.pts ==> s.pts[i] !in free' && s.pts[i] != s.pd && TablesFreed(free, [s.pts[i]] + free', s, i + 1)
    ensures i !in s.pts ==> TablesFreed(free, free', s, i + 1)
    ensures s.pd !in free'
  {
    Tables(s, free, lo, top);
    if i in s.pts {
      forall f ensures f in [s.pts[i]] + free' <==> f in free || exists j :: j in s.pts && j < i + 1 && s.pts[j] == f {
      }
    } else {
      forall f ensures f in free' <==> f in free || exists j :: j in s.pts && j < i + 1 && s.pts[j] == f {
      }
    }
  }

  /** With no user pages left, directory and tables are all that a space owns. */
  lemma {:induction false} AllFreed(free: seq<nat>, free': seq<nat>, s: Space)
    requires TablesFreed(free, free', s, NENTRIES) && (forall i :: i in s.pts ==> i < NENTRIES) && forall v :: v in s.pages ==> v >= KERNPAGE
    ensures forall f :: f in [s.pd] + free' <==> f in free || Owned(s, f)
  {
    forall f ensures f in [s.pd] + free' <==> f in free || Owned(s, f) {
      if Owned(s, f) {
        var r :| Holds(s, r) && At(s, r) == f;
        assert r == Dir || r.Table?;
      }
      if f == s.pd {
        assert Holds(s, Dir) && At(s, Dir) == f;
      }
      if j :| j in s.pts && j < NENTRIES && s.pts[j] == f {
        assert Holds(s, Table(j)) && At(s, Table(j)) == f;
      }
    }
  }

  /** The facts about a good space that freevm() uses. */
  lemma {:induction false} GoodParts(mem: seq<Page>, free: seq<nat>, lo: nat, s: Space)
    requires Good(mem, free, lo, s)
    ensures Rep(mem, s) && Shaped(mem, s) && Apart(s, free, lo, |mem|)
  {
    assert GoodBody(0, mem, free, lo, s);
  }

  // ---- A new space

  lemma {:induction false} EmptyRep(mem: seq<Page>, pd: nat)
    requires pd < |mem| && Blank(mem[pd])
    ensures Rep(mem, Space(pd, map[], map[]))
  {
    assert forall i :: 0 <= i < NENTRIES ==> mem[pd][i] == 0;
  }

  /** A directory of zeros stands for the empty space. */
  lemma {:induction false} EmptySpace(mem: seq<Page>, free: seq<nat>, lo: nat, pd: nat)
    requires lo <= pd < |mem| && pd !in free && Blank(mem[pd])
    ensures Good(mem, free, lo, Space(pd, map[], map[])) && forall f :: Owned(Space(pd, map[], map[]), f) <==> f == pd
  {
    var s := Space(pd, map[], map[]);
    EmptyRep(mem, pd);
    assert forall r :: Holds(s, r) <==> r == Dir;
    assert Apart(s, free, lo, |mem|);
    MakeGood(mem, free, lo, s);
    assert Owned(s, pd) by { assert Holds(s, Dir) && At(s, Dir) == pd; }
  }

  /** The space is made of frames that were free, and no other frame has been touched. */
  ghost predicate Carved(mem0: seq<Page>, free0: seq<nat>, mem: seq<Page>, free: seq<nat>, s: Space) {
    forall fold: nat :: CarvedBody(fold, mem0, free0, mem, free, s)
  }

  ghost predicate CarvedBody(fold: nat, mem0: seq<Page>, free0: seq<nat>, mem: seq<Page>, free: seq<nat>, s: Space) {
    && |mem| == |mem0| && (forall f :: f in free || Owned(s, f) <==> f in free0)
    && forall f :: 0 <= f < |mem0| && f !in free0 ==> mem[f] == mem0[f]
  }

  lemma {:induction false} CarvedEmpty(mem: seq<Page>, free: seq<nat>, lo: nat)
    requires free != [] && lo <= free[0] < |mem| && free[0] !in free[1..]
    ensures var s := Space(free[0], map[], map[]); Good(mem[free[0] := ZeroPage], free[1..], lo, s) && Carved(mem, free, mem[free[0] := ZeroPage], free[1..], s)
  {
    EmptySpace(mem[free[0] := ZeroPage], free[1..], lo, free[0]);
    assert free == [free[0]] + free[1..];
  }

  lemma {:induction false} CarvedStep(mem0: seq<Page>, free0: seq<nat>, mem: seq<Page>, free: seq<nat>, s: Space,
                                      mem': seq<Page>, free': seq<nat>, s': Space)
    requires Carved(mem0, free0, mem, free, s) && Step(mem, free, s, mem', free', s', {})
    ensures Carved(mem0, free0, mem', free', s')
  {
    assert CarvedBody(0, mem0, free0, mem, free, s) && StepBody(0, mem, free, s, mem', free', s', {});
  }

  /** Giving such a space back restores the set of free frames. */
  lemma {:induction false} CarvedFreed(mem0: seq<Page>, free0: seq<nat>, mem: seq<Page>, free: seq<nat>, s: Space, mem': seq<Page>, free': seq<nat>)
    requires Carved(mem0, free0, mem, free, s) && |mem'| == |mem| && forall f :: f in free' <==> f in free || Owned(s, f)
    requires forall f :: 0 <= f < |mem| && f !in free' ==> mem'[f] == mem[f]
    ensures |mem'| == |mem0| && (forall f :: f in free' <==> f in free0) && forall f :: 0 <= f < |mem0| && f !in free0 ==> mem'[f] == mem0[f]
  {
    assert CarvedBody(0, mem0, free0, mem, free, s);
  }

  /** Space `p` is as it was, down to the contents of its user pages. */
  ghost predicate SpaceKept(mem0: seq<Page>, mem: seq<Page>, free: seq<nat>, lo: nat, p: Space) {
    && Good(mem, free, lo, p) && |mem| == |mem0|
    && forall v :: v in p.pages && v < KERNPAGE ==> lo <= Frame(p.pages[v]) < |mem0| && mem[Frame(p.pages[v])] == mem0[Frame(p.pages[v])]
  }

  /** A space is kept if only frames that were free are touched, and no others are free now. */
  lemma {:induction false} KeepSpace(mem0: seq<Page>, free0: seq<nat>, mem: seq<Page>, free: seq<nat>, lo: nat, p: Space)
    requires Good(mem0, free0, lo, p) && |mem| == |mem0| && forall f :: f in free ==> f in free0
    requires forall f :: 0 <= f < |mem0| && f !in free0 ==> mem[f] == mem0[f]
    ensures SpaceKept(mem0, mem, free, lo, p)
  {
    assert GoodBody(0, mem0, free0, lo, p);
    Tables(p, free0, lo, |mem0|);
    RepFrame(mem0, mem, p);
    assert Apart(p, free, lo, |mem|);
    MakeGood(mem, free, lo, p);
    forall v | v in p.pages && v < KERNPAGE ensures lo <= Frame(p.pages[v]) < |mem0| && Frame(p.pages[v]) !in free0 {
      UserFrame(p, free0, lo, |mem0|, v);
    }
  }

  /** A space that was there before is kept while another is made of free frames. */
  lemma {:induction false} CarvedOther(mem0: seq<Page>, free0: seq<nat>, mem: seq<Page>, free: seq<nat>, s: Space, lo: nat, p: Space)
    requires Carved(mem0, free0, mem, free, s) && Good(mem0, free0, lo, p)
    ensures SpaceKept(mem0, mem, free, lo, p)
  {
    assert CarvedBody(0, mem0, free0, mem, free, s);
    KeepSpace(mem0, free0, mem, free, lo, p);
  }

  // ---- Copies

  /** The first `n` pages of `c` are copies of those of `p`, whose contents are in `mem0`; the rest of `c` is `kernel`. */
  ghost predicate Copied(mem0: seq<Page>, p: map<nat, nat>, mem: seq<Page>, c: map<nat, nat>, kernel: map<nat, nat>, n: nat) {
    && (forall v: nat :: v in c <==> v < n || v in kernel)
    && (forall v :: v in kernel ==> v in c && c[v] == kernel[v])
    && (forall v: nat :: v < n ==> CopyOf(mem0, p, mem, c, v))
  }

  /** Page `v` of `c` has the flags and the contents of page `v` of `p`. */
  ghost predicate CopyOf(mem0: seq<Page>, p: map<nat, nat>, mem: seq<Page>, c: map<nat, nat>, v: nat) {
    && v in p && v in c && Flags(c[v]) == Flags(p[v])
    && Frame(c[v]) < |mem| && Frame(p[v]) < |mem0| && mem[Frame(c[v])] == mem0[Frame(p[v])]
  }

  lemma {:induction false} CopiedMore(mem0: seq<Page>, p: map<nat, nat>, mem: seq<Page>, free: seq<nat>, c: Space,
                                      mem': seq<Page>, free': seq<nat>, c': Space, kernel: map<nat, nat>, n: nat, f: nat)
    requires Copied(mem0, p, mem, c.pages, kernel, n) && n < KERNPAGE && (forall v :: v in kernel ==> v >= KERNPAGE)
    requires Step(mem, free, c, mem', free', c', {}) && n in p && Present(p[n]) && c'.pages == c.pages[n := Entry(f, Flags(p[n]))]
    requires f < |mem'| && Frame(p[n]) < |mem0| && mem'[f] == mem0[Frame(p[n])]
    ensures Copied(mem0, p, mem', c'.pages, kernel, n + 1)
  {
    assert StepBody(0, mem, free, c, mem', free', c', {});
    EntryParts(f, Flags(p[n]));
    forall v: nat | v < n + 1 ensures CopyOf(mem0, p, mem', c'.pages, v) {
      if v < n {
        assert CopyOf(mem0, p, mem, c.pages, v);
        assert c'.pages[v] == c.pages[v];
      }
    }
  }

  /** The user pages have distinct frames out of `free0`. */
  ghost predicate Fresh(pages: map<nat, nat>, free0: seq<nat>) {
    && (forall v :: v in pages && v < KERNPAGE ==> Frame(pages[v]) in free0)
    && (forall v, w :: v in pages && w in pages && v < KERNPAGE && w < KERNPAGE && v != w ==> Frame(pages[v]) != Frame(pages[w]))
  }

  /** The frames of a space made of free frames were free, and are distinct. */
  lemma {:induction false} CarvedFresh(mem0: seq<Page>, free0: seq<nat>, mem: seq<Page>, free: seq<nat>, s: Space, lo: nat)
    requires Carved(mem0, free0, mem, free, s) && Good(mem, free, lo, s)
    ensures Fresh(s.pages, free0)
  {
    assert CarvedBody(0, mem0, free0, mem, free, s) && GoodBody(0, mem, free, lo, s);
    forall v | v in s.pages && v < KERNPAGE
      ensures Frame(s.pages[v]) in free0 && forall w :: w in s.pages && w < KERNPAGE && v != w ==> Frame(s.pages[v]) != Frame(s.pages[w])
    {
      UserFrame(s, free, lo, |mem|, v);
    }
  }

  // ---- Several spaces

  /** An operation on one space keeps every other: its tables, its pages and their contents, and that they have no frame in common. */
  lemma {:induction false} StepKeepsOthers(mem: seq<Page>, free: seq<nat>, s: Space, mem': seq<Page>, free': seq<nat>, s': Space, lo: nat, p: Space)
    requires Step(mem, free, s, mem', free', s', {}) && Good(mem, free, lo, p) && forall f :: Owned(p, f) ==> !Owned(s, f)
    ensures SpaceKept(mem, mem', free', lo, p) && forall f :: Owned(p, f) ==> !Owned(s', f)
  {
    assert StepBody(0, mem, free, s, mem', free', s', {}) && GoodBody(0, mem, free, lo, p);
    assert forall f: nat :: Owned(p, f) ==> f !in free && lo <= f < |mem|;
    assert forall f: nat :: Owned(p, f) ==> f !in free' && !Owned(s', f) && mem'[f] == mem[f];
    Tables(p, free, lo, |mem|);
    RepFrame(mem, mem', p);
    forall r | Holds(p, r) ensures At(p, r) !in free' {
      assert Owned(p, At(p, r));
    }
    assert Apart(p, free', lo, |mem'|);
    MakeGood(mem', free', lo, p);
    forall v | v in p.pages && v < KERNPAGE ensures lo <= Frame(p.pages[v]) < |mem| && mem'[Frame(p.pages[v])] == mem[Frame(p.pages[v])] {
      UserFrame(p, free, lo, |mem|, v);
    }
  }

  // ---- mappages

  /** `n` of `count` pages from `a` on have been mapped, none of which was there; the frames taken are theirs and those of the
      page tables that were missing. */
  ghost predicate MappedSoFar(s0: Space, mem0: seq<Page>, free0: seq<nat>, s: Space, mem: seq<Page>, free: seq<nat>, a: nat, n: nat, count: nat, f: nat, perm: nat) {
    forall fold: nat :: MappedBody(fold, s0, mem0, free0, s, mem, free, a, n, count, f, perm)
  }

  ghost predicate MappedBody(fold: nat, s0: Space, mem0: seq<Page>, free0: seq<nat>, s: Space, mem: seq<Page>, free: seq<nat>,
                             a: nat, n: nat, count: nat, f: nat, perm: nat) {
    && s.pages == MapRange(s0.pages, a, n, f, perm) && Unmapped(s0.pages, a, n)
    && Step(mem0, free0, s0, mem, free, s, BringsAll(a, n, f)) && FramesKept(mem0, mem, a, count, f)
    && s.pts.Keys == Tabled(s0.pts.Keys, a, n) && |free0| == |free| + Needs(s0.pts.Keys, a, n)
  }

  lemma {:induction false} NothingMapped(s: Space, mem: seq<Page>, free: seq<nat>, a: nat, count: nat, f: nat, perm: nat)
    ensures MappedSoFar(s, mem, free, s, mem, free, a, 0, count, f, perm)
  {
    NoStep(mem, free, s);
    TabledMore(s.pts.Keys, a, 0);
    assert BringsAll(a, 0, f) == {};
    assert MappedBody(0, s, mem, free, s, mem, free, a, 0, count, f, perm);
  }

  /** The next page can be mapped, unless it is there. */
  lemma {:induction false} MapsNext(s0: Space, mem0: seq<Page>, free0: seq<nat>, s: Space, mem: seq<Page>, free: seq<nat>, lo: nat,
                                    a: nat, n: nat, count: nat, f: nat, perm: nat)
    requires MappedSoFar(s0, mem0, free0, s, mem, free, a, n, count, f, perm) && n < count
    requires TakeableAll(free0, lo, |mem|, s0, a, count, f)
    ensures Takeable(free, lo, |mem|, s, a + n, f + n) && (a + n in s.pages <==> a + n in s0.pages)
  {
    assert MappedBody(0, s0, mem0, free0, s, mem, free, a, n, count, f, perm);
    assert TakeAt(free0, lo, |mem|, s0, a, f, f + n);
    BringsMore(a, n, f);
    StillTakeable(mem0, free0, s0, mem, free, s, BringsAll(a, n, f), lo, |mem|, a + n, f + n);
    MapRangeMore(s0.pages, a, n, f, perm);
  }

  lemma {:induction false} MappedOneMore(s0: Space, mem0: seq<Page>, free0: seq<nat>, s: Space, mem: seq<Page>, free: seq<nat>,
                                         s': Space, mem': seq<Page>, free': seq<nat>, lo: nat, a: nat, n: nat, count: nat, f: nat, perm: nat)
    requires MappedSoFar(s0, mem0, free0, s, mem, free, a, n, count, f, perm) && n < count && a + n !in s.pages && perm < PGSIZE
    requires TakeableAll(free0, lo, |mem|, s0, a, count, f)
    requires s'.pages == s.pages[a + n := Entry(f + n, perm)] && Step(mem, free, s, mem', free', s', Brings(a + n, f + n))
    requires s'.pts.Keys == s.pts.Keys + {(a + n) / NENTRIES} && |free| == |free'| + if (a + n) / NENTRIES in s.pts then 0 else 1
    requires |mem'| == |mem| && (a + n < KERNPAGE && f + n < |mem| ==> mem'[f + n] == mem[f + n])
    ensures MappedSoFar(s0, mem0, free0, s', mem', free', a, n + 1, count, f, perm)
  {
    assert MappedBody(0, s0, mem0, free0, s, mem, free, a, n, count, f, perm);
    MapRangeMore(s0.pages, a, n, f, perm);
    BringsMore(a, n, f);
    TabledMore(s0.pts.Keys, a, n);
    StepTwice(mem0, free0, s0, mem, free, s, mem', free', s', BringsAll(a, n, f), Brings(a + n, f + n));
    forall g | f <= g < f + count && ForUser(a, f, g) && g < |mem| ensures mem'[g] == mem[g] {
      FrameKept(s0, mem0, free0, s, mem, free, s', mem', free', lo, a, n, count, f, perm, g);
    }
    assert MappedBody(0, s0, mem0, free0, s', mem', free', a, n + 1, count, f, perm);
  }

  lemma {:induction false} MappedAt(pages: map<nat, nat>, a: nat, n: nat, f: nat, perm: nat, v: nat)
    requires a <= v < a + n
    ensures v in MapRange(pages, a, n, f, perm) && MapRange(pages, a, n, f, perm)[v] == Entry(f + (v - a), perm)
  {
    MapRangeOne(pages, a, n, f, perm, v);
  }

  lemma {:induction false} FrameKept(s0: Space, mem0: seq<Page>, free0: seq<nat>, s: Space, mem: seq<Page>, free: seq<nat>,
                                     s': Space, mem': seq<Page>, free': seq<nat>, lo: nat, a: nat, n: nat, count: nat, f: nat, perm: nat, g: nat)
    requires MappedSoFar(s0, mem0, free0, s, mem, free, a, n, count, f, perm) && n < count && a + n !in s.pages && perm < PGSIZE
    requires TakeableAll(free0, lo, |mem|, s0, a, count, f)
    requires s'.pages == s.pages[a + n := Entry(f + n, perm)] && Step(mem, free, s, mem', free', s', Brings(a + n, f + n))
    requires |mem'| == |mem| && (a + n < KERNPAGE && f + n < |mem| ==> mem'[f + n] == mem[f + n])
    requires f <= g < f + count && ForUser(a, f, g) && g < |mem|
    ensures mem'[g] == mem[g]
  {
    assert MappedBody(0, s0, mem0, free0, s, mem, free, a, n, count, f, perm);
    var v := a + (g - f);
    if g < f + n {
      MappedAt(s0.pages, a, n, f, perm, v);
      EntryParts(g, perm);
      StepKeepsPage(mem, free, s, mem', free', s', Brings(a + n, f + n), v);
    } else if g > f + n {
      assert TakeAt(free0, lo, |mem|, s0, a, f, g);
      StillTakeable(mem0, free0, s0, mem, free, s, BringsAll(a, n, f), lo, |mem|, v, g);
      StepLeaves(mem, free, s, mem', free', s', Brings(a + n, f + n), g);
    }
  }

  lemma {:induction false} OneMapped(s0: Space, mem0: seq<Page>, free0: seq<nat>, s: Space, mem: seq<Page>, free: seq<nat>, v: nat, n: nat, f: nat, perm: nat)
    requires MappedSoFar(s0, mem0, free0, s, mem, free, v, n, 1, f, perm) && n <= 1 && v < KERNPAGE && f < |mem0|
    ensures |mem| == |mem0| && mem[f] == mem0[f]
    ensures n == 1 ==>
      && v !in s0.pages && s.pages == s0.pages[v := Entry(f, perm)] && Step(mem0, free0, s0, mem, free, s, {f})
      && s.pts.Keys == s0.pts.Keys + {v / NENTRIES} && |free0| == |free| + if v / NENTRIES in s0.pts then 0 else 1
  {
    assert MappedBody(0, s0, mem0, free0, s, mem, free, v, n, 1, f, perm);
    TabledMore(s0.pts.Keys, v, 0);
    assert Needs(s0.pts.Keys, v, 0) == 0;
    assert ForUser(v, f, f);
    assert BringsAll(v, 1, f) == {f};
    assert MapRange(s0.pages, v, 0, f, perm) == s0.pages;
  }

  /** Kernel pages are nobody's. */
  lemma {:induction false} KernelMapped(s0: Space, mem0: seq<Page>, free0: seq<nat>, s: Space, mem: seq<Page>, free: seq<nat>, a: nat, n: nat, count: nat, f: nat, perm: nat)
    requires MappedSoFar(s0, mem0, free0, s, mem, free, a, n, count, f, perm) && a >= KERNPAGE
    ensures s.pages == MapRange(s0.pages, a, n, f, perm) && Step(mem0, free0, s0, mem, free, s, {})
    ensures s.pts.Keys == Tabled(s0.pts.Keys, a, n) && |free0| == |free| + Needs(s0.pts.Keys, a, n)
  {
    assert MappedBody(0, s0, mem0, free0, s, mem, free, a, n, count, f, perm);
    assert BringsAll(a, n, f) == {};
  }

  // ---- allocuvm

  /** Pages from `first` up to `a` are new, zeroed, and with their page tables account for the frames taken. */
  ghost predicate Grown(s0: Space, free0: seq<nat>, s: Space, mem: seq<Page>, free: seq<nat>, first: nat, a: nat) {
    forall fold: nat :: GrownBody(fold, s0, free0, s, mem, free, first, a)
  }

  ghost predicate GrownBody(fold: nat, s0: Space, free0: seq<nat>, s: Space, mem: seq<Page>, free: seq<nat>, first: nat, a: nat) {
    && first <= a && Extends(s0.pages, s.pages, first, a) && Zeroed(mem, s.pages, first, a)
    && s.pts.Keys == Tabled(s0.pts.Keys, first, a - first) && |free0| == |free| + Frames(s0, first, a)
  }

  /** Frames that the pages from `first` up to `a` need, page tables included. */
  ghost function Frames(s: Space, first: nat, a: nat): nat
    requires first <= a
  {
    a - first + Needs(s.pts.Keys, first, a - first)
  }

  lemma {:induction false} GrownStart(s: Space, mem: seq<Page>, free: seq<nat>, first: nat)
    ensures Grown(s, free, s, mem, free, first, first)
  {
    TabledMore(s.pts.Keys, first, 0);
    assert GrownBody(0, s, free, s, mem, free, first, first);
  }

  /** One more page. */
  lemma {:induction false} GrownMore(s0: Space, free0: seq<nat>, mem: seq<Page>, free: seq<nat>, s: Space, mem': seq<Page>, free': seq<nat>, s': Space,
                                     first: nat, a: nat, f: nat)
    requires Grown(s0, free0, s, mem, free, first, a) && a < KERNPAGE && a !in s.pages
    requires Step(mem, free, s, mem', free', s', {}) && s'.pages == s.pages[a := Entry(f, PTE_W + PTE_U)] && f < |mem'| && mem'[f] == ZeroPage
    requires s'.pts.Keys == s.pts.Keys + {a / NENTRIES} && |free| == |free'| + 1 + if a / NENTRIES in s.pts then 0 else 1
    ensures Grown(s0, free0, s', mem', free', first, a + 1)
  {
    assert GrownBody(0, s0, free0, s, mem, free, first, a);
    ExtendsMore(mem, free, s, mem', free', s', s0.pages, first, a, f);
    TabledMore(s0.pts.Keys, first, a - first);
    assert GrownBody(0, s0, free0, s', mem', free', first, a + 1);
  }

  /** When a page cannot be had, there were not enough frames for all pages up to `last`. */
  lemma {:induction false} TooFew(s0: Space, free0: seq<nat>, s: Space, mem: seq<Page>, free: seq<nat>, first: nat, a: nat, last: nat)
    requires Grown(s0, free0, s, mem, free, first, a) && a < last && |free| < 1 + if a / NENTRIES in s.pts then 0 else 1
    ensures first <= a && |free0| < Frames(s0, first, last)
  {
    assert GrownBody(0, s0, free0, s, mem, free, first, a);
    TooFewFrames(s0.pts.Keys, first, a - first, last - first, |free0|, |free|);
  }

  lemma {:induction false} TooFewFrames(keys: set<nat>, first: nat, n: nat, total: nat, free0: nat, free: nat)
    requires n < total && free0 == free + n + Needs(keys, first, n)
    requires free < 1 + if (first + n) / NENTRIES in Tabled(keys, first, n) then 0 else 1
    ensures free0 < total + Needs(keys, first, total)
  {
    NeedsNext(keys, first, n);
    NeedsMore(keys, first, n + 1, total);
  }
}

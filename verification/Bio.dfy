/** The buffer cache of bio.c over the memory disk of memide.c. */
module Bio {
  import opened Base
  import opened LogDisk

  const NBUF := 3 * MAXOPBLOCKS
  const HEAD := NBUF            // index of bcache.head among the list nodes
  const DISK_DEV := 1

  /** struct buf without its list links; `locked` is the state of its sleep lock. */
  datatype Buf = Buf(valid: bool, dirty: bool, dev: nat, blockno: nat, refcnt: nat, locked: bool, data: Block)

  // ---- The circular list

  /** Node `i` of the circle h, order[0], order[1], ..., h. */
  function Node(h: nat, order: seq<nat>, i: int): nat {
    if 0 <= i < |order| then order[i] else h
  }

  /** `next` and `prev` link `order` into a circle through `h`. */
  ghost predicate Ring(h: nat, next: seq<nat>, prev: seq<nat>, order: seq<nat>) {
    && |next| == |prev| && h < |next|
    && NoDuplicates(order)
    && (forall i :: 0 <= i < |order| ==> order[i] < |next| && order[i] != h)
    && next[h] == Node(h, order, 0)
    && prev[h] == Node(h, order, |order| - 1)
    && (|order| > 0 ==> prev[order[0]] == h && next[order[|order| - 1]] == h)
    && (forall i, j :: 0 <= i < j < |order| && j == i + 1 ==> next[order[i]] == order[j] && prev[order[j]] == order[i])
  }

  lemma {:induction false} RingStep(h: nat, next: seq<nat>, prev: seq<nat>, order: seq<nat>, i: nat)
    requires Ring(h, next, prev, order) && i < |order|
    ensures next[order[i]] == Node(h, order, i + 1)
    ensures prev[order[i]] == Node(h, order, i - 1)
  {
  }

  lemma {:induction false} RingPushFront(h: nat, next: seq<nat>, prev: seq<nat>, order: seq<nat>, b: nat)
    requires Ring(h, next, prev, order) && b < |next| && b != h && b !in order
    ensures
      var next1, prev1 := next[b := next[h]], prev[b := h];
      Ring(h, next1[h := b], prev1[next1[h] := b], [b] + order)
  {
    var next2, prev2 := next[b := next[h]][h := b], prev[b := h][next[h] := b];
    var o := [b] + order;
    forall i, j | 0 <= i < j < |o| && j == i + 1 ensures next2[o[i]] == o[j] && prev2[o[j]] == o[i] {
      if i > 0 {
        assert o[i] == order[i - 1] && o[j] == order[j - 1];
        RingStep(h, next, prev, order, i - 1);
        RingStep(h, next, prev, order, i);
      }
    }
  }

  function Without(order: seq<nat>, p: nat): seq<nat>
    requires p < |order|
  {
    order[..p] + order[p + 1..]
  }

  lemma {:induction false} WithoutAt(order: seq<nat>, p: nat)
    requires p < |order|
    ensures |Without(order, p)| == |order| - 1
    ensures forall i :: 0 <= i < |order| - 1 ==> Without(order, p)[i] == if i < p then order[i] else order[i + 1]
    ensures NoDuplicates(order) ==> NoDuplicates(Without(order, p)) && order[p] !in Without(order, p)
  {
  }

  lemma {:induction false} RingUnlink(h: nat, next: seq<nat>, prev: seq<nat>, order: seq<nat>, p: nat)
    requires Ring(h, next, prev, order) && p < |order|
    ensures next[order[p]] < |next| && prev[order[p]] < |next|
    ensures
      var b := order[p];
      Ring(h, next[prev[b] := next[b]], prev[next[b] := prev[b]], Without(order, p))
  {
    WithoutAt(order, p);
    RingStep(h, next, prev, order, p);
    var b, o := order[p], Without(order, p);
    var next1, prev1 := next[prev[b] := next[b]], prev[next[b] := prev[b]];
    forall i, j | 0 <= i < j < |o| && j == i + 1 ensures next1[o[i]] == o[j] && prev1[o[j]] == o[i] {
      UnlinkPair(h, next, prev, order, p, i);
    }
  }

  /** Neighbours in the list without its `p`-th element are linked to each other. */
  lemma {:induction false} UnlinkPair(h: nat, next: seq<nat>, prev: seq<nat>, order: seq<nat>, p: nat, i: nat)
    requires Ring(h, next, prev, order) && p < |order| && i + 1 < |order| - 1 && |Without(order, p)| == |order| - 1
    requires next[order[p]] < |next| && prev[order[p]] < |next|
    ensures
      var b, o := order[p], Without(order, p);
      next[prev[b] := next[b]][o[i]] == o[i + 1] && prev[next[b] := prev[b]][o[i + 1]] == o[i]
  {
    var k := if i < p then i else i + 1;
    RingStep(h, next, prev, order, p);
    RingStep(h, next, prev, order, k);
    RingStep(h, next, prev, order, k + 1);
    if i + 1 == p {
      RingStep(h, next, prev, order, p + 1);
    }
  }

  /** The list after its element `b` has moved to the front. */
  function ToFront(order: seq<nat>, b: nat): seq<nat> {
    [b] + Remove(order, b)
  }

  /** Element `b` is first in `moved`, and the others are in the order that they had. */
  ghost predicate OnlyMoved(order: seq<nat>, moved: seq<nat>, b: nat) {
    exists p :: 0 <= p < |order| && order[p] == b && moved == [b] + order[..p] + order[p + 1..]
  }

  lemma {:induction false} MovedAlone(order: seq<nat>, p: nat)
    requires p < |order|
    ensures OnlyMoved(order, [order[p]] + Without(order, p), order[p])
  {
    assert [order[p]] + Without(order, p) == [order[p]] + order[..p] + order[p + 1..];
  }

  function Remove(order: seq<nat>, b: nat): seq<nat> {
    if order == [] then [] else if order[0] == b then order[1..] else [order[0]] + Remove(order[1..], b)
  }

  lemma {:induction false} RemoveIsWithout(order: seq<nat>, p: nat)
    requires p < |order| && NoDuplicates(order)
    ensures Remove(order, order[p]) == Without(order, p)
  {
    if p > 0 {
      assert order[1..][p - 1] == order[p];
      RemoveIsWithout(order[1..], p - 1);
      assert Without(order, p) == [order[0]] + Without(order[1..], p - 1);
    } else {
      assert Without(order, 0) == order[1..];
    }
  }

  ghost predicate Covers(order: seq<nat>, n: nat) {
    forall i :: 0 <= i < n ==> i in order
  }

  lemma {:induction false} CoversMoved(order: seq<nat>, p: nat, n: nat)
    requires p < |order| && Covers(order, n)
    ensures Covers([order[p]] + Without(order, p), n)
  {
    var moved := [order[p]] + Without(order, p);
    forall i | 0 <= i < n ensures i in moved {
      assert i in order;
      var q: nat :| q < |order| && order[q] == i;
      assert q != p ==> moved[if q < p then q + 1 else q] == i;
      assert q == p ==> moved[0] == i;
    }
  }

  ghost predicate RingBody(fold: nat, next: seq<nat>, prev: seq<nat>, order: seq<nat>) {
    Ring(HEAD, next, prev, order)
  }

  /** `next` and `prev` link `order` into a circle through bcache.head; `assert RingBody(0, ...)` unfolds it. */
  ghost predicate Links(next: seq<nat>, prev: seq<nat>, order: seq<nat>) {
    |next| == |prev| == NBUF + 1 && forall fold: nat :: RingBody(fold, next, prev, order)
  }

  lemma {:induction false} LinksDistinct(next: seq<nat>, prev: seq<nat>, order: seq<nat>)
    requires Links(next, prev, order)
    ensures NoDuplicates(order)
  {
    assert RingBody(0, next, prev, order);
  }

  lemma {:induction false} LinksPush(next: seq<nat>, prev: seq<nat>, order: seq<nat>, b: nat)
    requires Links(next, prev, order) && b < NBUF && b !in order
    ensures next[HEAD] <= NBUF
    ensures
      var next1, prev1 := next[b := next[HEAD]], prev[b := HEAD];
      next1[HEAD] <= NBUF && Links(next1[HEAD := b], prev1[next1[HEAD] := b], [b] + order)
  {
    assert RingBody(0, next, prev, order);
    RingPushFront(HEAD, next, prev, order, b);
    var next1, prev1, order1 := next[b := next[HEAD]], prev[b := HEAD], [b] + order;
    var next2, prev2 := next1[HEAD := b], prev1[next1[HEAD] := b];
    assert RingBody(0, next2, prev2, order1);
  }

  lemma {:induction false} LinksUnlink(next: seq<nat>, prev: seq<nat>, order: seq<nat>, p: nat)
    requires Links(next, prev, order) && p < |order|
    ensures
      var b := order[p];
      && b < NBUF && next[b] <= NBUF && prev[b] <= NBUF
      && Links(next[prev[b] := next[b]], prev[next[b] := prev[b]], Without(order, p))
      && b !in Without(order, p) && prev[next[b] := prev[b]][b] == prev[b]
  {
    assert RingBody(0, next, prev, order);
    RingUnlink(HEAD, next, prev, order, p);
    WithoutAt(order, p);
    RingStep(HEAD, next, prev, order, p);
    var b, order1 := order[p], Without(order, p);
    var next1, prev1 := next[prev[b] := next[b]], prev[next[b] := prev[b]];
    assert RingBody(0, next1, prev1, order1);
  }

  // ---- The buffers

  ghost predicate BufOk(f: Buf, i: nat, at: map<nat, nat>, disk: Image) {
    && (f.dev == DISK_DEV ==> f.blockno in at && at[f.blockno] == i && f.blockno < |disk|)
    && (f.dev != DISK_DEV ==> !f.valid && !f.dirty && !f.locked)
    && (f.dirty ==> f.valid)
    && (f.locked ==> f.refcnt > 0 && f.valid)
    && (f.valid && !f.dirty && !f.locked ==> f.data == disk[f.blockno])
  }

  /** `at` says which buffer caches which disk block; a clean, unlocked, valid buffer equals the disk. */
  ghost predicate CacheOk(bufs: seq<Buf>, at: map<nat, nat>, disk: Image) {
    && |bufs| == NBUF
    && (forall b :: b in at ==> at[b] < NBUF && bufs[at[b]].dev == DISK_DEV && bufs[at[b]].blockno == b)
    && (forall i :: 0 <= i < NBUF ==> BufOk(bufs[i], i, at, disk))
  }

  /** What the rest of the kernel can tell of the cache: the value a reader of each block gets, the blocks
      pinned by the log, and for each block that somebody holds locked, its buffer. */
  datatype View = View(latest: Image, dirty: set<nat>, held: map<nat, nat>)

  ghost function Latest(bufs: seq<Buf>, at: map<nat, nat>, disk: Image, b: nat): Block
    requires CacheOk(bufs, at, disk) && b < |disk|
  {
    if b in at && bufs[at[b]].valid then bufs[at[b]].data else disk[b]
  }

  ghost function ViewOf(bufs: seq<Buf>, at: map<nat, nat>, disk: Image): View
    requires CacheOk(bufs, at, disk)
  {
    View(seq(|disk|, b requires 0 <= b < |disk| => Latest(bufs, at, disk, b)),
         set b | b in at && bufs[at[b]].dirty,
         map b | b in at && bufs[at[b]].locked :: at[b])
  }

  /** A buffer that `bget` may recycle: unreferenced, and not pinned by the log. */
  predicate Recyclable(f: Buf) {
    f.refcnt == 0 && !f.dirty
  }

  ghost predicate LeastRecentAt(order: seq<nat>, bufs: seq<Buf>, i: nat, p: int) {
    && 0 <= p < |order| && order[p] == i
    && forall q :: p < q < |order| ==> order[q] < |bufs| ==> !Recyclable(bufs[order[q]])
  }

  /** Buffer `i` is in the list, and no buffer behind it is recyclable. */
  ghost predicate LeastRecent(order: seq<nat>, bufs: seq<Buf>, i: nat) {
    exists p :: LeastRecentAt(order, bufs, i, p)
  }

  /** What becomes of buffer `i` when it is recycled for block `b`, and of the blocks it is found under. */
  function Recycled(f: Buf, b: nat): Buf {
    Buf(false, false, DISK_DEV, b, 1, false, f.data)
  }

  ghost function Moved(at: map<nat, nat>, f: Buf, i: nat, b: nat): map<nat, nat> {
    (if f.dev == DISK_DEV then at - {f.blockno} else at)[b := i]
  }

  lemma {:induction false} RecycledCacheOk(bufs: seq<Buf>, at: map<nat, nat>, disk: Image, i: nat, b: nat)
    requires CacheOk(bufs, at, disk) && i < NBUF && Recyclable(bufs[i]) && b !in at && b < |disk|
    ensures CacheOk(bufs[i := Recycled(bufs[i], b)], Moved(at, bufs[i], i, b), disk)
  {
  }

  /** Recycling buffer `i` for block `b` loses nothing: what it cached is on the disk. */
  lemma {:induction false} RecycleOk(bufs: seq<Buf>, at: map<nat, nat>, disk: Image, i: nat, b: nat)
    requires CacheOk(bufs, at, disk) && i < NBUF && Recyclable(bufs[i]) && b !in at && b < |disk|
    ensures
      var bufs1, at1 := bufs[i := Recycled(bufs[i], b)], Moved(at, bufs[i], i, b);
      CacheOk(bufs1, at1, disk) && ViewOf(bufs1, at1, disk) == ViewOf(bufs, at, disk)
  {
    RecycledCacheOk(bufs, at, disk, i, b);
    RecycledLatest(bufs, at, disk, i, b);
    RecycledSets(bufs, at, disk, i, b);
  }

  lemma {:induction false} RecycledLatest(bufs: seq<Buf>, at: map<nat, nat>, disk: Image, i: nat, b: nat)
    requires CacheOk(bufs, at, disk) && i < NBUF && Recyclable(bufs[i]) && b !in at && b < |disk|
    requires CacheOk(bufs[i := Recycled(bufs[i], b)], Moved(at, bufs[i], i, b), disk)
    ensures ViewOf(bufs[i := Recycled(bufs[i], b)], Moved(at, bufs[i], i, b), disk).latest == ViewOf(bufs, at, disk).latest
  {
    assert BufOk(bufs[i], i, at, disk);
  }

  lemma {:induction false} RecycledSets(bufs: seq<Buf>, at: map<nat, nat>, disk: Image, i: nat, b: nat)
    requires CacheOk(bufs, at, disk) && i < NBUF && Recyclable(bufs[i]) && b !in at && b < |disk|
    requires CacheOk(bufs[i := Recycled(bufs[i], b)], Moved(at, bufs[i], i, b), disk)
    ensures ViewOf(bufs[i := Recycled(bufs[i], b)], Moved(at, bufs[i], i, b), disk).dirty == ViewOf(bufs, at, disk).dirty
    ensures ViewOf(bufs[i := Recycled(bufs[i], b)], Moved(at, bufs[i], i, b), disk).held == ViewOf(bufs, at, disk).held
  {
    assert BufOk(bufs[i], i, at, disk);
  }

  /** Buffer `f` may take the place of a buffer for the same block, whose value on the disk becomes `d`. */
  predicate Sound(f: Buf, d: Block) {
    && f.dev == DISK_DEV && (f.dirty ==> f.valid) && (f.locked ==> f.refcnt > 0 && f.valid)
    && (f.valid && !f.dirty && !f.locked ==> f.data == d)
  }

  lemma {:induction false} ReplacedCacheOk(bufs: seq<Buf>, at: map<nat, nat>, disk: Image, i: nat, f: Buf, d: Block)
    requires CacheOk(bufs, at, disk) && i < NBUF && bufs[i].dev == DISK_DEV && f.blockno == bufs[i].blockno && Sound(f, d)
    ensures f.blockno in at && at[f.blockno] == i && f.blockno < |disk|
    ensures CacheOk(bufs[i := f], at, disk[f.blockno := d])
  {
    assert BufOk(bufs[i], i, at, disk);
  }

  /** Replacing buffer `i` by `f` for the same block, and the block on the disk by `d`. */
  lemma {:induction false} ReplaceOk(bufs: seq<Buf>, at: map<nat, nat>, disk: Image, i: nat, f: Buf, d: Block)
    requires CacheOk(bufs, at, disk) && i < NBUF && bufs[i].dev == DISK_DEV && f.blockno == bufs[i].blockno && Sound(f, d)
    ensures f.blockno in at && at[f.blockno] == i && f.blockno < |disk|
    ensures
      var b, disk1 := f.blockno, disk[f.blockno := d];
      && CacheOk(bufs[i := f], at, disk1)
      && ViewOf(bufs[i := f], at, disk1) == Replaced(ViewOf(bufs, at, disk), i, f, d)
  {
    ReplacedCacheOk(bufs, at, disk, i, f, d);
    ReplacedLatest(bufs, at, disk, i, f, d);
    ReplacedSets(bufs, at, disk, i, f, d);
  }

  /** The view after such a replacement. */
  ghost function Replaced(v: View, i: nat, f: Buf, d: Block): View
    requires f.blockno < |v.latest|
  {
    var b := f.blockno;
    View(v.latest[b := if f.valid then f.data else d],
         if f.dirty then v.dirty + {b} else v.dirty - {b},
         if f.locked then v.held[b := i] else v.held - {b})
  }

  lemma {:induction false} ReplacedLatest(bufs: seq<Buf>, at: map<nat, nat>, disk: Image, i: nat, f: Buf, d: Block)
    requires CacheOk(bufs, at, disk) && i < NBUF && bufs[i].dev == DISK_DEV && f.blockno == bufs[i].blockno < |disk|
    requires CacheOk(bufs[i := f], at, disk[f.blockno := d])
    ensures ViewOf(bufs[i := f], at, disk[f.blockno := d]).latest == Replaced(ViewOf(bufs, at, disk), i, f, d).latest
  {
    assert BufOk(bufs[i], i, at, disk);
  }

  lemma {:induction false} ReplacedSets(bufs: seq<Buf>, at: map<nat, nat>, disk: Image, i: nat, f: Buf, d: Block)
    requires CacheOk(bufs, at, disk) && i < NBUF && bufs[i].dev == DISK_DEV && f.blockno == bufs[i].blockno < |disk|
    requires CacheOk(bufs[i := f], at, disk[f.blockno := d])
    ensures ViewOf(bufs[i := f], at, disk[f.blockno := d]).dirty == Replaced(ViewOf(bufs, at, disk), i, f, d).dirty
    ensures ViewOf(bufs[i := f], at, disk[f.blockno := d]).held == Replaced(ViewOf(bufs, at, disk), i, f, d).held
  {
    assert BufOk(bufs[i], i, at, disk);
  }

  /** The reference count of a buffer counts its holder and everybody else who has a pointer to it: `refs` holds the
      block once for each process that waits for its lock, or has released it and not yet dropped its reference. */
  predicate RefOk(f: Buf, refs: multiset<nat>) {
    f.refcnt == if f.dev == DISK_DEV then refs[f.blockno] + (if f.locked then 1 else 0) else 0
  }

  ghost predicate RefsOk(bufs: seq<Buf>, at: map<nat, nat>, refs: multiset<nat>) {
    && (forall i :: 0 <= i < |bufs| ==> RefOk(bufs[i], refs))
    && (forall b :: b in refs ==> b in at)
  }

  /** Replacing a buffer for the same block, with the references to it counted anew. */
  lemma {:induction false} ReplaceRefs(bufs: seq<Buf>, at: map<nat, nat>, disk: Image, refs: multiset<nat>, i: nat, f: Buf, n: nat)
    requires CacheOk(bufs, at, disk) && RefsOk(bufs, at, refs) && i < NBUF
    requires bufs[i].dev == f.dev == DISK_DEV && f.blockno == bufs[i].blockno && RefOk(f, refs[f.blockno := n])
    ensures RefsOk(bufs[i := f], at, refs[f.blockno := n])
  {
    assert BufOk(bufs[i], i, at, disk);
    forall j | 0 <= j < |bufs| && j != i ensures RefOk(bufs[j], refs[f.blockno := n]) {
      assert RefOk(bufs[j], refs);
      assert BufOk(bufs[j], j, at, disk);
    }
  }

  lemma {:induction false} RecycleRefs(bufs: seq<Buf>, at: map<nat, nat>, disk: Image, refs: multiset<nat>, i: nat, b: nat)
    requires CacheOk(bufs, at, disk) && RefsOk(bufs, at, refs) && i < NBUF && Recyclable(bufs[i]) && b !in at
    ensures RefsOk(bufs[i := Recycled(bufs[i], b)], Moved(at, bufs[i], i, b), refs[b := refs[b] + 1])
  {
    assert RefOk(bufs[i], refs);
    forall j | 0 <= j < |bufs| && j != i ensures RefOk(bufs[j], refs[b := refs[b] + 1]) {
      assert RefOk(bufs[j], refs);
      assert BufOk(bufs[j], j, at, disk);
    }
  }

  // ---- The whole state

  datatype State = State(bufs: seq<Buf>, at: map<nat, nat>, disk: Image, view: View, refs: multiset<nat>)

  ghost predicate Body(fold: nat, s: State) {
    CacheOk(s.bufs, s.at, s.disk) && s.view == ViewOf(s.bufs, s.at, s.disk) && RefsOk(s.bufs, s.at, s.refs)
  }

  /** The invariant of the buffers. It is quantified so that callers see one fact, which `assert Body(0, s)` unfolds. */
  ghost predicate Ok(s: State) {
    |s.bufs| == NBUF && |s.view.latest| == |s.disk| && forall fold: nat :: Body(fold, s)
  }

  /** What the buffer of block `b` says about it. */
  lemma {:induction false} Look(s: State, i: nat, b: nat)
    requires Ok(s) && ((b in s.at && s.at[b] == i) || (b in s.view.held && s.view.held[b] == i))
    ensures b in s.at && s.at[b] == i && i < NBUF && b < |s.disk|
    ensures s.bufs[i].blockno == b && Sound(s.bufs[i], s.disk[b]) && RefOk(s.bufs[i], s.refs)
    ensures s.view.latest[b] == if s.bufs[i].valid then s.bufs[i].data else s.disk[b]
    ensures b in s.view.dirty <==> s.bufs[i].dirty
    ensures b in s.view.held <==> s.bufs[i].locked
    ensures b in s.view.held ==> s.view.held[b] == i
  {
    assert Body(0, s);
    assert BufOk(s.bufs[i], i, s.at, s.disk);
  }

  lemma {:induction false} CleanIsDisk(s: State, b: nat)
    requires Ok(s) && b < |s.disk| && b !in s.view.dirty && b !in s.view.held
    ensures s.view.latest[b] == s.disk[b]
  {
    assert Body(0, s);
  }

  /** Buffer `i` becomes `f`, its block becomes `d` on the disk, and has `n` references by processes without the lock. */
  ghost function Put(s: State, i: nat, f: Buf, d: Block, n: nat): State
    requires i < |s.bufs| && f.blockno < |s.disk| == |s.view.latest|
  {
    State(s.bufs[i := f], s.at, s.disk[f.blockno := d], Replaced(s.view, i, f, d), s.refs[f.blockno := n])
  }

  lemma {:induction false} PutOk(s: State, i: nat, f: Buf, d: Block, n: nat)
    requires Ok(s) && f.blockno in s.at && s.at[f.blockno] == i && Sound(f, d) && RefOk(f, s.refs[f.blockno := n])
    ensures i < NBUF && f.blockno < |s.disk| && Ok(Put(s, i, f, d, n))
  {
    assert Body(0, s);
    ReplaceOk(s.bufs, s.at, s.disk, i, f, d);
    ReplaceRefs(s.bufs, s.at, s.disk, s.refs, i, f, n);
    var t := Put(s, i, f, d, n);
    assert Body(0, t);
    assert forall fold: nat :: Body(fold, t);
  }

  /** A replacement that changes the lock of block `b` only. */
  lemma {:induction false} SameView(s: State, i: nat, b: nat, f: Buf)
    requires Ok(s) && b in s.at && s.at[b] == i && i < NBUF && b < |s.disk|
    requires f.blockno == b && f.dirty == s.bufs[i].dirty && (if f.valid then f.data else s.disk[b]) == s.view.latest[b]
    ensures Replaced(s.view, i, f, s.disk[b]) == s.view.(held := if f.locked then s.view.held[b := i] else s.view.held - {b})
    ensures f.locked == s.bufs[i].locked ==> Replaced(s.view, i, f, s.disk[b]) == s.view
    ensures s.disk[b := s.disk[b]] == s.disk
  {
    Look(s, i, b);
  }

  /** A replacement of a locked buffer leaves the holders alone. */
  lemma {:induction false} SameSets(v: View, i: nat, f: Buf)
    requires f.blockno in v.held && v.held[f.blockno] == i && f.locked
    ensures v.held[f.blockno := i] == v.held
    ensures f.blockno in v.dirty ==> v.dirty + {f.blockno} == v.dirty
    ensures f.blockno !in v.dirty ==> v.dirty - {f.blockno} == v.dirty
    ensures f.blockno < |v.latest| ==> v.latest[f.blockno := v.latest[f.blockno]] == v.latest
  {
  }

  /** Buffer `i` is recycled for block `b`, to which one process then has a reference. */
  lemma {:induction false} RecycledOk(s: State, i: nat, b: nat)
    requires Ok(s) && i < NBUF && Recyclable(s.bufs[i]) && b !in s.at && b < |s.disk|
    ensures Ok(State(s.bufs[i := Recycled(s.bufs[i], b)], Moved(s.at, s.bufs[i], i, b), s.disk, s.view, s.refs[b := s.refs[b] + 1]))
    ensures b !in s.refs
  {
    assert Body(0, s);
    RecycleOk(s.bufs, s.at, s.disk, i, b);
    RecycleRefs(s.bufs, s.at, s.disk, s.refs, i, b);
    var t := State(s.bufs[i := Recycled(s.bufs[i], b)], Moved(s.at, s.bufs[i], i, b), s.disk, s.view, s.refs[b := s.refs[b] + 1]);
    assert Body(0, t);
    assert forall fold: nat :: Body(fold, t);
  }

  lemma {:induction false} RecycledOthers(s: State, i: nat, b: nat, x: nat)
    requires Ok(s) && i < NBUF && x in s.at && s.at[x] != i
    ensures x in Moved(s.at, s.bufs[i], i, b) && (x != b ==> Moved(s.at, s.bufs[i], i, b)[x] == s.at[x])
  {
    assert Body(0, s);
    assert BufOk(s.bufs[i], i, s.at, s.disk);
  }

  // ---- Buffers that are left

  /** The blocks whose buffers must not be recycled: they are pinned, or held, or somebody has a reference to them. */
  ghost function InUse(v: View, refs: multiset<nat>): set<nat> {
    v.dirty + v.held.Keys + set b | b in refs
  }

  /** The blocks that `bget` has a buffer for. It depends on which blocks are pinned, held and referred to, not on what is in
      them. */
  ghost function Room(v: View, refs: multiset<nat>): iset<nat> {
    assert IsRoom((iset b: nat | HasBuffer(v, refs, b)), v, refs);
    var r :| IsRoom(r, v, refs);
    r
  }

  ghost predicate HasBuffer(v: View, refs: multiset<nat>, b: nat) {
    |InUse(v, refs)| < NBUF || b in InUse(v, refs)
  }

  ghost predicate IsRoom(r: iset<nat>, v: View, refs: multiset<nat>) {
    forall fold: nat :: IsRoomBody(fold, r, v, refs)
  }

  ghost predicate IsRoomBody(fold: nat, r: iset<nat>, v: View, refs: multiset<nat>) {
    forall b: nat :: b in r <==> HasBuffer(v, refs, b)
  }

  lemma {:induction false} RoomFor(v: View, refs: multiset<nat>, b: nat)
    ensures b in Room(v, refs) <==> HasBuffer(v, refs, b)
  {
    assert IsRoomBody(0, Room(v, refs), v, refs);
  }

  lemma {:induction false} SameRoom(v: View, w: View, refs: multiset<nat>)
    requires InUse(v, refs) == InUse(w, refs)
    ensures Room(v, refs) == Room(w, refs)
  {
    forall b: nat ensures b in Room(v, refs) <==> b in Room(w, refs) {
      RoomFor(v, refs, b);
      RoomFor(w, refs, b);
    }
  }

  /** The buffer of a block in use is not recyclable. */
  lemma {:induction false} UsedBuffer(s: State, b: nat)
    requires Ok(s)
    ensures b in InUse(s.view, s.refs) ==> b in s.at && s.at[b] < NBUF && !Recyclable(s.bufs[s.at[b]])
    ensures b in s.at ==> s.at[b] < NBUF && s.bufs[s.at[b]].blockno == b
  {
    assert Body(0, s);
    if b in s.at {
      assert RefOk(s.bufs[s.at[b]], s.refs);
    }
  }

  lemma {:induction false} UsedBlock(s: State, i: nat)
    requires Ok(s) && i < NBUF && !Recyclable(s.bufs[i])
    ensures s.bufs[i].blockno in InUse(s.view, s.refs) && s.bufs[i].blockno in s.at && s.at[s.bufs[i].blockno] == i
  {
    assert Body(0, s) && BufOk(s.bufs[i], i, s.at, s.disk) && RefOk(s.bufs[i], s.refs);
  }

  /** Some buffer is recyclable exactly if there are fewer blocks in use than buffers; else these are the blocks cached. */
  lemma {:induction false} BuffersLeft(s: State)
    requires Ok(s)
    ensures (exists i :: 0 <= i < NBUF && Recyclable(s.bufs[i])) <==> |InUse(s.view, s.refs)| < NBUF
    ensures |InUse(s.view, s.refs)| >= NBUF ==> s.at.Keys == InUse(s.view, s.refs)
    ensures forall b :: b in InUse(s.view, s.refs) ==> b in s.at
  {
    var inUse := InUse(s.view, s.refs);
    forall b ensures b in inUse ==> b in s.at && s.at[b] < NBUF && !Recyclable(s.bufs[s.at[b]])
             ensures b in s.at ==> s.at[b] < NBUF && s.bufs[s.at[b]].blockno == b {
      UsedBuffer(s, b);
    }
    if i :| 0 <= i < NBUF && Recyclable(s.bufs[i]) {
      InjectionSize(inUse, s.at, Below(NBUF) - {i});
    } else {
      AllUsed(s);
    }
  }

  /** `bget` finds a buffer. */
  lemma {:induction false} BufferIff(s: State, b: nat)
    requires Ok(s)
    ensures b in Room(s.view, s.refs) <==> b in s.at || exists i :: 0 <= i < NBUF && Recyclable(s.bufs[i])
  {
    BuffersLeft(s);
    RoomFor(s.view, s.refs, b);
  }

  lemma {:induction false} AllUsed(s: State)
    requires Ok(s) && forall i :: 0 <= i < NBUF ==> !Recyclable(s.bufs[i])
    ensures |InUse(s.view, s.refs)| >= NBUF && s.at.Keys == InUse(s.view, s.refs)
  {
    var inUse, block := InUse(s.view, s.refs), map i | i in Below(NBUF) :: s.bufs[i].blockno;
    forall i | i in Below(NBUF) ensures block[i] in inUse && block[i] in s.at && s.at[block[i]] == i {
      UsedBlock(s, i);
    }
    InjectionSize(Below(NBUF), block, inUse);
    forall b ensures b in s.at <==> b in inUse {
      UsedBuffer(s, b);
      if b in s.at {
        assert s.at[b] in Below(NBUF);
      }
    }
  }

  class Cache {
    var bufs: seq<Buf>
    var next: seq<nat>
    var prev: seq<nat>
    var disk: Image

    ghost var order: seq<nat>        // the list from most to least recently used
    ghost var at: map<nat, nat>      // which buffer caches which disk block
    ghost var writes: seq<Write>     // every block write the disk has performed
    ghost var view: View             // the abstract state
    ghost var refs: multiset<nat>    // references by processes that do not hold the lock

    ghost predicate ListOk()
      reads this`next, this`prev, this`order
    {
      Links(next, prev, order) && |order| == NBUF && Covers(order, NBUF)
    }

    ghost function Now(): State
      reads this`bufs, this`at, this`disk, this`view, this`refs
    {
      State(bufs, at, disk, view, refs)
    }

    ghost predicate Valid()
      reads this
    {
      ListOk() && Ok(Now())
    }

    constructor (image: Image)
      ensures Valid() && disk == image && writes == [] && view == View(image, {}, map[]) && refs == multiset{}
    {
      disk := image;
      writes := [];
      at, refs := map[], multiset{};
      bufs := seq(NBUF, _ => Buf(false, false, 0, 0, 0, false, seq(BLOCK_WORDS, _ => 0)));
      next := seq(NBUF + 1, _ => HEAD);
      prev := seq(NBUF + 1, _ => HEAD);
      view := View(image, {}, map[]);
      new;
      Binit();
      assert view == ViewOf(bufs, at, disk);
      assert Body(0, Now());
      assert forall fold: nat :: Body(fold, Now());
    }

    method Binit()
      requires |next| == |prev| == NBUF + 1
      modifies this`next, this`prev, this`order
      ensures ListOk()
    {
      next, prev, order := next[HEAD := HEAD], prev[HEAD := HEAD], [];
      assert RingBody(0, next, prev, order);
      var b := 0;
      while b < NBUF
        invariant 0 <= b <= NBUF && Links(next, prev, order) && |order| == b
        invariant Covers(order, b) && forall i :: 0 <= i < b ==> order[i] < b
      {
        PushFront(b);
        b := b + 1;
      }
    }

    /** A buffer that is not in the list goes to its front. */
    method PushFront(b: nat)
      requires Links(next, prev, order) && b < NBUF && b !in order
      modifies this`next, this`prev, this`order
      ensures Links(next, prev, order) && order == [b] + old(order)
    {
      LinksPush(next, prev, order, b);
      next := next[b := next[HEAD]];
      prev := prev[b := HEAD];
      prev := prev[next[HEAD] := b];
      next := next[HEAD := b];
      order := [b] + order;
    }

    /** The first loop of `bget`: a cached block is found, wherever it is in the list. */
    method FindCached(blockno: nat) returns (r: Option<nat>)
      requires Valid()
      ensures r == if blockno in at then Some(at[blockno]) else None
    {
      assert Body(0, Now()) && RingBody(0, next, prev, order);
      var b := next[HEAD];
      ghost var i := 0;
      while b != HEAD
        invariant 0 <= i <= NBUF && b == Node(HEAD, order, i)
        invariant blockno in at ==> at[blockno] in order[i..]
        decreases NBUF - i
      {
        if bufs[b].dev == DISK_DEV && bufs[b].blockno == blockno {
          assert BufOk(bufs[b], b, at, disk);
          return Some(b);
        }
        RingStep(HEAD, next, prev, order, i);
        assert order[i..] == [b] + order[i + 1..];
        b := next[b];
        i := i + 1;
      }
      return None;
    }

    /** The second loop of `bget`: the least recently used recyclable buffer, if there is any. */
    method FindRecyclable() returns (r: Option<nat>)
      requires ListOk() && |bufs| == NBUF
      ensures r.None? ==> forall i :: 0 <= i < NBUF ==> !Recyclable(bufs[i])
      ensures r.Some? ==> r.value < NBUF && Recyclable(bufs[r.value]) && LeastRecent(order, bufs, r.value)
    {
      assert RingBody(0, next, prev, order);
      var b := prev[HEAD];
      ghost var i := NBUF - 1;
      while b != HEAD
        invariant -1 <= i < NBUF && b == Node(HEAD, order, i)
        invariant forall j :: i < j < NBUF ==> !Recyclable(bufs[order[j]])
        decreases i + 1
      {
        if Recyclable(bufs[b]) {
          assert LeastRecentAt(order, bufs, b, i);
          return Some(b);
        }
        RingStep(HEAD, next, prev, order, i);
        b := prev[b];
        i := i - 1;
      }
      forall x | 0 <= x < NBUF ensures !Recyclable(bufs[x]) {
        assert x in order;
      }
      return None;
    }

    /** Buffer `i` caches block `b` and is locked by its user. */
    ghost predicate Holds(i: nat, b: nat)
      reads this`view
    {
      b in view.held && view.held[b] == i
    }

    /** A process has a reference to buffer `i`, which caches block `b`, without holding its lock. */
    ghost predicate Refers(i: nat, b: nat)
      reads this`at, this`refs
    {
      b in refs && b in at && at[b] == i
    }

    lemma {:induction false} Clean(b: nat)
      requires Valid() && b < |disk| && b !in view.dirty && b !in view.held
      ensures view.latest[b] == disk[b]
    {
      CleanIsDisk(Now(), b);
    }

    /** Every buffer but `i` is as it was, and caches the block that it cached. */
    twostate predicate OthersKept(i: nat)
      reads this`bufs, this`at
    {
      && |bufs| == |old(bufs)|
      && (forall j :: 0 <= j < |bufs| && j != i ==> bufs[j] == old(bufs)[j])
      && (forall b :: b in old(at) && old(at)[b] != i ==> b in at && at[b] == old(at)[b])
    }

    /** `bget` up to the point where it waits for the sleep lock. `None` is the panic "no buffers". */
    method Bget(blockno: nat) returns (r: Option<nat>)
      requires Valid() && blockno < |disk|
      modifies this`bufs, this`at, this`refs
      ensures Valid()
      ensures r.None? <==> blockno !in old(at) && forall i :: 0 <= i < NBUF ==> !Recyclable(old(bufs)[i])
      ensures r.None? ==> bufs == old(bufs) && at == old(at) && refs == old(refs)
      ensures r.Some? ==>
        && r.value < NBUF && Refers(r.value, blockno) && refs == old(refs) + multiset{blockno} && OthersKept(r.value)
        && if blockno in old(at) then at == old(at)
           else Recyclable(old(bufs)[r.value]) && LeastRecent(order, old(bufs), r.value)
    {
      r := FindCached(blockno);
      if r.Some? {
        Reference(r.value, blockno);
      } else {
        r := Recycle(blockno);
      }
    }

    method Reference(i: nat, b: nat)
      requires Valid() && b in at && at[b] == i
      modifies this`bufs, this`refs
      ensures Valid() && i < NBUF && Refers(i, b) && refs == old(refs) + multiset{b} && OthersKept(i)
    {
      Look(Now(), i, b);
      var f := bufs[i].(refcnt := bufs[i].refcnt + 1);
      PutOk(Now(), i, f, disk[b], refs[b] + 1);
      SameView(Now(), i, b, f);
      bufs := bufs[i := f];
      refs := refs[b := refs[b] + 1];
    }

    method Recycle(b: nat) returns (r: Option<nat>)
      requires Valid() && b < |disk| && b !in at
      modifies this`bufs, this`at, this`refs
      ensures Valid()
      ensures r.None? <==> forall i :: 0 <= i < NBUF ==> !Recyclable(old(bufs)[i])
      ensures r.None? ==> bufs == old(bufs) && at == old(at) && refs == old(refs)
      ensures r.Some? ==>
        && r.value < NBUF && Refers(r.value, b) && refs == old(refs) + multiset{b} && OthersKept(r.value)
        && Recyclable(old(bufs)[r.value]) && LeastRecent(order, old(bufs), r.value)
    {
      r := FindRecyclable();
      if r.Some? {
        var i := r.value;
        RecycledOk(Now(), i, b);
        forall x | x in at && at[x] != i ensures x in Moved(at, bufs[i], i, b) && Moved(at, bufs[i], i, b)[x] == at[x] {
          RecycledOthers(Now(), i, b, x);
        }
        at := Moved(at, bufs[i], i, b);
        refs := refs[b := refs[b] + 1];
        bufs := bufs[i := Recycled(bufs[i], b)];
      }
    }

    /** The end of `bget` and `bread`: a process that has a reference gets the lock, and the disk is read if need be. */
    method Lock(i: nat, b: nat)
      requires Valid() && Refers(i, b) && b !in view.held
      modifies this`bufs, this`view, this`refs
      ensures Valid() && view == old(view).(held := old(view).held[b := i]) && refs == old(refs) - multiset{b}
    {
      Look(Now(), i, b);
      var f := bufs[i].(locked := true);
      if !f.valid {
        f := f.(data := disk[b], valid := true);   // iderw, reading
      }
      PutOk(Now(), i, f, disk[b], refs[b] - 1);
      SameView(Now(), i, b, f);
      bufs := bufs[i := f];
      view := view.(held := view.held[b := i]);
      refs := refs[b := refs[b] - 1];
    }

    /** `bread`, as far as it gets without waiting: with the lock if nobody holds it, else with a reference only; the
        process is then to go on with `Lock` once the holder has released it. */
    method Bread(blockno: nat) returns (r: Option<nat>)
      requires Valid() && blockno < |disk|
      modifies this`bufs, this`at, this`view, this`refs
      ensures Valid()
      ensures r.None? <==> blockno !in old(at) && forall i :: 0 <= i < NBUF ==> !Recyclable(old(bufs)[i])
      ensures r.None? ==> view == old(view) && refs == old(refs)
      ensures r.Some? && blockno !in old(view).held ==>
        view == old(view).(held := old(view).held[blockno := r.value]) && refs == old(refs)
      ensures r.Some? && blockno in old(view).held ==>
        view == old(view) && refs == old(refs) + multiset{blockno} && Refers(r.value, blockno) && Holds(r.value, blockno)
      ensures forall x, i :: old(Refers(i, x)) ==> x in at && at[x] == i
    {
      ghost var s := Now();
      r := Bget(blockno);
      forall x, i | old(Refers(i, x)) ensures x in at && at[x] == i {
        Look(s, i, x);
      }
      if r.Some? {
        Look(Now(), r.value, blockno);
        if !bufs[r.value].locked {
          Lock(r.value, blockno);
        }
      }
    }

    /** `bread` of a block that nobody holds. */
    method Take(b: nat) returns (r: Option<nat>)
      requires Valid() && b < |disk| && b !in view.held
      modifies this`bufs, this`at, this`view, this`refs
      ensures Valid() && refs == old(refs)
      ensures r.None? <==> b !in Room(old(view), old(refs))
      ensures view == if r.None? then old(view) else old(view).(held := old(view).held[b := r.value])
    {
      BufferIff(Now(), b);
      r := Bread(b);
    }

    /** `bread` of a block that somebody holds: the process gets a reference, and waits. */
    method Wait(b: nat) returns (i: nat)
      requires Valid() && b < |disk| && b in view.held
      modifies this`bufs, this`at, this`view, this`refs
      ensures Valid() && view == old(view) && refs == old(refs) + multiset{b} && Refers(i, b) && Holds(i, b)
    {
      Look(Now(), view.held[b], b);
      var r := Bread(b);
      i := r.value;
    }

    /** The holder of a buffer reads its data. */
    method GetData(i: nat, ghost b: nat) returns (data: Block)
      requires Valid() && Holds(i, b)
      ensures b < |view.latest| && data == view.latest[b]
    {
      Look(Now(), i, b);
      data := bufs[i].data;
    }

    /** The holder of a buffer overwrites its data. */
    method SetData(i: nat, ghost b: nat, data: Block)
      requires Valid() && Holds(i, b)
      modifies this`bufs, this`view
      ensures Valid() && b < |old(view).latest| && view == old(view).(latest := old(view).latest[b := data])
    {
      Look(Now(), i, b);
      var f := bufs[i].(data := data);
      PutOk(Now(), i, f, disk[b], refs[b]);
      assert disk[b := disk[b]] == disk && refs[b := refs[b]] == refs;
      SameSets(view, i, f);
      bufs := bufs[i := f];
      view := view.(latest := view.latest[b := data]);
    }

    /** The flag that `log_write` sets: the block stays cached until it is written. */
    method Pin(i: nat, ghost b: nat)
      requires Valid() && Holds(i, b)
      modifies this`bufs, this`view
      ensures Valid() && view == old(view).(dirty := old(view).dirty + {b})
    {
      Look(Now(), i, b);
      var f := bufs[i].(dirty := true);
      PutOk(Now(), i, f, disk[b], refs[b]);
      assert disk[b := disk[b]] == disk && refs[b := refs[b]] == refs;
      SameSets(view, i, f);
      bufs := bufs[i := f];
      view := view.(dirty := view.dirty + {b});
    }

    /** `bwrite`: one block write, which also unpins the buffer. */
    method Bwrite(i: nat, ghost b: nat)
      requires Valid() && Holds(i, b)
      modifies this`bufs, this`disk, this`writes, this`view
      ensures Valid() && view == old(view).(dirty := old(view).dirty - {b})
      ensures b < |old(disk)| && disk == old(disk)[b := old(view).latest[b]]
      ensures writes == old(writes) + [Write(b, old(view).latest[b])]
    {
      Look(Now(), i, b);
      var f := bufs[i].(dirty := false);
      PutOk(Now(), i, f, f.data, refs[b]);
      assert refs[b := refs[b]] == refs;
      SameSets(view, i, f);
      writes := writes + [Write(f.blockno, f.data)];
      disk := disk[f.blockno := f.data];
      bufs := bufs[i := f];
      view := view.(dirty := view.dirty - {b});
    }

    /** `releasesleep` in `brelse`: a changed buffer must have been logged or written first. */
    method Unlock(i: nat, ghost b: nat)
      requires Valid() && Holds(i, b) && b < |disk| && (b in view.dirty || view.latest[b] == disk[b])
      modifies this`bufs, this`view, this`refs
      ensures Valid() && view == old(view).(held := old(view).held - {b}) && refs == old(refs) + multiset{b} && Refers(i, b)
      ensures i < |bufs| == |old(bufs)| && bufs[i].refcnt == old(bufs)[i].refcnt
    {
      Look(Now(), i, b);
      var f := bufs[i].(locked := false);
      PutOk(Now(), i, f, disk[b], refs[b] + 1);
      SameView(Now(), i, b, f);
      bufs := bufs[i := f];
      view := view.(held := view.held - {b});
      refs := refs[b := refs[b] + 1];
    }

    /** The rest of `brelse`: the last user moves the buffer to the front. */
    method Unref(i: nat, ghost b: nat)
      requires Valid() && Refers(i, b)
      modifies this`bufs, this`refs, this`next, this`prev, this`order
      ensures Valid() && refs == old(refs) - multiset{b}
      ensures i < |old(bufs)| && order == if old(bufs)[i].refcnt == 1 then ToFront(old(order), i) else old(order)
      ensures old(bufs)[i].refcnt == 1 ==> OnlyMoved(old(order), order, i)
    {
      var left := DropRef(i, b);
      if left == 0 {
        MoveToFront(i);
      }
    }

    method DropRef(i: nat, ghost b: nat) returns (left: nat)
      requires Valid() && Refers(i, b)
      modifies this`bufs, this`refs
      ensures Valid() && refs == old(refs) - multiset{b} && i < NBUF && left + 1 == old(bufs)[i].refcnt
    {
      Look(Now(), i, b);
      var f := bufs[i].(refcnt := bufs[i].refcnt - 1);
      PutOk(Now(), i, f, disk[b], refs[b] - 1);
      SameView(Now(), i, b, f);
      bufs := bufs[i := f];
      refs := refs[b := refs[b] - 1];
      left := f.refcnt;
    }

    method Brelse(i: nat, ghost b: nat)
      requires Valid() && Holds(i, b) && b < |disk| && (b in view.dirty || view.latest[b] == disk[b])
      modifies this`bufs, this`view, this`refs, this`next, this`prev, this`order
      ensures Valid() && view == old(view).(held := old(view).held - {b}) && refs == old(refs)
      ensures i < |old(bufs)| && order == if old(bufs)[i].refcnt == 1 then ToFront(old(order), i) else old(order)
      ensures old(bufs)[i].refcnt == 1 ==> OnlyMoved(old(order), order, i)
    {
      Unlock(i, b);
      Unref(i, b);
    }

    /** One process holds block `b`, a second one waits for it. What the first one writes is what the second one reads,
        from the same buffer, which keeps its place in the list until the second one releases it too. */
    method HandOver(b: nat, value: Block) returns (r: Option<Block>)
      requires Valid() && b < |disk| && b !in view.held
      modifies this
      ensures Valid() && disk == old(disk) && (r.None? <==> b !in Room(old(view), old(refs)))
      ensures r.Some? ==> r.value == value && order == old(order) && b in view.held && refs == old(refs)
      ensures r.Some? ==> view.latest == old(view).latest[b := value] && view.dirty == old(view).dirty + {b}
    {
      var first := Take(b);
      if first.None? {
        return None;
      }
      var second := Wait(b);
      WriteAndRelease(first.value, b, value);
      Lock(second, b);
      var data := GetData(second, b);
      r := Some(data);
    }

    /** The holder of a buffer that somebody waits for changes it, logs it and releases it. */
    method WriteAndRelease(i: nat, b: nat, value: Block)
      requires Valid() && Holds(i, b) && Refers(i, b) && b < |disk|
      modifies this`bufs, this`view, this`refs, this`next, this`prev, this`order
      ensures Valid() && refs == old(refs) && order == old(order)
      ensures view == View(old(view).latest[b := value], old(view).dirty + {b}, old(view).held - {b})
    {
      SetData(i, b, value);
      Pin(i, b);
      Look(Now(), i, b);
      Brelse(i, b);
    }

    method MoveToFront(b: nat)
      requires ListOk() && b < NBUF
      modifies this`next, this`prev, this`order
      ensures ListOk()
      ensures order == ToFront(old(order), b) && OnlyMoved(old(order), order, b)
    {
      assert b in order;
      ghost var p: nat :| p < NBUF && order[p] == b;
      CoversMoved(order, p, NBUF);
      MovedAlone(order, p);
      LinksDistinct(next, prev, order);
      RemoveIsWithout(order, p);
      WithoutAt(order, p);
      LinksUnlink(next, prev, order, p);
      prev := prev[next[b] := prev[b]];
      next := next[prev[b] := next[b]];
      order := Without(order, p);
      PushFront(b);
    }
  }
}

/** log.c itself: the in-memory log header and the code that moves blocks between the buffer cache, the log
    area and the home area. A method that returns `ok == false` stopped in the panic "bget: no buffers"; what
    it says about the disk holds in that case too. */
module Log {
  import opened Base
  import opened LogDisk
  import opened Bio

  /** The loop of `write_head` that fills the header block. */
  method FillHead(hb: Block, lh: seq<nat>) returns (r: Block)
    requires |lh| <= LOGSIZE
    ensures r == HeadBlock(hb, lh)
  {
    r := hb[0 := |lh|];
    var i := 0;
    while i < |lh|
      invariant 0 <= i <= |lh|
      invariant r == [|lh|] + lh[..i] + hb[1 + i..]
    {
      r := r[1 + i := lh[i]];
      i := i + 1;
    }
  }

  class Log {
    const l: Layout
    const bc: Cache
    var lh: seq<nat>          // log.lh.block[..log.lh.n]
    var outstanding: nat
    var committing: bool

    constructor (layout: Layout, cache: Cache)
      ensures l == layout && bc == cache && lh == [] && outstanding == 0 && !committing
    {
      l, bc, lh, outstanding, committing := layout, cache, [], 0, false;
    }

    /** The disk has performed exactly the first `k` of `ws` since it was in state `d0` with history `w0`. */
    ghost predicate Progress(d0: Image, w0: seq<Write>, ws: seq<Write>, k: nat)
      reads bc
    {
      forall fold: nat :: ProgressBody(fold, d0, w0, ws, k)
    }

    ghost predicate ProgressBody(fold: nat, d0: Image, w0: seq<Write>, ws: seq<Write>, k: nat)
      reads bc
    {
      k <= |ws| && InRange(d0, ws) && bc.disk == After(d0, ws, k) && bc.writes == w0 + ws[..k]
    }

    /** Body of the loops of `write_log` and `install_trans`: read two blocks, copy one over the other, write it. */
    method CopyBlock(src: nat, dst: nat) returns (ok: bool)
      requires bc.Valid() && src < |bc.disk| && dst < |bc.disk| && src != dst
      requires src !in bc.view.held && dst !in bc.view.held
      requires src in bc.view.dirty || bc.view.latest[src] == bc.disk[src]
      modifies bc
      ensures bc.Valid() && bc.refs == old(bc.refs)
      ensures ok <==> CopyRoom(old(bc.view), old(bc.refs), src, dst)
      ensures !ok ==> bc.disk == old(bc.disk) && bc.writes == old(bc.writes)
      ensures ok ==>
        var v := old(bc.view);
        && bc.disk == old(bc.disk)[dst := v.latest[src]]
        && bc.writes == old(bc.writes) + [Write(dst, v.latest[src])]
        && bc.view == View(v.latest[dst := v.latest[src]], v.dirty - {dst}, v.held)
    {
      ok := false;
      var from := bc.Take(src);
      if from.None? { return; }
      CopyRoomIff(old(bc.view), bc.refs, src, from.value);
      var to := bc.Take(dst);
      if to.None? { return; }
      MoveData(from.value, to.value, src, dst);
      assert bc.view.held == old(bc.view).held;
      ok := true;
    }

    method MoveData(from: nat, to: nat, src: nat, dst: nat)
      requires bc.Valid() && bc.Holds(from, src) && bc.Holds(to, dst) && src < |bc.disk| && dst < |bc.disk| && src != dst
      requires src in bc.view.dirty || bc.view.latest[src] == bc.disk[src]
      modifies bc
      ensures bc.Valid() && bc.refs == old(bc.refs) && bc.disk == old(bc.disk)[dst := old(bc.view).latest[src]]
      ensures bc.writes == old(bc.writes) + [Write(dst, old(bc.view).latest[src])]
      ensures
        var v := old(bc.view);
        bc.view == View(v.latest[dst := v.latest[src]], v.dirty - {dst}, v.held - {src} - {dst})
    {
      var data := bc.GetData(from, src);
      bc.SetData(to, dst, data);
      bc.Bwrite(to, dst);
      bc.Brelse(from, src);
      bc.Brelse(to, dst);
    }

    /** The same, as the next of the writes that are due. */
    method CopyNext(src: nat, dst: nat, ghost d0: Image, ghost w0: seq<Write>, ghost ws: seq<Write>, ghost k: nat) returns (ok: bool)
      requires bc.Valid() && src < |bc.disk| && dst < |bc.disk| && src != dst
      requires src !in bc.view.held && dst !in bc.view.held
      requires src in bc.view.dirty || bc.view.latest[src] == bc.disk[src]
      requires Progress(d0, w0, ws, k) && k < |ws| && ws[k] == Write(dst, bc.view.latest[src])
      modifies bc
      ensures bc.Valid() && Progress(d0, w0, ws, if ok then k + 1 else k) && |bc.disk| == |old(bc.disk)| && bc.refs == old(bc.refs)
      ensures ok <==> CopyRoom(old(bc.view), old(bc.refs), src, dst)
      ensures ok ==> bc.view == View(old(bc.view).latest[dst := ws[k].data], old(bc.view).dirty - {dst}, old(bc.view).held)
    {
      assert ProgressBody(0, d0, w0, ws, k);
      ok := CopyBlock(src, dst);
    }

    // Nobody holds the blocks that `commit` is about to move, and log blocks are never pinned.
    ghost predicate Unheld()
      reads this`lh, bc`view
    {
      && (forall b :: InLog(l, b) ==> b !in bc.view.held && b !in bc.view.dirty)
      && (forall i :: 0 <= i < |lh| ==> lh[i] !in bc.view.held)
    }

    /** `log.lh.block` lists exactly the pinned blocks. */
    ghost predicate Pinned()
      reads this`lh, bc`view
    {
      forall b :: b in bc.view.dirty <==> b in lh
    }

    method WriteHead(ghost d0: Image, ghost w0: seq<Write>, ghost ws: seq<Write>, ghost k: nat) returns (ok: bool, ghost k': nat)
      requires bc.Valid() && Fits(l, bc.disk) && |lh| <= LOGSIZE
      requires l.start !in bc.view.held && l.start !in bc.view.dirty && bc.view.latest[l.start] == bc.disk[l.start]
      requires Progress(d0, w0, ws, k) && k < |ws| && ws[k] == Write(l.start, HeadBlock(bc.disk[l.start], lh))
      modifies bc
      ensures bc.Valid() && Progress(d0, w0, ws, k') && k <= k' <= k + 1 && bc.refs == old(bc.refs)
      ensures ok <==> l.start in Room(old(bc.view), old(bc.refs))
      ensures ok ==> k' == k + 1
      ensures ok ==> bc.view == old(bc.view).(latest := old(bc.view).latest[l.start := ws[k].data])
    {
      ok, k' := false, k;
      assert ProgressBody(0, d0, w0, ws, k);
      var b := bc.Take(l.start);
      if b.None? { return; }
      var hb := bc.GetData(b.value, l.start);
      var data := FillHead(hb, lh);
      WriteBack(b.value, l.start, data);
      assert bc.view.held == old(bc.view).held;
      ok, k' := true, k + 1;
    }

    method WriteBack(i: nat, b: nat, data: Block)
      requires bc.Valid() && bc.Holds(i, b) && b < |bc.disk|
      modifies bc
      ensures bc.Valid() && bc.refs == old(bc.refs) && bc.disk == old(bc.disk)[b := data] && bc.writes == old(bc.writes) + [Write(b, data)]
      ensures var v := old(bc.view); bc.view == View(v.latest[b := data], v.dirty - {b}, v.held - {b})
    {
      bc.SetData(i, b, data);
      bc.Bwrite(i, b);
      bc.Brelse(i, b);
    }

    /** A round of `write_log`, as the next of the writes that are due. */
    method WriteLogNext(tail: nat, ghost v: View, ghost d0: Image, ghost w0: seq<Write>, ghost ws: seq<Write>) returns (ok: bool)
      requires bc.Valid() && Fits(l, bc.disk) && Loggable(l, bc.disk, lh) && tail < |lh| <= |ws| && |v.latest| == |bc.disk|
      requires lh[tail] !in v.held && l.start + tail + 1 !in v.held && l.start + tail + 1 !in v.dirty && lh[tail] in v.dirty
      requires bc.view == Logged(l, v, lh, tail) && Progress(d0, w0, ws, tail) && ws[tail] == Write(l.start + tail + 1, v.latest[lh[tail]])
      modifies bc
      ensures bc.Valid() && Progress(d0, w0, ws, if ok then tail + 1 else tail) && |bc.disk| == |old(bc.disk)| && bc.refs == old(bc.refs)
      ensures ok <==> l.start + tail + 1 in Room(v, bc.refs)
      ensures ok ==> bc.view == Logged(l, v, lh, tail + 1)
    {
      PinnedRoom(v, bc.view, bc.refs, lh[tail], l.start + tail + 1);
      LoggedElsewhere(l, v, lh, tail, lh[tail]);
      LoggedNext(l, v, lh, tail);
      ok := CopyNext(lh[tail], l.start + tail + 1, d0, w0, ws, tail);
    }

    /** `write_log`: the pinned blocks, in their latest version, go to the log area. */
    method WriteLog(ghost d0: Image, ghost w0: seq<Write>, ghost ws: seq<Write>) returns (ok: bool, ghost k: nat)
      requires bc.Valid() && Fits(l, bc.disk) && Loggable(l, bc.disk, lh) && Unheld() && Pinned()
      requires Progress(d0, w0, ws, 0) && |lh| <= |ws|
      requires forall i {:trigger ws[i]} :: 0 <= i < |lh| ==> ws[i] == Write(l.start + 1 + i, bc.view.latest[lh[i]])
      modifies bc
      ensures bc.Valid() && Progress(d0, w0, ws, k) && k <= |lh| && bc.refs == old(bc.refs)
      ensures ok <==> forall b :: l.start < b <= l.start + |lh| ==> b in Room(old(bc.view), old(bc.refs))
      ensures ok ==> k == |lh| && bc.view == Logged(l, old(bc.view), lh, |lh|)
    {
      var tail := 0;
      k := 0;
      while tail < |lh|
        invariant 0 <= tail <= |lh| && k == tail
        invariant bc.Valid() && Progress(d0, w0, ws, k)
        invariant bc.view == Logged(l, old(bc.view), lh, tail) && bc.refs == old(bc.refs)
        invariant forall b :: l.start < b <= l.start + tail ==> b in Room(old(bc.view), old(bc.refs))
      {
        ok := WriteLogNext(tail, old(bc.view), d0, w0, ws);
        if !ok { return; }
        tail, k := tail + 1, k + 1;
      }
      ok := true;
    }

    /** A round of `install_trans`. */
    method InstallNext(tail: nat, ghost v: View, ghost d0: Image, ghost w0: seq<Write>, ghost ws: seq<Write>, ghost k: nat) returns (ok: bool)
      requires bc.Valid() && Fits(l, bc.disk) && Loggable(l, bc.disk, lh) && tail < |lh| && |v.latest| == |bc.disk|
      requires lh[tail] !in v.held && l.start + tail + 1 !in v.held && l.start + tail + 1 !in v.dirty
      requires bc.view == Installed(l, v, lh, tail)
      requires Progress(d0, w0, ws, k) && k < |ws| && ws[k] == Write(lh[tail], v.latest[l.start + tail + 1])
      modifies bc
      ensures bc.Valid() && Progress(d0, w0, ws, if ok then k + 1 else k) && |bc.disk| == |old(bc.disk)| && bc.refs == old(bc.refs)
      ensures ok <==> RoomAt(l, v, bc.refs, lh, tail)
      ensures ok ==> bc.view == Installed(l, v, lh, tail + 1)
    {
      InstalledLog(l, v, lh, tail, l.start + tail + 1);
      bc.Clean(l.start + tail + 1);
      ok := CopyNext(l.start + tail + 1, lh[tail], d0, w0, ws, k);
    }

    /** `install_trans`: the log blocks go to their home locations, which unpins them one by one. */
    method InstallTrans(ghost d0: Image, ghost w0: seq<Write>, ghost ws: seq<Write>, ghost k0: nat) returns (ok: bool, ghost k: nat)
      requires bc.Valid() && Fits(l, bc.disk) && Loggable(l, bc.disk, lh) && Unheld()
      requires Progress(d0, w0, ws, k0) && k0 + |lh| <= |ws|
      requires forall j {:trigger ws[j]} :: k0 <= j < k0 + |lh| ==> ws[j] == Write(lh[j - k0], bc.view.latest[l.start + 1 + j - k0])
      modifies bc
      ensures bc.Valid() && Progress(d0, w0, ws, k) && k0 <= k <= k0 + |lh| && bc.refs == old(bc.refs)
      ensures ok <==> InstallRoom(l, old(bc.view), old(bc.refs), lh, |lh|)
      ensures ok ==> k == k0 + |lh| && bc.view == Installed(l, old(bc.view), lh, |lh|)
    {
      var tail := 0;
      k := k0;
      while tail < |lh|
        invariant 0 <= tail <= |lh| && k == k0 + tail
        invariant bc.Valid() && Progress(d0, w0, ws, k)
        invariant bc.view == Installed(l, old(bc.view), lh, tail) && bc.refs == old(bc.refs)
        invariant InstallRoom(l, old(bc.view), old(bc.refs), lh, tail)
      {
        ok := InstallNext(tail, old(bc.view), d0, w0, ws, k);
        if !ok { return; }
        tail, k := tail + 1, k + 1;
      }
      ok := true;
    }

    /** The log is empty on the disk, and in memory lists exactly the pinned blocks. */
    ghost predicate Ready()
      reads this, bc
    {
      && bc.Valid() && Fits(l, bc.disk) && HeaderOk(l, bc.disk) && HeaderCount(l, bc.disk) == 0
      && Loggable(l, bc.disk, lh) && Pinned()
    }

    /** The latest version of the blocks in the transaction. */
    ghost function Values(): seq<Block>
      requires Ready()
      reads this, bc
    {
      ValuesOf(bc.view.latest, lh)
    }

    /** One buffer that may be recycled is enough for a commit, as the home blocks are pinned and each log block is released
        before the next is read. Without one, somebody must have a reference to the header and to each log block. */
    ghost predicate CanCommit()
      reads this, bc
    {
      || lh == []
      || (exists i :: 0 <= i < |bc.bufs| && Recyclable(bc.bufs[i]))
      || (forall b :: l.start <= b <= l.start + |lh| ==> b in bc.refs)
    }

    /** When nobody else has a buffer, a commit needs one that the transaction has left over. */
    lemma {:induction false} CommitAlone()
      requires Ready() && bc.view.held == map[] && bc.refs == multiset{}
      ensures CanCommit() <==> |lh| < NBUF
    {
      BuffersLeft(bc.Now());
      assert InUse(bc.view, bc.refs) == bc.view.dirty == Elements(lh);
      DistinctSize(lh);
      assert |lh| > 0 ==> l.start !in bc.refs;
    }

    /** `commit` performs the writes of CommitWrites, in that order and no others; if it finishes, the transaction
        is empty, nothing is pinned, and every block still reads as before. */
    method Commit() returns (ok: bool, ghost k: nat)
      requires Ready() && Unheld()
      modifies this`lh, bc
      ensures bc.Valid() && bc.refs == old(bc.refs)
      ensures Progress(old(bc.disk), old(bc.writes), old(CommitWrites(l, bc.disk, lh, Values())), k)
      ensures ok <==> old(CanCommit())
      ensures ok ==> k == |old(CommitWrites(l, bc.disk, lh, Values()))|
      ensures ok ==> Ready() && lh == [] && SameHome(l, old(bc.view).(dirty := {}), bc.view)
    {
      ghost var d0, w0, vals := bc.disk, bc.writes, Values();
      ghost var ws := CommitWrites(l, d0, lh, vals);
      CommitInRange(l, d0, lh, vals);
      ok, k := true, 0;
      assert ws[..0] == [];
      if |lh| > 0 {
        bc.Clean(l.start);
        CommitPlanned(l, d0, bc.view, lh);
        assert CanCommit() <==> LogRoom(l, bc.view, bc.refs, |lh|) by { LogRoomIff(bc.Now(), l, |lh|); }
        ok, k := CommitNonEmpty(d0, w0, ws);
        if !ok { return; }
        assert ProgressBody(0, d0, w0, ws, k);
        CommitIsAtomic(l, d0, old(lh), vals, |ws|);
      }
    }

    method CommitNonEmpty(ghost d0: Image, ghost w0: seq<Write>, ghost ws: seq<Write>) returns (ok: bool, ghost k: nat)
      requires bc.Valid() && Fits(l, bc.disk) && Loggable(l, bc.disk, lh) && Unheld() && Pinned()
      requires Plan(l, bc.view, lh, ws) && Progress(d0, w0, ws, 0)
      modifies this`lh, bc
      ensures bc.Valid() && Progress(d0, w0, ws, k) && bc.refs == old(bc.refs)
      ensures ok <==> LogRoom(l, old(bc.view), old(bc.refs), |old(lh)|)
      ensures ok ==> k == |ws| && lh == [] && SameHome(l, old(bc.view).(dirty := {}), bc.view)
    {
      ghost var v, c := bc.view, Committed(l, bc.view, lh);
      HomeBehindHead(l, v.(dirty := {}), Installed(l, c, lh, |lh|), ws[|ws| - 1].data);
      ok, k := LogAndCommit(d0, w0, ws);
      if !ok { return; }
      CommitInstalls(l, v, c, bc.refs, lh);
      PlanTail(l, v, lh, ws, c, k);
      ok, k := InstallAndErase(d0, w0, ws, k);
    }

    /** Up to and including the header write. */
    method LogAndCommit(ghost d0: Image, ghost w0: seq<Write>, ghost ws: seq<Write>) returns (ok: bool, ghost k: nat)
      requires bc.Valid() && Fits(l, bc.disk) && Loggable(l, bc.disk, lh) && Unheld() && Pinned()
      requires Progress(d0, w0, ws, 0) && |lh| < |ws|
      requires forall i {:trigger ws[i]} :: 0 <= i < |lh| ==> ws[i] == Write(l.start + 1 + i, bc.view.latest[lh[i]])
      requires ws[|lh|] == Write(l.start, HeadBlock(bc.view.latest[l.start], lh))
      modifies bc
      ensures bc.Valid() && Progress(d0, w0, ws, k) && k <= |lh| + 1 && bc.refs == old(bc.refs)
      ensures ok <==> LogRoom(l, old(bc.view), old(bc.refs), |lh|)
      ensures ok ==> k == |lh| + 1 && bc.view == Committed(l, old(bc.view), lh) && |bc.disk| == |old(bc.disk)|
    {
      ok, k := WriteLog(d0, w0, ws);
      if !ok { return; }
      LoggedElsewhere(l, old(bc.view), lh, |lh|, l.start);
      SameRoom(old(bc.view), bc.view, bc.refs);
      bc.Clean(l.start);
      ok, k := WriteHead(d0, w0, ws, k);
    }

    /** The common tail of `commit` and `recover_from_log`: install the log and erase it. */
    method InstallAndErase(ghost d0: Image, ghost w0: seq<Write>, ghost ws: seq<Write>, ghost k0: nat) returns (ok: bool, ghost k: nat)
      requires bc.Valid() && Fits(l, bc.disk) && Loggable(l, bc.disk, lh) && Unheld()
      requires Progress(d0, w0, ws, k0) && k0 + |lh| + 1 == |ws|
      requires forall j {:trigger ws[j]} :: k0 <= j < k0 + |lh| ==> ws[j] == Write(lh[j - k0], bc.view.latest[l.start + 1 + j - k0])
      requires ws[k0 + |lh|] == Write(l.start, HeadBlock(bc.view.latest[l.start], []))
      modifies this`lh, bc
      ensures bc.Valid() && Progress(d0, w0, ws, k) && bc.refs == old(bc.refs)
      ensures ok <==> EraseRoom(l, old(bc.view), old(bc.refs), old(lh))
      ensures ok ==>
        var v := Installed(l, old(bc.view), old(lh), |old(lh)|);
        k == |ws| && lh == [] && bc.view == v.(latest := v.latest[l.start := ws[|ws| - 1].data])
    {
      ok, k := InstallTrans(d0, w0, ws, k0);
      if !ok { return; }
      InstalledLog(l, old(bc.view), lh, |lh|, l.start);
      bc.Clean(l.start);
      lh := [];
      ok, k := WriteHead(d0, w0, ws, k);
    }

    /** `read_head`: the transaction named by the header block. */
    method ReadHead() returns (ok: bool)
      requires bc.Valid() && Fits(l, bc.disk) && HeaderOk(l, bc.disk)
      requires l.start !in bc.view.held && l.start !in bc.view.dirty
      modifies this`lh, bc
      ensures bc.Valid() && bc.disk == old(bc.disk) && bc.writes == old(bc.writes) && bc.refs == old(bc.refs)
      ensures ok <==> l.start in Room(old(bc.view), old(bc.refs))
      ensures ok ==> lh == HeaderBlocks(l, bc.disk) && bc.view == old(bc.view)
    {
      bc.Clean(l.start);
      ok := false;
      var b := bc.Take(l.start);
      if b.None? { return; }
      var hb := bc.GetData(b.value, l.start);
      lh := [];
      var i := 0;
      while i < hb[0]
        invariant 0 <= i <= hb[0] && lh == hb[1..1 + i]
        invariant bc.disk == old(bc.disk) && bc.writes == old(bc.writes) && bc.refs == old(bc.refs) && bc.Holds(b.value, l.start)
        invariant hb == bc.disk[l.start] && bc.Valid() && bc.view == old(bc.view).(held := old(bc.view).held[l.start := b.value])
      {
        lh := lh + [hb[1 + i]];
        i := i + 1;
      }
      bc.Brelse(b.value, l.start);
      assert bc.view.held == old(bc.view).held;
      ok := true;
    }

    lemma {:induction false} PlanRecovery(d0: Image, ws: seq<Write>)
      requires bc.Valid() && Fits(l, bc.disk) && HeaderOk(l, bc.disk) && bc.view.dirty == {} && bc.view.held == map[]
      requires d0 == bc.disk && ws == RecoveryWrites(l, d0) && lh == HeaderBlocks(l, d0)
      ensures |ws| == |lh| + 1 && Loggable(l, d0, lh) && l.start + |lh| < |bc.view.latest|
      ensures forall j {:trigger ws[j]} :: 0 <= j < |lh| ==> ws[j] == Write(lh[j], bc.view.latest[l.start + 1 + j])
      ensures ws[|lh|] == Write(l.start, HeadBlock(bc.view.latest[l.start], []))
    {
      forall b | l.start <= b < l.start + l.size { bc.Clean(b); }
      RecoveryPlanned(l, d0, bc.view.latest);
    }

    /** `recover_from_log`, on a cache with nothing pinned: it performs the writes of RecoveryWrites and no others. */
    method RecoverFromLog() returns (ok: bool, ghost k: nat)
      requires bc.Valid() && Fits(l, bc.disk) && HeaderOk(l, bc.disk) && bc.view.dirty == {} && bc.view.held == map[]
      modifies this`lh, bc
      ensures bc.Valid() && Progress(old(bc.disk), old(bc.writes), old(RecoveryWrites(l, bc.disk)), k)
      ensures ok <==> old(RecoverRoom(l, bc.view, bc.refs, HeaderBlocks(l, bc.disk)))
      ensures ok ==> k == |old(RecoveryWrites(l, bc.disk))| && Ready() && lh == []
    {
      ghost var d0, w0, ws := bc.disk, bc.writes, RecoveryWrites(l, bc.disk);
      RecoveryInRange(l, d0);
      assert ws[..0] == [];
      k := 0;
      ok := ReadHead();
      if !ok { return; }
      EraseCleanIff(l, bc.view, bc.refs, lh);
      PlanRecovery(d0, ws);
      ok, k := InstallAndErase(d0, w0, ws, 0);
      if !ok { return; }
      assert ProgressBody(0, d0, w0, ws, k);
      RecoveryIsIdempotent(l, d0, |ws|);
    }

    /** One pass of the loop of `begin_op` under the log lock; `false` means go to sleep. */
    method TryBeginOp() returns (admitted: bool)
      modifies this`outstanding
      ensures admitted <==> !committing && |lh| + (old(outstanding) + 1) * MAXOPBLOCKS <= LOGSIZE
      ensures outstanding == old(outstanding) + if admitted then 1 else 0
    {
      if committing {
        admitted := false;
      } else if |lh| + (outstanding + 1) * MAXOPBLOCKS > LOGSIZE {
        admitted := false;
      } else {
        outstanding := outstanding + 1;
        admitted := true;
      }
    }

    /** `log_write` of held buffer `i`; `false` is one of its two panics. */
    method LogWrite(i: nat, b: nat) returns (ok: bool)
      requires Ready() && bc.Holds(i, b) && b < |bc.disk| && !InLog(l, b)
      modifies this`lh, bc
      ensures ok <==> |old(lh)| < LOGSIZE && |old(lh)| < l.size - 1 && outstanding >= 1
      ensures ok ==> Ready() && lh == Absorb(old(lh), b) && bc.view == old(bc.view).(dirty := old(bc.view).dirty + {b})
      ensures bc.disk == old(bc.disk) && bc.writes == old(bc.writes)
      ensures !ok ==> lh == old(lh) && bc.view == old(bc.view)
    {
      if |lh| >= LOGSIZE || |lh| >= l.size - 1 || outstanding < 1 {
        return false;
      }
      var j := 0;
      while j < |lh| && lh[j] != b
        invariant 0 <= j <= |lh| && b !in lh[..j]
      {
        j := j + 1;
      }
      lh := if j == |lh| then lh + [b] else lh[j := b];
      assert j < |old(lh)| ==> b == old(lh)[j] && lh == old(lh);
      assert lh == Absorb(old(lh), b);
      bc.Pin(i, b);
      ok := true;
    }

    /** `end_op`: the last call out commits. `false` is the panic "log.committing" or one inside `commit`. */
    method EndOp() returns (ok: bool, ghost k: nat)
      requires Ready() && outstanding >= 1 && (outstanding == 1 ==> Unheld())
      modifies this`lh, this`outstanding, this`committing, bc
      ensures bc.Valid() && outstanding == old(outstanding) - 1
      ensures outstanding > 0 || old(committing) ==>
        bc.disk == old(bc.disk) && bc.writes == old(bc.writes) && lh == old(lh) && bc.view == old(bc.view)
      ensures outstanding == 0 && !old(committing) ==> Progress(old(bc.disk), old(bc.writes), old(CommitWrites(l, bc.disk, lh, Values())), k)
      ensures outstanding == 0 && !old(committing) ==> (ok <==> old(CanCommit()))
      ensures old(committing) ==> !ok
      ensures ok ==> Ready() && !committing && (outstanding == 0 ==> lh == [])
      ensures ok && outstanding == 0 ==> k == |old(CommitWrites(l, bc.disk, lh, Values()))|
      ensures outstanding > 0 ==> (ok <==> !old(committing))
    {
      assert CanCommit() <==> old(CanCommit());
      outstanding := outstanding - 1;
      k := 0;
      if committing {
        return false, 0;
      }
      ok := true;
      if outstanding == 0 {
        committing := true;
        ok, k := Commit();
        if ok { committing := false; }
      }
    }
  }

  // ---- Buffers for a commit

  /** There are buffers for a block and for the one it is copied to. */
  ghost predicate CopyRoom(v: View, refs: multiset<nat>, src: nat, dst: nat) {
    src in Room(v, refs) && dst in Room(v.(held := v.held[src := 0]), refs)
  }

  lemma {:induction false} CopyRoomIff(v: View, refs: multiset<nat>, src: nat, i: nat)
    ensures Room(v.(held := v.held[src := i]), refs) == Room(v.(held := v.held[src := 0]), refs)
  {
    assert v.held[src := i].Keys == v.held[src := 0].Keys;
    SameRoom(v.(held := v.held[src := i]), v.(held := v.held[src := 0]), refs);
  }

  /** A pinned block has its buffer. */
  lemma {:induction false} PinnedRoom(v: View, w: View, refs: multiset<nat>, src: nat, dst: nat)
    requires w.dirty == v.dirty && w.held == v.held && src in v.dirty
    ensures CopyRoom(w, refs, src, dst) <==> dst in Room(v, refs)
  {
    var u := w.(held := w.held[src := 0]);
    assert InUse(u, refs) == InUse(v, refs) == InUse(w, refs);
    SameRoom(u, v, refs);
    RoomFor(w, refs, src);
  }

  /** There is a buffer for the header, and for each of `n` log blocks when its turn comes. */
  ghost predicate LogRoom(l: Layout, v: View, refs: multiset<nat>, n: nat) {
    forall b :: l.start <= b <= l.start + n ==> b in Room(v, refs)
  }

  /** There are buffers for log block `i` and for its home block, when its turn comes. */
  ghost predicate RoomAt(l: Layout, v: View, refs: multiset<nat>, lh: seq<nat>, i: int)
    requires 0 <= i < |lh| && l.start + 1 + |lh| <= |v.latest| && forall i :: 0 <= i < |lh| ==> lh[i] < |v.latest|
  {
    CopyRoom(Installed(l, v, lh, i), refs, l.start + i + 1, lh[i])
  }

  /** There are buffers for the first `t` log blocks and for their home blocks, each when its turn comes. */
  ghost predicate InstallRoom(l: Layout, v: View, refs: multiset<nat>, lh: seq<nat>, t: nat)
    requires t <= |lh| && l.start + 1 + |lh| <= |v.latest| && forall i :: 0 <= i < |lh| ==> lh[i] < |v.latest|
  {
    forall i :: 0 <= i < t ==> RoomAt(l, v, refs, lh, i)
  }

  /** There are for all of them, and then for the header. */
  ghost predicate EraseRoom(l: Layout, v: View, refs: multiset<nat>, lh: seq<nat>)
    requires l.start + 1 + |lh| <= |v.latest| && forall i :: 0 <= i < |lh| ==> lh[i] < |v.latest|
  {
    InstallRoom(l, v, refs, lh, |lh|) && l.start in Room(Installed(l, v, lh, |lh|), refs)
  }

  /** A log block keeps its buffer while home blocks are unpinned. */
  lemma {:induction false} StillHasBuffer(l: Layout, v: View, refs: multiset<nat>, lh: seq<nat>, t: nat, b: nat)
    requires t <= |lh| && l.start + 1 + |lh| <= |v.latest| && forall i :: 0 <= i < |lh| ==> lh[i] < |v.latest| && lh[i] != b
    requires b < |v.latest| && b in Room(v, refs)
    ensures b in Room(Installed(l, v, lh, t), refs)
  {
    var w := Installed(l, v, lh, t);
    RoomFor(v, refs, b);
    RoomFor(w, refs, b);
    InstalledLog(l, v, lh, t, b);
    SubsetSize(InUse(w, refs), InUse(v, refs));
  }

  /** A commit that has got through the log has buffers for the rest. */
  lemma {:induction false} CommitInstalls(l: Layout, v: View, c: View, refs: multiset<nat>, lh: seq<nat>)
    requires LogRoom(l, v, refs, |lh|) && c.dirty == v.dirty && c.held == v.held
    requires NoDuplicates(lh) && l.start + |lh| < l.start + l.size <= |c.latest|
    requires forall i :: 0 <= i < |lh| ==> lh[i] < |c.latest| && lh[i] in v.dirty && !InLog(l, lh[i])
    ensures EraseRoom(l, c, refs, lh)
  {
    SameRoom(v, c, refs);
    StillHasBuffer(l, c, refs, lh, |lh|, l.start);
    forall i | 0 <= i < |lh| ensures RoomAt(l, c, refs, lh, i) {
      CommitInstallsAt(l, c, refs, lh, i);
    }
  }

  lemma {:induction false} CommitInstallsAt(l: Layout, c: View, refs: multiset<nat>, lh: seq<nat>, i: nat)
    requires i < |lh| && NoDuplicates(lh) && l.start + |lh| < l.start + l.size <= |c.latest| && l.start + i + 1 in Room(c, refs)
    requires forall i :: 0 <= i < |lh| ==> lh[i] < |c.latest| && lh[i] in c.dirty && !InLog(l, lh[i])
    ensures RoomAt(l, c, refs, lh, i)
  {
    var w, b := Installed(l, c, lh, i), l.start + i + 1;
    StillHasBuffer(l, c, refs, lh, i, b);
    InstalledLog(l, c, lh, i, lh[i]);
    RoomFor(w.(held := w.held[b := 0]), refs, lh[i]);
  }

  /** There are buffers for a recovery. */
  ghost predicate RecoverRoom(l: Layout, v: View, refs: multiset<nat>, lh: seq<nat>) {
    l.start in Room(v, refs) && forall i :: 0 <= i < |lh| ==> CopyRoom(v, refs, l.start + i + 1, lh[i])
  }

  /** Where nothing is pinned, a recovery has the same buffers at each step. */
  lemma {:induction false} EraseCleanIff(l: Layout, v: View, refs: multiset<nat>, lh: seq<nat>)
    requires l.start + 1 + |lh| <= |v.latest| && v.dirty == {} && forall i :: 0 <= i < |lh| ==> lh[i] < |v.latest|
    ensures EraseRoom(l, v, refs, lh) <==> RecoverRoom(l, v, refs, lh)
  {
    SameRoom(Installed(l, v, lh, |lh|), v, refs);
    forall i | 0 <= i < |lh| ensures RoomAt(l, v, refs, lh, i) <==> CopyRoom(v, refs, l.start + i + 1, lh[i]) {
      EraseCleanAt(l, v, refs, lh, i);
    }
  }

  lemma {:induction false} EraseCleanAt(l: Layout, v: View, refs: multiset<nat>, lh: seq<nat>, i: nat)
    requires i < |lh| && l.start + 1 + |lh| <= |v.latest| && v.dirty == {} && forall i :: 0 <= i < |lh| ==> lh[i] < |v.latest|
    ensures RoomAt(l, v, refs, lh, i) <==> CopyRoom(v, refs, l.start + i + 1, lh[i])
  {
    var w, b := Installed(l, v, lh, i), l.start + i + 1;
    SameRoom(w, v, refs);
    SameRoom(w.(held := w.held[b := 0]), v.(held := v.held[b := 0]), refs);
  }

  /** Two free buffers are enough for it. */
  lemma {:induction false} TwoBuffers(l: Layout, v: View, refs: multiset<nat>, lh: seq<nat>)
    requires |InUse(v, refs)| + 2 <= NBUF
    ensures RecoverRoom(l, v, refs, lh)
  {
    RoomFor(v, refs, l.start);
    forall i | 0 <= i < |lh| ensures CopyRoom(v, refs, l.start + i + 1, lh[i]) {
      var b := l.start + i + 1;
      var w := v.(held := v.held[b := 0]);
      assert InUse(w, refs) == InUse(v, refs) + {b};
      RoomFor(v, refs, b);
      RoomFor(w, refs, lh[i]);
    }
  }

  /** For blocks that are neither pinned nor held. */
  lemma {:induction false} LogRoomIff(s: State, l: Layout, n: nat)
    requires Ok(s) && forall b :: l.start <= b <= l.start + n ==> b !in s.view.held && b !in s.view.dirty
    ensures LogRoom(l, s.view, s.refs, n) <==>
      (exists i :: 0 <= i < |s.bufs| && Recyclable(s.bufs[i])) || (forall b :: l.start <= b <= l.start + n ==> b in s.refs)
  {
    BuffersLeft(s);
    forall b | l.start <= b <= l.start + n
      ensures b in Room(s.view, s.refs) <==> (exists i :: 0 <= i < |s.bufs| && Recyclable(s.bufs[i])) || b in s.refs
    {
      RoomFor(s.view, s.refs, b);
    }
  }

  ghost function ValuesOf(latest: Image, lh: seq<nat>): seq<Block>
    requires forall i :: 0 <= i < |lh| ==> lh[i] < |latest|
  {
    seq(|lh|, i requires 0 <= i < |lh| => latest[lh[i]])
  }

  /** CommitWrites of a nonempty transaction, position by position. */
  ghost predicate CommitScript(l: Layout, hb: Block, lh: seq<nat>, vals: seq<Block>, ws: seq<Write>)
    requires |lh| == |vals| && |lh| <= LOGSIZE
  {
    var n, head := |lh|, HeadBlock(hb, lh);
    && |ws| == 2 * n + 2
    && (forall i {:trigger ws[i]} :: 0 <= i < n ==> ws[i] == Write(l.start + 1 + i, vals[i]))
    && ws[n] == Write(l.start, head)
    && (forall j {:trigger ws[j]} :: n < j <= 2 * n ==> ws[j] == Write(lh[j - n - 1], vals[j - n - 1]))
    && ws[2 * n + 1] == Write(l.start, HeadBlock(head, []))
  }

  lemma {:induction false} CommitScriptHolds(l: Layout, img: Image, lh: seq<nat>, vals: seq<Block>)
    requires Fits(l, img) && Loggable(l, img, lh) && |lh| == |vals| && lh != []
    ensures CommitScript(l, img[l.start], lh, vals, CommitWrites(l, img, lh, vals))
  {
  }

  /** The view after the first `t` blocks of the transaction have been copied to the log. */
  ghost function Logged(l: Layout, v: View, lh: seq<nat>, t: nat): (r: View)
    requires t <= |lh| && l.start + 1 + |lh| <= |v.latest| && forall i :: 0 <= i < |lh| ==> lh[i] < |v.latest|
    ensures |r.latest| == |v.latest| && r.held == v.held && r.dirty == v.dirty
  {
    if t == 0 then v else
      var w := Logged(l, v, lh, t - 1);
      w.(latest := w.latest[l.start + t := v.latest[lh[t - 1]]])
  }

  lemma {:induction false} LoggedElsewhere(l: Layout, v: View, lh: seq<nat>, t: nat, b: nat)
    requires t <= |lh| && l.start + 1 + |lh| <= |v.latest| && forall i :: 0 <= i < |lh| ==> lh[i] < |v.latest|
    requires b < |v.latest| && !(l.start < b <= l.start + t)
    ensures Logged(l, v, lh, t).latest[b] == v.latest[b]
  {
    if t > 0 {
      LoggedElsewhere(l, v, lh, t - 1, b);
    }
  }

  /** Copying the next block to a log block, which is not pinned. */
  lemma {:induction false} LoggedNext(l: Layout, v: View, lh: seq<nat>, t: nat)
    requires t < |lh| && l.start + 1 + |lh| <= |v.latest| && forall i :: 0 <= i < |lh| ==> lh[i] < |v.latest|
    requires l.start + t + 1 !in v.dirty
    ensures
      var w, b := Logged(l, v, lh, t), l.start + t + 1;
      Logged(l, v, lh, t + 1) == View(w.latest[b := v.latest[lh[t]]], w.dirty - {b}, w.held)
  {
    assert v.dirty - {l.start + t + 1} == v.dirty;
  }

  lemma {:induction false} LoggedAt(l: Layout, v: View, lh: seq<nat>, t: nat, i: nat)
    requires i < t <= |lh| && l.start + 1 + |lh| <= |v.latest| && forall i :: 0 <= i < |lh| ==> lh[i] < |v.latest|
    ensures Logged(l, v, lh, t).latest[l.start + 1 + i] == v.latest[lh[i]]
  {
    if i < t - 1 {
      LoggedAt(l, v, lh, t - 1, i);
    }
  }

  lemma {:induction false} LoggedSame(l: Layout, v: View, lh: seq<nat>)
    requires l.start + 1 + |lh| <= l.start + l.size <= |v.latest|
    requires forall i :: 0 <= i < |lh| ==> lh[i] < |v.latest| && !InLog(l, lh[i])
    ensures
      var w := Logged(l, v, lh, |lh|);
      && SameHome(l, v, w) && w.latest[l.start] == v.latest[l.start]
      && forall i :: 0 <= i < |lh| ==> w.latest[l.start + 1 + i] == w.latest[lh[i]] == v.latest[lh[i]]
  {
    var w := Logged(l, v, lh, |lh|);
    LoggedElsewhere(l, v, lh, |lh|, l.start);
    forall b | 0 <= b < |v.latest| && !InLog(l, b) ensures w.latest[b] == v.latest[b] {
      LoggedElsewhere(l, v, lh, |lh|, b);
    }
    forall i | 0 <= i < |lh| ensures w.latest[l.start + 1 + i] == v.latest[lh[i]] {
      LoggedAt(l, v, lh, |lh|, i);
    }
  }

  /** The view when the transaction is in the log and the header names it. */
  ghost function Committed(l: Layout, v: View, lh: seq<nat>): (r: View)
    requires l.start + 1 + |lh| <= |v.latest| && forall i :: 0 <= i < |lh| ==> lh[i] < |v.latest|
    requires |lh| <= LOGSIZE
    ensures |r.latest| == |v.latest| && r.held == v.held && r.dirty == v.dirty
  {
    var w := Logged(l, v, lh, |lh|);
    w.(latest := w.latest[l.start := HeadBlock(v.latest[l.start], lh)])
  }

  /** The header block is not part of the home area. */
  lemma {:induction false} HomeBehindHead(l: Layout, v: View, w: View, hb: Block)
    requires SameHome(l, v, w) && l.start < |w.latest| && l.size >= 1
    ensures SameHome(l, v, w.(latest := w.latest[l.start := hb]))
  {
  }

  /** `ws` are the writes of a commit in terms of the cache: what is written before the header and after it. */
  ghost predicate Plan(l: Layout, v: View, lh: seq<nat>, ws: seq<Write>)
    requires l.start + 1 + |lh| <= |v.latest| && |lh| <= LOGSIZE && forall i :: 0 <= i < |lh| ==> lh[i] < |v.latest|
  {
    var c, n := Committed(l, v, lh), |lh|;
    && |ws| == 2 * n + 2
    && (forall i {:trigger ws[i]} :: 0 <= i < n ==> ws[i] == Write(l.start + 1 + i, v.latest[lh[i]]))
    && ws[n] == Write(l.start, HeadBlock(v.latest[l.start], lh))
    && (forall j {:trigger ws[j]} :: n + 1 <= j < n + 1 + n ==> ws[j] == Write(lh[j - (n + 1)], c.latest[l.start + 1 + j - (n + 1)]))
    && ws[n + 1 + n] == Write(l.start, HeadBlock(c.latest[l.start], []))
    && SameHome(l, v.(dirty := {}), Installed(l, c, lh, n))
  }

  lemma {:induction false} PlanTail(l: Layout, v: View, lh: seq<nat>, ws: seq<Write>, c: View, k: nat)
    requires l.start + 1 + |lh| <= |v.latest| && |lh| <= LOGSIZE && forall i :: 0 <= i < |lh| ==> lh[i] < |v.latest|
    requires Plan(l, v, lh, ws) && c == Committed(l, v, lh) && k == |lh| + 1
    ensures k + |lh| + 1 == |ws|
    ensures forall j {:trigger ws[j]} :: k <= j < k + |lh| ==> ws[j] == Write(lh[j - k], c.latest[l.start + 1 + j - k])
    ensures ws[k + |lh|] == Write(l.start, HeadBlock(c.latest[l.start], []))
  {
  }

  lemma {:induction false} CommitPlanned(l: Layout, img: Image, v: View, lh: seq<nat>)
    requires Fits(l, img) && |img| == |v.latest| && Loggable(l, img, lh) && lh != []
    requires v.latest[l.start] == img[l.start] && forall b :: b in v.dirty ==> b in lh
    ensures Plan(l, v, lh, CommitWrites(l, img, lh, ValuesOf(v.latest, lh)))
  {
    CommitScriptHolds(l, img, lh, ValuesOf(v.latest, lh));
    LoggedSame(l, v, lh);
    InstalledSame(l, Committed(l, v, lh), lh);
  }

  lemma {:induction false} RecoveryPlanned(l: Layout, img: Image, latest: Image)
    requires Fits(l, img) && HeaderOk(l, img) && |latest| == |img| && forall b :: l.start <= b < l.start + l.size ==> latest[b] == img[b]
    ensures
      var ws, lh := RecoveryWrites(l, img), HeaderBlocks(l, img);
      && |ws| == |lh| + 1 && Loggable(l, img, lh) && l.start + |lh| < |latest|
      && (forall j {:trigger ws[j]} :: 0 <= j < |lh| ==> ws[j] == Write(lh[j], latest[l.start + 1 + j]))
      && ws[|lh|] == Write(l.start, HeadBlock(latest[l.start], []))
  {
  }

  /** The view after the first `t` blocks of the transaction have been installed from the log. */
  ghost function Installed(l: Layout, v: View, lh: seq<nat>, t: nat): (r: View)
    requires t <= |lh| && l.start + 1 + |lh| <= |v.latest| && forall i :: 0 <= i < |lh| ==> lh[i] < |v.latest|
    ensures |r.latest| == |v.latest| && r.held == v.held && r.dirty <= v.dirty
  {
    if t == 0 then v else
      var w := Installed(l, v, lh, t - 1);
      View(w.latest[lh[t - 1] := v.latest[l.start + t]], w.dirty - {lh[t - 1]}, w.held)
  }

  lemma {:induction false} InstalledLog(l: Layout, v: View, lh: seq<nat>, t: nat, b: nat)
    requires t <= |lh| && l.start + 1 + |lh| <= |v.latest| && forall i :: 0 <= i < |lh| ==> lh[i] < |v.latest|
    requires b < |v.latest| && forall i :: 0 <= i < t ==> lh[i] != b
    ensures Installed(l, v, lh, t).latest[b] == v.latest[b]
    ensures b in Installed(l, v, lh, t).dirty <==> b in v.dirty
  {
    if t > 0 {
      InstalledLog(l, v, lh, t - 1, b);
    }
  }

  lemma {:induction false} InstalledHome(l: Layout, v: View, lh: seq<nat>, t: nat, i: nat)
    requires t <= |lh| && l.start + 1 + |lh| <= |v.latest| && forall i :: 0 <= i < |lh| ==> lh[i] < |v.latest|
    requires i < t && NoDuplicates(lh)
    ensures Installed(l, v, lh, t).latest[lh[i]] == v.latest[l.start + 1 + i]
    ensures lh[i] !in Installed(l, v, lh, t).dirty
  {
    if i < t - 1 {
      InstalledHome(l, v, lh, t - 1, i);
    }
  }

  /** Installing blocks that the log holds in their latest version changes no home block and unpins them all. */
  lemma {:induction false} InstalledSame(l: Layout, v: View, lh: seq<nat>)
    requires l.start + 1 + |lh| <= |v.latest| && forall i :: 0 <= i < |lh| ==> lh[i] < |v.latest|
    requires NoDuplicates(lh) && forall i :: 0 <= i < |lh| ==> v.latest[lh[i]] == v.latest[l.start + 1 + i]
    requires forall b :: b in v.dirty ==> b in lh
    ensures Installed(l, v, lh, |lh|).latest == v.latest && Installed(l, v, lh, |lh|).dirty == {}
  {
    var w := Installed(l, v, lh, |lh|);
    forall b | 0 <= b < |v.latest| ensures w.latest[b] == v.latest[b] && b !in w.dirty {
      if i: nat :| i < |lh| && lh[i] == b {
        InstalledHome(l, v, lh, |lh|, i);
      } else {
        InstalledLog(l, v, lh, |lh|, b);
      }
    }
    assert forall b :: b in w.dirty ==> b in lh;
  }

  /** Home blocks read the same, and the same blocks are pinned and held. */
  ghost predicate SameHome(l: Layout, v: View, w: View) {
    && |w.latest| == |v.latest| && w.dirty == v.dirty && w.held == v.held
    && forall b :: 0 <= b < |v.latest| && !InLog(l, b) ==> w.latest[b] == v.latest[b]
  }
}

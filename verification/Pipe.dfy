/** The pipe of pipe.c. A call that has to sleep gives up the pipe lock, so each method here is one stretch of a
    call during which the lock is held: between two stretches any other readers and writers may run. */
module Pipe {
  import opened Base

  const PIPESIZE := 512

  datatype WriteResult = Wrote | WriteSleeps | WriteFails
  datatype ReadResult = Read(n: nat) | ReadSleeps | ReadFails

  /** Wrapping counters tell a full pipe from an empty one, because a full pipe is smaller than the wrap. */
  lemma {:induction false} CountersDecide(d: nat, e: nat)
    requires d <= e <= d + PIPESIZE
    ensures e % WORD == (d % WORD + PIPESIZE) % WORD <==> e == d + PIPESIZE
    ensures e % WORD == d % WORD <==> e == d
  {
  }

  /** The slot of byte number `i` can be computed from the wrapped counter: PIPESIZE divides the wrap. */
  lemma {:induction false} SlotOfCounter(i: nat)
    ensures (i % WORD) % PIPESIZE == i % PIPESIZE
    ensures (i % WORD + 1) % WORD == (i + 1) % WORD
  {
    assert WORD == PIPESIZE * 0x80_0000;
    var q := i / WORD;
    assert i == PIPESIZE * (0x80_0000 * q) + i % WORD;
    SameRemainder(i % WORD, 0x80_0000 * q);
  }

  lemma {:induction false} SameRemainder(x: nat, k: nat)
    ensures (PIPESIZE * k + x) % PIPESIZE == x % PIPESIZE
  {
  }

  /** Two bytes in the pipe at the same time never share a slot. */
  lemma {:induction false} SlotsDiffer(i: nat, j: nat)
    requires i < j < i + PIPESIZE
    ensures i % PIPESIZE != j % PIPESIZE
  {
  }

  class Pipe {
    const data: array<byte>
    var nread: nat
    var nwrite: nat
    var readopen: bool
    var writeopen: bool
    var freed: bool

    ghost var enqueued: seq<byte>   // every byte ever put into the pipe
    ghost var dequeued: seq<byte>   // every byte ever taken out of it

    ghost predicate Valid()
      reads this, data
    {
      && data.Length == PIPESIZE
      && |dequeued| <= |enqueued| <= |dequeued| + PIPESIZE
      && nread == |dequeued| % WORD && nwrite == |enqueued| % WORD
      && dequeued == enqueued[..|dequeued|]
      && (forall i :: |dequeued| <= i < |enqueued| ==> data[i % PIPESIZE] == enqueued[i])
      && freed == (!readopen && !writeopen)
    }

    /** The bytes now in the pipe, as the ring stores them. */
    ghost function Queued(): (s: seq<byte>)
      requires Valid()
      reads this, data
      ensures dequeued + s == enqueued && |s| <= PIPESIZE
    {
      seq(|enqueued| - |dequeued|, i requires 0 <= i < |enqueued| - |dequeued| reads this, data requires Valid() => data[(|dequeued| + i) % PIPESIZE])
    }

    constructor ()
      ensures Valid() && enqueued == [] && dequeued == [] && readopen && writeopen && fresh(data)
    {
      data := new byte[PIPESIZE](_ => 0);
      nread, nwrite, readopen, writeopen, freed := 0, 0, true, true, false;
      enqueued, dequeued := [], [];
    }

    /** A stretch of pipewrite() from position `from` of `addr`: bytes go in, in order, until all are in or the pipe
        is full; then the call sleeps, or fails if nobody reads any more or the caller is killed. */
    method Write(addr: seq<byte>, from: nat, killed: bool) returns (r: WriteResult, i: nat)
      requires Valid() && from <= |addr|
      modifies this`nwrite, this`enqueued, data
      ensures Valid() && from <= i <= |addr| && enqueued == old(enqueued) + addr[from..i]
      ensures r == Wrote <==> i == |addr|
      ensures r != Wrote ==> |Queued()| == PIPESIZE && (r == WriteFails <==> !readopen || killed)
    {
      i := from;
      while i < |addr|
        invariant from <= i <= |addr| && Valid() && enqueued == old(enqueued) + addr[from..i]
      {
        CountersDecide(|dequeued|, |enqueued|);
        if nwrite == (nread + PIPESIZE) % WORD {
          r := if !readopen || killed then WriteFails else WriteSleeps;
          return;
        }
        Put(addr[i]);
        assert addr[from..i + 1] == addr[from..i] + [addr[i]];
        i := i + 1;
      }
      r := Wrote;
    }

    method Put(b: byte)
      requires Valid() && |enqueued| < |dequeued| + PIPESIZE
      modifies this`nwrite, this`enqueued, data
      ensures Valid() && enqueued == old(enqueued) + [b]
    {
      ghost var e := |enqueued|;
      SlotOfCounter(e);
      forall i | |dequeued| <= i < e ensures i % PIPESIZE != e % PIPESIZE { SlotsDiffer(i, e); }
      data[nwrite % PIPESIZE] := b;
      nwrite := (nwrite + 1) % WORD;
      enqueued := enqueued + [b];
    }

    method Get() returns (b: byte)
      requires Valid() && |dequeued| < |enqueued|
      modifies this`nread, this`dequeued
      ensures Valid() && dequeued == old(dequeued) + [b]
    {
      ghost var d := |dequeued|;
      SlotOfCounter(d);
      assert enqueued[..d + 1] == dequeued + [enqueued[d]];
      b := data[nread % PIPESIZE];
      nread := (nread + 1) % WORD;
      dequeued := dequeued + [b];
    }

    /** A stretch of piperead(): an empty pipe that may still be written makes the call sleep, or fail if the caller
        is killed; otherwise up to `n` bytes come out, in order. */
    method Read(addr: array<byte>, n: nat, killed: bool) returns (r: ReadResult)
      requires Valid() && n <= addr.Length && addr != data
      modifies this`nread, this`dequeued, addr
      ensures Valid()
      ensures r.Read? <==> old(|Queued()|) > 0 || !writeopen
      ensures r == ReadFails <==> old(|Queued()|) == 0 && writeopen && killed
      ensures !r.Read? ==> dequeued == old(dequeued) && addr[..] == old(addr[..])
      ensures r.Read? ==>
        && r.n == (if n <= old(|Queued()|) then n else old(|Queued()|))
        && dequeued == old(dequeued) + addr[..r.n] && addr[r.n..] == old(addr[r.n..])
    {
      CountersDecide(|dequeued|, |enqueued|);
      if nread == nwrite && writeopen {
        return if killed then ReadFails else ReadSleeps;
      }
      var i := 0;
      while i < n
        invariant 0 <= i <= n && Valid() && |dequeued| == |old(dequeued)| + i
        invariant dequeued == old(dequeued) + addr[..i] && addr[i..] == old(addr[i..])
      {
        CountersDecide(|dequeued|, |enqueued|);
        if nread == nwrite {
          break;
        }
        var b := Get();
        addr[i] := b;
        i := i + 1;
      }
      return ReadResult.Read(i);
    }

    /** pipeclose(): the page is freed exactly when the second end is closed. */
    method Close(writable: bool)
      requires Valid() && !freed
      modifies this`readopen, this`writeopen, this`freed
      ensures Valid() && readopen == (old(readopen) && writable) && writeopen == (old(writeopen) && !writable)
    {
      if writable {
        writeopen := false;
      } else {
        readopen := false;
      }
      if !readopen && !writeopen {
        freed := true;
      }
    }
  }

  /** One stretch of some call by some process. */
  datatype Stretch =
    | WriteStretch(addr: seq<byte>, from: nat, killed: bool)
    | ReadStretch(n: nat, killed: bool)
    | CloseStretch(writable: bool)

  /** A pipe as a queue of at most 512 bytes, with what has gone in and what has come out of it. */
  datatype Fifo = Fifo(queue: seq<byte>, readopen: bool, writeopen: bool, written: seq<byte>, received: seq<byte>)

  function Least(x: nat, y: nat): nat { if x < y then x else y }

  /** What a stretch does to the queue: a writer puts in what there is room for, a reader takes out what there is. */
  function Serve(f: Fifo, s: Stretch): Fifo
    requires |f.queue| <= 512 && (s.WriteStretch? ==> s.from <= |s.addr|)
  {
    if !f.readopen && !f.writeopen then f
    else
      match s
      case WriteStretch(addr, from, killed) =>
        var bytes := addr[from..from + Least(|addr| - from, 512 - |f.queue|)];
        f.(queue := f.queue + bytes, written := f.written + bytes)
      case ReadStretch(n, killed) =>
        var m := Least(n, |f.queue|);
        f.(queue := f.queue[m..], received := f.received + f.queue[..m])
      case CloseStretch(writable) =>
        if writable then f.(writeopen := false) else f.(readopen := false)
  }

  function ServeAll(f: Fifo, schedule: seq<Stretch>): (r: Fifo)
    requires |f.queue| <= 512 && forall i :: 0 <= i < |schedule| && schedule[i].WriteStretch? ==> schedule[i].from <= |schedule[i].addr|
    ensures |r.queue| <= 512
  {
    if schedule == [] then f else Serve(ServeAll(f, schedule[..|schedule| - 1]), schedule[|schedule| - 1])
  }

  /** The queue is first in, first out. */
  lemma {:induction false} FifoOrder(f: Fifo, schedule: seq<Stretch>)
    requires |f.queue| <= 512 && forall i :: 0 <= i < |schedule| && schedule[i].WriteStretch? ==> schedule[i].from <= |schedule[i].addr|
    requires f.written == f.received + f.queue
    ensures var r := ServeAll(f, schedule); r.written == r.received + r.queue
  {
    if schedule != [] {
      FifoOrder(f, schedule[..|schedule| - 1]);
      var g, s := ServeAll(f, schedule[..|schedule| - 1]), schedule[|schedule| - 1];
      if s.ReadStretch? {
        assert g.queue == g.queue[..Least(s.n, |g.queue|)] + g.queue[Least(s.n, |g.queue|)..];
      }
    }
  }

  /** The state of a pipe as such a queue. */
  ghost function Abstract(p: Pipe): Fifo
    requires p.Valid()
    reads p, p.data
  {
    Fifo(p.Queued(), p.readopen, p.writeopen, p.enqueued, p.dequeued)
  }

  /** One stretch, carried out on the ring and its wrapping counters, is what the queue does. */
  method Carry(p: Pipe, s: Stretch)
    requires p.Valid() && (s.WriteStretch? ==> s.from <= |s.addr|)
    modifies p, p.data
    ensures p.Valid() && Abstract(p) == Serve(old(Abstract(p)), s)
  {
    if p.freed {
      return;
    }
    match s
    case WriteStretch(addr, from, killed) => CarryWrite(p, addr, from, killed);
    case ReadStretch(n, killed) => CarryRead(p, n, killed);
    case CloseStretch(writable) => p.Close(writable);
  }

  method CarryWrite(p: Pipe, addr: seq<byte>, from: nat, killed: bool)
    requires p.Valid() && !p.freed && from <= |addr|
    modifies p`nwrite, p`enqueued, p.data
    ensures p.Valid() && Abstract(p) == Serve(old(Abstract(p)), WriteStretch(addr, from, killed))
  {
    ghost var f := Abstract(p);
    var r, i := p.Write(addr, from, killed);
    Suffixes(p.dequeued, p.Queued(), f.written, f.queue, addr[from..i]);
    Written(f, Abstract(p), addr, from, i, killed);
  }

  /** A writer that stops has nothing left to write, or finds the queue full. */
  lemma {:induction false} Written(f: Fifo, g: Fifo, addr: seq<byte>, from: nat, i: nat, killed: bool)
    requires (f.readopen || f.writeopen) && |f.queue| <= 512 && from <= i <= |addr| && |g.queue| <= 512 && (i == |addr| || |g.queue| == 512)
    requires g == f.(queue := f.queue + addr[from..i], written := f.written + addr[from..i])
    ensures g == Serve(f, WriteStretch(addr, from, killed))
  {
  }

  method CarryRead(p: Pipe, n: nat, killed: bool)
    requires p.Valid() && !p.freed
    modifies p`nread, p`dequeued
    ensures p.Valid() && Abstract(p) == Serve(old(Abstract(p)), ReadStretch(n, killed))
  {
    var buf := new byte[n](_ => 0);
    ghost var q, d := p.Queued(), p.dequeued;
    var r := p.Read(buf, n, killed);
    if r.Read? {
      Prefixes(d, q, buf[..r.n], p.Queued());
    } else {
      assert p.Queued() == q;
    }
  }

  lemma {:induction false} Suffixes(d: seq<byte>, q': seq<byte>, e: seq<byte>, q: seq<byte>, bytes: seq<byte>)
    requires d + q == e && d + q' == e + bytes
    ensures q' == q + bytes
  {
    assert d + q' == d + (q + bytes);
    assert (d + q')[|d|..] == q' && (d + (q + bytes))[|d|..] == q + bytes;
  }

  lemma {:induction false} Prefixes(d: seq<byte>, q: seq<byte>, out: seq<byte>, q': seq<byte>)
    requires d + q == d + out + q'
    ensures q == out + q' && out == q[..|out|] && q' == q[|out|..]
  {
    assert d + out + q' == d + (out + q');
    assert (d + q)[|d|..] == q && (d + (out + q'))[|d|..] == out + q';
  }

  /** Any interleaving of readers, writers and closers on a new pipe is an interleaving on the queue: what the readers got,
      followed by what is still in the pipe, is what the writers put in, in that order. Calls stop when the pipe is freed. */
  method Interleave(p: Pipe, schedule: seq<Stretch>)
    requires p.Valid() && p.enqueued == [] && p.dequeued == [] && p.readopen && p.writeopen
    requires forall i :: 0 <= i < |schedule| && schedule[i].WriteStretch? ==> schedule[i].from <= |schedule[i].addr|
    modifies p, p.data
    ensures p.Valid() && Abstract(p) == ServeAll(Fifo([], true, true, [], []), schedule)
    ensures p.enqueued == p.dequeued + p.Queued()
  {
    ghost var f := Fifo([], true, true, [], []);
    for k := 0 to |schedule|
      invariant p.Valid() && Abstract(p) == ServeAll(f, schedule[..k])
    {
      Carry(p, schedule[k]);
      assert schedule[..k + 1][..k] == schedule[..k];
    }
    assert schedule[..|schedule|] == schedule;
  }
}

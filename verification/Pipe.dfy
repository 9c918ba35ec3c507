/** Pipes: a 512-byte ring with 32-bit counters that wrap. Each method is one region of the code
    under the pipe's lock, from its start or from a wake-up to the next sleep or return. */
module Pipe {
  import opened Blocks

  const PIPESIZE: nat := 512
  const WRAP: nat := 0x1_0000_0000

  datatype Outcome = Returned | Failed | Sleeps

  function Min(a: nat, b: nat): (m: nat)
  {
    if a <= b then a else b
  }

  // ---------------------------------------------------------------- the pipe as two histories

  /** Everything ever written and everything ever read. */
  datatype Flow = Flow(stored: seq<byte>, delivered: seq<byte>)

  ghost predicate Fifo(f: Flow)
  {
    f.delivered <= f.stored && |f.stored| - |f.delivered| <= PIPESIZE
  }

  function Buffered(f: Flow): (n: int)
  {
    |f.stored| - |f.delivered|
  }

  /** How many more bytes a writer with `left` bytes to go can put in at once. */
  function CanWrite(f: Flow, left: nat): (k: nat)
    requires Buffered(f) <= PIPESIZE
    ensures k <= left
  {
    Min(left, PIPESIZE - Buffered(f))
  }

  function Stored(f: Flow, bytes: seq<byte>): (g: Flow)
  {
    f.(stored := f.stored + bytes)
  }

  function CanRead(f: Flow, n: nat): (k: nat)
    requires Buffered(f) >= 0
    ensures k <= n && k <= Buffered(f)
  {
    Min(n, Buffered(f))
  }

  /** The next `k` bytes a reader gets. */
  function NextBytes(f: Flow, k: nat): (bytes: seq<byte>)
    requires k <= Buffered(f)
    ensures |bytes| == k
  {
    f.stored[|f.delivered|..|f.delivered| + k]
  }

  function Delivered(f: Flow, k: nat): (g: Flow)
    requires k <= Buffered(f)
  {
    f.(delivered := f.delivered + NextBytes(f, k))
  }

  lemma StoredFifo(f: Flow, bytes: seq<byte>)
    requires Fifo(f) && |bytes| <= PIPESIZE - Buffered(f)
    ensures Fifo(Stored(f, bytes))
  {
  }

  lemma DeliveredFifo(f: Flow, k: nat)
    requires Fifo(f) && k <= Buffered(f)
    ensures Fifo(Delivered(f, k))
  {
  }

  // ---------------------------------------------------------------- the ring

  /** Two counts at most 512 apart: their 32-bit remainders tell empty and full apart. */
  lemma CountersTell(s: nat, d: nat)
    requires d <= s <= d + PIPESIZE
    ensures s % WRAP == d % WRAP <==> s == d
    ensures s % WRAP == (d % WRAP + PIPESIZE) % WRAP <==> s == d + PIPESIZE
    ensures s % WRAP % PIPESIZE == s % PIPESIZE
    ensures (s % WRAP + 1) % WRAP == (s + 1) % WRAP
  {
    Wraps(s, d);
    WrapsSlot(s);
    WrapsAdd(s, 1);
    WrapsAdd(d, PIPESIZE);
    Wraps(d + PIPESIZE, s);
  }

  /** Counts less than a whole wrap apart agree only when equal. */
  lemma Wraps(s: nat, d: nat)
    requires d <= s <= d + PIPESIZE
    ensures s % WRAP == d % WRAP <==> s == d
  {
  }

  lemma WrapsSlot(s: nat)
    ensures s % WRAP % PIPESIZE == s % PIPESIZE
  {
  }

  lemma WrapsAdd(s: nat, k: nat)
    requires k <= PIPESIZE
    ensures (s % WRAP + k) % WRAP == (s + k) % WRAP
  {
  }

  ghost predicate Holds(data: seq<byte>, nread: nat, nwrite: nat, f: Flow)
  {
    && |data| == PIPESIZE && Fifo(f) && nread == |f.delivered| % WRAP && nwrite == |f.stored| % WRAP
    && forall i :: |f.delivered| <= i < |f.stored| ==> data[i % PIPESIZE] == f.stored[i]
  }

  lemma PutByte(data: seq<byte>, nread: nat, nwrite: nat, f: Flow, b: byte)
    requires Holds(data, nread, nwrite, f) && Buffered(f) < PIPESIZE
    ensures Holds(data[nwrite % PIPESIZE := b], nread, (nwrite + 1) % WRAP, Stored(f, [b]))
  {
    var s := |f.stored|;
    CountersTell(s, |f.delivered|);
    forall i | |f.delivered| <= i < s + 1
      ensures data[nwrite % PIPESIZE := b][i % PIPESIZE] == Stored(f, [b]).stored[i]
    {
      if i < s { SlotsDiffer(i, s); }
    }
  }

  lemma SlotsDiffer(i: nat, j: nat)
    requires i < j < i + PIPESIZE
    ensures i % PIPESIZE != j % PIPESIZE
  {
  }

  lemma TakeByte(data: seq<byte>, nread: nat, nwrite: nat, f: Flow)
    requires Holds(data, nread, nwrite, f) && Buffered(f) > 0
    ensures NextBytes(f, 1) == [data[nread % PIPESIZE]]
    ensures Holds(data, (nread + 1) % WRAP, nwrite, Delivered(f, 1))
  {
    CountersTell(|f.delivered|, |f.delivered|);
    assert data[|f.delivered| % PIPESIZE] == f.stored[|f.delivered|];
  }

  class Pipe {
    const data: array<byte>
    var nread: nat
    var nwrite: nat
    var readopen: bool
    var writeopen: bool
    ghost var flow: Flow

    ghost predicate Valid()
      reads this, data
    {
      Holds(data[..], nread, nwrite, flow)
    }

    constructor ()
      ensures Valid() && fresh(data) && readopen && writeopen && flow == Flow([], [])
    {
      data := new byte[PIPESIZE](_ => 0);
      nread, nwrite := 0, 0;
      readopen, writeopen := true, true;
      flow := Flow([], []);
    }

    method Close(writable: bool) returns (wokeReaders: bool, wokeWriters: bool, freed: bool)
      requires Valid()
      modifies this`readopen, this`writeopen
      ensures Valid()
      ensures writeopen == (old(writeopen) && !writable) && readopen == (old(readopen) && writable)
      ensures wokeReaders == writable && wokeWriters == !writable && freed == (!readopen && !writeopen)
    {
      if writable {
        writeopen := false;
      } else {
        readopen := false;
      }
      return writable, !writable, !readopen && !writeopen;
    }

    /** `pipewrite` from byte `start` on. A writer that leaves because the reader is gone or it was
        killed wakes nobody. */
    method Write(addr: seq<byte>, start: nat, killed: bool) returns (i: nat, r: Outcome, woke: bool)
      requires Valid() && start <= |addr|
      modifies this`nwrite, this`flow, data
      ensures Valid()
      ensures i == start + CanWrite(old(flow), |addr| - start)
      ensures var room := 512 - (|old(flow).stored| - |old(flow).delivered|);
              i - start == if |addr| - start <= room then |addr| - start else room
      ensures flow == Stored(old(flow), addr[start..i])
      ensures r == if i == |addr| then Returned else if !readopen || killed then Failed else Sleeps
      ensures woke == !r.Failed?
    {
      i := start;
      assert flow == Stored(old(flow), addr[start..i]);
      while i < |addr|
        invariant start <= i <= |addr| && Valid()
        invariant i - start <= CanWrite(old(flow), |addr| - start)
        invariant flow == Stored(old(flow), addr[start..i])
      {
        CountersTell(|flow.stored|, |flow.delivered|);
        if nwrite == (nread + PIPESIZE) % WRAP {
          if !readopen || killed {
            return i, Failed, false;
          }
          return i, Sleeps, true;
        }
        PutByte(data[..], nread, nwrite, flow, addr[i]);
        assert addr[start..i] + [addr[i]] == addr[start..i + 1];
        data[nwrite % PIPESIZE] := addr[i];
        nwrite := (nwrite + 1) % WRAP;
        flow := Stored(flow, [addr[i]]);
        i := i + 1;
      }
      return i, Returned, true;
    }

    /** `piperead` of up to `n` bytes. */
    method Read(n: nat, killed: bool) returns (got: seq<byte>, r: Outcome, woke: bool)
      requires Valid()
      modifies this`nread, this`flow
      ensures Valid()
      ensures r == if Buffered(old(flow)) == 0 && writeopen then (if killed then Failed else Sleeps) else Returned
      ensures if r.Returned? then
                var k := CanRead(old(flow), n);
                got == NextBytes(old(flow), k) && flow == Delivered(old(flow), k)
              else got == [] && flow == old(flow)
      ensures r.Returned? ==>
                var d, waiting := |old(flow).delivered|, |old(flow).stored| - |old(flow).delivered|;
                && |got| == (if n <= waiting then n else waiting)
                && got == old(flow).stored[d..d + |got|] && flow.delivered == old(flow).delivered + got
      ensures woke == r.Returned?
    {
      got := [];
      CountersTell(|flow.stored|, |flow.delivered|);
      if nread == nwrite && writeopen {
        if killed {
          return [], Failed, false;
        }
        return [], Sleeps, false;
      }
      ghost var f := flow;
      var i := 0;
      assert flow == Delivered(f, 0);
      while i < n
        invariant 0 <= i <= CanRead(f, n) && Valid()
        invariant got == NextBytes(f, i) && flow == Delivered(f, i)
      {
        CountersTell(|flow.stored|, |flow.delivered|);
        if nread == nwrite {
          break;
        }
        TakeByte(data[..], nread, nwrite, flow);
        DeliveredNext(f, i);
        got := got + [data[nread % PIPESIZE]];
        nread := (nread + 1) % WRAP;
        flow := Delivered(flow, 1);
        i := i + 1;
      }
      r, woke := Returned, true;
    }
  }

  lemma DeliveredNext(f: Flow, i: nat)
    requires Fifo(f) && i + 1 <= Buffered(f)
    ensures var g := Delivered(f, i);
            NextBytes(f, i) + NextBytes(g, 1) == NextBytes(f, i + 1) && Delivered(g, 1) == Delivered(f, i + 1)
  {
    var d := |f.delivered|;
    assert f.stored[d..d + i] + f.stored[d + i..d + i + 1] == f.stored[d..d + i + 1];
    assert f.delivered + NextBytes(f, i + 1) == f.delivered + NextBytes(f, i) + NextBytes(Delivered(f, i), 1);
  }
}

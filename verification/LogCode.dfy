/** The log code itself: the loops of `log.c` over the header, the log blocks and the home
    blocks, proved to make exactly the block writes whose crash behaviour `LogRecovery` settles. */
module LogCode {
  import opened Blocks
  import opened LogRecovery

  const MAXOPBLOCKS: nat := 10

  /** Recording a block number once: the entry it already has, or a new one. */
  function Absorb(bs: seq<nat>, b: nat): (r: seq<nat>)
  {
    if b in bs then bs else bs + [b]
  }

  predicate MayBegin(logged: nat, outstanding: int, committing: bool)
  {
    !committing && logged + (outstanding + 1) * MAXOPBLOCKS <= LOGSIZE
  }

  predicate LogWritePanics(l: Layout, logged: nat, outstanding: int)
  {
    logged >= LOGSIZE || logged >= l.size - 1 || outstanding < 1
  }

  /** The contents a buffer has after `bread`: the pinned copy, or what is on disk. */
  function Cached(dirty: map<nat, Block>, disk: Disk, b: nat): (r: Block)
    requires b < |disk|
  {
    if b in dirty then dirty[b] else disk[b]
  }

  /** The contents `commit` copies to the log, block by block. */
  function LoggedData(dirty: map<nat, Block>, disk: Disk, bs: seq<nat>): (s: seq<Block>)
    requires forall i :: 0 <= i < |bs| ==> bs[i] < |disk|
    ensures |s| == |bs|
    ensures forall i :: 0 <= i < |bs| ==> s[i] == Cached(dirty, disk, bs[i])
  {
    seq(|bs|, i requires 0 <= i < |bs| => Cached(dirty, disk, bs[i]))
  }

  class Log {
    const layout: Layout
    var disk: Disk
    var dirty: map<nat, Block>   // buffers pinned by log_write
    var block: seq<nat>          // lh.block[0..lh.n]
    var outstanding: int
    var committing: bool
    ghost var trace: seq<Write>  // every block write, in order

    ghost predicate Valid()
      reads this
    {
      && LogEmpty(layout, disk)
      && |block| <= LOGSIZE && |block| < layout.size
      && (forall i :: 0 <= i < |block| ==> IsHome(layout, disk, block[i]))
      && (forall i, j :: 0 <= i < j < |block| ==> block[i] != block[j])
      && (forall b :: b in dirty <==> b in block)
    }

    constructor (l: Layout, d: Disk)
      requires LogEmpty(l, d)
      ensures Valid() && layout == l && disk == d && block == [] && dirty == map[] && trace == []
      ensures outstanding == 0 && !committing
    {
      layout, disk, dirty, block := l, d, map[], [];
      outstanding, committing, trace := 0, false, [];
    }

    /** After a reboot: whatever is on the disk, and an empty cache. */
    constructor Boot(l: Layout, d: Disk)
      ensures layout == l && disk == d && dirty == map[] && outstanding == 0 && !committing && trace == []
    {
      layout, disk, dirty, block := l, d, map[], [];
      outstanding, committing, trace := 0, false, [];
    }

    method Bwrite(b: nat, data: Block)
      requires b < |disk|
      modifies this`disk, this`dirty, this`trace
      ensures disk == old(disk)[b := data] && dirty == old(dirty) - {b}
      ensures trace == old(trace) + [Write(b, data)]
    {
      disk := disk[b := data];
      dirty := dirty - {b};
      trace := trace + [Write(b, data)];
    }

    method WriteLog()
      requires layout.start + |block| < layout.start + layout.size <= |disk|
      requires forall i :: 0 <= i < |block| ==> block[i] < |disk| && block[i] in dirty
      requires forall b :: b in dirty ==> !InLog(layout, b)
      modifies this`disk, this`dirty, this`trace
      ensures disk == Apply(old(disk), LogWrites(layout, LoggedData(old(dirty), old(disk), block)))
      ensures trace == old(trace) + LogWrites(layout, LoggedData(old(dirty), old(disk), block))
      ensures dirty == old(dirty)
    {
      hide Apply;
      ghost var ws := LogWrites(layout, LoggedData(dirty, disk, block));
      ApplyNothing(disk);
      var tail := 0;
      while tail < |block|
        invariant 0 <= tail <= |block|
        invariant disk == Apply(old(disk), ws[..tail])
        invariant trace == old(trace) + ws[..tail]
        invariant dirty == old(dirty)
      {
        ApplyPrefix(old(disk), ws, tail);
        var from := Cached(dirty, disk, block[tail]);
        Bwrite(layout.start + tail + 1, from);
        tail := tail + 1;
      }
      assert ws[..tail] == ws;
    }

    method InstallTrans()
      requires 1 <= layout.size && layout.start + layout.size <= |disk| && |block| < layout.size
      requires forall i :: 0 <= i < |block| ==> IsHome(layout, disk, block[i])
      requires forall b :: b in dirty ==> !InLog(layout, b)
      modifies this`disk, this`dirty, this`trace
      ensures disk == Apply(old(disk), InstallWrites(layout, old(disk), block))
      ensures trace == old(trace) + InstallWrites(layout, old(disk), block)
      ensures forall b :: b in dirty ==> b in old(dirty)
      ensures forall i :: 0 <= i < |block| ==> block[i] !in dirty
    {
      hide Apply;
      ghost var ws := InstallWrites(layout, disk, block);
      ApplyNothing(disk);
      var tail := 0;
      while tail < |block|
        invariant 0 <= tail <= |block|
        invariant disk == Apply(old(disk), ws[..tail])
        invariant trace == old(trace) + ws[..tail]
        invariant forall b :: b in dirty ==> b in old(dirty)
        invariant forall i :: 0 <= i < tail ==> block[i] !in dirty
      {
        var lbuf := Cached(dirty, disk, layout.start + tail + 1);
        ApplyUntouched(old(disk), ws[..tail], layout.start + tail + 1);
        ApplyPrefix(old(disk), ws, tail);
        Bwrite(block[tail], lbuf);
        tail := tail + 1;
      }
      assert ws[..tail] == ws;
    }

    method WriteHead()
      requires layout.start < |disk| && layout.start !in dirty
      requires |block| <= LOGSIZE && forall i :: 0 <= i < |block| ==> block[i] < 0x1_0000_0000
      modifies this`disk, this`dirty, this`trace
      ensures disk == old(disk)[layout.start := PutHeader(old(disk)[layout.start], block)]
      ensures trace == old(trace) + [Write(layout.start, PutHeader(old(disk)[layout.start], block))]
      ensures dirty == old(dirty)
    {
      hide SetWord;
      var buf := Cached(dirty, disk, layout.start);
      ghost var h := buf;
      buf := SetWord(buf, 0, |block|);
      var i := 0;
      while i < |block|
        invariant 0 <= i <= |block|
        invariant PutEntries(buf, block, i) == PutHeader(h, block)
      {
        buf := SetWord(buf, 1 + i, block[i]);
        i := i + 1;
      }
      Bwrite(layout.start, buf);
    }

    method ReadHead()
      requires layout.start < |disk| && layout.start !in dirty
      requires HeaderCount(disk[layout.start]) <= LOGSIZE
      modifies this`block
      ensures block == HeaderBlocks(disk[layout.start])
    {
      var buf := Cached(dirty, disk, layout.start);
      var n: nat := GetWord(buf, 0);
      block := [];
      var i := 0;
      while i < n
        invariant 0 <= i <= n && n == HeaderCount(disk[layout.start])
        invariant block == HeaderBlocks(disk[layout.start])[..i]
      {
        block := block + [GetWord(buf, 1 + i)];
        i := i + 1;
      }
    }

    /** Boot: the writes are those of `RecoveryWrites`, so a crash here is a cut recovery. */
    method RecoverFromLog()
      requires WellFormed(layout, disk) && dirty == map[]
      modifies this`disk, this`dirty, this`trace, this`block
      ensures disk == Recover(layout, old(disk))
      ensures trace == old(trace) + RecoveryWrites(layout, old(disk))
      ensures Valid() && block == []
    {
      hide GetWord, SetWord, PutHeader;
      ghost var d := disk;
      RecoverClearsLog(layout, disk);
      ReadHead();
      ghost var ws := InstallWrites(layout, disk, block);
      InstallKeepsLog(layout, d, ws);
      InstallTrans();
      assert InLog(layout, layout.start);
      block := [];
      WriteHead();
      ApplySnoc(d, ws, Write(layout.start, PutHeader(d[layout.start], [])));
    }

    /** A commit makes exactly the writes of `CommitWrites`, so `CommitIsAtomic` covers a crash
        after any of them; it leaves the log empty and nothing pinned. */
    method Commit()
      requires Valid()
      modifies this`disk, this`dirty, this`trace, this`block
      ensures ValidTransaction(layout, old(disk), old(block), LoggedData(old(dirty), old(disk), old(block)))
      ensures trace == old(trace) + CommitWrites(layout, old(disk), old(block), LoggedData(old(dirty), old(disk), old(block)))
      ensures disk == Apply(old(disk), CommitWrites(layout, old(disk), old(block), LoggedData(old(dirty), old(disk), old(block))))
      ensures Valid() && block == [] && |disk| == |old(disk)|
    {
      hide GetWord, SetWord, PutHeader, HeaderCount, Apply, LogWrites, HomeWrites, InstallWrites, SameHome;
      ghost var d, bs, data := disk, block, LoggedData(dirty, disk, block);
      CommitCompletes(layout, d, bs, data);
      if |block| > 0 {
        CommitStages(layout, d, bs, data);
        WriteLog();
        WriteHead();
        InstallTrans();
        block := [];
        WriteHead();
      } else {
        ApplyNothing(d);
      }
    }

    /** One trip of the wait loop of `begin_op`: admitted, or back to sleep unchanged. */
    method BeginOp() returns (admitted: bool)
      modifies this`outstanding
      ensures admitted == MayBegin(|block|, old(outstanding), committing)
      ensures outstanding == old(outstanding) + if admitted then 1 else 0
    {
      if committing {
        admitted := false;
      } else if |block| + (outstanding + 1) * MAXOPBLOCKS > LOGSIZE {
        admitted := false;
      } else {
        outstanding := outstanding + 1;
        admitted := true;
      }
    }

    /** `end_op`. The last outstanding operation commits the group, everyone else leaves the disk
        alone; afterwards no commit is under way, so operations may begin again. */
    method EndOp() returns (panicked: bool)
      requires Valid()
      modifies this`disk, this`dirty, this`trace, this`block, this`outstanding, this`committing
      ensures Valid() && |disk| == |old(disk)|
      ensures panicked == old(committing) && outstanding == old(outstanding) - 1
      ensures !panicked ==> !committing
      ensures panicked || outstanding != 0 ==>
                disk == old(disk) && dirty == old(dirty) && block == old(block) && trace == old(trace)
      ensures !panicked && outstanding == 0 ==>
                var ws := CommitWrites(layout, old(disk), old(block), LoggedData(old(dirty), old(disk), old(block)));
                disk == Apply(old(disk), ws) && trace == old(trace) + ws && block == [] && dirty == map[]
    {
      outstanding := outstanding - 1;
      panicked := committing;
      if !panicked && outstanding == 0 {
        committing := true;
        Commit();
        committing := false;
      }
    }

    /** A caller has put `data` into the buffer of block `b` and logs it. */
    method LogWrite(b: nat, data: Block) returns (panicked: bool)
      requires Valid() && IsHome(layout, disk, b)
      modifies this`block, this`dirty
      ensures Valid()
      ensures panicked == LogWritePanics(layout, |old(block)|, outstanding)
      ensures panicked ==> block == old(block) && dirty == old(dirty)
      ensures !panicked ==> block == Absorb(old(block), b) && dirty == old(dirty)[b := data]
      ensures !panicked ==> Cached(dirty, disk, b) == data
      ensures forall c :: 0 <= c < |disk| && c != b ==> Cached(dirty, disk, c) == Cached(old(dirty), disk, c)
    {
      hide LogEmpty;
      panicked := |block| >= LOGSIZE || |block| >= layout.size - 1 || outstanding < 1;
      if !panicked {
        var i := 0;
        while i < |block| && block[i] != b
          invariant 0 <= i <= |block|
          invariant forall k :: 0 <= k < i ==> block[k] != b
        {
          i := i + 1;
        }
        if i == |block| {
          block := block + [b];
        } else {
          block := block[i := b];
          assert block == old(block);
        }
        dirty := dirty[b := data];
        assert block == Absorb(old(block), b);
        AbsorbMembers(old(block), b);
      }
    }
  }

  /** The disk after each of the four stages of a commit. */
  lemma CommitStages(l: Layout, d: Disk, bs: seq<nat>, data: seq<Block>)
    requires LogEmpty(l, d) && ValidTransaction(l, d, bs, data) && bs != []
    ensures var h := PutHeader(d[l.start], bs);
            var logged := Apply(d, LogWrites(l, data));
            var committed := logged[l.start := h];
            var installed := Apply(committed, InstallWrites(l, committed, bs));
            && logged[l.start] == d[l.start]
            && InstallWrites(l, committed, bs) == HomeWrites(bs, data)
            && installed[l.start] == h
            && installed[l.start := PutHeader(h, [])] == Apply(d, CommitWrites(l, d, bs, data))
  {
    hide GetWord, SetWord, PutHeader, HeaderCount, Apply;
    var us, hs := LogWrites(l, data), HomeWrites(bs, data);
    var w := Write(l.start, PutHeader(d[l.start], bs));
    ApplyUntouched(d, us, l.start);
    ApplySnoc(d, us, w);
    LoggedContents(l, d, bs, data);
    ApplyConcat(d, us + [w], hs);
    ApplyUntouched(Apply(d, us + [w]), hs, l.start);
    ApplySnoc(d, us + [w] + hs, Write(l.start, PutHeader(w.data, [])));
  }

  lemma AbsorbMembers(bs: seq<nat>, b: nat)
    ensures forall c :: c in Absorb(bs, b) <==> c == b || c in bs
  {
  }
}

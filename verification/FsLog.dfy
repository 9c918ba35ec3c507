/** The file system on top of the log: any number of file writes in transactions, group commits
    and crashes, and what the files hold after recovery. */
module FsLog {
  import opened Blocks
  import opened LogRecovery
  import opened FsLayout
  import opened FsBlocks
  import opened FsFiles
  import opened FsTrunc
  import FileWrite
  import LogRuns
  import Sums

  // ---------------------------------------------------------------- an image and its files

  /** `ilock` of an inode nobody holds: the in-memory inode read from the disk. */
  function Lock(sb: Super, d: Disk, i: nat): (s: State)
    requires Image(sb, d) && i < sb.ninodes
    ensures Typed(sb, s) && s.disk == d && s.inum == i
  {
    State(d, i, [InodeWord(sb, d, i, 0), InodeWord(sb, d, i, 1)], InodeWord(sb, d, i, 2),
          seq(NDIRECT + 1, k requires 0 <= k <= NDIRECT => InodeWord(sb, d, i, 3 + k)), 0, {})
  }

  ghost predicate SoundWith(sb: Super, d: Disk, owner: map<nat, Owner>)
    requires Image(sb, d)
  {
    forall i :: 0 <= i < sb.ninodes ==> FsInv(sb, Lock(sb, d, i), owner)
  }

  /** Between transactions: whichever inode is locked, the file system invariant holds. */
  ghost predicate Sound(sb: Super, d: Disk)
  {
    Image(sb, d) && exists owner :: SoundWith(sb, d, owner)
  }

  type Files = seq<seq<byte>>

  function FileOf(sb: Super, d: Disk, i: nat): (c: seq<byte>)
  {
    if Image(sb, d) && i < sb.ninodes && Lock(sb, d, i).size <= MAXBYTES then Contents(sb, Lock(sb, d, i), i) else []
  }

  /** The contents of every file. */
  function FilesOf(sb: Super, d: Disk): (fs: Files)
    ensures |fs| == sb.ninodes
  {
    seq(sb.ninodes, i requires 0 <= i < sb.ninodes => FileOf(sb, d, i))
  }

  /** The log lies before the inodes. */
  predicate Placed(l: Layout, sb: Super)
  {
    ValidSuper(sb) && l.start + l.size <= sb.inodestart
  }

  // ---------------------------------------------------------------- switching inodes and disks

  ghost predicate SameFrom(sb: Super, d: Disk, e: Disk)
  {
    |d| == |e| && forall b :: sb.inodestart <= b < |d| ==> d[b] == e[b]
  }

  /** What is read through the inode in memory is what is on disk. */
  lemma SyncedAddr(sb: Super, s: State, j: nat, k: nat)
    requires Synced(sb, s) && j < sb.ninodes && k <= NDIRECT
    ensures Addr(sb, s, j, k) == InodeWord(sb, s.disk, j, 3 + k) && SizeOf(sb, s, j) == InodeWord(sb, s.disk, j, 2)
  {
    assert InodeWords(s)[3 + k] == s.addrs[k] && InodeWords(s)[2] == s.size;
  }

  lemma LockSynced(sb: Super, d: Disk, i: nat)
    requires Image(sb, d) && i < sb.ninodes
    ensures Synced(sb, Lock(sb, d, i))
  {
    hide InodeWord;
    var s := Lock(sb, d, i);
    forall w | 0 <= w < DINODEWORDS
      ensures InodeWord(sb, d, i, w) == InodeWords(s)[w]
    {
      if w >= 3 { assert InodeWords(s)[w] == s.addrs[w - 3]; }
    }
  }

  lemma SameWords(sb: Super, d: Disk, e: Disk, j: nat, w: nat)
    requires Image(sb, d) && SameFrom(sb, d, e) && j < sb.ninodes && w < DINODEWORDS
    ensures InodeWord(sb, e, j, w) == InodeWord(sb, d, j, w)
  {
    assert InodeBlock(sb, j) < sb.bmapstart;
  }

  lemma SameUsed(sb: Super, d: Disk, e: Disk, b: nat)
    requires Image(sb, d) && SameFrom(sb, d, e) && b < sb.size
    ensures Used(sb, e, b) == Used(sb, d, b)
  {
    assert BitmapBlock(sb, b) < sb.nmeta;
  }

  lemma SameSlot(sb: Super, s: State, owner: map<nat, Owner>, t: State, j: nat, k: nat)
    requires FsInv(sb, s, owner) && Synced(sb, t) && t.released == 0 && SameFrom(sb, s.disk, t.disk)
    requires j < sb.ninodes && k <= MAXFILE
    ensures Slot(sb, t, j, k) == Slot(sb, s, j, k) && SizeOf(sb, t, j) == SizeOf(sb, s, j)
  {
    hide InodeWord, GetWord, AllDense, Used;
    SyncedAddr(sb, s, j, NDIRECT);
    SyncedAddr(sb, t, j, NDIRECT);
    SameWords(sb, s.disk, t.disk, j, 3 + NDIRECT);
    SameWords(sb, s.disk, t.disk, j, 2);
    if k < NDIRECT {
      SyncedAddr(sb, s, j, k);
      SyncedAddr(sb, t, j, k);
      SameWords(sb, s.disk, t.disk, j, 3 + k);
    }
    var p := Slot(sb, s, j, MAXFILE);
    assert p != 0 ==> p in owner && sb.nmeta <= p < sb.size;
  }

  lemma SameBlock(sb: Super, s: State, owner: map<nat, Owner>, t: State, j: nat, n: nat)
    requires FsInv(sb, s, owner) && Typed(sb, t) && SameFrom(sb, s.disk, t.disk) && j < sb.ninodes && n < MAXFILE
    requires Slot(sb, t, j, n) == Slot(sb, s, j, n)
    ensures FileBlock(sb, t, j, n) == FileBlock(sb, s, j, n)
  {
    hide Slot, Used, AllDense, Synced;
    var a := Slot(sb, s, j, n);
    assert a != 0 ==> a in owner && sb.nmeta <= a;
  }

  /** The invariant and the files survive letting go of one inode and locking another, on any disk
      that agrees from the inode blocks on. */
  lemma Transfer(sb: Super, s: State, owner: map<nat, Owner>, e: Disk, i: nat)
    requires FsInv(sb, s, owner) && SameFrom(sb, s.disk, e) && i < sb.ninodes
    ensures Image(sb, e) && FsInv(sb, Lock(sb, e, i), owner)
    ensures forall j :: 0 <= j < sb.ninodes ==> Contents(sb, Lock(sb, e, i), j) == Contents(sb, s, j)
  {
    var t := Lock(sb, e, i);
    LockSynced(sb, e, i);
    hide Synced, Lock, InodeWord;
    forall j, k | 0 <= j < sb.ninodes && 0 <= k <= MAXFILE
      ensures Slot(sb, t, j, k) == Slot(sb, s, j, k) && SizeOf(sb, t, j) == SizeOf(sb, s, j)
    {
      SameSlot(sb, s, owner, t, j, k);
    }
    forall j, n | 0 <= j < sb.ninodes && 0 <= n < MAXFILE
      ensures FileBlock(sb, t, j, n) == FileBlock(sb, s, j, n)
    {
      SameBlock(sb, s, owner, t, j, n);
    }
    forall b | 0 <= b < sb.size
      ensures Used(sb, e, b) == Used(sb, s.disk, b)
    {
      SameUsed(sb, s.disk, e, b);
    }
    hide Slot, FileBlock, Used;
    SameOwners(sb, s, owner, t);
    SameDense(sb, s, t);
    forall j | 0 <= j < sb.ninodes
      ensures Contents(sb, t, j) == Contents(sb, s, j)
    {
      SameContents(sb, s, t, j);
    }
  }

  lemma SameOwners(sb: Super, s: State, owner: map<nat, Owner>, t: State)
    requires OwnedBy(sb, s, owner) && SameSlots(sb, s, t)
    requires forall b :: 0 <= b < sb.size ==> Used(sb, t.disk, b) == Used(sb, s.disk, b)
    ensures OwnedBy(sb, t, owner)
  {
    hide Slot, Used;
  }

  lemma SameDense(sb: Super, s: State, t: State)
    requires AllDense(sb, s) && SameSlots(sb, s, t)
    requires forall j :: 0 <= j < sb.ninodes ==> SizeOf(sb, t, j) == SizeOf(sb, s, j)
    ensures AllDense(sb, t)
  {
    hide Slot, SizeOf;
    forall j | 0 <= j < sb.ninodes
      ensures SizeOf(sb, t, j) <= MAXBYTES && Dense(sb, t, j, SizeOf(sb, t, j))
    {
      assert Dense(sb, s, j, SizeOf(sb, s, j));
    }
  }

  lemma SameContents(sb: Super, s: State, t: State, j: nat)
    requires SameFiles(sb, s, t) && j < sb.ninodes && SizeOf(sb, t, j) == SizeOf(sb, s, j) <= MAXBYTES
    ensures Contents(sb, t, j) == Contents(sb, s, j)
  {
    hide FileBlock, SizeOf;
    forall x | 0 <= x < SizeOf(sb, s, j)
      ensures ByteAt(sb, t, j, x) == ByteAt(sb, s, j, x)
    {
    }
  }

  lemma SoundElsewhere(sb: Super, s: State, owner: map<nat, Owner>, e: Disk)
    requires FsInv(sb, s, owner) && SameFrom(sb, s.disk, e)
    ensures Sound(sb, e)
    ensures forall j :: 0 <= j < sb.ninodes ==> FileOf(sb, e, j) == Contents(sb, s, j)
  {
    hide FsInv, Contents, Lock;
    FileWrite.SizeIsLength(sb, s, owner);
    forall i | 0 <= i < sb.ninodes
      ensures Image(sb, e) && FsInv(sb, Lock(sb, e, i), owner) && FileOf(sb, e, i) == Contents(sb, s, i)
    {
      Transfer(sb, s, owner, e, i);
      FileWrite.SizeIsLength(sb, Lock(sb, e, i), owner);
    }
    assert Image(sb, e) by { InvImage(sb, s, owner); }
    assert SoundWith(sb, e, owner);
  }

  lemma InvImage(sb: Super, s: State, owner: map<nat, Owner>)
    requires FsInv(sb, s, owner)
    ensures Image(sb, s.disk)
  {
  }

  /** The log region does not matter. */
  lemma SoundHome(l: Layout, sb: Super, d: Disk, e: Disk)
    requires Placed(l, sb) && Sound(sb, d) && SameHome(l, d, e)
    ensures Sound(sb, e) && FilesOf(sb, e) == FilesOf(sb, d)
  {
    hide FsInv, Contents, FileOf, Lock;
    var owner :| SoundWith(sb, d, owner);
    if sb.ninodes == 0 {
      assert SoundWith(sb, e, owner);
    } else {
      var s := Lock(sb, d, 0);
      SoundElsewhere(sb, s, owner, d);
      SoundElsewhere(sb, s, owner, e);
    }
  }

  // ---------------------------------------------------------------- transactions

  /** What a transaction does to a file: write bytes at an offset, or truncate it. */
  datatype Call = Put(inum: nat, off: word, src: seq<byte>) | Cut(inum: nat)

  /** The call goes through: it is not refused, and the disk has room for it. */
  predicate Succeeds(sb: Super, d: Disk, call: Call)
  {
    && Image(sb, d) && call.inum < sb.ninodes
    && match call
       case Put(i, off, src) => |src| < 0x1_0000_0000 && Writei(sb, Lock(sb, d, i), off, src).Wrote?
       case Cut(i) => Itrunc(sb, Lock(sb, d, i)).Ok?
  }

  function After(sb: Super, d: Disk, call: Call): (e: Disk)
    requires Succeeds(sb, d, call)
  {
    match call
    case Put(i, off, src) => Writei(sb, Lock(sb, d, i), off, src).state.disk
    case Cut(i) => Itrunc(sb, Lock(sb, d, i)).state.disk
  }

  /** The same on the byte sequences. */
  function Do(fs: Files, call: Call): (r: Files)
    ensures |r| == |fs|
  {
    if call.inum >= |fs| then fs
    else match call
         case Put(i, off, src) => if off <= |fs[i]| then fs[i := Overwrite(fs[i], off, src)] else fs
         case Cut(i) => fs[i := []]
  }

  function Replay(fs: Files, calls: seq<Call>): (r: Files)
    ensures |r| == |fs|
  {
    if calls == [] then fs else Do(Replay(fs, calls[..|calls| - 1]), calls[|calls| - 1])
  }

  lemma ReplaySnoc(fs: Files, calls: seq<Call>, call: Call)
    ensures Replay(fs, calls + [call]) == Do(Replay(fs, calls), call)
  {
    assert (calls + [call])[..|calls|] == calls;
  }

  lemma ContentsEmpty(sb: Super, s: State, i: nat)
    requires Typed(sb, s) && i < sb.ninodes && SizeOf(sb, s, i) == 0
    ensures Contents(sb, s, i) == []
  {
  }

  /** A transaction on a sound image leaves a sound one, with the files changed as the call says. */
  lemma CallKeepsSound(sb: Super, d: Disk, call: Call)
    requires Sound(sb, d) && Succeeds(sb, d, call)
    ensures Sound(sb, After(sb, d, call))
    ensures FilesOf(sb, After(sb, d, call)) == Do(FilesOf(sb, d), call)
  {
    hide FsInv, Contents, FileOf, Writei, Itrunc, Overwrite, Lock;
    var owner :| SoundWith(sb, d, owner);
    var i, e := call.inum, After(sb, d, call);
    var s := Lock(sb, d, i);
    SoundElsewhere(sb, s, owner, d);
    FileWrite.SizeIsLength(sb, s, owner);
    match call
    case Put(_, off, src) =>
      var t := Writei(sb, s, off, src).state;
      WroteInRange(sb, s, off, src);
      var owner' := WriteiRefinesBytes(sb, s, owner, off, src);
      SoundElsewhere(sb, t, owner', e);
    case Cut(_) =>
      var owner' := ItruncFreesOwnBlocks(sb, s, owner);
      var t := Itrunc(sb, s).state;
      SoundElsewhere(sb, t, owner', e);
      ContentsEmpty(sb, t, i);
  }

  lemma WroteInRange(sb: Super, s: State, off: word, src: seq<byte>)
    requires Typed(sb, s) && |src| < 0x1_0000_0000 && Writei(sb, s, off, src).Wrote?
    ensures !IsDevice(s) && off <= s.size
  {
  }

  // ---------------------------------------------------------------- the machine

  /** The transaction being logged: the operation it belongs to, its writes still to be logged and
      the disk it will leave. */
  datatype Job = Free | Busy(op: nat, call: Call, todo: seq<Write>, goal: Disk)

  datatype Machine = Machine(
    log: LogRuns.State,
    job: Job,
    calls: seq<Call>,      // history: the completed transactions that can still survive,
    hist: seq<Disk>,       // the image before and after each of them,
    stable: nat)           // and how many of them are committed

  datatype Event =
    | Start(op: nat, call: Call, writes: seq<Write>)
    | LogNext(op: nat)
    | Finish
    | Sys(event: LogRuns.Event)

  /** Logging `ws`, block by block, has the effect of going from `d` to `e`. */
  ghost predicate HasEffect(l: Layout, d: Disk, ws: seq<Write>, e: Disk)
  {
    Apply(d, ws) == e && forall i :: 0 <= i < |ws| ==> IsHome(l, d, ws[i].block)
  }

  /** How many of the transactions a crash now would leave. */
  function Survivors(m: Machine): (k: nat)
  {
    if LogRuns.HeaderOut(m.log) then |m.calls| else m.stable
  }

  ghost predicate Next(c: LogRuns.Config, sb: Super, m: Machine, e: Event, t: Machine)
  {
    match e
    case Start(i, call, ws) =>
      && !m.log.panicked && m.job.Free? && i < |m.log.ops| && Succeeds(sb, m.log.mem, call)
      && HasEffect(c.layout, m.log.mem, ws, After(sb, m.log.mem, call))
      && t == m.(job := Busy(m.log.ops[i].id, call, ws, After(sb, m.log.mem, call)))
    case LogNext(i) =>
      && m.job.Busy? && m.job.todo != [] && i < |m.log.ops| && m.log.ops[i].id == m.job.op
      && LogRuns.Next(c, m.log, LogRuns.LogWrite(i, m.job.todo[0].block, m.job.todo[0].data), t.log)
      && t == m.(log := t.log, job := if t.log.panicked then m.job else m.job.(todo := m.job.todo[1..]))
    case Finish =>
      && m.job.Busy? && m.job.todo == []
      && t == m.(job := Free, calls := m.calls + [m.job.call], hist := m.hist + [m.job.goal])
    case Sys(e) =>
      && LogRuns.Next(c, m.log, e, t.log)
      && match e
         case LogWrite(_, _, _) => false
         case End(i) => (m.job.Busy? ==> m.log.ops[i].id != m.job.op) && t == m.(log := t.log)
         case CommitDone => t == m.(log := t.log, stable := |m.calls|)
         case Crash(_) =>
           && Survivors(m) <= |m.calls| < |m.hist|
           && t == Machine(t.log, Free, m.calls[..Survivors(m)], m.hist[..Survivors(m) + 1], Survivors(m))
         case _ => t == m.(log := t.log)
  }

  ghost predicate Init(c: LogRuns.Config, sb: Super, m: Machine)
  {
    && Placed(c.layout, sb) && LogRuns.Init(c, m.log) && Sound(sb, m.log.disk)
    && m == Machine(m.log, Free, [], [m.log.disk], 0)
  }

  ghost predicate IsRun(c: LogRuns.Config, sb: Super, run: seq<Machine>, events: seq<Event>)
  {
    && |run| == |events| + 1 && Init(c, sb, run[0])
    && forall i :: 0 <= i < |events| ==> Next(c, sb, run[i], events[i], run[i + 1])
  }

  ghost predicate Reachable(c: LogRuns.Config, sb: Super, m: Machine)
  {
    exists run, events :: IsRun(c, sb, run, events) && run[|run| - 1] == m
  }

  // ---------------------------------------------------------------- what every step keeps

  /** Every image of the history is sound and holds what the calls before it leave. */
  ghost predicate History(sb: Super, m: Machine)
  {
    && |m.hist| == |m.calls| + 1 && m.stable <= |m.calls| && m.hist[0] == m.log.base
    && (forall k :: 0 <= k < |m.hist| ==> Sound(sb, m.hist[k]))
    && (forall k :: 0 <= k < |m.hist| ==> FilesOf(sb, m.hist[k]) == Replay(FilesOf(sb, m.hist[0]), m.calls[..k]))
  }

  /** The committed groups are the stable transactions, and memory holds all of them and, if one is
      being logged, the part of it done so far. */
  ghost predicate Tied(c: LogRuns.Config, sb: Super, m: Machine)
    requires |m.hist| == |m.calls| + 1 && m.stable <= |m.calls|
  {
    && SameHome(c.layout, LogRuns.Effect(m.log.base, m.log.groups), m.hist[m.stable])
    && match m.job
       case Free => SameHome(c.layout, m.log.mem, m.hist[|m.calls|])
       case Busy(op, call, todo, goal) =>
         && (exists i :: 0 <= i < |m.log.ops| && m.log.ops[i].id == op)
         && (forall i :: 0 <= i < |todo| ==> IsHome(c.layout, m.log.mem, todo[i].block))
         && SameHome(c.layout, Apply(m.log.mem, todo), goal)
         && Sound(sb, goal) && FilesOf(sb, goal) == Do(FilesOf(sb, m.hist[|m.calls|]), call)
  }

  ghost predicate Inv(c: LogRuns.Config, sb: Super, m: Machine)
  {
    Placed(c.layout, sb) && LogRuns.Inv(c, m.log) && History(sb, m) && Tied(c, sb, m)
  }

  lemma InitInv(c: LogRuns.Config, sb: Super, m: Machine)
    requires Init(c, sb, m)
    ensures Inv(c, sb, m)
  {
    LogRuns.InitInv(c, m.log);
    hide Sound, FilesOf, LogRuns.Inv, LogEmpty;
    assert m.calls[..0] == [];
  }

  lemma StartKeeps(c: LogRuns.Config, sb: Super, m: Machine, i: nat, call: Call, ws: seq<Write>, t: Machine)
    requires Inv(c, sb, m) && Next(c, sb, m, Start(i, call, ws), t)
    ensures Inv(c, sb, t)
  {
    hide LogRuns.Inv, Sound, FilesOf, Do, Apply, Succeeds, After, LogRuns.Effect, Replay;
    SoundHome(c.layout, sb, m.hist[|m.calls|], m.log.mem);
    CallKeepsSound(sb, m.log.mem, call);
  }

  lemma LogNextKeeps(c: LogRuns.Config, sb: Super, m: Machine, i: nat, t: Machine)
    requires Inv(c, sb, m) && Next(c, sb, m, LogNext(i), t)
    ensures Inv(c, sb, t)
  {
    hide LogRuns.Inv, Sound, FilesOf, Do, Apply, LogRuns.Effect, Replay;
    var w, rest := m.job.todo[0], m.job.todo[1..];
    LogRuns.NextKeeps(c, m.log, LogRuns.LogWrite(i, w.block, w.data), t.log);
    if !t.log.panicked {
      assert m.job.todo == [w] + rest;
      ApplyConcat(m.log.mem, [w], rest);
      ApplySnoc(m.log.mem, [], w);
      ApplyNothing(m.log.mem);
      assert [] + [w] == [w];
      assert t.log.ops[i].id == m.job.op;
    }
  }

  lemma FinishKeeps(c: LogRuns.Config, sb: Super, m: Machine, t: Machine)
    requires Inv(c, sb, m) && Next(c, sb, m, Finish, t)
    ensures Inv(c, sb, t)
  {
    hide LogRuns.Inv, Sound, FilesOf, Do, Apply, LogRuns.Effect, Replay;
    ApplyNothing(m.log.mem);
    ReplaySnoc(FilesOf(sb, m.hist[0]), m.calls, m.job.call);
    assert m.calls[..|m.calls|] == m.calls && t.calls[..|t.calls|] == t.calls;
    forall k | 0 <= k < |t.hist|
      ensures FilesOf(sb, t.hist[k]) == Replay(FilesOf(sb, t.hist[0]), t.calls[..k])
    {
      if k < |m.hist| { assert t.calls[..k] == m.calls[..k]; }
    }
  }

  /** A crash leaves one of the images of the history, and so whole transactions. */
  lemma RecoveredIsHistory(c: LogRuns.Config, sb: Super, m: Machine, cuts: seq<nat>)
    requires Inv(c, sb, m)
    ensures WellFormed(c.layout, m.log.disk) && m.stable <= Survivors(m) <= |m.calls|
    ensures SameHome(c.layout, Recover(c.layout, CutRecoveries(c.layout, m.log.disk, cuts)), m.hist[Survivors(m)])
    ensures LogRuns.HeaderOut(m.log) ==>
              SameHome(c.layout, LogRuns.Effect(m.log.base, m.log.groups + [m.log.open]), m.hist[Survivors(m)])
  {
    LogRuns.CrashRecoversGroups(c, m.log, cuts);
    if LogRuns.HeaderOut(m.log) {
      GroupIsHistory(c, sb, m);
    }
  }

  /** While a commit runs, its group is everything since the last one. */
  lemma GroupIsHistory(c: LogRuns.Config, sb: Super, m: Machine)
    requires Inv(c, sb, m) && m.log.phase.Committing?
    ensures m.job.Free?
    ensures SameHome(c.layout, LogRuns.Effect(m.log.base, m.log.groups + [m.log.open]), m.hist[|m.calls|])
  {
    hide Apply, LogRuns.Effect, Sound, FilesOf, Replay;
    LogRuns.EffectSnoc(m.log.base, m.log.groups, m.log.open);
  }

  lemma SysKeeps(c: LogRuns.Config, sb: Super, m: Machine, e: LogRuns.Event, t: Machine)
    requires Inv(c, sb, m) && Next(c, sb, m, Sys(e), t) && !e.Crash?
    ensures Inv(c, sb, t)
  {
    hide LogRuns.Inv, Sound, FilesOf, Do, Apply, LogRuns.Effect, Replay, ValidTransaction, LogEmpty, CommitWrites, Placed;
    LogRuns.NextKeeps(c, m.log, e, t.log);
    if e.CommitDone? { GroupIsHistory(c, sb, m); }
    if m.job.Busy? && !e.CommitDone? {
      var k :| 0 <= k < |m.log.ops| && m.log.ops[k].id == m.job.op;
      if e.Begin? {
        assert t.log.ops[k].id == m.job.op;
      } else if e.End? {
        var j := if t.log.panicked || k < e.op then k else k - 1;
        assert t.log.ops[j].id == m.job.op;
      }
    }
  }

  lemma CrashKeeps(c: LogRuns.Config, sb: Super, m: Machine, cuts: seq<nat>, t: Machine)
    requires Inv(c, sb, m) && Next(c, sb, m, Sys(LogRuns.Crash(cuts)), t)
    ensures Inv(c, sb, t)
  {
    hide LogRuns.Inv, Sound, FilesOf, Do, Apply, LogRuns.Effect, Replay, Recover, CutRecoveries, WellFormed, Placed;
    LogRuns.NextKeeps(c, m.log, LogRuns.Crash(cuts), t.log);
    RecoveredIsHistory(c, sb, m, cuts);
    forall k | 0 <= k < |t.hist|
      ensures t.calls[..k] == m.calls[..k]
    {
    }
  }

  lemma NextKeeps(c: LogRuns.Config, sb: Super, m: Machine, e: Event, t: Machine)
    requires Inv(c, sb, m) && Next(c, sb, m, e, t)
    ensures Inv(c, sb, t)
  {
    hide *;
    match e
    case Start(i, call, ws) => StartKeeps(c, sb, m, i, call, ws, t);
    case LogNext(i) => LogNextKeeps(c, sb, m, i, t);
    case Finish => FinishKeeps(c, sb, m, t);
    case Sys(e) =>
      if e.Crash? { CrashKeeps(c, sb, m, e.cuts, t); } else { SysKeeps(c, sb, m, e, t); }
  }

  lemma {:induction false} RunInv(c: LogRuns.Config, sb: Super, run: seq<Machine>, events: seq<Event>, k: nat)
    requires IsRun(c, sb, run, events) && k < |run|
    ensures Inv(c, sb, run[k])
  {
    hide Inv, Next, Init;
    if k == 0 {
      InitInv(c, sb, run[0]);
    } else {
      RunInv(c, sb, run, events, k - 1);
      NextKeeps(c, sb, run[k - 1], events[k - 1], run[k]);
    }
  }

  // ---------------------------------------------------------------- what a crash leaves

  /** Wherever a crash strikes, also during recovery, the recovered disk is a sound file system whose
      files hold exactly a prefix of the completed transactions, at least all the committed ones. */
  lemma CrashLeavesWholeWrites(c: LogRuns.Config, sb: Super, m: Machine, cuts: seq<nat>)
    requires Reachable(c, sb, m)
    ensures WellFormed(c.layout, m.log.disk) && m.stable <= Survivors(m) <= |m.calls|
    ensures var r := Recover(c.layout, CutRecoveries(c.layout, m.log.disk, cuts));
            && Sound(sb, r) && LogEmpty(c.layout, r)
            && FilesOf(sb, r) == Replay(FilesOf(sb, m.log.base), m.calls[..Survivors(m)])
  {
    hide Sound, Replay, FilesOf, Recover, CutRecoveries, WellFormed, LogEmpty, Tied, Next, Init, LogRuns.Inv;
    var run, events :| IsRun(c, sb, run, events) && run[|run| - 1] == m;
    RunInv(c, sb, run, events, |run| - 1);
    RecoveredIsHistory(c, sb, m, cuts);
    LogRuns.CrashRecoversGroups(c, m.log, cuts);
    SoundHome(c.layout, sb, m.hist[Survivors(m)], Recover(c.layout, CutRecoveries(c.layout, m.log.disk, cuts)));
  }

  /** Between transactions readers see every completed one. */
  lemma ReadersSeeAllWrites(c: LogRuns.Config, sb: Super, m: Machine)
    requires Reachable(c, sb, m) && m.job.Free?
    ensures Sound(sb, m.log.mem) && FilesOf(sb, m.log.mem) == Replay(FilesOf(sb, m.log.base), m.calls)
  {
    hide Sound, Replay, FilesOf, Next, Init, LogRuns.Inv, LogRuns.Effect;
    var run, events :| IsRun(c, sb, run, events) && run[|run| - 1] == m;
    RunInv(c, sb, run, events, |run| - 1);
    SoundHome(c.layout, sb, m.hist[|m.calls|], m.log.mem);
    assert m.calls[..|m.calls|] == m.calls;
  }

  /** Committed transactions stay, across any number of crashes. */
  lemma {:induction false} StableWritesStay(c: LogRuns.Config, sb: Super, run: seq<Machine>, events: seq<Event>, i: nat, j: nat)
    requires IsRun(c, sb, run, events) && i <= j < |run|
    ensures run[i].stable <= |run[i].calls| && run[j].stable <= |run[j].calls|
    ensures run[i].calls[..run[i].stable] <= run[j].calls[..run[j].stable] && run[i].log.base == run[j].log.base
    decreases j - i
  {
    hide Next, Init, LogRuns.Inv, Tied;
    RunInv(c, sb, run, events, j);
    if i < j {
      StableWritesStay(c, sb, run, events, i, j - 1);
      StableStep(c, sb, run[j - 1], events[j - 1], run[j]);
    }
  }

  lemma StableStep(c: LogRuns.Config, sb: Super, m: Machine, e: Event, t: Machine)
    requires m.stable <= |m.calls| && Next(c, sb, m, e, t)
    ensures t.stable <= |t.calls| && m.calls[..m.stable] <= t.calls[..t.stable] && t.log.base == m.log.base
  {
    hide Succeeds, After, HasEffect, LogRuns.ReadyToCommit;
  }

  lemma InitReachable(c: LogRuns.Config, s: LogRuns.State)
    requires LogRuns.Init(c, s)
    ensures LogRuns.Reachable(c, s)
  {
    assert LogRuns.IsRun(c, [s], []);
    assert [s][|[s]| - 1] == s;
  }

  /** Forgetting the transactions, the run is one of the log. */
  lemma {:induction false} LogReachable(c: LogRuns.Config, sb: Super, run: seq<Machine>, events: seq<Event>, k: nat)
    requires IsRun(c, sb, run, events) && k < |run|
    ensures LogRuns.Reachable(c, run[k].log)
  {
    hide LogRuns.Next, LogRuns.Init, LogRuns.Reachable, Succeeds, After;
    if k == 0 {
      InitReachable(c, run[0].log);
    } else {
      LogReachable(c, sb, run, events, k - 1);
      var m, e, t := run[k - 1], events[k - 1], run[k];
      assert Next(c, sb, m, e, t);
      match e
      case Start(_, _, _) =>
      case Finish =>
      case LogNext(i) =>
        LogRuns.ReachableStep(c, m.log, LogRuns.LogWrite(i, m.job.todo[0].block, m.job.todo[0].data), t.log);
      case Sys(e) => LogRuns.ReachableStep(c, m.log, e, t.log);
    }
  }

  // ---------------------------------------------------------------- the log has room

  /** What changed from `s` to `t` has been logged. */
  ghost predicate Traced(s: State, t: State)
  {
    && |t.disk| == |s.disk| && s.logged <= t.logged
    && forall b :: 0 <= b < |s.disk| && b !in t.logged ==> t.disk[b] == s.disk[b]
  }

  lemma BmapTraced(sb: Super, s: State, bn: nat)
    requires Typed(sb, s) && Bmap(sb, s, bn).Ok?
    ensures Traced(s, Bmap(sb, s, bn).state)
  {
    hide Used, MarkUsed, FirstFree, SetWord, GetWord;
  }

  lemma {:induction false} WriteLoopTraced(sb: Super, s: State, off: nat, src: seq<byte>)
    requires Typed(sb, s) && WriteLoop(sb, s, off, src).Ok?
    ensures Traced(s, WriteLoop(sb, s, off, src).state)
    decreases |src|
  {
    hide Bmap, Splice;
    if src != [] {
      var m := Chunk(off, |src|);
      BmapTraced(sb, s, off / BSIZE);
      WriteLoopTraced(sb, WriteChunk(sb, s, off, src[..m]).state, off + m, src[m..]);
    }
  }

  /** A write changes only blocks it logs, and nothing before the inode blocks. */
  lemma WriteiTraced(sb: Super, s: State, owner: map<nat, Owner>, off: word, src: seq<byte>)
    requires FsInv(sb, s, owner) && |src| < 0x1_0000_0000 && Writei(sb, s, off, src).Wrote?
    ensures Traced(s, Writei(sb, s, off, src).state)
    ensures forall b :: 0 <= b < sb.inodestart ==> Writei(sb, s, off, src).state.disk[b] == s.disk[b]
  {
    hide Slot, Used, FileBlock, InodeWord, Dense, WriteLoop, PutInode, BytesWritten, SameOtherFiles, OwnedBy, Synced;
    assert SizeOf(sb, s, s.inum) == s.size;
    WriteLoopTraced(sb, s, off, src);
    var owner' := WriteLoopKeeps(sb, s, owner, off, src, s.size);
  }

  function Changed(d: Disk, e: Disk): (bs: set<nat>)
    requires |d| == |e|
  {
    set b: nat | b < |d| && d[b] != e[b]
  }

  /** One write for each changed block has the whole effect. */
  lemma {:induction false} WritesFor(d: Disk, e: Disk) returns (ws: seq<Write>)
    requires |d| == |e|
    ensures Apply(d, ws) == e && |ws| == |Changed(d, e)|
    ensures forall i :: 0 <= i < |ws| ==> ws[i].block in Changed(d, e)
    decreases Changed(d, e)
  {
    ws := [];
    if Changed(d, e) == {} {
      assert forall b :: 0 <= b < |d| ==> (d[b] != e[b] ==> b in Changed(d, e));
      assert d == e;
    } else {
      var b :| b in Changed(d, e);
      var f := d[b := e[b]];
      assert Changed(f, e) == Changed(d, e) - {b};
      ws := WritesFor(f, e);
      ApplySnoc(d, [], Write(b, e[b]));
      ApplyConcat(d, [Write(b, e[b])], ws);
      assert [] + [Write(b, e[b])] == [Write(b, e[b])];
      ws := [Write(b, e[b])] + ws;
    }
  }

  /** Every chunk of `filewrite` can be logged in at most seven blocks. */
  lemma ChunkCanBeLogged(l: Layout, sb: Super, d: Disk, call: Call) returns (ws: seq<Write>)
    requires Placed(l, sb) && sb.size <= BPB && Sound(sb, d)
    requires Succeeds(sb, d, call) && call.Put? && |call.src| <= FileWrite.MAXCHUNK
    ensures HasEffect(l, d, ws, After(sb, d, call)) && |ws| <= 7
  {
    hide FsInv, Writei, Lock, Apply;
    var owner :| SoundWith(sb, d, owner);
    var s := Lock(sb, d, call.inum);
    var t := Writei(sb, s, call.off, call.src).state;
    WriteiTraced(sb, s, owner, call.off, call.src);
    FileWrite.ChunkLogsAtMostSeven(sb, s, owner, call.off, call.src);
    ws := WritesFor(d, t.disk);
    FreshLock(sb, d, call.inum);
    Sums.SubsetSize(Changed(d, t.disk), t.logged - s.logged);
  }

  lemma FreshLock(sb: Super, d: Disk, i: nat)
    requires Image(sb, d) && i < sb.ninodes
    ensures Lock(sb, d, i).logged == {}
  {
  }

  /** With the 30-block log, transactions of at most nine blocks never run out of it. */
  lemma TransactionsFit(c: LogRuns.Config, sb: Super, m: Machine)
    requires Reachable(c, sb, m) && c.layout.size == 30 && c.budget <= 9
    ensures !m.log.panicked
  {
    hide LogRuns.Reachable, Next, Init;
    var run, events :| IsRun(c, sb, run, events) && run[|run| - 1] == m;
    LogReachable(c, sb, run, events, |run| - 1);
    LogRuns.NeverPanics(c, m.log);
  }
}

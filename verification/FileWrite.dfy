/** `filewrite`: a write cut into transactions small enough for the log. */
module FileWrite {
  import opened Blocks
  import opened FsLayout
  import opened FsBlocks
  import opened FsFiles
  import opened FsCode
  import opened LogCode
  import opened Sums

  const MAXCHUNK: nat := (MAXOPBLOCKS - 1 - 1 - 2) / 2 * 512

  // ---------------------------------------------------------------- what a write logs

  lemma BallocLogs(sb: Super, s: State)
    requires Typed(sb, s) && sb.size <= BPB && Balloc(sb, s).Ok?
    ensures Balloc(sb, s).state.logged == s.logged + {sb.bmapstart, Balloc(sb, s).block}
    ensures Balloc(sb, s).state.addrs == s.addrs
  {
    hide Used;
  }

  lemma DirectLogs(sb: Super, s: State, k: nat)
    requires Typed(sb, s) && sb.size <= BPB && k <= NDIRECT && Direct(sb, s, k).Ok?
    ensures var r := Direct(sb, s, k);
            && r.state.logged <= s.logged + {sb.bmapstart, r.block} && r.state.addrs[k] == r.block
            && forall j :: 0 <= j <= NDIRECT && s.addrs[j] != 0 ==> r.state.addrs[j] == s.addrs[j]
  {
    hide Balloc;
    if s.addrs[k] == 0 {
      BallocLogs(sb, s);
    }
  }

  lemma IndirectLogs(sb: Super, s: State, p: nat, j: nat)
    requires Typed(sb, s) && sb.size <= BPB && p < sb.size && j < NINDIRECT && Indirect(sb, s, p, j).Ok?
    ensures var r := Indirect(sb, s, p, j);
            r.state.logged <= s.logged + {sb.bmapstart, r.block, p} && r.state.addrs == s.addrs
  {
    hide Balloc, Entry, SetWord;
    if Entry(s, p, j) == 0 {
      BallocLogs(sb, s);
    }
  }

  /** Mapping a block logs at most the bitmap, the block itself and the indirect block. */
  lemma BmapLogs(sb: Super, s: State, bn: nat)
    requires Typed(sb, s) && sb.size <= BPB && Bmap(sb, s, bn).Ok?
    ensures var r := Bmap(sb, s, bn);
            && r.state.logged <= s.logged + {sb.bmapstart, r.block, r.state.addrs[NDIRECT]}
            && (s.addrs[NDIRECT] != 0 ==> r.state.addrs[NDIRECT] == s.addrs[NDIRECT])
            && (bn < NDIRECT ==> r.state.logged <= s.logged + {sb.bmapstart, r.block})
            && (bn >= NDIRECT ==> r.state.addrs[NDIRECT] == Direct(sb, s, NDIRECT).block)
  {
    hide Direct, Indirect;
    if bn < NDIRECT {
      DirectLogs(sb, s, bn);
    } else {
      var p := Direct(sb, s, NDIRECT);
      DirectLogs(sb, s, NDIRECT);
      IndirectLogs(sb, p.state, p.block, bn - NDIRECT);
    }
  }

  /** How many blocks `n` bytes at `off` touch. */
  function Touched(off: nat, n: nat): (k: nat)
  {
    if n == 0 then 0 else (off + n - 1) / BSIZE - off / BSIZE + 1
  }

  lemma TouchedStep(off: nat, n: nat)
    requires n > 0
    ensures Touched(off, n) == 1 + Touched(off + Chunk(off, n), n - Chunk(off, n))
  {
  }

  lemma TouchedBound(off: nat, n: nat)
    requires n <= MAXCHUNK
    ensures Touched(off, n) <= 4
  {
  }

  lemma {:induction false} PointerStays(sb: Super, s: State, off: nat, src: seq<byte>)
    requires Typed(sb, s) && sb.size <= BPB && WriteLoop(sb, s, off, src).Ok? && s.addrs[NDIRECT] != 0
    ensures WriteLoop(sb, s, off, src).state.addrs[NDIRECT] == s.addrs[NDIRECT]
    decreases |src|
  {
    hide Bmap, Splice;
    if src != [] {
      var m := Chunk(off, |src|);
      BmapLogs(sb, s, off / BSIZE);
      PointerStays(sb, WriteChunk(sb, s, off, src[..m]).state, off + m, src[m..]);
    }
  }

  lemma DirectNonZero(sb: Super, s: State, owner: map<nat, Owner>)
    requires OwnedBy(sb, s, owner) && s.released == 0 && Direct(sb, s, NDIRECT).Ok?
    ensures Direct(sb, s, NDIRECT).block != 0
  {
    var o := DirectKeeps(sb, s, owner, NDIRECT);
  }

  /** The copy loop logs the blocks it touches, the bitmap block and the indirect block. */
  lemma {:induction false} WriteLoopLogs(sb: Super, s: State, owner: map<nat, Owner>, off: nat, src: seq<byte>)
    returns (data: set<nat>)
    requires OwnedBy(sb, s, owner) && s.released == 0 && sb.size <= BPB && off + |src| <= MAXBYTES
    requires WriteLoop(sb, s, off, src).Ok?
    ensures |data| <= Touched(off, |src|)
    ensures var t := WriteLoop(sb, s, off, src).state;
            t.logged <= s.logged + data + {sb.bmapstart, t.addrs[NDIRECT]}
    decreases |src|
  {
    hide Slot, Used, Bmap, Splice, Touched, FileBlock;
    data := {};
    if src != [] {
      var m, bn := Chunk(off, |src|), off / BSIZE;
      var a, c := Bmap(sb, s, bn), WriteChunk(sb, s, off, src[..m]);
      BmapLogs(sb, s, bn);
      var mid := WriteChunkKeeps(sb, s, owner, off, src[..m]);
      hide SameInodes, SameOtherFiles, BytesWritten, GrewAt;
      TouchedStep(off, |src|);
      data := WriteLoopLogs(sb, c.state, mid, off + m, src[m..]);
      if bn >= NDIRECT {
        BmapPointer(sb, s, owner, bn);
        PointerStays(sb, c.state, off + m, src[m..]);
      }
      hide OwnedBy;
      data := data + {a.block};
    }
  }

  lemma BmapPointer(sb: Super, s: State, owner: map<nat, Owner>, bn: nat)
    requires OwnedBy(sb, s, owner) && s.released == 0 && sb.size <= BPB && NDIRECT <= bn && Bmap(sb, s, bn).Ok?
    ensures Bmap(sb, s, bn).state.addrs[NDIRECT] != 0
  {
    BmapLogs(sb, s, bn);
    hide Direct, Indirect;
    DirectNonZero(sb, s, owner);
  }

  lemma SetSizes(a: set<nat>, b: set<nat>, n: nat)
    requires |a| <= n
    ensures |a + b| <= n + |b|
  {
    assert a + b == a + (b - a);
  }

  /** One chunk of `filewrite` logs at most seven distinct blocks: four data blocks, one bitmap
      block, the indirect block and the inode block, within the nine that never overflow the log. */
  lemma ChunkLogsAtMostSeven(sb: Super, s: State, owner: map<nat, Owner>, off: word, src: seq<byte>)
    requires FsInv(sb, s, owner) && sb.size <= BPB && |src| <= MAXCHUNK
    requires Writei(sb, s, off, src).Wrote?
    ensures |Writei(sb, s, off, src).state.logged - s.logged| <= 7
  {
    hide Slot, Used, FileBlock, InodeWord, WriteLoop, Touched;
    var w := WriteLoop(sb, s, off, src).state;
    var data := WriteLoopLogs(sb, s, owner, off, src);
    TouchedBound(off, |src|);
    var meta := {sb.bmapstart, w.addrs[NDIRECT], InodeBlock(sb, s.inum)};
    SetSizes(data, meta, 4);
    assert w.inum == s.inum by { WriteLoopIdentity(sb, s, off, src); }
    SubsetSize(Writei(sb, s, off, src).state.logged - s.logged, data + meta);
  }

  lemma BmapIdentity(sb: Super, s: State, bn: nat)
    requires Typed(sb, s) && Bmap(sb, s, bn).Ok?
    ensures var t := Bmap(sb, s, bn).state; t.inum == s.inum && t.head == s.head && t.size == s.size
  {
    hide Used, PutBlockBit, GetWord, SetWord, FirstFree, MarkUsed;
  }

  lemma {:induction false} WriteLoopIdentity(sb: Super, s: State, off: nat, src: seq<byte>)
    requires Typed(sb, s) && WriteLoop(sb, s, off, src).Ok?
    ensures var t := WriteLoop(sb, s, off, src).state; t.inum == s.inum && t.head == s.head && t.size == s.size
    decreases |src|
  {
    hide Splice, Bmap;
    if src != [] {
      var m := Chunk(off, |src|);
      BmapIdentity(sb, s, off / BSIZE);
      WriteLoopIdentity(sb, WriteChunk(sb, s, off, src[..m]).state, off + m, src[m..]);
    }
  }

  // ---------------------------------------------------------------- the chunks together

  /** The kernel halted, the inode is a device, or `done` bytes were written before the loop ended. */
  datatype Fw = FwPanic | FwDevice | Fw(state: State, off: word, done: nat)

  /** The bytes of earlier chunks added to those of the rest of the loop. */
  function Advance(i: nat, r: Fw): (t: Fw)
  {
    if r.Fw? then Fw(r.state, r.off, i + r.done) else r
  }

  function WriteChunks(sb: Super, s: State, off: word, src: seq<byte>): (r: Fw)
    requires Typed(sb, s) && |src| < 0x8000_0000
    decreases |src|
  {
    if src == [] then Fw(s, off, 0)
    else
      var n1 := Min(|src|, MAXCHUNK);
      match Writei(sb, s, off, src[..n1])
      case Halted => FwPanic
      case ToDevice => FwDevice
      case Refused => Fw(s, off, 0)
      case Wrote(t) => Advance(n1, WriteChunks(sb, t, off + n1, src[n1..]))
  }

  /** A write of up to 1536 bytes is one transaction, so no crash can split it. */
  lemma SmallWriteIsOneTransaction(sb: Super, s: State, off: word, src: seq<byte>)
    requires Typed(sb, s) && 0 < |src| <= 1536
    ensures WriteChunks(sb, s, off, src)
            == match Writei(sb, s, off, src)
               case Halted => FwPanic
               case ToDevice => FwDevice
               case Refused => Fw(s, off, 0)
               case Wrote(t) => Fw(t, off + |src|, |src|)
  {
    hide Writei;
    ChunksUnfold(sb, s, off, src);
    assert src[..|src|] == src && src[|src|..] == [];
  }

  lemma OverwriteTwice(c: seq<byte>, off: nat, a: seq<byte>, b: seq<byte>)
    requires off <= |c|
    ensures Overwrite(Overwrite(c, off, a), off + |a|, b) == Overwrite(c, off, a + b)
  {
  }

  lemma OverwriteNothing(c: seq<byte>, off: nat)
    requires off <= |c|
    ensures Overwrite(c, off, []) == c
  {
  }

  /** How far the chunk loop gets: all the way if the bytes fit the largest file, otherwise
      through the whole chunks that do. */
  ghost predicate RightLength(off: nat, n: nat, done: nat)
  {
    && done <= n
    && (off + n <= MAXBYTES ==> done == n)
    && (off + n > MAXBYTES ==> done < n && done % MAXCHUNK == 0
                               && off + done <= MAXBYTES < off + done + Min(n - done, MAXCHUNK))
  }

  /** How many of `n` bytes at `off` the chunk loop offers before a chunk is refused. */
  function Accepted(off: nat, n: nat): (done: nat)
    ensures done <= n
    decreases n
  {
    var n1 := Min(n, MAXCHUNK);
    if n == 0 || off + n1 > MAXBYTES then 0 else n1 + Accepted(off + n1, n - n1)
  }

  lemma RightLengthStep(off: nat, n: nat, done: nat)
    requires n > 0 && off + Min(n, MAXCHUNK) <= MAXBYTES
    requires RightLength(off + Min(n, MAXCHUNK), n - Min(n, MAXCHUNK), done)
    ensures RightLength(off, n, Min(n, MAXCHUNK) + done)
  {
    if n > MAXCHUNK { ChunkMore(done); }
  }

  lemma ChunkMore(done: nat)
    ensures (MAXCHUNK + done) % MAXCHUNK == done % MAXCHUNK
  {
  }

  /** Every other file, if it is of legal size, is as it was. */
  ghost predicate OthersSame(sb: Super, s: State, t: State)
  {
    && Typed(sb, s) && Typed(sb, t)
    && forall i :: 0 <= i < sb.ninodes && i != s.inum && SizeOf(sb, s, i) <= MAXBYTES ==>
         SizeOf(sb, t, i) <= MAXBYTES && Contents(sb, t, i) == Contents(sb, s, i)
  }

  /** The bytes of the locked inode after `src` has been written at `off`. */
  ghost predicate FileIs(sb: Super, s: State, t: State, off: nat, src: seq<byte>)
  {
    && Typed(sb, s) && Typed(sb, t) && t.inum == s.inum && off <= s.size
    && SizeOf(sb, s, s.inum) <= MAXBYTES && SizeOf(sb, t, s.inum) <= MAXBYTES
    && Contents(sb, t, s.inum) == Overwrite(Contents(sb, s, s.inum), off, src)
  }

  ghost predicate ChunksDone(sb: Super, s: State, r: Fw, owner: map<nat, Owner>, off: nat, src: seq<byte>)
  {
    && r.Fw? && RightLength(off, |src|, r.done) && r.done == Accepted(off, |src|) && r.off == off + r.done
    && FsInv(sb, r.state, owner) && FileIs(sb, s, r.state, off, src[..r.done]) && OthersSame(sb, s, r.state)
  }

  lemma WriteiKeepsHead(sb: Super, s: State, off: word, src: seq<byte>)
    requires Typed(sb, s) && |src| < 0x1_0000_0000 && Writei(sb, s, off, src).Wrote?
    ensures Writei(sb, s, off, src).state.head == s.head
  {
    hide WriteLoop;
    WriteLoopIdentity(sb, s, off, src);
  }

  lemma SizeIsLength(sb: Super, s: State, owner: map<nat, Owner>)
    requires FsInv(sb, s, owner)
    ensures Typed(sb, s) && SizeOf(sb, s, s.inum) == s.size <= MAXBYTES
    ensures forall i :: 0 <= i < sb.ninodes ==> SizeOf(sb, s, i) <= MAXBYTES
  {
    hide Slot, Used;
    assert SizeOf(sb, s, s.inum) <= MAXBYTES;
  }

  lemma NothingWritten(sb: Super, s: State, owner: map<nat, Owner>, off: nat)
    requires FsInv(sb, s, owner) && off <= s.size
    ensures FileIs(sb, s, s, off, []) && OthersSame(sb, s, s)
  {
    SizeIsLength(sb, s, owner);
    OverwriteNothing(Contents(sb, s, s.inum), off);
    hide FsInv;
  }

  /** One chunk in these terms. */
  lemma ChunkWritten(sb: Super, s: State, owner: map<nat, Owner>, off: word, src: seq<byte>)
    returns (owner': map<nat, Owner>)
    requires FsInv(sb, s, owner) && !IsDevice(s) && off <= s.size && |src| < 0x1_0000_0000
    requires Writei(sb, s, off, src).Wrote?
    ensures var t := Writei(sb, s, off, src).state;
            && FsInv(sb, t, owner') && !IsDevice(t) && off + |src| <= t.size
            && FileIs(sb, s, t, off, src) && OthersSame(sb, s, t)
  {
    var t := Writei(sb, s, off, src).state;
    owner' := WriteiRefinesBytes(sb, s, owner, off, src);
    WriteiKeepsHead(sb, s, off, src);
    SizeIsLength(sb, s, owner);
    SizeIsLength(sb, t, owner');
    hide FsInv, Writei, Contents;
    assert |Contents(sb, t, s.inum)| == t.size;
  }

  lemma FilesCompose(sb: Super, s: State, t: State, u: State, off: nat, a: seq<byte>, b: seq<byte>)
    requires FileIs(sb, s, t, off, a) && FileIs(sb, t, u, off + |a|, b) && OthersSame(sb, s, t) && OthersSame(sb, t, u)
    ensures FileIs(sb, s, u, off, a + b) && OthersSame(sb, s, u)
  {
    hide Contents, Overwrite, InodeWord;
    OverwriteTwice(Contents(sb, s, s.inum), off, a, b);
  }

  lemma ChunksCompose(sb: Super, s: State, t: State, rest: Fw, owner: map<nat, Owner>, off: nat, src: seq<byte>, n1: nat)
    requires 0 < n1 == Min(|src|, MAXCHUNK) && off + n1 <= MAXBYTES
    requires FileIs(sb, s, t, off, src[..n1]) && OthersSame(sb, s, t)
    requires ChunksDone(sb, t, rest, owner, off + n1, src[n1..])
    ensures ChunksDone(sb, s, Advance(n1, rest), owner, off, src)
  {
    hide FsInv, FileIs, OthersSame, RightLength;
    RightLengthStep(off, |src|, rest.done);
    RightLengthBound(off + n1, |src| - n1, rest.done);
    FilesCompose(sb, s, t, rest.state, off, src[..n1], src[n1..][..rest.done]);
    assert src[..n1] + src[n1..][..rest.done] == src[..n1 + rest.done];
  }

  lemma RightLengthBound(off: nat, n: nat, done: nat)
    requires RightLength(off, n, done)
    ensures done <= n
  {
  }

  /** What the chunks write. */
  lemma {:induction false} ChunksWrite(sb: Super, s: State, owner: map<nat, Owner>, off: word, src: seq<byte>)
    returns (owner': map<nat, Owner>)
    requires Typed(sb, s) && FsInv(sb, s, owner) && !IsDevice(s) && off <= s.size && |src| < 0x8000_0000
    ensures WriteChunks(sb, s, off, src).FwPanic? || ChunksDone(sb, s, WriteChunks(sb, s, off, src), owner', off, src)
    decreases |src|
  {
    hide FsInv, IsDevice, Writei, FileIs, OthersSame, ChunksDone;
    SizeIsLength(sb, s, owner);
    owner' := owner;
    var n1 := Min(|src|, MAXCHUNK);
    if src == [] {
      NoChunk(sb, s, owner, off, src);
    } else {
      ChunksUnfold(sb, s, off, src);
      var w := Writei(sb, s, off, src[..n1]);
      WriteiOutcome(sb, s, off, src[..n1]);
      if w.Refused? {
        NoChunk(sb, s, owner, off, src);
      } else if w.Wrote? {
        var mid := ChunkWritten(sb, s, owner, off, src[..n1]);
        owner' := ChunksWrite(sb, w.state, mid, off + n1, src[n1..]);
        if !WriteChunks(sb, w.state, off + n1, src[n1..]).FwPanic? {
          ChunksCompose(sb, s, w.state, WriteChunks(sb, w.state, off + n1, src[n1..]), owner', off, src, n1);
        }
      }
    }
  }

  /** When the chunks halt. */
  lemma {:induction false} ChunksHalt(sb: Super, s: State, owner: map<nat, Owner>, off: word, src: seq<byte>)
    requires Typed(sb, s) && FsInv(sb, s, owner) && !IsDevice(s) && off <= s.size && |src| < 0x8000_0000
    ensures WriteChunks(sb, s, off, src).FwPanic? <==>
              FreeBlocks(sb, s) < Growth(s.size, off + Accepted(off, |src|))
    decreases |src|
  {
    hide FsInv, IsDevice, Writei, FreeBlocks, Growth;
    NoGrowth(s.size, off);
    var n1 := Min(|src|, MAXCHUNK);
    if src != [] {
      ChunksUnfold(sb, s, off, src);
      var w := Writei(sb, s, off, src[..n1]);
      WriteiOutcome(sb, s, off, src[..n1]);
      if !w.Refused? {
        ChunkRoom(sb, s, owner, off, src[..n1], Accepted(off + n1, |src| - n1));
        if w.Wrote? {
          var mid := ChunkWritten(sb, s, owner, off, src[..n1]);
          ChunksHalt(sb, w.state, mid, off + n1, src[n1..]);
        }
      }
    }
  }

  /** `filewrite` on an inode: whatever the chunking, the bytes land in the file as one write would
      put them, the offset moves past them, and it reports success exactly when they all fit into
      the largest file; otherwise the chunks before the one that does not fit stay written. It halts
      exactly when the disk has fewer free blocks than the file would grow by. */
  lemma FilewriteRefinesBytes(sb: Super, s: State, owner: map<nat, Owner>, off: word, src: seq<byte>)
    returns (owner': map<nat, Owner>)
    requires Typed(sb, s) && FsInv(sb, s, owner) && !IsDevice(s) && off <= s.size && |src| < 0x8000_0000
    ensures WriteChunks(sb, s, off, src).FwPanic? <==>
              FreeBlocks(sb, s) < Growth(s.size, off + Accepted(off, |src|))
    ensures !WriteChunks(sb, s, off, src).FwPanic? ==>
              ChunksDone(sb, s, WriteChunks(sb, s, off, src), owner', off, src)
  {
    hide FsInv, WriteChunks, ChunksDone, FreeBlocks, Growth;
    owner' := ChunksWrite(sb, s, owner, off, src);
    ChunksHalt(sb, s, owner, off, src);
  }

  lemma GrowthSplit(size: nat, mid: nat, end: nat)
    requires mid <= end
    ensures Growth(size, end) == Growth(size, mid) + Growth(if mid > size then mid else size, end)
  {
  }

  lemma IupdateSize(sb: Super, s: State, off: word, src: seq<byte>)
    requires Typed(sb, s) && |src| < 0x1_0000_0000 && Writei(sb, s, off, src).Wrote?
    requires WriteLoop(sb, s, off, src).state.size == s.size && off <= s.size
    ensures Writei(sb, s, off, src).state.size == if off + |src| > s.size then off + |src| else s.size
  {
    hide WriteLoop;
  }

  lemma NoGrowth(size: nat, end: nat)
    requires end <= size
    ensures Growth(size, end) == 0
  {
  }

  /** One chunk's share of the blocks the whole write needs. */
  lemma ChunkRoom(sb: Super, s: State, owner: map<nat, Owner>, off: word, src: seq<byte>, more: nat)
    requires FsInv(sb, s, owner) && !IsDevice(s) && off <= s.size && off + |src| <= MAXBYTES
    ensures Typed(sb, s)
    ensures var w := Writei(sb, s, off, src);
            var whole := Growth(s.size, off + |src| + more);
            && (w.Halted? ==> FreeBlocks(sb, s) < whole)
            && (w.Wrote? ==>
                  && Typed(sb, w.state)
                  && (FreeBlocks(sb, w.state) < Growth(w.state.size, off + |src| + more) <==> FreeBlocks(sb, s) < whole))
  {
    hide FsInv, WriteLoop, FreeBlocks, Missing, Growth, Iupdate;
    SizeIsLength(sb, s, owner);
    WriteHaltsExactly(sb, s, owner, off, src);
    GrowthSplit(s.size, off + |src|, off + |src| + more);
    if Writei(sb, s, off, src).Wrote? {
      WriteLoopIdentity(sb, s, off, src);
      IupdateSize(sb, s, off, src);
    }
  }

  lemma WriteiOutcome(sb: Super, s: State, off: word, src: seq<byte>)
    requires Typed(sb, s) && !IsDevice(s) && off <= s.size && |src| < 0x1_0000_0000
    ensures !Writei(sb, s, off, src).ToDevice?
    ensures Writei(sb, s, off, src).Refused? <==> off + |src| > MAXBYTES
  {
  }

  /** The loop ends at once: nothing left to write, or the next chunk does not fit. */
  lemma NoChunk(sb: Super, s: State, owner: map<nat, Owner>, off: word, src: seq<byte>)
    requires FsInv(sb, s, owner) && off <= s.size <= MAXBYTES
    requires src == [] || off + Min(|src|, MAXCHUNK) > MAXBYTES
    ensures ChunksDone(sb, s, Fw(s, off, 0), owner, off, src)
  {
    NothingWritten(sb, s, owner, off);
    hide FsInv;
    assert src[..0] == [];
  }

  /** An open file on an inode. */
  class File {
    const ip: Inode
    var off: word

    constructor (ip: Inode, off: word)
      ensures this.ip == ip && this.off == off
    {
      this.ip, this.off := ip, off;
    }

    /** The inode branch of `filewrite`. */
    method Filewrite(fs: FileSystem, src: seq<byte>) returns (panicked: bool, toDevice: bool, r: int)
      requires Typed(fs.sb, fs.View(ip)) && |src| < 0x8000_0000
      modifies this, fs, ip
      ensures panicked == WriteChunks(fs.sb, old(fs.View(ip)), old(off), src).FwPanic?
      ensures !panicked ==> toDevice == WriteChunks(fs.sb, old(fs.View(ip)), old(off), src).FwDevice?
      ensures !panicked && !toDevice ==>
                var w := WriteChunks(fs.sb, old(fs.View(ip)), old(off), src);
                w.Fw? && w.state == fs.View(ip) && w.off == off && r == (if w.done == |src| then |src| else -1)
    {
      hide Writei;
      panicked, toDevice, r := false, false, -1;
      ghost var start, whole := fs.View(ip), WriteChunks(fs.sb, fs.View(ip), off, src);
      var i := 0;
      while i < |src|
        invariant 0 <= i <= |src| && Typed(fs.sb, fs.View(ip))
        invariant whole == Advance(i, WriteChunks(fs.sb, fs.View(ip), off, src[i..]))
      {
        ghost var rest := src[i..];
        ChunksUnfold(fs.sb, fs.View(ip), off, rest);
        var n1 := Min(|src| - i, MAXCHUNK);
        assert rest[..n1] == src[i..i + n1] && rest[n1..] == src[i + n1..];
        var bad, dev, w := fs.WriteiBytes(ip, src[i..i + n1], off);
        if bad || dev {
          return bad, dev, -1;
        }
        if w < 0 {
          return;
        }
        off := off + w;
        i := i + w;
      }
      r := |src|;
    }
  }

  lemma ChunksUnfold(sb: Super, s: State, off: word, src: seq<byte>)
    requires Typed(sb, s) && 0 < |src| < 0x8000_0000
    ensures var n1 := Min(|src|, MAXCHUNK);
            var w := Writei(sb, s, off, src[..n1]);
            WriteChunks(sb, s, off, src)
            == if w.Halted? then FwPanic
               else if w.ToDevice? then FwDevice
               else if w.Refused? then Fw(s, off, 0)
               else Advance(n1, WriteChunks(sb, w.state, off + n1, src[n1..]))
  {
    hide Writei;
  }
}

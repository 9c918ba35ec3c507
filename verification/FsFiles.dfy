/** File contents on top of the block layer: `writei` and `readi`. */
module FsFiles {
  import opened Blocks
  import opened FsLayout
  import opened FsBlocks

  const MAXBYTES: nat := MAXFILE * BSIZE
  const T_DEV: nat := 3

  // ---------------------------------------------------------------- the operations

  function Min(a: nat, b: nat): (m: nat)
  {
    if a < b then a else b
  }

  /** `blk` with the bytes `src` written at `at`. */
  function Splice(blk: Block, at: nat, src: seq<byte>): (r: Block)
    requires at + |src| <= BSIZE
  {
    blk[..at] + src + blk[at + |src|..]
  }

  /** How much of `n` bytes at `off` lies in one block. */
  function Chunk(off: nat, n: nat): (m: nat)
    ensures n > 0 ==> 0 < m <= n
    ensures off % BSIZE + m <= BSIZE
  {
    Min(n, BSIZE - off % BSIZE)
  }

  /** One trip of the copy loop: map the block of `off`, splice in the bytes, log it. */
  function WriteChunk(sb: Super, s: State, off: nat, src: seq<byte>): (r: Result)
    requires Typed(sb, s) && |src| <= BSIZE - off % BSIZE
    ensures r.Ok? ==> Typed(sb, r.state)
  {
    var a := Bmap(sb, s, off / BSIZE);
    if a.Panic? || a.block >= sb.size then Panic
    else Ok(LogBlock(a.state, a.block, Splice(a.state.disk[a.block], off % BSIZE, src)), a.block)
  }

  /** The copy loop of `writei`, from offset `off` on. */
  function WriteLoop(sb: Super, s: State, off: nat, src: seq<byte>): (r: Result)
    requires Typed(sb, s)
    ensures r.Ok? ==> Typed(sb, r.state)
    decreases |src|
  {
    if src == [] then Ok(s, 0)
    else
      var m := Chunk(off, |src|);
      var c := WriteChunk(sb, s, off, src[..m]);
      if c.Panic? then Panic else WriteLoop(sb, c.state, off + m, src[m..])
  }

  datatype Io = Halted | Refused | ToDevice | Wrote(state: State) | Read(state: State, bytes: seq<byte>)

  predicate IsDevice(s: State)
    requires |s.head| == 2
  {
    s.head[0] % 0x1_0000 == T_DEV
  }

  /** `writei`: device inodes go to their driver; a write may not start past the end of the file,
      wrap around, or pass the largest file; otherwise the bytes are copied block by block and the
      inode is written back only if the file grew. */
  function Writei(sb: Super, s: State, off: word, src: seq<byte>): (r: Io)
    requires Typed(sb, s) && |src| < 0x1_0000_0000
    ensures !r.Read?
    ensures r.Wrote? ==> Typed(sb, r.state) && off + |src| <= MAXBYTES
  {
    if IsDevice(s) then ToDevice
    else if off > s.size || off + |src| >= 0x1_0000_0000 || off + |src| > MAXBYTES then Refused
    else
      var w := WriteLoop(sb, s, off, src);
      if w.Panic? then Halted
      else if |src| > 0 && off + |src| > s.size then Wrote(Iupdate(sb, w.state.(size := off + |src|)))
      else Wrote(w.state)
  }

  /** The `m` bytes of a block from where file offset `off` falls in it. */
  function Piece(blk: Block, off: nat, m: nat): (s: seq<byte>)
    requires off % BSIZE + m <= BSIZE
    ensures |s| == m
  {
    blk[off % BSIZE..off % BSIZE + m]
  }

  /** The copy loop of `readi`: like any user of `bmap` it would fill a hole it met. */
  function ReadLoop(sb: Super, s: State, off: nat, n: nat): (r: Io)
    requires Typed(sb, s)
    ensures r.Halted? || (r.Read? && Typed(sb, r.state))
    decreases n
  {
    if n == 0 then Read(s, [])
    else
      var a := Bmap(sb, s, off / BSIZE);
      if a.Panic? || a.block >= sb.size then Halted
      else
        var m := Chunk(off, n);
        var rest := ReadLoop(sb, a.state, off + m, n - m);
        if rest.Halted? then Halted
        else Read(rest.state, Piece(a.state.disk[a.block], off, m) + rest.bytes)
  }

  function Readi(sb: Super, s: State, off: word, n: word): (r: Io)
    requires Typed(sb, s)
  {
    if IsDevice(s) then ToDevice
    else if off > s.size || off + n >= 0x1_0000_0000 then Refused
    else ReadLoop(sb, s, off, if off + n > s.size then s.size - off else n)
  }

  // ---------------------------------------------------------------- contents

  /** Byte `x` of the file of inode `i`. */
  function ByteAt(sb: Super, s: State, i: nat, x: nat): (b: byte)
    requires Typed(sb, s) && i < sb.ninodes && x < MAXBYTES
  {
    FileBlock(sb, s, i, x / BSIZE)[x % BSIZE]
  }

  function Contents(sb: Super, s: State, i: nat): (c: seq<byte>)
    requires Typed(sb, s) && i < sb.ninodes && SizeOf(sb, s, i) <= MAXBYTES
    ensures |c| == SizeOf(sb, s, i)
    ensures forall x :: 0 <= x < |c| ==> c[x] == ByteAt(sb, s, i, x)
  {
    seq(SizeOf(sb, s, i), x requires 0 <= x < SizeOf(sb, s, i) => ByteAt(sb, s, i, x))
  }

  /** Overwriting or extending a byte sequence. */
  function Overwrite(c: seq<byte>, off: nat, src: seq<byte>): (r: seq<byte>)
    requires off <= |c|
  {
    c[..off] + src + if off + |src| < |c| then c[off + |src|..] else []
  }

  ghost predicate SameOtherFiles(sb: Super, s: State, t: State)
  {
    && Typed(sb, s) && Typed(sb, t) && t.inum == s.inum
    && (forall i, n :: 0 <= i < sb.ninodes && i != s.inum && 0 <= n < MAXFILE ==>
          FileBlock(sb, t, i, n) == FileBlock(sb, s, i, n))
    && (forall i, k :: 0 <= i < sb.ninodes && i != s.inum && 0 <= k <= MAXFILE ==>
          Slot(sb, t, i, k) == Slot(sb, s, i, k))
  }

  // ---------------------------------------------------------------- one block of a write

  lemma WriteOwnBlock(sb: Super, s: State, owner: map<nat, Owner>, bn: nat, b: nat, data: Block)
    requires OwnedBy(sb, s, owner) && bn < MAXFILE
    requires b in owner && owner[b] == Of(s.inum, bn)
    ensures var t := LogBlock(s, b, data);
            && OwnedBy(sb, t, owner) && SameSlots(sb, s, t) && SameInodes(sb, s, t)
            && SameOtherFiles(sb, s, t)
            && forall n :: 0 <= n < MAXFILE ==>
                 FileBlock(sb, t, s.inum, n) == if n == bn then data else FileBlock(sb, s, s.inum, n)
  {
    hide Slot, Used;
    var t := LogBlock(s, b, data);
    assert forall i :: 0 <= i < sb.ninodes && Slot(sb, s, i, MAXFILE) != 0 ==>
             owner[Slot(sb, s, i, MAXFILE)] == Of(i, MAXFILE);
    WriteKeepsSlots(sb, s, b, data);
    forall c | 0 <= c < sb.size
      ensures Used(sb, t.disk, c) == Used(sb, s.disk, c)
    {
      UsedIgnoresData(sb, s.disk, b, data, c);
    }
    forall i, n | 0 <= i < sb.ninodes && 0 <= n < MAXFILE
      ensures FileBlock(sb, t, i, n) == if i == s.inum && n == bn then data else FileBlock(sb, s, i, n)
    {
      var a := Slot(sb, s, i, n);
      assert a != 0 ==> a in owner && owner[a] == Of(i, n);
    }
  }

  /** The bytes of the locked inode after `src` has been written at `off`. */
  ghost predicate BytesWritten(sb: Super, s: State, t: State, off: nat, src: seq<byte>)
  {
    && Typed(sb, s) && Typed(sb, t) && t.inum == s.inum
    && forall x :: 0 <= x < MAXBYTES ==>
         ByteAt(sb, t, s.inum, x) == if off <= x < off + |src| then src[x - off] else ByteAt(sb, s, s.inum, x)
  }

  lemma SpliceAt(blk: Block, at: nat, src: seq<byte>, y: nat)
    requires at + |src| <= BSIZE && y < BSIZE
    ensures Splice(blk, at, src)[y] == if at <= y < at + |src| then src[y - at] else blk[y]
  {
  }

  lemma SpliceBytes(sb: Super, s: State, t: State, off: nat, src: seq<byte>)
    requires Typed(sb, s) && Typed(sb, t) && t.inum == s.inum
    requires off < MAXBYTES && |src| <= BSIZE - off % BSIZE
    requires forall n :: 0 <= n < MAXFILE ==>
               FileBlock(sb, t, s.inum, n)
               == if n == off / BSIZE then Splice(FileBlock(sb, s, s.inum, n), off % BSIZE, src)
                  else FileBlock(sb, s, s.inum, n)
    ensures BytesWritten(sb, s, t, off, src)
  {
    hide FileBlock, Splice;
    forall x | 0 <= x < MAXBYTES
      ensures ByteAt(sb, t, s.inum, x) == if off <= x < off + |src| then src[x - off] else ByteAt(sb, s, s.inum, x)
    {
      SpliceAt(FileBlock(sb, s, s.inum, off / BSIZE), off % BSIZE, src, x % BSIZE);
    }
  }

  /** Blocks are there exactly below byte `end`; so is the indirect block when it is needed. */
  ghost predicate Dense(sb: Super, s: State, i: nat, end: nat)
  {
    && Typed(sb, s) && i < sb.ninodes
    && (forall n :: 0 <= n < MAXFILE ==> (Slot(sb, s, i, n) != 0 <==> n * BSIZE < end))
    && (Slot(sb, s, i, MAXFILE) != 0 <==> NDIRECT * BSIZE < end)
  }

  lemma GrowDense(sb: Super, s: State, t: State, off: nat, end: nat, m: nat)
    requires Dense(sb, s, s.inum, end) && off <= end && off < MAXBYTES && 0 < m <= BSIZE - off % BSIZE
    requires GrewAt(sb, s, t, off / BSIZE) && Slot(sb, t, s.inum, off / BSIZE) != 0
    ensures Dense(sb, t, s.inum, if off + m > end then off + m else end)
  {
    hide Slot;
    var bn := off / BSIZE;
    var end' := if off + m > end then off + m else end;
    forall n | 0 <= n < MAXFILE
      ensures Slot(sb, t, s.inum, n) != 0 <==> n * BSIZE < end'
    {
      if n != bn {
        assert Slot(sb, t, s.inum, n) == Slot(sb, s, s.inum, n);
      }
    }
    if bn < NDIRECT {
      assert Slot(sb, t, s.inum, MAXFILE) == Slot(sb, s, s.inum, MAXFILE);
    }
  }

  ghost predicate ChunkKeeps(sb: Super, s: State, t: State, owner: map<nat, Owner>, off: nat, src: seq<byte>)
  {
    && OwnedBy(sb, t, owner) && t.released == 0 && SameInodes(sb, s, t)
    && SameOtherFiles(sb, s, t) && BytesWritten(sb, s, t, off, src)
  }

  lemma WriteChunkKeeps(sb: Super, s: State, owner: map<nat, Owner>, off: nat, src: seq<byte>)
    returns (owner': map<nat, Owner>)
    requires OwnedBy(sb, s, owner) && s.released == 0 && off < MAXBYTES && |src| <= BSIZE - off % BSIZE
    requires WriteChunk(sb, s, off, src).Ok?
    ensures ChunkKeeps(sb, s, WriteChunk(sb, s, off, src).state, owner', off, src)
    ensures GrewAt(sb, s, WriteChunk(sb, s, off, src).state, off / BSIZE)
    ensures Slot(sb, WriteChunk(sb, s, off, src).state, s.inum, off / BSIZE) != 0
    ensures Settled(owner) ==> Settled(owner')
  {
    hide Slot, Used, Bmap, Splice, BytesWritten;
    var bn := off / BSIZE;
    var a := Bmap(sb, s, bn);
    owner' := BmapKeeps(sb, s, owner, bn);
    var data := Splice(a.state.disk[a.block], off % BSIZE, src);
    WriteOwnBlock(sb, a.state, owner', bn, a.block, data);
    var t := LogBlock(a.state, a.block, data);
    assert FileBlock(sb, a.state, s.inum, bn) == a.state.disk[a.block];
    hide FileBlock, OwnedBy;
    SpliceBytes(sb, s, t, off, src);
  }

  // ---------------------------------------------------------------- the whole write

  lemma ChunksCompose(sb: Super, s: State, t: State, u: State, mid: map<nat, Owner>, owner: map<nat, Owner>,
                      off: nat, src: seq<byte>, m: nat)
    requires 0 <= m <= |src| && ChunkKeeps(sb, s, t, mid, off, src[..m])
    requires ChunkKeeps(sb, t, u, owner, off + m, src[m..])
    ensures ChunkKeeps(sb, s, u, owner, off, src)
  {
    hide FileBlock, ByteAt, OwnedBy, Slot;
    forall x | 0 <= x < MAXBYTES
      ensures ByteAt(sb, u, s.inum, x) == if off <= x < off + |src| then src[x - off] else ByteAt(sb, s, s.inum, x)
    {
      assert off <= x < off + m ==> src[..m][x - off] == src[x - off];
      assert off + m <= x < off + |src| ==> src[m..][x - off - m] == src[x - off];
    }
  }

  lemma ChunkOfNothing(sb: Super, s: State, owner: map<nat, Owner>, off: nat)
    requires OwnedBy(sb, s, owner) && s.released == 0
    ensures ChunkKeeps(sb, s, s, owner, off, [])
  {
    hide Slot, Used;
  }

  function Furthest(a: nat, b: nat): (m: nat)
  {
    if a > b then a else b
  }

  lemma {:induction false} WriteLoopKeeps(sb: Super, s: State, owner: map<nat, Owner>, off: nat, src: seq<byte>, end: nat)
    returns (owner': map<nat, Owner>)
    requires OwnedBy(sb, s, owner) && s.released == 0 && off + |src| <= MAXBYTES
    requires off <= end && Dense(sb, s, s.inum, end)
    requires WriteLoop(sb, s, off, src).Ok?
    ensures ChunkKeeps(sb, s, WriteLoop(sb, s, off, src).state, owner', off, src)
    ensures Dense(sb, WriteLoop(sb, s, off, src).state, s.inum, Furthest(end, if src == [] then 0 else off + |src|))
    ensures Settled(owner) ==> Settled(owner')
    decreases |src|
  {
    hide Slot, Used, WriteChunk, Dense, SameOtherFiles, BytesWritten, SameInodes, GrewAt;
    if src == [] {
      owner' := owner;
      ChunkOfNothing(sb, s, owner, off);
    } else {
      var m := Chunk(off, |src|);
      var c := WriteChunk(sb, s, off, src[..m]);
      var mid := WriteChunkKeeps(sb, s, owner, off, src[..m]);
      GrowDense(sb, s, c.state, off, end, m);
      ChunkInode(sb, s, c.state, mid, off, src[..m]);
      owner' := WriteLoopKeeps(sb, c.state, mid, off + m, src[m..], Furthest(end, off + m));
      ChunksCompose(sb, s, c.state, WriteLoop(sb, s, off, src).state, mid, owner', off, src, m);
    }
  }

  lemma ChunkInode(sb: Super, s: State, t: State, owner: map<nat, Owner>, off: nat, src: seq<byte>)
    requires ChunkKeeps(sb, s, t, owner, off, src)
    ensures t.inum == s.inum && t.size == s.size && t.released == 0 && Typed(sb, t) && OwnedBy(sb, t, owner)
  {
    hide OwnedBy;
  }

  /** A write inside the file never runs out of blocks and allocates nothing: the in-memory
      addresses stay. */
  lemma {:induction false} WriteInsideKeepsAddrs(sb: Super, s: State, owner: map<nat, Owner>, off: nat, src: seq<byte>, end: nat)
    requires OwnedBy(sb, s, owner) && s.released == 0 && Dense(sb, s, s.inum, end)
    requires off + |src| <= end <= MAXBYTES
    ensures WriteLoop(sb, s, off, src).Ok? && WriteLoop(sb, s, off, src).state.addrs == s.addrs
    decreases |src|
  {
    hide Slot, Used, Bmap, Splice;
    if src != [] {
      var m := Chunk(off, |src|);
      var bn := off / BSIZE;
      BmapPresent(sb, s, owner, bn);
      var b := Slot(sb, s, s.inum, bn);
      var t := WriteChunk(sb, s, off, src[..m]).state;
      WriteOwnBlock(sb, s, owner, bn, b, t.disk[b]);
      WriteInsideKeepsAddrs(sb, t, owner, off + m, src[m..], end);
    }
  }

  // ---------------------------------------------------------------- writing back the inode

  /** The disk copy of the locked inode equals the one in memory. */
  ghost predicate Synced(sb: Super, s: State)
  {
    && Typed(sb, s)
    && forall w :: 0 <= w < DINODEWORDS ==> InodeWord(sb, s.disk, s.inum, w) == InodeWords(s)[w]
  }

  lemma IupdateKeepsSlots(sb: Super, s: State)
    requires Typed(sb, s)
    requires forall i :: 0 <= i < sb.ninodes && Slot(sb, s, i, MAXFILE) != 0 ==> Slot(sb, s, i, MAXFILE) >= sb.nmeta
    ensures Synced(sb, Iupdate(sb, s)) && SameSlots(sb, s, Iupdate(sb, s))
    ensures forall i :: 0 <= i < sb.ninodes ==> SizeOf(sb, Iupdate(sb, s), i) == SizeOf(sb, s, i)
    ensures forall b :: sb.bmapstart <= b < sb.size ==> Iupdate(sb, s).disk[b] == s.disk[b]
  {
    hide GetWord, InodeWord, PutInode;
    var t := Iupdate(sb, s);
    assert t.disk == PutInode(sb, s.disk, s.inum, InodeWords(s)) by {
      PutInodeShape(sb, s.disk, s.inum, InodeWords(s));
    }
    forall i, w | 0 <= i < sb.ninodes && 0 <= w < DINODEWORDS
      ensures InodeWord(sb, t.disk, i, w) == if i == s.inum then InodeWords(s)[w] else InodeWord(sb, s.disk, i, w)
    {
      InodeAfterPut(sb, s.disk, s.inum, InodeWords(s), i, w);
    }
    assert InodeBlock(sb, s.inum) < sb.bmapstart;
    forall i, k | 0 <= i < sb.ninodes && 0 <= k <= MAXFILE
      ensures Slot(sb, t, i, k) == Slot(sb, s, i, k)
    {
      assert Slot(sb, s, i, MAXFILE) != 0 ==> Slot(sb, s, i, MAXFILE) >= sb.nmeta;
    }
  }

  lemma PutInodeShape(sb: Super, d: Disk, inum: nat, ws: seq<word>)
    requires Image(sb, d) && inum < sb.ninodes && |ws| == DINODEWORDS
    ensures PutInode(sb, d, inum, ws) == d[InodeBlock(sb, inum) := PutInode(sb, d, inum, ws)[InodeBlock(sb, inum)]]
  {
  }

  lemma IupdateKeeps(sb: Super, s: State, owner: map<nat, Owner>)
    requires OwnedBy(sb, s, owner)
    ensures OwnedBy(sb, Iupdate(sb, s), owner) && Synced(sb, Iupdate(sb, s))
    ensures SameSlots(sb, s, Iupdate(sb, s)) && SameFiles(sb, s, Iupdate(sb, s))
    ensures forall i :: 0 <= i < sb.ninodes ==> SizeOf(sb, Iupdate(sb, s), i) == SizeOf(sb, s, i)
  {
    hide Slot, Used, SizeOf, Synced;
    IupdateKeepsSlots(sb, s);
    var t := Iupdate(sb, s);
    forall c | 0 <= c < sb.size
      ensures Used(sb, t.disk, c) == Used(sb, s.disk, c)
    {
      UsedIgnoresData(sb, s.disk, InodeBlock(sb, s.inum), t.disk[InodeBlock(sb, s.inum)], c);
    }
    forall i, n | 0 <= i < sb.ninodes && 0 <= n < MAXFILE
      ensures FileBlock(sb, t, i, n) == FileBlock(sb, s, i, n)
    {
      var a := Slot(sb, s, i, n);
      assert a != 0 ==> a in owner;
    }
  }

  // ---------------------------------------------------------------- the file system invariant

  /** The state between operations: blocks owned exactly, no file with holes or with blocks past
      its end, and the locked inode the same in memory and on disk. */
  ghost predicate FsInv(sb: Super, s: State, owner: map<nat, Owner>)
  {
    OwnedBy(sb, s, owner) && Settled(owner) && s.released == 0 && Synced(sb, s) && AllDense(sb, s)
  }

  lemma SizeOfOthers(sb: Super, s: State, t: State)
    requires SameInodes(sb, s, t)
    ensures forall i :: 0 <= i < sb.ninodes ==> SizeOf(sb, t, i) == SizeOf(sb, s, i)
    ensures forall w :: 0 <= w < DINODEWORDS ==> InodeWord(sb, t.disk, s.inum, w) == InodeWord(sb, s.disk, s.inum, w)
  {
    hide GetWord;
    assert forall i :: 0 <= i < sb.ninodes ==> InodeBlock(sb, i) < sb.bmapstart;
  }

  function SizeAfter(s: State, off: nat, src: seq<byte>): (n: nat)
  {
    if |src| > 0 && off + |src| > s.size then off + |src| else s.size
  }

  ghost predicate AllDense(sb: Super, s: State)
  {
    && Typed(sb, s)
    && forall i :: 0 <= i < sb.ninodes ==> SizeOf(sb, s, i) <= MAXBYTES && Dense(sb, s, i, SizeOf(sb, s, i))
  }

  /** The other inodes as `s` had them. */
  ghost predicate SameOtherSizes(sb: Super, s: State, t: State)
  {
    && Typed(sb, s) && Typed(sb, t) && t.inum == s.inum
    && forall i :: 0 <= i < sb.ninodes && i != s.inum ==> SizeOf(sb, t, i) == SizeOf(sb, s, i)
  }

  lemma DenseAfterWrite(sb: Super, s: State, t: State)
    requires AllDense(sb, s) && SameOtherFiles(sb, s, t) && SameOtherSizes(sb, s, t)
    requires t.size <= MAXBYTES && Dense(sb, t, s.inum, t.size)
    ensures AllDense(sb, t)
  {
    hide Slot, FileBlock;
    forall i | 0 <= i < sb.ninodes
      ensures SizeOf(sb, t, i) <= MAXBYTES && Dense(sb, t, i, SizeOf(sb, t, i))
    {
      if i != s.inum {
        assert Dense(sb, s, i, SizeOf(sb, s, i));
      }
    }
  }

  ghost predicate WriteDone(sb: Super, s: State, t: State, owner: map<nat, Owner>, off: nat, src: seq<byte>)
  {
    && FsInv(sb, t, owner) && SameOtherFiles(sb, s, t) && SameOtherSizes(sb, s, t)
    && BytesWritten(sb, s, t, off, src) && t.size == SizeAfter(s, off, src)
  }

  lemma BytesAfter(sb: Super, s: State, w: State, t: State, off: nat, src: seq<byte>)
    requires BytesWritten(sb, s, w, off, src) && SameFiles(sb, w, t) && t.inum == s.inum
    ensures BytesWritten(sb, s, t, off, src)
  {
    hide Slot, FileBlock;
    forall x | 0 <= x < MAXBYTES
      ensures ByteAt(sb, t, s.inum, x) == ByteAt(sb, w, s.inum, x)
    {
      assert FileBlock(sb, t, s.inum, x / BSIZE) == FileBlock(sb, w, s.inum, x / BSIZE);
    }
  }

  lemma FinishGrown(sb: Super, s: State, w: State, owner: map<nat, Owner>, off: nat, src: seq<byte>)
    requires AllDense(sb, s) && ChunkKeeps(sb, s, w, owner, off, src) && Settled(owner)
    requires |src| > 0 && s.size < off + |src| <= MAXBYTES && Dense(sb, w, s.inum, off + |src|)
    ensures WriteDone(sb, s, Iupdate(sb, w.(size := off + |src|)), owner, off, src)
  {
    hide Slot, Used, InodeWord, FileBlock;
    SizeOfOthers(sb, s, w);
    var g := w.(size := off + |src|);
    ResizeKeeps(sb, w, owner, off + |src|);
    IupdateKeeps(sb, g, owner);
    hide OwnedBy;
    var t := Iupdate(sb, g);
    BytesAfter(sb, s, w, t, off, src);
    assert SameOtherFiles(sb, s, t);
    DenseAfterWrite(sb, s, t);
  }

  lemma FinishInside(sb: Super, s: State, w: State, owner: map<nat, Owner>, off: nat, src: seq<byte>)
    requires AllDense(sb, s) && Synced(sb, s) && ChunkKeeps(sb, s, w, owner, off, src) && Settled(owner)
    requires w.addrs == s.addrs && SizeAfter(s, off, src) == s.size && Dense(sb, w, s.inum, s.size)
    ensures WriteDone(sb, s, w, owner, off, src)
  {
    hide Slot, Used, InodeWord, FileBlock;
    SizeOfOthers(sb, s, w);
    hide OwnedBy;
    assert SizeOf(sb, s, s.inum) == s.size;
    assert InodeWords(w) == InodeWords(s);
    DenseAfterWrite(sb, s, w);
  }

  /** `writei` keeps the invariant: the blocks it allocated are owned, the file has no holes, and
      the disk inode is up to date although it is written back only when the file grew. */
  lemma WriteiKeepsInv(sb: Super, s: State, owner: map<nat, Owner>, off: word, src: seq<byte>)
    returns (owner': map<nat, Owner>)
    requires FsInv(sb, s, owner) && |src| < 0x1_0000_0000 && Writei(sb, s, off, src).Wrote?
    ensures WriteDone(sb, s, Writei(sb, s, off, src).state, owner', off, src)
  {
    hide Slot, Used, FileBlock, InodeWord, ChunkKeeps, WriteDone, Dense;
    assert SizeOf(sb, s, s.inum) == s.size;
    var w := WriteLoop(sb, s, off, src).state;
    owner' := WriteLoopKeeps(sb, s, owner, off, src, s.size);
    if |src| > 0 && off + |src| > s.size {
      FinishGrown(sb, s, w, owner', off, src);
    } else {
      WriteInsideKeepsAddrs(sb, s, owner, off, src, s.size);
      FinishInside(sb, s, w, owner', off, src);
    }
  }

  lemma ResizeKeeps(sb: Super, s: State, owner: map<nat, Owner>, n: word)
    requires OwnedBy(sb, s, owner)
    ensures OwnedBy(sb, s.(size := n), owner)
    ensures SameSlots(sb, s, s.(size := n)) && SameFiles(sb, s, s.(size := n))
  {
    var t := s.(size := n);
    assert forall i, k :: 0 <= i < sb.ninodes && 0 <= k <= MAXFILE ==> Slot(sb, t, i, k) == Slot(sb, s, i, k);
  }

  // ---------------------------------------------------------------- files are byte sequences

  lemma OtherContents(sb: Super, s: State, t: State, i: nat)
    requires SameOtherFiles(sb, s, t) && SameOtherSizes(sb, s, t) && i < sb.ninodes && i != s.inum
    requires SizeOf(sb, s, i) <= MAXBYTES
    ensures Contents(sb, t, i) == Contents(sb, s, i)
  {
    hide Slot, FileBlock;
  }

  lemma WrittenContents(sb: Super, s: State, t: State, off: nat, src: seq<byte>)
    requires BytesWritten(sb, s, t, off, src) && t.size == SizeAfter(s, off, src)
    requires off <= s.size <= MAXBYTES && t.size <= MAXBYTES
    ensures Contents(sb, t, s.inum) == Overwrite(Contents(sb, s, s.inum), off, src)
  {
    hide Slot, FileBlock, ByteAt;
  }

  /** A successful `writei` overwrites or extends the bytes of its file at the offset; no other
      file changes, and the invariant holds again. A write is refused exactly when it would start
      past the end of the file or end past the largest one, and otherwise halts exactly when the
      disk has too few free blocks for it. */
  lemma WriteiRefinesBytes(sb: Super, s: State, owner: map<nat, Owner>, off: word, src: seq<byte>)
    returns (owner': map<nat, Owner>)
    requires FsInv(sb, s, owner) && !IsDevice(s) && |src| < 0x1_0000_0000
    ensures Writei(sb, s, off, src).Refused? <==> off > s.size || off + |src| > 71680
    ensures Writei(sb, s, off, src).Halted? <==>
              off <= s.size && off + |src| <= 71680 && FreeBlocks(sb, s) < Missing(sb, s, off, |src|)
    ensures Writei(sb, s, off, src).Wrote? ==>
              var t := Writei(sb, s, off, src).state;
              && FsInv(sb, t, owner') && t.inum == s.inum
              && Contents(sb, t, s.inum) == Overwrite(Contents(sb, s, s.inum), off, src)
              && forall i :: 0 <= i < sb.ninodes && i != s.inum ==> Contents(sb, t, i) == Contents(sb, s, i)
  {
    hide Slot, Used, FileBlock, InodeWord, ByteAt, WriteLoop, Iupdate, FreeBlocks, Missing;
    if off <= s.size && off + |src| <= MAXBYTES { WriteHaltsExactly(sb, s, owner, off, src); }
    owner' := owner;
    if Writei(sb, s, off, src).Wrote? {
      owner' := WriteiKeepsInv(sb, s, owner, off, src);
      var t := Writei(sb, s, off, src).state;
      hide OwnedBy, BytesWritten;
      assert SizeOf(sb, s, s.inum) == s.size && SizeOf(sb, t, s.inum) == t.size;
      WrittenContents(sb, s, t, off, src);
      forall i | 0 <= i < sb.ninodes && i != s.inum
        ensures Contents(sb, t, i) == Contents(sb, s, i)
      {
        OtherContents(sb, s, t, i);
      }
    }
  }

  function Slice(c: seq<byte>, off: nat, n: nat): (r: seq<byte>)
    requires off + n <= |c|
  {
    c[off..off + n]
  }

  /** The bytes one trip of the read loop copies. */
  lemma ReadChunk(sb: Super, s: State, owner: map<nat, Owner>, off: nat, m: nat)
    requires FsInv(sb, s, owner) && off + m <= s.size && off % BSIZE + m <= BSIZE && m > 0
    ensures Bmap(sb, s, off / BSIZE).Ok? && Bmap(sb, s, off / BSIZE).state == s
    ensures Bmap(sb, s, off / BSIZE).block < sb.size
    ensures Piece(s.disk[Bmap(sb, s, off / BSIZE).block], off, m) == Slice(Contents(sb, s, s.inum), off, m)
  {
    hide Used, Slot, Bmap, InodeWord;
    assert SizeOf(sb, s, s.inum) == s.size;
    assert Dense(sb, s, s.inum, s.size);
    var bn := off / BSIZE;
    BmapPresent(sb, s, owner, bn);
    var b := Slot(sb, s, s.inum, bn);
    assert FileBlock(sb, s, s.inum, bn) == s.disk[b];
    hide FileBlock, OwnedBy, Dense;
    var c := Contents(sb, s, s.inum);
    var left, right := Piece(s.disk[b], off, m), Slice(c, off, m);
    forall y | 0 <= y < m
      ensures left[y] == right[y]
    {
      assert (off + y) / BSIZE == bn && (off + y) % BSIZE == off % BSIZE + y;
      assert c[off + y] == ByteAt(sb, s, s.inum, off + y);
    }
  }

  lemma SliceSplit(c: seq<byte>, off: nat, m: nat, n: nat)
    requires m <= n && off + n <= |c|
    ensures Slice(c, off, n) == Slice(c, off, m) + Slice(c, off + m, n - m)
  {
  }

  lemma {:induction false} ReadLoopReads(sb: Super, s: State, owner: map<nat, Owner>, c: seq<byte>, off: nat, n: nat)
    requires Typed(sb, s) && FsInv(sb, s, owner) && SizeOf(sb, s, s.inum) <= MAXBYTES
    requires c == Contents(sb, s, s.inum) && |c| == s.size && off + n <= |c|
    ensures ReadLoop(sb, s, off, n) == Read(s, Slice(c, off, n))
    decreases n
  {
    hide FsInv, Bmap, Contents, Chunk, Piece, SizeOf, ReadLoop;
    if n == 0 {
      ReadLoopEnd(sb, s, off);
    } else {
      hide Slice, Typed;
      var m := Chunk(off, n);
      ReadChunk(sb, s, owner, off, m);
      ReadLoopReads(sb, s, owner, c, off + m, n - m);
      SliceSplit(c, off, m, n);
      ReadLoopStep(sb, s, off, n, m, Bmap(sb, s, off / BSIZE).block, Slice(c, off + m, n - m));
    }
  }

  lemma ReadLoopEnd(sb: Super, s: State, off: nat)
    requires Typed(sb, s)
    ensures ReadLoop(sb, s, off, 0) == Read(s, [])
  {
  }

  lemma ReadLoopStep(sb: Super, s: State, off: nat, n: nat, m: nat, b: nat, rest: seq<byte>)
    requires Typed(sb, s) && n > 0 && m == Chunk(off, n) && b < sb.size
    requires Bmap(sb, s, off / BSIZE) == Ok(s, b) && ReadLoop(sb, s, off + m, n - m) == Read(s, rest)
    ensures ReadLoop(sb, s, off, n) == Read(s, Piece(s.disk[b], off, m) + rest)
  {
    hide Bmap, Piece, Chunk;
  }

  /** `readi` returns the part of the file that is there, and changes nothing: in particular it
      never allocates a block, which would be a log write outside a transaction. */
  lemma ReadiRefinesBytes(sb: Super, s: State, owner: map<nat, Owner>, off: word, n: word)
    requires FsInv(sb, s, owner) && !IsDevice(s)
    ensures SizeOf(sb, s, s.inum) <= 71680
    ensures Readi(sb, s, off, n)
            == if off > s.size || off + n >= 0x1_0000_0000 then Refused
               else Read(s, Contents(sb, s, s.inum)[off..Min(off + n, s.size)])
  {
    hide Slot, Used, FileBlock, InodeWord, ByteAt, ReadLoop;
    assert SizeOf(sb, s, s.inum) == s.size;
    if off <= s.size {
      ReadLoopReads(sb, s, owner, Contents(sb, s, s.inum), off, if off + n > s.size then s.size - off else n);
    }
  }

  /** The driver is called exactly for inodes whose type half-word is 3. */
  lemma DeviceExact(sb: Super, s: State, off: word, n: word, src: seq<byte>)
    requires Typed(sb, s) && |src| < 0x1_0000_0000
    ensures Readi(sb, s, off, n).ToDevice? <==> s.head[0] % 0x1_0000 == 3
    ensures Writei(sb, s, off, src).ToDevice? <==> s.head[0] % 0x1_0000 == 3
  {
    hide ReadLoop, WriteLoop, Iupdate;
  }

  /** The same file on a disk with the same data blocks. */
  ghost predicate SameData(sb: Super, s: State, t: State)
  {
    && Typed(sb, s) && Typed(sb, t) && t.addrs == s.addrs
    && forall b :: sb.nmeta <= b < sb.size ==> t.disk[b] == s.disk[b]
  }

  lemma BmapElsewhere(sb: Super, s: State, owner: map<nat, Owner>, t: State, bn: nat)
    requires OwnedBy(sb, s, owner) && s.released == 0 && bn < MAXFILE && Slot(sb, s, s.inum, bn) != 0
    requires SameData(sb, s, t)
    ensures Bmap(sb, t, bn) == Ok(t, Slot(sb, s, s.inum, bn))
    ensures sb.nmeta <= Slot(sb, s, s.inum, bn) < sb.size
  {
    hide Used, GetWord;
    var p := Slot(sb, s, s.inum, MAXFILE);
    assert p != 0 ==> p in owner;
    assert Slot(sb, s, s.inum, bn) in owner;
  }

  /** Reading inside the file `s` knows, on such a disk. */
  lemma {:induction false} ReadElsewhere(sb: Super, s: State, owner: map<nat, Owner>, t: State, c: seq<byte>, off: nat, n: nat)
    requires Typed(sb, s) && FsInv(sb, s, owner) && SizeOf(sb, s, s.inum) <= MAXBYTES && SameData(sb, s, t)
    requires c == Contents(sb, s, s.inum) && |c| == s.size && off + n <= |c|
    ensures ReadLoop(sb, t, off, n) == Read(t, Slice(c, off, n))
    decreases n
  {
    hide FsInv, Bmap, Contents, Chunk, Piece, SizeOf, ReadLoop;
    if n == 0 {
      ReadLoopEnd(sb, t, off);
    } else {
      hide Slice, Typed;
      var m := Chunk(off, n);
      ReadChunkElsewhere(sb, s, owner, t, off, m);
      ReadElsewhere(sb, s, owner, t, c, off + m, n - m);
      SliceSplit(c, off, m, n);
      ReadLoopStep(sb, t, off, n, m, Bmap(sb, t, off / BSIZE).block, Slice(c, off + m, n - m));
    }
  }

  lemma ReadChunkElsewhere(sb: Super, s: State, owner: map<nat, Owner>, t: State, off: nat, m: nat)
    requires FsInv(sb, s, owner) && off + m <= s.size && off % BSIZE + m <= BSIZE && m > 0 && SameData(sb, s, t)
    ensures Bmap(sb, t, off / BSIZE).Ok? && Bmap(sb, t, off / BSIZE).state == t
    ensures Bmap(sb, t, off / BSIZE).block < sb.size
    ensures Piece(t.disk[Bmap(sb, t, off / BSIZE).block], off, m) == Slice(Contents(sb, s, s.inum), off, m)
  {
    hide Used, Slot, Bmap, InodeWord, Piece;
    assert SizeOf(sb, s, s.inum) == s.size;
    assert Dense(sb, s, s.inum, s.size);
    ReadChunk(sb, s, owner, off, m);
    BmapPresent(sb, s, owner, off / BSIZE);
    BmapElsewhere(sb, s, owner, t, off / BSIZE);
  }

  /** Reading back what was just written returns it. */
  lemma ReadAfterWrite(sb: Super, s: State, owner: map<nat, Owner>, off: word, src: seq<byte>)
    requires FsInv(sb, s, owner) && !IsDevice(s) && |src| < 0x1_0000_0000
    requires Writei(sb, s, off, src).Wrote? && !IsDevice(Writei(sb, s, off, src).state)
    ensures var t := Writei(sb, s, off, src).state;
            Readi(sb, t, off, |src|) == Read(t, src)
  {
    hide Slot, Used, FileBlock, InodeWord, ByteAt, WriteLoop, Iupdate;
    var owner' := WriteiRefinesBytes(sb, s, owner, off, src);
    var t := Writei(sb, s, off, src).state;
    assert off <= SizeOf(sb, s, s.inum) && t.size == |Contents(sb, t, t.inum)|;
    hide OwnedBy, Readi, FsInv;
    ReadiRefinesBytes(sb, t, owner', off, |src|);
    var c := Contents(sb, t, t.inum);
    assert c[off..off + |src|] == src;
  }

  // ---------------------------------------------------------------- what the invariant says

  /** A bitmap bit is set exactly for metadata blocks and for blocks in a slot, and a block is in
      one slot only. */
  lemma OwnershipExact(sb: Super, s: State, owner: map<nat, Owner>)
    requires FsInv(sb, s, owner)
    ensures forall b :: 0 <= b < sb.size ==>
              (Used(sb, s.disk, b) <==>
                 b < sb.nmeta || exists i, k :: 0 <= i < sb.ninodes && 0 <= k <= MAXFILE && Slot(sb, s, i, k) == b)
    ensures forall i, k, j, l ::
              (0 <= i < sb.ninodes && 0 <= j < sb.ninodes && 0 <= k <= MAXFILE && 0 <= l <= MAXFILE
               && Slot(sb, s, i, k) == Slot(sb, s, j, l) != 0) ==> i == j && k == l
  {
    hide Slot, Used, AllDense, Synced;
    forall b | 0 <= b < sb.size
      ensures Used(sb, s.disk, b) <==>
                b < sb.nmeta || exists i, k :: 0 <= i < sb.ninodes && 0 <= k <= MAXFILE && Slot(sb, s, i, k) == b
    {
      if b in owner {
        assert owner[b].Of? && Slot(sb, s, owner[b].inum, owner[b].slot) == b;
      }
    }
  }

  // ---------------------------------------------------------------- room on the disk

  /** How many of the first `n` blocks the bitmap has free. */
  function FreeBelow(sb: Super, d: Disk, n: nat): (c: nat)
    requires Image(sb, d) && n <= sb.size
  {
    if n == 0 then 0 else FreeBelow(sb, d, n - 1) + if Used(sb, d, n - 1) then 0 else 1
  }

  function FreeBlocks(sb: Super, s: State): (c: nat)
    requires Typed(sb, s)
  {
    FreeBelow(sb, s.disk, sb.size)
  }

  /** How many file blocks from `lo` up to before `hi` the locked inode lacks. */
  function EmptySlots(sb: Super, s: State, lo: nat, hi: nat): (c: nat)
    requires Typed(sb, s) && lo <= hi <= MAXFILE
    decreases hi - lo
  {
    if lo == hi then 0 else (if Slot(sb, s, s.inum, lo) == 0 then 1 else 0) + EmptySlots(sb, s, lo + 1, hi)
  }

  /** The blocks that file blocks `lo` up to before `hi` need and do not have: their own, and the
      indirect block if one of them goes through it. */
  function Lacking(sb: Super, s: State, lo: nat, hi: nat): (c: nat)
    requires Typed(sb, s) && lo <= hi <= MAXFILE
  {
    EmptySlots(sb, s, lo, hi) + if lo < hi && hi > NDIRECT && Slot(sb, s, s.inum, MAXFILE) == 0 then 1 else 0
  }

  /** The blocks a write of `n` bytes at `off` needs and the file does not have. */
  function Missing(sb: Super, s: State, off: nat, n: nat): (c: nat)
    requires Typed(sb, s) && off + n <= MAXBYTES
  {
    if n == 0 then 0 else Lacking(sb, s, off / BSIZE, (off + n - 1) / BSIZE + 1)
  }

  lemma {:induction false} FreeBelowSame(sb: Super, d: Disk, e: Disk, n: nat)
    requires Image(sb, d) && Image(sb, e) && n <= sb.size
    requires forall c :: 0 <= c < sb.size ==> Used(sb, e, c) == Used(sb, d, c)
    ensures FreeBelow(sb, e, n) == FreeBelow(sb, d, n)
  {
    hide Used;
    if n > 0 { FreeBelowSame(sb, d, e, n - 1); }
  }

  lemma {:induction false} FreeBelowLess(sb: Super, d: Disk, e: Disk, b: nat, n: nat)
    requires Image(sb, d) && Image(sb, e) && n <= sb.size && b < sb.size && !Used(sb, d, b)
    requires forall c :: 0 <= c < sb.size ==> Used(sb, e, c) == (c == b || Used(sb, d, c))
    ensures FreeBelow(sb, e, n) == FreeBelow(sb, d, n) - if b < n then 1 else 0
  {
    hide Used;
    if n > 0 { FreeBelowLess(sb, d, e, b, n - 1); }
  }

  lemma {:induction false} NoneFree(sb: Super, d: Disk, n: nat)
    requires Image(sb, d) && n <= sb.size
    ensures FreeBelow(sb, d, n) == 0 <==> forall c :: 0 <= c < n ==> Used(sb, d, c)
  {
    hide Used;
    if n > 0 { NoneFree(sb, d, n - 1); }
  }

  /** `balloc` fails exactly on a full disk, and otherwise takes one block. */
  lemma BallocSpace(sb: Super, s: State, owner: map<nat, Owner>)
    requires OwnedBy(sb, s, owner)
    ensures Balloc(sb, s).Panic? <==> FreeBlocks(sb, s) == 0
    ensures Balloc(sb, s).Ok? ==> FreeBlocks(sb, Balloc(sb, s).state) == FreeBlocks(sb, s) - 1
  {
    hide Slot, Used, Claim;
    NoneFree(sb, s.disk, sb.size);
    var b := FirstFree(sb, s.disk, 0);
    if b < sb.size {
      ClaimKeeps(sb, s, owner, b);
      forall c | 0 <= c < sb.size
        ensures Used(sb, Claim(sb, s, b).disk, c) == (c == b || Used(sb, s.disk, c))
      {
        ClaimUsed(sb, s, b, c);
      }
      FreeBelowLess(sb, s.disk, Claim(sb, s, b).disk, b, sb.size);
    }
  }

  lemma DataWriteSpace(sb: Super, s: State, b: nat, data: Block)
    requires Typed(sb, s) && (b < sb.bmapstart || sb.nmeta <= b) && b < sb.size
    ensures FreeBlocks(sb, LogBlock(s, b, data)) == FreeBlocks(sb, s)
  {
    hide Used;
    forall c | 0 <= c < sb.size
      ensures Used(sb, LogBlock(s, b, data).disk, c) == Used(sb, s.disk, c)
    {
      UsedIgnoresData(sb, s.disk, b, data, c);
    }
    FreeBelowSame(sb, s.disk, LogBlock(s, b, data).disk, sb.size);
  }

  lemma DirectSpace(sb: Super, s: State, owner: map<nat, Owner>, k: nat)
    requires OwnedBy(sb, s, owner) && k <= NDIRECT
    ensures Direct(sb, s, k).Panic? <==> s.addrs[k] == 0 && FreeBlocks(sb, s) == 0
    ensures Direct(sb, s, k).Ok? ==>
              FreeBlocks(sb, Direct(sb, s, k).state) == FreeBlocks(sb, s) - if s.addrs[k] == 0 then 1 else 0
  {
    hide Slot, Used;
    BallocSpace(sb, s, owner);
  }

  lemma IndirectSpace(sb: Super, s: State, owner: map<nat, Owner>, p: nat, j: nat)
    requires OwnedBy(sb, s, owner) && sb.nmeta <= p < sb.size && j < NINDIRECT
    ensures Indirect(sb, s, p, j).Panic? <==> Entry(s, p, j) == 0 && FreeBlocks(sb, s) == 0
    ensures Indirect(sb, s, p, j).Ok? ==>
              FreeBlocks(sb, Indirect(sb, s, p, j).state) == FreeBlocks(sb, s) - if Entry(s, p, j) == 0 then 1 else 0
  {
    hide Slot, Used, FreeBlocks, GetWord, SetWord;
    BallocSpace(sb, s, owner);
    var a := Balloc(sb, s);
    if a.Ok? && Entry(s, p, j) == 0 {
      DataWriteSpace(sb, a.state, p, SetWord(a.state.disk[p], j, a.block));
    }
  }

  /** `bmap` fails exactly when fewer blocks are free than it has to allocate. */
  lemma BmapSpace(sb: Super, s: State, owner: map<nat, Owner>, bn: nat)
    requires OwnedBy(sb, s, owner) && s.released == 0 && bn < MAXFILE
    ensures Bmap(sb, s, bn).Panic? <==> FreeBlocks(sb, s) < Lacking(sb, s, bn, bn + 1)
    ensures Bmap(sb, s, bn).Ok? ==>
              FreeBlocks(sb, Bmap(sb, s, bn).state) == FreeBlocks(sb, s) - Lacking(sb, s, bn, bn + 1)
  {
    hide Used, FreeBlocks, GetWord, Direct, Indirect;
    assert EmptySlots(sb, s, bn + 1, bn + 1) == 0;
    if bn < NDIRECT {
      DirectSpace(sb, s, owner, bn);
    } else {
      PointerSpace(sb, s, owner, bn);
    }
  }

  lemma PointerSpace(sb: Super, s: State, owner: map<nat, Owner>, bn: nat)
    requires OwnedBy(sb, s, owner) && s.released == 0 && NDIRECT <= bn < MAXFILE
    ensures Slot(sb, s, s.inum, MAXFILE) == s.addrs[NDIRECT]
    ensures var need := (if s.addrs[NDIRECT] == 0 then 1 else 0) + if Slot(sb, s, s.inum, bn) == 0 then 1 else 0;
            && (Bmap(sb, s, bn).Panic? <==> FreeBlocks(sb, s) < need)
            && (Bmap(sb, s, bn).Ok? ==> FreeBlocks(sb, Bmap(sb, s, bn).state) == FreeBlocks(sb, s) - need)
  {
    hide Used, FreeBlocks, GetWord, Indirect;
    PointerIsAddr(sb, s);
    DirectSpace(sb, s, owner, NDIRECT);
    var p := Direct(sb, s, NDIRECT);
    if p.Ok? {
      var mid := DirectKeeps(sb, s, owner, NDIRECT);
      PointerEntry(sb, s, mid, bn);
      hide Slot;
      IndirectSpace(sb, p.state, mid, p.block, bn - NDIRECT);
    }
  }

  /** The entry found through the indirect block, new or old, is the slot as it was before. */
  lemma PointerEntry(sb: Super, s: State, mid: map<nat, Owner>, bn: nat)
    requires Typed(sb, s) && s.released == 0 && NDIRECT <= bn < MAXFILE && Direct(sb, s, NDIRECT).Ok?
    requires MapKeeps(sb, s, Direct(sb, s, NDIRECT), mid, MAXFILE) && Direct(sb, s, NDIRECT).block != 0
    ensures var p := Direct(sb, s, NDIRECT);
            sb.nmeta <= p.block < sb.size && Entry(p.state, p.block, bn - NDIRECT) == Slot(sb, s, s.inum, bn)
  {
    hide Used, GetWord, SameFiles, SameInodes, Direct;
    var p := Direct(sb, s, NDIRECT);
    PointerIsAddr(sb, p.state);
    assert Slot(sb, p.state, s.inum, MAXFILE) == p.block;
    assert Slot(sb, p.state, s.inum, bn) == Slot(sb, s, s.inum, bn);
  }

  lemma ChunkSpace(sb: Super, s: State, owner: map<nat, Owner>, off: nat, src: seq<byte>)
    requires OwnedBy(sb, s, owner) && s.released == 0 && off < MAXBYTES && |src| <= BSIZE - off % BSIZE
    ensures var c, need := WriteChunk(sb, s, off, src), Lacking(sb, s, off / BSIZE, off / BSIZE + 1);
            && (c.Panic? <==> FreeBlocks(sb, s) < need)
            && (c.Ok? ==> FreeBlocks(sb, c.state) == FreeBlocks(sb, s) - need)
  {
    hide Slot, Used, Bmap, Splice, FreeBlocks, Lacking;
    BmapSpace(sb, s, owner, off / BSIZE);
    var a := Bmap(sb, s, off / BSIZE);
    if a.Ok? {
      var o := BmapKeeps(sb, s, owner, off / BSIZE);
      DataWriteSpace(sb, a.state, a.block, Splice(a.state.disk[a.block], off % BSIZE, src));
    }
  }

  lemma {:induction false} EmptySlotsSame(sb: Super, s: State, t: State, lo: nat, hi: nat)
    requires Typed(sb, s) && Typed(sb, t) && t.inum == s.inum && lo <= hi <= MAXFILE
    requires forall k :: lo <= k < hi ==> Slot(sb, t, s.inum, k) == Slot(sb, s, s.inum, k)
    ensures EmptySlots(sb, t, lo, hi) == EmptySlots(sb, s, lo, hi)
    decreases hi - lo
  {
    hide Slot;
    if lo < hi { EmptySlotsSame(sb, s, t, lo + 1, hi); }
  }

  /** What is left to allocate after the first block of a range has been mapped. */
  lemma LackingStep(sb: Super, s: State, t: State, lo: nat, hi: nat)
    requires GrewAt(sb, s, t, lo) && lo < hi <= MAXFILE
    ensures Lacking(sb, s, lo, hi) == Lacking(sb, s, lo, lo + 1) + Lacking(sb, t, lo + 1, hi)
  {
    hide Slot;
    EmptySlotsSame(sb, s, t, lo + 1, hi);
    assert EmptySlots(sb, s, lo + 1, lo + 1) == 0;
    if lo < NDIRECT {
      assert Slot(sb, t, s.inum, MAXFILE) == Slot(sb, s, s.inum, MAXFILE);
    }
  }

  /** A chunk fills its block, so the rest of the write needs the rest of the missing blocks; when
      the chunk ends inside its block nothing is left. */
  lemma MissingStep(sb: Super, s: State, t: State, off: nat, n: nat)
    requires off + n <= MAXBYTES && n > 0 && GrewAt(sb, s, t, off / BSIZE) && Slot(sb, t, s.inum, off / BSIZE) != 0
    ensures var m := Chunk(off, n);
            Missing(sb, s, off, n) == Lacking(sb, s, off / BSIZE, off / BSIZE + 1) + Missing(sb, t, off + m, n - m)
  {
    hide Slot, Lacking;
    var m, lo, hi := Chunk(off, n), off / BSIZE, (off + n - 1) / BSIZE + 1;
    if m < n {
      assert (off + m) / BSIZE == lo + 1;
      LackingStep(sb, s, t, lo, hi);
    } else {
      assert hi == lo + 1;
    }
  }

  /** The copy loop runs out of blocks exactly when fewer are free than the write needs. */
  lemma {:induction false} WriteLoopSpace(sb: Super, s: State, owner: map<nat, Owner>, off: nat, src: seq<byte>)
    requires OwnedBy(sb, s, owner) && s.released == 0 && off + |src| <= MAXBYTES
    ensures WriteLoop(sb, s, off, src).Panic? <==> FreeBlocks(sb, s) < Missing(sb, s, off, |src|)
    ensures WriteLoop(sb, s, off, src).Ok? ==>
              FreeBlocks(sb, WriteLoop(sb, s, off, src).state) == FreeBlocks(sb, s) - Missing(sb, s, off, |src|)
    decreases |src|
  {
    hide Slot, Used, WriteChunk, FreeBlocks, Lacking;
    if src != [] {
      var m := Chunk(off, |src|);
      var c := WriteChunk(sb, s, off, src[..m]);
      ChunkSpace(sb, s, owner, off, src[..m]);
      if c.Ok? {
        var mid := WriteChunkKeeps(sb, s, owner, off, src[..m]);
        ChunkInode(sb, s, c.state, mid, off, src[..m]);
        MissingStep(sb, s, c.state, off, |src|);
        hide Missing, GrewAt, OwnedBy, ChunkKeeps;
        WriteLoopSpace(sb, c.state, mid, off + m, src[m..]);
      } else {
        MissingAtLeast(sb, s, off, |src|);
      }
    }
  }

  lemma MissingAtLeast(sb: Super, s: State, off: nat, n: nat)
    requires Typed(sb, s) && off + n <= MAXBYTES && n > 0
    ensures Missing(sb, s, off, n) >= Lacking(sb, s, off / BSIZE, off / BSIZE + 1)
  {
    hide Slot;
    assert EmptySlots(sb, s, off / BSIZE + 1, off / BSIZE + 1) == 0;
  }

  /** The blocks a file of `size` bytes takes, the indirect block among them. */
  function BlocksFor(size: nat): (c: nat)
  {
    (size + BSIZE - 1) / BSIZE + if size > NDIRECT * BSIZE then 1 else 0
  }

  /** What a file has to grow by to reach `end`. */
  function Growth(size: nat, end: nat): (c: nat)
  {
    if end > size then BlocksFor(end) - BlocksFor(size) else 0
  }

  lemma {:induction false} EmptyAboveSize(sb: Super, s: State, size: nat, lo: nat, hi: nat)
    requires Dense(sb, s, s.inum, size) && lo <= hi <= MAXFILE
    ensures var have := (size + BSIZE - 1) / BSIZE;
            EmptySlots(sb, s, lo, hi) == if hi <= have then 0 else hi - Furthest(lo, have)
    decreases hi - lo
  {
    hide Slot;
    if lo < hi { EmptyAboveSize(sb, s, size, lo + 1, hi); }
  }

  /** In a file without holes the missing blocks are those its new size takes more than its old. */
  lemma MissingIsGrowth(sb: Super, s: State, size: nat, off: nat, n: nat)
    requires Dense(sb, s, s.inum, size) && off <= size && off + n <= MAXBYTES
    ensures Missing(sb, s, off, n) == Growth(size, off + n)
  {
    if n > 0 {
      var lo, hi := off / BSIZE, (off + n - 1) / BSIZE + 1;
      assert hi == (off + n + BSIZE - 1) / BSIZE;
      EmptyAboveSize(sb, s, size, lo, hi);
      hide Slot, EmptySlots;
      assert hi > NDIRECT <==> off + n > NDIRECT * BSIZE;
    }
  }

  /** `writei` stops the kernel exactly when it is not refused and fewer blocks are free than it
      needs; otherwise it takes just those. It needs what the new size of the file takes more than
      the old one, so nothing inside the file. */
  lemma WriteHaltsExactly(sb: Super, s: State, owner: map<nat, Owner>, off: word, src: seq<byte>)
    requires FsInv(sb, s, owner) && !IsDevice(s) && off <= s.size && off + |src| <= MAXBYTES
    ensures Writei(sb, s, off, src).Halted? <==> FreeBlocks(sb, s) < Missing(sb, s, off, |src|)
    ensures Writei(sb, s, off, src).Wrote? ==>
              FreeBlocks(sb, Writei(sb, s, off, src).state) == FreeBlocks(sb, s) - Missing(sb, s, off, |src|)
    ensures Missing(sb, s, off, |src|) == Growth(s.size, off + |src|)
  {
    hide Slot, Used, InodeWord, WriteLoop, FreeBlocks, Missing, Dense;
    assert SizeOf(sb, s, s.inum) == s.size;
    WriteLoopSpace(sb, s, owner, off, src);
    var w := WriteLoop(sb, s, off, src);
    if w.Ok? && |src| > 0 && off + |src| > s.size {
      IupdateSpace(sb, w.state.(size := off + |src|));
      ResizeSpace(sb, w.state, off + |src|);
    }
    MissingIsGrowth(sb, s, s.size, off, |src|);
  }

  lemma IupdateSpace(sb: Super, s: State)
    requires Typed(sb, s)
    ensures FreeBlocks(sb, Iupdate(sb, s)) == FreeBlocks(sb, s)
  {
    hide PutWords, Used, FreeBlocks;
    assert InodeBlock(sb, s.inum) < sb.bmapstart;
    DataWriteSpace(sb, s, InodeBlock(sb, s.inum), PutInode(sb, s.disk, s.inum, InodeWords(s))[InodeBlock(sb, s.inum)]);
  }

  lemma ResizeSpace(sb: Super, s: State, n: word)
    requires Typed(sb, s)
    ensures FreeBlocks(sb, s.(size := n)) == FreeBlocks(sb, s)
  {
  }

  // ---------------------------------------------------------------- a formatted image

  /** All blocks zero, and the bitmap bits of the first `n` set, one after another. */
  function Format(sb: Super, n: nat): (d: Disk)
    requires ValidSuper(sb) && n <= sb.size
    ensures |d| == sb.size
  {
    if n == 0 then seq(sb.size, _ => ZeroBlock()) else MarkUsed(sb, Format(sb, n - 1), n - 1, true)
  }

  lemma NoBits(k: nat)
    ensures !BitOf(0, k)
  {
  }

  lemma {:induction false} FormatUsed(sb: Super, n: nat, c: nat)
    requires ValidSuper(sb) && n <= sb.size && c < sb.size
    ensures Used(sb, Format(sb, n), c) <==> c < n
  {
    if n == 0 {
      NoBits(c % BPB % 8);
    } else {
      FormatUsed(sb, n - 1, c);
      UsedAfterMark(sb, Format(sb, n - 1), n - 1, true, c);
    }
  }

  lemma {:induction false} FormatKeepsZero(sb: Super, n: nat, b: nat)
    requires ValidSuper(sb) && n <= sb.size && b < sb.bmapstart
    ensures Format(sb, n)[b] == ZeroBlock()
  {
    if n > 0 { FormatKeepsZero(sb, n - 1, b); }
  }

  /** The invariant holds of an image with empty inodes and exactly the metadata marked. */
  lemma FormattedIsSound(sb: Super, inum: nat)
    requires ValidSuper(sb) && inum < sb.ninodes
    ensures FsInv(sb, State(Format(sb, sb.nmeta), inum, [0, 0], 0, seq(NDIRECT + 1, _ => 0), 0, {}), map[])
  {
    var s := State(Format(sb, sb.nmeta), inum, [0, 0], 0, seq(NDIRECT + 1, _ => 0), 0, {});
    forall c | 0 <= c < sb.size
      ensures Used(sb, s.disk, c) <==> c < sb.nmeta
    {
      FormatUsed(sb, sb.nmeta, c);
    }
    forall i, w | 0 <= i < sb.ninodes && 0 <= w < DINODEWORDS
      ensures InodeWord(sb, s.disk, i, w) == 0
    {
      FormatKeepsZero(sb, sb.nmeta, InodeBlock(sb, i));
      ZeroWords(i % IPB * DINODEWORDS + w);
    }
    hide Used, GetWord, InodeWord, Format;
    forall i, k | 0 <= i < sb.ninodes && 0 <= k <= MAXFILE
      ensures Slot(sb, s, i, k) == 0
    {
    }
    hide Slot;
  }
}

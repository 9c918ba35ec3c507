/** `mkfs`: building the first image. It hands out blocks in order and writes the bitmap last; the
    image it leaves is the one the kernel's own writes would have made. */
module Mkfs {
  import opened Blocks
  import opened FsLayout
  import opened FsBlocks
  import opened FsFiles
  import opened FsLog
  import opened LogRecovery
  import FileWrite
  import LogRuns

  const ROOTINO: nat := 1
  const T_DIR: word := 1
  const T_FILE: word := 2

  // ---------------------------------------------------------------- the program

  /** The image so far and the first block not handed out. */
  datatype Kit = Kit(disk: Disk, free: nat)

  /** `Aborted`: an assertion failed, or the blocks or inodes ran out. */
  datatype Spot = NoSpot | Spot(kit: Kit, addrs: seq<word>, block: nat)
  datatype Made = Aborted | Made(kit: Kit)

  predicate Addrs(sb: Super, k: Kit, addrs: seq<word>)
  {
    Image(sb, k.disk) && |addrs| == NDIRECT + 1
  }

  function DirectSpot(sb: Super, k: Kit, addrs: seq<word>, n: nat): (r: Spot)
    requires Addrs(sb, k, addrs) && n <= NDIRECT
    ensures r.Spot? ==> Addrs(sb, r.kit, r.addrs)
  {
    if addrs[n] != 0 then Spot(k, addrs, addrs[n])
    else if k.free >= sb.size then NoSpot
    else Spot(Kit(k.disk, k.free + 1), addrs[n := k.free], k.free)
  }

  /** The disk block of file block `fbn`, handed out if there is none yet. */
  function FindSpot(sb: Super, k: Kit, addrs: seq<word>, fbn: nat): (r: Spot)
    requires Addrs(sb, k, addrs)
    ensures r.Spot? ==> Addrs(sb, r.kit, r.addrs) && fbn < MAXFILE
  {
    if fbn < NDIRECT then DirectSpot(sb, k, addrs, fbn)
    else if fbn < MAXFILE then
      var p := DirectSpot(sb, k, addrs, NDIRECT);
      if p.NoSpot? || p.block >= sb.size then NoSpot
      else
        var j, d, free := fbn - NDIRECT, p.kit.disk, p.kit.free;
        if GetWord(d[p.block], j) != 0 then Spot(p.kit, p.addrs, GetWord(d[p.block], j))
        else if free >= sb.size then NoSpot
        else Spot(Kit(d[p.block := SetWord(d[p.block], j, free)], free + 1), p.addrs, free)
    else NoSpot
  }

  /** The copy loop of `iappend`. */
  function AppendLoop(sb: Super, k: Kit, addrs: seq<word>, off: nat, src: seq<byte>): (r: Spot)
    requires Addrs(sb, k, addrs)
    ensures r.Spot? ==> Addrs(sb, r.kit, r.addrs) && (src != [] ==> off + |src| <= MAXBYTES)
    decreases |src|
  {
    if src == [] then Spot(k, addrs, 0)
    else
      var m := Chunk(off, |src|);
      var x := FindSpot(sb, k, addrs, off / BSIZE);
      if x.NoSpot? || x.block >= sb.size then NoSpot
      else
        var d := x.kit.disk;
        AppendLoop(sb, Kit(d[x.block := Splice(d[x.block], off % BSIZE, src[..m])], x.kit.free), x.addrs,
                   off + m, src[m..])
  }

  function Iappend(sb: Super, k: Kit, inum: nat, src: seq<byte>): (r: Made)
    requires Image(sb, k.disk) && inum < sb.ninodes
    ensures r.Made? ==> Image(sb, r.kit.disk)
  {
    var s := Lock(sb, k.disk, inum);
    var r := AppendLoop(sb, k, s.addrs, s.size, src);
    if r.NoSpot? then Aborted
    else Made(Kit(PutInode(sb, r.kit.disk, inum, s.head + [s.size + |src|] + r.addrs), r.kit.free))
  }

  /** `ialloc`: a new inode with one link and nothing in it. */
  function Ialloc(sb: Super, k: Kit, inum: nat, kind: word): (r: Kit)
    requires Image(sb, k.disk) && inum < sb.ninodes
    ensures Image(sb, r.disk) && r.free == k.free
  {
    Kit(PutInode(sb, k.disk, inum, [kind, 0x1_0000, 0] + seq(NDIRECT + 1, _ => 0)), k.free)
  }

  /** The bytes of one file, a block at a time. */
  function Fill(sb: Super, k: Kit, inum: nat, data: seq<byte>): (r: Made)
    requires Image(sb, k.disk) && inum < sb.ninodes
    ensures r.Made? ==> Image(sb, r.kit.disk)
    decreases |data|
  {
    if data == [] then Made(k)
    else
      var n := Min(|data|, BSIZE);
      var r := Iappend(sb, k, inum, data[..n]);
      if r.Aborted? then Aborted else Fill(sb, r.kit, inum, data[n..])
  }

  /** A file of the command line: its directory entry and its bytes. */
  datatype File = File(entry: seq<byte>, data: seq<byte>)

  function AddFile(sb: Super, k: Kit, inum: nat, f: File): (r: Made)
    requires Image(sb, k.disk) && ROOTINO < sb.ninodes
    ensures r.Made? ==> Image(sb, r.kit.disk)
  {
    if inum >= sb.ninodes then Aborted
    else
      var r := Iappend(sb, Ialloc(sb, k, inum, T_FILE), ROOTINO, f.entry);
      if r.Aborted? then Aborted else Fill(sb, r.kit, inum, f.data)
  }

  function AddFiles(sb: Super, k: Kit, files: seq<File>): (r: Made)
    requires Image(sb, k.disk) && ROOTINO < sb.ninodes
    ensures r.Made? ==> Image(sb, r.kit.disk)
  {
    if files == [] then Made(k)
    else
      var n := |files| - 1;
      var r := AddFiles(sb, k, files[..n]);
      if r.Aborted? then Aborted else AddFile(sb, r.kit, ROOTINO + 1 + n, files[n])
  }

  /** The root directory, with its entries for itself and its parent. */
  function Root(sb: Super, super: Block, dot: seq<byte>, dotdot: seq<byte>): (r: Made)
    requires ValidSuper(sb) && ROOTINO < sb.ninodes && 2 <= sb.inodestart
    ensures r.Made? ==> Image(sb, r.kit.disk)
  {
    var r := Iappend(sb, Ialloc(sb, Zeroed(sb, super), ROOTINO, T_DIR), ROOTINO, dot);
    if r.Aborted? then Aborted else Iappend(sb, r.kit, ROOTINO, dotdot)
  }

  function Zeroed(sb: Super, super: Block): (k: Kit)
    requires ValidSuper(sb) && 2 <= sb.inodestart
    ensures Image(sb, k.disk)
  {
    Kit(seq(sb.size, _ => ZeroBlock())[1 := super], sb.nmeta)
  }

  /** The last steps: round the size of the root directory up, and write the bitmap. */
  function RoundUp(n: nat): (m: nat)
  {
    (n / BSIZE + 1) * BSIZE
  }

  function FixRoot(sb: Super, k: Kit): (r: Kit)
    requires Image(sb, k.disk) && ROOTINO < sb.ninodes && Lock(sb, k.disk, ROOTINO).size <= MAXBYTES
    ensures Image(sb, r.disk) && r.free == k.free
  {
    var s := Lock(sb, k.disk, ROOTINO);
    Kit(PutInode(sb, k.disk, ROOTINO, s.head + [RoundUp(s.size)] + s.addrs), k.free)
  }

  /** The loop in place. */
  method IappendLoop(sb: Super, kit: Kit, map0: seq<word>, start: nat, src: seq<byte>) returns (r: Spot)
    requires Addrs(sb, kit, map0)
    ensures r == AppendLoop(sb, kit, map0, start, src)
  {
    hide FindSpot, Splice;
    var k, addrs := kit, map0;
    var off: nat, n: nat := start, 0;
    while n < |src|
      invariant n <= |src| && Addrs(sb, k, addrs)
      invariant AppendLoop(sb, kit, map0, start, src) == AppendLoop(sb, k, addrs, off, src[n..])
    {
      ghost var rest := src[n..];
      var m := Chunk(off, |src| - n);
      var x := FindSpot(sb, k, addrs, off / BSIZE);
      if x.NoSpot? || x.block >= sb.size {
        return NoSpot;
      }
      var d := x.kit.disk;
      assert rest[..m] == src[n..n + m] && rest[m..] == src[n + m..];
      k := Kit(d[x.block := Splice(d[x.block], off % BSIZE, src[n..n + m])], x.kit.free);
      addrs, off, n := x.addrs, off + m, n + m;
    }
    r := Spot(k, addrs, 0);
  }

  // ---------------------------------------------------------------- the bitmap

  /** A bitmap block with the first `n` bits set. */
  function BitsBlock(n: nat): (b: Block)
    requires n <= BPB
  {
    if n == 0 then ZeroBlock() else PutBlockBit(BitsBlock(n - 1), n - 1, true)
  }

  /** `balloc`: the image with the bitmap of the first `n` blocks. */
  function Marked(sb: Super, d: Disk, n: nat): (r: Disk)
    requires Image(sb, d) && n <= BPB
    ensures Image(sb, r)
  {
    d[sb.bmapstart := BitsBlock(n)]
  }

  lemma {:induction false} BitsAre(n: nat, c: nat)
    requires n <= BPB && c < BPB
    ensures BlockBit(BitsBlock(n), c) <==> c < n
  {
    hide PutBlockBit;
    if n == 0 {
      NoBits(c % 8);
    } else {
      BitsAre(n - 1, c);
      hide BlockBit;
      BlockBitAfterPut(BitsBlock(n - 1), n - 1, true, c);
    }
  }

  lemma MarkedUsed(sb: Super, d: Disk, n: nat, c: nat)
    requires Image(sb, d) && sb.size <= BPB && n <= BPB && c < sb.size
    ensures Used(sb, Marked(sb, d, n), c) <==> c < n
  {
    hide BlockBit, BitsBlock;
    if c < BPB {
      assert c / BPB == 0 && c % BPB == c;
      BitsAre(n, c);
    }
  }

  // ---------------------------------------------------------------- it does what the kernel would do

  /** The kernel's view `s` of the same image: the bitmap marks the blocks handed out. */
  ghost predicate Shows(sb: Super, k: Kit, addrs: seq<word>, s: State)
  {
    && Image(sb, k.disk) && sb.size <= BPB && sb.nmeta <= k.free <= sb.size
    && Typed(sb, s) && s.disk == Marked(sb, k.disk, k.free) && s.addrs == addrs
    && forall b :: k.free <= b < sb.size ==> k.disk[b] == ZeroBlock()
  }

  lemma BallocShows(sb: Super, k: Kit, addrs: seq<word>, s: State)
    requires Shows(sb, k, addrs, s)
    ensures Balloc(sb, s).Panic? <==> k.free == sb.size
    ensures Balloc(sb, s).Ok? ==>
              && Balloc(sb, s).block == k.free && Shows(sb, Kit(k.disk, k.free + 1), addrs, Balloc(sb, s).state)
  {
    var b := FirstFree(sb, s.disk, 0);
    if b < sb.size { MarkedUsed(sb, k.disk, k.free, b); }
    if k.free < sb.size { MarkedUsed(sb, k.disk, k.free, k.free); }
    if b > 0 { MarkedUsed(sb, k.disk, k.free, b - 1); }
    assert b == k.free;
    if b < sb.size {
      hide Used, BlockBit, PutBlockBit;
      assert BitsBlock(b + 1) == PutBlockBit(BitsBlock(b), b, true);
      assert b / BPB == 0 && b % BPB == b by { assert b < BPB; }
      assert Claim(sb, s, b).disk == Marked(sb, k.disk, b + 1);
    }
  }

  lemma DirectShows(sb: Super, k: Kit, addrs: seq<word>, s: State, n: nat)
    requires Shows(sb, k, addrs, s) && n <= NDIRECT
    ensures DirectSpot(sb, k, addrs, n).NoSpot? <==> Direct(sb, s, n).Panic?
    ensures var x, y := DirectSpot(sb, k, addrs, n), Direct(sb, s, n);
            y.Ok? ==> x.block == y.block && Shows(sb, x.kit, x.addrs, y.state)
  {
    hide Balloc, Marked;
    if addrs[n] == 0 { BallocShows(sb, k, addrs, s); }
  }

  /** A write to a data block that has been handed out. */
  lemma WriteShows(sb: Super, k: Kit, addrs: seq<word>, s: State, b: nat, data: Block)
    requires Shows(sb, k, addrs, s) && sb.nmeta <= b < k.free
    ensures s.disk[b] == k.disk[b] && Shows(sb, Kit(k.disk[b := data], k.free), addrs, LogBlock(s, b, data))
  {
    hide BitsBlock;
  }

  lemma OwnedHandedOut(sb: Super, k: Kit, addrs: seq<word>, s: State, owner: map<nat, Owner>, b: nat)
    requires Shows(sb, k, addrs, s) && OwnedBy(sb, s, owner) && b in owner
    ensures sb.nmeta <= b < k.free
  {
    hide Slot, Used;
    MarkedUsed(sb, k.disk, k.free, b);
  }

  lemma SpotShows(sb: Super, k: Kit, addrs: seq<word>, s: State, owner: map<nat, Owner>, fbn: nat)
    requires Shows(sb, k, addrs, s) && OwnedBy(sb, s, owner) && s.released == 0 && fbn < MAXFILE
    ensures FindSpot(sb, k, addrs, fbn).NoSpot? <==> Bmap(sb, s, fbn).Panic?
    ensures var x, y := FindSpot(sb, k, addrs, fbn), Bmap(sb, s, fbn);
            y.Ok? ==> x.block == y.block && Shows(sb, x.kit, x.addrs, y.state)
  {
    hide Marked, OwnedBy, Direct, DirectSpot, GetWord, SetWord, Balloc, Slot, BitsBlock;
    if fbn < NDIRECT {
      DirectShows(sb, k, addrs, s, fbn);
    } else {
      DirectShows(sb, k, addrs, s, NDIRECT);
      var x, y, j := DirectSpot(sb, k, addrs, NDIRECT), Direct(sb, s, NDIRECT), fbn - NDIRECT;
      if y.Ok? {
        var mid := DirectKeeps(sb, s, owner, NDIRECT);
        PointerOwned(sb, s, y, mid);
        OwnedHandedOut(sb, x.kit, x.addrs, y.state, mid, y.block);
        WriteShows(sb, x.kit, x.addrs, y.state, y.block, y.state.disk[y.block]);
        if GetWord(x.kit.disk[y.block], j) == 0 { EntryShows(sb, x.kit, x.addrs, y.state, y.block, j); }
      }
    }
  }

  lemma PointerOwned(sb: Super, s: State, y: Result, mid: map<nat, Owner>)
    requires Typed(sb, s) && y.Ok? && MapKeeps(sb, s, y, mid, MAXFILE) && y.block != 0
    ensures OwnedBy(sb, y.state, mid) && y.block in mid
  {
  }

  lemma EntryShows(sb: Super, k: Kit, addrs: seq<word>, s: State, p: nat, j: nat)
    requires Shows(sb, k, addrs, s) && sb.nmeta <= p < k.free && j < NINDIRECT && GetWord(k.disk[p], j) == 0
    ensures Indirect(sb, s, p, j).Panic? <==> k.free == sb.size
    ensures k.free < sb.size ==>
              && Indirect(sb, s, p, j).block == k.free
              && Shows(sb, Kit(k.disk[p := SetWord(k.disk[p], j, k.free)], k.free + 1), addrs, Indirect(sb, s, p, j).state)
  {
    hide GetWord, SetWord, Balloc, BitsBlock;
    BallocShows(sb, k, addrs, s);
    if k.free < sb.size {
      var t := Balloc(sb, s).state;
      WriteShows(sb, Kit(k.disk, k.free + 1), addrs, t, p, SetWord(k.disk[p], j, k.free));
    }
  }

  /** One trip of the loop, after finding the block. */
  function PutChunk(x: Spot, off: nat, src: seq<byte>): (k: Kit)
    requires x.Spot? && x.block < |x.kit.disk| && |src| <= BSIZE - off % BSIZE
  {
    Kit(x.kit.disk[x.block := Splice(x.kit.disk[x.block], off % BSIZE, src)], x.kit.free)
  }

  lemma ChunkShows(sb: Super, k: Kit, addrs: seq<word>, s: State, owner: map<nat, Owner>, off: nat, src: seq<byte>)
    requires Shows(sb, k, addrs, s) && OwnedBy(sb, s, owner) && s.released == 0
    requires off < MAXBYTES && |src| <= BSIZE - off % BSIZE
    ensures var x, c := FindSpot(sb, k, addrs, off / BSIZE), WriteChunk(sb, s, off, src);
            && (x.NoSpot? || x.block >= sb.size <==> c.Panic?)
            && (c.Ok? ==> Shows(sb, PutChunk(x, off, src), x.addrs, c.state))
  {
    hide Marked, Bmap, FindSpot, Splice, Slot, Used, FileBlock;
    var x, y := FindSpot(sb, k, addrs, off / BSIZE), Bmap(sb, s, off / BSIZE);
    SpotShows(sb, k, addrs, s, owner, off / BSIZE);
    if y.Ok? {
      var mid := BmapKeeps(sb, s, owner, off / BSIZE);
      OwnedHandedOut(sb, x.kit, x.addrs, y.state, mid, y.block);
      WriteShows(sb, x.kit, x.addrs, y.state, y.block, Splice(y.state.disk[y.block], off % BSIZE, src));
    }
  }

  lemma {:induction false} LoopShows(sb: Super, k: Kit, addrs: seq<word>, s: State, owner: map<nat, Owner>, off: nat, src: seq<byte>)
    requires Shows(sb, k, addrs, s) && OwnedBy(sb, s, owner) && s.released == 0 && off + |src| <= MAXBYTES
    ensures AppendLoop(sb, k, addrs, off, src).NoSpot? <==> WriteLoop(sb, s, off, src).Panic?
    ensures var r, w := AppendLoop(sb, k, addrs, off, src), WriteLoop(sb, s, off, src);
            w.Ok? ==> Shows(sb, r.kit, r.addrs, w.state)
    decreases |src|
  {
    hide Marked, WriteChunk, FindSpot, Splice, Slot, Used, FileBlock, OwnedBy, BytesWritten, GrewAt;
    if src != [] {
      var m := Chunk(off, |src|);
      var x, c := FindSpot(sb, k, addrs, off / BSIZE), WriteChunk(sb, s, off, src[..m]);
      ChunkShows(sb, k, addrs, s, owner, off, src[..m]);
      if c.Ok? {
        var owner' := WriteChunkKeeps(sb, s, owner, off, src[..m]);
        LoopShows(sb, PutChunk(x, off, src[..m]), x.addrs, c.state, owner', off + m, src[m..]);
      }
    }
  }

  // ---------------------------------------------------------------- appending

  /** What the kernel would see of the image if the bitmap were written now. */
  function Seen(sb: Super, k: Kit): (d: Disk)
    requires Image(sb, k.disk) && k.free <= BPB
    ensures Image(sb, d)
  {
    Marked(sb, k.disk, k.free)
  }

  ghost predicate Blank(sb: Super, k: Kit, i: nat)
    requires Image(sb, k.disk) && i < sb.ninodes
  {
    forall w :: 0 <= w < DINODEWORDS ==> InodeWord(sb, k.disk, i, w) == 0
  }

  /** A sound image with nothing written past the blocks and inodes handed out. */
  ghost predicate Ready(sb: Super, k: Kit, next: nat)
  {
    && Image(sb, k.disk) && sb.size <= BPB && sb.nmeta <= k.free <= sb.size && Sound(sb, Seen(sb, k))
    && (forall b :: k.free <= b < sb.size ==> k.disk[b] == ZeroBlock())
    && (forall i :: next <= i < sb.ninodes ==> Blank(sb, k, i))
  }

  ghost predicate SameLow(sb: Super, k: Kit, k': Kit)
  {
    Image(sb, k.disk) && Image(sb, k'.disk) && forall b :: 0 <= b < sb.inodestart ==> k'.disk[b] == k.disk[b]
  }

  /** From `k` to `k'` file `i` became `c`, and nothing else changed. */
  ghost predicate Became(sb: Super, k: Kit, k': Kit, i: nat, c: seq<byte>)
  {
    && SameLow(sb, k, k') && k.free <= BPB && k'.free <= BPB && i < sb.ninodes
    && FilesOf(sb, Seen(sb, k')) == FilesOf(sb, Seen(sb, k))[i := c]
  }

  lemma LockMarked(sb: Super, d: Disk, n: nat, i: nat)
    requires Image(sb, d) && n <= BPB && i < sb.ninodes
    ensures var s, t := Lock(sb, d, i), Lock(sb, Marked(sb, d, n), i);
            t == s.(disk := Marked(sb, d, n)) && t.head == s.head && t.size == s.size && t.addrs == s.addrs
  {
    hide GetWord, BitsBlock;
    assert InodeBlock(sb, i) < sb.bmapstart;
    assert forall w :: 0 <= w < DINODEWORDS ==> InodeWord(sb, Marked(sb, d, n), i, w) == InodeWord(sb, d, i, w);
  }

  /** Writing an inode and writing the bitmap commute. */
  lemma PutMarked(sb: Super, k: Kit, s: State)
    requires Image(sb, k.disk) && k.free <= BPB && Typed(sb, s) && s.disk == Marked(sb, k.disk, k.free)
    ensures Iupdate(sb, s).disk == Marked(sb, PutInode(sb, k.disk, s.inum, InodeWords(s)), k.free)
  {
    hide BitsBlock, PutWords;
    assert InodeBlock(sb, s.inum) < sb.bmapstart;
  }

  lemma BlankAfterPut(sb: Super, k: Kit, k': Kit, d: Disk, inum: nat, ws: seq<word>, next: nat)
    requires Image(sb, k.disk) && Image(sb, d) && inum < sb.ninodes && |ws| == DINODEWORDS && inum < next
    requires forall b :: 0 <= b < sb.bmapstart ==> d[b] == k.disk[b]
    requires forall i :: next <= i < sb.ninodes ==> Blank(sb, k, i)
    requires k'.disk == PutInode(sb, d, inum, ws)
    ensures SameLow(sb, k, k') && forall i :: next <= i < sb.ninodes ==> Blank(sb, k', i)
  {
    hide GetWord, PutWords;
    forall i, w | next <= i < sb.ninodes && 0 <= w < DINODEWORDS
      ensures InodeWord(sb, k'.disk, i, w) == 0
    {
      InodeAfterPut(sb, d, inum, ws, i, w);
      assert Blank(sb, k, i) && InodeBlock(sb, i) < sb.bmapstart;
      assert InodeWord(sb, k.disk, i, w) == 0;
    }
  }

  /** Appending to a file, in the kernel's terms. */
  lemma AppendDone(sb: Super, s: State, owner: map<nat, Owner>, src: seq<byte>) returns (owner': map<nat, Owner>)
    requires FsInv(sb, s, owner) && src != [] && s.size + |src| <= MAXBYTES && WriteLoop(sb, s, s.size, src).Ok?
    ensures var w := WriteLoop(sb, s, s.size, src).state;
            var t := Iupdate(sb, w.(size := s.size + |src|));
            && FsInv(sb, t, owner') && w.inum == s.inum && w.head == s.head && SameInodes(sb, s, w)
            && Contents(sb, t, s.inum) == Contents(sb, s, s.inum) + src
            && forall i :: 0 <= i < sb.ninodes && i != s.inum ==> Contents(sb, t, i) == Contents(sb, s, i)
  {
    hide Slot, Used, FileBlock, InodeWord, Dense, WriteLoop, ByteAt, Iupdate, Synced;
    FileWrite.SizeIsLength(sb, s, owner);
    var w := WriteLoop(sb, s, s.size, src).state;
    var t := Iupdate(sb, w.(size := s.size + |src|));
    FileWrite.WriteLoopIdentity(sb, s, s.size, src);
    owner' := WriteLoopKeeps(sb, s, owner, s.size, src, s.size);
    FinishGrown(sb, s, w, owner', s.size, src);
    FileWrite.SizeIsLength(sb, t, owner');
    hide OwnedBy, BytesWritten;
    WrittenContents(sb, s, t, s.size, src);
    forall i | 0 <= i < sb.ninodes && i != s.inum
      ensures Contents(sb, t, i) == Contents(sb, s, i)
    {
      OtherContents(sb, s, t, i);
    }
  }

  lemma IappendKeeps(sb: Super, k: Kit, next: nat, inum: nat, src: seq<byte>)
    requires Ready(sb, k, next) && inum < next && inum < sb.ninodes && src != [] && Iappend(sb, k, inum, src).Made?
    ensures var k' := Iappend(sb, k, inum, src).kit;
            Ready(sb, k', next) && Became(sb, k, k', inum, FilesOf(sb, Seen(sb, k))[inum] + src)
  {
    hide FsInv, Contents, FileOf, WriteLoop, AppendLoop, PutWords, Lock, BitsBlock, InodeWord;
    var k' := Iappend(sb, k, inum, src).kit;
    var owner :| SoundWith(sb, Seen(sb, k), owner);
    var s := Lock(sb, Seen(sb, k), inum);
    LockMarked(sb, k.disk, k.free, inum);
    InvParts(sb, s, owner);
    var r := AppendLoop(sb, k, s.addrs, s.size, src);
    LoopShows(sb, k, s.addrs, s, owner, s.size, src);
    var owner' := AppendDone(sb, s, owner, src);
    var w := WriteLoop(sb, s, s.size, src).state;
    var u := w.(size := s.size + |src|);
    PutMarked(sb, r.kit, u);
    assert InodeWords(u) == s.head + [s.size + |src|] + r.addrs;
    SoundElsewhere(sb, s, owner, s.disk);
    SoundElsewhere(sb, Iupdate(sb, u), owner', Seen(sb, k'));
    forall b | 0 <= b < sb.bmapstart
      ensures r.kit.disk[b] == k.disk[b]
    {
      assert w.disk[b] == s.disk[b] && w.disk == Marked(sb, r.kit.disk, r.kit.free);
    }
    BlankAfterPut(sb, k, k', r.kit.disk, inum, InodeWords(u), next);
  }

  lemma InvParts(sb: Super, s: State, owner: map<nat, Owner>)
    requires FsInv(sb, s, owner)
    ensures Typed(sb, s) && OwnedBy(sb, s, owner) && s.released == 0 && Synced(sb, s)
  {
  }

  // ---------------------------------------------------------------- new inodes

  lemma HeadKeeps(sb: Super, s: State, owner: map<nat, Owner>, head: seq<word>)
    requires OwnedBy(sb, s, owner) && |head| == 2
    ensures OwnedBy(sb, s.(head := head), owner)
    ensures SameSlots(sb, s, s.(head := head)) && SameFiles(sb, s, s.(head := head))
  {
    var t := s.(head := head);
    assert forall i, k :: 0 <= i < sb.ninodes && 0 <= k <= MAXFILE ==> Slot(sb, t, i, k) == Slot(sb, s, i, k);
  }

  /** Giving an inode another type keeps every file. */
  lemma RetypeDone(sb: Super, s: State, owner: map<nat, Owner>, head: seq<word>)
    requires FsInv(sb, s, owner) && |head| == 2
    ensures var t := Iupdate(sb, s.(head := head));
            FsInv(sb, t, owner) && forall i :: 0 <= i < sb.ninodes ==> Contents(sb, t, i) == Contents(sb, s, i)
  {
    hide Slot, Used, FileBlock, InodeWord, Dense, Iupdate, Synced;
    var u := s.(head := head);
    var t := Iupdate(sb, u);
    HeadKeeps(sb, s, owner, head);
    IupdateKeeps(sb, u, owner);
    hide OwnedBy;
    IupdateReleased(sb, u);
    SameDense(sb, s, t);
    forall i | 0 <= i < sb.ninodes
      ensures Contents(sb, t, i) == Contents(sb, s, i)
    {
      SameContents(sb, s, t, i);
    }
  }

  lemma IupdateReleased(sb: Super, s: State)
    requires Typed(sb, s)
    ensures Iupdate(sb, s).released == s.released && Iupdate(sb, s).inum == s.inum
  {
  }

  lemma BlankLock(sb: Super, k: Kit, i: nat)
    requires Image(sb, k.disk) && i < sb.ninodes && Blank(sb, k, i)
    ensures Lock(sb, k.disk, i) == State(k.disk, i, [0, 0], 0, seq(NDIRECT + 1, _ => 0), 0, {})
  {
    hide InodeWord;
  }

  lemma IallocKeeps(sb: Super, k: Kit, inum: nat, kind: word)
    requires Ready(sb, k, inum) && inum < sb.ninodes
    ensures var k' := Ialloc(sb, k, inum, kind);
            Ready(sb, k', inum + 1) && Became(sb, k, k', inum, [])
  {
    hide FsInv, Contents, FileOf, PutWords, Lock, BitsBlock, InodeWord;
    var k' := Ialloc(sb, k, inum, kind);
    var owner :| SoundWith(sb, Seen(sb, k), owner);
    var s := Lock(sb, Seen(sb, k), inum);
    assert Blank(sb, k, inum);
    BlankLock(sb, k, inum);
    LockMarked(sb, k.disk, k.free, inum);
    InvParts(sb, s, owner);
    var u := s.(head := [kind, 0x1_0000]);
    assert InodeWords(u) == [kind, 0x1_0000, 0] + seq(NDIRECT + 1, _ => 0);
    PutMarked(sb, k, u);
    RetypeDone(sb, s, owner, [kind, 0x1_0000]);
    SoundElsewhere(sb, s, owner, s.disk);
    SoundElsewhere(sb, Iupdate(sb, u), owner, Seen(sb, k'));
    FileWrite.SizeIsLength(sb, s, owner);
    ContentsEmpty(sb, s, inum);
    BlankAfterPut(sb, k, k', k.disk, inum, InodeWords(u), inum + 1);
  }

  // ---------------------------------------------------------------- the whole program

  lemma {:induction false} FillKeeps(sb: Super, k: Kit, next: nat, inum: nat, data: seq<byte>)
    requires Ready(sb, k, next) && inum < next && inum < sb.ninodes && Fill(sb, k, inum, data).Made?
    ensures var k' := Fill(sb, k, inum, data).kit;
            Ready(sb, k', next) && Became(sb, k, k', inum, FilesOf(sb, Seen(sb, k))[inum] + data)
    decreases |data|
  {
    hide Ready, Iappend, FilesOf, Marked;
    ReadyShape(sb, k, next);
    var fs := FilesOf(sb, Seen(sb, k));
    if data == [] {
      assert fs[inum] + data == fs[inum] && fs[inum := fs[inum]] == fs;
    } else {
      var n := Min(|data|, BSIZE);
      var mid := Iappend(sb, k, inum, data[..n]).kit;
      IappendKeeps(sb, k, next, inum, data[..n]);
      FillKeeps(sb, mid, next, inum, data[n..]);
      assert fs[inum] + data[..n] + data[n..] == fs[inum] + data;
    }
  }

  lemma ReadyShape(sb: Super, k: Kit, next: nat)
    requires Ready(sb, k, next)
    ensures Image(sb, k.disk) && sb.nmeta <= k.free <= sb.size <= BPB && Sound(sb, Seen(sb, k))
  {
  }

  /** The files of the command line are in inodes 2, 3, ..., and the directory holds `dir`. */
  ghost predicate Holds(sb: Super, k: Kit, dir: seq<byte>, files: seq<File>)
  {
    && Ready(sb, k, ROOTINO + 1 + |files|) && ROOTINO + |files| < sb.ninodes
    && FilesOf(sb, Seen(sb, k))[ROOTINO] == dir
    && forall j :: 0 <= j < |files| ==> FilesOf(sb, Seen(sb, k))[ROOTINO + 1 + j] == files[j].data
  }

  function Entries(files: seq<File>): (s: seq<byte>)
  {
    if files == [] then [] else Entries(files[..|files| - 1]) + files[|files| - 1].entry
  }

  lemma AddFileKeeps(sb: Super, k: Kit, dir: seq<byte>, files: seq<File>, f: File)
    requires Holds(sb, k, dir, files) && f.entry != [] && AddFile(sb, k, ROOTINO + 1 + |files|, f).Made?
    ensures var k' := AddFile(sb, k, ROOTINO + 1 + |files|, f).kit;
            Holds(sb, k', dir + f.entry, files + [f]) && SameLow(sb, k, k')
  {
    hide Ready, Iappend, FilesOf, Marked, Fill, Ialloc;
    var inum := ROOTINO + 1 + |files|;
    ReadyShape(sb, k, inum);
    var a := Ialloc(sb, k, inum, T_FILE);
    IallocKeeps(sb, k, inum, T_FILE);
    ReadyShape(sb, a, inum + 1);
    var b := Iappend(sb, a, ROOTINO, f.entry).kit;
    IappendKeeps(sb, a, inum + 1, ROOTINO, f.entry);
    ReadyShape(sb, b, inum + 1);
    FillKeeps(sb, b, inum + 1, inum, f.data);
    assert [] + f.data == f.data;
  }

  lemma {:induction false} AddFilesKeeps(sb: Super, k: Kit, dir: seq<byte>, files: seq<File>)
    requires Holds(sb, k, dir, []) && AddFiles(sb, k, files).Made?
    requires forall j :: 0 <= j < |files| ==> |files[j].entry| == 16
    ensures var k' := AddFiles(sb, k, files).kit;
            Holds(sb, k', dir + Entries(files), files) && SameLow(sb, k, k')
    ensures |Entries(files)| == 16 * |files|
  {
    hide Holds, AddFile;
    HoldsShape(sb, k, dir, []);
    if files == [] {
      assert dir + Entries(files) == dir;
    } else {
      var n := |files| - 1;
      AddFilesKeeps(sb, k, dir, files[..n]);
      var mid := AddFiles(sb, k, files[..n]).kit;
      AddFileKeeps(sb, mid, dir + Entries(files[..n]), files[..n], files[n]);
      assert files[..n] + [files[n]] == files;
      assert dir + Entries(files[..n]) + files[n].entry == dir + Entries(files);
    }
  }

  lemma HoldsShape(sb: Super, k: Kit, dir: seq<byte>, files: seq<File>)
    requires Holds(sb, k, dir, files)
    ensures Image(sb, k.disk) && k.free <= BPB && ROOTINO < sb.ninodes
  {
  }

  // ---------------------------------------------------------------- the first and the last steps

  lemma {:induction false} FormatIsMarked(sb: Super, n: nat)
    requires ValidSuper(sb) && n <= sb.size <= BPB
    ensures Format(sb, n) == Marked(sb, seq(sb.size, _ => ZeroBlock()), n)
  {
    hide PutBlockBit;
    if n > 0 {
      FormatIsMarked(sb, n - 1);
      assert (n - 1) / BPB == 0 && (n - 1) % BPB == n - 1 by { assert n - 1 < BPB; }
    }
  }

  lemma ZeroedBlank(sb: Super, super: Block, i: nat)
    requires ValidSuper(sb) && 2 <= sb.inodestart && i < sb.ninodes
    ensures Blank(sb, Zeroed(sb, super), i)
  {
    hide GetWord;
    assert 2 <= InodeBlock(sb, i) < sb.bmapstart;
    forall w | 0 <= w < DINODEWORDS
      ensures InodeWord(sb, Zeroed(sb, super).disk, i, w) == 0
    {
      ZeroWords(i % IPB * DINODEWORDS + w);
    }
  }

  lemma ZeroedReady(sb: Super, super: Block)
    requires ValidSuper(sb) && sb.size <= BPB && 2 <= sb.inodestart && ROOTINO < sb.ninodes
    ensures Ready(sb, Zeroed(sb, super), ROOTINO)
  {
    hide BitsBlock, Blank, Format, FsInv, Sound;
    var k := Zeroed(sb, super);
    forall i | 0 <= i < sb.ninodes
      ensures Blank(sb, k, i)
    {
      ZeroedBlank(sb, super, i);
    }
    FormattedIsSound(sb, ROOTINO);
    FormatIsMarked(sb, sb.nmeta);
    SoundElsewhere(sb, EmptyRoot(sb), map[], Seen(sb, k));
  }

  /** The root inode of an image with empty inodes. */
  function EmptyRoot(sb: Super): (s: State)
    requires ValidSuper(sb)
  {
    State(Format(sb, sb.nmeta), ROOTINO, [0, 0], 0, seq(NDIRECT + 1, _ => 0), 0, {})
  }

  lemma RootHolds(sb: Super, super: Block, dot: seq<byte>, dotdot: seq<byte>)
    requires ValidSuper(sb) && sb.size <= BPB && 2 <= sb.inodestart && ROOTINO < sb.ninodes
    requires dot != [] && dotdot != [] && Root(sb, super, dot, dotdot).Made?
    ensures var k := Root(sb, super, dot, dotdot).kit;
            Holds(sb, k, dot + dotdot, []) && SameLow(sb, Zeroed(sb, super), k)
  {
    hide Ready, Iappend, FilesOf, Marked, Ialloc, Zeroed;
    var z := Zeroed(sb, super);
    ZeroedReady(sb, super);
    IallocKeeps(sb, z, ROOTINO, T_DIR);
    var a := Ialloc(sb, z, ROOTINO, T_DIR);
    IappendKeeps(sb, a, ROOTINO + 1, ROOTINO, dot);
    var b := Iappend(sb, a, ROOTINO, dot).kit;
    IappendKeeps(sb, b, ROOTINO + 1, ROOTINO, dotdot);
    assert [] + dot + dotdot == dot + dotdot;
  }

  /** Letting go of an inode that is the same on disk, and locking another. */
  lemma Relock(sb: Super, t: State, i: nat)
    requires Synced(sb, t) && t.released == 0 && i < sb.ninodes
    ensures SameSlots(sb, t, Lock(sb, t.disk, i)) && SameFiles(sb, t, Lock(sb, t.disk, i))
    ensures forall j :: 0 <= j < sb.ninodes ==> SizeOf(sb, Lock(sb, t.disk, i), j) == SizeOf(sb, t, j)
  {
    var s := Lock(sb, t.disk, i);
    LockSynced(sb, t.disk, i);
    hide InodeWord, GetWord, Synced;
    forall j, k | 0 <= j < sb.ninodes && 0 <= k <= NDIRECT
      ensures Addr(sb, s, j, k) == Addr(sb, t, j, k) && SizeOf(sb, s, j) == SizeOf(sb, t, j)
    {
      SyncedAddr(sb, s, j, k);
      SyncedAddr(sb, t, j, k);
    }
    hide Addr, SizeOf;
    forall j | 0 <= j < sb.ninodes
      ensures SizeOf(sb, s, j) == SizeOf(sb, t, j)
    {
      assert Addr(sb, s, j, 0) == Addr(sb, t, j, 0);
    }
    forall j, k | 0 <= j < sb.ninodes && 0 <= k <= MAXFILE
      ensures Slot(sb, s, j, k) == Slot(sb, t, j, k)
    {
    }
    hide Slot;
  }

  /** The directory with its size rounded up: dense exactly if it did not end at a block boundary. */
  lemma RoundedDense(sb: Super, s: State, t: State, n: nat)
    requires Dense(sb, s, s.inum, n) && n <= MAXBYTES && SameSlots(sb, s, t)
    ensures RoundUp(n) <= MAXBYTES && Dense(sb, t, s.inum, RoundUp(n)) <==> n % BSIZE != 0
  {
    hide Slot;
    if n % BSIZE == 0 && RoundUp(n) <= MAXBYTES {
      assert Slot(sb, t, s.inum, n / BSIZE) == 0 && n / BSIZE * BSIZE < RoundUp(n);
    } else if n % BSIZE != 0 {
      assert forall m :: 0 <= m <= MAXFILE ==> (m * BSIZE < n <==> m * BSIZE < RoundUp(n));
      assert Slot(sb, t, s.inum, MAXFILE) == Slot(sb, s, s.inum, MAXFILE);
    }
  }

  /** The root directory after its size has been rounded up. */
  ghost predicate Rounded(sb: Super, s: State, t: State, owner: map<nat, Owner>)
  {
    && OwnedBy(sb, t, owner) && Synced(sb, t) && t.released == 0 && t.inum == s.inum
    && SameSlots(sb, s, t) && SameFiles(sb, s, t)
    && forall i :: 0 <= i < sb.ninodes ==> SizeOf(sb, t, i) == if i == s.inum then RoundUp(s.size) else SizeOf(sb, s, i)
  }

  lemma RoundDone(sb: Super, s: State, owner: map<nat, Owner>)
    requires FsInv(sb, s, owner) && s.size <= MAXBYTES
    ensures Rounded(sb, s, Iupdate(sb, s.(size := RoundUp(s.size))), owner)
  {
    hide Slot, Used, FileBlock, InodeWord, Dense, Iupdate, Synced, RoundUp;
    RoundUpWord(s.size);
    var u := s.(size := RoundUp(s.size));
    ResizeKeeps(sb, s, owner, RoundUp(s.size));
    IupdateKeeps(sb, u, owner);
    IupdateReleased(sb, u);
  }

  lemma RoundUpWord(n: nat)
    requires n <= MAXBYTES
    ensures RoundUp(n) < 0x1_0000_0000
  {
  }

  lemma SoundOnlyIfDense(sb: Super, s: State, t: State, owner: map<nat, Owner>)
    requires FsInv(sb, s, owner) && Rounded(sb, s, t, owner) && s.size <= MAXBYTES
    ensures Sound(sb, t.disk) <==> s.size % BSIZE != 0
  {
    hide Slot, Used, FileBlock, InodeWord, Synced, RoundUp, Lock;
    assert Dense(sb, s, s.inum, s.size) by { assert SizeOf(sb, s, s.inum) == s.size; }
    RoundedDense(sb, s, t, s.size);
    if s.size % BSIZE != 0 {
      assert FsInv(sb, t, owner) by { OthersDense(sb, s, t); }
      SoundElsewhere(sb, t, owner, t.disk);
    } else if Sound(sb, t.disk) {
      SoundMeansDense(sb, s, t, owner);
    }
  }

  lemma SoundMeansDense(sb: Super, s: State, t: State, owner: map<nat, Owner>)
    requires Typed(sb, s) && Rounded(sb, s, t, owner) && Sound(sb, t.disk)
    ensures RoundUp(s.size) <= MAXBYTES && Dense(sb, t, s.inum, RoundUp(s.size))
  {
    hide Slot, Used, FileBlock, InodeWord, Synced, RoundUp, Lock, OwnedBy;
    var other :| SoundWith(sb, t.disk, other);
    var l := Lock(sb, t.disk, s.inum);
    Relock(sb, t, s.inum);
    assert FsInv(sb, l, other);
    assert SizeOf(sb, l, s.inum) == RoundUp(s.size) <= MAXBYTES && Dense(sb, l, s.inum, RoundUp(s.size));
  }

  lemma OthersDense(sb: Super, s: State, t: State)
    requires AllDense(sb, s) && SameSlots(sb, s, t) && t.inum == s.inum
    requires SizeOf(sb, t, s.inum) <= MAXBYTES && Dense(sb, t, s.inum, SizeOf(sb, t, s.inum))
    requires forall i :: 0 <= i < sb.ninodes && i != s.inum ==> SizeOf(sb, t, i) == SizeOf(sb, s, i)
    ensures AllDense(sb, t)
  {
    hide Slot, SizeOf;
    forall i | 0 <= i < sb.ninodes
      ensures SizeOf(sb, t, i) <= MAXBYTES && Dense(sb, t, i, SizeOf(sb, t, i))
    {
      if i != s.inum { assert Dense(sb, s, i, SizeOf(sb, s, i)); }
    }
  }

  lemma OtherFile(sb: Super, s: State, t: State, owner: map<nat, Owner>, i: nat)
    requires FsInv(sb, s, owner) && Rounded(sb, s, t, owner) && i < sb.ninodes && i != s.inum
    ensures SizeOf(sb, s, i) <= MAXBYTES && FileOf(sb, t.disk, i) == Contents(sb, s, i)
  {
    hide Slot, Used, FileBlock, InodeWord, Synced, RoundUp, OwnedBy, Dense;
    assert SizeOf(sb, s, i) <= MAXBYTES;
    Relock(sb, t, i);
    var l := Lock(sb, t.disk, i);
    assert l.size == SizeOf(sb, l, i);
    SameContents(sb, s, l, i);
  }

  lemma RootFile(sb: Super, s: State, t: State, owner: map<nat, Owner>)
    requires FsInv(sb, s, owner) && Rounded(sb, s, t, owner) && s.size <= RoundUp(s.size) <= MAXBYTES
    ensures var c := FileOf(sb, t.disk, s.inum); |c| == RoundUp(s.size) && c[..s.size] == Contents(sb, s, s.inum)
  {
    hide Slot, Used, FileBlock, InodeWord, Synced, RoundUp, OwnedBy, Dense;
    Relock(sb, t, s.inum);
    var l := Lock(sb, t.disk, s.inum);
    assert l.size == SizeOf(sb, l, s.inum);
    forall x | 0 <= x < s.size
      ensures ByteAt(sb, l, s.inum, x) == ByteAt(sb, s, s.inum, x)
    {
    }
  }

  /** The image the program leaves. */
  function MakeImage(sb: Super, super: Block, dot: seq<byte>, dotdot: seq<byte>, files: seq<File>): (r: Made)
    requires ValidSuper(sb) && ROOTINO < sb.ninodes && 2 <= sb.inodestart && sb.size < BPB
    ensures r.Made? ==> Image(sb, r.kit.disk)
  {
    var r := Root(sb, super, dot, dotdot);
    if r.Aborted? then Aborted
    else
      var a := AddFiles(sb, r.kit, files);
      if a.Aborted? || Lock(sb, a.kit.disk, ROOTINO).size > MAXBYTES || a.kit.free >= BPB then Aborted
      else Made(Kit(Seen(sb, FixRoot(sb, a.kit)), a.kit.free))
  }

  lemma FixRootExact(sb: Super, k: Kit, dir: seq<byte>, files: seq<File>)
    requires Holds(sb, k, dir, files)
    ensures Lock(sb, k.disk, ROOTINO).size == |dir| <= MAXBYTES
    ensures var d := Seen(sb, FixRoot(sb, k));
            && (Sound(sb, d) <==> |dir| % BSIZE != 0)
            && (forall j :: 0 <= j < |files| ==> FileOf(sb, d, ROOTINO + 1 + j) == files[j].data)
            && (|dir| % BSIZE != 0 ==> |FileOf(sb, d, ROOTINO)| == RoundUp(|dir|) && FileOf(sb, d, ROOTINO)[..|dir|] == dir)
    ensures SameLow(sb, k, FixRoot(sb, k))
  {
    hide FsInv, Contents, FileOf, Lock, BitsBlock, InodeWord, PutWords, Rounded, RoundUp;
    var next := ROOTINO + 1 + |files|;
    var owner :| SoundWith(sb, Seen(sb, k), owner);
    var s := Lock(sb, Seen(sb, k), ROOTINO);
    LockMarked(sb, k.disk, k.free, ROOTINO);
    FileWrite.SizeIsLength(sb, s, owner);
    SoundElsewhere(sb, s, owner, s.disk);
    assert dir == Contents(sb, s, ROOTINO);
    RoundUpWord(s.size);
    RoundUpBounds(s.size);
    var u := s.(size := RoundUp(s.size));
    var t := Iupdate(sb, u);
    PutMarked(sb, k, u);
    RoundDone(sb, s, owner);
    assert InodeWords(u) == s.head + [RoundUp(s.size)] + s.addrs;
    SoundOnlyIfDense(sb, s, t, owner);
    forall j | 0 <= j < |files|
      ensures FileOf(sb, t.disk, ROOTINO + 1 + j) == files[j].data
    {
      OtherFile(sb, s, t, owner, ROOTINO + 1 + j);
      assert FilesOf(sb, Seen(sb, k))[ROOTINO + 1 + j] == files[j].data;
    }
    if |dir| % BSIZE != 0 { RootFile(sb, s, t, owner); }
    BlankAfterPut(sb, k, FixRoot(sb, k), k.disk, ROOTINO, InodeWords(u), next);
  }

  lemma RoundUpBounds(n: nat)
    requires n <= MAXBYTES
    ensures n <= RoundUp(n) && (n % BSIZE != 0 ==> RoundUp(n) <= MAXBYTES)
  {
  }

  /** Whatever the files, an image that `mkfs` finishes has each file's bytes in its inode and an
      empty log. It is a sound file system exactly when the number of files is not two short of a
      multiple of 32: the 32 entries that fill a block would make the root directory claim one block
      more than it has. */
  lemma MkfsExact(sb: Super, super: Block, dot: seq<byte>, dotdot: seq<byte>, files: seq<File>)
    requires ValidSuper(sb) && ROOTINO < sb.ninodes && 2 <= sb.inodestart && sb.size < BPB
    requires |dot| == 16 && |dotdot| == 16 && forall j :: 0 <= j < |files| ==> |files[j].entry| == 16
    requires MakeImage(sb, super, dot, dotdot, files).Made?
    ensures var d, dir := MakeImage(sb, super, dot, dotdot, files).kit.disk, dot + dotdot + Entries(files);
            && (Sound(sb, d) <==> |files| % 32 != 30)
            && (forall j :: 0 <= j < |files| ==> FileOf(sb, d, ROOTINO + 1 + j) == files[j].data)
            && (|files| % 32 != 30 ==> dir <= FileOf(sb, d, ROOTINO))
            && (forall b :: 2 <= b < sb.inodestart ==> d[b] == ZeroBlock())
  {
    hide Holds, AddFiles, Root, Sound, FileOf, Lock, FixRoot, BitsBlock, Entries;
    RootHolds(sb, super, dot, dotdot);
    var k := Root(sb, super, dot, dotdot).kit;
    AddFilesKeeps(sb, k, dot + dotdot, files);
    var a := AddFiles(sb, k, files).kit;
    var dir := dot + dotdot + Entries(files);
    FixRootExact(sb, a, dir, files);
    assert |dir| == 16 * (|files| + 2);
  }

  // ---------------------------------------------------------------- when it finishes

  lemma {:induction false} FreeAbove(sb: Super, d: Disk, n: nat, m: nat)
    requires Image(sb, d) && sb.size <= BPB && n <= BPB && m <= sb.size
    ensures FreeBelow(sb, Marked(sb, d, n), m) == if m <= n then 0 else m - n
  {
    hide Used, Marked;
    if m > 0 {
      FreeAbove(sb, d, n, m - 1);
      MarkedUsed(sb, d, n, m - 1);
    }
  }

  /** Appending fails exactly when the file or the disk would be too small, and otherwise takes the
      blocks the file grows by. */
  lemma IappendExact(sb: Super, k: Kit, next: nat, inum: nat, src: seq<byte>)
    requires Ready(sb, k, next) && inum < sb.ninodes && src != []
    ensures var n := |FilesOf(sb, Seen(sb, k))[inum]|;
            var r := Iappend(sb, k, inum, src);
            && n <= MAXBYTES
            && (r.Made? <==> n + |src| <= MAXBYTES && k.free + Growth(n, n + |src|) <= sb.size)
            && (r.Made? ==> r.kit.free == k.free + Growth(n, n + |src|))
  {
    hide FsInv, Contents, FileOf, WriteLoop, AppendLoop, PutWords, Lock, BitsBlock, InodeWord, Growth, FreeBelow, Missing;
    var owner :| SoundWith(sb, Seen(sb, k), owner);
    var s := Lock(sb, Seen(sb, k), inum);
    LockMarked(sb, k.disk, k.free, inum);
    InvParts(sb, s, owner);
    FileWrite.SizeIsLength(sb, s, owner);
    SoundElsewhere(sb, s, owner, s.disk);
    assert |Contents(sb, s, inum)| == s.size;
    if s.size + |src| <= MAXBYTES {
      LoopShows(sb, k, s.addrs, s, owner, s.size, src);
      WriteLoopSpace(sb, s, owner, s.size, src);
      SizeDense(sb, s, owner);
      MissingIsGrowth(sb, s, s.size, s.size, |src|);
      FreeAbove(sb, k.disk, k.free, sb.size);
      var r := AppendLoop(sb, k, s.addrs, s.size, src);
      if r.Spot? { FreeAbove(sb, r.kit.disk, r.kit.free, sb.size); }
    }
  }

  lemma SizeDense(sb: Super, s: State, owner: map<nat, Owner>)
    requires FsInv(sb, s, owner)
    ensures Dense(sb, s, s.inum, s.size)
  {
    hide Slot, Used;
    assert SizeOf(sb, s, s.inum) == s.size;
  }

  lemma {:induction false} FillExact(sb: Super, k: Kit, next: nat, inum: nat, data: seq<byte>)
    requires Ready(sb, k, next) && inum < next && inum < sb.ninodes && |FilesOf(sb, Seen(sb, k))[inum]| <= MAXBYTES
    ensures var n := |FilesOf(sb, Seen(sb, k))[inum]|;
            var r := Fill(sb, k, inum, data);
            && (r.Made? <==> n + |data| <= MAXBYTES && k.free + Growth(n, n + |data|) <= sb.size)
            && (r.Made? ==> r.kit.free == k.free + Growth(n, n + |data|))
    decreases |data|
  {
    hide Ready, Iappend, FilesOf, Marked, Growth;
    ReadyShape(sb, k, next);
    var n := |FilesOf(sb, Seen(sb, k))[inum]|;
    FileWrite.NoGrowth(n, n);
    if data != [] {
      var m := Min(|data|, BSIZE);
      IappendExact(sb, k, next, inum, data[..m]);
      FileWrite.GrowthSplit(n, n + m, n + |data|);
      if Iappend(sb, k, inum, data[..m]).Made? {
        IappendKeeps(sb, k, next, inum, data[..m]);
        FillExact(sb, Iappend(sb, k, inum, data[..m]).kit, next, inum, data[m..]);
      }
    }
  }

  lemma AddFileExact(sb: Super, k: Kit, dir: seq<byte>, files: seq<File>, f: File)
    requires Holds(sb, k, dir, files) && |f.entry| == 16
    ensures var r := AddFile(sb, k, ROOTINO + 1 + |files|, f);
            var more := Growth(|dir|, |dir| + 16) + Growth(0, |f.data|);
            && (r.Made? <==> && ROOTINO + 1 + |files| < sb.ninodes && |dir| + 16 <= MAXBYTES && |f.data| <= MAXBYTES
                             && k.free + more <= sb.size)
            && (r.Made? ==> r.kit.free == k.free + more)
  {
    hide Ready, Iappend, FilesOf, Marked, Fill, Ialloc, Growth;
    var inum := ROOTINO + 1 + |files|;
    if inum < sb.ninodes {
      ReadyShape(sb, k, inum);
      var a := Ialloc(sb, k, inum, T_FILE);
      IallocKeeps(sb, k, inum, T_FILE);
      ReadyShape(sb, a, inum + 1);
      IappendExact(sb, a, inum + 1, ROOTINO, f.entry);
      if Iappend(sb, a, ROOTINO, f.entry).Made? {
        var b := Iappend(sb, a, ROOTINO, f.entry).kit;
        IappendKeeps(sb, a, inum + 1, ROOTINO, f.entry);
        ReadyShape(sb, b, inum + 1);
        FillExact(sb, b, inum + 1, inum, f.data);
      }
    }
  }

  /** The blocks of all the files. */
  function DataBlocks(files: seq<File>): (n: nat)
  {
    if files == [] then 0 else DataBlocks(files[..|files| - 1]) + Growth(0, |files[|files| - 1].data|)
  }

  /** There are inodes and blocks for the files, and none is longer than a file can be. */
  ghost predicate Fit(sb: Super, free: nat, dir: nat, files: seq<File>)
  {
    && ROOTINO + |files| < sb.ninodes && dir + 16 * |files| <= MAXBYTES
    && (forall j :: 0 <= j < |files| ==> |files[j].data| <= MAXBYTES)
    && free + Growth(dir, dir + 16 * |files|) + DataBlocks(files) <= sb.size
  }

  /** One file more, in terms of `Fit`. */
  lemma FitStep(sb: Super, free: nat, dir: nat, files: seq<File>)
    requires files != [] && dir <= MAXBYTES
    ensures var n := |files| - 1;
            var mid := free + Growth(dir, dir + 16 * n) + DataBlocks(files[..n]);
            var more := Growth(dir + 16 * n, dir + 16 * n + 16) + Growth(0, |files[n].data|);
            && free + Growth(dir, dir + 16 * |files|) + DataBlocks(files) == mid + more
            && (Fit(sb, free, dir, files) <==>
                  && Fit(sb, free, dir, files[..n])
                  && ROOTINO + 1 + n < sb.ninodes && dir + 16 * n + 16 <= MAXBYTES && |files[n].data| <= MAXBYTES
                  && mid + more <= sb.size)
  {
    hide Growth;
    var n := |files| - 1;
    FileWrite.GrowthSplit(dir, dir + 16 * n, dir + 16 * |files|);
    assert forall j :: 0 <= j < n ==> files[..n][j] == files[j];
  }

  lemma {:induction false} AddFilesExact(sb: Super, k: Kit, dir: seq<byte>, files: seq<File>)
    requires Holds(sb, k, dir, []) && |dir| <= MAXBYTES
    requires forall j :: 0 <= j < |files| ==> |files[j].entry| == 16
    ensures Image(sb, k.disk)
    ensures var r := AddFiles(sb, k, files);
            && (r.Made? <==> Fit(sb, k.free, |dir|, files))
            && (r.Made? ==> r.kit.free == k.free + Growth(|dir|, |dir| + 16 * |files|) + DataBlocks(files))
  {
    hide AddFile, Growth, Holds;
    HoldsShape(sb, k, dir, []);
    if files == [] {
      FileWrite.NoGrowth(|dir|, |dir|);
      RoomLeft(sb, k, dir);
    } else {
      hide Fit, DataBlocks;
      var n := |files| - 1;
      AddFilesExact(sb, k, dir, files[..n]);
      FitStep(sb, k.free, |dir|, files);
      if AddFiles(sb, k, files[..n]).Made? {
        var mid := AddFiles(sb, k, files[..n]).kit;
        AddFilesKeeps(sb, k, dir, files[..n]);
        HoldsShape(sb, mid, dir + Entries(files[..n]), files[..n]);
        AddFileExact(sb, mid, dir + Entries(files[..n]), files[..n], files[n]);
      }
    }
  }

  lemma RoomLeft(sb: Super, k: Kit, dir: seq<byte>)
    requires Holds(sb, k, dir, [])
    ensures k.free <= sb.size
  {
  }

  lemma RootExact(sb: Super, super: Block, dot: seq<byte>, dotdot: seq<byte>)
    requires ValidSuper(sb) && sb.size <= BPB && 2 <= sb.inodestart && ROOTINO < sb.ninodes
    requires |dot| == 16 && |dotdot| == 16
    ensures var r := Root(sb, super, dot, dotdot);
            (r.Made? <==> sb.nmeta < sb.size) && (r.Made? ==> r.kit.free == sb.nmeta + 1)
  {
    hide Ready, Iappend, FilesOf, Marked, Ialloc;
    var z := Zeroed(sb, super);
    ZeroedReady(sb, super);
    IallocKeeps(sb, z, ROOTINO, T_DIR);
    var a := Ialloc(sb, z, ROOTINO, T_DIR);
    assert |FilesOf(sb, Seen(sb, a))[ROOTINO]| == 0;
    IappendExact(sb, a, ROOTINO + 1, ROOTINO, dot);
    if sb.nmeta < sb.size {
      var b := Iappend(sb, a, ROOTINO, dot).kit;
      IappendKeeps(sb, a, ROOTINO + 1, ROOTINO, dot);
      IappendExact(sb, b, ROOTINO + 1, ROOTINO, dotdot);
    }
  }

  /** `mkfs` finishes exactly when the inodes and the blocks suffice and no file is too long. */
  lemma MkfsFinishesExactly(sb: Super, super: Block, dot: seq<byte>, dotdot: seq<byte>, files: seq<File>)
    requires ValidSuper(sb) && ROOTINO < sb.ninodes && 2 <= sb.inodestart && sb.size < BPB
    requires |dot| == 16 && |dotdot| == 16 && forall j :: 0 <= j < |files| ==> |files[j].entry| == 16
    ensures MakeImage(sb, super, dot, dotdot, files).Made? <==> Fit(sb, sb.nmeta + 1, 32, files)
  {
    hide Holds, AddFiles, Root, Lock, FixRoot, BitsBlock, Entries, Growth;
    RootExact(sb, super, dot, dotdot);
    if sb.nmeta < sb.size {
      RootHolds(sb, super, dot, dotdot);
      var k := Root(sb, super, dot, dotdot).kit;
      AddFilesExact(sb, k, dot + dotdot, files);
      if AddFiles(sb, k, files).Made? {
        AddFilesKeeps(sb, k, dot + dotdot, files);
        HoldsShape(sb, AddFiles(sb, k, files).kit, dot + dotdot + Entries(files), files);
        FixRootExact(sb, AddFiles(sb, k, files).kit, dot + dotdot + Entries(files), files);
      }
    }
  }

  lemma {:induction false} NoDataNoBlocks(files: seq<File>)
    requires forall j :: 0 <= j < |files| ==> files[j].data == []
    ensures DataBlocks(files) == 0
  {
    if files != [] { NoDataNoBlocks(files[..|files| - 1]); }
  }

  /** With the image parameters of the source, 30 empty files make an image that is not sound. */
  lemma ThirtyFilesUnsound(super: Block, name: seq<byte>)
    requires |name| == 16
    ensures var sb, files := Super(1000, 200, 32, 58, 59), seq(30, _ => File(name, []));
            var r := MakeImage(sb, super, name, name, files);
            r.Made? && !Sound(sb, r.kit.disk)
  {
    hide MakeImage, Sound;
    var sb, files := Super(1000, 200, 32, 58, 59), seq(30, _ => File(name, []));
    NoDataNoBlocks(files);
    MkfsFinishesExactly(sb, super, name, name, files);
    MkfsExact(sb, super, name, name, files);
  }

  /** The kernel booted on a new disk, with nothing logged and nothing written yet. */
  function Fresh(d: Disk): (m: Machine)
  {
    Machine(LogRuns.State(d, d, [], [], LogRuns.Idle, false, d, [], [], {}), Free, [], [d], 0)
  }

  /** The image is where the runs of the file system on its log begin. */
  lemma MkfsBoots(c: LogRuns.Config, sb: Super, super: Block, dot: seq<byte>, dotdot: seq<byte>, files: seq<File>)
    requires ValidSuper(sb) && ROOTINO < sb.ninodes && 2 <= sb.inodestart && sb.size < BPB
    requires |dot| == 16 && |dotdot| == 16 && forall j :: 0 <= j < |files| ==> |files[j].entry| == 16
    requires c.layout.start == 2 && 1 <= c.layout.size && 2 + c.layout.size <= sb.inodestart
    requires MakeImage(sb, super, dot, dotdot, files).Made?
    ensures Init(c, sb, Fresh(MakeImage(sb, super, dot, dotdot, files).kit.disk)) <==> |files| % 32 != 30
  {
    hide MakeImage, Sound, FileOf, Entries, GetWord;
    MkfsExact(sb, super, dot, dotdot, files);
    FreshInit(c, sb, MakeImage(sb, super, dot, dotdot, files).kit.disk);
  }

  lemma FreshInit(c: LogRuns.Config, sb: Super, d: Disk)
    requires Image(sb, d) && c.layout.start == 2 && 1 <= c.layout.size && 2 + c.layout.size <= sb.inodestart
    requires d[2] == ZeroBlock()
    ensures Init(c, sb, Fresh(d)) <==> Sound(sb, d)
  {
    hide Sound, GetWord;
    ZeroWords(0);
  }
}

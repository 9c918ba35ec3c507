/** Reading a new image through the kernel: the files `mkfs` was given, and what kind they are. */
module MkfsReads {
  import opened Blocks
  import opened FsLayout
  import opened FsBlocks
  import opened FsFiles
  import opened FsLog
  import opened Mkfs
  import FileWrite

  // ---------------------------------------------------------------- kinds of inodes

  /** The type of inode `i`: 1 a directory, 2 a file, 3 a device. */
  function KindOf(sb: Super, d: Disk, i: nat): (k: nat)
    requires Image(sb, d) && i < sb.ninodes
  {
    InodeWord(sb, d, i, 0) % 0x1_0000
  }

  ghost predicate SameKinds(sb: Super, k: Kit, k': Kit)
  {
    && Image(sb, k.disk) && Image(sb, k'.disk)
    && forall i :: 0 <= i < sb.ninodes ==> KindOf(sb, k'.disk, i) == KindOf(sb, k.disk, i)
  }

  lemma KindAfterPut(sb: Super, d: Disk, e: Disk, inum: nat, ws: seq<word>, i: nat)
    requires Image(sb, d) && Image(sb, e) && inum < sb.ninodes && |ws| == DINODEWORDS && i < sb.ninodes
    requires forall b :: 0 <= b < sb.bmapstart ==> e[b] == d[b]
    ensures KindOf(sb, PutInode(sb, e, inum, ws), i) == if i == inum then ws[0] % 0x1_0000 else KindOf(sb, d, i)
  {
    hide GetWord, PutWords;
    InodeAfterPut(sb, e, inum, ws, i, 0);
    assert InodeBlock(sb, i) < sb.bmapstart;
  }

  /** The copy loop leaves the inode blocks alone. */
  lemma AppendLow(sb: Super, k: Kit, next: nat, inum: nat, src: seq<byte>)
    requires Ready(sb, k, next) && inum < sb.ninodes && src != [] && Iappend(sb, k, inum, src).Made?
    ensures var s := Lock(sb, k.disk, inum);
            var r := AppendLoop(sb, k, s.addrs, s.size, src);
            r.Spot? && forall b :: 0 <= b < sb.bmapstart ==> r.kit.disk[b] == k.disk[b]
  {
    hide FsInv, Contents, FileOf, WriteLoop, AppendLoop, PutWords, Lock, BitsBlock, InodeWord;
    var owner :| SoundWith(sb, Seen(sb, k), owner);
    var s := Lock(sb, Seen(sb, k), inum);
    LockMarked(sb, k.disk, k.free, inum);
    InvParts(sb, s, owner);
    var r := AppendLoop(sb, k, s.addrs, s.size, src);
    LoopShows(sb, k, s.addrs, s, owner, s.size, src);
    var owner' := AppendDone(sb, s, owner, src);
    var w := WriteLoop(sb, s, s.size, src).state;
    forall b | 0 <= b < sb.bmapstart
      ensures r.kit.disk[b] == k.disk[b]
    {
      assert w.disk[b] == s.disk[b] && w.disk == Marked(sb, r.kit.disk, r.kit.free);
    }
  }

  lemma HeadIsKind(sb: Super, d: Disk, i: nat)
    requires Image(sb, d) && i < sb.ninodes
    ensures Lock(sb, d, i).head[0] % 0x1_0000 == KindOf(sb, d, i)
  {
  }

  lemma IappendKinds(sb: Super, k: Kit, next: nat, inum: nat, src: seq<byte>)
    requires Ready(sb, k, next) && inum < sb.ninodes && src != [] && Iappend(sb, k, inum, src).Made?
    ensures SameKinds(sb, k, Iappend(sb, k, inum, src).kit)
  {
    hide AppendLoop, Lock, KindOf, PutInode;
    AppendLow(sb, k, next, inum, src);
    HeadIsKind(sb, k.disk, inum);
    var s := Lock(sb, k.disk, inum);
    var r := AppendLoop(sb, k, s.addrs, s.size, src);
    var ws := s.head + [s.size + |src|] + r.addrs;
    forall i | 0 <= i < sb.ninodes
      ensures KindOf(sb, Iappend(sb, k, inum, src).kit.disk, i) == KindOf(sb, k.disk, i)
    {
      KindAfterPut(sb, k.disk, r.kit.disk, inum, ws, i);
    }
  }

  lemma IallocKinds(sb: Super, k: Kit, inum: nat, kind: word, i: nat)
    requires Image(sb, k.disk) && inum < sb.ninodes && kind < 0x1_0000 && i < sb.ninodes
    ensures KindOf(sb, Ialloc(sb, k, inum, kind).disk, i) == if i == inum then kind else KindOf(sb, k.disk, i)
  {
    hide KindOf, PutInode;
    KindAfterPut(sb, k.disk, k.disk, inum, [kind, 0x1_0000, 0] + seq(NDIRECT + 1, _ => 0), i);
  }

  lemma {:induction false} FillKinds(sb: Super, k: Kit, next: nat, inum: nat, data: seq<byte>)
    requires Ready(sb, k, next) && inum < next && inum < sb.ninodes && Fill(sb, k, inum, data).Made?
    ensures SameKinds(sb, k, Fill(sb, k, inum, data).kit)
    decreases |data|
  {
    hide Ready, Iappend, KindOf, FilesOf;
    ReadyShape(sb, k, next);
    if data != [] {
      var n := Min(|data|, BSIZE);
      IappendKeeps(sb, k, next, inum, data[..n]);
      IappendKinds(sb, k, next, inum, data[..n]);
      FillKinds(sb, Iappend(sb, k, inum, data[..n]).kit, next, inum, data[n..]);
    }
  }

  /** The root is a directory and the inodes after it are files. */
  ghost predicate Kinds(sb: Super, k: Kit, n: nat)
  {
    && Image(sb, k.disk) && ROOTINO + n < sb.ninodes && KindOf(sb, k.disk, ROOTINO) == 1
    && forall i :: ROOTINO < i <= ROOTINO + n ==> KindOf(sb, k.disk, i) == 2
  }

  lemma AddFileKinds(sb: Super, k: Kit, dir: seq<byte>, files: seq<File>, f: File)
    requires Holds(sb, k, dir, files) && f.entry != [] && AddFile(sb, k, ROOTINO + 1 + |files|, f).Made?
    requires Kinds(sb, k, |files|)
    ensures Kinds(sb, AddFile(sb, k, ROOTINO + 1 + |files|, f).kit, |files| + 1)
  {
    hide Ready, Iappend, FilesOf, Marked, Fill, Ialloc, KindOf;
    var inum := ROOTINO + 1 + |files|;
    ReadyShape(sb, k, inum);
    var a := Ialloc(sb, k, inum, T_FILE);
    IallocKeeps(sb, k, inum, T_FILE);
    ReadyShape(sb, a, inum + 1);
    forall i | 0 <= i < sb.ninodes
      ensures KindOf(sb, a.disk, i) == if i == inum then 2 else KindOf(sb, k.disk, i)
    {
      IallocKinds(sb, k, inum, T_FILE, i);
    }
    var b := Iappend(sb, a, ROOTINO, f.entry).kit;
    IappendKeeps(sb, a, inum + 1, ROOTINO, f.entry);
    IappendKinds(sb, a, inum + 1, ROOTINO, f.entry);
    ReadyShape(sb, b, inum + 1);
    FillKinds(sb, b, inum + 1, inum, f.data);
  }

  lemma {:induction false} AddFilesKinds(sb: Super, k: Kit, dir: seq<byte>, files: seq<File>)
    requires Holds(sb, k, dir, []) && AddFiles(sb, k, files).Made? && Kinds(sb, k, 0)
    requires forall j :: 0 <= j < |files| ==> |files[j].entry| == 16
    ensures Kinds(sb, AddFiles(sb, k, files).kit, |files|)
  {
    hide Holds, AddFile, Kinds;
    HoldsShape(sb, k, dir, []);
    if files != [] {
      var n := |files| - 1;
      AddFilesKinds(sb, k, dir, files[..n]);
      AddFilesKeeps(sb, k, dir, files[..n]);
      var mid := AddFiles(sb, k, files[..n]).kit;
      AddFileKinds(sb, mid, dir + Entries(files[..n]), files[..n], files[n]);
    }
  }

  lemma RootKinds(sb: Super, super: Block, dot: seq<byte>, dotdot: seq<byte>)
    requires ValidSuper(sb) && sb.size <= BPB && 2 <= sb.inodestart && ROOTINO < sb.ninodes
    requires dot != [] && dotdot != [] && Root(sb, super, dot, dotdot).Made?
    ensures Kinds(sb, Root(sb, super, dot, dotdot).kit, 0)
  {
    hide Ready, Iappend, FilesOf, Marked, Ialloc, Zeroed, KindOf;
    var z := Zeroed(sb, super);
    ZeroedReady(sb, super);
    IallocKeeps(sb, z, ROOTINO, T_DIR);
    IallocKinds(sb, z, ROOTINO, T_DIR, ROOTINO);
    var a := Ialloc(sb, z, ROOTINO, T_DIR);
    IappendKeeps(sb, a, ROOTINO + 1, ROOTINO, dot);
    IappendKinds(sb, a, ROOTINO + 1, ROOTINO, dot);
    var b := Iappend(sb, a, ROOTINO, dot).kit;
    IappendKinds(sb, b, ROOTINO + 1, ROOTINO, dotdot);
  }

  // ---------------------------------------------------------------- reading

  /** What inode `i` looks like on the finished image: as before the last steps, but for the size of
      the root. */
  lemma FinishedInode(sb: Super, k: Kit, dir: seq<byte>, files: seq<File>, i: nat)
    requires Holds(sb, k, dir, files) && i < sb.ninodes
    ensures Lock(sb, k.disk, ROOTINO).size <= MAXBYTES
    ensures var s, t := Lock(sb, Seen(sb, k), i), Lock(sb, Seen(sb, FixRoot(sb, k)), i);
            && SameData(sb, s, t) && t.head == s.head && t.inum == s.inum
            && t.size == if i == ROOTINO then RoundUp(s.size) else s.size
  {
    hide FsInv, Contents, FileOf, BitsBlock, GetWord, PutWords, RoundUp, Ready, FilesOf;
    FixRootExact(sb, k, dir, files);
    HoldsShape(sb, k, dir, files);
    var l := Lock(sb, k.disk, ROOTINO);
    RoundUpWord(l.size);
    var ws := l.head + [RoundUp(l.size)] + l.addrs;
    LockMarked(sb, k.disk, k.free, i);
    LockMarked(sb, FixRoot(sb, k).disk, k.free, i);
    hide Marked;
    forall w | 0 <= w < DINODEWORDS
      ensures InodeWord(sb, FixRoot(sb, k).disk, i, w) == if i == ROOTINO then ws[w] else InodeWord(sb, k.disk, i, w)
    {
      InodeAfterPut(sb, k.disk, ROOTINO, ws, i, w);
    }
    FinishedBlocks(sb, k);
    hide InodeWord;
  }

  lemma FinishedBlocks(sb: Super, k: Kit)
    requires Image(sb, k.disk) && ROOTINO < sb.ninodes && k.free <= BPB && Lock(sb, k.disk, ROOTINO).size <= MAXBYTES
    ensures forall b :: sb.nmeta <= b < sb.size ==> Seen(sb, FixRoot(sb, k))[b] == Seen(sb, k)[b]
  {
    hide BitsBlock, GetWord, PutWords, RoundUp;
    assert InodeBlock(sb, ROOTINO) < sb.bmapstart;
  }

  ghost predicate Inputs(sb: Super, dot: seq<byte>, dotdot: seq<byte>, files: seq<File>)
  {
    && ValidSuper(sb) && ROOTINO < sb.ninodes && 2 <= sb.inodestart && sb.size < BPB
    && |dot| == 16 && |dotdot| == 16 && forall j :: 0 <= j < |files| ==> |files[j].entry| == 16
  }

  /** The image before the last steps. */
  lemma Finished(sb: Super, super: Block, dot: seq<byte>, dotdot: seq<byte>, files: seq<File>) returns (k: Kit)
    requires Inputs(sb, dot, dotdot, files) && MakeImage(sb, super, dot, dotdot, files).Made?
    ensures Holds(sb, k, dot + dotdot + Entries(files), files) && Kinds(sb, k, |files|)
    ensures Lock(sb, k.disk, ROOTINO).size <= MAXBYTES && k.free <= BPB
    ensures MakeImage(sb, super, dot, dotdot, files).kit.disk == Seen(sb, FixRoot(sb, k))
  {
    hide Holds, AddFiles, Root, Lock, FixRoot, BitsBlock, Entries, Kinds;
    RootHolds(sb, super, dot, dotdot);
    RootKinds(sb, super, dot, dotdot);
    k := Root(sb, super, dot, dotdot).kit;
    AddFilesKeeps(sb, k, dot + dotdot, files);
    AddFilesKinds(sb, k, dot + dotdot, files);
    k := AddFiles(sb, k, files).kit;
  }

  lemma KindSeen(sb: Super, k: Kit, i: nat)
    requires Image(sb, k.disk) && k.free <= BPB && i < sb.ninodes
    ensures Lock(sb, Seen(sb, k), i).head[0] % 0x1_0000 == KindOf(sb, k.disk, i)
  {
    hide GetWord, BitsBlock;
    LockMarked(sb, k.disk, k.free, i);
  }

  /** Reading `n` bytes at `off` of a file that held `c` before the last steps. */
  lemma ReadsBefore(sb: Super, k: Kit, dir: seq<byte>, files: seq<File>, i: nat, off: nat, n: nat)
    requires Holds(sb, k, dir, files) && i < sb.ninodes && off + n <= |FilesOf(sb, Seen(sb, k))[i]|
    ensures Lock(sb, k.disk, ROOTINO).size <= MAXBYTES && k.free <= BPB
    ensures Lock(sb, Seen(sb, k), i).size == |FilesOf(sb, Seen(sb, k))[i]|
    ensures var t := Lock(sb, Seen(sb, FixRoot(sb, k)), i);
            ReadLoop(sb, t, off, n) == Read(t, FilesOf(sb, Seen(sb, k))[i][off..off + n])
  {
    hide FsInv, Contents, FileOf, BitsBlock, InodeWord, PutWords, RoundUp, ReadLoop, Lock, FixRoot, SameData;
    FinishedInode(sb, k, dir, files, i);
    var owner :| SoundWith(sb, Seen(sb, k), owner);
    var s := Lock(sb, Seen(sb, k), i);
    var t := Lock(sb, Seen(sb, FixRoot(sb, k)), i);
    FileWrite.SizeIsLength(sb, s, owner);
    SoundElsewhere(sb, s, owner, s.disk);
    var c := Contents(sb, s, i);
    assert c == FilesOf(sb, Seen(sb, k))[i];
    ReadElsewhere(sb, s, owner, t, c, off, n);
  }

  /** Reading file `j` of a new image gives the bytes `mkfs` was given, clamped to the end, changes
      nothing, and never goes to a driver; nor does writing it. */
  lemma MkfsFilesRead(sb: Super, super: Block, dot: seq<byte>, dotdot: seq<byte>, files: seq<File>, j: nat, off: word, n: word)
    requires Inputs(sb, dot, dotdot, files) && MakeImage(sb, super, dot, dotdot, files).Made? && j < |files|
    ensures ROOTINO + 1 + j < sb.ninodes
    ensures var s := Lock(sb, MakeImage(sb, super, dot, dotdot, files).kit.disk, ROOTINO + 1 + j);
            && Readi(sb, s, off, n)
               == (if off > |files[j].data| || off + n >= 0x1_0000_0000 then Refused
                   else Read(s, files[j].data[off..Min(off + n, |files[j].data|)]))
            && s.head[0] % 0x1_0000 == 2
            && forall src: seq<byte> :: |src| < 0x1_0000_0000 ==> !Writei(sb, s, off, src).ToDevice?
  {
    hide MakeImage, Entries, FilesOf, Ready, RoundUp, Lock, FixRoot, KindOf, ReadLoop, WriteLoop, SameData, Writei;
    var k := Finished(sb, super, dot, dotdot, files);
    var i, c := ROOTINO + 1 + j, files[j].data;
    var dir := dot + dotdot + Entries(files);
    FinishedInode(sb, k, dir, files, i);
    KindSeen(sb, k, i);
    var t := Lock(sb, Seen(sb, FixRoot(sb, k)), i);
    assert FilesOf(sb, Seen(sb, k))[i] == c;
    ReadsBefore(sb, k, dir, files, i, 0, 0);
    if off <= |c| {
      ReadsBefore(sb, k, dir, files, i, off, Min(off + n, |c|) - off);
    }
    forall src: seq<byte> | |src| < 0x1_0000_0000
      ensures !Writei(sb, t, off, src).ToDevice?
    {
      DeviceExact(sb, t, off, n, src);
    }
  }

  /** Reading the root directory gives its entries, in the order of the files. */
  lemma MkfsRootReads(sb: Super, super: Block, dot: seq<byte>, dotdot: seq<byte>, files: seq<File>, off: word, n: word)
    requires Inputs(sb, dot, dotdot, files) && MakeImage(sb, super, dot, dotdot, files).Made?
    requires off + n <= |dot + dotdot + Entries(files)|
    ensures var s := Lock(sb, MakeImage(sb, super, dot, dotdot, files).kit.disk, ROOTINO);
            && s.head[0] % 0x1_0000 == 1
            && Readi(sb, s, off, n) == Read(s, (dot + dotdot + Entries(files))[off..off + n])
  {
    hide MakeImage, Entries, FilesOf, Ready, Lock, FixRoot, KindOf, ReadLoop, SameData, RoundUp;
    var k := Finished(sb, super, dot, dotdot, files);
    var dir := dot + dotdot + Entries(files);
    FinishedInode(sb, k, dir, files, ROOTINO);
    KindSeen(sb, k, ROOTINO);
    ReadsBefore(sb, k, dir, files, ROOTINO, off, n);
    var t := Lock(sb, Seen(sb, FixRoot(sb, k)), ROOTINO);
    FixRootExact(sb, k, dir, files);
    RoundUpBounds(|dir|);
    assert |dir| <= t.size;
  }
}

/** The file system code with its in-place updates and loops, proved against the functions whose
    properties `FsBlocks`, `FsFiles` and `FsTrunc` establish. A method that panics halts the
    kernel; what it leaves behind is then of no interest. */
module FsCode {
  import opened Blocks
  import opened FsLayout
  import opened FsBlocks
  import opened FsFiles
  import opened FsTrunc

  /** The in-memory inode. */
  class Inode {
    const inum: nat
    var head: seq<word>
    var size: word
    var addrs: seq<word>

    constructor (inum: nat, head: seq<word>, size: word, addrs: seq<word>)
      ensures this.inum == inum && this.head == head && this.size == size && this.addrs == addrs
    {
      this.inum, this.head, this.size, this.addrs := inum, head, size, addrs;
    }
  }

  class FileSystem {
    const sb: Super
    var disk: Disk
    ghost var logged: set<nat>

    constructor (sb: Super, disk: Disk)
      ensures this.sb == sb && this.disk == disk && logged == {}
    {
      this.sb, this.disk, logged := sb, disk, {};
    }

    ghost function View(ip: Inode): (s: State)
      reads this, ip
    {
      State(disk, ip.inum, ip.head, ip.size, ip.addrs, 0, logged)
    }

    method LogWrite(b: nat, data: Block)
      requires b < |disk|
      modifies this
      ensures disk == old(disk)[b := data] && logged == old(logged) + {b}
    {
      disk := disk[b := data];
      logged := logged + {b};
    }

    /** Scan one bitmap block, for the blocks from `b` on. */
    method ScanBitmapBlock(b: nat) returns (found: bool, bi: nat)
      requires Image(sb, disk) && b < sb.size && b % BPB == 0
      ensures found ==> bi < BPB && b + bi < sb.size && b + bi == FirstFree(sb, disk, b)
      ensures !found ==> FirstFree(sb, disk, b) == FirstFree(sb, disk, if b + BPB < sb.size then b + BPB else sb.size)
    {
      hide BlockBit;
      var bp := disk[BitmapBlock(sb, b)];
      bi := 0;
      found := false;
      while bi < BPB && b + bi < sb.size
        invariant 0 <= bi <= BPB && b + bi <= sb.size
        invariant FirstFree(sb, disk, b) == FirstFree(sb, disk, b + bi)
      {
        assert (b + bi) / BPB == b / BPB && (b + bi) % BPB == bi;
        if !BlockBit(bp, bi) {
          found := true;
          return;
        }
        bi := bi + 1;
      }
    }

    method BallocBlock(ip: Inode) returns (panicked: bool, block: nat)
      requires Typed(sb, View(ip))
      modifies this
      ensures panicked == Balloc(sb, old(View(ip))).Panic?
      ensures !panicked ==> Balloc(sb, old(View(ip))) == Ok(View(ip), block) && block < sb.size
    {
      hide Used, PutBlockBit, FirstFree;
      var b := 0;
      block := 0;
      while b < sb.size
        invariant 0 <= b <= sb.size && (b % BPB == 0 || b == sb.size)
        invariant disk == old(disk) && logged == old(logged)
        invariant FirstFree(sb, disk, 0) == FirstFree(sb, disk, b)
        decreases sb.size - b
      {
        var found, bi := ScanBitmapBlock(b);
        if found {
          var bp := disk[BitmapBlock(sb, b)];
          assert BitmapBlock(sb, b + bi) == BitmapBlock(sb, b) && (b + bi) % BPB == bi;
          LogWrite(BitmapBlock(sb, b), PutBlockBit(bp, bi, true));
          LogWrite(b + bi, ZeroBlock());
          return false, b + bi;
        }
        b := if b + BPB < sb.size then b + BPB else sb.size;
      }
      FirstFreeEnd(sb, disk);
      panicked := true;
    }

    method BfreeBlock(ip: Inode, b: nat) returns (panicked: bool)
      requires Typed(sb, View(ip)) && b < sb.size
      modifies this
      ensures panicked == Bfree(sb, old(View(ip)), b).Panic?
      ensures !panicked ==> Bfree(sb, old(View(ip)), b) == Ok(View(ip), b)
    {
      hide BlockBit, PutBlockBit;
      var bp := disk[BitmapBlock(sb, b)];
      var bi := b % BPB;
      panicked := !BlockBit(bp, bi);
      if !panicked {
        LogWrite(BitmapBlock(sb, b), PutBlockBit(bp, bi, false));
      }
    }

    method BmapBlock(ip: Inode, bn: nat) returns (panicked: bool, addr: nat)
      requires Typed(sb, View(ip))
      modifies this, ip
      ensures panicked == Bmap(sb, old(View(ip)), bn).Panic?
      ensures !panicked ==> Bmap(sb, old(View(ip)), bn) == Ok(View(ip), addr)
    {
      hide Balloc, GetWord, SetWord;
      panicked := false;
      if bn < NDIRECT {
        addr := ip.addrs[bn];
        if addr == 0 {
          panicked, addr := BallocBlock(ip);
          if panicked { return; }
          ip.addrs := ip.addrs[bn := addr];
        }
        return;
      }
      if bn - NDIRECT < NINDIRECT {
        addr := ip.addrs[NDIRECT];
        if addr == 0 {
          panicked, addr := BallocBlock(ip);
          if panicked { return; }
          ip.addrs := ip.addrs[NDIRECT := addr];
        }
        if addr >= sb.size {
          panicked := true;
          return;
        }
        var p := addr;
        addr := GetWord(disk[p], bn - NDIRECT);
        if addr == 0 {
          panicked, addr := BallocBlock(ip);
          if panicked { return; }
          LogWrite(p, SetWord(disk[p], bn - NDIRECT, addr));
        }
        return;
      }
      panicked, addr := true, 0;
    }

    method IupdateInode(ip: Inode)
      requires Typed(sb, View(ip))
      modifies this
      ensures View(ip) == Iupdate(sb, old(View(ip)))
    {
      hide SetWord;
      var ws := ip.head + [ip.size] + ip.addrs;
      var blk := disk[InodeBlock(sb, ip.inum)];
      ghost var was := blk;
      var at := ip.inum % IPB * DINODEWORDS;
      var w := 0;
      while w < DINODEWORDS
        invariant 0 <= w <= DINODEWORDS && |ws| == DINODEWORDS && at + DINODEWORDS <= WORDS
        invariant PutWords(blk, at, ws, w) == PutWords(was, at, ws, 0)
      {
        blk := SetWord(blk, at + w, ws[w]);
        w := w + 1;
      }
      LogWrite(InodeBlock(sb, ip.inum), blk);
    }

    method WriteiBytes(ip: Inode, src: seq<byte>, offset: word) returns (panicked: bool, toDevice: bool, r: int)
      requires Typed(sb, View(ip)) && |src| < 0x1_0000_0000
      modifies this, ip
      ensures panicked == Writei(sb, old(View(ip)), offset, src).Halted?
      ensures !panicked ==> toDevice == Writei(sb, old(View(ip)), offset, src).ToDevice?
      ensures toDevice <==> old(ip.head[0]) % 0x1_0000 == 3
      ensures toDevice ==> !panicked && View(ip) == old(View(ip))
      ensures !panicked && !toDevice && r < 0 ==>
                Writei(sb, old(View(ip)), offset, src).Refused? && View(ip) == old(View(ip))
      ensures !panicked && !toDevice && r >= 0 ==>
                r == |src| && Writei(sb, old(View(ip)), offset, src) == Wrote(View(ip))
    {
      hide Bmap, Iupdate, Splice, WriteLoop;
      panicked, toDevice, r := false, false, -1;
      if ip.head[0] % 0x1_0000 == T_DEV {
        toDevice := true;
        return;
      }
      if offset > ip.size || (offset + |src|) % 0x1_0000_0000 < offset {
        return;
      }
      if offset + |src| > MAXBYTES {
        return;
      }
      var off: nat := offset;
      var tot := 0;
      ghost var start := View(ip);
      while tot < |src|
        invariant 0 <= tot <= |src| && off == offset + tot
        invariant Typed(sb, View(ip)) && ip.size == start.size
        invariant WriteLoop(sb, start, offset, src) == WriteLoop(sb, View(ip), off, src[tot..])
      {
        ghost var before, rest := View(ip), src[tot..];
        WriteLoopUnfold(sb, before, off, rest);
        var bad, b := BmapBlock(ip, off / BSIZE);
        if bad || b >= sb.size {
          panicked := true;
          return;
        }
        BmapKeepsSize(sb, before, off / BSIZE);
        var m := Chunk(off, |src| - tot);
        LogWrite(b, Splice(disk[b], off % BSIZE, src[tot..tot + m]));
        assert rest[..m] == src[tot..tot + m] && rest[m..] == src[tot + m..];
        tot := tot + m;
        off := off + m;
      }
      assert src[tot..] == [];
      WriteLoopEnd(sb, View(ip), off);
      if |src| > 0 && off > ip.size {
        ip.size := off;
        IupdateInode(ip);
      }
      r := |src|;
    }

    method ReadiBytes(ip: Inode, offset: word, count: word)
      returns (panicked: bool, toDevice: bool, r: int, dst: seq<byte>)
      requires Typed(sb, View(ip))
      modifies this, ip
      ensures panicked == Readi(sb, old(View(ip)), offset, count).Halted?
      ensures !panicked ==> toDevice == Readi(sb, old(View(ip)), offset, count).ToDevice?
      ensures toDevice <==> old(ip.head[0]) % 0x1_0000 == 3
      ensures toDevice ==> !panicked && View(ip) == old(View(ip))
      ensures !panicked && !toDevice && r < 0 ==>
                Readi(sb, old(View(ip)), offset, count).Refused? && View(ip) == old(View(ip))
      ensures !panicked && !toDevice && r >= 0 ==>
                r == |dst| && Readi(sb, old(View(ip)), offset, count) == Read(View(ip), dst)
    {
      hide Bmap, ReadLoop, Piece;
      panicked, toDevice, r, dst := false, false, -1, [];
      if ip.head[0] % 0x1_0000 == T_DEV {
        toDevice := true;
        return;
      }
      if offset > ip.size || (offset + count) % 0x1_0000_0000 < offset {
        return;
      }
      var n: nat := count;
      if offset + n > ip.size {
        n := ip.size - offset;
      }
      var off: nat := offset;
      var tot := 0;
      ghost var start := View(ip);
      while tot < n
        invariant 0 <= tot <= n && off == offset + tot && |dst| == tot
        invariant Typed(sb, View(ip))
        invariant ReadLoop(sb, start, offset, n) == Prepend(dst, ReadLoop(sb, View(ip), off, n - tot))
      {
        ghost var before := View(ip);
        ReadLoopUnfold(sb, before, off, n - tot);
        var bad, b := BmapBlock(ip, off / BSIZE);
        if bad || b >= sb.size {
          panicked := true;
          return;
        }
        var m := Chunk(off, n - tot);
        PrependTwice(dst, Piece(disk[b], off, m), ReadLoop(sb, View(ip), off + m, n - tot - m));
        dst := dst + Piece(disk[b], off, m);
        tot := tot + m;
        off := off + m;
      }
      ReadLoopEnd(sb, View(ip), off);
      assert dst + [] == dst;
      r := n;
    }

    method ItruncInode(ip: Inode) returns (panicked: bool)
      requires Typed(sb, View(ip))
      modifies this, ip
      ensures panicked == Itrunc(sb, old(View(ip))).Panic?
      ensures !panicked ==> Itrunc(sb, old(View(ip))) == Ok(View(ip), 0)
    {
      hide Bfree, Iupdate, GetWord;
      ghost var start := View(ip);
      panicked := false;
      var i := 0;
      while i < NDIRECT
        invariant 0 <= i <= NDIRECT && Typed(sb, View(ip))
        invariant FreeDirects(sb, start, 0) == FreeDirects(sb, View(ip), i)
      {
        if ip.addrs[i] != 0 {
          if ip.addrs[i] >= sb.size {
            return true;
          }
          panicked := BfreeBlock(ip, ip.addrs[i]);
          if panicked { return; }
          ip.addrs := ip.addrs[i := 0];
        }
        i := i + 1;
      }
      hide FreeDirects;
      if ip.addrs[NDIRECT] != 0 {
        panicked := FreeIndirectBlocks(ip);
        if panicked { return; }
      }
      ip.size := 0;
      IupdateInode(ip);
    }

    /** The second half of `itrunc`: the entries of the indirect block, then the block itself. */
    method FreeIndirectBlocks(ip: Inode) returns (panicked: bool)
      requires Typed(sb, View(ip)) && ip.addrs[NDIRECT] != 0
      modifies this, ip
      ensures panicked == FreeIndirect(sb, old(View(ip))).Panic?
      ensures !panicked ==> FreeIndirect(sb, old(View(ip))) == Ok(View(ip), 0)
    {
      hide Bfree, GetWord;
      ghost var start := View(ip);
      var p := ip.addrs[NDIRECT];
      panicked := p >= sb.size;
      if panicked { return; }
      var j := 0;
      while j < NINDIRECT
        invariant 0 <= j <= NINDIRECT && Typed(sb, View(ip)) && ip.addrs[NDIRECT] == p
        invariant FreeEntries(sb, start, 0) == FreeEntries(sb, View(ip).(released := j), j)
      {
        var e := GetWord(disk[p], j);
        if e != 0 {
          if e >= sb.size {
            return true;
          }
          BfreeIgnoresReleased(sb, View(ip), j, e);
          panicked := BfreeBlock(ip, e);
          if panicked { return; }
        }
        j := j + 1;
      }
      hide FreeEntries;
      BfreeIgnoresReleased(sb, View(ip), NINDIRECT, p);
      panicked := BfreeBlock(ip, p);
      if panicked { return; }
      ip.addrs := ip.addrs[NDIRECT := 0];
    }
  }

  /** Bytes read so far in front of those of the rest of the loop. */
  function Prepend(dst: seq<byte>, r: Io): (t: Io)
  {
    if r.Read? then Read(r.state, dst + r.bytes) else r
  }

  lemma PrependTwice(a: seq<byte>, b: seq<byte>, r: Io)
    ensures Prepend(a, Prepend(b, r)) == Prepend(a + b, r)
  {
    assert r.Read? ==> a + (b + r.bytes) == a + b + r.bytes;
  }

  lemma ReadLoopUnfold(sb: Super, s: State, off: nat, n: nat)
    requires Typed(sb, s) && n > 0
    ensures var a, m := Bmap(sb, s, off / BSIZE), Chunk(off, n);
            ReadLoop(sb, s, off, n)
            == if a.Panic? || a.block >= sb.size then Halted
               else Prepend(Piece(a.state.disk[a.block], off, m), ReadLoop(sb, a.state, off + m, n - m))
  {
    hide Bmap, Piece;
  }

  lemma WriteLoopUnfold(sb: Super, s: State, off: nat, src: seq<byte>)
    requires Typed(sb, s) && src != []
    ensures var a, m := Bmap(sb, s, off / BSIZE), Chunk(off, |src|);
            WriteLoop(sb, s, off, src)
            == if a.Panic? || a.block >= sb.size then Panic
               else WriteLoop(sb, LogBlock(a.state, a.block, Splice(a.state.disk[a.block], off % BSIZE, src[..m])),
                              off + m, src[m..])
  {
    hide Bmap, Splice;
  }

  lemma WriteLoopEnd(sb: Super, s: State, off: nat)
    requires Typed(sb, s)
    ensures WriteLoop(sb, s, off, []) == Ok(s, 0)
  {
  }

  lemma BmapKeepsSize(sb: Super, s: State, bn: nat)
    requires Typed(sb, s) && Bmap(sb, s, bn).Ok?
    ensures Bmap(sb, s, bn).state.size == s.size
  {
    hide Used, PutBlockBit, GetWord, SetWord, FirstFree, MarkUsed;
  }

  lemma BfreeIgnoresReleased(sb: Super, s: State, j: nat, b: nat)
    requires Typed(sb, s) && b < sb.size
    ensures var f := Bfree(sb, s.(released := j), b);
            f.Panic? == Bfree(sb, s, b).Panic? && (f.Ok? ==> f == Ok(Bfree(sb, s, b).state.(released := j), b))
  {
  }

  lemma FirstFreeEnd(sb: Super, d: Disk)
    requires Image(sb, d)
    ensures FirstFree(sb, d, sb.size) == sb.size
  {
  }
}

/** The file system image read through its accessors: bitmap bits, on-disk inodes, block slots. */
module FsLayout {
  import opened Blocks

  const NDIRECT: nat := 12
  const NINDIRECT: nat := 128
  const MAXFILE: nat := 140
  const IPB: nat := 8
  const BPB: nat := 4096
  const DINODEWORDS: nat := 16

  /** The super block; `nmeta` counts the blocks before the data blocks. */
  datatype Super = Super(size: nat, ninodes: nat, inodestart: nat, bmapstart: nat, nmeta: nat)

  predicate ValidSuper(sb: Super)
  {
    && sb.inodestart + sb.ninodes / IPB + 1 <= sb.bmapstart
    && sb.bmapstart + sb.size / BPB + 1 <= sb.nmeta <= sb.size < 0x1_0000_0000
  }

  // ---------------------------------------------------------------- bitmap bits

  /** Bit `k` of a number. */
  predicate BitOf(x: nat, k: nat)
  {
    if k == 0 then x % 2 == 1 else BitOf(x / 2, k - 1)
  }

  /** The number with bit `k` made `v`. */
  function PutBit(x: nat, k: nat, v: bool): (r: nat)
  {
    if k == 0 then x / 2 * 2 + (if v then 1 else 0) else PutBit(x / 2, k - 1, v) * 2 + x % 2
  }

  lemma {:induction false} PutBitBits(x: nat, k: nat, v: bool, j: nat)
    ensures BitOf(PutBit(x, k, v), j) == if j == k then v else BitOf(x, j)
  {
    if k > 0 && j > 0 {
      PutBitBits(x / 2, k - 1, v, j - 1);
    }
  }

  function TwoTo(n: nat): (p: nat)
    ensures p >= 1
  {
    if n == 0 then 1 else 2 * TwoTo(n - 1)
  }

  lemma {:induction false} PutBitBound(x: nat, k: nat, v: bool, n: nat)
    requires k < n && x < TwoTo(n)
    ensures PutBit(x, k, v) < TwoTo(n)
  {
    var half := TwoTo(n - 1);
    assert x < 2 * half && x / 2 < half;
    if k > 0 {
      PutBitBound(x / 2, k - 1, v, n - 1);
    }
  }

  lemma PutBitInByte(x: byte, k: nat, v: bool)
    requires k < 8
    ensures PutBit(x, k, v) < 0x100
  {
    assert TwoTo(8) == 256 by {
      assert TwoTo(4) == 16;
    }
    PutBitBound(x, k, v, 8);
  }

  function PutByteBit(x: byte, k: nat, v: bool): (r: byte)
    requires k < 8
  {
    PutBitInByte(x, k, v);
    PutBit(x, k, v)
  }

  /** A bitmap block with bit `bi` made `v`. */
  function PutBlockBit(blk: Block, bi: nat, v: bool): (r: Block)
    requires bi < BPB
  {
    blk[bi / 8 := PutByteBit(blk[bi / 8], bi % 8, v)]
  }

  predicate BlockBit(blk: Block, bi: nat)
    requires bi < BPB
  {
    BitOf(blk[bi / 8], bi % 8)
  }

  lemma BlockBitAfterPut(blk: Block, bi: nat, v: bool, bj: nat)
    requires bi < BPB && bj < BPB
    ensures BlockBit(PutBlockBit(blk, bi, v), bj) == if bj == bi then v else BlockBit(blk, bj)
  {
    if bj / 8 == bi / 8 {
      PutBitBits(blk[bi / 8], bi % 8, v, bj % 8);
    }
  }

  function BitmapBlock(sb: Super, b: nat): (blk: nat)
  {
    b / BPB + sb.bmapstart
  }

  function InodeBlock(sb: Super, inum: nat): (blk: nat)
  {
    inum / IPB + sb.inodestart
  }

  /** An image of the right size for its super block. */
  predicate Image(sb: Super, d: Disk)
  {
    ValidSuper(sb) && |d| == sb.size
  }

  /** Whether the bitmap marks block `b` as in use. */
  predicate Used(sb: Super, d: Disk, b: nat)
    requires Image(sb, d) && b < sb.size
  {
    BlockBit(d[BitmapBlock(sb, b)], b % BPB)
  }

  function MarkUsed(sb: Super, d: Disk, b: nat, v: bool): (r: Disk)
    requires Image(sb, d) && b < sb.size
  {
    d[BitmapBlock(sb, b) := PutBlockBit(d[BitmapBlock(sb, b)], b % BPB, v)]
  }

  lemma UsedAfterMark(sb: Super, d: Disk, b: nat, v: bool, c: nat)
    requires Image(sb, d) && b < sb.size && c < sb.size
    ensures Used(sb, MarkUsed(sb, d, b, v), c) == if c == b then v else Used(sb, d, c)
  {
    hide BlockBit, PutBlockBit;
    if BitmapBlock(sb, c) == BitmapBlock(sb, b) {
      BlockBitAfterPut(d[BitmapBlock(sb, b)], b % BPB, v, c % BPB);
    }
  }

  // ---------------------------------------------------------------- on-disk inodes

  /** Word `w` of on-disk inode `inum`: type and major, minor and nlink, size, then the addresses. */
  function InodeWord(sb: Super, d: Disk, inum: nat, w: nat): (r: word)
    requires Image(sb, d) && inum < sb.ninodes && w < DINODEWORDS
  {
    GetWord(d[InodeBlock(sb, inum)], inum % IPB * DINODEWORDS + w)
  }

  /** The inode block after copying the words `ws[w..]` over those of inode `inum`. */
  function PutWords(blk: Block, at: nat, ws: seq<word>, w: nat): (r: Block)
    requires at + |ws| <= WORDS && w <= |ws|
    decreases |ws| - w
  {
    if w == |ws| then blk else PutWords(SetWord(blk, at + w, ws[w]), at, ws, w + 1)
  }

  lemma {:induction false} PutWordsRead(blk: Block, at: nat, ws: seq<word>, w: nat, j: nat)
    requires at + |ws| <= WORDS && w <= |ws| && j < WORDS
    ensures GetWord(PutWords(blk, at, ws, w), j)
            == if at + w <= j < at + |ws| then ws[j - at] else GetWord(blk, j)
    decreases |ws| - w
  {
    hide GetWord, SetWord;
    if w < |ws| {
      PutWordsRead(SetWord(blk, at + w, ws[w]), at, ws, w + 1, j);
      GetSetWord(blk, at + w, ws[w], j);
    }
  }

  function PutInode(sb: Super, d: Disk, inum: nat, ws: seq<word>): (r: Disk)
    requires Image(sb, d) && inum < sb.ninodes && |ws| == DINODEWORDS
  {
    d[InodeBlock(sb, inum) := PutWords(d[InodeBlock(sb, inum)], inum % IPB * DINODEWORDS, ws, 0)]
  }

  lemma InodeAfterPut(sb: Super, d: Disk, inum: nat, ws: seq<word>, i: nat, w: nat)
    requires Image(sb, d) && inum < sb.ninodes && |ws| == DINODEWORDS
    requires i < sb.ninodes && w < DINODEWORDS
    ensures InodeWord(sb, PutInode(sb, d, inum, ws), i, w) == if i == inum then ws[w] else InodeWord(sb, d, i, w)
  {
    hide GetWord, PutWords;
    if InodeBlock(sb, i) == InodeBlock(sb, inum) {
      PutWordsRead(d[InodeBlock(sb, inum)], inum % IPB * DINODEWORDS, ws, 0, i % IPB * DINODEWORDS + w);
      assert i != inum ==> i % IPB != inum % IPB;
    }
  }
}

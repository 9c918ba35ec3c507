/** The block layer of the file system: allocating, freeing and mapping blocks, and who owns them. */
module FsBlocks {
  import opened Blocks
  import opened FsLayout

  /** The logical disk (what `bread` returns) and the one locked in-memory inode.
      `released` counts the indirect entries a truncation has already freed;
      `logged` collects the blocks passed to `log_write`. */
  datatype State = State(
    disk: Disk,
    inum: nat,
    head: seq<word>,      // type and major, minor and nlink
    size: word,
    addrs: seq<word>,
    released: nat,
    logged: set<nat>)

  /** The kernel halts in `panic`, or goes on in a new state with a block number to return. */
  datatype Result = Panic | Ok(state: State, block: nat)

  predicate Typed(sb: Super, s: State)
  {
    Image(sb, s.disk) && s.inum < sb.ninodes && |s.head| == 2 && |s.addrs| == NDIRECT + 1
  }

  // ---------------------------------------------------------------- the operations

  function LogBlock(s: State, b: nat, data: Block): (t: State)
    requires b < |s.disk|
  {
    s.(disk := s.disk[b := data], logged := s.logged + {b})
  }

  /** The first block from `b` on that the bitmap has free; `sb.size` if there is none. */
  function FirstFree(sb: Super, d: Disk, b: nat): (r: nat)
    requires Image(sb, d) && b <= sb.size
    ensures b <= r <= sb.size
    ensures r < sb.size ==> !Used(sb, d, r)
    ensures forall c :: b <= c < r ==> Used(sb, d, c)
    decreases sb.size - b
  {
    if b == sb.size || !Used(sb, d, b) then b else FirstFree(sb, d, b + 1)
  }

  function Claim(sb: Super, s: State, b: nat): (t: State)
    requires Typed(sb, s) && b < sb.size
    ensures Typed(sb, t)
  {
    LogBlock(LogBlock(s, BitmapBlock(sb, b), MarkUsed(sb, s.disk, b, true)[BitmapBlock(sb, b)]), b, ZeroBlock())
  }

  /** `balloc`: mark the first free block used and zero it. */
  function Balloc(sb: Super, s: State): (r: Result)
    requires Typed(sb, s)
    ensures r.Ok? ==> Typed(sb, r.state)
  {
    var b := FirstFree(sb, s.disk, 0);
    if b == sb.size then Panic else Ok(Claim(sb, s, b), b)
  }

  /** `bfree`: panics on a block that is already free. */
  function Bfree(sb: Super, s: State, b: nat): (r: Result)
    requires Typed(sb, s) && b < sb.size
    ensures r.Ok? ==> Typed(sb, r.state)
  {
    if !Used(sb, s.disk, b) then Panic
    else Ok(LogBlock(s, BitmapBlock(sb, b), MarkUsed(sb, s.disk, b, false)[BitmapBlock(sb, b)]), b)
  }

  function SetAddr(s: State, k: nat, b: word): (t: State)
    requires k < |s.addrs|
  {
    s.(addrs := s.addrs[k := b])
  }

  /** The address slot `k` of the inode, allocated if it was empty. */
  function Direct(sb: Super, s: State, k: nat): (r: Result)
    requires Typed(sb, s) && k <= NDIRECT
    ensures r.Ok? ==> Typed(sb, r.state)
  {
    if s.addrs[k] != 0 then Ok(s, s.addrs[k])
    else
      var a := Balloc(sb, s);
      if a.Panic? then Panic else Ok(SetAddr(a.state, k, a.block), a.block)
  }

  function Entry(s: State, p: nat, j: nat): (a: nat)
    requires p < |s.disk| && j < NINDIRECT
  {
    GetWord(s.disk[p], j)
  }

  /** The entry `j` of the indirect block `p`, allocated if it was empty. */
  function Indirect(sb: Super, s: State, p: nat, j: nat): (r: Result)
    requires Typed(sb, s) && p < sb.size && j < NINDIRECT
    ensures r.Ok? ==> Typed(sb, r.state)
  {
    if Entry(s, p, j) != 0 then Ok(s, Entry(s, p, j))
    else
      var a := Balloc(sb, s);
      if a.Panic? then Panic
      else Ok(LogBlock(a.state, p, SetWord(a.state.disk[p], j, a.block)), a.block)
  }

  /** `bmap`: the disk block of block `bn` of the locked inode, allocating what is missing. */
  function Bmap(sb: Super, s: State, bn: nat): (r: Result)
    requires Typed(sb, s)
    ensures r.Ok? ==> Typed(sb, r.state)
  {
    if bn < NDIRECT then Direct(sb, s, bn)
    else if bn < MAXFILE then
      var p := Direct(sb, s, NDIRECT);
      if p.Panic? || p.block >= sb.size then Panic
      else Indirect(sb, p.state, p.block, bn - NDIRECT)
    else Panic
  }

  /** The words of the in-memory inode as `iupdate` lays them out. */
  function InodeWords(s: State): (ws: seq<word>)
    requires |s.head| == 2 && |s.addrs| == NDIRECT + 1
    ensures |ws| == DINODEWORDS
  {
    s.head + [s.size] + s.addrs
  }

  function Iupdate(sb: Super, s: State): (t: State)
    requires Typed(sb, s)
    ensures Typed(sb, t)
  {
    LogBlock(s, InodeBlock(sb, s.inum), PutInode(sb, s.disk, s.inum, InodeWords(s))[InodeBlock(sb, s.inum)])
  }

  // ---------------------------------------------------------------- who owns a block

  /** Address word `k` of inode `i`: from memory for the locked inode, from disk for the others. */
  function Addr(sb: Super, s: State, i: nat, k: nat): (a: nat)
    requires Typed(sb, s) && i < sb.ninodes && k <= NDIRECT
  {
    if i == s.inum then s.addrs[k] else InodeWord(sb, s.disk, i, 3 + k)
  }

  function SizeOf(sb: Super, s: State, i: nat): (n: nat)
    requires Typed(sb, s) && i < sb.ninodes
  {
    if i == s.inum then s.size else InodeWord(sb, s.disk, i, 2)
  }

  /** Slot `k < MAXFILE` of inode `i` is its `k`-th file block, slot `MAXFILE` its indirect
      block; zero means none. */
  function Slot(sb: Super, s: State, i: nat, k: nat): (a: nat)
    requires Typed(sb, s) && i < sb.ninodes && k <= MAXFILE
  {
    var p := Addr(sb, s, i, NDIRECT);
    if k == MAXFILE then p
    else if k < NDIRECT then Addr(sb, s, i, k)
    else if p == 0 || p >= sb.size || (i == s.inum && k < NDIRECT + s.released) then 0
    else Entry(s, p, k - NDIRECT)
  }

  /** `Nobody`: allocated but not yet stored in a slot. */
  datatype Owner = Nobody | Of(inum: nat, slot: nat)

  /** The bitmap marks exactly the metadata blocks and the owned ones, every filled slot owns its
      block, and no block has two owners. */
  ghost predicate OwnedBy(sb: Super, s: State, owner: map<nat, Owner>)
  {
    && Typed(sb, s)
    && (forall b :: 0 <= b < sb.size ==> (Used(sb, s.disk, b) <==> b < sb.nmeta || b in owner))
    && (forall b :: b in owner ==> sb.nmeta <= b < sb.size)
    && (forall i, k :: 0 <= i < sb.ninodes && 0 <= k <= MAXFILE && Slot(sb, s, i, k) != 0 ==>
          Slot(sb, s, i, k) in owner && owner[Slot(sb, s, i, k)] == Of(i, k))
    && (forall b :: b in owner && owner[b].Of? ==>
          owner[b].inum < sb.ninodes && owner[b].slot <= MAXFILE && Slot(sb, s, owner[b].inum, owner[b].slot) == b)
  }

  /** No block is in limbo: every allocated block sits in a slot. */
  ghost predicate Settled(owner: map<nat, Owner>)
  {
    forall b :: b in owner ==> owner[b].Of?
  }

  ghost predicate SameSlots(sb: Super, s: State, t: State)
  {
    && Typed(sb, s) && Typed(sb, t)
    && forall i, k :: 0 <= i < sb.ninodes && 0 <= k <= MAXFILE ==> Slot(sb, t, i, k) == Slot(sb, s, i, k)
  }

  /** Inode blocks are as they were. */
  ghost predicate SameInodes(sb: Super, s: State, t: State)
  {
    && Typed(sb, s) && Typed(sb, t) && t.inum == s.inum && t.size == s.size && t.head == s.head
    && forall b :: 0 <= b < sb.bmapstart ==> t.disk[b] == s.disk[b]
  }

  /** Writing a block that is neither an inode block nor an indirect block moves no slot. */
  lemma WriteKeepsSlots(sb: Super, s: State, b: nat, data: Block)
    requires Typed(sb, s) && sb.bmapstart <= b < sb.size
    requires forall i :: 0 <= i < sb.ninodes ==> Slot(sb, s, i, MAXFILE) != b || b == 0
    ensures SameSlots(sb, s, LogBlock(s, b, data)) && SameInodes(sb, s, LogBlock(s, b, data))
  {
    hide GetWord;
    var t := LogBlock(s, b, data);
    forall i, k | 0 <= i < sb.ninodes && 0 <= k <= MAXFILE
      ensures Slot(sb, t, i, k) == Slot(sb, s, i, k)
    {
      assert InodeBlock(sb, i) < sb.bmapstart;
      assert Slot(sb, s, i, MAXFILE) != b || b == 0;
    }
  }

  /** Data blocks other than `b` keep their contents. */
  ghost predicate SameDataExcept(sb: Super, s: State, t: State, b: nat)
  {
    && Typed(sb, s) && Typed(sb, t)
    && forall c :: sb.nmeta <= c < sb.size && c != b ==> t.disk[c] == s.disk[c]
  }

  lemma UsedIgnoresData(sb: Super, d: Disk, b: nat, data: Block, c: nat)
    requires Image(sb, d) && b < sb.size && c < sb.size
    requires b < sb.bmapstart || sb.nmeta <= b
    ensures Used(sb, d[b := data], c) == Used(sb, d, c)
  {
    assert sb.bmapstart <= BitmapBlock(sb, c) < sb.nmeta;
  }

  lemma ClaimUsed(sb: Super, s: State, b: nat, c: nat)
    requires Typed(sb, s) && sb.nmeta <= b < sb.size && c < sb.size
    ensures Used(sb, Claim(sb, s, b).disk, c) == (c == b || Used(sb, s.disk, c))
  {
    hide Used;
    UsedAfterMark(sb, s.disk, b, true, c);
    UsedIgnoresData(sb, MarkUsed(sb, s.disk, b, true), b, ZeroBlock(), c);
  }

  lemma ClaimKeepsSlots(sb: Super, s: State, owner: map<nat, Owner>, b: nat)
    requires OwnedBy(sb, s, owner) && sb.nmeta <= b < sb.size && b !in owner
    ensures SameSlots(sb, s, Claim(sb, s, b)) && SameInodes(sb, s, Claim(sb, s, b))
    ensures SameDataExcept(sb, s, Claim(sb, s, b), b)
  {
    hide GetWord, Slot, Used;
    var m := LogBlock(s, BitmapBlock(sb, b), MarkUsed(sb, s.disk, b, true)[BitmapBlock(sb, b)]);
    WriteKeepsSlots(sb, s, BitmapBlock(sb, b), MarkUsed(sb, s.disk, b, true)[BitmapBlock(sb, b)]);
    WriteKeepsSlots(sb, m, b, ZeroBlock());
  }

  /** A claimed block was free, is fresh and zero, and belongs to nobody yet. */
  lemma ClaimKeeps(sb: Super, s: State, owner: map<nat, Owner>, b: nat)
    requires OwnedBy(sb, s, owner) && b < sb.size && !Used(sb, s.disk, b)
    ensures b !in owner && sb.nmeta <= b && Claim(sb, s, b).disk[b] == ZeroBlock()
    ensures OwnedBy(sb, Claim(sb, s, b), owner[b := Nobody])
    ensures SameSlots(sb, s, Claim(sb, s, b)) && SameInodes(sb, s, Claim(sb, s, b))
    ensures SameDataExcept(sb, s, Claim(sb, s, b), b)
  {
    hide Slot, Used;
    ClaimKeepsSlots(sb, s, owner, b);
    forall c | 0 <= c < sb.size
      ensures Used(sb, Claim(sb, s, b).disk, c) == (c == b || Used(sb, s.disk, c))
    {
      ClaimUsed(sb, s, b, c);
    }
  }

  /** Slot `k` of inode `i`, empty before, now holds `b`; no other slot changed. */
  ghost predicate Filled(sb: Super, s: State, t: State, i: nat, k: nat, b: nat)
  {
    && Typed(sb, s) && Typed(sb, t) && i < sb.ninodes && k <= MAXFILE
    && Slot(sb, s, i, k) == 0 && Slot(sb, t, i, k) == b
    && forall j, l :: 0 <= j < sb.ninodes && 0 <= l <= MAXFILE && (j != i || l != k) ==>
         Slot(sb, t, j, l) == Slot(sb, s, j, l)
  }

  lemma FillOwns(sb: Super, s: State, t: State, owner: map<nat, Owner>, i: nat, k: nat, b: nat)
    requires OwnedBy(sb, s, owner) && Filled(sb, s, t, i, k, b)
    requires b in owner && owner[b] == Nobody
    requires forall c :: 0 <= c < sb.size ==> Used(sb, t.disk, c) == Used(sb, s.disk, c)
    ensures OwnedBy(sb, t, owner[b := Of(i, k)])
  {
    hide Slot, Used;
  }

  lemma SetAddrFills(sb: Super, s: State, k: nat, b: word)
    requires Typed(sb, s) && k <= NDIRECT && s.addrs[k] == 0 && s.released == 0
    requires b < sb.size && (k == NDIRECT ==> s.disk[b] == ZeroBlock())
    ensures Filled(sb, s, SetAddr(s, k, b), s.inum, if k == NDIRECT then MAXFILE else k, b)
  {
    hide GetWord;
    var t := SetAddr(s, k, b);
    forall j | 0 <= j < NINDIRECT
      ensures k == NDIRECT ==> Entry(t, b, j) == 0
    {
      ZeroWords(j);
    }
  }

  lemma SetEntryFills(sb: Super, s: State, j: nat, b: word)
    requires Typed(sb, s) && j < NINDIRECT && s.released == 0
    requires sb.nmeta <= s.addrs[NDIRECT] < sb.size && Entry(s, s.addrs[NDIRECT], j) == 0
    requires forall i :: 0 <= i < sb.ninodes && i != s.inum ==> Slot(sb, s, i, MAXFILE) != s.addrs[NDIRECT]
    ensures var p := s.addrs[NDIRECT];
            Filled(sb, s, LogBlock(s, p, SetWord(s.disk[p], j, b)), s.inum, NDIRECT + j, b)
  {
    hide GetWord, SetWord;
    var p := s.addrs[NDIRECT];
    var t := LogBlock(s, p, SetWord(s.disk[p], j, b));
    forall i, k | 0 <= i < sb.ninodes && 0 <= k <= MAXFILE && (i != s.inum || k != NDIRECT + j)
      ensures Slot(sb, t, i, k) == Slot(sb, s, i, k)
    {
      assert InodeBlock(sb, i) < sb.bmapstart;
      assert i != s.inum ==> Slot(sb, s, i, MAXFILE) != p;
      if i == s.inum && NDIRECT <= k < MAXFILE {
        GetSetWord(s.disk[p], j, b, k - NDIRECT);
      }
    }
    GetSetWord(s.disk[p], j, b, j);
  }

  // ---------------------------------------------------------------- mapping a block

  /** File block `n` of inode `i`; a hole reads as zeroes. */
  function FileBlock(sb: Super, s: State, i: nat, n: nat): (b: Block)
    requires Typed(sb, s) && i < sb.ninodes && n < MAXFILE
  {
    var a := Slot(sb, s, i, n);
    if a == 0 || a >= sb.size then ZeroBlock() else s.disk[a]
  }

  ghost predicate SameFiles(sb: Super, s: State, t: State)
  {
    && Typed(sb, s) && Typed(sb, t)
    && forall i, n :: 0 <= i < sb.ninodes && 0 <= n < MAXFILE ==> FileBlock(sb, t, i, n) == FileBlock(sb, s, i, n)
  }

  /** Slot `k` of the locked inode holds block `b`, already before or filled just now. */
  ghost predicate Mapped(sb: Super, s: State, t: State, k: nat, b: nat)
  {
    && Typed(sb, s) && Typed(sb, t) && k <= MAXFILE && t.inum == s.inum
    && (Filled(sb, s, t, s.inum, k, b) || (SameSlots(sb, s, t) && Slot(sb, s, s.inum, k) == b))
  }

  /** Filling a slot with a fresh zero block changes no file, even if indirect block `p` is rewritten. */
  lemma FillKeepsFiles(sb: Super, s: State, t: State, owner: map<nat, Owner>, k: nat, b: nat, p: nat)
    requires OwnedBy(sb, s, owner) && Filled(sb, s, t, s.inum, k, b)
    requires b !in owner && sb.nmeta <= b < sb.size && t.disk[b] == ZeroBlock()
    requires p == b || (p in owner && owner[p] == Of(s.inum, MAXFILE))
    requires forall c :: sb.nmeta <= c < sb.size && c != b && c != p ==> t.disk[c] == s.disk[c]
    ensures SameFiles(sb, s, t)
  {
    hide Slot, Used;
    forall i, n | 0 <= i < sb.ninodes && 0 <= n < MAXFILE
      ensures FileBlock(sb, t, i, n) == FileBlock(sb, s, i, n)
    {
      var a := Slot(sb, s, i, n);
      assert a != 0 ==> a in owner && owner[a] == Of(i, n);
    }
  }

  /** What a mapping step keeps, together. */
  ghost predicate MapKeeps(sb: Super, s: State, r: Result, owner: map<nat, Owner>, k: nat)
  {
    && r.Ok? && OwnedBy(sb, r.state, owner) && r.state.released == 0
    && Mapped(sb, s, r.state, k, r.block) && SameFiles(sb, s, r.state) && SameInodes(sb, s, r.state)
    && r.block in owner && owner[r.block] == Of(s.inum, k)
  }

  lemma DirectKeeps(sb: Super, s: State, owner: map<nat, Owner>, k: nat) returns (owner': map<nat, Owner>)
    requires OwnedBy(sb, s, owner) && s.released == 0 && k <= NDIRECT && Direct(sb, s, k).Ok?
    ensures MapKeeps(sb, s, Direct(sb, s, k), owner', if k == NDIRECT then MAXFILE else k)
    ensures Direct(sb, s, k).block != 0
    ensures Settled(owner) ==> Settled(owner')
  {
    hide Used, Entry;
    var r := Direct(sb, s, k);
    var slot := if k == NDIRECT then MAXFILE else k;
    if s.addrs[k] != 0 {
      owner' := owner;
      assert Slot(sb, s, s.inum, slot) == s.addrs[k];
    } else {
      var b := FirstFree(sb, s.disk, 0);
      var t := Claim(sb, s, b);
      ClaimKeeps(sb, s, owner, b);
      SetAddrFills(sb, t, k, b);
      hide Slot;
      owner' := owner[b := Nobody][b := Of(s.inum, slot)];
      FillOwns(sb, t, r.state, owner[b := Nobody], s.inum, slot, b);
      FillKeepsFiles(sb, s, r.state, owner, slot, b, b);
    }
  }

  /** The indirect case that allocates: claim `b`, then store it in entry `j` of block `p`. */
  lemma IndirectFresh(sb: Super, s: State, owner: map<nat, Owner>, j: nat, b: nat)
    requires OwnedBy(sb, s, owner) && s.released == 0 && j < NINDIRECT && 0 < s.addrs[NDIRECT] < sb.size
    requires Entry(s, s.addrs[NDIRECT], j) == 0 && b < sb.size && !Used(sb, s.disk, b)
    ensures var p := s.addrs[NDIRECT];
            var t := Claim(sb, s, b);
            MapKeeps(sb, s, Ok(LogBlock(t, p, SetWord(t.disk[p], j, b)), b), owner[b := Of(s.inum, NDIRECT + j)], NDIRECT + j)
  {
    hide Used, GetWord, SetWord, Claim;
    var p, t := s.addrs[NDIRECT], Claim(sb, s, b);
    assert Slot(sb, s, s.inum, MAXFILE) == p;
    ClaimKeeps(sb, s, owner, b);
    ClaimShape(sb, s, b);
    assert t.disk[p] == s.disk[p];
    PointersDiffer(sb, t, owner[b := Nobody], p);
    SetEntryFills(sb, t, j, b);
    hide Slot, Entry;
    var u := LogBlock(t, p, SetWord(t.disk[p], j, b));
    forall c | 0 <= c < sb.size
      ensures Used(sb, u.disk, c) == Used(sb, t.disk, c)
    {
      UsedIgnoresData(sb, t.disk, p, u.disk[p], c);
    }
    FillOwns(sb, t, u, owner[b := Nobody], s.inum, NDIRECT + j, b);
    assert owner[b := Nobody][b := Of(s.inum, NDIRECT + j)] == owner[b := Of(s.inum, NDIRECT + j)];
    FillKeepsFiles(sb, s, u, owner, NDIRECT + j, b, p);
  }

  lemma ClaimShape(sb: Super, s: State, b: nat)
    requires Typed(sb, s) && b < sb.size
    ensures Claim(sb, s, b).addrs == s.addrs && Claim(sb, s, b).released == s.released
  {
  }

  lemma IndirectKeeps(sb: Super, s: State, owner: map<nat, Owner>, j: nat) returns (owner': map<nat, Owner>)
    requires OwnedBy(sb, s, owner) && s.released == 0 && j < NINDIRECT && 0 < s.addrs[NDIRECT] < sb.size
    requires Indirect(sb, s, s.addrs[NDIRECT], j).Ok?
    ensures MapKeeps(sb, s, Indirect(sb, s, s.addrs[NDIRECT], j), owner', NDIRECT + j)
    ensures Indirect(sb, s, s.addrs[NDIRECT], j).block != 0
    ensures Settled(owner) ==> Settled(owner')
  {
    hide Used, GetWord, SetWord, Claim;
    var p := s.addrs[NDIRECT];
    if Entry(s, p, j) != 0 {
      owner' := owner;
      assert Slot(sb, s, s.inum, NDIRECT + j) == Entry(s, p, j);
    } else {
      var b := FirstFree(sb, s.disk, 0);
      IndirectFresh(sb, s, owner, j, b);
      owner' := owner[b := Of(s.inum, NDIRECT + j)];
    }
  }

  lemma PointersDiffer(sb: Super, s: State, owner: map<nat, Owner>, p: nat)
    requires OwnedBy(sb, s, owner) && p != 0 && Slot(sb, s, s.inum, MAXFILE) == p
    ensures forall i :: 0 <= i < sb.ninodes && i != s.inum ==> Slot(sb, s, i, MAXFILE) != p
  {
    hide Slot, Used;
  }

  /** Only the slot of file block `bn`, and for an indirect one the indirect block itself, may have
      been filled. */
  ghost predicate GrewAt(sb: Super, s: State, t: State, bn: nat)
  {
    && Typed(sb, s) && Typed(sb, t) && t.inum == s.inum
    && (bn >= NDIRECT ==> Slot(sb, t, s.inum, MAXFILE) != 0)
    && forall i, k :: 0 <= i < sb.ninodes && 0 <= k <= MAXFILE
                      && !(i == s.inum && (k == bn || (k == MAXFILE && bn >= NDIRECT))) ==>
         Slot(sb, t, i, k) == Slot(sb, s, i, k)
  }

  /** `bmap` of a legal block number keeps the ownership of every block and the contents of every
      file, and returns the block that now holds file block `bn`. */
  lemma BmapKeeps(sb: Super, s: State, owner: map<nat, Owner>, bn: nat) returns (owner': map<nat, Owner>)
    requires OwnedBy(sb, s, owner) && s.released == 0 && bn < MAXFILE && Bmap(sb, s, bn).Ok?
    ensures var r := Bmap(sb, s, bn);
            && OwnedBy(sb, r.state, owner') && r.state.released == 0 && r.state.inum == s.inum
            && Slot(sb, r.state, s.inum, bn) == r.block != 0
            && SameFiles(sb, s, r.state) && SameInodes(sb, s, r.state) && GrewAt(sb, s, r.state, bn)
            && r.block in owner' && owner'[r.block] == Of(s.inum, bn)
    ensures Settled(owner) ==> Settled(owner')
  {
    hide Slot, Filled, SameSlots, SameInodes, SameFiles, Direct, Indirect, GrewAt, Settled;
    assert Typed(sb, s);
    hide OwnedBy;
    if bn < NDIRECT {
      owner' := DirectKeeps(sb, s, owner, bn);
      MappedOnce(sb, s, Bmap(sb, s, bn).state, bn, Bmap(sb, s, bn).block);
    } else {
      var p, r := Direct(sb, s, NDIRECT), Bmap(sb, s, bn);
      var mid := DirectKeeps(sb, s, owner, NDIRECT);
      PointerIsAddr(sb, p.state);
      MappedHolds(sb, s, p.state, MAXFILE, p.block);
      owner' := IndirectKeeps(sb, p.state, mid, bn - NDIRECT);
      MappedTwice(sb, s, p.state, r.state, bn, p.block, r.block);
      KeptTwice(sb, s, p.state, r.state);
    }
  }

  lemma MappedHolds(sb: Super, s: State, t: State, k: nat, b: nat)
    requires Mapped(sb, s, t, k, b)
    ensures Slot(sb, t, s.inum, k) == b
  {
    hide Slot;
  }

  lemma MappedOnce(sb: Super, s: State, t: State, bn: nat, b: nat)
    requires bn < NDIRECT && Mapped(sb, s, t, bn, b)
    ensures Slot(sb, t, s.inum, bn) == b && GrewAt(sb, s, t, bn)
  {
    hide Slot;
  }

  lemma MappedTwice(sb: Super, s: State, t: State, u: State, bn: nat, p: nat, b: nat)
    requires NDIRECT <= bn < MAXFILE && p != 0 && Mapped(sb, s, t, MAXFILE, p) && Mapped(sb, t, u, bn, b)
    ensures Slot(sb, u, s.inum, bn) == b && GrewAt(sb, s, u, bn)
  {
    hide Slot;
  }

  lemma KeptTwice(sb: Super, s: State, t: State, u: State)
    requires SameFiles(sb, s, t) && SameFiles(sb, t, u) && SameInodes(sb, s, t) && SameInodes(sb, t, u)
    ensures SameFiles(sb, s, u) && SameInodes(sb, s, u)
  {
    hide FileBlock;
  }

  /** A block that is there is found without changing anything. */
  lemma BmapPresent(sb: Super, s: State, owner: map<nat, Owner>, bn: nat)
    requires OwnedBy(sb, s, owner) && s.released == 0 && bn < MAXFILE && Slot(sb, s, s.inum, bn) != 0
    ensures Bmap(sb, s, bn) == Ok(s, Slot(sb, s, s.inum, bn))
  {
  }

  lemma PointerIsAddr(sb: Super, s: State)
    requires Typed(sb, s)
    ensures Slot(sb, s, s.inum, MAXFILE) == s.addrs[NDIRECT]
  {
  }
}

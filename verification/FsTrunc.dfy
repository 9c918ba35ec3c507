/** Truncation: `itrunc` frees every block of the locked inode exactly once. */
module FsTrunc {
  import opened Blocks
  import opened FsLayout
  import opened FsBlocks
  import opened FsFiles

  // ---------------------------------------------------------------- the operation

  function FreeDirect(sb: Super, s: State, k: nat): (r: Result)
    requires Typed(sb, s) && k < NDIRECT
    ensures r.Ok? ==> Typed(sb, r.state)
  {
    if s.addrs[k] == 0 then Ok(s, 0)
    else if s.addrs[k] >= sb.size then Panic
    else
      var f := Bfree(sb, s, s.addrs[k]);
      if f.Panic? then Panic else Ok(SetAddr(f.state, k, 0), 0)
  }

  function FreeDirects(sb: Super, s: State, k: nat): (r: Result)
    requires Typed(sb, s) && k <= NDIRECT
    ensures r.Ok? ==> Typed(sb, r.state)
    decreases NDIRECT - k
  {
    if k == NDIRECT then Ok(s, 0)
    else
      var f := FreeDirect(sb, s, k);
      if f.Panic? then Panic else FreeDirects(sb, f.state, k + 1)
  }

  /** Free what entry `j` of the indirect block names; the entry itself is left in the block. */
  function FreeEntry(sb: Super, s: State, j: nat): (r: Result)
    requires Typed(sb, s) && j < NINDIRECT && s.addrs[NDIRECT] < sb.size
    ensures r.Ok? ==> Typed(sb, r.state) && r.state.addrs == s.addrs
  {
    var a := Entry(s, s.addrs[NDIRECT], j);
    if a == 0 then Ok(s.(released := j + 1), 0)
    else if a >= sb.size then Panic
    else
      var f := Bfree(sb, s, a);
      if f.Panic? then Panic else Ok(f.state.(released := j + 1), 0)
  }

  function FreeEntries(sb: Super, s: State, j: nat): (r: Result)
    requires Typed(sb, s) && j <= NINDIRECT && s.addrs[NDIRECT] < sb.size
    ensures r.Ok? ==> Typed(sb, r.state) && r.state.addrs == s.addrs
    decreases NINDIRECT - j
  {
    if j == NINDIRECT then Ok(s, 0)
    else
      var f := FreeEntry(sb, s, j);
      if f.Panic? then Panic else FreeEntries(sb, f.state, j + 1)
  }

  function FreeIndirect(sb: Super, s: State): (r: Result)
    requires Typed(sb, s)
    ensures r.Ok? ==> Typed(sb, r.state)
  {
    var p := s.addrs[NDIRECT];
    if p == 0 then Ok(s, 0)
    else if p >= sb.size then Panic
    else
      var e := FreeEntries(sb, s, 0);
      if e.Panic? then Panic
      else
        var f := Bfree(sb, e.state, p);
        if f.Panic? then Panic else Ok(SetAddr(f.state, NDIRECT, 0).(released := 0), 0)
  }

  function Itrunc(sb: Super, s: State): (r: Result)
    requires Typed(sb, s)
    ensures r.Ok? ==> Typed(sb, r.state)
  {
    var d := FreeDirects(sb, s, 0);
    if d.Panic? then Panic
    else
      var i := FreeIndirect(sb, d.state);
      if i.Panic? then Panic else Ok(Iupdate(sb, i.state.(size := 0)), 0)
  }

  // ---------------------------------------------------------------- freeing one slot

  ghost predicate Emptied(sb: Super, s: State, t: State, k: nat)
  {
    && Typed(sb, s) && Typed(sb, t) && k <= MAXFILE && t.inum == s.inum
    && Slot(sb, t, s.inum, k) == 0
    && forall i, l :: 0 <= i < sb.ninodes && 0 <= l <= MAXFILE && (i != s.inum || l != k) ==>
         Slot(sb, t, i, l) == Slot(sb, s, i, l)
  }

  ghost predicate SameData(sb: Super, s: State, t: State)
  {
    && Typed(sb, s) && Typed(sb, t)
    && forall c :: sb.nmeta <= c < sb.size ==> t.disk[c] == s.disk[c]
  }

  /** What freeing keeps: the other files, the inode blocks, and exact ownership. */
  ghost predicate FreeKeeps(sb: Super, s: State, t: State, owner: map<nat, Owner>, owner': map<nat, Owner>)
  {
    && OwnedBy(sb, t, owner') && SameOtherFiles(sb, s, t) && SameInodes(sb, s, t)
    && (Settled(owner) ==> Settled(owner')) && Shrunk(s.inum, owner, owner')
  }

  /** Only blocks of inode `inum` have lost their owner. */
  ghost predicate Shrunk(inum: nat, owner: map<nat, Owner>, owner': map<nat, Owner>)
  {
    && (forall b :: b in owner' ==> b in owner && owner'[b] == owner[b])
    && (forall b :: b in owner && !(owner[b].Of? && owner[b].inum == inum) ==> b in owner')
  }

  lemma FreeOwns(sb: Super, s: State, t: State, owner: map<nat, Owner>, k: nat, b: nat)
    requires OwnedBy(sb, s, owner) && k <= MAXFILE && b != 0 && Slot(sb, s, s.inum, k) == b
    requires Emptied(sb, s, t, k) && SameData(sb, s, t) && SameInodes(sb, s, t)
    requires forall c :: 0 <= c < sb.size ==> Used(sb, t.disk, c) == (c != b && Used(sb, s.disk, c))
    ensures FreeKeeps(sb, s, t, owner, owner - {b})
  {
    hide Slot, Used;
    assert b in owner && owner[b] == Of(s.inum, k);
    forall i, n | 0 <= i < sb.ninodes && i != s.inum && 0 <= n < MAXFILE
      ensures FileBlock(sb, t, i, n) == FileBlock(sb, s, i, n)
    {
      var a := Slot(sb, s, i, n);
      assert a != 0 ==> a in owner;
    }
  }

  lemma BfreeOwned(sb: Super, s: State, owner: map<nat, Owner>, b: nat)
    requires OwnedBy(sb, s, owner) && b in owner
    ensures b < sb.size && Bfree(sb, s, b).Ok?
    ensures var t := Bfree(sb, s, b).state;
            && SameSlots(sb, s, t) && SameInodes(sb, s, t) && SameData(sb, s, t)
            && t.addrs == s.addrs && t.released == s.released
            && forall c :: 0 <= c < sb.size ==> Used(sb, t.disk, c) == (c != b && Used(sb, s.disk, c))
  {
    hide Slot, Used;
    var m := BitmapBlock(sb, b);
    var data := MarkUsed(sb, s.disk, b, false)[m];
    assert sb.bmapstart <= m < sb.nmeta;
    assert forall i :: 0 <= i < sb.ninodes && Slot(sb, s, i, MAXFILE) != 0 ==> Slot(sb, s, i, MAXFILE) in owner;
    WriteKeepsSlots(sb, s, m, data);
    forall c | 0 <= c < sb.size
      ensures Used(sb, LogBlock(s, m, data).disk, c) == (c != b && Used(sb, s.disk, c))
    {
      UsedAfterMark(sb, s.disk, b, false, c);
    }
  }

  lemma FreeDirectKeeps(sb: Super, s: State, owner: map<nat, Owner>, k: nat) returns (owner': map<nat, Owner>)
    requires OwnedBy(sb, s, owner) && s.released == 0 && k < NDIRECT
    ensures FreeDirect(sb, s, k).Ok?
    ensures var t := FreeDirect(sb, s, k).state;
            FreeKeeps(sb, s, t, owner, owner') && Emptied(sb, s, t, k) && t.released == 0
  {
    hide Used, GetWord;
    var b := s.addrs[k];
    assert Slot(sb, s, s.inum, k) == b;
    if b == 0 {
      owner' := owner;
    } else {
      BfreeOwned(sb, s, owner, b);
      var f := Bfree(sb, s, b).state;
      ClearAddrEmpties(sb, f, k);
      hide Slot;
      owner' := owner - {b};
      FreeOwns(sb, s, SetAddr(f, k, 0), owner, k, b);
    }
  }

  lemma ClearAddrEmpties(sb: Super, s: State, k: nat)
    requires Typed(sb, s) && k < NDIRECT
    ensures Emptied(sb, s, SetAddr(s, k, 0), k)
  {
  }

  lemma FreeEntryKeeps(sb: Super, s: State, owner: map<nat, Owner>, j: nat) returns (owner': map<nat, Owner>)
    requires OwnedBy(sb, s, owner) && s.released == j < NINDIRECT && 0 < s.addrs[NDIRECT] < sb.size
    ensures FreeEntry(sb, s, j).Ok?
    ensures var t := FreeEntry(sb, s, j).state;
            FreeKeeps(sb, s, t, owner, owner') && Emptied(sb, s, t, NDIRECT + j) && t.released == j + 1
  {
    hide Used, GetWord;
    var p := s.addrs[NDIRECT];
    var b := Entry(s, p, j);
    assert Slot(sb, s, s.inum, NDIRECT + j) == b && Slot(sb, s, s.inum, MAXFILE) == p;
    if b == 0 {
      owner' := owner;
      ReleaseEmpties(sb, s, j);
      hide Slot;
      NothingFreed(sb, s, owner, j);
    } else {
      BfreeOwned(sb, s, owner, b);
      var f := Bfree(sb, s, b).state;
      ReleaseEmpties(sb, f, j);
      hide Slot, Entry;
      owner' := owner - {b};
      FreeOwns(sb, s, f.(released := j + 1), owner, NDIRECT + j, b);
    }
  }

  lemma NothingFreed(sb: Super, s: State, owner: map<nat, Owner>, j: nat)
    requires OwnedBy(sb, s, owner) && j < NINDIRECT && Slot(sb, s, s.inum, NDIRECT + j) == 0
    requires Emptied(sb, s, s.(released := j + 1), NDIRECT + j)
    ensures FreeKeeps(sb, s, s.(released := j + 1), owner, owner)
  {
    hide Slot, Used;
  }

  lemma ReleaseEmpties(sb: Super, s: State, j: nat)
    requires Typed(sb, s) && s.released == j < NINDIRECT && 0 < s.addrs[NDIRECT] < sb.size
    ensures Emptied(sb, s, s.(released := j + 1), NDIRECT + j)
  {
    hide GetWord;
  }

  // ---------------------------------------------------------------- freeing them all

  /** The slots of the locked inode after those in `[lo, hi)` have been emptied. */
  ghost predicate EmptiedRange(sb: Super, s: State, t: State, lo: nat, hi: nat)
  {
    && Typed(sb, s) && Typed(sb, t) && t.inum == s.inum
    && forall n :: 0 <= n <= MAXFILE ==>
         Slot(sb, t, s.inum, n) == if lo <= n < hi then 0 else Slot(sb, s, s.inum, n)
  }

  lemma FreeCompose(sb: Super, s: State, t: State, u: State, o0: map<nat, Owner>, o1: map<nat, Owner>, o2: map<nat, Owner>)
    requires FreeKeeps(sb, s, t, o0, o1) && FreeKeeps(sb, t, u, o1, o2)
    ensures FreeKeeps(sb, s, u, o0, o2)
  {
    hide Slot, FileBlock, OwnedBy, Settled;
  }

  lemma FreeNothing(sb: Super, s: State, owner: map<nat, Owner>, k: nat)
    requires OwnedBy(sb, s, owner)
    ensures FreeKeeps(sb, s, s, owner, owner) && EmptiedRange(sb, s, s, k, k)
  {
    hide Slot, FileBlock, Used;
  }

  lemma EmptiedStep(sb: Super, s: State, t: State, u: State, k: nat, hi: nat)
    requires Emptied(sb, s, t, k) && EmptiedRange(sb, t, u, k + 1, hi) && k < hi <= MAXFILE
    ensures EmptiedRange(sb, s, u, k, hi)
  {
    hide Slot;
  }

  lemma {:induction false} FreeDirectsKeeps(sb: Super, s: State, owner: map<nat, Owner>, k: nat)
    returns (owner': map<nat, Owner>)
    requires OwnedBy(sb, s, owner) && s.released == 0 && k <= NDIRECT
    ensures FreeDirects(sb, s, k).Ok?
    ensures var t := FreeDirects(sb, s, k).state;
            FreeKeeps(sb, s, t, owner, owner') && EmptiedRange(sb, s, t, k, NDIRECT) && t.released == 0
    decreases NDIRECT - k
  {
    assert Typed(sb, s);
    hide Slot, Used, FreeDirect, OwnedBy, SameOtherFiles, SameInodes, Emptied, EmptiedRange, Shrunk, Settled;
    if k == NDIRECT {
      owner' := owner;
      FreeNothing(sb, s, owner, NDIRECT);
    } else {
      var mid := FreeDirectKeeps(sb, s, owner, k);
      var t := FreeDirect(sb, s, k).state;
      owner' := FreeDirectsKeeps(sb, t, mid, k + 1);
      var u := FreeDirects(sb, s, k).state;
      FreeCompose(sb, s, t, u, owner, mid, owner');
      EmptiedStep(sb, s, t, u, k, NDIRECT);
    }
  }

  lemma {:induction false} FreeEntriesKeeps(sb: Super, s: State, owner: map<nat, Owner>, j: nat)
    returns (owner': map<nat, Owner>)
    requires OwnedBy(sb, s, owner) && s.released == j <= NINDIRECT && 0 < s.addrs[NDIRECT] < sb.size
    ensures FreeEntries(sb, s, j).Ok?
    ensures var t := FreeEntries(sb, s, j).state;
            FreeKeeps(sb, s, t, owner, owner') && EmptiedRange(sb, s, t, NDIRECT + j, MAXFILE) && t.released == NINDIRECT
    decreases NINDIRECT - j
  {
    assert Typed(sb, s);
    hide Slot, Used, FreeEntry, OwnedBy, SameOtherFiles, SameInodes, Emptied, EmptiedRange, Shrunk, Settled;
    if j == NINDIRECT {
      owner' := owner;
      FreeNothing(sb, s, owner, MAXFILE);
    } else {
      var mid := FreeEntryKeeps(sb, s, owner, j);
      var t := FreeEntry(sb, s, j).state;
      owner' := FreeEntriesKeeps(sb, t, mid, j + 1);
      var u := FreeEntries(sb, s, j).state;
      FreeCompose(sb, s, t, u, owner, mid, owner');
      EmptiedStep(sb, s, t, u, NDIRECT + j, MAXFILE);
    }
  }

  lemma ClearPointerEmpties(sb: Super, s: State)
    requires Typed(sb, s) && s.released == NINDIRECT
    ensures Emptied(sb, s, SetAddr(s, NDIRECT, 0).(released := 0), MAXFILE)
  {
    hide GetWord;
  }

  lemma FreeIndirectKeeps(sb: Super, s: State, owner: map<nat, Owner>) returns (owner': map<nat, Owner>)
    requires OwnedBy(sb, s, owner) && s.released == 0
    ensures FreeIndirect(sb, s).Ok?
    ensures var t := FreeIndirect(sb, s).state;
            FreeKeeps(sb, s, t, owner, owner') && EmptiedRange(sb, s, t, NDIRECT, MAXFILE + 1) && t.released == 0
  {
    hide Used, GetWord, FreeEntries;
    var p := s.addrs[NDIRECT];
    assert Slot(sb, s, s.inum, MAXFILE) == p;
    if p == 0 {
      owner' := owner;
    } else {
      var mid := FreeEntriesKeeps(sb, s, owner, 0);
      var e := FreeEntries(sb, s, 0).state;
      assert Slot(sb, e, s.inum, MAXFILE) == p;
      BfreeOwned(sb, e, mid, p);
      var f := Bfree(sb, e, p).state;
      ClearPointerEmpties(sb, f);
      hide Slot;
      var t := SetAddr(f, NDIRECT, 0).(released := 0);
      owner' := mid - {p};
      FreeOwns(sb, e, t, mid, MAXFILE, p);
      hide OwnedBy, SameOtherFiles, SameInodes, Shrunk;
      FreeCompose(sb, s, e, t, owner, mid, owner');
    }
  }

  lemma FreeAllKeeps(sb: Super, s: State, owner: map<nat, Owner>) returns (i: State, owner': map<nat, Owner>)
    requires OwnedBy(sb, s, owner) && s.released == 0
    ensures Typed(sb, i) && Itrunc(sb, s) == Ok(Iupdate(sb, i.(size := 0)), 0)
    ensures FreeKeeps(sb, s, i, owner, owner') && EmptiedRange(sb, s, i, 0, MAXFILE + 1) && i.released == 0
  {
    hide Slot, Used, FreeDirects, FreeIndirect, Iupdate;
    var mid := FreeDirectsKeeps(sb, s, owner, 0);
    var d := FreeDirects(sb, s, 0).state;
    owner' := FreeIndirectKeeps(sb, d, mid);
    i := FreeIndirect(sb, d).state;
    hide OwnedBy, SameOtherFiles, SameInodes, Shrunk;
    FreeCompose(sb, s, d, i, owner, mid, owner');
  }

  /** From a sound state `itrunc` never panics, so "freeing free block" cannot happen. It empties
      the inode, frees exactly the blocks the inode owned, and leaves every other file alone. */
  lemma ItruncFreesOwnBlocks(sb: Super, s: State, owner: map<nat, Owner>) returns (owner': map<nat, Owner>)
    requires FsInv(sb, s, owner)
    ensures Itrunc(sb, s).Ok?
    ensures var t := Itrunc(sb, s).state;
            && FsInv(sb, t, owner') && t.inum == s.inum && t.size == 0
            && (forall k :: 0 <= k <= MAXFILE ==> Slot(sb, t, s.inum, k) == 0)
            && (forall b :: 0 <= b < sb.size ==>
                  (Used(sb, t.disk, b) <==> Used(sb, s.disk, b) && !(b in owner && owner[b].inum == s.inum)))
            && (forall i :: 0 <= i < sb.ninodes && i != s.inum ==> Contents(sb, t, i) == Contents(sb, s, i))
  {
    hide Slot, Used, Itrunc, InodeWord, FileBlock, ByteAt;
    var i;
    i, owner' := FreeAllKeeps(sb, s, owner);
    var g := i.(size := 0);
    var t := Iupdate(sb, g);
    ResizeKeeps(sb, i, owner', 0);
    IupdateKeeps(sb, g, owner');
    SizeOfOthers(sb, s, i);
    TruncatedDense(sb, s, i, t);
    OwnersLeft(sb, s, t, owner, owner');
    hide OwnedBy;
    forall j | 0 <= j < sb.ninodes && j != s.inum
      ensures Contents(sb, t, j) == Contents(sb, s, j)
    {
      OtherContents(sb, s, t, j);
    }
  }

  lemma TruncatedDense(sb: Super, s: State, i: State, t: State)
    requires AllDense(sb, s) && SameOtherFiles(sb, s, i) && EmptiedRange(sb, s, i, 0, MAXFILE + 1)
    requires t.size == 0 && t.inum == s.inum && SameSlots(sb, i, t) && SameFiles(sb, i, t)
    requires SameOtherSizes(sb, s, t)
    ensures AllDense(sb, t) && SameOtherFiles(sb, s, t)
    ensures forall k :: 0 <= k <= MAXFILE ==> Slot(sb, t, s.inum, k) == 0
  {
    hide Slot, FileBlock;
    assert SameOtherFiles(sb, s, t);
    DenseAfterWrite(sb, s, t);
  }

  lemma OwnersLeft(sb: Super, s: State, t: State, owner: map<nat, Owner>, owner': map<nat, Owner>)
    requires OwnedBy(sb, s, owner) && OwnedBy(sb, t, owner') && Settled(owner) && Shrunk(s.inum, owner, owner')
    requires forall k :: 0 <= k <= MAXFILE ==> Slot(sb, t, s.inum, k) == 0
    ensures forall b :: 0 <= b < sb.size ==>
              (Used(sb, t.disk, b) <==> Used(sb, s.disk, b) && !(b in owner && owner[b].inum == s.inum))
  {
    hide Slot, Used;
    forall b | b in owner'
      ensures owner'[b].inum != s.inum
    {
      assert owner'[b] == owner[b] && owner[b].Of? && b >= sb.nmeta >= 1;
    }
  }
}

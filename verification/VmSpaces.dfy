/** Making, copying and freeing whole address spaces. */
module VmSpaces {
  import opened VmPages
  import opened Vm

  // ---------------------------------------------------------------- freeing

  function FreedRoles(role: Roles, d: nat): (r: Roles)
    ensures r.Keys == role.Keys
  {
    map q | q in role :: if OwnedBy(role[q], q, d) then Free else role[q]
  }

  /** Everything of directory `d` is free, everything else in use as it was. */
  ghost predicate Freed(a: Snap, b: Snap, d: nat)
  {
    b.role == FreedRoles(a.role, d) && Isolated(a, b, d)
  }

  ghost predicate NoUsers(role: Roles, d: nat)
  {
    forall q :: q in role && role[q].User? ==> role[q].d != d
  }

  /** `freevm` after it has freed the tables of the first `i` directory entries. */
  ghost function FreeingRoles(role: Roles, d: nat, i: nat): (r: Roles)
    ensures r.Keys == role.Keys
  {
    map q | q in role ::
      if role[q].Table? && role[q].d == d && role[q].i < i then Free
      else if OwnedBy(role[q], q, d) then Held
      else role[q]
  }

  lemma FreeingStarts(b: Snap, d: nat)
    requires Good(b, d) && NoUsers(b.role, d)
    ensures Owned(b.mem, FreeingRoles(b.role, d, 0))
    ensures forall q: nat :: Has(FreeingRoles(b.role, d, 0), q, Free) <==> Has(b.role, q, Free)
  {
    Disown(b.mem, b.role, d);
    assert FreeingRoles(b.role, d, 0) == Disowned(b.role, d);
  }

  lemma FreeingStep(b: Snap, d: nat, i: nat)
    requires Good(b, d) && i < ENTRIES
    ensures if b.mem[d][i].present
            then var t := b.mem[d][i].frame;
                 && t != d && Has(FreeingRoles(b.role, d, i), t, Held) && OwnedBy(b.role[t], t, d)
                 && FreeingRoles(b.role, d, i)[t := Free] == FreeingRoles(b.role, d, i + 1)
            else FreeingRoles(b.role, d, i) == FreeingRoles(b.role, d, i + 1)
  {
    OwnedPage(b.mem, b.role, d);
    forall q | q in b.role && b.role[q] == Table(d, i)
      ensures b.mem[d][i].present && b.mem[d][i].frame == q
    {
      OwnedPage(b.mem, b.role, q);
    }
  }

  lemma FreeingEnds(b: Snap, d: nat)
    requires Good(b, d) && NoUsers(b.role, d)
    ensures Has(FreeingRoles(b.role, d, ENTRIES), d, Held)
    ensures FreeingRoles(b.role, d, ENTRIES)[d := Free] == FreedRoles(b.role, d)
  {
    forall q | q in b.role && b.role[q].Table? && b.role[q].d == d
      ensures b.role[q].i < ENTRIES
    {
      OwnedPage(b.mem, b.role, q);
    }
  }

  /** Freeing the user pages first and then the rest frees everything. */
  lemma FreedInAll(a: Snap, b: Snap, c: Snap, d: nat)
    requires Shrunk(a, b, d, 0, USERPAGES) && c.role == FreedRoles(b.role, d) && Isolated(b, c, d)
    ensures Freed(a, c, d)
  {
    AllShrunk(a, b, d);
    GoodSized(a, d);
    hide Owned, Pte, ShrunkPtes;
  }

  lemma AllShrunk(a: Snap, b: Snap, d: nat)
    requires Shrunk(a, b, d, 0, USERPAGES)
    ensures NoUsers(b.role, d) && FreedRoles(b.role, d) == FreedRoles(a.role, d)
  {
    hide Owned, Pte, KeepsContents, ShrunkPtes;
    forall q | q in a.role && a.role[q].User? && a.role[q].d == d
      ensures a.role[q].v < USERPAGES
    {
      UserIsMapped(a, d, q);
    }
    assert FreedRoles(b.role, d) == FreedRoles(a.role, d);
  }

  // ---------------------------------------------------------------- making

  /** A directory made since `a`, out of pages that were free. */
  ghost predicate Built(a: Snap, b: Snap, d: nat)
  {
    && Owned(a.mem, a.role) && Good(b, d) && Has(a.role, d, Free) && Isolated(a, b, d)
    && forall q :: q in a.role && b.role[q] != a.role[q] ==> a.role[q].Free? && OwnedBy(b.role[q], q, d)
  }

  lemma NothingOwned(a: Snap, d: nat, q: nat)
    requires Owned(a.mem, a.role) && Has(a.role, d, Free) && q in a.role
    ensures !OwnedBy(a.role[q], q, d)
  {
    OwnedPage(a.mem, a.role, q);
  }

  /** Freeing it again restores the free pages. */
  lemma BuiltThenFreed(a: Snap, b: Snap, c: Snap, d: nat)
    requires Built(a, b, d) && Freed(b, c, d)
    ensures c.role == a.role && Isolated(a, c, d)
  {
    forall q | q in a.role
      ensures c.role[q] == a.role[q] && !OwnedBy(a.role[q], q, d)
    {
      NothingOwned(a, d, q);
    }
  }

  lemma NewDir(a: Snap, d: nat)
    requires Owned(a.mem, a.role) && Has(a.role, d, Free)
    ensures var b := Snap(a.mem[d := Filled(ZERO)], a.role[d := Dir]);
            Built(a, b, d) && forall v :: 0 <= v < PAGES ==> !Pte(b.mem, d, v).present
  {
    LoosePage(a.mem, a.role, d, Dir, Filled(ZERO));
  }

  lemma BuiltExtends(a: Snap, b: Snap, c: Snap, d: nat)
    requires Built(a, b, d) && Extends(b, c, d)
    ensures Built(a, c, d)
  {
    forall q | q in a.role
      ensures !OwnedBy(a.role[q], q, d)
    {
      NothingOwned(a, d, q);
    }
    hide Owned, Pte, SamePtes;
  }

  // ---------------------------------------------------------------- the kernel part

  predicate KernelMaps(v: nat)
  {
    0x80000 <= v < 0x8E000 || 0xFE000 <= v < PAGES
  }

  /** The kernel's mapping of page `v`; its text and read-only data end at page `data`. */
  function KernelWord(v: nat, data: nat): (w: Word)
    requires KernelMaps(v)
  {
    if v < 0x8E000 then Word(v - 0x80000, true, if v < 0x80100 || v >= data then 2 else 0)
    else Word(v, true, 2)
  }

  /** The kernel part up to page `n` is there, and nothing else. */
  ghost predicate KernelPart(b: Snap, d: nat, data: nat, n: nat)
    requires Good(b, d)
  {
    forall v :: 0 <= v < PAGES ==>
      if KernelMaps(v) && v < n then Pte(b.mem, d, v) == KernelWord(v, data) else !Pte(b.mem, d, v).present
  }

  /** In every address space physical page `p` below 0xE000 is at virtual page 0x80000 + `p`, writable
      except the kernel's text; the device pages are mapped to themselves; nothing else is there. */
  lemma KernelIsDirectMap(b: Snap, d: nat, data: nat, p: nat)
    requires Good(b, d) && 0x80100 < data < 0x8E000 && KernelPart(b, d, data, PAGES)
    ensures p < 0xE000 ==>
              Pte(b.mem, d, 0x80000 + p) == Word(p, true, if 0x100 <= p && 0x80000 + p < data then 0 else 2)
    ensures 0xFE000 <= p < 0x100000 ==> Pte(b.mem, d, p) == Word(p, true, 2)
    ensures p < 0x80000 || 0x8E000 <= p < 0xFE000 ==> !Pte(b.mem, d, p).present
  {
    hide Pte, Owned;
    GoodDir(b, d);
  }

  function PutKernel(w: Snap, d: nat, v: nat, word: Word): (c: Snap)
    requires d in w.mem && v / ENTRIES < |w.mem[d]|
    requires var t := w.mem[d][v / ENTRIES].frame; t in w.mem && v % ENTRIES < |w.mem[t]|
  {
    var t := w.mem[d][v / ENTRIES].frame;
    w.(mem := w.mem[t := w.mem[t][v % ENTRIES := word]])
  }

  lemma PutKernelOk(w: Snap, d: nat, v: nat, word: Word)
    requires HasTable(w, d, v) && USERPAGES <= v
    ensures var c := PutKernel(w, d, v, word);
            && Good(c, d) && Pte(c.mem, d, v) == word
            && forall u :: 0 <= u < PAGES && u != v ==> Pte(c.mem, d, u) == Pte(w.mem, d, u)
  {
    var t, c := w.mem[d][v / ENTRIES].frame, PutKernel(w, d, v, word);
    KernelEntry(w.mem, w.role, d, t, v / ENTRIES, v % ENTRIES, word);
    OwnedPage(w.mem, w.role, d);
    forall u | 0 <= u < PAGES && u != v
      ensures Pte(c.mem, d, u) == Pte(w.mem, d, u)
    {
      if w.mem[d][u / ENTRIES].present {
        assert Has(w.role, w.mem[d][u / ENTRIES].frame, Table(d, u / ENTRIES));
        assert u == u / ENTRIES * ENTRIES + u % ENTRIES && v == v / ENTRIES * ENTRIES + v % ENTRIES;
      }
    }
  }

  lemma KernelStep(a: Snap, b: Snap, w: Snap, d: nat, data: nat, v: nat)
    requires Built(a, b, d) && KernelPart(b, d, data, v) && KernelMaps(v) && Extends(b, w, d) && HasTable(w, d, v)
    ensures var c := PutKernel(w, d, v, KernelWord(v, data)); Built(a, c, d) && KernelPart(c, d, data, v + 1)
  {
    var c := PutKernel(w, d, v, KernelWord(v, data));
    BuiltExtends(a, b, w, d);
    PutKernelOk(w, d, v, KernelWord(v, data));
    KernelPartStep(b, w, c, d, data, v);
    TablesNotOthers(a, w, d, w.mem[d][v / ENTRIES].frame);
    hide Owned, Pte, KernelPart, Extends;
  }

  lemma TablesNotOthers(a: Snap, w: Snap, d: nat, t: nat)
    requires Built(a, w, d) && t in w.role && w.role[t].Table? && w.role[t].d == d
    ensures t in a.role && a.role[t].Free?
  {
    if w.role[t] == a.role[t] { NothingOwned(a, d, t); }
  }

  lemma KernelPartStep(b: Snap, w: Snap, c: Snap, d: nat, data: nat, v: nat)
    requires Good(b, d) && Good(w, d) && Good(c, d) && KernelPart(b, d, data, v) && KernelMaps(v) && SamePtes(b, w, d)
    requires Pte(c.mem, d, v) == KernelWord(v, data)
    requires forall u :: 0 <= u < PAGES && u != v ==> Pte(c.mem, d, u) == Pte(w.mem, d, u)
    ensures KernelPart(c, d, data, v + 1)
  {
    GoodDir(b, d);
    GoodDir(w, d);
    GoodDir(c, d);
    hide Owned, Pte;
    forall u | 0 <= u < PAGES
      ensures if KernelMaps(u) && u < v + 1 then Pte(c.mem, d, u) == KernelWord(u, data) else !Pte(c.mem, d, u).present
    {
      assert SamePte(Pte(b.mem, d, u), Pte(w.mem, d, u));
    }
  }

  // ---------------------------------------------------------------- copying

  /** Page `v` of directory `d` has the contents and flags of page `v` of the parent in `a`. */
  ghost predicate CopiedAt(a: Snap, b: Snap, src: nat, d: nat, v: nat)
    requires Good(a, src) && Good(b, d) && v < PAGES
  {
    var x, y := Pte(a.mem, src, v), Pte(b.mem, d, v);
    && y.present && y.flags == x.flags && Has(b.role, y.frame, User(d, v))
    && x.frame in a.mem && b.mem[y.frame] == a.mem[x.frame]
  }

  /** The pages of the parent below `n`, the kernel part, and nothing else. */
  ghost predicate CopyPart(a: Snap, b: Snap, src: nat, d: nat, data: nat, n: nat)
    requires Good(a, src) && Good(b, d)
  {
    forall v :: 0 <= v < PAGES ==>
      if KernelMaps(v) then Pte(b.mem, d, v) == KernelWord(v, data)
      else if v < n && v < USERPAGES then CopiedAt(a, b, src, d, v)
      else !Pte(b.mem, d, v).present
  }

  lemma CopyStarts(a: Snap, b: Snap, src: nat, d: nat, data: nat)
    requires Good(a, src) && Good(b, d) && KernelPart(b, d, data, PAGES)
    ensures CopyPart(a, b, src, d, data, 0)
  {
    GoodDir(b, d);
    hide Owned, Pte;
  }

  /** The parent is as it was. */
  lemma ParentSame(a: Snap, b: Snap, src: nat, d: nat, v: nat)
    requires Good(a, src) && Built(a, b, d) && v < USERPAGES && Pte(a.mem, src, v).present
    ensures src != d && Good(b, src) && Pte(b.mem, src, v) == Pte(a.mem, src, v)
    ensures var p := Pte(a.mem, src, v).frame; p in a.mem && p in b.mem && b.mem[p] == a.mem[p] && |a.mem[p]| == ENTRIES
  {
    MappedIsUser(a, src, v);
    assert b.role[src] == Dir && b.mem[src] == a.mem[src];
    var t, p := a.mem[src][v / ENTRIES].frame, Pte(a.mem, src, v).frame;
    assert !OwnedBy(a.role[t], t, d) && !OwnedBy(a.role[p], p, d);
    assert b.mem[t] == a.mem[t];
  }

  function HoldWith(a: Snap, p: nat, content: Page): (b: Snap)
  {
    Snap(a.mem[p := content], a.role[p := Held])
  }

  lemma BuiltSized(a: Snap, b: Snap, d: nat)
    requires Built(a, b, d)
    ensures Sized(a.mem, a.role) && Sized(b.mem, b.role) && Has(b.role, d, Dir)
  {
  }

  lemma HoldBuilt(a: Snap, b: Snap, d: nat, p: nat, content: Page)
    requires Built(a, b, d) && Has(b.role, p, Free) && |content| == ENTRIES
    ensures Has(a.role, p, Free) && p != d && Built(HoldWith(a, p, content), HoldWith(b, p, content), d)
  {
    hide Owned;
    BuiltSized(a, b, d);
    LoosePage(a.mem, a.role, p, Held, content);
    LoosePage(b.mem, b.role, p, Held, content);
  }

  /** Giving up the held page again. */
  lemma DropBuilt(a: Snap, b: Snap, d: nat, p: nat, x: Page, y: Page)
    requires Built(a, b, d) && Has(b.role, p, Free) && |x| == ENTRIES && |y| == ENTRIES
    ensures Built(a, Release(HoldWith(b, p, x), p, y), d)
  {
    hide Owned;
    BuiltSized(a, b, d);
    assert a.role[p].Free?;
    LoosePage(b.mem, b.role, p, Held, x);
    LoosePage(HoldWith(b, p, x).mem, HoldWith(b, p, x).role, p, Free, y);
  }

  lemma PutBuilt(a: Snap, w: Snap, d: nat, v: nat, p: nat, content: Page, flags: nat)
    requires Owned(a.mem, a.role) && Has(a.role, p, Free) && Has(a.role, d, Free) && p != d
    requires Built(HoldWith(a, p, content), w, d) && HasTable(w, d, v) && v < USERPAGES
    requires Has(w.role, p, Held) && !Pte(w.mem, d, v).present
    ensures Built(a, PutUser(w, d, v, p, flags), d)
  {
    hide Owned, Pte, Isolated;
    BuiltSized(HoldWith(a, p, content), w, d);
    TablesNotOthers(HoldWith(a, p, content), w, d, w.mem[d][v / ENTRIES].frame);
    PutUserOk(w, d, v, p, flags);
    PutIsolated(a, w, d, v, p, content, flags);
  }

  lemma PutIsolated(a: Snap, w: Snap, d: nat, v: nat, p: nat, content: Page, flags: nat)
    requires Has(a.role, p, Free) && Isolated(HoldWith(a, p, content), w, d)
    requires d in w.mem && v / ENTRIES < |w.mem[d]|
    requires var t := w.mem[d][v / ENTRIES].frame;
             t in w.mem && v % ENTRIES < |w.mem[t]| && Has(HoldWith(a, p, content).role, t, Free)
    ensures Isolated(a, PutUser(w, d, v, p, flags), d)
  {
  }

  lemma CopyPartStep(a: Snap, b: Snap, w: Snap, src: nat, d: nat, data: nat, v: nat, p: nat)
    requires Good(a, src) && Good(b, d) && CopyPart(a, b, src, d, data, v) && v < USERPAGES && Has(b.role, p, Free)
    requires Pte(a.mem, src, v).frame in a.mem
    requires var content := a.mem[Pte(a.mem, src, v).frame];
             |content| == ENTRIES && Extends(HoldWith(b, p, content), w, d) && w.mem[p] == content
    requires HasTable(w, d, v) && Has(w.role, p, Held)
    ensures !Pte(w.mem, d, v).present
    ensures var c := PutUser(w, d, v, p, Pte(a.mem, src, v).flags); Good(c, d) && CopyPart(a, c, src, d, data, v + 1)
  {
    var x := Pte(a.mem, src, v);
    var content := a.mem[x.frame];
    var h := HoldWith(b, p, content);
    LoosePtes(b, d, p, Held, content);
    assert !Pte(b.mem, d, v).present && Pte(h.mem, d, v) == Pte(b.mem, d, v);
    assert SamePte(Pte(h.mem, d, v), Pte(w.mem, d, v));
    PutUserOk(w, d, v, p, x.flags);
    var c := PutUser(w, d, v, p, x.flags);
    hide Owned, Pte, Isolated;
    forall u | 0 <= u < PAGES
      ensures if KernelMaps(u) then Pte(c.mem, d, u) == KernelWord(u, data)
              else if u < v + 1 && u < USERPAGES then CopiedAt(a, c, src, d, u)
              else !Pte(c.mem, d, u).present
    {
      assert SamePte(Pte(h.mem, d, u), Pte(w.mem, d, u)) && Pte(h.mem, d, u) == Pte(b.mem, d, u);
      if u < v { CopyStays(a, b, h, w, c, src, d, v, p, x.flags, u); }
    }
  }

  /** A page copied before is not disturbed by the next one. */
  lemma CopyStays(a: Snap, b: Snap, h: Snap, w: Snap, c: Snap, src: nat, d: nat, v: nat, p: nat,
                  flags: nat, u: nat)
    requires Good(a, src) && Good(b, d) && Good(h, d) && Good(w, d) && Good(c, d) && u < v < USERPAGES
    requires Has(b.role, p, Free) && Has(w.role, w.mem[d][v / ENTRIES].frame, Table(d, v / ENTRIES))
    requires p in h.mem && h == HoldWith(b, p, h.mem[p]) && KeepsUser(h, w, d) && MoreTables(h.role, w.role, d)
    requires c == PutUser(w, d, v, p, flags)
    requires CopiedAt(a, b, src, d, u) && Pte(c.mem, d, u) == Pte(b.mem, d, u)
    ensures CopiedAt(a, c, src, d, u)
  {
  }

  // ---------------------------------------------------------------- isolation

  /** No physical page is mapped at two user addresses, in one directory or in two, and none that is
      mapped is free, a table or a directory. */
  lemma MappedOnce(s: Snap, d: nat, v: nat, e: nat, u: nat)
    requires Good(s, d) && Good(s, e) && v < USERPAGES && u < USERPAGES
    requires Pte(s.mem, d, v).present && Pte(s.mem, e, u).present
    ensures Pte(s.mem, d, v).frame == Pte(s.mem, e, u).frame ==> d == e && v == u
    ensures var p := Pte(s.mem, d, v).frame;
            p in s.role && !s.role[p].Free? && !s.role[p].Dir? && !s.role[p].Table?
  {
    MappedIsUser(s, d, v);
    MappedIsUser(s, e, u);
  }

  /** The child's pages are its own: none of them is a page of the parent, or of anyone else who was
      there before. */
  lemma CopyIsPrivate(a: Snap, b: Snap, src: nat, d: nat, data: nat, n: nat, v: nat, q: nat)
    requires Good(a, src) && Built(a, b, d) && CopyPart(a, b, src, d, data, n) && v < n <= USERPAGES
    requires q in a.role && !a.role[q].Free?
    ensures Pte(b.mem, d, v).present && Pte(b.mem, d, v).frame != q
    ensures b.role[q] == a.role[q] && q in a.mem && q in b.mem && b.mem[q] == a.mem[q]
  {
    assert CopiedAt(a, b, src, d, v);
    NothingOwned(a, d, q);
  }
}

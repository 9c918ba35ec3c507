/** Growing, shrinking, copying and freeing address spaces. */
module Vm {
  import opened VmPages

  const PAGES: nat := 0x100000
  const PGSIZE: nat := 4096
  const KERNBASE: nat := 0x8000_0000

  /** The page number of PGROUNDUP. */
  function Up(sz: nat): (v: nat)
  {
    (sz + PGSIZE - 1) / PGSIZE
  }

  datatype Snap = Snap(mem: Memory, role: Roles)

  /** The entry for page `v`; without a table there is none. */
  ghost function Pte(mem: Memory, d: nat, v: nat): (w: Word)
    requires d in mem && |mem[d]| == ENTRIES && v < PAGES
  {
    var e := mem[d][v / ENTRIES];
    if e.present && e.frame in mem && |mem[e.frame]| == ENTRIES then mem[e.frame][v % ENTRIES] else ZERO
  }

  predicate SamePte(x: Word, y: Word)
  {
    x == y || (!x.present && !y.present)
  }

  ghost predicate Good(s: Snap, d: nat)
  {
    Owned(s.mem, s.role) && Has(s.role, d, Dir)
  }

  lemma GoodDir(s: Snap, d: nat)
    requires Good(s, d)
    ensures d in s.mem && |s.mem[d]| == ENTRIES
  {
  }

  // ---------------------------------------------------------------- how an operation may change things

  /** Only free pages and pages of directory `d` have changed. */
  ghost predicate Isolated(a: Snap, b: Snap, d: nat)
  {
    && b.role.Keys == a.role.Keys
    && forall q :: q in a.role && !a.role[q].Free? && !OwnedBy(a.role[q], q, d) ==>
         b.role[q] == a.role[q] && q in a.mem && q in b.mem && b.mem[q] == a.mem[q]
  }

  ghost predicate KeepsUser(a: Snap, b: Snap, d: nat)
  {
    forall q :: q in a.role && q in b.role && a.role[q].User? && a.role[q].d == d && b.role[q] == a.role[q] ==>
      q in a.mem && q in b.mem && b.mem[q] == a.mem[q]
  }

  /** Nothing but empty tables may have been added to directory `d`. */
  ghost predicate Extends(a: Snap, b: Snap, d: nat)
  {
    && Good(a, d) && Good(b, d) && Isolated(a, b, d) && KeepsUser(a, b, d)
    && MoreTables(a.role, b.role, d) && SamePtes(a, b, d)
  }

  ghost predicate MoreTables(a: Roles, b: Roles, d: nat)
  {
    a.Keys == b.Keys && forall q :: q in a && b[q] != a[q] ==> a[q].Free? && b[q].Table? && b[q].d == d
  }

  ghost predicate SamePtes(a: Snap, b: Snap, d: nat)
    requires Good(a, d) && Good(b, d)
  {
    forall v :: 0 <= v < PAGES ==> SamePte(Pte(a.mem, d, v), Pte(b.mem, d, v))
  }

  /** Pages `lo` to `hi` of directory `d` have been added, zeroed and writable by the user. */
  ghost predicate Grown(a: Snap, b: Snap, d: nat, lo: nat, hi: nat)
  {
    && Good(a, d) && Good(b, d) && Isolated(a, b, d) && KeepsUser(a, b, d)
    && GrownRoles(a.role, b.role, d, lo, hi) && GrownPtes(a, b, d, lo, hi)
  }

  ghost predicate GrownRoles(a: Roles, b: Roles, d: nat, lo: nat, hi: nat)
  {
    && a.Keys == b.Keys
    && forall q :: q in a && b[q] != a[q] ==>
         && a[q].Free?
         && ((b[q].Table? && b[q].d == d) || (b[q].User? && b[q].d == d && lo <= b[q].v < hi))
  }

  ghost predicate GrownPtes(a: Snap, b: Snap, d: nat, lo: nat, hi: nat)
    requires Good(a, d) && Good(b, d)
  {
    forall v :: 0 <= v < PAGES ==>
      if lo <= v < hi then ZeroedAt(b, d, v) else SamePte(Pte(a.mem, d, v), Pte(b.mem, d, v))
  }

  ghost predicate ZeroedAt(b: Snap, d: nat, v: nat)
    requires Good(b, d) && v < PAGES
  {
    var w := Pte(b.mem, d, v);
    w.present && w.flags == 6 && Has(b.role, w.frame, User(d, v)) && b.mem[w.frame] == Filled(ZERO)
  }

  function ShrunkRoles(role: Roles, d: nat, lo: nat, hi: nat): (r: Roles)
    ensures r.Keys == role.Keys
  {
    map q | q in role :: if role[q].User? && role[q].d == d && lo <= role[q].v < hi then Free else role[q]
  }

  /** The user pages `lo` to `hi` of directory `d` have been freed. */
  ghost predicate Shrunk(a: Snap, b: Snap, d: nat, lo: nat, hi: nat)
  {
    && Good(a, d) && Good(b, d) && b.role == ShrunkRoles(a.role, d, lo, hi)
    && KeepsContents(a, b, d) && ShrunkPtes(a, b, d, lo, hi)
  }

  /** Pages still in use have kept their contents, the tables of `d` aside. */
  ghost predicate KeepsContents(a: Snap, b: Snap, d: nat)
  {
    forall q :: q in a.role && q in b.role && !b.role[q].Free? && !(a.role[q].Table? && a.role[q].d == d) ==>
      q in a.mem && q in b.mem && b.mem[q] == a.mem[q]
  }

  ghost predicate ShrunkPtes(a: Snap, b: Snap, d: nat, lo: nat, hi: nat)
    requires Good(a, d) && Good(b, d)
  {
    forall v :: 0 <= v < PAGES ==>
      if lo <= v < hi then !Pte(b.mem, d, v).present else Pte(b.mem, d, v) == Pte(a.mem, d, v)
  }

  lemma NoChange(a: Snap, d: nat, lo: nat)
    requires Good(a, d)
    ensures Extends(a, a, d) && Grown(a, a, d, lo, lo) && Shrunk(a, a, d, lo, lo)
  {
    assert ShrunkRoles(a.role, d, lo, lo) == a.role;
  }

  // ---------------------------------------------------------------- walkpgdir

  function WithTable(a: Snap, d: nat, i: nat, t: nat): (b: Snap)
    requires d in a.mem && i < |a.mem[d]|
  {
    Snap(a.mem[t := Filled(ZERO)][d := a.mem[d][i := Word(t, true, 6)]], a.role[t := Table(d, i)])
  }

  lemma TableExtends(a: Snap, d: nat, i: nat, t: nat)
    requires Good(a, d) && i < ENTRIES && !a.mem[d][i].present && Has(a.role, t, Free)
    ensures var h := a.(role := a.role[t := Held]); Good(h, d) && Extends(a, WithTable(h, d, i, t), d)
  {
    LoosePage(a.mem, a.role, t, Held, a.mem[t]);
    assert a.mem[t := a.mem[t]] == a.mem;
    var h := a.(role := a.role[t := Held]);
    NewTable(h.mem, h.role, d, i, t);
    var b := WithTable(h, d, i, t);
    OwnedPage(a.mem, a.role, d);
    forall v | 0 <= v < PAGES
      ensures SamePte(Pte(a.mem, d, v), Pte(b.mem, d, v))
    {
      if v / ENTRIES != i && a.mem[d][v / ENTRIES].present {
        assert Has(a.role, a.mem[d][v / ENTRIES].frame, Table(d, v / ENTRIES));
      }
    }
    hide Owned, Pte;
  }

  // ---------------------------------------------------------------- growing

  /** A free page in somebody's hands, zeroed. */
  function Hold(a: Snap, p: nat): (b: Snap)
  {
    Snap(a.mem[p := Filled(ZERO)], a.role[p := Held])
  }

  function Release(a: Snap, p: nat, content: Page): (b: Snap)
  {
    Snap(a.mem[p := content], a.role[p := Free])
  }

  lemma LoosePtes(a: Snap, d: nat, p: nat, r: Role, content: Page)
    requires Good(a, d) && p in a.role && (a.role[p].Free? || a.role[p].Held?) && |content| == ENTRIES
    requires r.Free? || r.Held?
    ensures Good(Snap(a.mem[p := content], a.role[p := r]), d)
    ensures forall v :: 0 <= v < PAGES ==> Pte(a.mem[p := content], d, v) == Pte(a.mem, d, v)
  {
    LoosePage(a.mem, a.role, p, r, content);
    OwnedPage(a.mem, a.role, d);
    forall v | 0 <= v < PAGES
      ensures Pte(a.mem[p := content], d, v) == Pte(a.mem, d, v)
    {
      if a.mem[d][v / ENTRIES].present {
        assert Has(a.role, a.mem[d][v / ENTRIES].frame, Table(d, v / ENTRIES));
      }
    }
  }

  lemma HoldBoth(a: Snap, b: Snap, d: nat, lo: nat, hi: nat, p: nat)
    requires Grown(a, b, d, lo, hi) && Has(b.role, p, Free)
    ensures Has(a.role, p, Free) && Grown(Hold(a, p), Hold(b, p), d, lo, hi)
  {
    hide Owned, GrownPtes, Isolated, KeepsUser;
    assert a.role[p].Free?;
    HoldBothPtes(a, b, d, lo, hi, p);
    HoldBothRest(a, b, d, lo, hi, p);
  }

  lemma HoldBothRest(a: Snap, b: Snap, d: nat, lo: nat, hi: nat, p: nat)
    requires Has(a.role, p, Free) && Has(b.role, p, Free)
    requires Isolated(a, b, d) && KeepsUser(a, b, d) && GrownRoles(a.role, b.role, d, lo, hi)
    ensures var x, y := Hold(a, p), Hold(b, p);
            Isolated(x, y, d) && KeepsUser(x, y, d) && GrownRoles(x.role, y.role, d, lo, hi)
  {
  }

  lemma HoldBothPtes(a: Snap, b: Snap, d: nat, lo: nat, hi: nat, p: nat)
    requires Grown(a, b, d, lo, hi) && Has(b.role, p, Free) && Has(a.role, p, Free)
    ensures var x, y := Hold(a, p), Hold(b, p); Good(x, d) && Good(y, d) && GrownPtes(x, y, d, lo, hi)
  {
    var x, y := Hold(a, p), Hold(b, p);
    LoosePtes(a, d, p, Held, Filled(ZERO));
    LoosePtes(b, d, p, Held, Filled(ZERO));
    hide Owned, Pte, Isolated, KeepsUser, GrownRoles;
    forall v | 0 <= v < PAGES
      ensures if lo <= v < hi then ZeroedAt(y, d, v) else SamePte(Pte(x.mem, d, v), Pte(y.mem, d, v))
    {
      assert Pte(x.mem, d, v) == Pte(a.mem, d, v) && Pte(y.mem, d, v) == Pte(b.mem, d, v);
    }
  }

  lemma GrownExtends(a: Snap, b: Snap, c: Snap, d: nat, lo: nat, hi: nat)
    requires Grown(a, b, d, lo, hi) && Extends(b, c, d)
    ensures Grown(a, c, d, lo, hi)
  {
    GoodDir(a, d);
    GoodDir(b, d);
    GoodDir(c, d);
    hide Owned, Pte;
    assert GrownPtes(a, c, d, lo, hi) by {
      forall v | 0 <= v < PAGES
        ensures if lo <= v < hi then ZeroedAt(c, d, v) else SamePte(Pte(a.mem, d, v), Pte(c.mem, d, v))
      {
        assert SamePte(Pte(b.mem, d, v), Pte(c.mem, d, v));
      }
    }
    hide GrownPtes;
  }

  function PutUser(w: Snap, d: nat, v: nat, p: nat, flags: nat): (c: Snap)
    requires d in w.mem && v / ENTRIES < |w.mem[d]|
    requires var t := w.mem[d][v / ENTRIES].frame; t in w.mem && v % ENTRIES < |w.mem[t]|
  {
    var t := w.mem[d][v / ENTRIES].frame;
    Snap(w.mem[t := w.mem[t][v % ENTRIES := Word(p, true, flags)]], w.role[p := User(d, v)])
  }

  /** There is a table for page `v`. */
  ghost predicate HasTable(w: Snap, d: nat, v: nat)
  {
    && Good(w, d) && v < PAGES && w.mem[d][v / ENTRIES].present
    && Has(w.role, w.mem[d][v / ENTRIES].frame, Table(d, v / ENTRIES))
  }

  lemma PutUserOk(w: Snap, d: nat, v: nat, p: nat, flags: nat)
    requires HasTable(w, d, v) && v < USERPAGES && Has(w.role, p, Held) && !Pte(w.mem, d, v).present
    ensures var c := PutUser(w, d, v, p, flags);
            && Good(c, d) && Pte(c.mem, d, v) == Word(p, true, flags)
            && forall u :: 0 <= u < PAGES && u != v ==> Pte(c.mem, d, u) == Pte(w.mem, d, u)
  {
    var t, c := w.mem[d][v / ENTRIES].frame, PutUser(w, d, v, p, flags);
    NewUser(w.mem, w.role, d, t, v, p, flags);
    OwnedPage(w.mem, w.role, d);
    forall u | 0 <= u < PAGES && u != v
      ensures Pte(c.mem, d, u) == Pte(w.mem, d, u)
    {
      if w.mem[d][u / ENTRIES].present {
        assert Has(w.role, w.mem[d][u / ENTRIES].frame, Table(d, u / ENTRIES));
        assert u == u / ENTRIES * ENTRIES + u % ENTRIES && v == v / ENTRIES * ENTRIES + v % ENTRIES;
      }
    }
  }

  /** One more page: allocated, zeroed, and entered in its table. */
  lemma GrownStep(a: Snap, b: Snap, w: Snap, d: nat, lo: nat, v: nat, p: nat)
    requires Grown(a, b, d, lo, v) && lo <= v < USERPAGES && Has(b.role, p, Free) && !Pte(a.mem, d, v).present
    requires Extends(Hold(b, p), w, d) && HasTable(w, d, v)
    ensures Has(w.role, p, Held) && !Pte(w.mem, d, v).present && Grown(a, PutUser(w, d, v, p, 6), d, lo, v + 1)
  {
    HoldBoth(a, b, d, lo, v, p);
    GrownExtends(Hold(a, p), Hold(b, p), w, d, lo, v);
    LoosePtes(a, d, p, Held, Filled(ZERO));
    assert SamePte(Pte(a.mem, d, v), Pte(w.mem, d, v));
    assert Has(w.role, p, Held) && w.mem[p] == Filled(ZERO);
    PutUserOk(w, d, v, p, 6);
    PutGrown(a, w, d, lo, v, p);
  }

  lemma GoodSized(s: Snap, d: nat)
    requires Good(s, d)
    ensures Sized(s.mem, s.role)
  {
  }

  lemma PutGrown(a: Snap, w: Snap, d: nat, lo: nat, v: nat, p: nat)
    requires Good(a, d) && Has(a.role, p, Free) && Grown(Hold(a, p), w, d, lo, v) && lo <= v < USERPAGES
    requires HasTable(w, d, v) && Has(w.role, p, Held) && w.mem[p] == Filled(ZERO) && !Pte(w.mem, d, v).present
    ensures Grown(a, PutUser(w, d, v, p, 6), d, lo, v + 1)
  {
    hide Owned, Pte, GrownPtes, Isolated, KeepsUser, GrownRoles;
    GoodSized(a, d);
    GoodSized(w, d);
    PutGrownPtes(a, w, d, lo, v, p);
    PutGrownRest(a, w, d, lo, v, p);
  }

  lemma PutGrownRest(a: Snap, w: Snap, d: nat, lo: nat, v: nat, p: nat)
    requires Sized(w.mem, w.role) && Has(a.role, p, Free) && p in a.mem && lo <= v
    requires d in w.mem && v / ENTRIES < |w.mem[d]| && Has(w.role, w.mem[d][v / ENTRIES].frame, Table(d, v / ENTRIES))
    requires var x := Hold(a, p); Isolated(x, w, d) && KeepsUser(x, w, d) && GrownRoles(x.role, w.role, d, lo, v)
    ensures var c := PutUser(w, d, v, p, 6);
            Isolated(a, c, d) && KeepsUser(a, c, d) && GrownRoles(a.role, c.role, d, lo, v + 1)
  {
  }

  lemma PutGrownPtes(a: Snap, w: Snap, d: nat, lo: nat, v: nat, p: nat)
    requires Good(a, d) && Has(a.role, p, Free) && Grown(Hold(a, p), w, d, lo, v) && lo <= v < USERPAGES
    requires HasTable(w, d, v) && Has(w.role, p, Held) && w.mem[p] == Filled(ZERO) && !Pte(w.mem, d, v).present
    ensures var c := PutUser(w, d, v, p, 6); Good(c, d) && GrownPtes(a, c, d, lo, v + 1)
  {
    var c := PutUser(w, d, v, p, 6);
    PutUserOk(w, d, v, p, 6);
    LoosePtes(a, d, p, Held, Filled(ZERO));
    hide Owned, Pte, Isolated, KeepsUser, GrownRoles;
    forall u | 0 <= u < PAGES
      ensures if lo <= u < v + 1 then ZeroedAt(c, d, u) else SamePte(Pte(a.mem, d, u), Pte(c.mem, d, u))
    {
      assert Pte(Hold(a, p).mem, d, u) == Pte(a.mem, d, u);
      assert if lo <= u < v then ZeroedAt(w, d, u) else SamePte(Pte(Hold(a, p).mem, d, u), Pte(w.mem, d, u));
    }
  }

  // ---------------------------------------------------------------- shrinking

  lemma UserIsMapped(b: Snap, d: nat, q: nat)
    requires Owned(b.mem, b.role) && q in b.role && b.role[q].User? && b.role[q].d == d
    ensures Has(b.role, d, Dir) && b.role[q].v < USERPAGES
    ensures Pte(b.mem, d, b.role[q].v).present && Pte(b.mem, d, b.role[q].v).frame == q
  {
    OwnedPage(b.mem, b.role, q);
  }

  lemma MappedIsUser(b: Snap, d: nat, v: nat)
    requires Good(b, d) && v < USERPAGES && Pte(b.mem, d, v).present
    ensures HasTable(b, d, v) && Has(b.role, Pte(b.mem, d, v).frame, User(d, v))
  {
    OwnedPage(b.mem, b.role, d);
    var t := b.mem[d][v / ENTRIES].frame;
    OwnedPage(b.mem, b.role, t);
    assert v == v / ENTRIES * ENTRIES + v % ENTRIES;
  }

  /** Pages that are not mapped need no freeing. */
  lemma ShrunkQuiet(a: Snap, b: Snap, d: nat, lo: nat, v: nat, w: nat)
    requires Shrunk(a, b, d, lo, v) && lo <= v <= w <= USERPAGES
    requires forall x :: v <= x < w ==> !Pte(b.mem, d, x).present
    ensures Shrunk(a, b, d, lo, w)
  {
    hide Owned, Pte, KeepsContents;
    GoodDir(a, d);
    GoodDir(b, d);
    forall q | q in a.role
      ensures ShrunkRoles(a.role, d, lo, w)[q] == b.role[q]
    {
      if b.role[q].User? && b.role[q].d == d { UserIsMapped(b, d, q); }
    }
    assert ShrunkRoles(a.role, d, lo, w) == b.role;
  }

  function ClearUser(b: Snap, d: nat, v: nat, p: nat, content: Page): (c: Snap)
    requires d in b.mem && v / ENTRIES < |b.mem[d]|
    requires var t := b.mem[d][v / ENTRIES].frame; t in b.mem && v % ENTRIES < |b.mem[t]|
  {
    var t := b.mem[d][v / ENTRIES].frame;
    Snap(b.mem[p := content][t := b.mem[t][v % ENTRIES := ZERO]], b.role[p := Free])
  }

  lemma ClearUserOk(b: Snap, d: nat, v: nat, p: nat, content: Page)
    requires HasTable(b, d, v) && Has(b.role, p, User(d, v)) && |content| == ENTRIES
    ensures var c := ClearUser(b, d, v, p, content);
            && Good(c, d) && Pte(c.mem, d, v) == ZERO
            && forall u :: 0 <= u < PAGES && u != v ==> Pte(c.mem, d, u) == Pte(b.mem, d, u)
  {
    var t, c := b.mem[d][v / ENTRIES].frame, ClearUser(b, d, v, p, content);
    FreeUser(b.mem, b.role, d, t, v, p, content);
    OwnedPage(b.mem, b.role, d);
    forall u | 0 <= u < PAGES && u != v
      ensures Pte(c.mem, d, u) == Pte(b.mem, d, u)
    {
      if b.mem[d][u / ENTRIES].present {
        assert Has(b.role, b.mem[d][u / ENTRIES].frame, Table(d, u / ENTRIES));
        assert u == u / ENTRIES * ENTRIES + u % ENTRIES && v == v / ENTRIES * ENTRIES + v % ENTRIES;
      }
    }
  }

  lemma ShrunkFree(a: Snap, b: Snap, d: nat, lo: nat, v: nat, p: nat, content: Page)
    requires Shrunk(a, b, d, lo, v) && lo <= v < USERPAGES && |content| == ENTRIES
    requires HasTable(b, d, v) && Has(b.role, p, User(d, v))
    ensures Shrunk(a, ClearUser(b, d, v, p, content), d, lo, v + 1)
  {
    hide Owned, Pte, KeepsContents;
    GoodDir(a, d);
    GoodSized(b, d);
    assert a.role[b.mem[d][v / ENTRIES].frame] == Table(d, v / ENTRIES);
    hide ShrunkRoles;
    ClearUserOk(b, d, v, p, content);
    ShrunkRolesStep(a, b, d, lo, v, p);
    ShrunkContentsStep(a, b, d, v, p, content);
  }

  lemma ShrunkContentsStep(a: Snap, b: Snap, d: nat, v: nat, p: nat, content: Page)
    requires Sized(b.mem, b.role) && d in b.mem && v / ENTRIES < |b.mem[d]| && a.role.Keys == b.role.Keys
    requires var t := b.mem[d][v / ENTRIES].frame;
             Has(b.role, t, Table(d, v / ENTRIES)) && v % ENTRIES < |b.mem[t]| && Has(a.role, t, Table(d, v / ENTRIES))
    requires KeepsContents(a, b, d) && p in b.role
    ensures KeepsContents(a, ClearUser(b, d, v, p, content), d)
  {
  }

  lemma ShrunkRolesStep(a: Snap, b: Snap, d: nat, lo: nat, v: nat, p: nat)
    requires Shrunk(a, b, d, lo, v) && lo <= v && Has(b.role, p, User(d, v))
    ensures b.role[p := Free] == ShrunkRoles(a.role, d, lo, v + 1)
  {
    hide Owned, Pte, KeepsContents, ShrunkPtes;
    UserIsMapped(b, d, p);
    forall q | q in a.role
      ensures ShrunkRoles(a.role, d, lo, v + 1)[q] == b.role[p := Free][q]
    {
      if b.role[q] == User(d, v) {
        UserIsMapped(b, d, q);
      }
    }
  }

  /** Growing and then freeing the whole range leaves nothing but empty tables. */
  lemma GrownThenShrunk(a: Snap, b: Snap, c: Snap, d: nat, lo: nat, v: nat, hi: nat)
    requires Grown(a, b, d, lo, v) && Shrunk(b, c, d, lo, hi) && lo <= v <= hi <= USERPAGES
    requires forall x :: lo <= x < hi ==> !Pte(a.mem, d, x).present
    ensures Extends(a, c, d)
  {
    GoodSized(a, d);
    GoodSized(b, d);
    GoodSized(c, d);
    forall q | q in a.role && a.role[q].User? && a.role[q].d == d
      ensures !(lo <= a.role[q].v < hi)
    {
      UserIsMapped(a, d, q);
    }
    hide Owned, Pte;
    assert SamePtes(a, c, d);
    hide SamePtes, GrownPtes, ShrunkPtes;
    GrownThenShrunkRest(a, b, c, d, lo, v, hi);
  }

  lemma GrownThenShrunkRest(a: Snap, b: Snap, c: Snap, d: nat, lo: nat, v: nat, hi: nat)
    requires Sized(a.mem, a.role) && Isolated(a, b, d) && KeepsUser(a, b, d) && GrownRoles(a.role, b.role, d, lo, v)
    requires c.role == ShrunkRoles(b.role, d, lo, hi) && KeepsContents(b, c, d) && v <= hi
    requires forall q :: q in a.role && a.role[q].User? && a.role[q].d == d ==> !(lo <= a.role[q].v < hi)
    ensures Isolated(a, c, d) && KeepsUser(a, c, d) && MoreTables(a.role, c.role, d)
  {
    forall q | q in a.role
      ensures c.role[q] == a.role[q] || (a.role[q].Free? && c.role[q].Table? && c.role[q].d == d)
    {
      assert b.role[q] == a.role[q] || a.role[q].Free?;
    }
  }

  lemma DropBoth(a: Snap, c: Snap, d: nat, p: nat, content: Page)
    requires Good(a, d) && Has(a.role, p, Free) && Extends(Hold(a, p), c, d) && |content| == ENTRIES
    ensures Has(c.role, p, Held) && Extends(a, Release(c, p, content), d)
  {
    assert c.role[p] == Held;
    hide Owned, Pte, Isolated, KeepsUser, MoreTables;
    GoodSized(a, d);
    LoosePtes(a, d, p, Held, Filled(ZERO));
    LoosePtes(c, d, p, Free, content);
    var r := Release(c, p, content);
    forall v | 0 <= v < PAGES
      ensures SamePte(Pte(a.mem, d, v), Pte(r.mem, d, v))
    {
      assert SamePte(Pte(Hold(a, p).mem, d, v), Pte(c.mem, d, v));
    }
    hide SamePtes;
    DropBothRest(a, c, d, p, content);
  }

  lemma DropBothRest(a: Snap, c: Snap, d: nat, p: nat, content: Page)
    requires Has(a.role, p, Free)
    requires Isolated(Hold(a, p), c, d) && KeepsUser(Hold(a, p), c, d) && MoreTables(Hold(a, p).role, c.role, d)
    ensures var r := Release(c, p, content); Isolated(a, r, d) && KeepsUser(a, r, d) && MoreTables(a.role, r.role, d)
  {
  }
}

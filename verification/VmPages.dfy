/** Physical pages and who owns them: the free list inside the pages themselves, and two-level page
    tables. A page number stands for its physical and its kernel virtual address alike. */
module VmPages {

  const ENTRIES: nat := 1024

  /** Directory entries below this one, and page numbers below `USERPAGES`, are user space. */
  const USERTABLES: nat := 512
  const USERPAGES: nat := 0x80000

  /** A 32-bit word seen as a page table entry: page number, present bit, remaining flag bits. */
  datatype Word = Word(frame: nat, present: bool, flags: nat)

  const ZERO: Word := Word(0, false, 0)

  type Page = seq<Word>

  /** The words `memset` with byte 1 leaves. */
  const JUNK: Word := Word(0x1010, true, 0x100)

  function Filled(w: Word): (p: Page)
    ensures |p| == ENTRIES && forall i :: 0 <= i < ENTRIES ==> p[i] == w
  {
    seq(ENTRIES, _ => w)
  }

  /** The one use of a page. `Held`: allocated, and known only to whoever called `kalloc`. */
  datatype Role = Free | Held | Dir | Table(d: nat, i: nat) | User(d: nat, v: nat)

  type Memory = map<nat, Page>
  type Roles = map<nat, Role>

  ghost predicate Sized(mem: Memory, role: Roles)
  {
    forall p :: p in role ==> p > 0 && p in mem && |mem[p]| == ENTRIES
  }

  // ---------------------------------------------------------------- page tables

  ghost predicate Has(role: Roles, p: nat, r: Role)
  {
    p in role && role[p] == r
  }

  /** Directory `d` refers to tables that are its own, and leaves it to their entries who may do what. */
  ghost predicate DirOk(mem: Memory, role: Roles, d: nat)
    requires d in mem && |mem[d]| == ENTRIES
  {
    forall i :: 0 <= i < ENTRIES && mem[d][i].present ==>
      mem[d][i].flags == 6 && Has(role, mem[d][i].frame, Table(d, i))
  }

  /** Page `t` is table `i` of directory `d`, which says so; below `USERTABLES` its entries refer to
      user pages of that directory. */
  ghost predicate TableOk(mem: Memory, role: Roles, t: nat, d: nat, i: nat)
    requires Sized(mem, role) && t in role
  {
    && i < ENTRIES && Has(role, d, Dir) && mem[d][i].present && mem[d][i].frame == t
    && (i < USERTABLES ==> forall j :: 0 <= j < ENTRIES && mem[t][j].present ==>
          Has(role, mem[t][j].frame, User(d, i * ENTRIES + j)))
  }

  /** Page `p` is mapped at page `v` of directory `d`. */
  ghost predicate UserOk(mem: Memory, role: Roles, p: nat, d: nat, v: nat)
    requires Sized(mem, role)
  {
    && v < USERPAGES && Has(role, d, Dir) && mem[d][v / ENTRIES].present
    && var t := mem[d][v / ENTRIES].frame;
       Has(role, t, Table(d, v / ENTRIES)) && mem[t][v % ENTRIES].present && mem[t][v % ENTRIES].frame == p
  }

  ghost predicate PageOk(mem: Memory, role: Roles, p: nat)
    requires Sized(mem, role) && p in role
  {
    match role[p]
    case Dir => DirOk(mem, role, p)
    case Table(d, i) => TableOk(mem, role, p, d, i)
    case User(d, v) => UserOk(mem, role, p, d, v)
    case _ => true
  }

  /** Every page has the one role its references give it, and every reference is to such a page. */
  ghost predicate Owned(mem: Memory, role: Roles)
  {
    Sized(mem, role) && forall p :: p in role ==> PageOk(mem, role, p)
  }

  // ---------------------------------------------------------------- changes of ownership

  lemma OwnedPage(mem: Memory, role: Roles, p: nat)
    requires Owned(mem, role) && p in role
    ensures PageOk(mem, role, p)
  {
  }

  /** A page nobody refers to changes hands or contents. */
  lemma LoosePage(mem: Memory, role: Roles, p: nat, r: Role, content: Page)
    requires Owned(mem, role) && p in role && (role[p].Free? || role[p].Held?) && |content| == ENTRIES
    requires r.Free? || r.Held? || (r.Dir? && content == Filled(ZERO))
    ensures Owned(mem[p := content], role[p := r])
  {
    var m, ro := mem[p := content], role[p := r];
    forall q | q in ro
      ensures PageOk(m, ro, q)
    {
      if q != p {
        OwnedPage(mem, role, q);
        LoosePageAt(mem, role, p, r, content, q);
      }
    }
  }

  lemma LoosePageAt(mem: Memory, role: Roles, p: nat, r: Role, content: Page, q: nat)
    requires Sized(mem, role) && p in role && (role[p].Free? || role[p].Held?) && |content| == ENTRIES
    requires q in role && q != p && PageOk(mem, role, q)
    ensures Sized(mem[p := content], role[p := r]) && PageOk(mem[p := content], role[p := r], q)
  {
  }

  /** `walkpgdir` puts a zeroed page into an empty directory entry. */
  lemma NewTable(mem: Memory, role: Roles, d: nat, i: nat, t: nat)
    requires Owned(mem, role) && Has(role, d, Dir) && Has(role, t, Held) && i < ENTRIES && !mem[d][i].present
    ensures var m := mem[t := Filled(ZERO)][d := mem[d][i := Word(t, true, 6)]];
            Owned(m, role[t := Table(d, i)])
  {
    var m, ro := mem[t := Filled(ZERO)][d := mem[d][i := Word(t, true, 6)]], role[t := Table(d, i)];
    assert Sized(m, ro);
    forall q | q in ro
      ensures PageOk(m, ro, q)
    {
      if q != t {
        OwnedPage(mem, role, q);
        NewTableAt(mem, role, d, i, t, q);
      }
    }
  }

  lemma NewTableAt(mem: Memory, role: Roles, d: nat, i: nat, t: nat, q: nat)
    requires Sized(mem, role) && Has(role, d, Dir) && Has(role, t, Held) && i < ENTRIES && !mem[d][i].present
    requires q in role && q != t && PageOk(mem, role, q)
    ensures var m, ro := mem[t := Filled(ZERO)][d := mem[d][i := Word(t, true, 6)]], role[t := Table(d, i)];
            Sized(m, ro) && PageOk(m, ro, q)
  {
    var m, ro := mem[t := Filled(ZERO)][d := mem[d][i := Word(t, true, 6)]], role[t := Table(d, i)];
    assert m[d] == mem[d][i := Word(t, true, 6)];
    assert forall x :: x in role && x != t && x != d ==> m[x] == mem[x];
  }

  /** A held page goes into an empty entry of a user table. */
  lemma NewUser(mem: Memory, role: Roles, d: nat, t: nat, v: nat, p: nat, flags: nat)
    requires Owned(mem, role) && v < USERPAGES && Has(role, t, Table(d, v / ENTRIES)) && Has(role, p, Held)
    requires !mem[t][v % ENTRIES].present
    ensures Owned(mem[t := mem[t][v % ENTRIES := Word(p, true, flags)]], role[p := User(d, v)])
  {
    var m, ro := mem[t := mem[t][v % ENTRIES := Word(p, true, flags)]], role[p := User(d, v)];
    OwnedPage(mem, role, t);
    forall q | q in ro
      ensures PageOk(m, ro, q)
    {
      OwnedPage(mem, role, q);
      NewUserAt(mem, role, d, t, v, p, flags, q);
    }
  }

  lemma NewUserAt(mem: Memory, role: Roles, d: nat, t: nat, v: nat, p: nat, flags: nat, q: nat)
    requires Sized(mem, role) && v < USERPAGES && Has(role, t, Table(d, v / ENTRIES)) && Has(role, p, Held)
    requires !mem[t][v % ENTRIES].present && PageOk(mem, role, t) && q in role && PageOk(mem, role, q)
    ensures var m, ro := mem[t := mem[t][v % ENTRIES := Word(p, true, flags)]], role[p := User(d, v)];
            Sized(m, ro) && PageOk(m, ro, q)
  {
    assert v == v / ENTRIES * ENTRIES + v % ENTRIES;
  }

  /** `deallocuvm` frees a user page and clears its entry. */
  lemma FreeUser(mem: Memory, role: Roles, d: nat, t: nat, v: nat, p: nat, content: Page)
    requires Owned(mem, role) && Has(role, t, Table(d, v / ENTRIES)) && Has(role, p, User(d, v)) && |content| == ENTRIES
    ensures Owned(mem[p := content][t := mem[t][v % ENTRIES := ZERO]], role[p := Free])
  {
    var m, ro := mem[p := content][t := mem[t][v % ENTRIES := ZERO]], role[p := Free];
    OwnedPage(mem, role, t);
    OwnedPage(mem, role, p);
    assert Sized(m, ro);
    forall q | q in ro
      ensures PageOk(m, ro, q)
    {
      OwnedPage(mem, role, q);
      FreeUserAt(mem, role, d, t, v, p, content, q);
    }
  }

  lemma FreeUserAt(mem: Memory, role: Roles, d: nat, t: nat, v: nat, p: nat, content: Page, q: nat)
    requires Sized(mem, role) && Has(role, t, Table(d, v / ENTRIES)) && Has(role, p, User(d, v)) && |content| == ENTRIES
    requires PageOk(mem, role, t) && PageOk(mem, role, p) && q in role && PageOk(mem, role, q)
    ensures var m, ro := mem[p := content][t := mem[t][v % ENTRIES := ZERO]], role[p := Free];
            Sized(m, ro) && PageOk(m, ro, q)
  {
    var m, ro := mem[p := content][t := mem[t][v % ENTRIES := ZERO]], role[p := Free];
    assert v == v / ENTRIES * ENTRIES + v % ENTRIES;
    assert m[t] == mem[t][v % ENTRIES := ZERO];
    assert forall x :: x in role && x != t && x != p ==> m[x] == mem[x];
  }

  /** An entry of a kernel table refers to memory without owning it. */
  lemma KernelEntry(mem: Memory, role: Roles, d: nat, t: nat, i: nat, j: nat, w: Word)
    requires Owned(mem, role) && Has(role, t, Table(d, i)) && USERTABLES <= i && j < ENTRIES
    ensures Owned(mem[t := mem[t][j := w]], role)
  {
    var m := mem[t := mem[t][j := w]];
    OwnedPage(mem, role, t);
    forall q | q in role
      ensures PageOk(m, role, q)
    {
      OwnedPage(mem, role, q);
      if role[q].User? { UserTable(mem, role, q, t); }
    }
  }

  lemma UserTable(mem: Memory, role: Roles, p: nat, t: nat)
    requires Owned(mem, role) && p in role && role[p].User? && t in role && role[t].Table?
    ensures var u := role[p]; UserOk(mem, role, p, u.d, u.v)
    ensures mem[role[p].d][role[p].v / ENTRIES].frame == t ==> role[t].i < USERTABLES
  {
    OwnedPage(mem, role, p);
  }

  predicate OwnedBy(r: Role, p: nat, d: nat)
  {
    match r
    case Dir => p == d
    case Table(e, _) => e == d
    case User(e, _) => e == d
    case _ => false
  }

  ghost function Disowned(role: Roles, d: nat): (r: Roles)
    ensures r.Keys == role.Keys
  {
    map p | p in role :: if OwnedBy(role[p], p, d) then Held else role[p]
  }

  /** A directory without user pages, and its tables, stop being page tables all at once. */
  lemma Disown(mem: Memory, role: Roles, d: nat)
    requires Owned(mem, role)
    requires forall p :: p in role && role[p].User? ==> role[p].d != d
    ensures Owned(mem, Disowned(role, d))
  {
    var ro := Disowned(role, d);
    forall q | q in ro
      ensures PageOk(mem, ro, q)
    {
      OwnedPage(mem, role, q);
      if role[q].Dir? && q != d {
        forall i | 0 <= i < ENTRIES && mem[q][i].present
          ensures Has(ro, mem[q][i].frame, Table(q, i))
        {
          assert Has(role, mem[q][i].frame, Table(q, i));
        }
      }
    }
  }

  // ---------------------------------------------------------------- the free list

  function NextFree(free: seq<nat>, i: nat): (p: nat)
    requires i <= |free|
  {
    if i < |free| then free[i] else 0
  }

  /** The free pages, each holding the number of the next in its first word. */
  ghost predicate Chained(mem: Memory, freelist: nat, free: seq<nat>)
  {
    && freelist == NextFree(free, 0)
    && forall i :: 0 <= i < |free| ==>
         free[i] in mem && |mem[free[i]]| == ENTRIES && mem[free[i]][0].frame == NextFree(free, i + 1)
  }

  ghost predicate Listed(role: Roles, free: seq<nat>)
  {
    && (forall i, j :: 0 <= i < j < |free| ==> free[i] != free[j])
    && (forall p: nat :: p in free <==> Has(role, p, Free))
  }

  /** Everything that holds between operations. */
  ghost predicate Sound(mem: Memory, freelist: nat, free: seq<nat>, role: Roles)
  {
    Owned(mem, role) && Chained(mem, freelist, free) && Listed(role, free)
  }

  lemma TakeFirst(mem: Memory, freelist: nat, free: seq<nat>, role: Roles)
    requires Sound(mem, freelist, free, role)
    ensures freelist == 0 <==> free == []
    ensures freelist != 0 ==>
              && Has(role, freelist, Free) && freelist in mem && |mem[freelist]| == ENTRIES
              && Sound(mem, mem[freelist][0].frame, free[1..], role[freelist := Held])
  {
    if free != [] {
      assert free[0] in free;
      var ro := role[freelist := Held];
      LoosePage(mem, role, freelist, Held, mem[freelist]);
      assert mem[freelist := mem[freelist]] == mem;
      hide Owned;
      forall p: nat
        ensures p in free[1..] <==> Has(ro, p, Free)
      {
        assert p in free <==> Has(role, p, Free);
        if p in free && p != free[0] {
          var i :| 0 <= i < |free| && free[i] == p;
          assert free[1..][i - 1] == p;
        }
      }
    }
  }

  function FreedPage(freelist: nat): (p: Page)
    ensures |p| == ENTRIES
  {
    Filled(JUNK)[0 := Word(freelist, false, 0)]
  }

  lemma GiveBack(mem: Memory, freelist: nat, free: seq<nat>, role: Roles, p: nat)
    requires Sound(mem, freelist, free, role) && Has(role, p, Held)
    ensures Sound(mem[p := FreedPage(freelist)], p, [p] + free, role[p := Free])
  {
    LoosePage(mem, role, p, Free, FreedPage(freelist));
    GiveBackChain(mem, freelist, free, role, p);
  }

  /** The list part of freeing a page that was not free. */
  lemma GiveBackChain(mem: Memory, freelist: nat, free: seq<nat>, role: Roles, p: nat)
    requires Sound(mem, freelist, free, role) && p in role && !role[p].Free?
    ensures Chained(mem[p := FreedPage(freelist)], p, [p] + free) && Listed(role[p := Free], [p] + free)
  {
    hide Owned;
    assert p !in free;
    var m: Memory, fs := mem[p := FreedPage(freelist)], [p] + free;
    forall i | 0 <= i < |fs|
      ensures fs[i] in m && |m[fs[i]]| == ENTRIES && m[fs[i]][0].frame == NextFree(fs, i + 1)
    {
      if i > 0 {
        assert fs[i] == free[i - 1];
        assert free[i - 1] in free;
        assert NextFree(fs, i + 1) == NextFree(free, i);
      }
    }
  }

  /** Changes that leave the free pages alone keep the list. */
  lemma KeepsList(mem: Memory, freelist: nat, free: seq<nat>, role: Roles, m: Memory, ro: Roles)
    requires Sound(mem, freelist, free, role) && Owned(m, ro)
    requires forall p: nat :: Has(ro, p, Free) <==> Has(role, p, Free)
    requires forall p: nat :: Has(role, p, Free) ==> p in m && m[p] == mem[p]
    ensures Sound(m, freelist, free, ro)
  {
    hide Owned;
    forall i | 0 <= i < |free|
      ensures Has(role, free[i], Free)
    {
      assert free[i] in free;
    }
  }
}

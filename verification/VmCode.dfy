/** The allocator and the page table code over one physical memory. */
module VmCode {
  import opened VmPages
  import opened Vm
  import opened VmSpaces
  import opened VmCount
  import Sums

  /** How mapping a page ends: the entry is written, a page is lacking, or the kernel panics. */
  datatype Mapping = Mapped | NoMemory | Panic

  class Machine {
    var mem: Memory
    var freelist: nat
    ghost var free: seq<nat>
    ghost var role: Roles

    ghost predicate Valid()
      reads this
    {
      Sound(mem, freelist, free, role)
    }

    ghost function Now(): (s: Snap)
      reads this
    {
      Snap(mem, role)
    }

    /** Before `kinit1`: no page is free, and every page of the pool is in hand. */
    constructor (mem: Memory)
      requires forall p :: p in mem ==> p > 0 && |mem[p]| == ENTRIES
      ensures Valid() && this.mem == mem && role == map p | p in mem :: Held
    {
      this.mem, freelist := mem, 0;
      free := [];
      role := map p | p in mem :: Held;
    }

    method Kfree(p: nat)
      requires Valid() && Has(role, p, Held)
      modifies this
      ensures Valid() && role == old(role)[p := Free] && mem == old(mem)[p := FreedPage(old(freelist))]
    {
      hide Sound;
      GiveBack(mem, freelist, free, role, p);
      mem := mem[p := Filled(JUNK)];
      mem := mem[p := mem[p][0 := Word(freelist, false, 0)]];
      assert mem == old(mem)[p := FreedPage(freelist)];
      freelist := p;
      free := [p] + free;
      role := role[p := Free];
    }

    /** `freerange`: the whole pages between two addresses. */
    method FreeRange(vstart: nat, vend: nat)
      requires Valid() && forall p :: Up(vstart) <= p && (p + 1) * PGSIZE <= vend ==> Has(role, p, Held)
      modifies this
      ensures Valid() && role.Keys == old(role.Keys)
      ensures forall p :: p in role ==>
                role[p] == if Up(vstart) <= p && (p + 1) * PGSIZE <= vend then Free else old(role[p])
    {
      hide Sound;
      ghost var was := role;
      var p := Up(vstart);
      while (p + 1) * PGSIZE <= vend
        invariant Up(vstart) <= p && Valid() && role.Keys == old(role.Keys)
        invariant forall q :: q in role ==>
                    role[q] == if Up(vstart) <= q < p && (q + 1) * PGSIZE <= vend then Free else old(role[q])
      {
        assert Has(was, p, Held);
        Kfree(p);
        p := p + 1;
      }
    }

    method Kalloc() returns (p: nat)
      requires Valid()
      modifies this
      ensures Valid() && mem == old(mem)
      ensures p == 0 ==> role == old(role) && forall q: nat :: !Has(role, q, Free)
      ensures p != 0 ==> Has(old(role), p, Free) && role == old(role)[p := Held]
      ensures if |old(free)| == 0 then p == 0 && free == old(free) else p != 0 && |free| == |old(free)| - 1
    {
      TakeFirst(mem, freelist, free, role);
      p := freelist;
      if p != 0 {
        hide Sound;
        freelist := mem[p][0].frame;
        free := free[1..];
        role := role[p := Held];
      }
    }

    /** The table for page `v`, made if need be; 0 if there is none. */
    method WalkPgdir(d: nat, v: nat, alloc: bool) returns (t: nat)
      requires Valid() && Has(role, d, Dir) && v < PAGES
      modifies this
      ensures Valid() && Extends(old(Now()), Now(), d)
      ensures t != 0 ==> HasTable(Now(), d, v) && t == mem[d][v / ENTRIES].frame && t in mem && |mem[t]| == ENTRIES
      ensures t == 0 ==> Now() == old(Now()) && !mem[d][v / ENTRIES].present
      ensures t == 0 && alloc ==> forall q: nat :: !Has(role, q, Free)
      ensures !alloc ==> Now() == old(Now()) && free == old(free)
      ensures t != 0 ==> Paid(old(mem), |old(free)|, mem, |free|, d, {v / ENTRIES}, 0)
      ensures t == 0 && alloc ==> Short(old(mem), |old(free)|, d, {v / ENTRIES}, 0)
    {
      hide Sound, Extends, Grown, Shrunk, HasTable, Good, Paid, Short;
      SoundGood(Now(), freelist, free, d);
      GoodDir(Now(), d);
      NoChange(Now(), d, 0);
      if mem[d][v / ENTRIES].present {
        TableIsThere(Now(), d, v);
        TableThere(mem, d, v / ENTRIES, |free|);
        return mem[d][v / ENTRIES].frame;
      }
      if !alloc {
        return 0;
      }
      ghost var a, fs := Now(), free;
      TableLacking(mem, d, v / ENTRIES);
      t := Kalloc();
      if t != 0 {
        TableSound(a, role, freelist, free, d, v, t);
        TableAdded(mem, d, v / ENTRIES, t, Filled(ZERO), Word(t, true, 6), |fs|);
        mem := mem[t := Filled(ZERO)];
        mem := mem[d := mem[d][v / ENTRIES := Word(t, true, 6)]];
        role := role[t := Table(d, v / ENTRIES)];
      }
    }

    /** `mappages` for one user page. It panics on an entry already in use. `w` is the state between
        the walk and the write of the entry. */
    method MapUser(d: nat, v: nat, p: nat, flags: nat) returns (r: Mapping, ghost w: Snap)
      requires Valid() && Has(role, d, Dir) && v < USERPAGES && Has(role, p, Held) && Good(Now(), d)
      modifies this
      ensures Valid()
      ensures r.Panic? <==> Pte(old(mem), d, v).present
      ensures r.Mapped? ==>
                && Extends(old(Now()), w, d) && HasTable(w, d, v) && Has(w.role, p, Held)
                && p in w.mem && w.mem[p] == old(mem)[p] && Now() == PutUser(w, d, v, p, flags)
      ensures r.NoMemory? ==> Now() == old(Now()) && forall q: nat :: !Has(role, q, Free)
      ensures r.Mapped? ==> Paid(old(mem), |old(free)|, mem, |free|, d, {v / ENTRIES}, 0)
      ensures r.NoMemory? ==> Short(old(mem), |old(free)|, d, {v / ENTRIES}, 0)
      ensures r.Panic? ==> !Short(old(mem), |old(free)|, d, {v / ENTRIES}, 0)
    {
      hide Paid, Short;
      ghost var a, n := Now(), |free|;
      var t := WalkPgdir(d, v, true);
      w := Now();
      if t == 0 {
        return NoMemory, w;
      }
      SameEntry(a, w, d, v);
      PaidNotShort(a.mem, n, mem, |free|, d, {v / ENTRIES}, 0);
      TableNotDir(w, d, v);
      hide Sound, Extends, HasTable, Pte;
      if mem[t][v % ENTRIES].present {
        return Panic, w;
      }
      PutSound(a, w, freelist, free, d, v, p, flags);
      PaidElsewhere(a.mem, n, mem, |free|, mem[t := mem[t][v % ENTRIES := Word(p, true, flags)]], d, {v / ENTRIES}, 0);
      mem := mem[t := mem[t][v % ENTRIES := Word(p, true, flags)]];
      role := role[p := User(d, v)];
      return Mapped, w;
    }

    /** One trip of the loop of `deallocuvm`. Without a table it goes on at the next directory entry. */
    method DeallocStep(d: nat, v: nat, ghost a: Snap, ghost lo: nat, ghost hi: nat) returns (next: nat)
      requires Valid() && Has(role, d, Dir) && Shrunk(a, Now(), d, lo, v) && lo <= v < hi <= USERPAGES
      modifies this
      ensures Valid() && next > v && Shrunk(a, Now(), d, lo, Least(next, hi))
    {
      hide Sound, Shrunk, Extends, HasTable;
      ShrunkGood(a, Now(), d, lo, v);
      var t := WalkPgdir(d, v, false);
      if t == 0 {
        SkipTable(a, Now(), d, lo, v, hi);
        return (v / ENTRIES + 1) * ENTRIES;
      }
      if mem[t][v % ENTRIES].present {
        var p := mem[t][v % ENTRIES].frame;
        FreeUserSound(a, Now(), freelist, free, d, lo, v);
        mem := mem[p := FreedPage(freelist)];
        freelist := p;
        free := [p] + free;
        role := role[p := Free];
        mem := mem[t := mem[t][v % ENTRIES := ZERO]];
      } else {
        NotMapped(a, Now(), d, lo, v);
      }
      return v + 1;
    }

    method DeallocUvm(d: nat, oldsz: nat, newsz: nat) returns (sz: nat)
      requires Valid() && Has(role, d, Dir) && oldsz <= KERNBASE
      modifies this
      ensures Valid()
      ensures newsz >= oldsz ==> sz == oldsz && Now() == old(Now())
      ensures newsz < oldsz ==> sz == newsz && Shrunk(old(Now()), Now(), d, Up(newsz), Up(oldsz))
    {
      hide Sound, Extends, Grown, Shrunk, Up, Good;
      if newsz >= oldsz {
        return oldsz;
      }
      ghost var a, lo, hi := Now(), Up(newsz), Up(oldsz);
      SoundGood(a, freelist, free, d);
      NoChange(a, d, lo);
      UpBounds(newsz, oldsz);
      var v := Up(newsz);
      while v * PGSIZE < oldsz
        invariant lo <= v && Valid() && Shrunk(a, Now(), d, lo, Least(v, hi))
        decreases hi - v
      {
        BelowUp(v, oldsz);
        ShrunkGood(a, Now(), d, lo, v);
        v := DeallocStep(d, v, a, lo, hi);
      }
      BelowUp(v, oldsz);
      return newsz;
    }

    /** One trip of the loop of `allocuvm`, with the way back when a page cannot be had. */
    method AllocStep(d: nat, v: nat, oldsz: nat, newsz: nat, ghost a: Snap) returns (r: Mapping)
      requires Valid() && Has(role, d, Dir) && Grown(a, Now(), d, Up(oldsz), v) && Unmapped(a, d, Up(oldsz), v)
      requires Up(oldsz) <= v < Up(newsz) <= USERPAGES && newsz <= KERNBASE
      modifies this
      ensures Valid()
      ensures r.Mapped? ==> Grown(a, Now(), d, Up(oldsz), v + 1) && Unmapped(a, d, Up(oldsz), v + 1)
      ensures r.NoMemory? ==> GivenBack(a, Now(), d, Up(oldsz), Up(newsz))
      ensures r.Panic? ==> !Unmapped(a, d, Up(oldsz), Up(newsz)) && Good(a, d) && Pte(a.mem, d, v).present
      ensures r.Mapped? ==> Paid(old(mem), |old(free)|, mem, |free|, d, {v / ENTRIES}, 1)
      ensures r.NoMemory? ==> Short(old(mem), |old(free)|, d, {v / ENTRIES}, 1)
      ensures r.Panic? ==> !Short(old(mem), |old(free)|, d, {v / ENTRIES}, 1)
    {
      ghost var b, n, lo, hi := Now(), |free|, Up(oldsz), Up(newsz);
      hide Sound, Extends, Grown, Shrunk, Owned, Pte, HasTable, Unmapped, Up, GivenBack, Paid, Short;
      GrownGood(a, b, d, lo, v);
      GoodDir(b, d);
      var p := Kalloc();
      if p == 0 {
        NoPage(mem, d, {v / ENTRIES});
        var sz := DeallocUvm(d, newsz, oldsz);
        UndoGrowth(a, b, Now(), d, v, newsz, oldsz);
        return NoMemory;
      }
      HeldPage(b, role, freelist, free, d, p);
      HeldNotDir(b, d, p);
      mem := mem[p := Filled(ZERO)];
      StillThere(a, b, d, lo, v, hi, p);
      ghost var w;
      ghost var m, k := mem, |free|;
      OnePageTaken(b.mem, n, m, d);
      r, w := MapUser(d, v, p, 6);
      match r
      case Panic =>
        NotShortLater(b.mem, n, m, k, d, {}, 1, {v / ENTRIES}, 0);
        JustOne(v / ENTRIES);
      case Mapped =>
        PaidTwice(b.mem, n, m, k, mem, |free|, d, {}, 1, {v / ENTRIES}, 0);
        JustOne(v / ENTRIES);
        OnePageMore(a, b, w, d, lo, v, hi, p);
      case NoMemory =>
        ShortLater(b.mem, n, m, k, d, {}, 1, {v / ENTRIES}, 0);
        JustOne(v / ENTRIES);
        var sz := DeallocUvm(d, newsz, oldsz);
        UndoHeld(a, b, Now(), d, v, newsz, oldsz, p, FreedPage(freelist));
        Kfree(p);
    }

    /** `allocuvm`: all the pages, or none of them; tables made on the way stay. With a page already
        mapped in the range it never succeeds: it panics there, or gives up before and frees it. */
    method AllocUvm(d: nat, oldsz: nat, newsz: nat) returns (panicked: bool, sz: nat)
      requires Valid() && Has(role, d, Dir)
      modifies this
      ensures Valid()
      ensures newsz >= 0x8000_0000 ==> !panicked && sz == 0 && Now() == old(Now())
      ensures newsz < 0x8000_0000 && newsz < oldsz ==> !panicked && sz == oldsz && Now() == old(Now())
      ensures oldsz <= newsz < KERNBASE ==>
                || (panicked && !Unmapped(old(Now()), d, Up(oldsz), Up(newsz)))
                || (!panicked && sz == newsz && Unmapped(old(Now()), d, Up(oldsz), Up(newsz))
                    && Grown(old(Now()), Now(), d, Up(oldsz), Up(newsz)))
                || (!panicked && sz == 0 && GivenBack(old(Now()), Now(), d, Up(oldsz), Up(newsz)))
      ensures oldsz <= newsz < KERNBASE ==>
                AllocVerdict(old(Now()), FreeCount(old(role)), d, Up(oldsz), Up(newsz), sz == newsz, panicked)
    {
      hide Sound, Extends, Grown, Shrunk, Unmapped, GivenBack, Up, Good, Paid, Short, TablesFor, FreeCount, AllocVerdict;
      if newsz >= KERNBASE {
        return false, 0;
      }
      if newsz < oldsz {
        return false, oldsz;
      }
      ghost var a, n, lo, hi := Now(), |free|, Up(oldsz), Up(newsz);
      CountIs(mem, freelist, free, role);
      SoundGood(a, freelist, free, d);
      NoChange(a, d, lo);
      UpBounds(oldsz, newsz);
      UnmappedNothing(a, d, lo);
      PaidForNone(mem, n, d, lo);
      var v := Up(oldsz);
      while v * PGSIZE < newsz
        invariant lo <= v <= hi && Valid() && Grown(a, Now(), d, lo, v) && Unmapped(a, d, lo, v)
        invariant Paid(a.mem, n, mem, |free|, d, TablesFor(lo, v), v - lo)
      {
        BelowUp(v, newsz);
        GrownGood(a, Now(), d, lo, v);
        ghost var m, k := mem, |free|;
        var r := AllocStep(d, v, oldsz, newsz, a);
        TablesForSnoc(lo, v);
        if r.NoMemory? {
          ShortLater(a.mem, n, m, k, d, TablesFor(lo, v), v - lo, {v / ENTRIES}, 1);
          AllocRefused(a, n, d, lo, v, hi);
          assert newsz != 0;
          return false, 0;
        }
        if r.Panic? {
          NotShortLater(a.mem, n, m, k, d, TablesFor(lo, v), v - lo, {v / ENTRIES}, 1);
          AllocPanics(a, n, d, lo, v, hi);
          return true, 0;
        }
        PaidTwice(a.mem, n, m, k, mem, |free|, d, TablesFor(lo, v), v - lo, {v / ENTRIES}, 1);
        v := v + 1;
      }
      BelowUp(v, newsz);
      PaidNotShort(a.mem, n, mem, |free|, d, TablesFor(lo, hi), hi - lo);
      AllocGranted(a, n, d, lo, hi);
      return false, newsz;
    }

    /** The second loop of `freevm`, over the directory's tables. */
    method FreeTables(d: nat, ghost b: Snap)
      requires Valid() && role == FreeingRoles(b.role, d, 0) && mem == b.mem && Good(b, d)
      modifies this
      ensures Valid() && role == FreeingRoles(b.role, d, ENTRIES) && Leaves(b, mem, d)
    {
      hide Sound, Owned, FreeingRoles, Leaves, OwnedBy;
      GoodDir(b, d);
      LeavesAll(b, d);
      for i := 0 to ENTRIES
        invariant Valid() && role == FreeingRoles(b.role, d, i)
        invariant d in mem && mem[d] == b.mem[d] && Leaves(b, mem, d)
      {
        FreeingStep(b, d, i);
        if mem[d][i].present {
          LeavesTable(b, mem, d, mem[d][i].frame, FreedPage(freelist));
          Kfree(mem[d][i].frame);
        }
      }
    }

    /** `freevm`: the user pages, then the tables, then the directory. */
    method FreeVm(d: nat)
      requires Valid() && Has(role, d, Dir)
      modifies this
      ensures Valid() && Freed(old(Now()), Now(), d)
    {
      ghost var a := Now();
      hide Sound, Shrunk, Owned, FreeingRoles, Leaves, Isolated;
      var sz := DeallocUvm(d, KERNBASE, 0);
      ghost var b := Now();
      TablesNext(a, b, freelist, free, d);
      role := FreeingRoles(role, d, 0);
      FreeTables(d, b);
      ghost var m := mem;
      Kfree(d);
      AllFreed(a, b, m, Now(), d);
    }

    /** `mappages` for a run of kernel pages, `first` to `last`. */
    method MapKernel(d: nat, first: nat, last: nat, pa: nat, perm: nat, ghost a: Snap, ghost data: nat) returns (ok: bool)
      requires Valid() && Has(role, d, Dir) && first <= last && Built(a, Now(), d) && KernelPart(Now(), d, data, first)
      requires KernelRun(first, last, pa, perm, data)
      modifies this
      ensures Valid() && Built(a, Now(), d)
      ensures ok ==> KernelPart(Now(), d, data, last + 1)
      ensures ok ==> Paid(old(mem), |old(free)|, mem, |free|, d, TablesFor(first, last + 1), 0)
      ensures !ok ==> Short(old(mem), |old(free)|, d, TablesFor(first, last + 1), 0)
    {
      hide Sound, Owned, KernelPart, Extends, HasTable, KernelWord, Pte, Isolated, Paid, Short, TablesFor;
      ghost var m0, n0 := mem, |free|;
      PaidForNone(mem, n0, d, first);
      var v, p := first, pa;
      while true
        invariant first <= v <= last && p == pa + (v - first) && Valid() && Built(a, Now(), d)
        invariant KernelPart(Now(), d, data, v)
        invariant Paid(m0, n0, mem, |free|, d, TablesFor(first, v), 0)
        decreases last - v
      {
        ghost var b, k := Now(), |free|;
        assert KernelMaps(v) && KernelWord(v, data) == Word(p, true, perm);
        TablesForSnoc(first, v);
        var t := WalkPgdir(d, v, true);
        if t == 0 {
          ShortLater(m0, n0, b.mem, k, d, TablesFor(first, v), 0, {v / ENTRIES}, 0);
          TablesForGrow(first, v + 1, last + 1);
          ShortForMore(m0, n0, d, TablesFor(first, v + 1), 0, TablesFor(first, last + 1), 0);
          return false;
        }
        PaidTwice(m0, n0, b.mem, k, mem, |free|, d, TablesFor(first, v), 0, {v / ENTRIES}, 0);
        TableNotDir(Now(), d, v);
        PaidElsewhere(m0, n0, mem, |free|, mem[t := mem[t][v % ENTRIES := Word(p, true, perm)]], d, TablesFor(first, v + 1), 0);
        KernelSound(Now(), freelist, free, d, v, Word(p, true, perm));
        KernelStep(a, b, Now(), d, data, v);
        mem := mem[t := mem[t][v % ENTRIES := Word(p, true, perm)]];
        if v == last {
          return true;
        }
        v, p := v + 1, p + 1;
      }
    }

    /** One row of `kmap`, after others that needed the tables `done`. */
    method MapRow(d: nat, first: nat, last: nat, pa: nat, perm: nat, ghost a: Snap, ghost data: nat,
                  ghost m0: Memory, ghost n0: nat, ghost done: set<nat>, ghost all: set<nat>) returns (ok: bool)
      requires Valid() && first <= last && Built(a, Now(), d) && KernelPart(Now(), d, data, first)
      requires KernelRun(first, last, pa, perm, data) && Paid(m0, n0, mem, |free|, d, done, 0)
      requires done + TablesFor(first, last + 1) <= all
      modifies this
      ensures Valid() && Built(a, Now(), d)
      ensures ok ==> KernelPart(Now(), d, data, last + 1)
      ensures ok ==> Paid(m0, n0, mem, |free|, d, done + TablesFor(first, last + 1), 0)
      ensures !ok ==> Short(m0, n0, d, all, 0)
    {
      hide Sound, Owned, KernelPart, Isolated, KernelRun, Built, Paid, Short, TablesFor;
      BuiltIs(a, Now(), d);
      ghost var m1, n1 := mem, |free|;
      ok := MapKernel(d, first, last, pa, perm, a, data);
      if ok {
        PaidTwice(m0, n0, m1, n1, mem, |free|, d, done, 0, TablesFor(first, last + 1), 0);
      } else {
        ShortLater(m0, n0, m1, n1, d, done, 0, TablesFor(first, last + 1), 0);
        ShortForMore(m0, n0, d, done + TablesFor(first, last + 1), 0, all, 0);
      }
    }

    /** The loop of `setupkvm` over the four rows of `kmap`. */
    method MapAll(d: nat, ghost a: Snap, data: nat) returns (ok: bool)
      requires Valid() && 0x80100 < data < 0x8E000 && Built(a, Now(), d) && KernelPart(Now(), d, data, 0x80000)
      modifies this
      ensures Valid() && Built(a, Now(), d)
      ensures ok ==> KernelPart(Now(), d, data, PAGES)
      ensures ok ==> Paid(old(mem), |old(free)|, mem, |free|, d, KernelTables(), 0)
      ensures !ok ==> Short(old(mem), |old(free)|, d, KernelTables(), 0)
    {
      hide Sound, Owned, KernelPart, Isolated, KernelRun, Built, Paid, Short, TablesFor, KernelTables;
      KernelRuns(data);
      KernelRunsTables(data);
      ghost var m, n, all := mem, |free|, KernelTables();
      NothingPaid(m, n, d);
      ghost var t1 := {} + TablesFor(0x80000, 0x80100);
      ghost var t2 := t1 + TablesFor(0x80100, data);
      ghost var t3 := t2 + TablesFor(data, 0x8E000);
      ok := MapRow(d, 0x80000, 0x800FF, 0, 2, a, data, m, n, {}, all);
      if !ok { return; }
      ok := MapRow(d, 0x80100, data - 1, 0x100, 0, a, data, m, n, t1, all);
      if !ok { return; }
      ok := MapRow(d, data, 0x8DFFF, data - 0x80000, 2, a, data, m, n, t2, all);
      BuiltIs(a, Now(), d);
      if !ok { return; }
      KernelGap(Now(), d, data);
      ok := MapRow(d, 0xFE000, 0xFFFFF, 0xFE000, 2, a, data, m, n, t3, all);
    }

    /** `setupkvm`: a directory with the four kernel mappings, or nothing, exactly when fewer than 65
        pages are free. */
    method SetupKvm(data: nat) returns (d: nat)
      requires Valid() && 0x80100 < data < 0x8E000
      modifies this
      ensures Valid()
      ensures d == 0 <==> FreeCount(old(role)) < 65
      ensures d != 0 ==> Built(old(Now()), Now(), d) && KernelPart(Now(), d, data, PAGES)
      ensures d != 0 ==> Tables(mem, d) == KernelTables() && |free| == |old(free)| - 65
      ensures d == 0 ==> role == old(role) && Keeps(old(Now()), Now())
    {
      ghost var a, n := Now(), |free|;
      CountIs(mem, freelist, free, role);
      assert Owned(a.mem, a.role);
      hide Sound, Owned, KernelPart, Isolated, Keeps, Built, Freed, Paid, Short, KernelTables, FreeCount, Tables;
      d := Kalloc();
      if d == 0 {
        KeepsSame(a);
        return 0;
      }
      DirSound(a, role, freelist, free, d, data);
      mem := mem[d := Filled(ZERO)];
      role := role[d := Dir];
      ghost var m := mem;
      NewDirTables(m, d);
      var ok := MapAll(d, a, data);
      BuiltIs(a, Now(), d);
      if !ok {
        KernelShort(m, n - 1, d);
        ghost var b := Now();
        FreeVm(d);
        GoneAgain(a, b, Now(), d);
        return 0;
      }
      KernelPaid(m, n - 1, mem, |free|, d);
    }

    /** One trip of the loop of `copyuvm`: a page of its own for the child, with the parent's page
        copied into it. It panics if the parent has none. */
    method CopyStep(src: nat, d: nat, v: nat, ghost a: Snap, ghost data: nat) returns (r: Mapping)
      requires Valid() && Good(a, src) && Built(a, Now(), d) && v < USERPAGES
      requires CopyPart(a, Now(), src, d, data, v)
      modifies this
      ensures Valid() && Built(a, Now(), d)
      ensures r.Panic? <==> !Pte(a.mem, src, v).present
      ensures r.Mapped? ==> CopyPart(a, Now(), src, d, data, v + 1)
      ensures r.Mapped? ==> Paid(old(mem), |old(free)|, mem, |free|, d, {v / ENTRIES}, 1)
      ensures r.NoMemory? ==> Short(old(mem), |old(free)|, d, {v / ENTRIES}, 1)
    {
      hide Sound, Owned, Built, CopyPart, Extends, HasTable, Pte, Paid, Short;
      ghost var b, n := Now(), |free|;
      BuiltIs(a, b, d);
      ParentPte(a, b, src, d, v);
      GoodDir(b, d);
      GoodDir(b, src);
      var t := WalkPgdir(src, v, false);
      if t == 0 {
        NoTableNoPage(b, src, v);
        return Panic;
      }
      PteIs(b, src, v);
      if !mem[t][v % ENTRIES].present {
        return Panic;
      }
      ParentSame(a, b, src, d, v);
      var p, flags := mem[t][v % ENTRIES].frame, mem[t][v % ENTRIES].flags;
      var m := Kalloc();
      if m == 0 {
        NoPage(mem, d, {v / ENTRIES});
        return NoMemory;
      }
      CopiedPage(a, b, role, freelist, free, src, d, data, v, m, mem[p]);
      HeldNotDir(b, d, m);
      mem := mem[m := mem[p]];
      ghost var w;
      ghost var m1, k := mem, |free|;
      OnePageTaken(b.mem, n, m1, d);
      JustOne(v / ENTRIES);
      r, w := MapUser(d, v, m, flags);
      if r.Mapped? {
        PaidTwice(b.mem, n, m1, k, mem, |free|, d, {}, 1, {v / ENTRIES}, 0);
        CopiedOne(a, b, w, src, d, data, v, m);
      } else {
        ShortLater(b.mem, n, m1, k, d, {}, 1, {v / ENTRIES}, 0);
        DropBuilt(a, b, d, m, mem[m], FreedPage(freelist));
        Kfree(m);
      }
    }

    /** `copyuvm`: a child with the parent's pages below `sz`, or nothing. With all those pages there it
        fails exactly when fewer pages are free than the child takes; with one missing it panics
        exactly when the memory lasts until it gets there. */
    method CopyUvm(src: nat, sz: nat, data: nat) returns (panicked: bool, d: nat)
      requires Valid() && Has(role, src, Dir) && sz <= KERNBASE && 0x80100 < data < 0x8E000
      modifies this
      ensures Valid()
      ensures CopyVerdict(old(Now()), FreeCount(old(role)), src, Up(sz), d != 0, panicked)
      ensures panicked ==> !AllThere(old(Now()), src, Up(sz))
      ensures !panicked && d != 0 ==>
                && AllThere(old(Now()), src, Up(sz)) && Built(old(Now()), Now(), d)
                && CopyPart(old(Now()), Now(), src, d, data, Up(sz))
      ensures !panicked && d == 0 ==> role == old(role) && Keeps(old(Now()), Now())
    {
      hide Sound, Owned, Built, CopyPart, KernelPart, Keeps, AllThere, Pte, Freed, Up, Good;
      hide Paid, Short, TablesFor, KernelTables, FreeCount, CopyCost, CopyVerdict, Tables;
      ghost var a, n := Now(), |free|;
      CountIs(mem, freelist, free, role);
      SoundGood(a, freelist, free, src);
      NoneMissing(a, src);
      UpBounds(0, sz);
      d := SetupKvm(data);
      if d == 0 {
        CopyTooSmall(a, n, src, Up(sz));
        return false, 0;
      }
      ghost var m1, n1 := mem, |free|;
      PaidForNone(m1, n1, d, 0);
      BuiltIs(a, Now(), d);
      CopyStarts(a, Now(), src, d, data);
      var v := 0;
      while v * PGSIZE < sz
        invariant v <= Up(sz) && Valid() && Built(a, Now(), d) && Good(Now(), d)
        invariant CopyPart(a, Now(), src, d, data, v) && AllThere(a, src, v)
        invariant Paid(m1, n1, mem, |free|, d, TablesFor(0, v), v)
      {
        BelowUp(v, sz);
        ghost var m, k := mem, |free|;
        var r := CopyStep(src, d, v, a, data);
        OneMoreThere(a, src, v, Up(sz));
        BuiltIs(a, Now(), d);
        TablesForSnoc(0, v);
        if r.Panic? {
          PaidNotShort(m1, n1, m, k, d, TablesFor(0, v), v);
          ChildShort(m1, n1, d, v);
          CopyPanics(a, n, src, v, Up(sz));
          return true, 0;
        }
        if r.NoMemory? {
          ShortLater(m1, n1, m, k, d, TablesFor(0, v), v, {v / ENTRIES}, 1);
          ChildShort(m1, n1, d, v + 1);
          CopyRefused(a, n, src, v, Up(sz));
          ghost var b := Now();
          FreeVm(d);
          GoneAgain(a, b, Now(), d);
          return false, 0;
        }
        PaidTwice(m1, n1, m, k, mem, |free|, d, TablesFor(0, v), v, {v / ENTRIES}, 1);
        v := v + 1;
      }
      BelowUp(v, sz);
      PaidNotShort(m1, n1, mem, |free|, d, TablesFor(0, v), v);
      ChildShort(m1, n1, d, v);
      CopyGranted(a, n, src, v);
      return false, d;
    }
  }

  /** Of `n` pages needed: with all of the parent's there the copy succeeds exactly when `free` pages
      suffice, and with one missing it panics exactly when they last until there. */
  ghost predicate CopyVerdict(a: Snap, free: nat, src: nat, n: nat, ok: bool, panicked: bool)
  {
    && (AllThere(a, src, n) ==> !panicked && (ok <==> free >= 65 + n + (n + 1023) / 1024))
    && forall m :: 0 <= m < n && MissingFirst(a, src, m) ==>
         !ok && (panicked <==> free >= 65 + m + (m + 1023) / 1024)
  }

  /** Page `m` is the first that is not mapped. */
  ghost predicate MissingFirst(a: Snap, d: nat, m: nat)
  {
    AllThere(a, d, m) && m < USERPAGES && !Pte(a.mem, d, m).present
  }

  lemma CopyTooSmall(a: Snap, free: nat, src: nat, n: nat)
    requires free < 65
    ensures CopyVerdict(a, free, src, n, false, false)
  {
  }

  lemma CopyPanics(a: Snap, free: nat, src: nat, v: nat, n: nat)
    requires AllThere(a, src, v) && v < n <= USERPAGES && Good(a, src) && !Pte(a.mem, src, v).present && free >= CopyCost(v)
    ensures CopyVerdict(a, free, src, n, false, true)
  {
    hide Pte, Owned;
    GoodDir(a, src);
    forall m | 0 <= m < n && MissingFirst(a, src, m)
      ensures m == v
    {
    }
  }

  lemma CopyRefused(a: Snap, free: nat, src: nat, v: nat, n: nat)
    requires AllThere(a, src, v + 1) && v < n && free < CopyCost(v + 1)
    ensures CopyVerdict(a, free, src, n, false, false)
  {
    hide Pte, Owned;
    forall m | 0 <= m < n && MissingFirst(a, src, m)
      ensures m >= v + 1
    {
    }
  }

  lemma CopyGranted(a: Snap, free: nat, src: nat, n: nat)
    requires AllThere(a, src, n) && free >= CopyCost(n)
    ensures CopyVerdict(a, free, src, n, true, false)
  {
    hide Pte, Owned;
  }

  /** The pages `lo` to `hi` and the tables for them that are missing. */
  ghost function Lacks(mem: Memory, d: nat, lo: nat, hi: nat): (n: int)
  {
    hi - lo + |TablesFor(lo, hi) - Tables(mem, d)|
  }

  /** Page `m` is the first from `lo` on that is mapped. */
  ghost predicate MappedFirst(a: Snap, d: nat, lo: nat, m: nat)
  {
    Unmapped(a, d, lo, m) && m < USERPAGES && Pte(a.mem, d, m).present
  }

  /** On a range with nothing in it the growth succeeds exactly when `free` pages suffice; with a page
      in it, it panics exactly when they last until there. */
  ghost predicate AllocVerdict(a: Snap, free: nat, d: nat, lo: nat, hi: nat, ok: bool, panicked: bool)
  {
    && (Unmapped(a, d, lo, hi) ==> !panicked && (ok <==> free >= Lacks(a.mem, d, lo, hi)))
    && forall m :: lo <= m < hi && MappedFirst(a, d, lo, m) ==>
         !ok && (panicked <==> free > Lacks(a.mem, d, lo, m))
  }

  lemma AllocGranted(a: Snap, free: nat, d: nat, lo: nat, hi: nat)
    requires Unmapped(a, d, lo, hi) && lo <= hi && !Short(a.mem, free, d, TablesFor(lo, hi), hi - lo)
    ensures AllocVerdict(a, free, d, lo, hi, true, false)
  {
    hide Pte, Owned, Tables, TablesFor;
    ShortIs(a.mem, free, d, TablesFor(lo, hi), hi - lo);
  }

  lemma LacksGrow(mem: Memory, d: nat, lo: nat, v: nat, hi: nat)
    requires lo <= v <= hi
    ensures Lacks(mem, d, lo, v) <= Lacks(mem, d, lo, hi)
  {
    hide Tables, TablesFor;
    TablesForGrow(lo, v, hi);
    Sums.SubsetSize(TablesFor(lo, v) - Tables(mem, d), TablesFor(lo, hi) - Tables(mem, d));
  }

  /** A page that is mapped has its table already. */
  lemma LacksMapped(a: Snap, d: nat, lo: nat, v: nat)
    requires Good(a, d) && lo <= v < USERPAGES && Pte(a.mem, d, v).present
    ensures Lacks(a.mem, d, lo, v + 1) == Lacks(a.mem, d, lo, v) + 1
  {
    hide TablesFor;
    GoodDir(a, d);
    assert v / ENTRIES in Tables(a.mem, d);
    TablesForSnoc(lo, v);
    assert TablesFor(lo, v + 1) - Tables(a.mem, d) == TablesFor(lo, v) - Tables(a.mem, d);
  }

  lemma AllocRefused(a: Snap, free: nat, d: nat, lo: nat, v: nat, hi: nat)
    requires Unmapped(a, d, lo, v) && lo <= v < hi <= USERPAGES
    requires Short(a.mem, free, d, TablesFor(lo, v + 1), v - lo + 1)
    ensures AllocVerdict(a, free, d, lo, hi, false, false)
  {
    hide Pte, Owned, Tables, TablesFor, Lacks;
    assert free < Lacks(a.mem, d, lo, v + 1) by { LacksIs(a.mem, free, d, lo, v + 1); }
    LacksGrow(a.mem, d, lo, v + 1, hi);
    forall m | lo <= m < hi && MappedFirst(a, d, lo, m)
      ensures free <= Lacks(a.mem, d, lo, m)
    {
      assert m >= v;
      if m == v { LacksMapped(a, d, lo, v); } else { LacksGrow(a.mem, d, lo, v + 1, m); }
    }
  }

  lemma LacksIs(mem: Memory, free: nat, d: nat, lo: nat, hi: nat)
    requires lo <= hi
    ensures Short(mem, free, d, TablesFor(lo, hi), hi - lo) <==> free < Lacks(mem, d, lo, hi)
  {
    hide Tables, TablesFor;
    ShortIs(mem, free, d, TablesFor(lo, hi), hi - lo);
  }

  lemma AllocPanics(a: Snap, free: nat, d: nat, lo: nat, v: nat, hi: nat)
    requires Unmapped(a, d, lo, v) && lo <= v < hi <= USERPAGES && Pte(a.mem, d, v).present
    requires !Short(a.mem, free, d, TablesFor(lo, v + 1), v - lo + 1)
    ensures AllocVerdict(a, free, d, lo, hi, false, true)
  {
    hide Pte, Owned, Tables, TablesFor, Lacks;
    LacksIs(a.mem, free, d, lo, v + 1);
    LacksMapped(a, d, lo, v);
    forall m | lo <= m < hi && MappedFirst(a, d, lo, m)
      ensures m == v
    {
    }
  }

  lemma PaidForNone(mem: Memory, n: nat, d: nat, lo: nat)
    ensures Paid(mem, n, mem, n, d, TablesFor(lo, lo), 0)
  {
    NothingPaid(mem, n, d);
  }

  lemma NewDirTables(mem: Memory, d: nat)
    requires d in mem && mem[d] == Filled(ZERO)
    ensures Tables(mem, d) == {}
  {
  }

  lemma KernelShort(mem: Memory, n: nat, d: nat)
    requires Tables(mem, d) == {} && Short(mem, n, d, KernelTables(), 0)
    ensures n < 64
  {
    hide KernelTables;
    KernelTablesCount();
    assert {} + KernelTables() == KernelTables();
  }

  lemma KernelPaid(mem: Memory, n: nat, mem': Memory, n': nat, d: nat)
    requires Tables(mem, d) == {} && Paid(mem, n, mem', n', d, KernelTables(), 0)
    ensures Tables(mem', d) == KernelTables() && n' + 64 == n
  {
    hide KernelTables;
    KernelTablesCount();
    assert {} + KernelTables() == KernelTables();
  }

  lemma JustOne(i: nat)
    ensures {} + {i} == {i}
  {
  }

  lemma HeldNotDir(b: Snap, d: nat, p: nat)
    requires Good(b, d) && Has(b.role, p, Free)
    ensures p != d
  {
  }

  lemma NoPage(mem: Memory, d: nat, more: set<nat>)
    ensures Short(mem, 0, d, more, 1)
  {
    hide Tables;
    Sums.SubsetSize(Tables(mem, d), Tables(mem, d) + more);
  }

  /** A page taken from the list and filled. */
  lemma OnePageTaken(mem: Memory, n: nat, mem': Memory, d: nat)
    requires n > 0 && d in mem && d in mem' && mem'[d] == mem[d]
    ensures Paid(mem, n, mem', n - 1, d, {}, 1)
  {
    hide Paid;
    OnePagePaid(mem, n, d);
    PaidElsewhere(mem, n, mem, n - 1, mem', d, {}, 1);
  }

  lemma SoundGood(a: Snap, freelist: nat, free: seq<nat>, d: nat)
    requires Sound(a.mem, freelist, free, a.role) && Has(a.role, d, Dir)
    ensures Good(a, d)
  {
  }

  lemma BelowUp(v: nat, sz: nat)
    ensures v * PGSIZE < sz <==> v < Up(sz)
  {
  }

  lemma UpBounds(lo: nat, hi: nat)
    requires lo <= hi <= KERNBASE
    ensures Up(lo) <= Up(hi) <= USERPAGES <= PAGES
  {
  }

  /** The pages below `n` are mapped. */
  ghost predicate AllThere(a: Snap, d: nat, n: nat)
  {
    Good(a, d) && n <= USERPAGES && forall v :: 0 <= v < n ==> Pte(a.mem, d, v).present
  }

  lemma NoneMissing(a: Snap, d: nat)
    requires Good(a, d)
    ensures AllThere(a, d, 0)
  {
  }

  lemma OneMoreThere(a: Snap, d: nat, v: nat, n: nat)
    requires AllThere(a, d, v) && v < n <= USERPAGES
    ensures Good(a, d)
    ensures if Pte(a.mem, d, v).present then AllThere(a, d, v + 1) else !AllThere(a, d, n)
  {
    hide Pte, Owned;
    GoodDir(a, d);
  }

  lemma NoTableNoPage(b: Snap, src: nat, v: nat)
    requires Good(b, src) && v < USERPAGES && src in b.mem && |b.mem[src]| == ENTRIES && !b.mem[src][v / ENTRIES].present
    ensures !Pte(b.mem, src, v).present
  {
  }

  lemma ParentPte(a: Snap, b: Snap, src: nat, d: nat, v: nat)
    requires Good(a, src) && Built(a, b, d) && v < USERPAGES
    ensures Good(b, src) && src != d && Pte(b.mem, src, v) == Pte(a.mem, src, v)
  {
    GoodDir(a, src);
    if a.mem[src][v / ENTRIES].present {
      TableIsThere(a, src, v);
      var t := a.mem[src][v / ENTRIES].frame;
      assert !a.role[t].Free? && !OwnedBy(a.role[t], t, d);
    }
    assert !a.role[src].Free? && !OwnedBy(a.role[src], src, d);
  }

  lemma TableNotDir(w: Snap, d: nat, v: nat)
    requires HasTable(w, d, v)
    ensures d in w.mem && w.mem[d][v / ENTRIES].frame != d
  {
  }

  /** The walk may add a table but changes no entry. */
  lemma SameEntry(a: Snap, w: Snap, d: nat, v: nat)
    requires Extends(a, w, d) && HasTable(w, d, v) && v < USERPAGES
    ensures Pte(a.mem, d, v).present <==> w.mem[w.mem[d][v / ENTRIES].frame][v % ENTRIES].present
  {
    PteIs(w, d, v);
    assert SamePte(Pte(a.mem, d, v), Pte(w.mem, d, v));
  }

  lemma CopiedPage(a: Snap, b: Snap, role: Roles, freelist: nat, free: seq<nat>, src: nat, d: nat, data: nat, v: nat,
                   m: nat, content: Page)
    requires Good(a, src) && Built(a, b, d) && v < USERPAGES && CopyPart(a, b, src, d, data, v)
    requires Has(b.role, m, Free) && role == b.role[m := Held] && Sound(b.mem, freelist, free, role)
    requires |content| == ENTRIES
    ensures var h := HoldWith(b, m, content);
            && Sound(h.mem, freelist, free, h.role) && Good(h, d) && Has(h.role, m, Held)
            && !Pte(h.mem, d, v).present
  {
    LoosePtes(b, d, m, Held, content);
    KeepsList(b.mem, freelist, free, role, HoldWith(b, m, content).mem, role);
    assert !Pte(b.mem, d, v).present;
  }

  lemma CopiedOne(a: Snap, b: Snap, w: Snap, src: nat, d: nat, data: nat, v: nat, m: nat)
    requires Good(a, src) && Built(a, b, d) && v < USERPAGES && CopyPart(a, b, src, d, data, v)
    requires Pte(a.mem, src, v).present && Has(b.role, m, Free) && Pte(a.mem, src, v).frame in a.mem
    requires var content := a.mem[Pte(a.mem, src, v).frame];
             |content| == ENTRIES && Extends(HoldWith(b, m, content), w, d) && m in w.mem && w.mem[m] == content
    requires HasTable(w, d, v) && Has(w.role, m, Held)
    ensures var c := PutUser(w, d, v, m, Pte(a.mem, src, v).flags);
            Built(a, c, d) && Good(c, d) && CopyPart(a, c, src, d, data, v + 1)
  {
    var content := a.mem[Pte(a.mem, src, v).frame];
    BuiltIs(a, b, d);
    hide Owned, CopyPart, Extends, HasTable, Pte;
    CopyPartStep(a, b, w, src, d, data, v, m);
    HoldBuilt(a, b, d, m, content);
    BuiltExtends(HoldWith(a, m, content), HoldWith(b, m, content), w, d);
    PutBuilt(a, w, d, v, m, content, Pte(a.mem, src, v).flags);
  }

  /** Pages `first` to `last` are mapped to consecutive pages from `pa`. */
  ghost predicate KernelRun(first: nat, last: nat, pa: nat, perm: nat, data: nat)
  {
    forall v :: first <= v <= last ==> KernelMaps(v) && KernelWord(v, data) == Word(pa + (v - first), true, perm)
  }

  /** The four rows of `kmap` are runs of the mapping. */
  lemma KernelRuns(data: nat)
    requires 0x80100 < data < 0x8E000
    ensures KernelRun(0x80000, 0x800FF, 0, 2, data) && KernelRun(0x80100, data - 1, 0x100, 0, data)
    ensures KernelRun(data, 0x8DFFF, data - 0x80000, 2, data) && KernelRun(0xFE000, 0xFFFFF, 0xFE000, 2, data)
  {
  }

  lemma KernelSound(w: Snap, freelist: nat, free: seq<nat>, d: nat, v: nat, word: Word)
    requires Sound(w.mem, freelist, free, w.role) && HasTable(w, d, v) && USERPAGES <= v
    ensures var c := PutKernel(w, d, v, word); Sound(c.mem, freelist, free, c.role)
  {
    var c := PutKernel(w, d, v, word);
    PutKernelOk(w, d, v, word);
    KeepsList(w.mem, freelist, free, w.role, c.mem, c.role);
  }

  lemma DirSound(a: Snap, role: Roles, freelist: nat, free: seq<nat>, d: nat, data: nat)
    requires Owned(a.mem, a.role) && Has(a.role, d, Free) && role == a.role[d := Held] && Sound(a.mem, freelist, free, role)
    ensures var b := Snap(a.mem[d := Filled(ZERO)], role[d := Dir]);
            && Sound(b.mem, freelist, free, b.role) && Built(a, b, d) && Good(b, d)
            && KernelPart(b, d, data, 0x80000)
  {
    NewDir(a, d);
    var b := Snap(a.mem[d := Filled(ZERO)], a.role[d := Dir]);
    assert role[d := Dir] == a.role[d := Dir];
    KeepsList(a.mem, freelist, free, role, b.mem, b.role);
  }

  lemma BuiltIs(a: Snap, b: Snap, d: nat)
    requires Built(a, b, d)
    ensures Good(b, d) && Has(b.role, d, Dir) && d != 0
  {
  }

  /** Nothing is mapped between the direct map and the devices. */
  lemma KernelGap(b: Snap, d: nat, data: nat)
    requires Good(b, d) && KernelPart(b, d, data, 0x8E000)
    ensures KernelPart(b, d, data, 0xFE000)
  {
    GoodDir(b, d);
    hide Owned, Pte;
  }

  /** All pages in use have kept their contents. */
  ghost predicate Keeps(a: Snap, b: Snap)
  {
    forall q :: q in a.role && !a.role[q].Free? ==> q in a.mem && q in b.mem && b.mem[q] == a.mem[q]
  }

  lemma KeepsSame(a: Snap)
    requires Owned(a.mem, a.role)
    ensures Keeps(a, a)
  {
  }

  lemma GoneAgain(a: Snap, b: Snap, c: Snap, d: nat)
    requires Built(a, b, d) && Freed(b, c, d)
    ensures c.role == a.role && Keeps(a, c)
  {
    BuiltThenFreed(a, b, c, d);
    forall q | q in a.role
      ensures !OwnedBy(a.role[q], q, d)
    {
      NothingOwned(a, d, q);
    }
    hide Owned;
  }

  lemma LeavesAll(b: Snap, d: nat)
    requires Good(b, d)
    ensures Leaves(b, b.mem, d)
  {
  }

  lemma LeavesTable(b: Snap, mem: Memory, d: nat, t: nat, content: Page)
    requires Leaves(b, mem, d) && t in b.role && OwnedBy(b.role[t], t, d)
    ensures Leaves(b, mem[t := content], d)
  {
  }

  lemma TablesNext(a: Snap, b: Snap, freelist: nat, free: seq<nat>, d: nat)
    requires Shrunk(a, b, d, 0, USERPAGES) && Sound(b.mem, freelist, free, b.role)
    ensures Good(b, d) && Sound(b.mem, freelist, free, FreeingRoles(b.role, d, 0))
    ensures Has(FreeingRoles(b.role, d, ENTRIES), d, Held)
  {
    hide Shrunk, Owned;
    AllShrunk(a, b, d);
    ShrunkGood(a, b, d, 0, USERPAGES);
    FreeingStarts(b, d);
    FreeingEnds(b, d);
    hide FreeingRoles;
    KeepsList(b.mem, freelist, free, b.role, b.mem, FreeingRoles(b.role, d, 0));
  }

  lemma AllFreed(a: Snap, b: Snap, m: Memory, c: Snap, d: nat)
    requires Shrunk(a, b, d, 0, USERPAGES) && Leaves(b, m, d) && c.role == FreeingRoles(b.role, d, ENTRIES)[d := Free]
    requires d in c.mem && c.mem == m[d := c.mem[d]]
    ensures Freed(a, c, d)
  {
    hide Shrunk, Owned;
    AllShrunk(a, b, d);
    ShrunkGood(a, b, d, 0, USERPAGES);
    FreeingEnds(b, d);
    assert Isolated(b, c, d);
    FreedInAll(a, b, c, d);
  }

  /** Memory not owned by directory `d` and not free is as in `b`. */
  ghost predicate Leaves(b: Snap, mem: Memory, d: nat)
  {
    forall q :: q in b.role && !b.role[q].Free? && !OwnedBy(b.role[q], q, d) ==>
      q in b.mem && q in mem && mem[q] == b.mem[q]
  }

  ghost predicate Unmapped(a: Snap, d: nat, lo: nat, hi: nat)
  {
    Good(a, d) && hi <= PAGES && forall x :: lo <= x < hi ==> !Pte(a.mem, d, x).present
  }

  lemma GrownGood(a: Snap, b: Snap, d: nat, lo: nat, hi: nat)
    requires Grown(a, b, d, lo, hi)
    ensures Good(a, d) && Good(b, d) && Has(b.role, d, Dir)
  {
  }

  /** A newly allocated page may be filled at will. */
  lemma HeldPage(b: Snap, role: Roles, freelist: nat, free: seq<nat>, d: nat, p: nat)
    requires Good(b, d) && Has(b.role, p, Free) && role == b.role[p := Held] && Sound(b.mem, freelist, free, role)
    ensures Sound(Hold(b, p).mem, freelist, free, role) && Good(Hold(b, p), d)
  {
    LoosePtes(b, d, p, Held, Filled(ZERO));
    KeepsList(b.mem, freelist, free, role, Hold(b, p).mem, role);
  }

  /** Nothing is left in the range, and if nothing was in it at first, nothing but tables is new. */
  ghost predicate GivenBack(a: Snap, c: Snap, d: nat, lo: nat, hi: nat)
  {
    Unmapped(c, d, lo, hi) && (Unmapped(a, d, lo, hi) ==> Extends(a, c, d))
  }

  lemma StillThere(a: Snap, b: Snap, d: nat, lo: nat, v: nat, hi: nat, p: nat)
    requires Grown(a, b, d, lo, v) && lo <= v < hi <= USERPAGES && Has(b.role, p, Free) && Unmapped(a, d, lo, v)
    ensures Good(a, d) && Good(Hold(b, p), d)
    ensures if Pte(Hold(b, p).mem, d, v).present then !Unmapped(a, d, lo, hi) && Pte(a.mem, d, v).present
            else Unmapped(a, d, lo, v + 1)
  {
    LoosePtes(b, d, p, Held, Filled(ZERO));
    hide Pte, Owned, GrownRoles, Isolated, KeepsUser;
    assert SamePte(Pte(a.mem, d, v), Pte(b.mem, d, v));
  }

  lemma OnePageMore(a: Snap, b: Snap, w: Snap, d: nat, lo: nat, v: nat, hi: nat, p: nat)
    requires Grown(a, b, d, lo, v) && lo <= v < hi <= USERPAGES && Has(b.role, p, Free) && Unmapped(a, d, lo, v + 1)
    requires Extends(Hold(b, p), w, d) && HasTable(w, d, v)
    ensures Has(w.role, p, Held) && Grown(a, PutUser(w, d, v, p, 6), d, lo, v + 1)
  {
    hide Grown, Extends;
    GrownStep(a, b, w, d, lo, v, p);
  }

  lemma ShrunkEmpty(b: Snap, c: Snap, d: nat, lo: nat, hi: nat)
    requires Shrunk(b, c, d, lo, hi) && hi <= PAGES
    ensures Unmapped(c, d, lo, hi)
  {
  }

  /** Undoing a growth that stopped at page `v`. */
  lemma UndoGrowth(a: Snap, b: Snap, c: Snap, d: nat, v: nat, newsz: nat, oldsz: nat)
    requires Grown(a, b, d, Up(oldsz), v) && Up(oldsz) <= v < Up(newsz) <= USERPAGES
    requires oldsz < newsz ==> Shrunk(b, c, d, Up(oldsz), Up(newsz))
    ensures GivenBack(a, c, d, Up(oldsz), Up(newsz))
  {
    assert oldsz < newsz;
    ShrunkEmpty(b, c, d, Up(oldsz), Up(newsz));
    if Unmapped(a, d, Up(oldsz), Up(newsz)) {
      hide Grown, Shrunk, Extends;
      GrownThenShrunk(a, b, c, d, Up(oldsz), v, Up(newsz));
    }
  }

  lemma HeldUnmapped(a: Snap, d: nat, lo: nat, hi: nat, p: nat, r: Role, content: Page)
    requires Unmapped(a, d, lo, hi) && p in a.role && (a.role[p].Free? || a.role[p].Held?) && |content| == ENTRIES
    requires r.Free? || r.Held?
    ensures Unmapped(Snap(a.mem[p := content], a.role[p := r]), d, lo, hi)
  {
    LoosePtes(a, d, p, r, content);
    var m := a.mem[p := content];
    forall x | lo <= x < hi
      ensures !Pte(m, d, x).present
    {
      assert Pte(m, d, x) == Pte(a.mem, d, x);
    }
  }

  lemma UnmappedNothing(a: Snap, d: nat, lo: nat)
    requires Good(a, d) && lo <= PAGES
    ensures Unmapped(a, d, lo, lo)
  {
  }

  lemma UndoHeld(a: Snap, b: Snap, c: Snap, d: nat, v: nat, newsz: nat, oldsz: nat, p: nat, content: Page)
    requires Grown(a, b, d, Up(oldsz), v) && Has(b.role, p, Free) && |content| == ENTRIES
    requires Up(oldsz) <= v < Up(newsz) <= USERPAGES
    requires oldsz < newsz ==> Shrunk(Hold(b, p), c, d, Up(oldsz), Up(newsz))
    ensures Has(c.role, p, Held) && GivenBack(a, Release(c, p, content), d, Up(oldsz), Up(newsz))
  {
    var lo, hi := Up(oldsz), Up(newsz);
    assert oldsz < newsz;
    HeldStays(b, c, d, lo, hi, p);
    ShrunkEmpty(Hold(b, p), c, d, lo, hi);
    hide Grown, Shrunk, Extends, Owned, Unmapped, Up;
    HeldUnmapped(c, d, lo, hi, p, Free, content);
    if Unmapped(a, d, lo, hi) {
      GrownGood(a, b, d, lo, v);
      HoldBoth(a, b, d, lo, v, p);
      HeldUnmapped(a, d, lo, hi, p, Held, Filled(ZERO));
      UndoGrowth(Hold(a, p), Hold(b, p), c, d, v, newsz, oldsz);
      DropBoth(a, c, d, p, content);
    }
  }

  lemma HeldStays(b: Snap, c: Snap, d: nat, lo: nat, hi: nat, p: nat)
    requires Shrunk(Hold(b, p), c, d, lo, hi)
    ensures Has(c.role, p, Held)
  {
  }

  function Least(a: nat, b: nat): (c: nat)
  {
    if a <= b then a else b
  }

  lemma PutSound(a: Snap, w: Snap, freelist: nat, free: seq<nat>, d: nat, v: nat, p: nat, flags: nat)
    requires Good(a, d) && v < USERPAGES && Has(a.role, p, Held) && !Pte(a.mem, d, v).present
    requires Extends(a, w, d) && HasTable(w, d, v) && Sound(w.mem, freelist, free, w.role)
    ensures Has(w.role, p, Held) && p in w.mem && w.mem[p] == a.mem[p]
    ensures var c := PutUser(w, d, v, p, flags); Sound(c.mem, freelist, free, c.role)
  {
    assert SamePte(Pte(a.mem, d, v), Pte(w.mem, d, v));
    PutUserOk(w, d, v, p, flags);
    var c := PutUser(w, d, v, p, flags);
    KeepsList(w.mem, freelist, free, w.role, c.mem, c.role);
  }

  lemma ShrunkGood(a: Snap, b: Snap, d: nat, lo: nat, hi: nat)
    requires Shrunk(a, b, d, lo, hi)
    ensures Good(a, d) && Good(b, d) && Has(b.role, d, Dir) && d in b.mem && |b.mem[d]| == ENTRIES
  {
  }

  lemma SkipTable(a: Snap, b: Snap, d: nat, lo: nat, v: nat, hi: nat)
    requires Shrunk(a, b, d, lo, v) && lo <= v < hi <= USERPAGES && !b.mem[d][v / ENTRIES].present
    ensures Shrunk(a, b, d, lo, Least((v / ENTRIES + 1) * ENTRIES, hi))
  {
    hide Shrunk, Owned;
    ShrunkGood(a, b, d, lo, v);
    ShrunkQuiet(a, b, d, lo, v, Least((v / ENTRIES + 1) * ENTRIES, hi));
  }

  lemma PteIs(b: Snap, d: nat, v: nat)
    requires HasTable(b, d, v)
    ensures d in b.mem && |b.mem[d]| == ENTRIES
    ensures var t := b.mem[d][v / ENTRIES].frame; t in b.mem && |b.mem[t]| == ENTRIES
    ensures Pte(b.mem, d, v) == b.mem[b.mem[d][v / ENTRIES].frame][v % ENTRIES]
  {
  }

  lemma NotMapped(a: Snap, b: Snap, d: nat, lo: nat, v: nat)
    requires Shrunk(a, b, d, lo, v) && lo <= v < USERPAGES && HasTable(b, d, v)
    requires !b.mem[b.mem[d][v / ENTRIES].frame][v % ENTRIES].present
    ensures Shrunk(a, b, d, lo, v + 1)
  {
    hide Shrunk, HasTable, Owned, Pte;
    ShrunkGood(a, b, d, lo, v);
    PteIs(b, d, v);
    ShrunkQuiet(a, b, d, lo, v, v + 1);
  }

  lemma FreeUserSound(a: Snap, b: Snap, freelist: nat, free: seq<nat>, d: nat, lo: nat, v: nat)
    requires Sound(b.mem, freelist, free, b.role) && Shrunk(a, b, d, lo, v) && lo <= v < USERPAGES
    requires HasTable(b, d, v) && b.mem[b.mem[d][v / ENTRIES].frame][v % ENTRIES].present
    ensures var t := b.mem[d][v / ENTRIES].frame; var p := b.mem[t][v % ENTRIES].frame;
            && p != t && Has(b.role, p, User(d, v))
            && var c := ClearUser(b, d, v, p, FreedPage(freelist));
               Sound(c.mem, p, [p] + free, c.role) && Shrunk(a, c, d, lo, v + 1)
  {
    MappedIsUser(b, d, v);
    var t := b.mem[d][v / ENTRIES].frame;
    var p := b.mem[t][v % ENTRIES].frame;
    var c := ClearUser(b, d, v, p, FreedPage(freelist));
    ShrunkFree(a, b, d, lo, v, p, FreedPage(freelist));
    GiveBackChain(b.mem, freelist, free, b.role, p);
    FreedChain(b, c, freelist, free, d, t, p);
  }

  /** Clearing the entry in table `t` does not touch the list. */
  lemma FreedChain(b: Snap, c: Snap, freelist: nat, free: seq<nat>, d: nat, t: nat, p: nat)
    requires Chained(b.mem[p := FreedPage(freelist)], p, [p] + free) && Listed(b.role[p := Free], [p] + free)
    requires t in b.role && !b.role[t].Free? && t != p && c.role == b.role[p := Free]
    requires c.mem.Keys == b.mem.Keys + {p} && forall q :: q in c.mem && q != t ==> c.mem[q] == b.mem[p := FreedPage(freelist)][q]
    ensures Chained(c.mem, p, [p] + free) && Listed(c.role, [p] + free)
  {
    var fs := [p] + free;
    forall i | 0 <= i < |fs|
      ensures fs[i] != t
    {
      assert fs[i] in fs;
    }
  }

  lemma TableIsThere(s: Snap, d: nat, v: nat)
    requires Good(s, d) && v < PAGES && s.mem[d][v / ENTRIES].present
    ensures HasTable(s, d, v)
    ensures var t := s.mem[d][v / ENTRIES].frame; t != 0 && t in s.mem && |s.mem[t]| == ENTRIES
  {
    OwnedPage(s.mem, s.role, d);
  }

  lemma TableSound(a: Snap, role: Roles, freelist: nat, free: seq<nat>, d: nat, v: nat, t: nat)
    requires Sound(a.mem, freelist, free, role) && Has(a.role, t, Free) && role == a.role[t := Held]
    requires Good(a, d) && v < PAGES && !a.mem[d][v / ENTRIES].present
    ensures d != t
    ensures var b := WithTable(a.(role := role), d, v / ENTRIES, t);
            Sound(b.mem, freelist, free, b.role) && Extends(a, b, d) && HasTable(b, d, v)
  {
    TableExtends(a, d, v / ENTRIES, t);
    var b := WithTable(a.(role := role), d, v / ENTRIES, t);
    KeepsList(a.mem, freelist, free, role, b.mem, b.role);
  }
}

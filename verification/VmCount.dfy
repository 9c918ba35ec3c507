/** How many pages an operation on an address space takes, and when there are too few. */
module VmCount {
  import opened VmPages
  import opened Vm
  import opened Sums

  // ---------------------------------------------------------------- the free pages

  function FreeCount(role: Roles): (n: nat)
  {
    |set p | p in role && role[p].Free?|
  }

  function Elements(s: seq<nat>): (r: set<nat>)
  {
    set p | p in s
  }

  lemma CountIs(mem: Memory, freelist: nat, free: seq<nat>, role: Roles)
    requires Sound(mem, freelist, free, role)
    ensures FreeCount(role) == |free|
  {
    hide Owned, Chained;
    SeqCount(free);
    forall p: nat
      ensures p in role && role[p].Free? <==> p in free
    {
      assert p in free <==> Has(role, p, Free);
    }
    assert Elements(free) == set p | p in role && role[p].Free?;
  }

  lemma {:induction false} SeqCount(s: seq<nat>)
    requires forall i, j :: 0 <= i < j < |s| ==> s[i] != s[j]
    ensures |Elements(s)| == |s|
  {
    if s == [] {
      assert Elements(s) == {};
    } else {
      var n := |s| - 1;
      SeqCount(s[..n]);
      assert s == s[..n] + [s[n]];
      assert Elements(s) == Elements(s[..n]) + {s[n]};
      assert s[n] !in Elements(s[..n]);
    }
  }

  // ---------------------------------------------------------------- tables

  /** The directory entries that have a table. */
  ghost function Tables(mem: Memory, d: nat): (s: set<nat>)
  {
    set i: nat | i < ENTRIES && d in mem && i < |mem[d]| && mem[d][i].present
  }

  /** The directory entries of pages `lo` to before `hi`. */
  function TablesFor(lo: nat, hi: nat): (s: set<nat>)
  {
    if lo >= hi then {} else Interval(lo / ENTRIES, (hi - 1) / ENTRIES - lo / ENTRIES + 1)
  }

  lemma TablesForIs(lo: nat, hi: nat, i: nat)
    ensures i in TablesFor(lo, hi) <==> lo < hi && lo / ENTRIES <= i <= (hi - 1) / ENTRIES
  {
    hide Interval;
  }

  lemma TablesForSnoc(lo: nat, v: nat)
    requires lo <= v
    ensures TablesFor(lo, v + 1) == TablesFor(lo, v) + {v / ENTRIES}
  {
    hide TablesFor;
    forall i: nat
      ensures i in TablesFor(lo, v + 1) <==> i in TablesFor(lo, v) + {v / ENTRIES}
    {
      TablesForIs(lo, v + 1, i);
      TablesForIs(lo, v, i);
    }
  }

  lemma TablesForGrow(lo: nat, v: nat, hi: nat)
    requires v <= hi
    ensures TablesFor(lo, v) <= TablesFor(lo, hi)
  {
    hide TablesFor;
    forall i | i in TablesFor(lo, v)
      ensures i in TablesFor(lo, hi)
    {
      TablesForIs(lo, v, i);
      TablesForIs(lo, hi, i);
    }
  }

  /** Where the kernel's mappings have their tables. */
  function KernelTables(): (s: set<nat>)
  {
    TablesFor(0x80000, 0x8E000) + TablesFor(0xFE000, 0x100000)
  }

  lemma KernelTablesIs(i: nat)
    ensures i in KernelTables() <==> 512 <= i < 568 || 1016 <= i < 1024
  {
    hide TablesFor;
    TablesForIs(0x80000, 0x8E000, i);
    TablesForIs(0xFE000, 0x100000, i);
  }

  lemma KernelTablesCount()
    ensures |KernelTables()| == 64
  {
    hide Interval;
    assert KernelTables() == Interval(512, 56) + Interval(1016, 8);
    assert Interval(512, 56) !! Interval(1016, 8);
  }

  /** The four rows of `kmap` need these tables. */
  lemma KernelRunsTables(data: nat)
    requires 0x80100 < data < 0x8E000
    ensures var t1 := {} + TablesFor(0x80000, 0x80100);
            var t2 := t1 + TablesFor(0x80100, data);
            var t3 := t2 + TablesFor(data, 0x8E000);
            t1 <= KernelTables() && t2 <= KernelTables() && t3 <= KernelTables()
            && t3 + TablesFor(0xFE000, 0x100000) == KernelTables()
  {
    hide TablesFor;
    forall i: nat
      ensures i in TablesFor(0x80000, 0x80100) + TablesFor(0x80100, data) + TablesFor(data, 0x8E000)
              <==> i in TablesFor(0x80000, 0x8E000)
    {
      TablesForIs(0x80000, 0x80100, i);
      TablesForIs(0x80100, data, i);
      TablesForIs(data, 0x8E000, i);
      TablesForIs(0x80000, 0x8E000, i);
    }
  }

  // ---------------------------------------------------------------- paying for pages

  /** From `n` free pages to `n'`: the tables `more` are there now, `pages` other pages were taken. */
  ghost predicate Paid(mem: Memory, n: nat, mem': Memory, n': nat, d: nat, more: set<nat>, pages: nat)
  {
    Tables(mem', d) == Tables(mem, d) + more && n' + |Tables(mem', d)| + pages == n + |Tables(mem, d)|
  }

  /** `n` free pages are too few for that. */
  ghost predicate Short(mem: Memory, n: nat, d: nat, more: set<nat>, pages: nat)
  {
    n + |Tables(mem, d)| < |Tables(mem, d) + more| + pages
  }

  lemma PaidNotShort(mem: Memory, n: nat, mem': Memory, n': nat, d: nat, more: set<nat>, pages: nat)
    requires Paid(mem, n, mem', n', d, more, pages)
    ensures !Short(mem, n, d, more, pages)
  {
    hide Tables;
  }

  lemma PaidTwice(m0: Memory, n0: nat, m1: Memory, n1: nat, m2: Memory, n2: nat, d: nat, a: set<nat>, p: nat, b: set<nat>, q: nat)
    requires Paid(m0, n0, m1, n1, d, a, p) && Paid(m1, n1, m2, n2, d, b, q)
    ensures Paid(m0, n0, m2, n2, d, a + b, p + q)
  {
    hide Tables;
    assert Tables(m0, d) + a + b == Tables(m0, d) + (a + b);
  }

  lemma ShortLater(m0: Memory, n0: nat, m1: Memory, n1: nat, d: nat, a: set<nat>, p: nat, b: set<nat>, q: nat)
    requires Paid(m0, n0, m1, n1, d, a, p) && Short(m1, n1, d, b, q)
    ensures Short(m0, n0, d, a + b, p + q)
  {
    hide Tables;
    assert Tables(m0, d) + a + b == Tables(m0, d) + (a + b);
  }

  lemma NotShortLater(m0: Memory, n0: nat, m1: Memory, n1: nat, d: nat, a: set<nat>, p: nat, b: set<nat>, q: nat)
    requires Paid(m0, n0, m1, n1, d, a, p) && !Short(m1, n1, d, b, q)
    ensures !Short(m0, n0, d, a + b, p + q)
  {
    hide Tables;
    assert Tables(m0, d) + a + b == Tables(m0, d) + (a + b);
  }

  lemma ShortForMore(mem: Memory, n: nat, d: nat, a: set<nat>, p: nat, b: set<nat>, q: nat)
    requires Short(mem, n, d, a, p) && a <= b && p <= q
    ensures Short(mem, n, d, b, q)
  {
    hide Tables;
    SubsetSize(Tables(mem, d) + a, Tables(mem, d) + b);
  }

  /** Too few free pages: fewer than the tables that are missing and the other pages. */
  lemma ShortIs(mem: Memory, n: nat, d: nat, more: set<nat>, pages: nat)
    ensures Short(mem, n, d, more, pages) <==> n < pages + |more - Tables(mem, d)|
  {
    hide Tables;
    var t := Tables(mem, d);
    assert t + more == t + (more - t);
    assert t !! more - t;
  }

  lemma NothingPaid(mem: Memory, n: nat, d: nat)
    ensures Paid(mem, n, mem, n, d, {}, 0)
  {
    hide Tables;
    assert Tables(mem, d) + {} == Tables(mem, d);
  }

  lemma OnePagePaid(mem: Memory, n: nat, d: nat)
    requires n > 0
    ensures Paid(mem, n, mem, n - 1, d, {}, 1)
  {
    hide Tables;
    assert Tables(mem, d) + {} == Tables(mem, d);
  }

  /** Tables are what the directory page says, whatever other pages hold. */
  lemma SameTables(mem: Memory, mem': Memory, d: nat)
    requires d in mem && d in mem' && mem'[d] == mem[d]
    ensures Tables(mem', d) == Tables(mem, d)
  {
  }

  lemma PaidElsewhere(m0: Memory, n0: nat, m1: Memory, n1: nat, m2: Memory, d: nat, a: set<nat>, p: nat)
    requires Paid(m0, n0, m1, n1, d, a, p) && d in m1 && d in m2 && m2[d] == m1[d]
    ensures Paid(m0, n0, m2, n1, d, a, p)
  {
    SameTables(m1, m2, d);
  }

  lemma PaidFromElsewhere(m0: Memory, n0: nat, m1: Memory, n1: nat, m2: Memory, n2: nat, d: nat, a: set<nat>, p: nat)
    requires Paid(m1, n1, m2, n2, d, a, p) && d in m0 && d in m1 && m1[d] == m0[d] && n0 == n1
    ensures Paid(m0, n0, m2, n2, d, a, p)
  {
    SameTables(m0, m1, d);
  }

  lemma TableAdded(mem: Memory, d: nat, i: nat, t: nat, page: Page, w: Word, n: nat)
    requires d in mem && |mem[d]| == ENTRIES && i < ENTRIES && !mem[d][i].present && t != d && w.present && n > 0
    ensures Paid(mem, n, mem[t := page][d := mem[d][i := w]], n - 1, d, {i}, 0)
  {
    var m := mem[t := page][d := mem[d][i := w]];
    assert Tables(m, d) == Tables(mem, d) + {i};
    assert i !in Tables(mem, d);
  }

  lemma TableThere(mem: Memory, d: nat, i: nat, n: nat)
    requires d in mem && |mem[d]| == ENTRIES && i < ENTRIES && mem[d][i].present
    ensures Paid(mem, n, mem, n, d, {i}, 0)
  {
    assert Tables(mem, d) + {i} == Tables(mem, d);
  }

  lemma TableLacking(mem: Memory, d: nat, i: nat)
    requires d in mem && |mem[d]| == ENTRIES && i < ENTRIES && !mem[d][i].present
    ensures Short(mem, 0, d, {i}, 0)
  {
    assert i !in Tables(mem, d);
    assert |Tables(mem, d) + {i}| == |Tables(mem, d)| + 1;
  }

  // ---------------------------------------------------------------- a child's address space

  /** What a child with `n` pages takes: its directory, 64 kernel tables, its pages, their tables. */
  function CopyCost(n: nat): (c: nat)
  {
    65 + n + (n + 1023) / 1024
  }

  lemma UserTablesCount(n: nat)
    requires n <= USERPAGES
    ensures |TablesFor(0, n) - KernelTables()| == (n + 1023) / 1024
  {
    forall i | i in TablesFor(0, n)
      ensures i !in KernelTables()
    {
      TablesForIs(0, n, i);
      KernelTablesIs(i);
    }
    hide KernelTables, Interval;
    assert TablesFor(0, n) - KernelTables() == TablesFor(0, n);
  }

  lemma ChildShort(mem: Memory, free: nat, d: nat, n: nat)
    requires Tables(mem, d) == KernelTables() && n <= USERPAGES
    ensures Short(mem, free, d, TablesFor(0, n), n) <==> free + 65 < CopyCost(n)
  {
    hide Tables, KernelTables, TablesFor;
    ShortIs(mem, free, d, TablesFor(0, n), n);
    UserTablesCount(n);
  }
}

/** The user-level allocator: a circular, address-ordered free list of header-sized units, with
    coalescing on free and a tail split on allocation. Addresses count units of one header. */
module Umalloc {
  import opened Sums

  const HEADER: nat := 8
  const MINGROW: nat := 4096

  /** A block: its header's address and its length in units, header included. */
  datatype Blk = Blk(addr: nat, size: nat)

  // ---------------------------------------------------------------- request sizes

  /** The units for a request, in the 32-bit arithmetic of the code. */
  function Units(nbytes: nat): (n: nat)
    ensures n >= 1
  {
    (nbytes + HEADER - 1) % 0x1_0000_0000 / HEADER + 1
  }

  /** A block is large enough exactly when the addition does not wrap around. */
  lemma PayloadExact(nbytes: nat)
    requires nbytes < 0x1_0000_0000
    ensures (Units(nbytes) - 1) * HEADER >= nbytes <==> nbytes <= 0x1_0000_0000 - HEADER
  {
    if nbytes <= 0x1_0000_0000 - HEADER {
      assert (nbytes + HEADER - 1) % 0x1_0000_0000 == nbytes + HEADER - 1;
    } else {
      assert (nbytes + HEADER - 1) % 0x1_0000_0000 == nbytes + HEADER - 1 - 0x1_0000_0000;
    }
  }

  /** A 32-bit word read as a signed integer, as `sbrk` reads its argument. */
  function AsInt(w: nat): (i: int)
  {
    if w < 0x8000_0000 then w else w - 0x1_0000_0000
  }

  /** What `sbrk` is asked for when `morecore` wants `nu` units. */
  function Ask(nu: nat): (bytes: int)
  {
    AsInt(nu * HEADER % 0x1_0000_0000)
  }

  /** The bytes `morecore` asks for arrive at `sbrk` as a growth of that many bytes exactly when the
      request is below 2^28 units. From there on nothing or less than nothing is asked for, and
      nothing exactly for 2^29 units, the largest a request comes to. */
  lemma GrowthExact(nu: nat)
    requires 1 <= nu <= 0x2000_0000
    ensures Ask(nu) == nu * HEADER <==> nu < 0x1000_0000
    ensures Ask(nu) <= 0 <==> nu >= 0x1000_0000
    ensures Ask(nu) == 0 <==> nu == 0x2000_0000
  {
    if nu == 0x2000_0000 {
      assert nu * HEADER % 0x1_0000_0000 == 0;
    } else {
      assert nu * HEADER % 0x1_0000_0000 == nu * HEADER;
    }
  }

  lemma UnitsBound(nbytes: nat)
    requires nbytes < 0x1_0000_0000
    ensures 1 <= Units(nbytes) <= 0x2000_0000
  {
  }

  /** Four bytes short of the whole address space: one unit, all header. */
  lemma HugeRequestGetsNothing()
    ensures Units(0xFFFF_FFFC) == 1 && (Units(0xFFFF_FFFC) - 1) * HEADER == 0
  {
    assert (0xFFFF_FFFC + HEADER - 1) % 0x1_0000_0000 == 3;
  }

  /** Two gigabytes: `sbrk` is asked to take two gigabytes less eight bytes away. */
  lemma TwoGigabytesShrink()
    ensures Units(0x8000_0000) == 0x1000_0001 && Ask(Grow(Units(0x8000_0000))) == -0x7FFF_FFF8
  {
    assert (0x8000_0000 + HEADER - 1) % 0x1_0000_0000 == 0x8000_0007;
    assert 0x1000_0001 * HEADER % 0x1_0000_0000 == 0x8000_0008;
  }

  /** The memory a process has after `sbrk` was asked for `Ask(nu)` bytes at break `brk`: a growth
      adds the units, a shrinking takes what lies above the new break, and one past address 0
      wraps around and does nothing. */
  function AfterSbrk(owned: set<nat>, brk: nat, nu: nat): (r: set<nat>)
  {
    var ask := Ask(nu);
    if ask > 0 then owned + UnitsAt(brk, ask / HEADER)
    else if brk * HEADER + ask >= 0 then set u | u in owned && u < (brk * HEADER + ask) / HEADER
    else owned
  }

  lemma SbrkExact(owned: set<nat>, brk: nat, nu: nat)
    requires 1 <= nu <= 0x2000_0000 && forall u :: u in owned ==> u < brk
    ensures if nu < 0x1000_0000 then AfterSbrk(owned, brk, nu) == owned + UnitsAt(brk, nu)
            else AfterSbrk(owned, brk, nu) <= owned
    ensures AfterSbrk(owned, brk, nu) == owned + UnitsAt(brk, nu) <==> nu < 0x1000_0000
  {
    GrowthExact(nu);
    if nu >= 0x1000_0000 {
      assert brk in owned + UnitsAt(brk, nu) && brk !in owned;
    }
  }

  // ---------------------------------------------------------------- the free list as a sequence

  ghost predicate Apart(a: nat, n: nat, b: nat, m: nat)
  {
    a + n <= b || b + m <= a
  }

  function End(b: Blk): (e: nat)
  {
    b.addr + b.size
  }

  /** Address order; blocks `i` and `i + 1` may touch only for `lo <= i < hi`. */
  ghost predicate OrderedBut(base: nat, fl: seq<Blk>, lo: int, hi: int)
  {
    && (forall i :: 0 <= i < |fl| ==> fl[i].addr > base && fl[i].size >= 1)
    && (forall i, j :: 0 <= i < j < |fl| ==> fl[i].addr + fl[i].size <= fl[j].addr)
    && (forall i, j :: 0 <= i < |fl| && 0 <= j < |fl| && j == i + 1 && !(lo <= i < hi) ==>
          fl[i].addr + fl[i].size != fl[j].addr)
  }

  /** Address order with no two adjoining free blocks. */
  ghost predicate Ordered(base: nat, fl: seq<Blk>)
  {
    OrderedBut(base, fl, 0, 0)
  }

  ghost predicate InFree(fl: seq<Blk>, u: nat)
  {
    exists i :: 0 <= i < |fl| && fl[i].addr <= u < fl[i].addr + fl[i].size
  }

  ghost predicate InLive(live: map<nat, nat>, u: nat)
  {
    exists a :: a in live && a <= u < a + live[a]
  }

  /** Free and live blocks are disjoint and together are exactly the memory obtained. */
  ghost predicate Sound(base: nat, fl: seq<Blk>, live: map<nat, nat>, arena: set<nat>)
  {
    && Ordered(base, fl)
    && (forall a :: a in live ==> a > base && live[a] >= 1)
    && (forall a, b :: a in live && b in live && a != b ==> Apart(a, live[a], b, live[b]))
    && (forall u: nat :: !(InFree(fl, u) && InLive(live, u)))
    && (forall u: nat :: u in arena <==> InFree(fl, u) || InLive(live, u))
  }

  /** How many free blocks lie below address `a`. */
  function Below(fl: seq<Blk>, a: nat): (k: nat)
    ensures k <= |fl|
  {
    if fl == [] || fl[|fl| - 1].addr < a then |fl| else Below(fl[..|fl| - 1], a)
  }

  lemma {:induction false} BelowSplits(base: nat, fl: seq<Blk>, a: nat)
    requires Ordered(base, fl)
    ensures var k := Below(fl, a);
            && (forall i :: 0 <= i < k ==> fl[i].addr < a) && (forall i :: k <= i < |fl| ==> fl[i].addr >= a)
  {
    if fl != [] && fl[|fl| - 1].addr >= a {
      BelowSplits(base, fl[..|fl| - 1], a);
    }
  }

  predicate Touch(fl: seq<Blk>, i: nat)
  {
    i + 1 < |fl| && fl[i].addr + fl[i].size == fl[i + 1].addr
  }

  /** Blocks `i` and `i + 1` made one, if they touch. */
  function Join(fl: seq<Blk>, i: nat): (r: seq<Blk>)
  {
    if Touch(fl, i) then fl[..i] + [Blk(fl[i].addr, fl[i].size + fl[i + 1].size)] + fl[i + 2..] else fl
  }

  function Place(fl: seq<Blk>, b: Blk, k: nat): (r: seq<Blk>)
    requires k <= |fl|
  {
    fl[..k] + [b] + fl[k..]
  }

  /** Putting a block back at position `k`: joined with the block above it, then with the one below. */
  function Insert(fl: seq<Blk>, b: Blk, k: nat): (r: seq<Blk>)
    requires k <= |fl|
  {
    var p := Join(Place(fl, b, k), k);
    if k > 0 then Join(p, k - 1) else p
  }

  /** Cutting `n` units from the end of free block `i`, or taking all of it. */
  function Take(fl: seq<Blk>, i: nat, n: nat): (r: seq<Blk>)
    requires i < |fl| && n <= fl[i].size
  {
    if fl[i].size == n then fl[..i] + fl[i + 1..] else fl[i := Blk(fl[i].addr, fl[i].size - n)]
  }

  function Taken(fl: seq<Blk>, i: nat, n: nat): (a: nat)
    requires i < |fl| && n <= fl[i].size
  {
    fl[i].addr + (fl[i].size - n)
  }

  // ---------------------------------------------------------------- both operations stay sound

  /** A block in a gap of the free list, at position `k`. */
  ghost predicate Fits(base: nat, fl: seq<Blk>, b: Blk, k: nat)
  {
    && Ordered(base, fl) && k <= |fl| && b.addr > base && b.size >= 1
    && (forall i :: 0 <= i < k ==> fl[i].addr + fl[i].size <= b.addr)
    && (forall i :: k <= i < |fl| ==> b.addr + b.size <= fl[i].addr)
  }

  lemma FitsAt(base: nat, fl: seq<Blk>, b: Blk)
    requires Ordered(base, fl) && b.addr > base && b.size >= 1
    requires forall i :: 0 <= i < |fl| ==> Apart(fl[i].addr, fl[i].size, b.addr, b.size)
    ensures Fits(base, fl, b, Below(fl, b.addr))
  {
    BelowSplits(base, fl, b.addr);
  }

  /** Order carries over to a list each of whose blocks runs from where one block of `fl` starts,
      `first(j)`, to where another ends, `last(j)`. */
  ghost predicate Spans(fl: seq<Blk>, r: seq<Blk>, j: nat, first: nat, last: nat)
  {
    j < |r| && first <= last < |fl| && r[j].addr == fl[first].addr && End(r[j]) == End(fl[last])
  }

  lemma SpanOrder(base: nat, fl: seq<Blk>, r: seq<Blk>, lo: int, hi: int, j: nat, l: nat, f1: nat, e1: nat, f2: nat, e2: nat)
    requires OrderedBut(base, fl, lo, hi) && Spans(fl, r, j, f1, e1) && Spans(fl, r, l, f2, e2) && e1 < f2
    ensures r[j].addr > base && r[j].size >= 1
    ensures r[j].addr + r[j].size <= r[l].addr
    ensures f2 > e1 + 1 || !(lo <= e1 < hi) ==> r[j].addr + r[j].size != r[l].addr
  {
    assert fl[f1].addr + fl[f1].size <= End(fl[e1]);
    assert End(fl[e1]) <= fl[f2].addr;
    if f2 > e1 + 1 {
      assert End(fl[e1]) <= fl[e1 + 1].addr && End(fl[e1 + 1]) <= fl[f2].addr;
    }
  }

  lemma SpanAlone(base: nat, fl: seq<Blk>, r: seq<Blk>, lo: int, hi: int, j: nat, f: nat, e: nat)
    requires OrderedBut(base, fl, lo, hi) && Spans(fl, r, j, f, e)
    ensures r[j].addr > base && r[j].size >= 1
  {
    assert f < e ==> fl[f].addr + fl[f].size <= fl[e].addr;
  }

  lemma PlaceAt(fl: seq<Blk>, b: Blk, k: nat, i: nat)
    requires k <= |fl| && i <= |fl|
    ensures |Place(fl, b, k)| == |fl| + 1
    ensures Place(fl, b, k)[i] == if i < k then fl[i] else if i == k then b else fl[i - 1]
  {
  }

  lemma PlaceOrdered(base: nat, fl: seq<Blk>, b: Blk, k: nat)
    requires Fits(base, fl, b, k)
    ensures OrderedBut(base, Place(fl, b, k), k - 1, k + 1)
  {
    var r := Place(fl, b, k);
    PlaceAt(fl, b, k, 0);
    hide Place;
    forall i, j | 0 <= i < j < |r|
      ensures r[i].addr + r[i].size <= r[j].addr
      ensures r[i].addr > base && r[i].size >= 1 && r[j].addr > base && r[j].size >= 1
      ensures j == i + 1 && !(k - 1 <= i < k + 1) ==> r[i].addr + r[i].size != r[j].addr
    {
      PlaceAt(fl, b, k, i);
      PlaceAt(fl, b, k, j);
    }
  }

  lemma JoinAt(fl: seq<Blk>, i: nat)
    requires Touch(fl, i)
    ensures |Join(fl, i)| == |fl| - 1
    ensures forall j :: 0 <= j < i ==> Join(fl, i)[j] == fl[j]
    ensures Join(fl, i)[i] == Blk(fl[i].addr, fl[i].size + fl[i + 1].size)
    ensures forall j, l :: i < j < |fl| - 1 && l == j + 1 ==> Join(fl, i)[j] == fl[l]
  {
  }

  function First(i: nat, j: nat): (f: nat)
  {
    if j <= i then j else j + 1
  }

  function Last(i: nat, j: nat): (e: nat)
  {
    if j < i then j else j + 1
  }

  lemma JoinSpan(fl: seq<Blk>, i: nat, j: nat)
    requires Touch(fl, i) && j + 1 < |fl|
    ensures Spans(fl, Join(fl, i), j, First(i, j), Last(i, j))
  {
    JoinAt(fl, i);
  }

  lemma JoinOrdered(base: nat, fl: seq<Blk>, lo: int, i: nat)
    requires lo <= i && OrderedBut(base, fl, lo, i + 1)
    ensures OrderedBut(base, Join(fl, i), lo, i)
  {
    if Touch(fl, i) {
      var r := Join(fl, i);
      assert |r| == |fl| - 1;
      hide Join, OrderedBut, Spans;
      forall j | 0 <= j < |r|
        ensures r[j].addr > base && r[j].size >= 1
      {
        JoinSpan(fl, i, j);
        SpanAlone(base, fl, r, lo, i + 1, j, First(i, j), Last(i, j));
      }
      forall j, l | 0 <= j < l < |r|
        ensures r[j].addr + r[j].size <= r[l].addr
        ensures l == j + 1 && !(lo <= j < i) ==> r[j].addr + r[j].size != r[l].addr
      {
        JoinedApart(base, fl, lo, i, j, l);
      }
      OrderedFrom(base, r, lo, i);
    } else {
      NotTouching(base, fl, lo, i);
    }
  }

  lemma NotTouching(base: nat, fl: seq<Blk>, lo: int, i: nat)
    requires OrderedBut(base, fl, lo, i + 1) && !Touch(fl, i)
    ensures OrderedBut(base, fl, lo, i)
  {
  }

  lemma OrderedFrom(base: nat, r: seq<Blk>, lo: int, hi: int)
    requires forall j :: 0 <= j < |r| ==> r[j].addr > base && r[j].size >= 1
    requires forall j, l :: 0 <= j < l < |r| ==> r[j].addr + r[j].size <= r[l].addr
    requires forall j, l :: 0 <= j < l < |r| && l == j + 1 && !(lo <= j < hi) ==> r[j].addr + r[j].size != r[l].addr
    ensures OrderedBut(base, r, lo, hi)
  {
  }

  lemma JoinedApart(base: nat, fl: seq<Blk>, lo: int, i: nat, j: nat, l: nat)
    requires lo <= i && OrderedBut(base, fl, lo, i + 1) && Touch(fl, i) && j < l && l + 1 < |fl|
    ensures |Join(fl, i)| == |fl| - 1
    ensures var r := Join(fl, i);
            && r[j].addr + r[j].size <= r[l].addr
            && (l == j + 1 && !(lo <= j < i) ==> r[j].addr + r[j].size != r[l].addr)
  {
    JoinAt(fl, i);
    JoinSpan(fl, i, j);
    JoinSpan(fl, i, l);
    hide Join, OrderedBut, Spans;
    SpanOrder(base, fl, Join(fl, i), lo, i + 1, j, l, First(i, j), Last(i, j), First(i, l), Last(i, l));
  }

  lemma InsertOrdered(base: nat, fl: seq<Blk>, b: Blk, k: nat)
    requires Fits(base, fl, b, k)
    ensures Ordered(base, Insert(fl, b, k))
  {
    hide OrderedBut, Place, Join, Fits, Ordered;
    assert k <= |fl| by { FitsIndex(base, fl, b, k); }
    PlaceOrdered(base, fl, b, k);
    var p := Place(fl, b, k);
    var q := Join(p, k);
    JoinOrdered(base, p, k - 1, k);
    if k > 0 {
      JoinOrdered(base, q, k - 1, k - 1);
      NoneExempt(base, Join(q, k - 1), k - 1, k - 1);
    } else {
      NoneExempt(base, q, k - 1, k);
    }
  }

  lemma FitsIndex(base: nat, fl: seq<Blk>, b: Blk, k: nat)
    requires Fits(base, fl, b, k)
    ensures k <= |fl|
  {
  }

  lemma NoneExempt(base: nat, fl: seq<Blk>, lo: int, hi: int)
    requires OrderedBut(base, fl, lo, hi) && (hi <= lo || hi <= 0)
    ensures Ordered(base, fl)
  {
  }

  lemma PlaceUnits(fl: seq<Blk>, b: Blk, k: nat, u: nat)
    requires k <= |fl|
    ensures InFree(Place(fl, b, k), u) <==> InFree(fl, u) || b.addr <= u < b.addr + b.size
  {
    var r := Place(fl, b, k);
    assert r[k] == b;
    if InFree(fl, u) {
      var i :| 0 <= i < |fl| && fl[i].addr <= u < fl[i].addr + fl[i].size;
      assert r[if i < k then i else i + 1] == fl[i];
    }
    if InFree(r, u) {
      var i :| 0 <= i < |r| && r[i].addr <= u < r[i].addr + r[i].size;
      if i != k {
        assert fl[if i < k then i else i - 1] == r[i];
      }
    }
  }

  lemma JoinUnits(fl: seq<Blk>, i: nat, u: nat)
    ensures InFree(Join(fl, i), u) <==> InFree(fl, u)
  {
    if Touch(fl, i) {
      JoinAt(fl, i);
      var r := Join(fl, i);
      hide Join;
      if InFree(fl, u) {
        var j :| 0 <= j < |fl| && fl[j].addr <= u < fl[j].addr + fl[j].size;
        var m := if j <= i then j else j - 1;
        assert r[m].addr <= u < r[m].addr + r[m].size;
      }
      if InFree(r, u) {
        var j :| 0 <= j < |r| && r[j].addr <= u < r[j].addr + r[j].size;
        var m := if j < i || (j == i && u < fl[i + 1].addr) then j else j + 1;
        assert fl[m].addr <= u < fl[m].addr + fl[m].size;
      }
    }
  }

  lemma InsertUnits(fl: seq<Blk>, b: Blk, k: nat, u: nat)
    requires k <= |fl|
    ensures InFree(Insert(fl, b, k), u) <==> InFree(fl, u) || b.addr <= u < b.addr + b.size
  {
    hide InFree, Place, Join;
    PlaceUnits(fl, b, k, u);
    JoinUnits(Place(fl, b, k), k, u);
    if k > 0 {
      JoinUnits(Join(Place(fl, b, k), k), k - 1, u);
    }
  }

  lemma OnePlace(base: nat, fl: seq<Blk>, i: nat, j: nat, u: nat)
    requires Ordered(base, fl) && i < |fl| && j < |fl|
    requires fl[i].addr <= u < End(fl[i]) && fl[j].addr <= u < End(fl[j])
    ensures i == j
  {
  }

  lemma TakeWholeUnits(base: nat, fl: seq<Blk>, i: nat, u: nat)
    requires Ordered(base, fl) && i < |fl|
    ensures InFree(fl, u) <==> InFree(fl[..i] + fl[i + 1..], u) || fl[i].addr <= u < End(fl[i])
    ensures !(InFree(fl[..i] + fl[i + 1..], u) && fl[i].addr <= u < End(fl[i]))
  {
    hide Ordered;
    var r := fl[..i] + fl[i + 1..];
    if InFree(fl, u) {
      var j :| 0 <= j < |fl| && fl[j].addr <= u < fl[j].addr + fl[j].size;
      if j != i {
        assert r[if j > i then j - 1 else j] == fl[j];
      }
    }
    if InFree(r, u) {
      var j :| 0 <= j < |r| && r[j].addr <= u < r[j].addr + r[j].size;
      var m := if j >= i then j + 1 else j;
      assert fl[m] == r[j];
      if fl[i].addr <= u < End(fl[i]) {
        OnePlace(base, fl, i, m, u);
      }
    }
  }

  lemma TakePartUnits(base: nat, fl: seq<Blk>, i: nat, n: nat, u: nat)
    requires Ordered(base, fl) && i < |fl| && 1 <= n < fl[i].size
    ensures InFree(fl, u) <==> InFree(Take(fl, i, n), u) || Taken(fl, i, n) <= u < End(fl[i])
    ensures !(InFree(Take(fl, i, n), u) && Taken(fl, i, n) <= u < End(fl[i]))
  {
    var r := Take(fl, i, n);
    if InFree(fl, u) {
      var j :| 0 <= j < |fl| && fl[j].addr <= u < fl[j].addr + fl[j].size;
      assert j != i ==> r[j] == fl[j];
      assert j == i && u < Taken(fl, i, n) ==> r[i].addr <= u < r[i].addr + r[i].size;
    }
    if InFree(r, u) {
      var j :| 0 <= j < |r| && r[j].addr <= u < r[j].addr + r[j].size;
      assert fl[j].addr <= u < fl[j].addr + fl[j].size;
    }
  }

  lemma TakeUnits(base: nat, fl: seq<Blk>, i: nat, n: nat, u: nat)
    requires Ordered(base, fl) && i < |fl| && 1 <= n <= fl[i].size
    ensures InFree(fl, u) <==> InFree(Take(fl, i, n), u) || Taken(fl, i, n) <= u < Taken(fl, i, n) + n
    ensures !(InFree(Take(fl, i, n), u) && Taken(fl, i, n) <= u < Taken(fl, i, n) + n)
  {
    hide InFree;
    if fl[i].size == n {
      TakeWholeUnits(base, fl, i, u);
    } else {
      TakePartUnits(base, fl, i, n, u);
    }
  }

  lemma TakeWholeOrdered(base: nat, fl: seq<Blk>, i: nat)
    requires Ordered(base, fl) && i < |fl|
    ensures Ordered(base, fl[..i] + fl[i + 1..])
  {
    var r := fl[..i] + fl[i + 1..];
    forall j | 0 <= j < |r|
      ensures r[j].addr > base && r[j].size >= 1
    {
      SpanAlone(base, fl, r, 0, 0, j, if j < i then j else j + 1, if j < i then j else j + 1);
    }
    forall j, l | 0 <= j < l < |r|
      ensures r[j].addr + r[j].size <= r[l].addr
      ensures l == j + 1 ==> r[j].addr + r[j].size != r[l].addr
    {
      SpanOrder(base, fl, r, 0, 0, j, l, if j < i then j else j + 1, if j < i then j else j + 1,
                if l < i then l else l + 1, if l < i then l else l + 1);
    }
  }

  lemma TakeOrdered(base: nat, fl: seq<Blk>, i: nat, n: nat)
    requires Ordered(base, fl) && i < |fl| && 1 <= n <= fl[i].size
    ensures Ordered(base, Take(fl, i, n))
  {
    if fl[i].size == n {
      TakeWholeOrdered(base, fl, i);
    } else {
      var r := Take(fl, i, n);
      assert forall j :: 0 <= j < |fl| && j != i ==> r[j] == fl[j];
    }
  }

  lemma ApartFromFree(base: nat, fl: seq<Blk>, b: Blk)
    requires Ordered(base, fl) && b.size >= 1
    requires forall u: nat :: b.addr <= u < End(b) ==> !InFree(fl, u)
    ensures forall i :: 0 <= i < |fl| ==> Apart(fl[i].addr, fl[i].size, b.addr, b.size)
  {
    forall i | 0 <= i < |fl|
      ensures Apart(fl[i].addr, fl[i].size, b.addr, b.size)
    {
      var u := if fl[i].addr < b.addr then b.addr else fl[i].addr;
      if fl[i].addr <= u < End(fl[i]) {
        assert InFree(fl, u);
      }
    }
  }

  /** Inserting a block that no free block meets. */
  lemma InsertSound(base: nat, fl: seq<Blk>, b: Blk)
    requires Ordered(base, fl) && b.addr > base && b.size >= 1
    requires forall u: nat :: b.addr <= u < End(b) ==> !InFree(fl, u)
    ensures Fits(base, fl, b, Below(fl, b.addr))
    ensures Ordered(base, Insert(fl, b, Below(fl, b.addr)))
    ensures forall u: nat :: InFree(Insert(fl, b, Below(fl, b.addr)), u) <==> InFree(fl, u) || b.addr <= u < End(b)
  {
    ApartFromFree(base, fl, b);
    FitsAt(base, fl, b);
    var k := Below(fl, b.addr);
    hide Fits, InFree, Insert, Ordered;
    InsertOrdered(base, fl, b, k);
    forall u: nat
      ensures InFree(Insert(fl, b, k), u) <==> InFree(fl, u) || b.addr <= u < End(b)
    {
      InsertUnits(fl, b, k, u);
    }
  }

  lemma LiveWithout(live: map<nat, nat>, a: nat, u: nat)
    requires a in live
    requires forall b :: b in live && b != a ==> Apart(b, live[b], a, live[a])
    ensures InLive(live, u) <==> InLive(live - {a}, u) || a <= u < a + live[a]
    ensures !(InLive(live - {a}, u) && a <= u < a + live[a])
  {
    var rest := live - {a};
    if InLive(live, u) {
      var b :| b in live && b <= u < b + live[b];
      assert b != a ==> b in rest && rest[b] == live[b];
    }
    if InLive(rest, u) {
      var b :| b in rest && b <= u < b + rest[b];
      assert b in live && live[b] == rest[b] && b != a;
    }
  }

  /** `free` of a live block: it joins the free list and nothing else changes hands. */
  lemma FreeSound(base: nat, fl: seq<Blk>, live: map<nat, nat>, arena: set<nat>, a: nat)
    requires Sound(base, fl, live, arena) && a in live
    ensures Fits(base, fl, Blk(a, live[a]), Below(fl, a))
    ensures Sound(base, Insert(fl, Blk(a, live[a]), Below(fl, a)), live - {a}, arena)
  {
    forall u: nat
      ensures InLive(live, u) <==> InLive(live - {a}, u) || a <= u < a + live[a]
      ensures !(InLive(live - {a}, u) && a <= u < a + live[a])
    {
      LiveWithout(live, a, u);
    }
    hide InLive, InFree, Insert;
    InsertSound(base, fl, Blk(a, live[a]));
  }

  /** New memory from `sbrk` joins the free list. */
  lemma GrowSound(base: nat, fl: seq<Blk>, live: map<nat, nat>, arena: set<nat>, b: Blk, added: set<nat>)
    requires Sound(base, fl, live, arena) && b.addr > base && b.size >= 1
    requires forall u: nat :: u in added <==> b.addr <= u < End(b)
    requires added !! arena
    ensures Fits(base, fl, b, Below(fl, b.addr))
    ensures Sound(base, Insert(fl, b, Below(fl, b.addr)), live, arena + added)
  {
    hide InLive, InFree, Insert;
    InsertSound(base, fl, b);
  }

  lemma LiveWith(live: map<nat, nat>, a: nat, n: nat, u: nat)
    requires a !in live
    ensures InLive(live[a := n], u) <==> InLive(live, u) || a <= u < a + n
  {
    var more := live[a := n];
    if InLive(live, u) {
      var b :| b in live && b <= u < b + live[b];
      assert b in more && more[b] == live[b];
    }
    if InLive(more, u) {
      var b :| b in more && b <= u < b + more[b];
      assert b != a ==> b in live && live[b] == more[b];
    }
    assert a in more && more[a] == n;
  }

  /** `malloc` of `n` units from free block `i`: they become a live block. */
  lemma TakeSound(base: nat, fl: seq<Blk>, live: map<nat, nat>, arena: set<nat>, i: nat, n: nat)
    requires Sound(base, fl, live, arena) && i < |fl| && 1 <= n <= fl[i].size
    ensures Taken(fl, i, n) !in live
    ensures Sound(base, Take(fl, i, n), live[Taken(fl, i, n) := n], arena)
  {
    var a := Taken(fl, i, n);
    assert fl[i].addr <= a < fl[i].addr + fl[i].size;
    assert InFree(fl, a);
    assert !InLive(live, a);
    TakeOrdered(base, fl, i, n);
    forall u: nat
      ensures InFree(fl, u) <==> InFree(Take(fl, i, n), u) || a <= u < a + n
      ensures !(InFree(Take(fl, i, n), u) && a <= u < a + n)
      ensures InLive(live[a := n], u) <==> InLive(live, u) || a <= u < a + n
    {
      TakeUnits(base, fl, i, n, u);
      LiveWith(live, a, n, u);
    }
    forall b | b in live
      ensures Apart(b, live[b], a, n)
    {
      var u := if a < b then b else a;
      assert b <= u < b + live[b] ==> InLive(live, u);
      assert a <= u < a + n ==> InFree(fl, u);
    }
    hide InLive, InFree, Take, OrderedBut;
  }

  // ---------------------------------------------------------------- the linked list in memory

  /** A header in memory: the next block of the ring and the size of this one. */
  datatype Header = Header(ptr: nat, size: nat)

  /** Node `i` of the ring: the static `base`, then the free blocks in address order. */
  function Node(base: nat, fl: seq<Blk>, i: nat): (a: nat)
    requires i <= |fl|
  {
    if i == 0 then base else fl[i - 1].addr
  }

  function SizeAt(fl: seq<Blk>, i: nat): (n: nat)
    requires i <= |fl|
  {
    if i == 0 then 0 else fl[i - 1].size
  }

  function Next(fl: seq<Blk>, i: nat): (j: nat)
    ensures i <= |fl| ==> j <= |fl|
  {
    if i == |fl| then 0 else i + 1
  }

  ghost predicate LinkedAt(base: nat, mem: map<nat, Header>, fl: seq<Blk>, i: nat)
    requires i <= |fl|
  {
    Node(base, fl, i) in mem && mem[Node(base, fl, i)] == Header(Node(base, fl, Next(fl, i)), SizeAt(fl, i))
  }

  /** The headers form one cycle through `base` and the free blocks in address order. */
  ghost predicate Linked(base: nat, mem: map<nat, Header>, fl: seq<Blk>)
  {
    forall i :: 0 <= i <= |fl| ==> LinkedAt(base, mem, fl, i)
  }

  lemma LinkedNode(base: nat, mem: map<nat, Header>, fl: seq<Blk>, i: nat)
    requires Linked(base, mem, fl) && i <= |fl|
    ensures LinkedAt(base, mem, fl, i)
  {
  }

  lemma NodeIs(base: nat, fl: seq<Blk>, i: nat)
    requires i < |fl|
    ensures Node(base, fl, i + 1) == fl[i].addr && SizeAt(fl, i + 1) == fl[i].size
  {
  }

  lemma NodesDiffer(base: nat, fl: seq<Blk>, lo: int, hi: int, i: nat, j: nat)
    requires OrderedBut(base, fl, lo, hi) && i < j <= |fl|
    ensures Node(base, fl, i) < Node(base, fl, j)
  {
  }

  /** The header updates of `free` after it has found the node `p` below block `bp`. */
  function FreeMem(mem: map<nat, Header>, bp: nat, p: nat): (r: map<nat, Header>)
    requires bp in mem && p in mem && mem[p].ptr in mem
  {
    var n := mem[p].ptr;
    var b := if bp + mem[bp].size == n then Header(mem[n].ptr, mem[bp].size + mem[n].size) else Header(n, mem[bp].size);
    var m := mem[bp := b];
    if p + m[p].size == bp then m[p := Header(b.ptr, m[p].size + b.size)] else m[p := Header(bp, m[p].size)]
  }

  function PlaceMem(mem: map<nat, Header>, bp: nat, p: nat): (r: map<nat, Header>)
    requires bp in mem && p in mem
  {
    mem[bp := Header(mem[p].ptr, mem[bp].size)][p := Header(bp, mem[p].size)]
  }

  function JoinMem(mem: map<nat, Header>, x: nat): (r: map<nat, Header>)
    requires x in mem && mem[x].ptr in mem
  {
    mem[x := Header(mem[mem[x].ptr].ptr, mem[x].size + mem[mem[x].ptr].size)]
  }

  lemma PlaceNode(base: nat, fl: seq<Blk>, b: Blk, k: nat, i: nat)
    requires k <= |fl| && i <= |fl| + 1
    ensures |Place(fl, b, k)| == |fl| + 1
    ensures Node(base, Place(fl, b, k), i)
            == if i <= k then Node(base, fl, i) else if i == k + 1 then b.addr else Node(base, fl, i - 1)
    ensures SizeAt(Place(fl, b, k), i)
            == if i <= k then SizeAt(fl, i) else if i == k + 1 then b.size else SizeAt(fl, i - 1)
  {
  }

  lemma PlaceLinkedAt(base: nat, mem: map<nat, Header>, fl: seq<Blk>, b: Blk, k: nat, i: nat)
    requires Linked(base, mem, fl) && Fits(base, fl, b, k) && i <= |fl| + 1
    requires b.addr in mem && mem[b.addr].size == b.size && k <= |fl|
    ensures Node(base, fl, k) in mem && |Place(fl, b, k)| == |fl| + 1
    ensures LinkedAt(base, PlaceMem(mem, b.addr, Node(base, fl, k)), Place(fl, b, k), i)
  {
    hide OrderedBut, Fits, Place, Node, SizeAt;
    var r := Place(fl, b, k);
    assert LinkedAt(base, mem, fl, k) && LinkedAt(base, mem, fl, if i <= k then i else i - 1);
    PlaceOrdered(base, fl, b, k);
    PlaceNode(base, fl, b, k, i);
    PlaceNode(base, fl, b, k, if i == |fl| + 1 then 0 else i + 1);
    PlaceNode(base, fl, b, k, k);
    PlaceNode(base, fl, b, k, k + 1);
    NodesDiffer(base, r, k - 1, k + 1, k, k + 1);
    if i < k {
      NodesDiffer(base, r, k - 1, k + 1, i, k);
    } else if i > k + 1 {
      NodesDiffer(base, r, k - 1, k + 1, k + 1, i);
    }
  }

  lemma PlaceLinked(base: nat, mem: map<nat, Header>, fl: seq<Blk>, b: Blk, k: nat)
    requires Linked(base, mem, fl) && Fits(base, fl, b, k)
    requires b.addr in mem && mem[b.addr].size == b.size
    ensures Node(base, fl, k) in mem && Linked(base, PlaceMem(mem, b.addr, Node(base, fl, k)), Place(fl, b, k))
  {
    assert LinkedAt(base, mem, fl, k);
    hide Fits;
    forall i | 0 <= i <= |Place(fl, b, k)|
      ensures LinkedAt(base, PlaceMem(mem, b.addr, Node(base, fl, k)), Place(fl, b, k), i)
    {
      PlaceNode(base, fl, b, k, 0);
      PlaceLinkedAt(base, mem, fl, b, k, i);
    }
  }

  lemma JoinNode(base: nat, fl: seq<Blk>, i: nat, j: nat)
    requires Touch(fl, i) && j < |fl|
    ensures |Join(fl, i)| == |fl| - 1
    ensures Node(base, Join(fl, i), j) == Node(base, fl, if j <= i + 1 then j else j + 1)
    ensures SizeAt(Join(fl, i), j)
            == if j == i + 1 then fl[i].size + fl[i + 1].size else SizeAt(fl, if j <= i then j else j + 1)
  {
    JoinAt(fl, i);
  }

  lemma JoinLinkedAt(base: nat, mem: map<nat, Header>, fl: seq<Blk>, lo: int, hi: int, i: nat, j: nat)
    requires Linked(base, mem, fl) && OrderedBut(base, fl, lo, hi) && Touch(fl, i) && j < |fl|
    ensures |Join(fl, i)| == |fl| - 1
    ensures fl[i].addr in mem && mem[fl[i].addr].ptr == fl[i + 1].addr && fl[i + 1].addr in mem
    ensures LinkedAt(base, JoinMem(mem, fl[i].addr), Join(fl, i), j)
  {
    hide Join, OrderedBut, Linked, Node, SizeAt;
    var r, l := Join(fl, i), if j <= i + 1 then j else j + 1;
    LinkedNode(base, mem, fl, i + 1);
    LinkedNode(base, mem, fl, i + 2);
    LinkedNode(base, mem, fl, l);
    NodeIs(base, fl, i);
    NodeIs(base, fl, i + 1);
    JoinNode(base, fl, i, j);
    JoinNode(base, fl, i, Next(r, j));
    if j < i + 1 { NodesDiffer(base, fl, lo, hi, l, i + 1); }
    if j > i + 1 { NodesDiffer(base, fl, lo, hi, i + 1, l); }
  }

  lemma JoinLinked(base: nat, mem: map<nat, Header>, fl: seq<Blk>, lo: int, hi: int, i: nat)
    requires Linked(base, mem, fl) && OrderedBut(base, fl, lo, hi) && Touch(fl, i)
    ensures fl[i].addr in mem && mem[fl[i].addr].ptr == fl[i + 1].addr && fl[i + 1].addr in mem
    ensures Linked(base, JoinMem(mem, fl[i].addr), Join(fl, i))
  {
    JoinLinkedAt(base, mem, fl, lo, hi, i, 0);
    hide OrderedBut, Join, LinkedAt;
    forall j | 0 <= j <= |Join(fl, i)|
      ensures LinkedAt(base, JoinMem(mem, fl[i].addr), Join(fl, i), j)
    {
      JoinLinkedAt(base, mem, fl, lo, hi, i, j);
    }
  }

  /** The header of block `b` once it is placed above node `p`. */
  lemma PlacedHeaders(base: nat, mem: map<nat, Header>, fl: seq<Blk>, b: Blk, k: nat)
    requires Linked(base, mem, fl) && Fits(base, fl, b, k)
    requires b.addr in mem && mem[b.addr].size == b.size
    ensures var p, r := Node(base, fl, k), Place(fl, b, k);
            && p in mem && mem[p] == Header(Node(base, fl, Next(fl, k)), SizeAt(fl, k)) && mem[p].ptr in mem
            && p < b.addr && |r| == |fl| + 1 && r[k] == b && (k > 0 ==> r[k - 1] == fl[k - 1])
            && (Touch(r, k) <==> b.addr + b.size == mem[p].ptr)
            && (k > 0 && Touch(r, k - 1) <==> p + mem[p].size == b.addr)
  {
    assert LinkedAt(base, mem, fl, k) && LinkedAt(base, mem, fl, Next(fl, k));
    hide Linked;
    var r := Place(fl, b, k);
    assert r[k] == b && (k > 0 ==> r[k - 1] == fl[k - 1]) && (k < |fl| ==> r[k + 1] == fl[k]);
  }

  /** The two header updates of `free` are a placing and up to two joins. */
  lemma FreeMemSteps(mem: map<nat, Header>, bp: nat, p: nat)
    requires bp in mem && p in mem && mem[p].ptr in mem && p < bp && mem[bp].size >= 1
    ensures var m, n := PlaceMem(mem, bp, p), mem[p].ptr;
            && m[bp].ptr == n && n in m && m[p].ptr == bp
            && var m2 := if bp + mem[bp].size == n then JoinMem(m, bp) else m;
               m2[p].ptr == bp && bp in m2 && FreeMem(mem, bp, p) == if p + mem[p].size == bp then JoinMem(m2, p) else m2
  {
  }

  lemma JoinIfTouching(base: nat, mem: map<nat, Header>, fl: seq<Blk>, lo: int, i: nat)
    requires Linked(base, mem, fl) && OrderedBut(base, fl, lo, i + 1) && lo <= i < |fl|
    requires fl[i].addr in mem && mem[fl[i].addr].ptr in mem
    ensures Linked(base, if Touch(fl, i) then JoinMem(mem, fl[i].addr) else mem, Join(fl, i))
    ensures OrderedBut(base, Join(fl, i), lo, i)
  {
    hide Linked, OrderedBut;
    JoinOrdered(base, fl, lo, i);
    if Touch(fl, i) {
      JoinLinked(base, mem, fl, lo, i + 1, i);
    }
  }

  /** The two header updates of `free` turn the ring of `fl` into the ring of `Insert`. */
  lemma FreeLinked(base: nat, mem: map<nat, Header>, fl: seq<Blk>, b: Blk, k: nat)
    requires Linked(base, mem, fl) && Fits(base, fl, b, k)
    requires b.addr in mem && mem[b.addr].size == b.size
    ensures k <= |fl|
    ensures var p := Node(base, fl, k);
            && p in mem && mem[p].ptr in mem
            && Linked(base, FreeMem(mem, b.addr, p), Insert(fl, b, k))
  {
    PlacedHeaders(base, mem, fl, b, k);
    PlaceLinked(base, mem, fl, b, k);
    PlaceOrdered(base, fl, b, k);
    var p, r := Node(base, fl, k), Place(fl, b, k);
    assert k > 0 ==> fl[k - 1].addr == p;
    assert b.size >= 1;
    FreeMemSteps(mem, b.addr, p);
    var m := PlaceMem(mem, b.addr, p);
    var m2, q := if Touch(r, k) then JoinMem(m, b.addr) else m, Join(r, k);
    hide Linked, OrderedBut, Place, Fits, Node, SizeAt, Next, PlaceMem, JoinMem, FreeMem;
    JoinIfTouching(base, m, r, k - 1, k);
    if k > 0 {
      JoinKeepsLeft(r, k);
      hide Join, Touch;
      JoinIfTouching(base, m2, q, k - 1, k - 1);
    }
  }

  lemma JoinKeepsLeft(fl: seq<Blk>, k: nat)
    requires 0 < k < |fl|
    ensures k - 1 < |Join(fl, k)| && Join(fl, k)[k - 1] == fl[k - 1]
    ensures Touch(Join(fl, k), k - 1) <==> Touch(fl, k - 1)
  {
    if Touch(fl, k) {
      JoinAt(fl, k);
    }
  }

  /** The header updates of `malloc` when free block `i` serves `n` units. */
  function TakeMem(mem: map<nat, Header>, prev: nat, p: nat, n: nat): (r: map<nat, Header>)
    requires prev in mem && p in mem && n <= mem[p].size
  {
    if mem[p].size == n then mem[prev := Header(mem[p].ptr, mem[prev].size)]
    else
      var m := mem[p := Header(mem[p].ptr, mem[p].size - n)];
      var q := p + m[p].size;
      m[q := Header(if q in m then m[q].ptr else 0, n)]
  }

  lemma TakeWholeNode(base: nat, fl: seq<Blk>, i: nat, j: nat)
    requires i < |fl| && j < |fl|
    ensures var r := fl[..i] + fl[i + 1..];
            && Node(base, r, j) == Node(base, fl, if j <= i then j else j + 1)
            && SizeAt(r, j) == SizeAt(fl, if j <= i then j else j + 1)
  {
  }

  lemma TakeWholeLinked(base: nat, mem: map<nat, Header>, fl: seq<Blk>, i: nat)
    requires Linked(base, mem, fl) && Ordered(base, fl) && i < |fl|
    ensures var prev, p := Node(base, fl, i), fl[i].addr;
            && prev in mem && p in mem
            && Linked(base, mem[prev := Header(mem[p].ptr, mem[prev].size)], fl[..i] + fl[i + 1..])
  {
    hide OrderedBut, Linked, SizeAt;
    LinkedNode(base, mem, fl, i);
    LinkedNode(base, mem, fl, i + 1);
    var prev, r := Node(base, fl, i), fl[..i] + fl[i + 1..];
    var m := mem[prev := Header(mem[fl[i].addr].ptr, mem[prev].size)];
    forall j | 0 <= j <= |r|
      ensures LinkedAt(base, m, r, j)
    {
      TakeWholeAt(base, mem, fl, i, j);
    }
    AllLinked(base, m, r);
  }

  lemma AllLinked(base: nat, mem: map<nat, Header>, fl: seq<Blk>)
    requires forall i :: 0 <= i <= |fl| ==> LinkedAt(base, mem, fl, i)
    ensures Linked(base, mem, fl)
  {
  }

  lemma TakeWholeAt(base: nat, mem: map<nat, Header>, fl: seq<Blk>, i: nat, j: nat)
    requires Linked(base, mem, fl) && Ordered(base, fl) && i < |fl| && j < |fl|
    ensures var prev, p := Node(base, fl, i), fl[i].addr;
            && prev in mem && p in mem
            && LinkedAt(base, mem[prev := Header(mem[p].ptr, mem[prev].size)], fl[..i] + fl[i + 1..], j)
  {
    hide OrderedBut, Linked, SizeAt;
    var l := if j <= i then j else j + 1;
    LinkedNode(base, mem, fl, i);
    LinkedNode(base, mem, fl, i + 1);
    LinkedNode(base, mem, fl, l);
    TakeWholeNode(base, fl, i, j);
    TakeWholeNode(base, fl, i, if j == |fl| - 1 then 0 else j + 1);
    if j < i { NodesDiffer(base, fl, 0, 0, l, i); }
    if j > i { NodesDiffer(base, fl, 0, 0, i, l); }
  }

  lemma TakePartLinked(base: nat, mem: map<nat, Header>, fl: seq<Blk>, i: nat, n: nat, h: Header)
    requires Linked(base, mem, fl) && Ordered(base, fl) && i < |fl| && 1 <= n < fl[i].size
    ensures fl[i].addr in mem
    ensures Linked(base, mem[fl[i].addr := Header(mem[fl[i].addr].ptr, fl[i].size - n)][Taken(fl, i, n) := h], Take(fl, i, n))
  {
    var p, q, r := fl[i].addr, Taken(fl, i, n), Take(fl, i, n);
    assert LinkedAt(base, mem, fl, i + 1);
    var m := mem[p := Header(mem[p].ptr, fl[i].size - n)][q := h];
    forall j | 0 <= j <= |r|
      ensures LinkedAt(base, m, r, j)
    {
      assert LinkedAt(base, mem, fl, j);
      assert Node(base, fl, j) != q;
      if j < i + 1 { NodesDiffer(base, fl, 0, 0, j, i + 1); }
      if j > i + 1 { NodesDiffer(base, fl, 0, 0, i + 1, j); }
    }
  }

  /** After `malloc` has served a request from block `i`, the headers are the ring of `Take`. */
  lemma TakeLinked(base: nat, mem: map<nat, Header>, fl: seq<Blk>, i: nat, n: nat)
    requires Linked(base, mem, fl) && Ordered(base, fl) && i < |fl| && 1 <= n <= fl[i].size
    ensures var prev, p := Node(base, fl, i), fl[i].addr;
            && prev in mem && p in mem && mem[p].size == fl[i].size && mem[prev].ptr == p
            && Linked(base, TakeMem(mem, prev, p, n), Take(fl, i, n))
  {
    assert LinkedAt(base, mem, fl, i) && LinkedAt(base, mem, fl, i + 1);
    hide Linked, OrderedBut;
    if fl[i].size == n {
      TakeWholeLinked(base, mem, fl, i);
    } else {
      var q := Taken(fl, i, n);
      var m := mem[fl[i].addr := Header(mem[fl[i].addr].ptr, fl[i].size - n)];
      TakePartLinked(base, mem, fl, i, n, Header(if q in m then m[q].ptr else 0, n));
    }
  }

  // ---------------------------------------------------------------- live blocks and the ring

  ghost predicate LiveHeaders(mem: map<nat, Header>, live: map<nat, nat>)
  {
    forall a :: a in live ==> a in mem && mem[a].size == live[a]
  }

  lemma NodeNotLive(base: nat, fl: seq<Blk>, live: map<nat, nat>, arena: set<nat>, i: nat)
    requires Sound(base, fl, live, arena) && i <= |fl|
    ensures Node(base, fl, i) !in live
  {
    if i > 0 {
      var a := fl[i - 1].addr;
      assert fl[i - 1].addr <= a < fl[i - 1].addr + fl[i - 1].size;
      assert InFree(fl, a) && !InLive(live, a);
    }
  }

  /** Some free block is at least as large as the block just inserted. */
  lemma InsertHolds(fl: seq<Blk>, b: Blk, k: nat)
    requires k <= |fl|
    ensures exists j :: 0 <= j < |Insert(fl, b, k)| && Insert(fl, b, k)[j].size >= b.size
  {
    var r := Place(fl, b, k);
    assert r[k] == b;
    var q := Join(r, k);
    if Touch(r, k) { JoinAt(r, k); }
    assert q[k].size >= b.size;
    if k > 0 && Touch(q, k - 1) {
      JoinAt(q, k - 1);
      assert Insert(fl, b, k) == Join(q, k - 1);
      assert Insert(fl, b, k)[k - 1].size >= b.size;
    } else {
      assert Insert(fl, b, k) == q && Insert(fl, b, k)[k].size >= b.size;
    }
  }

  /** The node below the inserted block is still in the ring. */
  lemma InsertKeepsNode(base: nat, fl: seq<Blk>, b: Blk, k: nat)
    requires k <= |fl|
    ensures k <= |Insert(fl, b, k)| && Node(base, Insert(fl, b, k), k) == Node(base, fl, k)
  {
    var r := Place(fl, b, k);
    assert k > 0 ==> r[k - 1] == fl[k - 1];
    var q := Join(r, k);
    if Touch(r, k) { JoinAt(r, k); }
    if k > 0 && Touch(q, k - 1) { JoinAt(q, k - 1); }
  }

  /** The ring nodes below a block to be inserted are those up to its position. */
  lemma NodeBelow(base: nat, fl: seq<Blk>, b: Blk, k: nat, i: nat)
    requires Fits(base, fl, b, k) && i <= |fl|
    ensures Node(base, fl, i) < b.addr <==> i <= k
    ensures Node(base, fl, i) != b.addr
  {
  }

  lemma TakeKeepsNode(base: nat, fl: seq<Blk>, i: nat, n: nat)
    requires i < |fl| && n <= fl[i].size
    ensures i <= |Take(fl, i, n)| && Node(base, Take(fl, i, n), i) == Node(base, fl, i)
  {
  }

  // ---------------------------------------------------------------- the search of malloc

  /** The nodes `malloc` has looked at, going round from the one after `f` up to before `i`. */
  predicate Visited(f: nat, i: nat, j: nat)
  {
    if i > f then f < j < i else j > f || j < i
  }

  /** Every node looked at so far was too small. */
  ghost predicate TooSmall(fl: seq<Blk>, f: nat, i: nat, n: nat)
  {
    forall j :: 0 <= j <= |fl| && Visited(f, i, j) ==> SizeAt(fl, j) < n
  }

  lemma TooSmallStep(fl: seq<Blk>, f: nat, i: nat, n: nat)
    requires f <= |fl| && i <= |fl| && f != i && TooSmall(fl, f, i, n) && SizeAt(fl, i) < n
    ensures TooSmall(fl, f, Next(fl, i), n) && (Next(fl, i) > 0 ==> i == Next(fl, i) - 1)
    ensures 0 <= StepsLeft(f, Next(fl, i), |fl|) < StepsLeft(f, i, |fl|)
  {
  }

  function StepsLeft(f: nat, i: nat, last: nat): (n: int)
  {
    if i > f then last - i + f + 1 else f - i
  }

  /** The headers are a ring through `freep`. */
  ghost predicate RingOk(base: nat, mem: map<nat, Header>, freep: nat, fl: seq<Blk>)
  {
    Linked(base, mem, fl) && exists i :: 0 <= i <= |fl| && Node(base, fl, i) == freep
  }

  /** What every call keeps. Before the first allocation there is no ring yet. */
  ghost predicate HeapOk(base: nat, mem: map<nat, Header>, freep: nat, fl: seq<Blk>, live: map<nat, nat>, arena: set<nat>)
  {
    && base > 0 && Sound(base, fl, live, arena) && LiveHeaders(mem, live)
    && if freep == 0 then fl == [] && live == map[] && arena == {} else RingOk(base, mem, freep, fl)
  }

  class Heap {
    const base: nat
    var mem: map<nat, Header>
    var freep: nat
    ghost var fl: seq<Blk>
    ghost var live: map<nat, nat>
    ghost var arena: set<nat>    // what the headers speak of
    ghost var owned: set<nat>    // what `sbrk` has really given

    ghost predicate Valid()
      reads this
    {
      HeapOk(base, mem, freep, fl, live, arena)
    }

    constructor (base: nat)
      requires base > 0
      ensures Valid() && this.base == base && freep == 0 && live == map[] && arena == {} && fl == [] && owned == {}
    {
      this.base, mem, freep := base, map[], 0;
      fl, live, arena, owned := [], map[], {}, {};
    }

    /** The search loop of `free`: the ring node just below the place of block `bp`. */
    method FindPlace(bp: nat) returns (p: nat)
      requires RingOk(base, mem, freep, fl) && bp in mem
      requires Fits(base, fl, Blk(bp, mem[bp].size), Below(fl, bp))
      ensures p == Node(base, fl, Below(fl, bp))
    {
      ghost var b, k := Blk(bp, mem[bp].size), Below(fl, bp);
      ghost var i :| 0 <= i <= |fl| && Node(base, fl, i) == freep;
      p := freep;
      hide Fits, Node, Linked;
      LinkedNode(base, mem, fl, i);
      PlaceTest(base, fl, b, k, i);
      while !(bp > p && bp < mem[p].ptr)
        invariant 0 <= i <= |fl| && p == Node(base, fl, i) && LinkedAt(base, mem, fl, i)
        invariant (bp > p && bp < mem[p].ptr) || (p >= mem[p].ptr && (bp > p || bp < mem[p].ptr)) <==> i == k
        decreases if i <= k then k - i else |fl| + 1 - i + k
      {
        if p >= mem[p].ptr && (bp > p || bp < mem[p].ptr) {
          break;
        }
        p := mem[p].ptr;
        i := Next(fl, i);
        LinkedNode(base, mem, fl, i);
        PlaceTest(base, fl, b, k, i);
      }
    }

    /** The body of `free`: find the place of block `bp` in the ring, then link it in. */
    method Release(bp: nat)
      requires RingOk(base, mem, freep, fl) && bp in mem
      requires Fits(base, fl, Blk(bp, mem[bp].size), Below(fl, bp))
      modifies this`mem, this`freep
      ensures freep == Node(base, fl, Below(fl, bp)) && freep in old(mem) && old(mem)[freep].ptr in old(mem)
      ensures mem == FreeMem(old(mem), bp, freep)
    {
      hide Fits, RingOk, Node;
      var p := FindPlace(bp);
      PlaceInMemory(base, mem, freep, fl, Blk(bp, mem[bp].size), Below(fl, bp));
      var n := mem[p].ptr;
      if bp + mem[bp].size == n {
        mem := mem[bp := Header(mem[n].ptr, mem[bp].size + mem[n].size)];
      } else {
        mem := mem[bp := Header(n, mem[bp].size)];
      }
      if p + mem[p].size == bp {
        mem := mem[p := Header(mem[bp].ptr, mem[p].size + mem[bp].size)];
      } else {
        mem := mem[p := Header(bp, mem[p].size)];
      }
      freep := p;
    }

    /** `free`: the block a pointer was handed out for goes back to the free list. */
    method Free(ap: nat)
      requires Valid() && ap > 0 && ap - 1 in live
      modifies this
      ensures Valid()
      ensures live == old(live) - {ap - 1} && arena == old(arena) && owned == old(owned)
      ensures fl == Insert(old(fl), Blk(ap - 1, old(live)[ap - 1]), Below(old(fl), ap - 1))
    {
      hide HeapOk, Fits, RingOk, Node, FreeMem, Insert;
      var bp := ap - 1;
      FreeKeeps(base, mem, freep, fl, live, arena, bp);
      Release(bp);
      fl := Insert(fl, Blk(bp, live[bp]), Below(fl, bp));
      live := live - {bp};
    }

    /** `morecore`: if `sbrk` succeeds, a block at the break `brk` joins the list, whatever amount
        `sbrk` made of the request. */
    method Morecore(nu: nat, brk: nat, ok: bool) returns (p: nat)
      requires Valid() && freep != 0 && 1 <= nu
      requires brk > base && forall u :: u in arena ==> u < brk
      modifies this
      ensures Valid() && live == old(live)
      ensures p == if ok then freep else 0
      ensures !ok ==> fl == old(fl) && arena == old(arena) && owned == old(owned) && mem == old(mem) && freep == old(freep)
      ensures ok ==> arena == old(arena) + UnitsAt(brk, Grow(nu)) && freep != 0
                     && owned == AfterSbrk(old(owned), brk, Grow(nu))
                     && fl == Insert(old(fl), Blk(brk, Grow(nu)), Below(old(fl), brk))
      ensures ok ==> arena == old(arena) + UnitsAt(brk, if nu < 4096 then 4096 else nu)
    {
      hide HeapOk, Fits, RingOk, Node, FreeMem, Insert, Below, AfterSbrk, UnitsAt;
      if !ok {
        return 0;
      }
      var n := Grow(nu);
      GrowKeeps(base, mem, freep, fl, live, arena, brk, n);
      mem := NewHeader(mem, brk, n);
      Release(brk);
      fl := Insert(fl, Blk(brk, n), Below(fl, brk));
      arena := arena + UnitsAt(brk, n);
      owned := AfterSbrk(owned, brk, n);
      p := freep;
    }

    /** One trip of `malloc` round the ring, starting after `freep`: the first block of at least `n`
        units and the node before it, or the news that there is none. */
    method Search(n: nat) returns (found: bool, prev: nat, p: nat, ghost k: nat)
      requires RingOk(base, mem, freep, fl) && Ordered(base, fl) && n >= 1
      ensures found ==> ServedBy(base, fl, prev, p, n, k) && FirstFit(base, fl, freep, n, k)
      ensures found <==> !NoneOf(fl, n)
    {
      hide Node, SizeAt, Linked, Ordered, TooSmall, StepsLeft, RingOk, Next, ServedBy;
      ghost var f := SearchStart(base, mem, freep, fl, n);
      prev, k := freep, 0;
      p := mem[prev].ptr;
      ghost var i := Next(fl, f);
      LinkedNode(base, mem, fl, i);
      while true
        invariant 0 <= i <= |fl| && p == Node(base, fl, i) && LinkedAt(base, mem, fl, i)
        invariant i > 0 ==> prev == Node(base, fl, i - 1)
        invariant TooSmall(fl, f, i, n) && StepsLeft(f, i, |fl|) >= 0
        decreases StepsLeft(f, i, |fl|)
      {
        if mem[p].size >= n {
          found := true;
          NodeServes(base, fl, prev, p, n, i);
          k := i - 1;
          return;
        }
        if p == freep {
          found := false;
          SameNode(base, fl, f, i);
          AllVisited(fl, f, n);
          return;
        }
        TooSmallStep(fl, f, i, n);
        prev := p;
        p := mem[p].ptr;
        i := Next(fl, i);
        LinkedNode(base, mem, fl, i);
      }
    }

    /** The allocation itself: unlink a block of just the right size, or cut off its tail. */
    method Cut(prev: nat, p: nat, n: nat, ghost i: nat) returns (ap: nat)
      requires Valid() && freep != 0 && n >= 1 && ServedBy(base, fl, prev, p, n, i)
      modifies this
      ensures Valid() && arena == old(arena) && owned == old(owned) && fl == Take(old(fl), i, n)
      ensures ap == Taken(old(fl), i, n) + 1 && ap - 1 !in old(live) && live == old(live)[ap - 1 := n]
    {
      hide HeapOk, Take;
      CutKeeps(base, mem, freep, fl, live, arena, prev, p, n, i);
      hide ServedBy;
      var q := p;
      if mem[p].size == n {
        mem := mem[prev := Header(mem[p].ptr, mem[prev].size)];
      } else {
        mem := mem[p := Header(mem[p].ptr, mem[p].size - n)];
        q := p + mem[p].size;
        mem := mem[q := Header(if q in mem then mem[q].ptr else 0, n)];
      }
      freep := prev;
      fl := Take(fl, i, n);
      live := live[q := n];
      ap := q + 1;
    }

    /** `malloc` from where no block is large enough: after a successful `morecore` the search starts
        again from the new `freep` and succeeds within one trip. */
    method Refill(n: nat, brk: nat, ok: bool) returns (ap: nat)
      requires Valid() && freep != 0 && 1 <= n <= 0x2000_0000 && NoneOf(fl, n)
      requires brk > base && (forall u :: u in arena ==> u < brk) && forall u :: u in owned ==> u < brk
      modifies this
      ensures Valid() && (ap == 0 <==> !ok)
      ensures !ok ==> live == old(live) && fl == old(fl)
      ensures ok ==> ap - 1 !in old(live) && live == old(live)[ap - 1 := n]
      ensures Accounts(old(arena), old(owned), brk, n, ok, ap, arena, owned)
    {
      SoundIs(base, mem, freep, fl, live, arena);
      NewIsEnough(fl, brk, n);
      BigServes(base, fl, live, arena, brk, n);
      hide HeapOk, Insert, AfterSbrk, ServedAt, Sound, Below, NoneOf, UnitsAt, Grow, Accounts;
      var p := Morecore(n, brk, ok);
      if p == 0 {
        OldAccounts(arena, owned, brk, n, 0);
        return 0;
      }
      ap := Serve(n);
      NewAccounts(old(arena), old(owned), brk, n, ap);
    }

    /** A trip round the ring that is known to succeed, and the allocation. */
    method Serve(n: nat) returns (ap: nat)
      requires Valid() && freep != 0 && n >= 1 && !NoneOf(fl, n)
      modifies this
      ensures Valid() && arena == old(arena) && owned == old(owned)
      ensures ap > 0 && ap - 1 !in old(live) && live == old(live)[ap - 1 := n] && ServedAt(old(fl), n, ap - 1)
    {
      hide HeapOk, Ordered, RingOk, ServedBy, Take, Taken, FirstFit, NoneOf, ServedAt;
      OkParts(base, mem, freep, fl, live, arena);
      ghost var i;
      var found, prev, p;
      found, prev, p, i := Search(n);
      IsServed(base, fl, prev, p, n, i);
      ap := Cut(prev, p, n, i);
    }

    /** The first call makes a ring of the empty block `base`. */
    method StartRing()
      requires Valid()
      modifies this`mem, this`freep
      ensures Valid() && freep != 0
    {
      hide HeapOk;
      if freep == 0 {
        FirstRing(base, mem, fl, live, arena);
        mem := mem[base := Header(base, 0)];
        freep := base;
      }
    }

    /** `malloc`: a block of the requested units, cut from the first free block round the ring that
        is large enough; when the ring has none, from memory newly obtained, which is asked for at
        most once. What the headers speak of stays what the process has, except exactly when 2^28
        units or more have to be asked for: then `sbrk` succeeds without giving anything, and all of
        the block handed out lies beyond the break. */
    method Malloc(nbytes: nat, brk: nat, ok: bool) returns (ap: nat)
      requires Valid() && nbytes < 0x1_0000_0000
      requires brk > base && (forall u :: u in arena ==> u < brk) && forall u :: u in owned ==> u < brk
      modifies this
      ensures Valid()
      ensures ap == 0 <==> !ok && NoneOf(old(fl), Units(nbytes))
      ensures ap == 0 ==> live == old(live) && fl == old(fl)
      ensures ap != 0 ==> ap - 1 !in old(live) && live == old(live)[ap - 1 := Units(nbytes)]
      ensures Accounts(old(arena), old(owned), brk, Units(nbytes), ok && NoneOf(old(fl), Units(nbytes)), ap, arena, owned)
    {
      hide HeapOk, Ordered, RingOk, Units, ServedBy, AfterSbrk, Take, Taken, FirstFit, NoneOf, Grow, UnitsAt, Accounts;
      UnitsBound(nbytes);
      var n := Units(nbytes);
      StartRing();
      OkParts(base, mem, freep, fl, live, arena);
      ghost var i;
      var found, prev, p;
      found, prev, p, i := Search(n);
      if found {
        ap := Cut(prev, p, n, i);
        OldAccounts(arena, owned, brk, n, ap);
      } else {
        ap := Refill(n, brk, ok);
      }
    }
  }

  /** What the headers speak of (`arena`) and what the process has (`owned`) after `malloc` of `n`
      units. Both stay as they were unless memory was asked for. If they agreed before, they still
      do, except exactly when 2^28 units or more were asked for; then the whole block handed out
      lies beyond the break, where the process has nothing. */
  ghost predicate Accounts(arena0: set<nat>, owned0: set<nat>, brk: nat, n: nat, asked: bool, ap: nat,
                           arena: set<nat>, owned: set<nat>)
  {
    && (if asked then arena == arena0 + UnitsAt(brk, Grow(n)) && owned == AfterSbrk(owned0, brk, Grow(n))
        else arena == arena0 && owned == owned0)
    && (arena0 == owned0 ==> (arena == owned <==> !(asked && n >= 0x1000_0000)))
    && (asked && n >= 0x1000_0000 ==> ap == brk + 1 && forall u: nat :: brk <= u ==> u !in owned)
  }

  lemma OldAccounts(arena: set<nat>, owned: set<nat>, brk: nat, n: nat, ap: nat)
    ensures Accounts(arena, owned, brk, n, false, ap, arena, owned)
  {
  }

  lemma NewAccounts(arena: set<nat>, owned: set<nat>, brk: nat, n: nat, ap: nat)
    requires 1 <= n <= 0x2000_0000 && (forall u :: u in arena ==> u < brk) && forall u :: u in owned ==> u < brk
    requires n >= 0x1000_0000 ==> ap == brk + 1 || ap == 0
    ensures ap != 0 ==>
              Accounts(arena, owned, brk, n, true, ap, arena + UnitsAt(brk, Grow(n)), AfterSbrk(owned, brk, Grow(n)))
  {
    SbrkExact(owned, brk, Grow(n));
  }

  ghost predicate NoneOf(fl: seq<Blk>, n: nat)
  {
    forall i :: 0 <= i < |fl| ==> fl[i].size < n
  }

  lemma NewIsEnough(fl: seq<Blk>, brk: nat, n: nat)
    ensures !NoneOf(Insert(fl, Blk(brk, Grow(n)), Below(fl, brk)), n)
  {
    hide Insert;
    InsertHolds(fl, Blk(brk, Grow(n)), Below(fl, brk));
  }

  lemma SoundIs(base: nat, mem: map<nat, Header>, freep: nat, fl: seq<Blk>, live: map<nat, nat>, arena: set<nat>)
    requires HeapOk(base, mem, freep, fl, live, arena)
    ensures Sound(base, fl, live, arena)
  {
  }

  /** `a` is where `n` units are cut from some free block. */
  ghost predicate ServedAt(fl: seq<Blk>, n: nat, a: nat)
  {
    exists i: nat :: i < |fl| && n <= fl[i].size && Taken(fl, i, n) == a
  }

  lemma IsServed(base: nat, fl: seq<Blk>, prev: nat, p: nat, n: nat, i: nat)
    requires ServedBy(base, fl, prev, p, n, i)
    ensures i < |fl| && n <= fl[i].size && ServedAt(fl, n, Taken(fl, i, n))
  {
  }

  lemma BigServes(base: nat, fl: seq<Blk>, live: map<nat, nat>, arena: set<nat>, brk: nat, n: nat)
    requires Sound(base, fl, live, arena) && NoneOf(fl, n) && n >= 1 && forall u :: u in arena ==> u < brk
    ensures n >= 0x1000_0000 ==>
              forall a: nat :: ServedAt(Insert(fl, Blk(brk, Grow(n)), Below(fl, brk)), n, a) ==> a == brk
  {
    if n >= 0x1000_0000 {
      forall a: nat | ServedAt(Insert(fl, Blk(brk, n), Below(fl, brk)), n, a)
        ensures a == brk
      {
        hide Sound, Insert, NoneOf, Below;
        var r := Insert(fl, Blk(brk, n), Below(fl, brk));
        var i: nat :| i < |r| && n <= r[i].size && Taken(r, i, n) == a;
        NewBlockServes(base, fl, live, arena, brk, n, i);
      }
    }
  }

  /** When nothing old was large enough, the block served is exactly the one at the break. */
  lemma NewBlockServes(base: nat, fl: seq<Blk>, live: map<nat, nat>, arena: set<nat>, brk: nat, n: nat, i: nat)
    requires Sound(base, fl, live, arena) && NoneOf(fl, n) && n >= 1 && forall u :: u in arena ==> u < brk
    requires var r := Insert(fl, Blk(brk, n), Below(fl, brk)); i < |r| && n <= r[i].size
    ensures Taken(Insert(fl, Blk(brk, n), Below(fl, brk)), i, n) == brk
  {
    hide InLive, Apart;
    forall j | 0 <= j < |fl|
      ensures End(fl[j]) <= brk
    {
      assert InFree(fl, End(fl[j]) - 1);
    }
    assert Below(fl, brk) == |fl|;
    hide Sound, Insert, Node, InFree;
    InsertAtTop(fl, Blk(brk, n));
  }

  lemma InsertAtTop(fl: seq<Blk>, b: Blk)
    ensures Insert(fl, b, |fl|)
            == if fl != [] && End(fl[|fl| - 1]) == b.addr
               then fl[..|fl| - 1] + [Blk(fl[|fl| - 1].addr, fl[|fl| - 1].size + b.size)]
               else fl + [b]
  {
    assert Place(fl, b, |fl|) == fl + [b];
  }

  /** Free block `i` can serve `n` units; `prev` is the ring node before it. */
  ghost predicate ServedBy(base: nat, fl: seq<Blk>, prev: nat, p: nat, n: nat, i: int)
  {
    0 <= i < |fl| && p == fl[i].addr && prev == Node(base, fl, i) && fl[i].size >= n
  }

  /** Going round from the node after `freep`, free block `i` is the first of at least `n` units. */
  ghost predicate FirstFit(base: nat, fl: seq<Blk>, freep: nat, n: nat, i: int)
  {
    exists f :: 0 <= f <= |fl| && Node(base, fl, f) == freep && i >= -1 && TooSmall(fl, f, i + 1, n)
  }

  lemma NodeServes(base: nat, fl: seq<Blk>, prev: nat, p: nat, n: nat, i: nat)
    requires i <= |fl| && SizeAt(fl, i) >= n >= 1 && p == Node(base, fl, i)
    requires i > 0 ==> prev == Node(base, fl, i - 1)
    ensures i >= 1 && ServedBy(base, fl, prev, p, n, i - 1) && !NoneOf(fl, n)
  {
  }

  lemma SearchStart(base: nat, mem: map<nat, Header>, freep: nat, fl: seq<Blk>, n: nat) returns (f: nat)
    requires RingOk(base, mem, freep, fl)
    ensures Linked(base, mem, fl) && f <= |fl| && Node(base, fl, f) == freep && LinkedAt(base, mem, fl, f)
    ensures TooSmall(fl, f, Next(fl, f), n) && StepsLeft(f, Next(fl, f), |fl|) >= 0
    ensures var i := Next(fl, f); i > 0 ==> freep == Node(base, fl, i - 1)
  {
    f :| 0 <= f <= |fl| && Node(base, fl, f) == freep;
  }

  lemma SameNode(base: nat, fl: seq<Blk>, f: nat, i: nat)
    requires Ordered(base, fl) && f <= |fl| && i <= |fl| && Node(base, fl, f) == Node(base, fl, i)
    ensures f == i
  {
    if f < i { NodesDiffer(base, fl, 0, 0, f, i); }
    if i < f { NodesDiffer(base, fl, 0, 0, i, f); }
  }

  lemma AllVisited(fl: seq<Blk>, f: nat, n: nat)
    requires f <= |fl| && SizeAt(fl, f) < n
    requires TooSmall(fl, f, f, n)
    ensures NoneOf(fl, n)
  {
    forall i | 0 <= i < |fl|
      ensures fl[i].size < n
    {
      assert SizeAt(fl, i + 1) == fl[i].size;
      assert i + 1 != f ==> Visited(f, f, i + 1);
    }
  }

  lemma TakeKeepsHeaders(mem: map<nat, Header>, live: map<nat, nat>, prev: nat, p: nat, n: nat)
    requires LiveHeaders(mem, live) && prev in mem && p in mem && 1 <= n <= mem[p].size
    requires prev !in live && p !in live && p + (mem[p].size - n) !in live
    ensures LiveHeaders(TakeMem(mem, prev, p, n), live[p + (mem[p].size - n) := n])
  {
  }

  /** Everything an allocation from block `i` keeps. */
  lemma CutKeeps(base: nat, mem: map<nat, Header>, freep: nat, fl: seq<Blk>, live: map<nat, nat>, arena: set<nat>,
                 prev: nat, p: nat, n: nat, i: nat)
    requires HeapOk(base, mem, freep, fl, live, arena) && freep != 0
    requires n >= 1 && ServedBy(base, fl, prev, p, n, i)
    ensures prev in mem && p in mem && n <= mem[p].size
    ensures var q := p + (mem[p].size - n);
            && q == Taken(fl, i, n) && q !in live
            && HeapOk(base, TakeMem(mem, prev, p, n), prev, Take(fl, i, n), live[q := n], arena)
  {
    hide Sound, Linked, LiveHeaders, Take, OrderedBut;
    SoundOrdered(base, fl, live, arena);
    TakeLinked(base, mem, fl, i, n);
    TakeSound(base, fl, live, arena, i, n);
    TakeKeepsNode(base, fl, i, n);
    NodeNotLive(base, fl, live, arena, i);
    NodeNotLive(base, fl, live, arena, i + 1);
    NodeAtLeastBase(base, fl, i);
    hide TakeMem;
    TakeKeepsHeaders(mem, live, prev, p, n);
  }

  lemma PlaceInMemory(base: nat, mem: map<nat, Header>, freep: nat, fl: seq<Blk>, b: Blk, k: nat)
    requires RingOk(base, mem, freep, fl) && k <= |fl| && b.addr in mem
    ensures Node(base, fl, k) in mem && mem[Node(base, fl, k)].ptr in mem
  {
    LinkedNode(base, mem, fl, k);
    LinkedNode(base, mem, fl, Next(fl, k));
  }

  /** Linking a placed block in: the ring of the longer list, through the node below the block. */
  lemma ReleaseRing(base: nat, mem: map<nat, Header>, fl: seq<Blk>, b: Blk, k: nat)
    requires base > 0 && Linked(base, mem, fl) && Fits(base, fl, b, k)
    requires b.addr in mem && mem[b.addr].size == b.size
    ensures k <= |fl|
    ensures var p := Node(base, fl, k);
            && p > 0 && p in mem && mem[p].ptr in mem
            && RingOk(base, FreeMem(mem, b.addr, p), p, Insert(fl, b, k))
  {
    FitsIndex(base, fl, b, k);
    NodeAtLeastBase(base, fl, k);
    hide Linked, Fits, Insert, FreeMem;
    FreeLinked(base, mem, fl, b, k);
    InsertKeepsNode(base, fl, b, k);
  }

  lemma FreeKeeps(base: nat, mem: map<nat, Header>, freep: nat, fl: seq<Blk>, live: map<nat, nat>, arena: set<nat>, a: nat)
    requires HeapOk(base, mem, freep, fl, live, arena) && a in live
    ensures a in mem && mem[a].size == live[a] && RingOk(base, mem, freep, fl)
    ensures Fits(base, fl, Blk(a, live[a]), Below(fl, a))
    ensures var p := Node(base, fl, Below(fl, a));
            && p in mem && mem[p].ptr in mem
            && HeapOk(base, FreeMem(mem, a, p), p, Insert(fl, Blk(a, live[a]), Below(fl, a)), live - {a}, arena)
  {
    var k := Below(fl, a);
    FreeSound(base, fl, live, arena, a);
    NodeNotLive(base, fl, live, arena, k);
    LiveHeader(mem, live, a);
    hide Sound, Fits, Insert, Linked, LiveHeaders, FreeMem;
    ReleaseRing(base, mem, fl, Blk(a, live[a]), k);
    FreeKeepsHeaders(mem, live, a, Node(base, fl, k));
  }

  function NewHeader(mem: map<nat, Header>, brk: nat, n: nat): (m: map<nat, Header>)
    ensures brk in m && m[brk].size == n
  {
    mem[brk := Header(if brk in mem then mem[brk].ptr else 0, n)]
  }

  lemma GrowKeeps(base: nat, mem: map<nat, Header>, freep: nat, fl: seq<Blk>, live: map<nat, nat>, arena: set<nat>,
                  brk: nat, n: nat)
    requires HeapOk(base, mem, freep, fl, live, arena) && freep != 0 && n >= 1
    requires brk > base && forall u :: u in arena ==> u < brk
    ensures RingOk(base, NewHeader(mem, brk, n), freep, fl)
    ensures Fits(base, fl, Blk(brk, n), Below(fl, brk))
    ensures var p, m, k := Node(base, fl, Below(fl, brk)), NewHeader(mem, brk, n), Below(fl, brk);
            && p > 0 && p in m && m[p].ptr in m
            && HeapOk(base, FreeMem(m, brk, p), p, Insert(fl, Blk(brk, n), k), live, arena + UnitsAt(brk, n))
  {
    var k, m := Below(fl, brk), NewHeader(mem, brk, n);
    UnitsAre(brk, n);
    hide UnitsAt;
    GrowSound(base, fl, live, arena, Blk(brk, n), UnitsAt(brk, n));
    NodeNotLive(base, fl, live, arena, k);
    BreakNotLive(base, fl, live, arena, brk);
    hide Sound, Fits, Insert, LiveHeaders, FreeMem, Linked;
    NewHeaderKeeps(base, mem, fl, live, brk, n);
    ReleaseRing(base, m, fl, Blk(brk, n), k);
    FreeKeepsHeaders(m, live, brk, Node(base, fl, k));
    assert live - {brk} == live;
  }

  lemma FirstRing(base: nat, mem: map<nat, Header>, fl: seq<Blk>, live: map<nat, nat>, arena: set<nat>)
    requires HeapOk(base, mem, 0, fl, live, arena)
    ensures HeapOk(base, mem[base := Header(base, 0)], base, fl, live, arena) && base != 0
  {
    hide Sound;
    EmptyRing(base, mem[base := Header(base, 0)]);
  }

  lemma OkParts(base: nat, mem: map<nat, Header>, freep: nat, fl: seq<Blk>, live: map<nat, nat>, arena: set<nat>)
    requires HeapOk(base, mem, freep, fl, live, arena) && freep != 0
    ensures RingOk(base, mem, freep, fl) && Ordered(base, fl)
  {
    hide RingOk;
  }

  lemma NodeAtLeastBase(base: nat, fl: seq<Blk>, i: nat)
    requires Ordered(base, fl) && i <= |fl|
    ensures Node(base, fl, i) >= base
  {
  }

  lemma SoundOrdered(base: nat, fl: seq<Blk>, live: map<nat, nat>, arena: set<nat>)
    requires Sound(base, fl, live, arena)
    ensures Ordered(base, fl)
  {
  }

  lemma EmptyRing(base: nat, mem: map<nat, Header>)
    requires base in mem && mem[base] == Header(base, 0)
    ensures Linked(base, mem, []) && Node(base, [], 0) == base && LiveHeaders(mem, map[])
  {
  }

  /** The break is above every block, so a header written there touches none. */
  lemma NewHeaderKeeps(base: nat, mem: map<nat, Header>, fl: seq<Blk>, live: map<nat, nat>, brk: nat, n: nat)
    requires Linked(base, mem, fl) && LiveHeaders(mem, live) && brk !in live && brk > base
    requires forall i :: 0 <= i < |fl| ==> fl[i].addr != brk
    ensures Linked(base, NewHeader(mem, brk, n), fl) && LiveHeaders(NewHeader(mem, brk, n), live)
  {
    var m := NewHeader(mem, brk, n);
    forall i | 0 <= i <= |fl|
      ensures LinkedAt(base, m, fl, i)
    {
      assert LinkedAt(base, mem, fl, i);
    }
  }

  lemma BreakNotLive(base: nat, fl: seq<Blk>, live: map<nat, nat>, arena: set<nat>, brk: nat)
    requires Sound(base, fl, live, arena) && forall u :: u in arena ==> u < brk
    ensures brk !in live && forall i :: 0 <= i < |fl| ==> fl[i].addr != brk
  {
    assert brk !in arena && !InLive(live, brk) && !InFree(fl, brk);
  }

  /** The units of a block. */
  function UnitsAt(a: nat, n: nat): (s: set<nat>)
  {
    Interval(a, n)
  }

  lemma UnitsAre(a: nat, n: nat)
    ensures forall u: nat :: u in UnitsAt(a, n) <==> a <= u < a + n
  {
  }

  function Grow(nu: nat): (n: nat)
  {
    if nu < MINGROW then MINGROW else nu
  }

  lemma LiveHeader(mem: map<nat, Header>, live: map<nat, nat>, a: nat)
    requires LiveHeaders(mem, live) && a in live
    ensures a in mem && mem[a].size == live[a]
  {
  }

  lemma FreeKeepsHeaders(mem: map<nat, Header>, live: map<nat, nat>, bp: nat, p: nat)
    requires LiveHeaders(mem, live) && bp in mem && p in mem && mem[p].ptr in mem && p !in live
    ensures LiveHeaders(FreeMem(mem, bp, p), live - {bp})
  {
  }

  /** The exit test of the search holds at one node of the ring only. */
  lemma PlaceTest(base: nat, fl: seq<Blk>, b: Blk, k: nat, i: nat)
    requires Fits(base, fl, b, k) && i <= |fl|
    ensures var p, n := Node(base, fl, i), Node(base, fl, Next(fl, i));
            (b.addr > p && b.addr < n) || (p >= n && (b.addr > p || b.addr < n)) <==> i == k
  {
    NodeBelow(base, fl, b, k, i);
    NodeBelow(base, fl, b, k, Next(fl, i));
    NodeOrder(base, fl, b, k, i);
    assert Node(base, fl, 0) < b.addr;
  }

  lemma NodeOrder(base: nat, fl: seq<Blk>, b: Blk, k: nat, i: nat)
    requires Fits(base, fl, b, k) && i <= |fl|
    ensures Node(base, fl, i) >= Node(base, fl, Next(fl, i)) <==> i == |fl|
  {
    if i < |fl| {
      NodesDiffer(base, fl, 0, 0, i, i + 1);
    } else if i > 0 {
      NodesDiffer(base, fl, 0, 0, 0, i);
    }
  }
}

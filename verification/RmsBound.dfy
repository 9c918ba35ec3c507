/** The utilization test of the rate-monotonic simulator, over exact numbers: the product bound and
    the Liu and Layland bound guarantee every deadline, and neither is necessary. */
module RmsBound {
  import opened ExchangeSort
  import opened Sums
  import opened Rms
  import opened RmsResponse

  function Load(p: Process): (u: real)
  {
    if p.period >= 1 then p.executionTime as real / p.period as real else 0.0
  }

  function Times(x: real, y: real): (z: real)
  {
    x * y
  }

  /** The product of one plus each process's utilization. */
  function Product(ps: seq<Process>): (r: real)
  {
    if ps == [] then 1.0 else Times(Product(ps[..|ps| - 1]), 1.0 + Load(ps[|ps| - 1]))
  }

  // ---------------------------------------------------------------- demand at the last arrivals

  /** How many whole periods of `p` fit into `t`, where the last of them ends, and its work till then. */
  function Fit(p: Process, t: int): (m: int)
  {
    if p.period >= 1 then t / p.period else 0
  }

  function LastArrival(p: Process, t: int): (x: int)
  {
    Fit(p, t) * p.period
  }

  function WorkTill(p: Process, t: int): (w: int)
  {
    Fit(p, t) * p.executionTime
  }

  function LastArrivalOf(t: int): (f: Process -> int)
  {
    (p: Process) => LastArrival(p, t)
  }

  function WorkTillOf(t: int): (f: Process -> int)
  {
    (p: Process) => WorkTill(p, t)
  }

  lemma {:induction false} DemandWithin(p: Process, x: int, n: nat)
    requires p.period >= 1 && p.executionTime >= 0 && x <= n * p.period
    ensures Demand(p, x) <= n * p.executionTime
    decreases n
  {
    if n == 0 {
    } else if x > 0 {
      assert n * p.period == (n - 1) * p.period + p.period;
      assert n * p.executionTime == (n - 1) * p.executionTime + p.executionTime;
      DemandWithin(p, x - p.period, n - 1);
    } else {
      assert n * p.executionTime >= 0;
    }
  }

  lemma FitBounds(p: Process, t: int)
    requires 1 <= p.period <= t && p.executionTime >= 1
    ensures Fit(p, t) >= 1 && 1 <= p.period <= LastArrival(p, t) <= t < LastArrival(p, t) + p.period
    ensures WorkTill(p, t) >= p.executionTime >= 1
  {
    var m := Fit(p, t);
    assert m >= 1 by { assert t / p.period >= 1; }
    assert t == m * p.period + t % p.period;
    assert (m - 1) * p.period >= 0 && (m - 1) * p.executionTime >= 0;
    assert m * p.period == (m - 1) * p.period + p.period;
    assert m * p.executionTime == (m - 1) * p.executionTime + p.executionTime;
  }

  /** Up to its last arrival before `t` a process asks for its work till then, past it for one job more. */
  lemma DemandAt(p: Process, t: int, x: int)
    requires 1 <= p.period <= t && p.executionTime >= 1 && x <= t
    ensures Demand(p, x) <= WorkTill(p, t) + if LastArrival(p, t) < x then p.executionTime else 0
  {
    FitBounds(p, t);
    var m := Fit(p, t);
    if x <= m * p.period {
      DemandWithin(p, x, m);
    } else {
      assert (m + 1) * p.period == m * p.period + p.period;
      assert (m + 1) * p.executionTime == m * p.executionTime + p.executionTime;
      DemandWithin(p, x, m + 1);
    }
  }

  // ---------------------------------------------------------------- if no last arrival passes the test

  ghost predicate Bounded(ps: seq<Process>, t: int)
  {
    forall i :: 0 <= i < |ps| ==> 1 <= ps[i].period <= t && ps[i].executionTime >= 1
  }

  /** All the work till the last arrivals, and that of the first `j` processes once more. */
  function Level(ps: seq<Process>, t: int, j: nat): (w: int)
    requires j <= |ps|
  {
    Sum(ps, WorkTillOf(t)) + Sum(ps[..j], WorkTillOf(t))
  }

  lemma {:induction false} SumSnoc(ps: seq<Process>, f: Process -> int, j: nat)
    requires j < |ps|
    ensures Sum(ps[..j + 1], f) == Sum(ps[..j], f) + f(ps[j])
  {
    if j == 0 {
      assert ps[..1] == [ps[0]] && ps[..0] == [] && [ps[0]][1..] == [];
    } else {
      SumSnoc(ps[1..], f, j - 1);
      assert ps[..j + 1][1..] == ps[1..][..j] && ps[..j][1..] == ps[1..][..j - 1];
    }
  }

  /** The demand of each process up to `x`, for the processes before `j` and the others. */
  lemma {:induction false} LevelBounds(ps: seq<Process>, t: int, x: int, j: nat, n: nat)
    requires Bounded(ps, t) && x <= t && j <= |ps| && n <= |ps|
    requires forall l :: j <= l < |ps| ==> x <= LastArrival(ps[l], t)
    ensures Sum(ps[..n], DemandOf(x))
            <= Sum(ps[..n], WorkTillOf(t)) + Sum(ps[..if n < j then n else j], WorkTillOf(t))
    decreases n
  {
    if n == 0 {
      assert ps[..0] == [];
    } else {
      LevelBounds(ps, t, x, j, n - 1);
      SumSnoc(ps, DemandOf(x), n - 1);
      SumSnoc(ps, WorkTillOf(t), n - 1);
      DemandAt(ps[n - 1], t, x);
      FitBounds(ps[n - 1], t);
    }
  }

  /** One step up: with a test point below the level, the load more than makes up for it. */
  lemma StepUp(level: real, work: real, x: real)
    requires 0.0 < x < level && work > 0.0
    ensures level * (1.0 + work / x) > level + work
  {
    var q := work / x;
    assert q * x == work && q > 0.0;
    Scale(q, x, level);
  }

  lemma Scale(q: real, x: real, y: real)
    requires q > 0.0 && x < y
    ensures q * x < q * y
  {
  }

  lemma LoadIs(p: Process, t: int)
    requires 1 <= p.period <= t && p.executionTime >= 1
    ensures LastArrival(p, t) >= 1 && Load(p) == WorkTill(p, t) as real / LastArrival(p, t) as real
  {
    FitBounds(p, t);
    var m, c, d := Fit(p, t) as real, p.executionTime as real, p.period as real;
    assert WorkTill(p, t) as real == m * c && LastArrival(p, t) as real == m * d;
    Cancel(m, c, d);
  }

  lemma Cancel(m: real, c: real, d: real)
    requires m > 0.0 && d > 0.0
    ensures m * d > 0.0 && (m * c) / (m * d) == c / d
  {
    var q := c / d;
    assert q * d == c;
    assert q * (m * d) == m * c;
  }

  lemma ProductSnoc(ps: seq<Process>, j: nat)
    requires j < |ps|
    ensures Product(ps[..j + 1]) == Times(Product(ps[..j]), 1.0 + Load(ps[j]))
  {
    assert ps[..j + 1][..|ps[..j + 1]| - 1] == ps[..j];
  }

  lemma RealStep(a: real, b: real, level: real, work: real, x: real)
    requires Times(a, b) >= level && 0.0 < x < level && work > 0.0
    ensures Times(a, Times(b, 1.0 + work / x)) > level + work
  {
    var f := 1.0 + work / x;
    StepUp(level, work, x);
    assert f > 0.0;
    assert a * (b * f) == (a * b) * f;
    Grow(a * b, level, f);
  }

  lemma Grow(x: real, y: real, f: real)
    requires x >= y && f > 0.0
    ensures x * f >= y * f
  {
  }

  lemma LevelStep(ps: seq<Process>, t: int, j: nat)
    requires Bounded(ps, t) && j < |ps|
    ensures Level(ps, t, j + 1) == Level(ps, t, j) + WorkTill(ps[j], t)
  {
    SumSnoc(ps, WorkTillOf(t), j);
  }

  /** If every last arrival lies below its level, the products outgrow the levels. */
  lemma {:induction false} ProductsOutgrow(ps: seq<Process>, t: int, j: nat)
    requires Bounded(ps, t) && j <= |ps|
    requires forall l :: 0 <= l < |ps| ==> LastArrival(ps[l], t) < Level(ps, t, l)
    ensures var a := Level(ps, t, 0) as real;
            Times(a, Product(ps[..j])) >= Level(ps, t, j) as real
            && (j > 0 ==> Times(a, Product(ps[..j])) > Level(ps, t, j) as real)
    decreases j
  {
    if j == 0 {
      assert ps[..0] == [];
    } else {
      hide Level, Product, Load, LastArrival, WorkTill, Times;
      ProductsOutgrow(ps, t, j - 1);
      var p, l := ps[j - 1], Level(ps, t, j - 1);
      FitBounds(p, t);
      LoadIs(p, t);
      LevelStep(ps, t, j - 1);
      ProductSnoc(ps, j - 1);
      RealStep(Level(ps, t, 0) as real, Product(ps[..j - 1]), l as real, WorkTill(p, t) as real, LastArrival(p, t) as real);
    }
  }

  /** So if the test fails at every last arrival, the product exceeds two. */
  lemma FailingExceedsTwo(ps: seq<Process>, t: int)
    requires Bounded(ps, t) && ps != [] && Sorted(ps, LastArrivalOf(t))
    requires forall x :: 1 <= x <= t ==> Sum(ps, DemandOf(x)) > x
    ensures Product(ps) > 2.0
  {
    forall j | 0 <= j < |ps|
      ensures LastArrival(ps[j], t) < Level(ps, t, j)
    {
      var x := LastArrival(ps[j], t);
      FitBounds(ps[j], t);
      forall l | j <= l < |ps|
        ensures x <= LastArrival(ps[l], t)
      {
        if l > j { assert LastArrivalOf(t)(ps[j]) <= LastArrivalOf(t)(ps[l]); }
      }
      LevelBounds(ps, t, x, j, |ps|);
      assert ps[..|ps|] == ps;
    }
    ProductsOutgrow(ps, t, |ps|);
    assert ps[..|ps|] == ps && ps[..0] == [];
    FitBounds(ps[0], t);
    assert LastArrival(ps[0], t) < Level(ps, t, 0);
    Halve(Level(ps, t, 0) as real, Product(ps));
  }

  lemma Halve(a: real, p: real)
    requires a > 0.0 && Times(a, p) > 2.0 * a
    ensures p > 2.0
  {
    if p <= 2.0 { Grow(2.0, p, a); }
  }

  // ---------------------------------------------------------------- the product does not depend on the order

  lemma {:induction false} ProductDrop(ps: seq<Process>, i: nat)
    requires i < |ps|
    ensures Product(ps) == Times(Product(ps[..i] + ps[i + 1..]), 1.0 + Load(ps[i]))
  {
    hide Times, Load;
    var n := |ps| - 1;
    var rest := ps[..i] + ps[i + 1..];
    if i == n {
      assert rest == ps[..n];
    } else {
      ProductDrop(ps[..n], i);
      assert rest[..|rest| - 1] == ps[..n][..i] + ps[..n][i + 1..] && rest[|rest| - 1] == ps[n];
      Commute(Product(rest[..|rest| - 1]), 1.0 + Load(ps[i]), 1.0 + Load(ps[n]));
    }
  }

  lemma Commute(x: real, y: real, z: real)
    ensures Times(Times(x, y), z) == Times(Times(x, z), y)
  {
  }

  lemma {:induction false} ProductPermutation(ps: seq<Process>, qs: seq<Process>)
    requires multiset(ps) == multiset(qs)
    ensures Product(ps) == Product(qs)
  {
    hide Times, Load;
    if ps == [] {
      assert |multiset(qs)| == 0;
    } else {
      var n := |ps| - 1;
      assert ps[n] in multiset(qs);
      var i :| 0 <= i < |qs| && qs[i] == ps[n];
      DropOne(qs, i);
      DropOne(ps, n);
      assert ps[..n] + ps[n + 1..] == ps[..n];
      ProductDrop(qs, i);
      ProductPermutation(ps[..n], qs[..i] + qs[i + 1..]);
    }
  }

  lemma {:induction false} ProductGrows(ps: seq<Process>, j: nat)
    requires TaskSet(ps) && j <= |ps|
    ensures 1.0 <= Product(ps[..j]) <= Product(ps)
    decreases |ps| - j, j
  {
    if j < |ps| {
      ProductGrows(ps, j + 1);
      ProductAtLeastOne(ps[..j]);
      ProductSnoc(ps, j);
      LoadPositive(ps[j]);
      Grow(Load(ps[j]), 0.0, Product(ps[..j]));
    } else {
      assert ps[..j] == ps;
      ProductAtLeastOne(ps);
    }
  }

  lemma LoadPositive(p: Process)
    requires ValidTask(p)
    ensures Load(p) > 0.0
  {
  }

  lemma {:induction false} ProductAtLeastOne(ps: seq<Process>)
    requires TaskSet(ps)
    ensures Product(ps) >= 1.0
  {
    if ps != [] {
      ProductAtLeastOne(ps[..|ps| - 1]);
      LoadPositive(ps[|ps| - 1]);
      Grow(Product(ps[..|ps| - 1]), 1.0, 1.0 + Load(ps[|ps| - 1]));
    }
  }

  // ---------------------------------------------------------------- the two bounds

  /** The need of process `k` is the demand of the first `k + 1` processes, within its period. */
  lemma NeedIsDemand(ps: seq<Process>, k: nat, x: int)
    requires TaskSet(ps) && k < |ps| && 1 <= x <= ps[k].period
    ensures Need(ps, k, x) == Sum(ps[..k + 1], DemandOf(x))
  {
    SumSnoc(ps, DemandOf(x), k);
    OneJob(ps[k], x);
  }

  lemma ProductPasses(ps: seq<Process>, k: nat)
    requires TaskSet(ps) && Sorted(ps, ByPeriod()) && k < |ps| && Product(ps) <= 2.0
    ensures Passes(ps, k, ps[k].period)
  {
    var t, top := ps[k].period, ps[..k + 1];
    if !Passes(ps, k, t) {
      var order := Sort(top, LastArrivalOf(t));
      SortIsSortedPermutation(top, LastArrivalOf(t));
      forall x | 1 <= x <= t
        ensures Sum(order, DemandOf(x)) > x
      {
        NeedIsDemand(ps, k, x);
        SumPermutation(top, order, DemandOf(x));
      }
      forall i | 0 <= i < |order|
        ensures 1 <= order[i].period <= t && order[i].executionTime >= 1
      {
        assert order[i] in multiset(top);
        var j :| 0 <= j <= k && ps[j] == order[i];
        if j < k { assert ByPeriod()(ps[j]) <= ByPeriod()(ps[k]); }
      }
      hide Sorted, Sort;
      FailingExceedsTwo(order, t);
      ProductPermutation(top, order);
      ProductGrows(ps, k + 1);
      assert false;
    }
  }

  /** If the product of one plus the utilizations is at most two, the simulator meets every deadline,
      whenever the processes first arrive. */
  lemma ProductBound(ps: seq<Process>)
    requires TaskSet(ps) && Product(ps) <= 2.0
    ensures MeetsAllDeadlines(Sort(ps, ByPeriod()))
  {
    var sorted := Sort(ps, ByPeriod());
    SortIsSortedPermutation(ps, ByPeriod());
    hide Sort;
    forall i | 0 <= i < |sorted|
      ensures ValidTask(sorted[i])
    {
      assert sorted[i] in multiset(ps);
    }
    ProductPermutation(ps, sorted);
    forall k | 0 <= k < |sorted|
      ensures Passes(sorted, k, sorted[k].period)
    {
      ProductPasses(sorted, k);
    }
    DeadlinesExact(sorted);
  }

  // ---------------------------------------------------------------- the test of the program

  function Utilization(ps: seq<Process>): (u: real)
  {
    if ps == [] then 0.0 else Utilization(ps[..|ps| - 1]) + Load(ps[|ps| - 1])
  }

  function Pow(x: real, n: nat): (y: real)
  {
    if n == 0 then 1.0 else Times(x, Pow(x, n - 1))
  }

  /** The test the program computes, with `root` for the `n`-th root of two. */
  ghost predicate TestPasses(ps: seq<Process>, root: real)
  {
    Utilization(ps) <= |ps| as real * (root - 1.0)
  }

  lemma {:induction false} PowPositive(x: real, n: nat)
    requires x > 0.0
    ensures Pow(x, n) > 0.0
  {
    if n > 0 { PowPositive(x, n - 1); Grow(Pow(x, n - 1), 0.0, x); }
  }

  lemma {:induction false} PowMonotone(x: real, y: real, n: nat)
    requires 0.0 < x <= y
    ensures Pow(x, n) <= Pow(y, n)
  {
    if n > 0 {
      PowMonotone(x, y, n - 1);
      PowPositive(x, n - 1);
      Grow(Pow(y, n - 1), Pow(x, n - 1), y);
      Grow(y, x, Pow(x, n - 1));
    }
  }

  lemma TangentStep(a: real, b: real, p: real, q: real, n: real)
    requires a > 0.0 && b > 0.0 && p > 0.0 && n >= 0.0
    requires q >= Times(a, p) + Times(n * (b - a), p)
    ensures Times(b, q) >= Times(a, Times(a, p)) + Times((n + 1.0) * (b - a), Times(a, p))
  {
    Grow(q, Times(a, p) + Times(n * (b - a), p), b);
    Square(a, b - a, p, n);
  }

  lemma Square(a: real, d: real, p: real, n: real)
    requires p > 0.0 && n >= 0.0
    ensures Times(a + d, Times(a, p) + Times(n * d, p)) >= Times(a, Times(a, p)) + Times((n + 1.0) * d, Times(a, p))
  {
    var x, e, f := a * p, n * d, n * p;
    assert (a + d) * (x + e * p) == a * x + a * (e * p) + d * x + d * (e * p);
    assert a * (e * p) == e * x;
    assert e * x + d * x == (n * d + d) * x;
    assert d * (e * p) == f * (d * d);
    assert d * d >= 0.0 && f >= 0.0;
    Scaled(f, d * d);
  }

  lemma Scaled(x: real, y: real)
    requires x >= 0.0 && y >= 0.0
    ensures x * y >= 0.0
  {
  }

  lemma PowOne(x: real)
    ensures Pow(x, 0) == 1.0 && Pow(x, 1) == x
  {
  }

  /** The graph of a power lies above its tangents. */
  lemma {:induction false} Tangent(a: real, b: real, n: nat)
    requires a > 0.0 && b > 0.0 && n >= 1
    ensures Pow(b, n) >= Times(a, Pow(a, n - 1)) + Times(n as real * (b - a), Pow(a, n - 1))
  {
    if n == 1 {
      PowOne(a);
      PowOne(b);
    } else {
      hide Times;
      Tangent(a, b, n - 1);
      PowPositive(a, n - 2);
      TangentStep(a, b, Pow(a, n - 2), Pow(b, n - 1), (n - 1) as real);
    }
  }

  /** The mean of `n - 1` factors of mean `a` and one factor `c`, to the power `n`. */
  lemma MeanStep(a: real, b: real, c: real, n: nat)
    requires a > 0.0 && b > 0.0 && n >= 1 && n as real * b == (n - 1) as real * a + c
    ensures Pow(b, n) >= Times(Pow(a, n - 1), c)
  {
    Tangent(a, b, n);
    assert n as real * (b - a) == n as real * b - n as real * a;
    assert n as real * a == (n - 1) as real * a + a;
    var p := Pow(a, n - 1);
    assert a * p + (c - a) * p == p * c;
  }

  lemma {:induction false} UtilizationPositive(ps: seq<Process>)
    requires TaskSet(ps)
    ensures Utilization(ps) >= 0.0
  {
    if ps != [] {
      UtilizationPositive(ps[..|ps| - 1]);
      LoadPositive(ps[|ps| - 1]);
    }
  }

  /** One plus the mean utilization. */
  function Mean(ps: seq<Process>): (m: real)
    requires ps != []
  {
    1.0 + Utilization(ps) / |ps| as real
  }

  lemma MeanTimes(ps: seq<Process>)
    requires TaskSet(ps) && ps != []
    ensures Mean(ps) >= 1.0 && |ps| as real * Mean(ps) == |ps| as real + Utilization(ps)
  {
    UtilizationPositive(ps);
    var n, u := |ps| as real, Utilization(ps);
    assert u / n >= 0.0;
    assert n * (u / n) == u;
  }

  lemma {:induction false} ProductBelowMean(ps: seq<Process>)
    requires TaskSet(ps) && ps != []
    ensures Product(ps) <= Pow(Mean(ps), |ps|)
  {
    var n := |ps|;
    MeanTimes(ps);
    var rest, c := ps[..n - 1], 1.0 + Load(ps[n - 1]);
    LoadPositive(ps[n - 1]);
    if n == 1 {
      PowOne(Mean(ps));
    } else {
      ProductBelowMean(rest);
      MeanTimes(rest);
      MeanStep(Mean(rest), Mean(ps), c, n);
      Grow(Pow(Mean(rest), n - 1), Product(rest), c);
    }
  }

  /** Whoever passes the program's test meets every deadline, whenever the processes first arrive. */
  lemma TestGuaranteesDeadlines(ps: seq<Process>, root: real)
    requires TaskSet(ps) && root > 0.0 && Pow(root, |ps|) == 2.0 && TestPasses(ps, root)
    ensures MeetsAllDeadlines(Sort(ps, ByPeriod()))
  {
    hide MeetsAllDeadlines, Sort;
    ProductBelowMean(ps);
    MeanTimes(ps);
    Divide(|ps| as real, Mean(ps), root);
    PowMonotone(Mean(ps), root, |ps|);
    ProductBound(ps);
  }

  lemma Divide(n: real, x: real, y: real)
    requires n > 0.0 && n * x <= n * y
    ensures x <= y
  {
  }

  /** The test is not necessary: two processes fill the time completely and never miss. */
  lemma TestIsNotNecessary(root: real)
    requires root > 0.0 && Pow(root, 2) == 2.0
    ensures var ps := [Process(1, 1, 2, 0, 1, 0), Process(2, 2, 4, 0, 2, 0)];
            TaskSet(ps) && Sorted(ps, ByPeriod()) && !TestPasses(ps, root) && MeetsAllDeadlines(ps)
  {
    hide MeetsAllDeadlines;
    var p, q := Process(1, 1, 2, 0, 1, 0), Process(2, 2, 4, 0, 2, 0);
    var ps := [p, q];
    assert ps[..0] == [] && ps[..1] == [p];
    assert Need(ps, 0, 1) == 1;
    assert Demand(p, 2) == 1 && Demand(p, 4) == 2;
    assert Sum([p], DemandOf(4)) == 2 by { assert [p][1..] == []; }
    assert Need(ps, 1, 4) == 4;
    DeadlinesExact(ps);
    assert Utilization([p]) == 0.5 by { assert [p][..0] == []; }
    assert Utilization(ps) == 1.0 by { assert ps[..1] == [p]; }
    assert root * root == 2.0 by { PowOne(root); }
    if root >= 1.5 { Grow(root, 1.5, root); }
  }

  lemma {:induction false} InitUtilization(ps: seq<Process>)
    ensures Utilization(Init(ps)) == Utilization(ps)
  {
    if ps != [] {
      var n := |ps| - 1;
      InitUtilization(ps[..n]);
      assert Init(ps)[..n] == Init(ps[..n]);
    }
  }

  /** For the table handed in: if it passes the program's test, then at every time the current job of
      every row is younger than its period. */
  lemma TableMeetsDeadlines(ps: seq<Process>, root: real, t: nat)
    requires Submitted(ps) && root > 0.0 && Pow(root, |ps|) == 2.0 && TestPasses(ps, root)
    ensures Descended(ps, Run(Sort(Init(ps), ByPeriod()), t))
    ensures forall p :: p in Run(Sort(Init(ps), ByPeriod()), t) ==> p.nextArrival + p.period > t
  {
    hide Sort, Pow, Utilization, Descended;
    var sorted := Sort(Init(ps), ByPeriod());
    InitTaskSet(ps);
    InitUtilization(ps);
    TestGuaranteesDeadlines(Init(ps), root);
    TableDescends(ps, t);
    forall p | p in Run(sorted, t)
      ensures p.nextArrival + p.period > t
    {
      var k :| 0 <= k < |sorted| && Run(sorted, t)[k] == p;
      assert RespondsWithin(sorted, k, sorted[k].period);
      SamePeriod(sorted, t, k);
    }
  }

  lemma {:induction false} SamePeriod(ps: seq<Process>, t: nat, k: nat)
    requires k < |ps|
    ensures Run(ps, t)[k].period == ps[k].period
  {
    if t > 0 {
      SamePeriod(ps, t - 1, k);
      TickAt(Run(ps, t - 1), t - 1, k);
    }
  }
}

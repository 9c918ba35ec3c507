/** Fixed-priority response times: an exact test for each process's deadlines, and the optimality of
    priorities by period. The deadline of a job is the arrival of the next one. */
module RmsResponse {
  import opened ExchangeSort
  import opened Sums
  import opened Rms

  // ---------------------------------------------------------------- what is to be proved

  /** Process `k` always finishes a job less than or exactly `r` after its arrival: at no time is
      its current job `r` old. */
  ghost predicate RespondsWithin(ps: seq<Process>, k: nat, r: int)
    requires k < |ps|
  {
    forall t: nat :: Run(ps, t)[k].nextArrival + r > t
  }

  /** At every time, every job whose deadline has come is complete. */
  ghost predicate MeetsAllDeadlines(ps: seq<Process>)
  {
    forall k :: 0 <= k < |ps| ==> RespondsWithin(ps, k, ps[k].period)
  }

  /** The most work process `p` can ask for within `x` units of time: a job at once and one more
      each period. */
  function Demand(p: Process, x: int): (w: int)
    requires p.period >= 1
    decreases x
  {
    if x <= 0 then 0 else p.executionTime + Demand(p, x - p.period)
  }

  function DemandOf(x: int): (f: Process -> int)
  {
    (p: Process) => if p.period >= 1 then Demand(p, x) else 0
  }

  /** One job of process `k` and the demand of everyone above it. */
  function Need(ps: seq<Process>, k: nat, x: int): (w: int)
    requires k < |ps|
  {
    ps[k].executionTime + Sum(ps[..k], DemandOf(x))
  }

  ghost predicate Passes(ps: seq<Process>, k: nat, r: int)
    requires k < |ps|
  {
    exists x :: 1 <= x <= r && Need(ps, k, x) <= x
  }

  /** All processes arrive together at time 0. */
  ghost predicate Synchronous(ps: seq<Process>)
  {
    forall i :: 0 <= i < |ps| ==> ps[i].arrivalTime == 0
  }

  // ---------------------------------------------------------------- unfinished work

  /** The work of process `p` that arrives before `h` and is not done yet. */
  function Backlog(p: Process, h: int): (w: int)
    requires p.period >= 1
    decreases h - p.nextArrival
  {
    if p.nextArrival >= h then 0
    else p.remainingTime + Backlog(p.(remainingTime := p.executionTime, nextArrival := p.nextArrival + p.period), h)
  }

  function BacklogOf(h: int): (f: Process -> int)
  {
    (p: Process) => if p.period >= 1 then Backlog(p, h) else 0
  }

  lemma ExecuteBacklog(p: Process, h: int)
    requires p.period >= 1 && p.nextArrival < h
    ensures Backlog(Execute(p), h) == Backlog(p, h) - 1
  {
  }

  lemma {:induction false} BacklogNonNegative(p: Process, h: int)
    requires p.period >= 1 && p.executionTime >= 0 && p.remainingTime >= 0
    ensures Backlog(p, h) >= 0
    decreases h - p.nextArrival
  {
    if p.nextArrival < h {
      BacklogNonNegative(p.(remainingTime := p.executionTime, nextArrival := p.nextArrival + p.period), h);
    }
  }

  lemma {:induction false} FreshBacklog(o: Process, p: Process, h: int)
    requires p.period == o.period >= 1 && p.executionTime == o.executionTime == p.remainingTime
    ensures Backlog(p, h) == Demand(o, h - p.nextArrival)
    decreases h - p.nextArrival
  {
    if p.nextArrival < h {
      FreshBacklog(o, p.(nextArrival := p.nextArrival + p.period), h);
    }
  }

  lemma {:induction false} DemandGrows(p: Process, x: int, y: int)
    requires p.period >= 1 && p.executionTime >= 0 && x <= y
    ensures 0 <= Demand(p, x) <= Demand(p, y)
    decreases y
  {
    if y > 0 { DemandGrows(p, x - p.period, y - p.period); }
  }

  lemma {:induction false} SumAtMost(s: seq<Process>, o: seq<Process>, f: Process -> int, g: Process -> int)
    requires |s| == |o| && forall i :: 0 <= i < |s| ==> f(s[i]) <= g(o[i])
    ensures Sum(s, f) <= Sum(o, g)
  {
    if s != [] {
      assert forall i :: 0 <= i < |s| - 1 ==> s[1..][i] == s[i + 1] && o[1..][i] == o[i + 1];
      SumAtMost(s[1..], o[1..], f, g);
    }
  }

  // ---------------------------------------------------------------- busy periods

  /** The unfinished work at time `t` that stands between process `k` and the end of its job:
      what arrives above it before `h`, and what is left of the job itself. */
  function Ahead(ps: seq<Process>, k: nat, t: nat, h: int): (w: int)
    requires k < |ps|
  {
    Sum(Run(ps, t)[..k], BacklogOf(h)) + Run(ps, t)[k].remainingTime
  }

  /** A tick that serves process `k` or someone above it takes one unit off that work, unless it
      finishes the job. */
  lemma BusyTick(ps: seq<Process>, k: nat, t: nat, h: int)
    requires TaskSet(ps) && k < |ps| && t < h && FirstReady(Run(ps, t), t, 0) <= k
    ensures var f := FirstReady(Run(ps, t), t, 0);
            if f == k && Run(ps, t)[k].remainingTime == 1
            then Run(ps, t + 1)[k].nextArrival == Run(ps, t)[k].nextArrival + ps[k].period
            else Ahead(ps, k, t + 1, h) == Ahead(ps, k, t, h) - 1
                 && Run(ps, t + 1)[k].nextArrival == Run(ps, t)[k].nextArrival
  {
    var s, r := Run(ps, t), Run(ps, t + 1);
    var f := FirstReady(s, t, 0);
    RunSane(ps, t, f);
    TickAt(s, t, k);
    if f == k {
      assert r[..k] == s[..k];
    } else {
      assert r[..k] == s[..k][f := Execute(s[f])];
      ExecuteBacklog(s[f], h);
      SumUpdate(s[..k], BacklogOf(h), f, Execute(s[f]));
    }
  }

  /** Nothing above process `k` that came before `t` is unfinished. */
  ghost predicate Quiet(ps: seq<Process>, k: nat, t: nat)
    requires k <= |ps|
  {
    forall i :: 0 <= i < k ==> Run(ps, t)[i].nextArrival >= t
  }

  ghost function LastQuiet(ps: seq<Process>, k: nat, a: nat): (t: nat)
    requires TaskSet(ps) && k <= |ps|
    ensures t <= a && Quiet(ps, k, t)
  {
    if Quiet(ps, k, a) then a
    else assert a > 0; LastQuiet(ps, k, a - 1)
  }

  lemma {:induction false} NotQuietSince(ps: seq<Process>, k: nat, a: nat, u: nat)
    requires TaskSet(ps) && k <= |ps| && LastQuiet(ps, k, a) < u <= a
    ensures !Quiet(ps, k, u)
  {
    if u < a { NotQuietSince(ps, k, a - 1, u); }
  }

  lemma QuietDemand(ps: seq<Process>, k: nat, t: nat, x: nat)
    requires TaskSet(ps) && k < |ps| && Quiet(ps, k, t)
    ensures Sum(Run(ps, t)[..k], BacklogOf(t + x)) <= Sum(ps[..k], DemandOf(x))
  {
    var s := Run(ps, t);
    forall i | 0 <= i < k
      ensures BacklogOf(t + x)(s[..k][i]) <= DemandOf(x)(ps[..k][i])
    {
      RunSane(ps, t, i);
      FreshBacklog(ps[i], s[i], t + x);
      DemandGrows(ps[i], t + x - s[i].nextArrival, x);
    }
    SumAtMost(s[..k], ps[..k], BacklogOf(t + x), DemandOf(x));
  }

  /** From the last quiet time before `a` on, someone above process `k` runs until `a`. */
  lemma RunsAbove(ps: seq<Process>, k: nat, a: nat, t: nat)
    requires TaskSet(ps) && k < |ps| && LastQuiet(ps, k, a) <= t < a
    ensures FirstReady(Run(ps, t), t, 0) < k
  {
    var s := Run(ps, t);
    NotQuietSince(ps, k, a, t + 1);
    var i :| 0 <= i < k && Run(ps, t + 1)[i].nextArrival < t + 1;
    RunSane(ps, t, i);
    TickAt(s, t, i);
    if FirstReady(s, t, 0) != i {
      assert Ready(s[i], t);
    }
  }

  lemma ShrinkTick(ps: seq<Process>, k: nat, a: nat, t: nat, h: int)
    requires TaskSet(ps) && k < |ps| && LastQuiet(ps, k, a) <= t < h
    requires Run(ps, t)[k].nextArrival == a && Run(ps, t + 1)[k].nextArrival <= a
    ensures Run(ps, t + 1)[k].nextArrival == a && Ahead(ps, k, t + 1, h) == Ahead(ps, k, t, h) - 1
  {
    hide Run, Tick, Execute, Ahead;
    RunSane(ps, t, k);
    if t < a {
      RunsAbove(ps, k, a, t);
    } else {
      assert Ready(Run(ps, t)[k], t);
    }
    BusyTick(ps, k, t, h);
  }

  /** While the job of process `k` that arrived at `a` is unfinished, the work ahead of its end
      shrinks by one each tick from the last quiet time on. */
  lemma {:induction false} WorkShrinks(ps: seq<Process>, k: nat, a: nat, t0: nat, t: nat, h: int)
    requires TaskSet(ps) && k < |ps| && Run(ps, a)[k].nextArrival == a && t0 == LastQuiet(ps, k, a)
    requires t0 <= t <= h && Run(ps, t)[k].nextArrival <= a
    ensures Run(ps, t)[k].nextArrival == a
    ensures Ahead(ps, k, t, h) == Ahead(ps, k, t0, h) - (t - t0)
    decreases t
  {
    hide Run, LastQuiet, Ahead;
    if t == t0 {
      NotServedBefore(ps, k, a, t0);
    } else {
      ArrivalsGrow(ps, k, t - 1, t);
      WorkShrinks(ps, k, a, t0, t - 1, h);
      ShrinkTick(ps, k, a, t - 1, h);
    }
  }

  lemma {:induction false} NotServedBefore(ps: seq<Process>, k: nat, a: nat, t: nat)
    requires TaskSet(ps) && k < |ps| && LastQuiet(ps, k, a) <= t <= a
    ensures Run(ps, t)[k] == Run(ps, a)[k]
    decreases a - t
  {
    if t < a {
      RunsAbove(ps, k, a, t);
      TickAt(Run(ps, t), t, k);
      NotServedBefore(ps, k, a, t + 1);
    }
  }

  // ---------------------------------------------------------------- the test is sufficient

  /** A job that starts fresh at its arrival `a` is finished `x` later at most. */
  lemma JobFinishes(ps: seq<Process>, k: nat, a: nat, x: nat)
    requires TaskSet(ps) && k < |ps| && 1 <= x && Need(ps, k, x) <= x
    requires Run(ps, a)[k].nextArrival == a
    ensures Run(ps, a + x)[k].nextArrival > a
  {
    hide *;
    var t0 := LastQuiet(ps, k, a);
    ArrivalsGrow(ps, k, t0 + x, a + x);
    QuietNeed(ps, k, t0, x);
    SomethingAhead(ps, k, t0 + x, t0 + x);
    if Run(ps, t0 + x)[k].nextArrival <= a {
      WorkShrinks(ps, k, a, t0, t0 + x, t0 + x);
      assert false;
    }
  }

  lemma QuietNeed(ps: seq<Process>, k: nat, t: nat, x: nat)
    requires TaskSet(ps) && k < |ps| && Quiet(ps, k, t)
    ensures Ahead(ps, k, t, t + x) <= Need(ps, k, x)
  {
    QuietDemand(ps, k, t, x);
    RunSane(ps, t, k);
  }

  lemma SomethingAhead(ps: seq<Process>, k: nat, t: nat, h: int)
    requires TaskSet(ps) && k < |ps|
    ensures Ahead(ps, k, t, h) >= 1
  {
    SumBacklogNonNegative(ps, k, t, h);
    RunSane(ps, t, k);
  }

  lemma SumBacklogNonNegative(ps: seq<Process>, k: nat, t: nat, h: int)
    requires TaskSet(ps) && k < |ps|
    ensures Sum(Run(ps, t)[..k], BacklogOf(h)) >= 0
  {
    var s := Run(ps, t)[..k];
    forall p | p in s
      ensures BacklogOf(h)(p) >= 0
    {
      var i :| 0 <= i < |s| && s[i] == p;
      RunSane(ps, t, i);
      BacklogNonNegative(p, h);
    }
    SumNonNegative(s, BacklogOf(h));
  }

  lemma NoWholePeriod(a: int, b: int, jobs: nat, period: int)
    requires period >= 1 && b == a + jobs * period && a > b - period
    ensures a == b
  {
    assert jobs >= 1 ==> jobs * period >= period;
  }

  /** If the test passes for some `x` up to `r`, no longer than the period, then process `k`
      responds within `r`, whenever the processes first arrive. */
  lemma {:induction false} TestSuffices(ps: seq<Process>, k: nat, x: nat, t: nat)
    requires TaskSet(ps) && k < |ps| && 1 <= x <= ps[k].period && Need(ps, k, x) <= x
    ensures Run(ps, t)[k].nextArrival + x > t
    decreases t
  {
    var a := Run(ps, t)[k].nextArrival;
    RunSane(ps, t, k);
    if a + x <= t {
      TestSuffices(ps, k, x, a);
      var jobs := ArrivalsStep(ps, k, a, t);
      NoWholePeriod(Run(ps, a)[k].nextArrival, a, jobs, ps[k].period);
      JobFinishes(ps, k, a, x);
      ArrivalsGrow(ps, k, a + x, t);
      assert false;
    }
  }

  // ---------------------------------------------------------------- the test is necessary

  lemma {:induction false} FirstDone(ps: seq<Process>, k: nat, r: nat) returns (x: nat)
    requires TaskSet(ps) && Synchronous(ps) && k < |ps| && Run(ps, r)[k].nextArrival > 0
    ensures 1 <= x <= r && Run(ps, x)[k].nextArrival > 0 && Run(ps, x - 1)[k].nextArrival == 0
  {
    RunSane(ps, r - 1, k);
    if Run(ps, r - 1)[k].nextArrival > 0 {
      x := FirstDone(ps, k, r - 1);
    } else {
      x := r;
    }
  }

  lemma {:induction false} FirstJobShrinks(ps: seq<Process>, k: nat, x: nat, t: nat)
    requires TaskSet(ps) && Synchronous(ps) && k < |ps| && t < x && Run(ps, t)[k].nextArrival == 0
    ensures Ahead(ps, k, t, x) == Ahead(ps, k, 0, x) - t
  {
    if t > 0 {
      hide Run, Ahead;
      ArrivalsGrow(ps, k, t - 1, t);
      RunSane(ps, t - 1, k);
      FirstJobShrinks(ps, k, x, t - 1);
      assert Ready(Run(ps, t - 1)[k], t - 1);
      BusyTick(ps, k, t - 1, x);
    }
  }

  lemma StartDemand(ps: seq<Process>, k: nat, x: nat)
    requires TaskSet(ps) && Synchronous(ps) && k < |ps|
    ensures Ahead(ps, k, 0, x) >= Need(ps, k, x)
  {
    forall i | 0 <= i < k
      ensures DemandOf(x)(ps[..k][i]) <= BacklogOf(x)(ps[..k][i])
    {
      FreshBacklog(ps[i], ps[i], x);
    }
    SumAtMost(ps[..k], ps[..k], DemandOf(x), BacklogOf(x));
  }

  lemma {:induction false} SumZero(s: seq<Process>, f: Process -> int)
    requires forall i :: 0 <= i < |s| ==> f(s[i]) == 0
    ensures Sum(s, f) == 0
  {
    if s != [] {
      assert forall i :: 0 <= i < |s| - 1 ==> s[1..][i] == s[i + 1];
      SumZero(s[1..], f);
    }
  }

  /** The tick that finishes the first job has nothing unfinished above it. */
  lemma LastTick(ps: seq<Process>, k: nat, x: nat)
    requires TaskSet(ps) && Synchronous(ps) && k < |ps| && 1 <= x
    requires Run(ps, x)[k].nextArrival > 0 && Run(ps, x - 1)[k].nextArrival == 0
    ensures Ahead(ps, k, x - 1, x) == 1
  {
    var s := Run(ps, x - 1);
    RunSane(ps, x - 1, k);
    TickAt(s, x - 1, k);
    forall i | 0 <= i < k
      ensures BacklogOf(x)(s[..k][i]) == 0
    {
      RunSane(ps, x - 1, i);
      assert !Ready(s[i], x - 1);
    }
    SumZero(s[..k], BacklogOf(x));
  }

  /** If the first job of a synchronous start is done by time `r`, the test passes by then. */
  lemma TestNecessary(ps: seq<Process>, k: nat, r: nat)
    requires TaskSet(ps) && Synchronous(ps) && k < |ps| && Run(ps, r)[k].nextArrival > 0
    ensures Passes(ps, k, r)
  {
    hide Run, Ahead, Need;
    var x := FirstDone(ps, k, r);
    FirstJobShrinks(ps, k, x, x - 1);
    LastTick(ps, k, x);
    StartDemand(ps, k, x);
  }

  // ---------------------------------------------------------------- the main results

  /** With a synchronous start, process `k` responds within `r` exactly when the test passes by `r`. */
  lemma ResponseExact(ps: seq<Process>, k: nat, r: int)
    requires TaskSet(ps) && Synchronous(ps) && k < |ps| && 1 <= r <= ps[k].period
    ensures RespondsWithin(ps, k, r) <==> Passes(ps, k, r)
  {
    hide Run, Need;
    if RespondsWithin(ps, k, r) {
      assert Run(ps, r)[k].nextArrival + r > r;
      TestNecessary(ps, k, r);
    }
    if Passes(ps, k, r) {
      PassingResponds(ps, k, r);
    }
  }

  lemma PassingResponds(ps: seq<Process>, k: nat, r: int)
    requires TaskSet(ps) && k < |ps| && 1 <= r <= ps[k].period && Passes(ps, k, r)
    ensures RespondsWithin(ps, k, r)
  {
    hide Run, Need;
    var x :| 1 <= x <= r && Need(ps, k, x) <= x;
    forall t: nat
      ensures Run(ps, t)[k].nextArrival + r > t
    {
      TestSuffices(ps, k, x, t);
    }
  }

  ghost predicate AllPass(ps: seq<Process>)
  {
    forall k :: 0 <= k < |ps| ==> Passes(ps, k, ps[k].period)
  }

  /** Whatever the arrivals, the test is enough; with a synchronous start it is exact. */
  lemma DeadlinesExact(ps: seq<Process>)
    requires TaskSet(ps)
    ensures AllPass(ps) ==> MeetsAllDeadlines(ps)
    ensures Synchronous(ps) ==> (MeetsAllDeadlines(ps) <==> AllPass(ps))
  {
    hide RespondsWithin, Passes;
    forall k | 0 <= k < |ps|
      ensures Passes(ps, k, ps[k].period) ==> RespondsWithin(ps, k, ps[k].period)
      ensures Synchronous(ps) && RespondsWithin(ps, k, ps[k].period) ==> Passes(ps, k, ps[k].period)
    {
      if Passes(ps, k, ps[k].period) { PassingResponds(ps, k, ps[k].period); }
      if Synchronous(ps) { ResponseExact(ps, k, ps[k].period); }
    }
  }

  // ---------------------------------------------------------------- priorities by period are optimal

  lemma DropOne(s: seq<Process>, i: nat)
    requires i < |s|
    ensures multiset(s[..i] + s[i + 1..]) == multiset(s) - multiset{s[i]}
  {
    assert s == s[..i] + [s[i]] + s[i + 1..];
  }

  lemma {:induction false} SumOfSome(a: seq<Process>, b: seq<Process>, f: Process -> int)
    requires multiset(a) <= multiset(b) && forall p :: p in b ==> f(p) >= 0
    ensures Sum(a, f) <= Sum(b, f)
  {
    if a == [] {
      SumNonNegative(b, f);
    } else {
      assert a[0] in multiset(a) && a[0] in multiset(b);
      var i :| 0 <= i < |b| && b[i] == a[0];
      SumDrop(b, f, i);
      DropOne(b, i);
      DropOne(a, 0);
      assert a[..0] + a[1..] == a[1..];
      var rest := b[..i] + b[i + 1..];
      assert forall p :: p in rest ==> p in b;
      SumOfSome(a[1..], rest, f);
    }
  }

  /** The lowest row of `order` needed to have all of `some`. */
  lemma {:induction false} LowestOf(order: seq<Process>, some: multiset<Process>) returns (m: nat)
    requires some <= multiset(order) && |some| > 0
    ensures m < |order| && order[m] in some
    ensures some - multiset{order[m]} <= multiset(order[..m])
  {
    var n := |order| - 1;
    assert order == order[..n] + [order[n]];
    if some <= multiset(order[..n]) {
      m := LowestOf(order[..n], some);
      assert order[..n][..m] == order[..m];
    } else {
      m := n;
    }
  }

  /** The demand of `top` but its row `j` is part of that of the rows above the lowest of them. */
  lemma DemandAbove(top: seq<Process>, order: seq<Process>, m: nat, j: nat, x: int)
    requires m < |order| && j < |top| && top[j] == order[m] && TaskSet(order)
    requires multiset(top) - multiset{order[m]} <= multiset(order[..m])
    ensures Sum(top, DemandOf(x)) <= DemandOf(x)(top[j]) + Sum(order[..m], DemandOf(x))
  {
    var f := DemandOf(x);
    SumDrop(top, f, j);
    DropOne(top, j);
    forall p | p in order[..m]
      ensures f(p) >= 0
    {
      var i :| 0 <= i < m && order[i] == p;
      assert ValidTask(order[i]);
      DemandGrows(p, x, x);
    }
    SumOfSome(top[..j] + top[j + 1..], order[..m], f);
  }

  /** Priority by period passes the test where any order does: against the lowest-ranked of the
      first `k + 1` processes, which asks for one job in the time the test found. */
  lemma RmsPasses(sorted: seq<Process>, order: seq<Process>, k: nat)
    requires TaskSet(sorted) && TaskSet(order) && Sorted(sorted, ByPeriod()) && multiset(order) == multiset(sorted)
    requires k < |sorted| && AllPass(order)
    ensures Passes(sorted, k, sorted[k].period)
  {
    var top := sorted[..k + 1];
    assert sorted == top + sorted[k + 1..];
    var m := LowestOf(order, multiset(top));
    assert order[m] in top;
    var j :| 0 <= j <= k && sorted[j] == order[m];
    assert Passes(order, m, order[m].period);
    var x :| 1 <= x <= order[m].period && Need(order, m, x) <= x;
    assert ByPeriod()(sorted[j]) <= ByPeriod()(sorted[k]);
    hide Sorted;
    DemandAbove(top, order, m, j, x);
    OneJob(sorted[j], x);
    LowestRow(sorted, k, x);
    assert Need(sorted, k, x) <= x;
  }

  lemma LowestRow(sorted: seq<Process>, k: nat, x: int)
    requires TaskSet(sorted) && k < |sorted| && x >= 1
    ensures Need(sorted, k, x) <= Sum(sorted[..k + 1], DemandOf(x))
  {
    var top := sorted[..k + 1];
    SumDrop(top, DemandOf(x), k);
    assert top[..k] + top[k + 1..] == sorted[..k];
    DemandGrows(sorted[k], x - sorted[k].period, x - sorted[k].period);
  }

  /** Within one period a process asks for one job. */
  lemma OneJob(p: Process, x: int)
    requires p.period >= 1 && 1 <= x <= p.period
    ensures Demand(p, x) == p.executionTime
  {
  }

  /** Rate-monotonic priorities are optimal: if the processes, arriving together, meet all their
      deadlines under some fixed priority order, they do under the order of their periods. */
  lemma RmsIsOptimal(ps: seq<Process>, order: seq<Process>)
    requires TaskSet(ps) && Synchronous(ps) && multiset(order) == multiset(ps)
    requires MeetsAllDeadlines(order)
    ensures MeetsAllDeadlines(Sort(ps, ByPeriod()))
  {
    var sorted := Sort(ps, ByPeriod());
    SortIsSortedPermutation(ps, ByPeriod());
    SameTasks(ps, order);
    SameTasks(ps, sorted);
    DeadlinesExact(order);
    hide Passes, MeetsAllDeadlines, Sort;
    forall k | 0 <= k < |sorted|
      ensures Passes(sorted, k, sorted[k].period)
    {
      RmsPasses(sorted, order, k);
    }
    DeadlinesExact(sorted);
  }

  lemma SameTasks(ps: seq<Process>, order: seq<Process>)
    requires TaskSet(ps) && Synchronous(ps) && multiset(order) == multiset(ps)
    ensures TaskSet(order) && Synchronous(order)
  {
    forall i | 0 <= i < |order|
      ensures ValidTask(order[i]) && order[i].arrivalTime == 0
    {
      assert order[i] in multiset(ps);
    }
  }

  // ---------------------------------------------------------------- the table the caller hands in

  lemma InitTaskSet(ps: seq<Process>)
    requires Submitted(ps)
    ensures TaskSet(Init(ps))
  {
  }

  lemma {:induction false} InitSum(ps: seq<Process>, x: int)
    ensures Sum(Init(ps), DemandOf(x)) == Sum(ps, DemandOf(x))
  {
    if ps != [] {
      assert Init(ps)[1..] == Init(ps[1..]);
      InitSum(ps[1..], x);
      if ps[0].period >= 1 { SameDemand(Init(ps)[0], ps[0], x); }
    }
  }

  lemma {:induction false} SameDemand(p: Process, q: Process, x: int)
    requires p.period == q.period >= 1 && p.executionTime == q.executionTime
    ensures Demand(p, x) == Demand(q, x)
    decreases x
  {
    if x > 0 { SameDemand(p, q, x - p.period); }
  }

  /** The test looks at execution times and periods only. */
  lemma InitPasses(ps: seq<Process>)
    ensures AllPass(Init(ps)) <==> AllPass(ps)
  {
    hide Passes;
    forall k | 0 <= k < |ps|
      ensures Passes(Init(ps), k, Init(ps)[k].period) <==> Passes(ps, k, ps[k].period)
    {
      InitPassesAt(ps, k);
    }
  }

  lemma InitPassesAt(ps: seq<Process>, k: nat)
    requires k < |ps|
    ensures Passes(Init(ps), k, Init(ps)[k].period) <==> Passes(ps, k, ps[k].period)
  {
    forall x: int
      ensures Need(Init(ps), k, x) == Need(ps, k, x)
    {
      assert Init(ps)[..k] == Init(ps[..k]);
      InitSum(ps[..k], x);
    }
  }

  lemma {:induction false} InitSameRows(a: seq<Process>, b: seq<Process>)
    requires multiset(a) == multiset(b)
    ensures multiset(Init(a)) == multiset(Init(b))
    decreases |a|
  {
    hide Init, Without;
    if a == [] {
      assert |multiset(b)| == 0;
    } else {
      assert a[0] in multiset(b);
      var i :| 0 <= i < |b| && b[i] == a[0];
      Removed(b, i);
      Removed(a, 0);
      InitSameRows(Without(a, 0), Without(b, i));
      InitRemoved(a, 0);
      InitRemoved(b, i);
    }
  }

  lemma InitRemoved(a: seq<Process>, i: nat)
    requires i < |a|
    ensures multiset(Init(a)) == multiset(Init(Without(a, i))) + multiset{Init([a[i]])[0]}
  {
    Removed(Init(a), i);
    assert Init(Without(a, i)) == Without(Init(a), i);
    assert Init(a)[i] == Init([a[i]])[0];
    assert Init(a)[i] in multiset(Init(a));
  }

  /** For the table handed in: if the test passes for any priority order of its rows, the simulator
      meets all deadlines, whenever they arrive; if they arrive together, that is exact. */
  lemma TableExact(ps: seq<Process>)
    requires Submitted(ps)
    ensures var sorted := Sort(Init(ps), ByPeriod());
            && ((exists order :: multiset(order) == multiset(ps) && AllPass(order)) ==> MeetsAllDeadlines(sorted))
            && (Synchronous(ps) ==>
                  (MeetsAllDeadlines(sorted) <==> exists order :: multiset(order) == multiset(ps) && AllPass(order)))
  {
    var sorted := Sort(Init(ps), ByPeriod());
    SortIsSortedPermutation(Init(ps), ByPeriod());
    var tasks := Originals(ps, sorted);
    hide Sort;
    InitTaskSet(ps);
    StillTasks(Init(ps), sorted);
    hide Passes, MeetsAllDeadlines, AllPass, Sorted;
    DeadlinesExact(sorted);
    InitPasses(tasks);
    if order :| multiset(order) == multiset(ps) && AllPass(order) {
      AnyOrderPasses(ps, order, sorted);
    }
    if Synchronous(ps) {
      assert Synchronous(sorted) by { StillTogether(ps, tasks); }
    }
  }

  lemma StillTasks(ps: seq<Process>, o: seq<Process>)
    requires TaskSet(ps) && multiset(o) == multiset(ps)
    ensures TaskSet(o)
  {
    forall i | 0 <= i < |o|
      ensures ValidTask(o[i])
    {
      assert o[i] in multiset(ps);
    }
  }

  lemma StillTogether(ps: seq<Process>, tasks: seq<Process>)
    requires Synchronous(ps) && multiset(tasks) == multiset(ps)
    ensures Synchronous(Init(tasks))
  {
    forall i | 0 <= i < |tasks|
      ensures tasks[i].arrivalTime == 0
    {
      assert tasks[i] in multiset(ps);
    }
  }

  lemma AnyOrderPasses(ps: seq<Process>, order: seq<Process>, sorted: seq<Process>)
    requires Submitted(ps) && multiset(order) == multiset(ps) && AllPass(order)
    requires multiset(sorted) == multiset(Init(ps)) && Sorted(sorted, ByPeriod())
    ensures AllPass(sorted)
  {
    hide Passes, Sorted;
    InitTaskSet(ps);
    InitSameRows(order, ps);
    StillTasks(Init(ps), Init(order));
    StillTasks(Init(ps), sorted);
    InitPasses(order);
    forall k | 0 <= k < |sorted|
      ensures Passes(sorted, k, sorted[k].period)
    {
      RmsPasses(sorted, Init(order), k);
    }
  }
}

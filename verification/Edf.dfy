/** The earliest-deadline-first simulator: the tick loop, and when it meets every deadline. */
module Edf {
  import opened ExchangeSort
  import opened Sums

  datatype Process = Process(
    id: int,
    executionTime: int,
    deadline: int,
    arrivalTime: int,
    remainingTime: int,
    period: int,
    nextDeadline: int)

  // ---------------------------------------------------------------- the simulator

  function ByDeadline(): (key: Process -> int)
  {
    (p: Process) => p.nextDeadline
  }

  predicate Ready(p: Process, time: int)
  {
    p.arrivalTime <= time && p.remainingTime > 0
  }

  /** One unit of execution; finishing a job sets up the job of the next period. */
  function Execute(p: Process): (r: Process)
  {
    if p.remainingTime - 1 == 0 then
      p.(remainingTime := p.executionTime,
         arrivalTime := p.arrivalTime + p.period,
         nextDeadline := p.nextDeadline + p.period)
    else
      p.(remainingTime := p.remainingTime - 1)
  }

  /** The first ready row at or after `i`, or `|ps|` when there is none. */
  function FirstReady(ps: seq<Process>, time: int, i: nat): (r: nat)
    requires i <= |ps|
    ensures i <= r <= |ps|
    ensures r < |ps| ==> Ready(ps[r], time)
    ensures forall k :: i <= k < r ==> !Ready(ps[k], time)
    decreases |ps| - i
  {
    if i == |ps| || Ready(ps[i], time) then i else FirstReady(ps, time, i + 1)
  }

  function Tick(ps: seq<Process>, time: int): (r: seq<Process>)
    ensures |r| == |ps|
  {
    var s := Sort(ps, ByDeadline());
    var i := FirstReady(s, time, 0);
    if i < |s| then s[i := Execute(s[i])] else s
  }

  /** The table after `t` ticks; every tick takes one unit of time, idle or not. */
  function Run(ps: seq<Process>, t: nat): (r: seq<Process>)
    ensures |r| == |ps|
  {
    if t == 0 then ps else Tick(Run(ps, t - 1), t - 1)
  }

  function Init(ps: seq<Process>): (r: seq<Process>)
    ensures |r| == |ps|
  {
    seq(|ps|, i requires 0 <= i < |ps| => ps[i].(nextDeadline := ps[i].deadline))
  }

  /** One trip of the tick loop: sort, then give one unit to the first ready process. */
  method TickInPlace(processes: array<Process>, time: int) returns (newTime: int)
    modifies processes
    ensures processes[..] == Tick(old(processes[..]), time)
    ensures newTime == time + 1
  {
    SortInPlace(processes, ByDeadline());
    ghost var s := processes[..];
    newTime := time;
    var i := 0;
    while i < processes.Length
      invariant 0 <= i <= processes.Length
      invariant processes[..] == s && newTime == time
      invariant FirstReady(s, time, 0) == FirstReady(s, time, i)
    {
      if processes[i].arrivalTime <= time && processes[i].remainingTime > 0 {
        processes[i] := processes[i].(remainingTime := processes[i].remainingTime - 1);
        newTime := newTime + 1;
        if processes[i].remainingTime == 0 {
          processes[i] := processes[i].(
            arrivalTime := processes[i].arrivalTime + processes[i].period,
            nextDeadline := processes[i].nextDeadline + processes[i].period,
            remainingTime := processes[i].executionTime);
        }
        assert processes[..] == s[i := Execute(s[i])];
        return;
      }
      i := i + 1;
    }
    newTime := newTime + 1;
  }

  // ---------------------------------------------------------------- what is to be proved

  /** The tables `main` builds: whole units of work, a positive period, nothing started yet. */
  predicate ValidTask(p: Process)
  {
    p.executionTime >= 1 && p.period >= 1 && p.arrivalTime >= 0
    && p.remainingTime == p.executionTime && p.nextDeadline == p.deadline
  }

  ghost predicate TaskSet(ps: seq<Process>)
  {
    forall p :: p in ps ==> ValidTask(p)
  }

  /** No job whose deadline has come is unfinished: the current job of `p` is the oldest
      unfinished one, and its deadline is `nextDeadline`. */
  ghost predicate OnTime(ps: seq<Process>, time: int)
  {
    forall p :: p in ps ==> p.nextDeadline > time
  }

  ghost predicate EdfMeetsAllDeadlines(ps: seq<Process>)
  {
    forall t: nat :: OnTime(Run(ps, t), t)
  }

  /** The work of the jobs of `p` that arrive at `release` or later and fall due by `due`. */
  function Window(p: Process, release: int, due: int): (w: int)
    requires p.period >= 1
    decreases due - p.nextDeadline
  {
    if p.nextDeadline > due then 0
    else (if p.arrivalTime >= release then p.executionTime else 0) + Window(NextJob(p), release, due)
  }

  function NextJob(p: Process): (r: Process)
  {
    p.(arrivalTime := p.arrivalTime + p.period, nextDeadline := p.nextDeadline + p.period,
       remainingTime := p.executionTime)
  }

  /** The work still owed to the jobs of `p` that fall due by `due`. */
  function Owed(p: Process, due: int): (w: int)
    requires p.period >= 1
    decreases due - p.nextDeadline
  {
    if p.nextDeadline > due then 0 else p.remainingTime + Owed(NextJob(p), due)
  }

  /** In no interval is more work both released and due than the interval has ticks. */
  ghost predicate DemandFits(ps: seq<Process>)
  {
    forall release: nat, due: nat :: release <= due ==> Sum(ps, WindowOf(release, due)) <= due - release
  }

  // ---------------------------------------------------------------- the work measures

  /** The work measures as functions of the process; a broken process (period < 1) owes nothing. */
  function WindowOf(release: int, due: int): (f: Process -> int)
  {
    (p: Process) => if p.period >= 1 then Window(p, release, due) else 0
  }

  function OwedBy(due: int): (f: Process -> int)
  {
    (p: Process) => if p.period >= 1 then Owed(p, due) else 0
  }

  // ---------------------------------------------------------------- any schedule

  /** A process as it can be at `time`: a job that has not arrived has not been started. */
  predicate Sane(p: Process, time: int)
  {
    p.period >= 1 && 1 <= p.remainingTime <= p.executionTime
    && (p.arrivalTime >= time ==> p.remainingTime == p.executionTime)
  }

  ghost predicate AllSane(ps: seq<Process>, time: int)
  {
    forall p :: p in ps ==> Sane(p, time)
  }

  /** A tick of any scheduler at all: idle, or one unit given to some ready process. */
  ghost predicate StepAt(s: seq<Process>, time: int, r: seq<Process>, i: nat)
  {
    i < |s| && Ready(s[i], time) && multiset(r) == multiset(s[i := Execute(s[i])])
  }

  ghost predicate AnyStep(s: seq<Process>, time: int, r: seq<Process>)
  {
    multiset(r) == multiset(s) || exists i: nat :: StepAt(s, time, r, i)
  }

  ghost predicate IsSchedule(sched: nat -> seq<Process>, ps: seq<Process>)
  {
    sched(0) == ps && forall t: nat :: AnyStep(sched(t), t, sched(t + 1))
  }

  ghost predicate MeetsAllDeadlines(sched: nat -> seq<Process>)
  {
    forall t: nat :: OnTime(sched(t), t)
  }

  /** The windows that open after `time` see only jobs nobody can have touched yet. */
  ghost predicate SameFuture(ps: seq<Process>, s: seq<Process>, time: int)
  {
    forall release: nat, due: int :: release >= time ==>
      Sum(s, WindowOf(release, due)) == Sum(ps, WindowOf(release, due))
  }

  /** A step takes at most one unit off what is owed, exactly one when it serves a job
      that falls due by `due`. */
  lemma ExecuteOwed(p: Process, time: int, due: int)
    requires Sane(p, time) && Ready(p, time)
    ensures Owed(Execute(p), due) == Owed(p, due) - (if p.nextDeadline <= due then 1 else 0)
    ensures Sane(Execute(p), time + 1)
  {
    if p.remainingTime == 1 {
      assert Execute(p) == NextJob(p);
      if p.nextDeadline > due {
        assert NextJob(p).nextDeadline > due;
      }
    } else {
      assert NextJob(Execute(p)) == NextJob(p);
    }
  }

  lemma ExecuteWindow(p: Process, time: int, release: int, due: int)
    requires Sane(p, time) && Ready(p, time) && release > time
    ensures Window(Execute(p), release, due) == Window(p, release, due)
  {
    if p.remainingTime == 1 {
      assert Execute(p) == NextJob(p);
    } else {
      WindowIgnoresRemaining(Execute(p), p, release, due);
    }
  }

  lemma {:induction false} WindowIgnoresRemaining(p: Process, q: Process, release: int, due: int)
    requires p == q.(remainingTime := p.remainingTime) && p.period >= 1
    ensures Window(p, release, due) == Window(q, release, due)
  {
    assert NextJob(p) == NextJob(q);
  }

  lemma StepKeepsSane(s: seq<Process>, time: int, r: seq<Process>)
    requires AllSane(s, time) && AnyStep(s, time, r)
    ensures AllSane(r, time + 1)
  {
    forall p | p in r
      ensures Sane(p, time + 1)
    {
      assert p in multiset(r);
      if multiset(r) == multiset(s) {
        assert p in s;
      } else {
        var i: nat :| StepAt(s, time, r, i);
        ExecuteOwed(s[i], time, 0);
        assert p in multiset(s[i := Execute(s[i])]);
        assert p in s || p == Execute(s[i]);
      }
    }
  }

  lemma StepKeepsFuture(ps: seq<Process>, s: seq<Process>, time: int, r: seq<Process>)
    requires AllSane(s, time) && AnyStep(s, time, r) && SameFuture(ps, s, time)
    ensures SameFuture(ps, r, time + 1)
  {
    forall release: nat, due: int | release >= time + 1
      ensures Sum(r, WindowOf(release, due)) == Sum(ps, WindowOf(release, due))
    {
      var f := WindowOf(release, due);
      if multiset(r) == multiset(s) {
        SumPermutation(r, s, f);
      } else {
        var i: nat :| StepAt(s, time, r, i);
        SumPermutation(r, s[i := Execute(s[i])], f);
        SumUpdate(s, f, i, Execute(s[i]));
        ExecuteWindow(s[i], time, release, due);
      }
    }
  }

  lemma StepOwesAtMostOneLess(s: seq<Process>, time: int, r: seq<Process>, due: int)
    requires AllSane(s, time) && AnyStep(s, time, r)
    ensures Sum(r, OwedBy(due)) >= Sum(s, OwedBy(due)) - 1
  {
    var f := OwedBy(due);
    if multiset(r) == multiset(s) {
      SumPermutation(r, s, f);
    } else {
      var i: nat :| StepAt(s, time, r, i);
      SumPermutation(r, s[i := Execute(s[i])], f);
      SumUpdate(s, f, i, Execute(s[i]));
      ExecuteOwed(s[i], time, due);
    }
  }

  lemma {:induction false} ScheduleInvariant(sched: nat -> seq<Process>, ps: seq<Process>, t: nat)
    requires TaskSet(ps) && IsSchedule(sched, ps)
    ensures AllSane(sched(t), t) && SameFuture(ps, sched(t), t)
  {
    if t > 0 {
      ScheduleInvariant(sched, ps, t - 1);
      assert AnyStep(sched(t - 1), t - 1, sched(t - 1 + 1));
      StepKeepsSane(sched(t - 1), t - 1, sched(t));
      StepKeepsFuture(ps, sched(t - 1), t - 1, sched(t));
    }
  }

  /** Work that is released no earlier than now and falls due by `due` is still owed. */
  lemma {:induction false} WindowIsOwed(p: Process, release: int, due: int)
    requires Sane(p, release)
    ensures Window(p, release, due) <= Owed(p, due)
    decreases due - p.nextDeadline
  {
    if p.nextDeadline <= due {
      WindowIsOwed(NextJob(p), release, due);
    }
  }

  lemma {:induction false} OwedNonNegative(p: Process, time: int, due: int)
    requires Sane(p, time)
    ensures Owed(p, due) >= 0
    ensures p.nextDeadline <= due ==> Owed(p, due) >= 1
    decreases due - p.nextDeadline
  {
    if p.nextDeadline <= due {
      OwedNonNegative(NextJob(p), time, due);
    }
  }

  lemma {:induction false} OwedShrinksSlowly(sched: nat -> seq<Process>, ps: seq<Process>, release: nat, t: nat, due: int)
    requires TaskSet(ps) && IsSchedule(sched, ps) && release <= t
    ensures Sum(sched(t), OwedBy(due)) >= Sum(sched(release), OwedBy(due)) - (t - release)
    decreases t - release
  {
    if release < t {
      OwedShrinksSlowly(sched, ps, release, t - 1, due);
      ScheduleInvariant(sched, ps, t - 1);
      assert AnyStep(sched(t - 1), t - 1, sched(t - 1 + 1));
      StepOwesAtMostOneLess(sched(t - 1), t - 1, sched(t), due);
    }
  }

  lemma NothingOwedWhenOnTime(s: seq<Process>, time: int)
    requires OnTime(s, time)
    ensures Sum(s, OwedBy(time)) <= 0
  {
    SumMonotone(s, OwedBy(time), Nothing());
    SumOfNothing(s);
  }

  function Nothing(): (f: Process -> int)
  {
    (p: Process) => 0
  }

  lemma {:induction false} SumOfNothing(s: seq<Process>)
    ensures Sum(s, Nothing()) == 0
  {
    if s != [] { SumOfNothing(s[1..]); }
  }

  /** Whatever the scheduler, meeting every deadline needs the demand to fit. */
  lemma DemandIsNecessary(sched: nat -> seq<Process>, ps: seq<Process>)
    requires TaskSet(ps) && IsSchedule(sched, ps) && MeetsAllDeadlines(sched)
    ensures DemandFits(ps)
  {
    forall release: nat, due: nat | release <= due
      ensures Sum(ps, WindowOf(release, due)) <= due - release
    {
      ScheduleInvariant(sched, ps, release);
      forall p | p in sched(release)
        ensures WindowOf(release, due)(p) <= OwedBy(due)(p)
      {
        WindowIsOwed(p, release, due);
      }
      SumMonotone(sched(release), WindowOf(release, due), OwedBy(due));
      OwedShrinksSlowly(sched, ps, release, due, due);
      NothingOwedWhenOnTime(sched(due), due);
    }
  }

  // ---------------------------------------------------------------- earliest deadline first

  function EdfSchedule(ps: seq<Process>): (sched: nat -> seq<Process>)
  {
    (t: nat) => Run(ps, t)
  }

  lemma TickIsAStep(s: seq<Process>, time: int)
    ensures AnyStep(s, time, Tick(s, time))
  {
    var o := Sort(s, ByDeadline());
    SortIsSortedPermutation(s, ByDeadline());
    var i := FirstReady(o, time, 0);
    if i < |o| {
      assert o[i] in multiset(s);
      var k :| 0 <= k < |s| && s[k] == o[i];
      assert multiset(o[i := Execute(o[i])]) == multiset(o) - multiset{o[i]} + multiset{Execute(o[i])};
      assert multiset(s[k := Execute(s[k])]) == multiset(s) - multiset{s[k]} + multiset{Execute(s[k])};
      assert StepAt(s, time, Tick(s, time), k);
    }
  }

  lemma EdfIsASchedule(ps: seq<Process>)
    ensures IsSchedule(EdfSchedule(ps), ps)
  {
    forall t: nat
      ensures AnyStep(EdfSchedule(ps)(t), t, EdfSchedule(ps)(t + 1))
    {
      TickIsAStep(Run(ps, t), t);
    }
  }

  /** What is owed by any later time still fits into the ticks left until then. */
  ghost predicate OwedFits(s: seq<Process>, time: int)
  {
    forall due: int :: due >= time ==> Sum(s, OwedBy(due)) <= due - time
  }

  lemma {:induction false} UnarrivedOwesItsWindow(p: Process, release: int, due: int)
    requires Sane(p, release) && p.arrivalTime >= release
    ensures Owed(p, due) == Window(p, release, due)
    decreases due - p.nextDeadline
  {
    if p.nextDeadline <= due {
      UnarrivedOwesItsWindow(NextJob(p), release, due);
    }
  }

  lemma {:induction false} WindowNonNegative(p: Process, release: int, due: int)
    requires p.period >= 1 && p.executionTime >= 0
    ensures Window(p, release, due) >= 0
    decreases due - p.nextDeadline
  {
    if p.nextDeadline <= due { WindowNonNegative(NextJob(p), release, due); }
  }

  /** When every process that falls due by `due` has yet to arrive, the demand test bounds what is owed. */
  lemma UnservedOwes(ps: seq<Process>, s: seq<Process>, time: nat, due: nat)
    requires AllSane(s, time) && SameFuture(ps, s, time) && DemandFits(ps)
    requires due >= time + 1
    requires forall p :: p in s && p.nextDeadline <= due ==> p.arrivalTime > time
    ensures Sum(s, OwedBy(due)) <= due - (time + 1)
  {
    forall p | p in s
      ensures OwedBy(due)(p) <= WindowOf(time + 1, due)(p)
    {
      if p.nextDeadline <= due {
        UnarrivedOwesItsWindow(p, time + 1, due);
      } else {
        WindowNonNegative(p, time + 1, due);
      }
    }
    SumMonotone(s, OwedBy(due), WindowOf(time + 1, due));
  }

  lemma SameFutureOfPermutation(ps: seq<Process>, s: seq<Process>, o: seq<Process>, time: int)
    requires multiset(o) == multiset(s) && SameFuture(ps, s, time)
    ensures SameFuture(ps, o, time)
  {
    forall release: nat, due: int | release >= time
      ensures Sum(o, WindowOf(release, due)) == Sum(ps, WindowOf(release, due))
    {
      SumPermutation(o, s, WindowOf(release, due));
    }
  }

  lemma SortedAt(o: seq<Process>, key: Process -> int, i: nat, k: nat)
    requires Sorted(o, key) && i <= k < |o|
    ensures key(o[i]) <= key(o[k])
  {
  }

  /** Serving the first ready process of a sorted table: either that process falls due by `due`
      and a unit is paid, or nothing that falls due by then could run. */
  lemma ServeFirstReady(ps: seq<Process>, o: seq<Process>, time: nat, due: int)
    requires AllSane(o, time) && SameFuture(ps, o, time) && DemandFits(ps)
    requires Sorted(o, ByDeadline()) && due >= time + 1
    requires Sum(o, OwedBy(due)) <= due - time
    ensures var i := FirstReady(o, time, 0);
            Sum(if i < |o| then o[i := Execute(o[i])] else o, OwedBy(due)) <= due - (time + 1)
  {
    var i := FirstReady(o, time, 0);
    if i < |o| {
      SumUpdate(o, OwedBy(due), i, Execute(o[i]));
      ExecuteOwed(o[i], time, due);
    }
    if i == |o| || o[i].nextDeadline > due {
      forall p | p in o && p.nextDeadline <= due
        ensures p.arrivalTime > time
      {
        var k :| 0 <= k < |o| && o[k] == p;
        if i <= k {
          SortedAt(o, ByDeadline(), i, k);
        }
      }
      UnservedOwes(ps, o, time, due);
    }
  }

  lemma TickKeepsOwedFits(ps: seq<Process>, s: seq<Process>, time: nat)
    requires AllSane(s, time) && SameFuture(ps, s, time) && DemandFits(ps)
    requires OwedFits(s, time)
    ensures OwedFits(Tick(s, time), time + 1)
  {
    var o := Sort(s, ByDeadline());
    SortIsSortedPermutation(s, ByDeadline());
    forall p | p in o
      ensures p in s
    {
      assert p in multiset(o) && p in multiset(s);
    }
    SameFutureOfPermutation(ps, s, o, time);
    forall due: int | due >= time + 1
      ensures Sum(Tick(s, time), OwedBy(due)) <= due - (time + 1)
    {
      SumPermutation(o, s, OwedBy(due));
      ServeFirstReady(ps, o, time, due);
    }
  }

  lemma {:induction false} EdfKeepsOwedFits(ps: seq<Process>, t: nat)
    requires TaskSet(ps) && DemandFits(ps)
    ensures OwedFits(Run(ps, t), t)
  {
    if t == 0 {
      forall due: int | due >= 0
        ensures Sum(ps, OwedBy(due)) <= due
      {
        forall p | p in ps
          ensures OwedBy(due)(p) <= WindowOf(0, due)(p)
        {
          UnarrivedOwesItsWindow(p, 0, due);
        }
        SumMonotone(ps, OwedBy(due), WindowOf(0, due));
      }
    } else {
      EdfKeepsOwedFits(ps, t - 1);
      EdfIsASchedule(ps);
      ScheduleInvariant(EdfSchedule(ps), ps, t - 1);
      TickKeepsOwedFits(ps, Run(ps, t - 1), t - 1);
    }
  }

  lemma DemandIsSufficient(ps: seq<Process>)
    requires TaskSet(ps) && DemandFits(ps)
    ensures EdfMeetsAllDeadlines(ps)
  {
    EdfIsASchedule(ps);
    forall t: nat
      ensures OnTime(Run(ps, t), t)
    {
      EdfKeepsOwedFits(ps, t);
      ScheduleInvariant(EdfSchedule(ps), ps, t);
      forall p | p in Run(ps, t)
        ensures p.nextDeadline > t
      {
        forall q | q in Run(ps, t) ensures OwedBy(t)(q) >= 0 { OwedNonNegative(q, t, t); }
        OwedNonNegative(p, t, t);
        SumPositive(Run(ps, t), OwedBy(t), p);
      }
    }
  }

  /** The simulator never misses a deadline exactly when the demand of every interval fits
      into it, for any deadlines at all. */
  lemma EdfExact(ps: seq<Process>)
    requires TaskSet(ps)
    ensures EdfMeetsAllDeadlines(ps) <==> DemandFits(ps)
  {
    if EdfMeetsAllDeadlines(ps) {
      EdfIsASchedule(ps);
      assert MeetsAllDeadlines(EdfSchedule(ps));
      DemandIsNecessary(EdfSchedule(ps), ps);
    }
    if DemandFits(ps) {
      DemandIsSufficient(ps);
    }
  }

  /** If any way of giving out the ticks meets every deadline, so does the simulator. */
  lemma EdfIsOptimal(ps: seq<Process>, sched: nat -> seq<Process>)
    requires TaskSet(ps) && IsSchedule(sched, ps) && MeetsAllDeadlines(sched)
    ensures EdfMeetsAllDeadlines(ps)
  {
    DemandIsNecessary(sched, ps);
    DemandIsSufficient(ps);
  }

  // ---------------------------------------------------------------- the utilization test

  function Load(p: Process): (u: real)
  {
    if p.period >= 1 then p.executionTime as real / p.period as real else 0.0
  }

  function SumReal(ps: seq<Process>, f: Process -> real): (r: real)
  {
    if ps == [] then 0.0 else f(ps[0]) + SumReal(ps[1..], f)
  }

  function LoadOf(): (f: Process -> real)
  {
    (p: Process) => Load(p)
  }

  /** The exact sum of the utilization factors. */
  function Utilization(ps: seq<Process>): (u: real)
  {
    SumReal(ps, LoadOf())
  }

  /** Each job is given at least one period. */
  ghost predicate RelaxedDeadlines(ps: seq<Process>)
  {
    forall p :: p in ps ==> p.deadline >= p.arrivalTime + p.period
  }

  function Later(a: int, b: int): (r: int)
  {
    if a < b then b else a
  }

  lemma LoadOfOnePeriod(p: Process, a: real)
    requires p.period >= 1
    ensures Load(p) * a == p.executionTime as real + Load(p) * (a - p.period as real)
  {
    assert Load(p) * p.period as real == p.executionTime as real;
    assert Load(p) * a == Load(p) * p.period as real + Load(p) * (a - p.period as real);
  }

  lemma LoadMonotone(p: Process, a: int, b: int)
    requires p.period >= 1 && p.executionTime >= 0 && a <= b
    ensures Load(p) * a as real <= Load(p) * b as real
  {
    assert Load(p) >= 0.0;
  }

  lemma {:induction false} WindowUpper(p: Process, release: int, due: int)
    requires p.period >= 1 && p.executionTime >= 0
    requires p.nextDeadline >= p.arrivalTime + p.period
    ensures Window(p, release, due) == 0
            || (Later(p.arrivalTime, release) <= due
                && Window(p, release, due) as real <= Load(p) * (due - Later(p.arrivalTime, release)) as real)
    decreases due - p.nextDeadline
  {
    if p.nextDeadline <= due {
      var q := NextJob(p);
      WindowUpper(q, release, due);
      LoadOfOnePeriod(p, (due - p.arrivalTime) as real);
      LoadMonotone(p, 0, due - p.arrivalTime - p.period);
      if p.arrivalTime < release && Window(q, release, due) != 0 {
        LoadMonotone(p, due - Later(q.arrivalTime, release), due - release);
      }
      if p.arrivalTime >= release && Window(q, release, due) != 0 {
        assert Later(q.arrivalTime, release) == p.arrivalTime + p.period;
      }
    }
  }

  lemma {:induction false} WindowLower(p: Process, due: int)
    requires p.period >= 1 && p.executionTime >= 0 && p.arrivalTime >= 0
    ensures Window(p, 0, due) as real >= Load(p) * (due - p.nextDeadline) as real
    decreases due - p.nextDeadline
  {
    if p.nextDeadline > due {
      LoadMonotone(p, due - p.nextDeadline, 0);
    } else {
      WindowLower(NextJob(p), due);
      LoadOfOnePeriod(p, (due - p.nextDeadline) as real);
    }
  }

  lemma WindowWithinLoad(p: Process, release: int, due: int)
    requires ValidTask(p) && p.deadline >= p.arrivalTime + p.period && release <= due
    ensures Window(p, release, due) as real <= Load(p) * (due - release) as real
  {
    WindowUpper(p, release, due);
    LoadMonotone(p, 0, due - release);
    if Later(p.arrivalTime, release) <= due {
      LoadMonotone(p, due - Later(p.arrivalTime, release), due - release);
    }
  }

  function LoadTimes(x: real): (f: Process -> real)
  {
    (p: Process) => Load(p) * x
  }

  function LoadTimesDeadline(): (f: Process -> real)
  {
    (p: Process) => Load(p) * p.nextDeadline as real
  }

  lemma Distribute(a: real, b: real, c: real)
    ensures (a + b) * c == a * c + b * c
  {
  }

  lemma {:induction false} SumScales(ps: seq<Process>, f: Process -> real, g: Process -> real, x: real)
    requires forall p :: g(p) == f(p) * x
    ensures SumReal(ps, g) == SumReal(ps, f) * x
  {
    if ps != [] {
      SumScales(ps[1..], f, g, x);
      Distribute(f(ps[0]), SumReal(ps[1..], f), x);
    }
  }

  lemma {:induction false} SumBelow(ps: seq<Process>, w: Process -> int, g: Process -> real)
    requires forall p :: p in ps ==> w(p) as real <= g(p)
    ensures Sum(ps, w) as real <= SumReal(ps, g)
  {
    if ps != [] { SumBelow(ps[1..], w, g); }
  }

  lemma {:induction false} SumAbove(ps: seq<Process>, w: Process -> int, g: Process -> real, h: Process -> real)
    requires forall p :: p in ps ==> w(p) as real >= g(p) - h(p)
    ensures Sum(ps, w) as real >= SumReal(ps, g) - SumReal(ps, h)
  {
    if ps != [] { SumAbove(ps[1..], w, g, h); }
  }

  lemma UtilizationScales(ps: seq<Process>, x: real)
    ensures SumReal(ps, LoadTimes(x)) == Utilization(ps) * x
  {
    SumScales(ps, LoadOf(), LoadTimes(x), x);
  }

  lemma DemandUpper(ps: seq<Process>, release: int, due: int)
    requires TaskSet(ps) && RelaxedDeadlines(ps) && release <= due
    ensures Sum(ps, WindowOf(release, due)) as real <= SumReal(ps, LoadTimes((due - release) as real))
  {
    hide Load;
    var w, g := WindowOf(release, due), LoadTimes((due - release) as real);
    forall p | p in ps
      ensures w(p) as real <= g(p)
    {
      WindowWithinLoad(p, release, due);
    }
    SumBelow(ps, w, g);
  }

  lemma WindowLowerSplit(p: Process, due: int)
    requires ValidTask(p)
    ensures Window(p, 0, due) as real >= Load(p) * due as real - Load(p) * p.nextDeadline as real
  {
    WindowLower(p, due);
    Distribute(due as real - p.nextDeadline as real, p.nextDeadline as real, Load(p));
  }

  lemma DemandLower(ps: seq<Process>, due: int)
    requires TaskSet(ps)
    ensures Sum(ps, WindowOf(0, due)) as real
            >= SumReal(ps, LoadTimes(due as real)) - SumReal(ps, LoadTimesDeadline())
  {
    hide Load;
    var w, g, h := WindowOf(0, due), LoadTimes(due as real), LoadTimesDeadline();
    forall p | p in ps
      ensures w(p) as real >= g(p) - h(p)
    {
      WindowLowerSplit(p, due);
    }
    SumAbove(ps, w, g, h);
  }

  lemma Outgrows(slope: real, c: real) returns (n: nat)
    requires slope > 0.0
    ensures slope * n as real > c
  {
    var q := c / slope;
    n := if q < 0.0 then 0 else q.Floor + 1;
    assert n as real > q;
    assert slope * q == c;
    assert slope * (n as real - q) > 0.0;
    assert slope * n as real == slope * q + slope * (n as real - q);
  }

  lemma LowUtilizationWindow(ps: seq<Process>, release: int, due: int)
    requires TaskSet(ps) && RelaxedDeadlines(ps) && Utilization(ps) <= 1.0 && release <= due
    ensures Sum(ps, WindowOf(release, due)) <= due - release
  {
    hide *;
    DemandUpper(ps, release, due);
    UtilizationScales(ps, (due - release) as real);
    ScaleDown(Sum(ps, WindowOf(release, due)), Utilization(ps), due - release);
  }

  lemma LowUtilizationFits(ps: seq<Process>)
    requires TaskSet(ps) && RelaxedDeadlines(ps) && Utilization(ps) <= 1.0
    ensures DemandFits(ps)
  {
    forall release: nat, due: nat | release <= due
      ensures Sum(ps, WindowOf(release, due)) <= due - release
    {
      LowUtilizationWindow(ps, release, due);
    }
  }

  lemma ScaleDown(sum: int, u: real, n: int)
    requires u <= 1.0 && n >= 0 && sum as real <= u * n as real
    ensures sum <= n
  {
    assert u * n as real <= n as real;
  }

  lemma ScaleUp(sum: int, u: real, n: int, c: real)
    requires sum as real >= u * n as real - c && (u - 1.0) * n as real > c
    ensures sum > n
  {
    Distribute(u - 1.0, 1.0, n as real);
  }

  lemma HighUtilizationWindow(ps: seq<Process>) returns (n: nat)
    requires TaskSet(ps) && Utilization(ps) > 1.0
    ensures Sum(ps, WindowOf(0, n)) > n
  {
    hide *;
    var u, c := Utilization(ps), SumReal(ps, LoadTimesDeadline());
    n := Outgrows(u - 1.0, c);
    DemandLower(ps, n);
    UtilizationScales(ps, n as real);
    ScaleUp(Sum(ps, WindowOf(0, n)), u, n, c);
  }

  lemma HighUtilizationOverflows(ps: seq<Process>)
    requires TaskSet(ps) && Utilization(ps) > 1.0
    ensures !DemandFits(ps)
  {
    var n := HighUtilizationWindow(ps);
    assert Sum(ps, WindowOf(0, n)) > n - 0;
  }

  /** The law the simulator is sold on: when every job may take a whole period, deadlines are
      all met if and only if the utilizations sum to at most one. */
  lemma EdfUtilizationExact(ps: seq<Process>)
    requires TaskSet(ps) && RelaxedDeadlines(ps)
    ensures EdfMeetsAllDeadlines(ps) <==> Utilization(ps) <= 1.0
  {
    EdfExact(ps);
    if Utilization(ps) <= 1.0 {
      LowUtilizationFits(ps);
    } else {
      HighUtilizationOverflows(ps);
    }
  }

  /** Utilization alone is not enough: with deadlines shorter than the period, two tasks of
      utilization one half each collide at the first tick. */
  lemma ShortDeadlinesCanMiss() returns (ps: seq<Process>)
    ensures TaskSet(ps) && Utilization(ps) <= 1.0 && !EdfMeetsAllDeadlines(ps)
  {
    var a := Process(1, 1, 1, 0, 1, 2, 1);
    var b := a.(id := 2);
    ps := [a, b];
    assert ps[1..] == [b];
    assert SumReal([b], LoadOf()) == Load(b) + SumReal([], LoadOf());
    assert Load(a) == 0.5 && Load(b) == 0.5;
    var f := WindowOf(0, 1);
    assert Window(NextJob(a), 0, 1) == 0 && Window(NextJob(b), 0, 1) == 0;
    assert f(a) == 1 && f(b) == 1;
    assert Sum(ps, f) == f(a) + (f(b) + Sum([], f));
    assert !DemandFits(ps);
    EdfExact(ps);
  }

  // ---------------------------------------------------------------- job by job

  /** Row `p` of the run came from row `task` of the input, a whole number of jobs on. */
  ghost predicate Descends(p: Process, task: Process, done: nat)
  {
    p.period == task.period && p.executionTime == task.executionTime && p.id == task.id
    && p.nextDeadline == task.deadline + done * task.period
    && p.arrivalTime == task.arrivalTime + done * task.period
  }

  lemma ExecuteDescends(p: Process, task: Process, done: nat) returns (later: nat)
    requires Descends(p, task, done)
    ensures Descends(Execute(p), task, later)
  {
    if p.remainingTime == 1 {
      later := done + 1;
      assert later * task.period == done * task.period + task.period;
    } else {
      later := done;
    }
  }

  lemma {:induction false} RunDescends(ps: seq<Process>, t: nat, p: Process) returns (task: Process, done: nat)
    requires TaskSet(ps) && p in Run(ps, t)
    ensures task in ps && Descends(p, task, done)
  {
    if t == 0 {
      task, done := p, 0;
    } else {
      var s := Run(ps, t - 1);
      var q := TickOrigin(s, t - 1, p);
      task, done := RunDescends(ps, t - 1, q);
      if p != q {
        done := ExecuteDescends(q, task, done);
      }
    }
  }

  lemma TickOrigin(s: seq<Process>, time: int, p: Process) returns (q: Process)
    requires p in Tick(s, time)
    ensures q in s && (p == q || p == Execute(q))
  {
    TickIsAStep(s, time);
    assert p in multiset(Tick(s, time));
    if p in s {
      q := p;
    } else {
      var i: nat :| StepAt(s, time, Tick(s, time), i);
      assert p in multiset(s[i := Execute(s[i])]);
      q := s[i];
    }
  }

  /** When the demand fits, at time `t` the `k`-th job of a task has been completed if it was
      due by `t`: the number of completed jobs is past `k`. */
  lemma DueJobsAreComplete(ps: seq<Process>, t: nat, p: Process, k: nat) returns (task: Process, done: nat)
    requires TaskSet(ps) && DemandFits(ps) && p in Run(ps, t)
    ensures task in ps && Descends(p, task, done)
    ensures task.deadline + k * task.period <= t ==> k < done
  {
    task, done := RunDescends(ps, t, p);
    DemandIsSufficient(ps);
    assert OnTime(Run(ps, t), t);
    if k >= done {
      NoMoreJobs(done, k, task.period);
    }
  }

  lemma NoMoreJobs(a: nat, b: nat, period: int)
    requires a <= b && period >= 1
    ensures a * period <= b * period
  {
  }

  // ---------------------------------------------------------------- the table the caller hands in

  /** The rows `main` fills in: whole units of work, a positive period, nothing started yet. What
      the field for the next deadline holds does not matter. */
  ghost predicate Submitted(ps: seq<Process>)
  {
    forall p :: p in ps ==>
      p.executionTime >= 1 && p.period >= 1 && p.arrivalTime >= 0 && p.remainingTime == p.executionTime
  }

  /** The work of the jobs from the `k`-th on that arrive at `release` or later and fall due by
      `due`, where the `k`-th job arrives and falls due `k` periods after the first. */
  function WorkDue(p: Process, k: nat, release: int, due: int): (w: int)
    requires p.period >= 1
    decreases due - p.deadline - k * p.period
  {
    if p.deadline + k * p.period > due then 0
    else
      assert (k + 1) * p.period == k * p.period + p.period;
      (if p.arrivalTime + k * p.period >= release then p.executionTime else 0) + WorkDue(p, k + 1, release, due)
  }

  function WorkDueOf(release: int, due: int): (f: Process -> int)
  {
    (p: Process) => if p.period >= 1 then WorkDue(p, 0, release, due) else 0
  }

  /** In no interval is more work both released and due than the interval has ticks. */
  ghost predicate WorkFits(ps: seq<Process>)
  {
    forall release: nat, due: nat :: release <= due ==> Sum(ps, WorkDueOf(release, due)) <= due - release
  }

  lemma {:induction false} WindowIsWork(p: Process, task: Process, k: nat, release: int, due: int)
    requires task.period >= 1 && Descends(p, task, k)
    ensures Window(p, release, due) == WorkDue(task, k, release, due)
    decreases due - p.nextDeadline
  {
    if p.nextDeadline <= due {
      assert (k + 1) * task.period == k * task.period + task.period;
      WindowIsWork(NextJob(p), task, k + 1, release, due);
    }
  }

  lemma InitTaskSet(ps: seq<Process>)
    requires Submitted(ps)
    ensures TaskSet(Init(ps))
  {
    forall p | p in Init(ps)
      ensures ValidTask(p)
    {
      var i :| 0 <= i < |ps| && Init(ps)[i] == p;
      assert ps[i] in ps;
    }
  }

  lemma {:induction false} InitSum(ps: seq<Process>, release: int, due: int)
    ensures Sum(Init(ps), WindowOf(release, due)) == Sum(ps, WorkDueOf(release, due))
  {
    if ps != [] {
      assert Init(ps)[1..] == Init(ps[1..]);
      InitSum(ps[1..], release, due);
      if ps[0].period >= 1 { WindowIsWork(Init(ps)[0], ps[0], 0, release, due); }
    }
  }

  lemma InitDemand(ps: seq<Process>)
    ensures DemandFits(Init(ps)) <==> WorkFits(ps)
  {
    forall release: nat, due: nat
      ensures Sum(Init(ps), WindowOf(release, due)) == Sum(ps, WorkDueOf(release, due))
    {
      InitSum(ps, release, due);
    }
  }

  /** For the table handed in, whatever its field for the next deadline holds: the simulator never
      misses a deadline if and only if the work of every interval fits. */
  lemma TableExact(ps: seq<Process>)
    requires Submitted(ps)
    ensures EdfMeetsAllDeadlines(Init(ps)) <==> WorkFits(ps)
  {
    InitTaskSet(ps);
    InitDemand(ps);
    EdfExact(Init(ps));
  }

  lemma {:induction false} InitUtilization(ps: seq<Process>)
    ensures Utilization(Init(ps)) == Utilization(ps)
  {
    if ps != [] {
      assert Init(ps)[1..] == Init(ps[1..]);
      InitUtilization(ps[1..]);
    }
  }

  /** The same for the utilization test: with deadlines of at least a period. */
  lemma TableUtilizationExact(ps: seq<Process>)
    requires Submitted(ps) && RelaxedDeadlines(ps)
    ensures EdfMeetsAllDeadlines(Init(ps)) <==> Utilization(ps) <= 1.0
  {
    InitTaskSet(ps);
    InitUtilization(ps);
    assert RelaxedDeadlines(Init(ps)) by {
      forall p | p in Init(ps)
        ensures p.deadline >= p.arrivalTime + p.period
      {
        var i :| 0 <= i < |ps| && Init(ps)[i] == p;
        assert ps[i] in ps;
      }
    }
    EdfUtilizationExact(Init(ps));
  }

  lemma TableOnTime(ps: seq<Process>, t: nat)
    requires Submitted(ps) && WorkFits(ps)
    ensures OnTime(Run(Init(ps), t), t)
  {
    TableExact(ps);
  }

  /** A whole number of jobs of `task` on. */
  ghost predicate SomeJobsOn(p: Process, task: Process)
  {
    exists done: nat :: Descends(p, task, done)
  }

  ghost predicate Paired(rs: seq<Process>, tasks: seq<Process>)
  {
    |tasks| == |rs| && forall i :: 0 <= i < |rs| ==> SomeJobsOn(rs[i], tasks[i])
  }

  /** Every row comes from a row of the input of its own, a whole number of jobs on. */
  ghost predicate Descended(ps: seq<Process>, rs: seq<Process>)
  {
    exists tasks :: multiset(tasks) == multiset(ps) && Paired(rs, tasks)
  }

  lemma {:induction false} TableDescends(ps: seq<Process>, t: nat)
    ensures Descended(ps, Run(Init(ps), t))
  {
    if t == 0 {
      forall i | 0 <= i < |ps|
        ensures SomeJobsOn(Init(ps)[i], ps[i])
      {
        assert Descends(Init(ps)[i], ps[i], 0);
      }
      assert Paired(Init(ps), ps);
    } else {
      TableDescends(ps, t - 1);
      TickDescends(ps, Run(Init(ps), t - 1), t - 1);
    }
  }

  lemma TickDescends(ps: seq<Process>, s: seq<Process>, time: int)
    requires Descended(ps, s)
    ensures Descended(ps, Tick(s, time))
  {
    hide SomeJobsOn, Sort, Execute;
    var tasks :| multiset(tasks) == multiset(ps) && Paired(s, tasks);
    var o := Sort(s, ByDeadline());
    SortIsSortedPermutation(s, ByDeadline());
    tasks := Reorder(s, tasks, o);
    var i := FirstReady(o, time, 0);
    if i < |o| { ExecuteOn(o[i], tasks[i]); }
    assert Paired(Tick(s, time), tasks);
  }

  lemma ExecuteOn(p: Process, task: Process)
    requires SomeJobsOn(p, task)
    ensures SomeJobsOn(Execute(p), task)
  {
    var done: nat :| Descends(p, task, done);
    var later := ExecuteDescends(p, task, done);
  }

  method EdfScheduling(processes: array<Process>, totalTime: int)
    modifies processes
    ensures processes[..] == Run(Init(old(processes[..])), if totalTime < 0 then 0 else totalTime)
    ensures Descended(old(processes[..]), processes[..])
    ensures totalTime >= 0 && Submitted(old(processes[..])) && WorkFits(old(processes[..])) ==>
              forall i :: 0 <= i < processes.Length ==> processes[i].nextDeadline > totalTime
  {
    hide Descended, Submitted, WorkFits;
    for i := 0 to processes.Length
      invariant forall k :: 0 <= k < i ==>
                  processes[k] == old(processes[k]).(nextDeadline := old(processes[k].deadline))
      invariant forall k :: i <= k < processes.Length ==> processes[k] == old(processes[k])
    {
      processes[i] := processes[i].(nextDeadline := processes[i].deadline);
    }
    ghost var start := processes[..];
    assert start == Init(old(processes[..]));
    var time := 0;
    while time < totalTime
      invariant 0 <= time
      invariant time <= if totalTime < 0 then 0 else totalTime
      invariant processes[..] == Run(start, time)
    {
      time := TickInPlace(processes, time);
    }
    ghost var ps, t: nat := old(processes[..]), if totalTime < 0 then 0 else totalTime;
    TableDescends(ps, t);
    if totalTime >= 0 && Submitted(ps) && WorkFits(ps) {
      TableOnTime(ps, t);
      assert forall i :: 0 <= i < processes.Length ==> processes[i] in processes[..];
    }
  }
}

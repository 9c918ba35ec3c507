/** The rate-monotonic simulator: fixed priorities by period, and when each process is on time. */
module Rms {
  import opened ExchangeSort
  import opened Sums

  datatype Process = Process(
    id: int,
    executionTime: int,
    period: int,
    arrivalTime: int,
    remainingTime: int,
    nextArrival: int)

  // ---------------------------------------------------------------- the simulator

  function ByPeriod(): (key: Process -> int)
  {
    (p: Process) => p.period
  }

  predicate Ready(p: Process, time: int)
  {
    p.nextArrival <= time && p.remainingTime > 0
  }

  function Execute(p: Process): (r: Process)
  {
    if p.remainingTime - 1 == 0 then
      p.(remainingTime := p.executionTime, nextArrival := p.nextArrival + p.period)
    else
      p.(remainingTime := p.remainingTime - 1)
  }

  /** The first ready row at or after `i`, or `|ps|` when there is none. */
  function FirstReady(ps: seq<Process>, time: int, i: nat): (r: nat)
    requires i <= |ps|
    ensures i <= r <= |ps|
    ensures r < |ps| ==> Ready(ps[r], time)
    ensures forall k :: i <= k < r ==> !Ready(ps[k], time)
    decreases |ps| - i
  {
    if i == |ps| || Ready(ps[i], time) then i else FirstReady(ps, time, i + 1)
  }

  function Tick(ps: seq<Process>, time: int): (r: seq<Process>)
    ensures |r| == |ps|
  {
    var i := FirstReady(ps, time, 0);
    if i < |ps| then ps[i := Execute(ps[i])] else ps
  }

  /** The table after `t` ticks; every tick takes one unit of time, idle or not. */
  function Run(ps: seq<Process>, t: nat): (r: seq<Process>)
    ensures |r| == |ps|
  {
    if t == 0 then ps else Tick(Run(ps, t - 1), t - 1)
  }

  function Init(ps: seq<Process>): (r: seq<Process>)
    ensures |r| == |ps|
  {
    seq(|ps|, i requires 0 <= i < |ps| =>
      ps[i].(nextArrival := ps[i].arrivalTime, remainingTime := ps[i].executionTime))
  }

  /** One trip of the tick loop. */
  method TickInPlace(processes: array<Process>, time: int) returns (newTime: int)
    modifies processes
    ensures processes[..] == Tick(old(processes[..]), time)
    ensures newTime == time + 1
  {
    ghost var s := processes[..];
    newTime := time;
    var i := 0;
    while i < processes.Length
      invariant 0 <= i <= processes.Length
      invariant processes[..] == s && newTime == time
      invariant FirstReady(s, time, 0) == FirstReady(s, time, i)
    {
      if processes[i].nextArrival <= time && processes[i].remainingTime > 0 {
        processes[i] := processes[i].(remainingTime := processes[i].remainingTime - 1);
        newTime := newTime + 1;
        if processes[i].remainingTime == 0 {
          processes[i] := processes[i].(
            nextArrival := processes[i].nextArrival + processes[i].period,
            remainingTime := processes[i].executionTime);
        }
        assert processes[..] == s[i := Execute(s[i])];
        return;
      }
      i := i + 1;
    }
    newTime := newTime + 1;
  }

  // ---------------------------------------------------------------- non-interference

  lemma {:induction false} FirstReadyOfPrefix(ps: seq<Process>, k: nat, time: int, i: nat)
    requires i <= k <= |ps|
    ensures var f := FirstReady(ps, time, i); FirstReady(ps[..k], time, i) == if f < k then f else k
    decreases k - i
  {
    if i < k && !Ready(ps[i], time) { FirstReadyOfPrefix(ps, k, time, i + 1); }
  }

  lemma TickOfPrefix(ps: seq<Process>, k: nat, time: int)
    requires k <= |ps|
    ensures Tick(ps, time)[..k] == Tick(ps[..k], time)
  {
    FirstReadyOfPrefix(ps, k, time, 0);
  }

  /** The first `k` processes evolve tick for tick as if the others were absent. */
  lemma {:induction false} PrefixRunsAlone(ps: seq<Process>, k: nat, t: nat)
    requires k <= |ps|
    ensures Run(ps, t)[..k] == Run(ps[..k], t)
  {
    if t > 0 {
      PrefixRunsAlone(ps, k, t - 1);
      TickOfPrefix(Run(ps, t - 1), k, t - 1);
    }
  }

  // ---------------------------------------------------------------- one process over time

  /** A process set up by the first loop, with whole units of work and a positive period. */
  predicate ValidTask(p: Process)
  {
    && p.executionTime >= 1 && p.period >= 1 && p.arrivalTime >= 0
    && p.remainingTime == p.executionTime && p.nextArrival == p.arrivalTime
  }

  ghost predicate TaskSet(ps: seq<Process>)
  {
    forall i :: 0 <= i < |ps| ==> ValidTask(ps[i])
  }

  /** Where process `p` can be at time `time` of a run in which it started as `o`. */
  predicate Sane(o: Process, p: Process, time: int)
  {
    && p.executionTime == o.executionTime && p.period == o.period && p.nextArrival >= o.nextArrival
    && 1 <= p.remainingTime <= p.executionTime && (p.nextArrival >= time ==> p.remainingTime == p.executionTime)
  }

  lemma {:induction false} RunSane(ps: seq<Process>, t: nat, i: nat)
    requires TaskSet(ps) && i < |ps|
    ensures Sane(ps[i], Run(ps, t)[i], t)
  {
    if t > 0 { RunSane(ps, t - 1, i); }
  }

  /** What one tick does to process `i`. */
  lemma TickAt(ps: seq<Process>, time: int, i: nat)
    requires i < |ps|
    ensures Tick(ps, time)[i] == if FirstReady(ps, time, 0) == i then Execute(ps[i]) else ps[i]
  {
  }

  /** Whole periods between two arrivals. */
  lemma {:induction false} ArrivalsStep(ps: seq<Process>, k: nat, t: nat, u: nat) returns (jobs: nat)
    requires TaskSet(ps) && k < |ps| && t <= u
    ensures Run(ps, u)[k].nextArrival == Run(ps, t)[k].nextArrival + jobs * ps[k].period
  {
    if t == u {
      jobs := 0;
    } else {
      jobs := ArrivalsStep(ps, k, t, u - 1);
      RunSane(ps, u - 1, k);
      var s := Run(ps, u - 1);
      TickAt(s, u - 1, k);
      if FirstReady(s, u - 1, 0) == k && s[k].remainingTime == 1 {
        assert (jobs + 1) * ps[k].period == jobs * ps[k].period + ps[k].period;
        jobs := jobs + 1;
      }
    }
  }

  lemma ArrivalsGrow(ps: seq<Process>, k: nat, t: nat, u: nat)
    requires TaskSet(ps) && k < |ps| && t <= u
    ensures Run(ps, t)[k].nextArrival <= Run(ps, u)[k].nextArrival
  {
    var jobs := ArrivalsStep(ps, k, t, u);
    assert jobs * ps[k].period >= 0;
  }

  /** The first process runs without a break from each arrival until its job is done, so every
      job of it finishes exactly its execution time after it arrives. */
  lemma {:induction false} FirstNeverWaits(ps: seq<Process>, t: nat)
    requires TaskSet(ps) && ps != [] && ps[0].executionTime <= ps[0].period
    ensures var p := Run(ps, t)[0];
            && (p.nextArrival <= t ==> p.remainingTime == p.executionTime - (t - p.nextArrival))
            && (p.nextArrival > t ==> p.remainingTime == p.executionTime)
  {
    if t > 0 {
      FirstNeverWaits(ps, t - 1);
      RunSane(ps, t - 1, 0);
      TickAt(Run(ps, t - 1), t - 1, 0);
    }
  }

  // ---------------------------------------------------------------- the table the caller hands in

  /** The rows `main` fills in: whole units of work and a positive period. What the fields for the
      remaining time and the next arrival hold does not matter. */
  ghost predicate Submitted(ps: seq<Process>)
  {
    forall i :: 0 <= i < |ps| ==> ps[i].executionTime >= 1 && ps[i].period >= 1 && ps[i].arrivalTime >= 0
  }

  /** Row `p` of the run came from row `task` of the input, a whole number of jobs on. */
  ghost predicate Descends(p: Process, task: Process, done: nat)
  {
    && p.id == task.id && p.executionTime == task.executionTime && p.period == task.period
    && p.arrivalTime == task.arrivalTime && p.nextArrival == task.arrivalTime + done * task.period
  }

  ghost predicate SomeJobsOn(p: Process, task: Process)
  {
    exists done: nat :: Descends(p, task, done)
  }

  ghost predicate Paired(rs: seq<Process>, tasks: seq<Process>)
  {
    |tasks| == |rs| && forall i :: 0 <= i < |rs| ==> SomeJobsOn(rs[i], tasks[i])
  }

  /** Every row comes from a row of the input of its own, a whole number of jobs on. */
  ghost predicate Descended(ps: seq<Process>, rs: seq<Process>)
  {
    exists tasks :: multiset(tasks) == multiset(ps) && Paired(rs, tasks)
  }

  lemma ExecuteOn(p: Process, task: Process)
    requires SomeJobsOn(p, task)
    ensures SomeJobsOn(Execute(p), task)
  {
    var done: nat :| Descends(p, task, done);
    assert (done + 1) * task.period == done * task.period + task.period;
    assert Descends(Execute(p), task, if p.remainingTime == 1 then done + 1 else done);
  }

  lemma {:induction false} RunDescends(ps: seq<Process>, tasks: seq<Process>, t: nat)
    requires Paired(ps, tasks) && Sorted(ps, ByPeriod())
    ensures Paired(Run(ps, t), tasks) && Sorted(Run(ps, t), ByPeriod())
  {
    if t > 0 {
      RunDescends(ps, tasks, t - 1);
      var s := Run(ps, t - 1);
      var i := FirstReady(s, t - 1, 0);
      if i < |s| {
        hide SomeJobsOn;
        ExecuteOn(s[i], tasks[i]);
      }
    }
  }

  /** The input in the order of the table. */
  lemma Originals(ps: seq<Process>, o: seq<Process>) returns (tasks: seq<Process>)
    requires multiset(o) == multiset(Init(ps))
    ensures multiset(tasks) == multiset(ps) && Init(tasks) == o
  {
    tasks := Reorder(Init(ps), ps, o);
    forall i | 0 <= i < |o|
      ensures Init(tasks)[i] == o[i]
    {
      var j :| 0 <= j < |ps| && Init(ps)[j] == o[i] && ps[j] == tasks[i];
    }
  }

  lemma InitPaired(tasks: seq<Process>)
    ensures Paired(Init(tasks), tasks)
  {
    forall i | 0 <= i < |tasks|
      ensures SomeJobsOn(Init(tasks)[i], tasks[i])
    {
      assert Descends(Init(tasks)[i], tasks[i], 0);
    }
  }

  lemma TableDescends(ps: seq<Process>, t: nat)
    ensures Descended(ps, Run(Sort(Init(ps), ByPeriod()), t))
    ensures Sorted(Run(Sort(Init(ps), ByPeriod()), t), ByPeriod())
  {
    var o := Sort(Init(ps), ByPeriod());
    SortIsSortedPermutation(Init(ps), ByPeriod());
    var tasks := Originals(ps, o);
    InitPaired(tasks);
    RunDescends(o, tasks, t);
  }

  method RmsScheduling(processes: array<Process>, totalTime: int)
    modifies processes
    ensures processes[..]
            == Run(Sort(Init(old(processes[..])), ByPeriod()), if totalTime < 0 then 0 else totalTime)
    ensures Descended(old(processes[..]), processes[..]) && Sorted(processes[..], ByPeriod())
  {
    hide Descended, Sorted;
    for i := 0 to processes.Length
      invariant forall k :: 0 <= k < i ==> processes[k] == Init(old(processes[..]))[k]
      invariant forall k :: i <= k < processes.Length ==> processes[k] == old(processes[k])
    {
      processes[i] := processes[i].(
        nextArrival := processes[i].arrivalTime, remainingTime := processes[i].executionTime);
    }
    assert processes[..] == Init(old(processes[..]));
    SortInPlace(processes, ByPeriod());
    ghost var start := processes[..];
    var time := 0;
    while time < totalTime
      invariant 0 <= time
      invariant time <= if totalTime < 0 then 0 else totalTime
      invariant processes[..] == Run(start, time)
    {
      time := TickInPlace(processes, time);
    }
    TableDescends(old(processes[..]), if totalTime < 0 then 0 else totalTime);
  }
}

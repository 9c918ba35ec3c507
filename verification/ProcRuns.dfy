/** The life of processes as a state machine: every region under `ptable.lock` is one step, and
    processes on any number of CPUs interleave freely. No signal handlers are installed. */
module ProcRuns {
  import opened Proc

  /** Where a process is in the kernel. `Forking`: `fork` has an embryo without a parent;
      `Parented`: the embryo has its parent set; `InWait`: inside the loop of `wait`. */
  datatype Pc = Normal | Forking(child: nat) | Parented(child: nat) | InWait

  datatype State = State(
    procs: seq<Proc>,
    pcs: seq<Pc>,
    cpus: seq<Option<nat>>,    // the process each CPU runs
    nextpid: nat,
    reaped: set<nat>)          // history: the pids `wait` has returned

  datatype Step =
    | Dispatch(cpu: nat, p: nat, sigint: bool)
    | Yield(p: nat)
    | ForkAlloc(p: nat)
    | ForkFail(p: nat)
    | ForkParent(p: nat)
    | ForkFinish(p: nat)
    | ExitProc(p: nat)
    | WaitOnce(p: nat)
    | Sleep(p: nat, n: nat)
    | WakeupAll(chan: Chan)
    | KillPid(pid: int)
    | Fault(p: nat)

  predicate Live(st: ProcState)
  {
    st.SLEEPING? || st.RUNNABLE? || st.RUNNING?
  }

  predicate InFork(pc: Pc)
  {
    pc.Forking? || pc.Parented?
  }

  // ---------------------------------------------------------------- the machine

  ghost predicate Sized(s: State)
  {
    |s.procs| == NPROC && |s.pcs| == NPROC
  }

  ghost predicate Runs(s: State, p: nat)
    requires Sized(s)
  {
    p < NPROC && s.procs[p].state.RUNNING?
  }

  ghost predicate Enabled(s: State, e: Step)
  {
    && Sized(s)
    && match e
       case Dispatch(c, p, _) => c < |s.cpus| && s.cpus[c].None? && p < NPROC && s.procs[p].state.RUNNABLE?
       case Yield(p) => Runs(s, p)
       case ForkAlloc(p) => Runs(s, p) && s.pcs[p].Normal? && UnusedFrom(s.procs, 0) < NPROC
       case ForkFail(p) => Runs(s, p) && s.pcs[p].Forking? && s.pcs[p].child < NPROC
       case ForkParent(p) => Runs(s, p) && s.pcs[p].Forking? && s.pcs[p].child < NPROC
       case ForkFinish(p) => Runs(s, p) && s.pcs[p].Parented? && s.pcs[p].child < NPROC
       case ExitProc(p) => Runs(s, p) && s.pcs[p].Normal? && p != INIT
       case WaitOnce(p) => Runs(s, p) && (s.pcs[p].Normal? || s.pcs[p].InWait?)
       case Sleep(p, _) => Runs(s, p) && s.pcs[p].Normal?
       case WakeupAll(_) => true
       case KillPid(_) => true
       case Fault(p) => Runs(s, p)
  }

  function Put(s: State, p: nat, q: Proc): (r: State)
    requires p < |s.procs|
  {
    s.(procs := s.procs[p := q])
  }

  function Goto(s: State, p: nat, pc: Pc): (r: State)
    requires p < |s.pcs|
  {
    s.(pcs := s.pcs[p := pc])
  }

  /** The CPU that ran `p` goes back to its scheduler. */
  function Off(cpus: seq<Option<nat>>, p: nat): (r: seq<Option<nat>>)
    ensures |r| == |cpus|
    ensures forall c :: 0 <= c < |cpus| ==> r[c] == if cpus[c] == Some(p) then None else cpus[c]
  {
    seq(|cpus|, c requires 0 <= c < |cpus| => if cpus[c] == Some(p) then None else cpus[c])
  }

  ghost function Do(s: State, e: Step): (r: State)
    requires Enabled(s, e)
  {
    match e
    case Dispatch(c, p, sigint) =>
      Put(s, p, s.procs[p].(state := RUNNING, chan := NoChan, killed := s.procs[p].killed || sigint)).(
        cpus := s.cpus[c := Some(p)])
    case Yield(p) => Put(s, p, s.procs[p].(state := RUNNABLE)).(cpus := Off(s.cpus, p))
    case ForkAlloc(p) =>
      var k := UnusedFrom(s.procs, 0);
      Goto(s, p, Forking(k)).(procs := Alloc(s.procs, k, s.nextpid), nextpid := s.nextpid + 1)
    case ForkFail(p) => Goto(Put(s, s.pcs[p].child, s.procs[s.pcs[p].child].(state := UNUSED)), p, Normal)
    case ForkParent(p) =>
      Goto(Put(s, s.pcs[p].child, s.procs[s.pcs[p].child].(parent := Some(p))), p, Parented(s.pcs[p].child))
    case ForkFinish(p) => Goto(Put(s, s.pcs[p].child, s.procs[s.pcs[p].child].(state := RUNNABLE)), p, Normal)
    case ExitProc(p) => s.(procs := Exit(s.procs, p), cpus := Off(s.cpus, p))
    case WaitOnce(p) =>
      var r := s.(procs := AfterWait(s.procs, p));
      (match WaitScan(s.procs, p)
       case Reaped(k) => Goto(r, p, Normal).(reaped := s.reaped + {s.procs[k].pid})
       case NoChildren => Goto(r, p, Normal)
       case Asleep => Goto(r, p, InWait).(cpus := Off(s.cpus, p)))
    case Sleep(p, n) => Put(s, p, s.procs[p].(state := SLEEPING, chan := Other(n))).(cpus := Off(s.cpus, p))
    case WakeupAll(chan) => s.(procs := Wakeup(s.procs, chan))
    case KillPid(pid) => s.(procs := Kill(s.procs, pid))
    case Fault(p) => Put(s, p, s.procs[p].(killed := true))
  }

  /** After `userinit`: only the first process, ready to run. */
  ghost predicate Init(s: State)
  {
    && Sized(s) && s.nextpid == 2 && s.reaped == {}
    && (forall c :: 0 <= c < |s.cpus| ==> s.cpus[c].None?)
    && s.procs[INIT] == Proc(RUNNABLE, 1, None, NoChan, false)
    && (forall i :: 0 <= i < NPROC ==> s.pcs[i].Normal?)
    && (forall i :: 0 < i < NPROC ==> s.procs[i] == Proc(UNUSED, 0, None, NoChan, false))
  }

  // ---------------------------------------------------------------- what every step keeps

  /** Nonzero pids are distinct, smaller than the next one, and not yet returned by `wait`. */
  ghost predicate Pids(s: State)
    requires Sized(s)
  {
    && s.nextpid >= 1
    && (forall i, j :: 0 <= i < j < NPROC && s.procs[i].pid == s.procs[j].pid ==> s.procs[i].pid == 0)
    && (forall i :: 0 <= i < NPROC ==> s.procs[i].pid < s.nextpid && s.procs[i].pid !in s.reaped)
    && (forall i :: 0 <= i < NPROC && !s.procs[i].state.UNUSED? ==> s.procs[i].pid > 0)
    && (forall x :: x in s.reaped ==> 0 < x < s.nextpid)
  }

  ghost predicate OnSomeCpu(s: State, p: nat)
  {
    exists c :: 0 <= c < |s.cpus| && s.cpus[c] == Some(p)
  }

  /** A process runs exactly when one CPU owns it. */
  ghost predicate Owned(s: State)
    requires Sized(s)
  {
    && (forall c :: 0 <= c < |s.cpus| && s.cpus[c].Some? ==> Runs(s, s.cpus[c].value))
    && (forall c, d :: 0 <= c < d < |s.cpus| && s.cpus[c].Some? ==> s.cpus[c] != s.cpus[d])
    && (forall p :: 0 <= p < NPROC && s.procs[p].state.RUNNING? ==> OnSomeCpu(s, p))
  }

  /** An embryo belongs to one forking process, which cannot exit or sleep before it is done. */
  ghost predicate Births(s: State)
    requires Sized(s)
  {
    && (forall p :: 0 <= p < NPROC && !s.pcs[p].Normal? ==> Live(s.procs[p].state))
    && (forall p :: 0 <= p < NPROC && InFork(s.pcs[p]) ==>
          && !s.procs[p].state.SLEEPING? && s.pcs[p].child < NPROC && s.procs[s.pcs[p].child].state.EMBRYO?
          && s.procs[s.pcs[p].child].parent == if s.pcs[p].Forking? then None else Some(p))
    && (forall p, q :: 0 <= p < q < NPROC && InFork(s.pcs[p]) && InFork(s.pcs[q]) ==> s.pcs[p].child != s.pcs[q].child)
  }

  /** Everyone but init who is alive or waiting to be reaped has a living parent. */
  ghost predicate Families(s: State)
    requires Sized(s)
  {
    && Live(s.procs[INIT].state) && s.procs[INIT].parent.None?
    && (forall i :: 0 <= i < NPROC && s.procs[i].state.UNUSED? ==> s.procs[i].parent.None?)
    && (forall i :: 0 < i < NPROC && (Live(s.procs[i].state) || s.procs[i].state.ZOMBIE?) ==>
          var q := s.procs[i].parent;
          q.Some? && q.value < NPROC && q.value != i && Live(s.procs[q.value].state))
  }

  /** A sleeping process sleeps on itself exactly when it is in `wait`, and on no other process. */
  ghost predicate Channels(s: State)
    requires Sized(s)
  {
    forall i :: 0 <= i < NPROC && s.procs[i].state.SLEEPING? ==>
      && (s.procs[i].chan.OnProc? <==> s.pcs[i].InWait?)
      && (s.procs[i].chan.OnProc? ==> s.procs[i].chan.p == i)
  }

  /** No process asleep in `wait` has an exited child. */
  ghost predicate NoneLost(s: State)
    requires Sized(s)
  {
    forall i, j :: 0 <= i < NPROC && 0 <= j < NPROC && ChildOf(s.procs[j], i) && s.procs[j].state.ZOMBIE?
      ==> !(s.procs[i].state.SLEEPING? && s.procs[i].chan.OnProc?)
  }

  /** `i` has a child that has not exited. */
  ghost predicate Expects(s: State, i: nat)
    requires Sized(s)
  {
    exists j :: 0 <= j < NPROC && ChildOf(s.procs[j], i) && !s.procs[j].state.UNUSED? && !s.procs[j].state.ZOMBIE?
  }

  /** Whoever is asleep in `wait` has a child that has not exited and will wake it. */
  ghost predicate Expecting(s: State)
    requires Sized(s)
  {
    forall i :: 0 <= i < NPROC && s.procs[i].state.SLEEPING? && s.procs[i].chan.OnProc? ==> Expects(s, i)
  }

  ghost predicate Inv(s: State)
  {
    Sized(s) && Pids(s) && Owned(s) && Births(s) && Families(s) && Channels(s) && NoneLost(s) && Expecting(s)
  }

  lemma InitInv(s: State)
    requires Init(s)
    ensures Inv(s)
  {
  }

  lemma Booted(ncpu: nat) returns (s: State)
    ensures Init(s) && Inv(s) && |s.cpus| == ncpu
  {
    var rest := seq(NPROC, i => if i == INIT then Proc(RUNNABLE, 1, None, NoChan, false) else Proc(UNUSED, 0, None, NoChan, false));
    s := State(rest, seq(NPROC, _ => Normal), seq(ncpu, _ => None), 2, {});
    InitInv(s);
  }

  // Steps that create, reparent or bury nobody

  /** Same pid, parent and stage of life. */
  predicate Alike(p: Proc, q: Proc)
  {
    && q.pid == p.pid && q.parent == p.parent && (Live(q.state) <==> Live(p.state))
    && (q.state.UNUSED? <==> p.state.UNUSED?) && (q.state.ZOMBIE? <==> p.state.ZOMBIE?)
  }

  ghost predicate AllAlike(s: State, r: State)
  {
    && Sized(s) && Sized(r) && r.nextpid == s.nextpid && r.reaped == s.reaped
    && forall i :: 0 <= i < NPROC ==> Alike(s.procs[i], r.procs[i])
  }

  lemma AlikePids(s: State, r: State)
    requires Inv(s) && AllAlike(s, r)
    ensures Pids(r)
  {
    hide Owned, Births, Families, Channels, NoneLost, Expecting;
  }

  lemma AlikeFamilies(s: State, r: State)
    requires Inv(s) && AllAlike(s, r)
    ensures Families(r)
  {
    hide Owned, Births, Pids, Channels, NoneLost, Expecting;
  }

  ghost predicate ForksStay(s: State, r: State)
    requires Sized(s) && Sized(r)
  {
    forall i :: 0 <= i < NPROC ==>
      && (InFork(s.pcs[i]) || InFork(r.pcs[i]) ==> r.pcs[i] == s.pcs[i] && !r.procs[i].state.SLEEPING?)
      && (!r.pcs[i].Normal? ==> Live(s.procs[i].state))
  }

  lemma AlikeBirths(s: State, r: State)
    requires Inv(s) && AllAlike(s, r) && ForksStay(s, r)
    ensures Births(r)
  {
    hide Owned, Families, Pids, Channels, NoneLost, Expecting;
    forall p | 0 <= p < NPROC && InFork(r.pcs[p])
      ensures s.pcs[p] == r.pcs[p]
    {
    }
  }

  /** `p` may have fallen asleep; nobody else has. */
  ghost predicate SleepsOnly(s: State, r: State, p: nat)
    requires Sized(s) && Sized(r)
  {
    forall i :: 0 <= i < NPROC && i != p && r.procs[i].state.SLEEPING? ==>
      s.procs[i].state.SLEEPING? && r.procs[i].chan == s.procs[i].chan && r.pcs[i] == s.pcs[i]
  }

  /** If `p` sleeps, it does so in `wait` on itself with no exited child, or outside `wait`. */
  ghost predicate FallsAsleep(r: State, p: nat)
    requires Sized(r)
  {
    p < NPROC && r.procs[p].state.SLEEPING? ==>
      if r.pcs[p].InWait? then
        && r.procs[p].chan == OnProc(p) && Expects(r, p)
        && forall j :: 0 <= j < NPROC && ChildOf(r.procs[j], p) ==> !r.procs[j].state.ZOMBIE?
      else !r.procs[p].chan.OnProc?
  }

  lemma AlikeAsleep(s: State, r: State, p: nat)
    requires Inv(s) && AllAlike(s, r) && SleepsOnly(s, r, p) && FallsAsleep(r, p)
    ensures Channels(r) && NoneLost(r)
  {
    hide Owned, Families, Pids, Births;
    forall i, j | 0 <= i < NPROC && 0 <= j < NPROC && ChildOf(r.procs[j], i) && r.procs[j].state.ZOMBIE?
      ensures !(r.procs[i].state.SLEEPING? && r.procs[i].chan.OnProc?)
    {
      assert Alike(s.procs[j], r.procs[j]);
    }
  }

  lemma AlikeExpecting(s: State, r: State, p: nat)
    requires Inv(s) && AllAlike(s, r) && SleepsOnly(s, r, p) && FallsAsleep(r, p)
    ensures Expecting(r)
  {
    hide Owned, Families, Pids, Births, Channels, NoneLost;
    forall i | 0 <= i < NPROC && r.procs[i].state.SLEEPING? && r.procs[i].chan.OnProc?
      ensures Expects(r, i)
    {
      if i != p {
        assert Expects(s, i);
        var j :| 0 <= j < NPROC && ChildOf(s.procs[j], i) && !s.procs[j].state.UNUSED? && !s.procs[j].state.ZOMBIE?;
        assert Alike(s.procs[j], r.procs[j]);
        assert ChildOf(r.procs[j], i);
      }
    }
  }

  lemma SameOwned(s: State, r: State)
    requires Inv(s) && Sized(r) && r.cpus == s.cpus
    requires forall i :: 0 <= i < NPROC ==> (r.procs[i].state.RUNNING? <==> s.procs[i].state.RUNNING?)
    ensures Owned(r)
  {
    hide Births, Families, Pids, Channels, NoneLost, Expecting;
    forall p | 0 <= p < NPROC && r.procs[p].state.RUNNING?
      ensures OnSomeCpu(r, p)
    {
      assert OnSomeCpu(s, p);
    }
  }

  lemma OffOwned(s: State, r: State, p: nat)
    requires Inv(s) && Sized(r) && r.cpus == Off(s.cpus, p)
    requires forall i :: 0 <= i < NPROC ==> (r.procs[i].state.RUNNING? <==> s.procs[i].state.RUNNING? && i != p)
    ensures Owned(r)
  {
    hide Births, Families, Pids, Channels, NoneLost, Expecting, Off;
    forall q | 0 <= q < NPROC && r.procs[q].state.RUNNING?
      ensures OnSomeCpu(r, q)
    {
      assert OnSomeCpu(s, q);
      var c :| 0 <= c < |s.cpus| && s.cpus[c] == Some(q);
      assert r.cpus[c] == Some(q);
    }
    forall c, d | 0 <= c < d < |r.cpus| && r.cpus[c].Some?
      ensures r.cpus[c] != r.cpus[d]
    {
      assert s.cpus[c] != s.cpus[d];
    }
  }

  lemma DispatchOwned(s: State, c: nat, p: nat, sigint: bool)
    requires Inv(s) && Enabled(s, Dispatch(c, p, sigint))
    ensures Owned(Do(s, Dispatch(c, p, sigint)))
  {
    hide Births, Families, Pids, Channels, NoneLost, Expecting;
    var r := Do(s, Dispatch(c, p, sigint));
    assert r.cpus[c] == Some(p);
    forall q | 0 <= q < NPROC && r.procs[q].state.RUNNING?
      ensures OnSomeCpu(r, q)
    {
      if q != p {
        assert OnSomeCpu(s, q);
        var d :| 0 <= d < |s.cpus| && s.cpus[d] == Some(q);
        assert r.cpus[d] == Some(q);
      }
    }
  }

  lemma QuietKeeps(s: State, r: State, p: nat)
    requires Inv(s) && AllAlike(s, r) && ForksStay(s, r) && SleepsOnly(s, r, p) && FallsAsleep(r, p) && Owned(r)
    ensures Inv(r)
  {
    assert Sized(r);
    hide Pids, Families, Channels, NoneLost, Expecting, Owned, Births, AllAlike, ForksStay, SleepsOnly, FallsAsleep;
    AlikeBirths(s, r);
    AlikePids(s, r);
    AlikeFamilies(s, r);
    AlikeAsleep(s, r, p);
    AlikeExpecting(s, r, p);
  }

  lemma DispatchKeeps(s: State, c: nat, p: nat, sigint: bool)
    requires Inv(s) && Enabled(s, Dispatch(c, p, sigint))
    ensures Inv(Do(s, Dispatch(c, p, sigint)))
  {
    hide Pids, Families, Channels, NoneLost, Expecting, Owned;
    DispatchOwned(s, c, p, sigint);
    QuietKeeps(s, Do(s, Dispatch(c, p, sigint)), NPROC);
  }

  lemma YieldKeeps(s: State, p: nat)
    requires Inv(s) && Enabled(s, Yield(p))
    ensures Inv(Do(s, Yield(p)))
  {
    hide Pids, Families, Channels, NoneLost, Expecting, Owned;
    var r := Do(s, Yield(p));
    OffOwned(s, r, p);
    QuietKeeps(s, r, NPROC);
  }

  lemma SleepKeeps(s: State, p: nat, n: nat)
    requires Inv(s) && Enabled(s, Sleep(p, n))
    ensures Inv(Do(s, Sleep(p, n)))
  {
    hide Pids, Families, Channels, NoneLost, Expecting, Owned;
    var r := Do(s, Sleep(p, n));
    OffOwned(s, r, p);
    QuietKeeps(s, r, p);
  }

  lemma SignalsKeep(s: State, e: Step)
    requires Inv(s) && Enabled(s, e) && (e.WakeupAll? || e.KillPid? || e.Fault?)
    ensures Inv(Do(s, e))
  {
    hide Pids, Families, Channels, NoneLost, Expecting, Owned;
    var r := Do(s, e);
    SameOwned(s, r);
    QuietKeeps(s, r, NPROC);
  }

  // fork

  /** The slot the embryo of a step of `fork` is in. */
  ghost function Embryo(s: State, e: Step): (c: nat)
    requires Enabled(s, e) && (e.ForkAlloc? || e.ForkFail? || e.ForkParent? || e.ForkFinish?)
    ensures c < NPROC
  {
    if e.ForkAlloc? then UnusedFrom(s.procs, 0) else s.pcs[e.p].child
  }

  /** A step of `fork` changes the embryo's slot and the forking process's place, nothing else. */
  ghost predicate ForkStep(s: State, e: Step)
  {
    && Inv(s) && Enabled(s, e) && (e.ForkAlloc? || e.ForkFail? || e.ForkParent? || e.ForkFinish?)
    && var c, r := Embryo(s, e), Do(s, e);
       && r.procs == s.procs[c := r.procs[c]] && r.pcs == s.pcs[e.p := r.pcs[e.p]]
       && c != e.p && c != INIT && s.pcs[c].Normal?
       && s.procs[c].state == (if e.ForkAlloc? then UNUSED else EMBRYO)
       && s.procs[c].parent == (if e.ForkFinish? then Some(e.p) else None)
  }

  lemma IsForkStep(s: State, e: Step)
    requires Inv(s) && Enabled(s, e) && (e.ForkAlloc? || e.ForkFail? || e.ForkParent? || e.ForkFinish?)
    ensures ForkStep(s, e)
  {
    hide Pids, Owned, Channels, NoneLost, Expecting;
  }

  lemma ForkPids(s: State, e: Step)
    requires ForkStep(s, e)
    ensures Pids(Do(s, e))
  {
    hide Owned, Births, Families, Channels, NoneLost, Expecting;
  }

  lemma ForkOwned(s: State, e: Step)
    requires ForkStep(s, e)
    ensures Owned(Do(s, e))
  {
    hide Pids, Births, Families, Channels, NoneLost, Expecting, Owned;
    SameOwned(s, Do(s, e));
  }

  lemma ForkBirths(s: State, e: Step)
    requires ForkStep(s, e)
    ensures Births(Do(s, e))
  {
    hide Pids, Owned, Families, Channels, NoneLost, Expecting;
  }

  lemma ForkFamilies(s: State, e: Step)
    requires ForkStep(s, e)
    ensures Families(Do(s, e))
  {
    hide Pids, Owned, Births, Channels, NoneLost, Expecting;
  }

  lemma ForkAsleep(s: State, e: Step)
    requires ForkStep(s, e)
    ensures Channels(Do(s, e)) && NoneLost(Do(s, e))
  {
    hide Pids, Owned, Births, Families;
  }

  lemma ForkExpecting(s: State, e: Step)
    requires ForkStep(s, e)
    ensures Expecting(Do(s, e))
  {
    hide Pids, Owned, Births, Families, Channels, NoneLost;
    var r := Do(s, e);
    forall i | 0 <= i < NPROC && r.procs[i].state.SLEEPING? && r.procs[i].chan.OnProc?
      ensures Expects(r, i)
    {
      assert Expects(s, i);
      var j :| 0 <= j < NPROC && ChildOf(s.procs[j], i) && !s.procs[j].state.UNUSED? && !s.procs[j].state.ZOMBIE?;
      assert ChildOf(r.procs[j], i);
    }
  }

  lemma ForkKeeps(s: State, e: Step)
    requires Inv(s) && Enabled(s, e) && (e.ForkAlloc? || e.ForkFail? || e.ForkParent? || e.ForkFinish?)
    ensures Inv(Do(s, e))
  {
    hide Pids, Owned, Births, Families, Channels, NoneLost, Expecting, ForkStep;
    IsForkStep(s, e);
    ForkPids(s, e);
    ForkOwned(s, e);
    ForkBirths(s, e);
    ForkFamilies(s, e);
    ForkAsleep(s, e);
    ForkExpecting(s, e);
  }

  // wait

  lemma WaitReturnsKeeps(s: State, p: nat)
    requires Inv(s) && Enabled(s, WaitOnce(p)) && WaitScan(s.procs, p).NoChildren?
    ensures Inv(Do(s, WaitOnce(p)))
  {
    hide Pids, Families, Channels, NoneLost, Expecting, Owned;
    var r := Do(s, WaitOnce(p));
    SameOwned(s, r);
    QuietKeeps(s, r, NPROC);
  }

  lemma SleeperExpects(s: State, p: nat)
    requires Inv(s) && Enabled(s, WaitOnce(p)) && WaitScan(s.procs, p).Asleep?
    ensures Expects(Do(s, WaitOnce(p)), p)
  {
    hide Pids, Owned, Births, Channels, NoneLost, Expecting;
    var j :| 0 <= j < NPROC && ChildOf(s.procs[j], p);
    assert !s.procs[j].state.ZOMBIE? && !s.procs[j].state.UNUSED?;
    assert ChildOf(Do(s, WaitOnce(p)).procs[j], p);
  }

  lemma WaitSleepsKeeps(s: State, p: nat)
    requires Inv(s) && Enabled(s, WaitOnce(p)) && WaitScan(s.procs, p).Asleep?
    ensures Inv(Do(s, WaitOnce(p)))
  {
    hide Pids, Families, Channels, NoneLost, Expecting, Owned;
    var r := Do(s, WaitOnce(p));
    assert forall j :: 0 <= j < NPROC && ChildOf(s.procs[j], p) ==> !s.procs[j].state.ZOMBIE?;
    SleeperExpects(s, p);
    OffOwned(s, r, p);
    QuietKeeps(s, r, p);
  }

  /** `p` has reaped its zombie child `k`. */
  ghost predicate Reaps(s: State, r: State, p: nat, k: nat)
  {
    && Inv(s) && p < NPROC && k < NPROC && s.procs[p].state.RUNNING? && !InFork(s.pcs[p])
    && ChildOf(s.procs[k], p) && s.procs[k].state.ZOMBIE? && r.procs == Reap(s.procs, k)
    && r.pcs == s.pcs[p := Normal] && r.cpus == s.cpus && r.nextpid == s.nextpid
    && r.reaped == s.reaped + {s.procs[k].pid}
  }

  lemma ReapPids(s: State, r: State, p: nat, k: nat)
    requires Reaps(s, r, p, k)
    ensures Sized(r) && Pids(r)
  {
    hide Families, Channels, NoneLost, Expecting, Owned, Births;
  }

  lemma ReapFamilies(s: State, r: State, p: nat, k: nat)
    requires Reaps(s, r, p, k) && Sized(r)
    ensures Families(r)
  {
    hide Channels, NoneLost, Expecting, Owned, Pids, Births;
  }

  lemma ReapBirths(s: State, r: State, p: nat, k: nat)
    requires Reaps(s, r, p, k) && Sized(r)
    ensures Births(r)
  {
    hide Channels, NoneLost, Expecting, Owned, Pids, Families;
  }

  lemma ReapAsleep(s: State, r: State, p: nat, k: nat)
    requires Reaps(s, r, p, k) && Sized(r)
    ensures Channels(r) && NoneLost(r)
  {
    hide Families, Owned, Pids, Births;
  }

  lemma ReapExpecting(s: State, r: State, p: nat, k: nat)
    requires Reaps(s, r, p, k) && Sized(r)
    ensures Expecting(r)
  {
    hide Families, Owned, Pids, Births, Channels, NoneLost;
    forall i | 0 <= i < NPROC && r.procs[i].state.SLEEPING? && r.procs[i].chan.OnProc?
      ensures Expects(r, i)
    {
      assert Expects(s, i);
      var j :| 0 <= j < NPROC && ChildOf(s.procs[j], i) && !s.procs[j].state.UNUSED? && !s.procs[j].state.ZOMBIE?;
      assert ChildOf(r.procs[j], i);
    }
  }

  lemma WaitKeeps(s: State, p: nat)
    requires Inv(s) && Enabled(s, WaitOnce(p))
    ensures Inv(Do(s, WaitOnce(p)))
  {
    hide Families, Owned, Pids, Births, Channels, NoneLost, Expecting;
    match WaitScan(s.procs, p) {
      case NoChildren => WaitReturnsKeeps(s, p);
      case Asleep => WaitSleepsKeeps(s, p);
      case Reaped(k) =>
        var r := Do(s, WaitOnce(p));
        assert Reaps(s, r, p, k);
        ReapPids(s, r, p, k);
        ReapFamilies(s, r, p, k);
        ReapBirths(s, r, p, k);
        ReapAsleep(s, r, p, k);
        ReapExpecting(s, r, p, k);
        SameOwned(s, r);
    }
  }

  // exit

  /** What `exit` does to slot `i`. */
  ghost predicate ExitedAt(ps: seq<Proc>, rs: seq<Proc>, me: nat, i: nat)
    requires me < |ps| && i < |ps| == |rs|
  {
    && rs[i].pid == ps[i].pid && rs[i].chan == ps[i].chan && rs[i].killed == ps[i].killed
    && rs[i].parent == (if ChildOf(ps[i], me) then Some(INIT) else ps[i].parent)
    && if i == me then rs[i].state.ZOMBIE?
       else if ps[i].state.SLEEPING? && (ps[i].chan == ParentChan(ps[me])
                                         || (ps[i].chan == OnProc(INIT) && LeavesZombie(ps, me, |ps|)))
       then rs[i].state.RUNNABLE?
       else rs[i].state == ps[i].state
  }

  lemma ExitAt(ps: seq<Proc>, me: nat, i: nat)
    requires me < |ps| && i < |ps| && me != INIT
    ensures ExitedAt(ps, Exit(ps, me), me, i)
  {
    var qs := Wakeup(ps, ParentChan(ps[me]));
    AbandonAt(qs, me, |ps|, i);
    AbandonAt(qs, me, |ps|, me);
    assert LeavesZombie(qs, me, |ps|) <==> LeavesZombie(ps, me, |ps|) by {
      assert forall j :: 0 <= j < |ps| ==> ChildOf(qs[j], me) == ChildOf(ps[j], me)
                                           && qs[j].state.ZOMBIE? == ps[j].state.ZOMBIE?;
    }
  }

  ghost predicate Exits(s: State, me: nat)
  {
    && Inv(s) && Enabled(s, ExitProc(me))
    && forall i {:trigger s.procs[i]} {:trigger Exit(s.procs, me)[i]} :: 0 <= i < NPROC ==>
         ExitedAt(s.procs, Exit(s.procs, me), me, i)
  }

  lemma IsExit(s: State, me: nat)
    requires Inv(s) && Enabled(s, ExitProc(me))
    ensures Exits(s, me)
  {
    hide Inv, ExitedAt, Exit;
    forall i | 0 <= i < NPROC
      ensures ExitedAt(s.procs, Exit(s.procs, me), me, i)
    {
      ExitAt(s.procs, me, i);
    }
  }

  lemma ExitPids(s: State, me: nat)
    requires Exits(s, me)
    ensures Pids(Do(s, ExitProc(me)))
  {
    hide Owned, Births, Families, Channels, NoneLost, Expecting, Exit;
  }

  lemma ExitOwned(s: State, me: nat)
    requires Exits(s, me)
    ensures Owned(Do(s, ExitProc(me)))
  {
    hide Pids, Births, Families, Channels, NoneLost, Expecting, Exit;
    OffOwned(s, Do(s, ExitProc(me)), me);
  }

  lemma ExitBirths(s: State, me: nat)
    requires Exits(s, me)
    ensures Births(Do(s, ExitProc(me)))
  {
    hide Pids, Owned, Families, Channels, NoneLost, Expecting, Exit;
  }

  lemma ExitFamilies(s: State, me: nat)
    requires Exits(s, me)
    ensures Families(Do(s, ExitProc(me)))
  {
    hide Pids, Owned, Births, Channels, NoneLost, Expecting, Exit;
  }

  lemma ExitAsleep(s: State, me: nat)
    requires Exits(s, me)
    ensures Channels(Do(s, ExitProc(me))) && NoneLost(Do(s, ExitProc(me)))
  {
    hide Pids, Owned, Births, Exit;
    var r := Do(s, ExitProc(me));
    forall i, j | 0 <= i < NPROC && 0 <= j < NPROC && ChildOf(r.procs[j], i) && r.procs[j].state.ZOMBIE?
      ensures !(r.procs[i].state.SLEEPING? && r.procs[i].chan.OnProc?)
    {
      assert ExitedAt(s.procs, r.procs, me, j) && ExitedAt(s.procs, r.procs, me, i);
    }
  }

  lemma ExitExpecting(s: State, me: nat)
    requires Exits(s, me)
    ensures Expecting(Do(s, ExitProc(me)))
  {
    hide Pids, Owned, Births, Families, NoneLost, Exit;
    var r := Do(s, ExitProc(me));
    forall i | 0 <= i < NPROC && r.procs[i].state.SLEEPING? && r.procs[i].chan.OnProc?
      ensures Expects(r, i)
    {
      assert ExitedAt(s.procs, r.procs, me, i);
      assert Expects(s, i);
      var j :| 0 <= j < NPROC && ChildOf(s.procs[j], i) && !s.procs[j].state.UNUSED? && !s.procs[j].state.ZOMBIE?;
      assert ExitedAt(s.procs, r.procs, me, j);
      assert ChildOf(r.procs[j], i);
    }
  }

  lemma ExitKeeps(s: State, me: nat)
    requires Inv(s) && Enabled(s, ExitProc(me))
    ensures Inv(Do(s, ExitProc(me)))
  {
    hide Pids, Owned, Births, Families, Channels, NoneLost, Expecting, Exits;
    IsExit(s, me);
    ExitPids(s, me);
    ExitOwned(s, me);
    ExitBirths(s, me);
    ExitFamilies(s, me);
    ExitAsleep(s, me);
    ExitExpecting(s, me);
  }

  lemma StepKeeps(s: State, e: Step)
    requires Inv(s) && Enabled(s, e)
    ensures Inv(Do(s, e))
  {
    hide Inv, Enabled, Do;
    match e {
      case Dispatch(c, p, sigint) => DispatchKeeps(s, c, p, sigint);
      case Yield(p) => YieldKeeps(s, p);
      case Sleep(p, n) => SleepKeeps(s, p, n);
      case ExitProc(p) => ExitKeeps(s, p);
      case WaitOnce(p) => WaitKeeps(s, p);
      case ForkAlloc(_) => ForkKeeps(s, e);
      case ForkFail(_) => ForkKeeps(s, e);
      case ForkParent(_) => ForkKeeps(s, e);
      case ForkFinish(_) => ForkKeeps(s, e);
      case _ => SignalsKeep(s, e);
    }
  }

  // ---------------------------------------------------------------- whole runs

  ghost predicate Run(states: seq<State>, steps: seq<Step>)
  {
    && |states| == |steps| + 1 && Init(states[0])
    && forall i :: 0 <= i < |steps| ==> Enabled(states[i], steps[i]) && states[i + 1] == Do(states[i], steps[i])
  }

  lemma {:induction false} RunInv(states: seq<State>, steps: seq<Step>, i: nat)
    requires Run(states, steps) && i < |states|
    ensures Inv(states[i])
  {
    if i == 0 {
      InitInv(states[0]);
    } else {
      RunInv(states, steps, i - 1);
      StepKeeps(states[i - 1], steps[i - 1]);
    }
  }

  /** Whenever `ptable.lock` is free: nonzero pids are distinct, a process is running exactly when
      one CPU owns it, everyone alive or unreaped but init has a parent that is neither unused nor
      a zombie, and whoever is asleep in `wait` has a child that has not exited and none that has. */
  lemma ProcessTableIsSound(states: seq<State>, steps: seq<Step>, n: nat)
    requires Run(states, steps) && n < |states|
    ensures var s := states[n];
            && Sized(s) && |s.procs| == 64
            && (forall i, j :: 0 <= i < j < NPROC && s.procs[i].pid != 0 ==> s.procs[i].pid != s.procs[j].pid)
            && (forall p :: 0 <= p < NPROC ==> (s.procs[p].state.RUNNING? <==> OnSomeCpu(s, p)))
            && (forall c, d :: 0 <= c < d < |s.cpus| && s.cpus[c].Some? ==> s.cpus[c] != s.cpus[d])
            && (forall i :: 0 <= i < NPROC && i != INIT && (Live(s.procs[i].state) || s.procs[i].state.ZOMBIE?) ==>
                  && s.procs[i].parent.Some? && s.procs[i].parent.value < NPROC
                  && !s.procs[s.procs[i].parent.value].state.UNUSED? && !s.procs[s.procs[i].parent.value].state.ZOMBIE?)
            && (forall i, j :: 0 <= i < NPROC && 0 <= j < NPROC && ChildOf(s.procs[j], i) && s.procs[j].state.ZOMBIE?
                  ==> !(s.pcs[i].InWait? && s.procs[i].state.SLEEPING?))
            && (forall i :: 0 <= i < NPROC && s.pcs[i].InWait? && s.procs[i].state.SLEEPING? ==>
                  exists j :: 0 <= j < NPROC && s.procs[j].parent == Some(i)
                              && !s.procs[j].state.UNUSED? && !s.procs[j].state.ZOMBIE?)
  {
    RunInv(states, steps, n);
    var s := states[n];
    hide Run, Births;
    forall i | 0 <= i < NPROC && s.pcs[i].InWait? && s.procs[i].state.SLEEPING?
      ensures exists j :: 0 <= j < NPROC && s.procs[j].parent == Some(i)
                          && !s.procs[j].state.UNUSED? && !s.procs[j].state.ZOMBIE?
    {
      assert Expects(s, i);
      var j :| 0 <= j < NPROC && ChildOf(s.procs[j], i) && !s.procs[j].state.UNUSED? && !s.procs[j].state.ZOMBIE?;
      assert s.procs[j].parent == Some(i);
    }
    forall p | 0 <= p < NPROC && OnSomeCpu(s, p)
      ensures s.procs[p].state.RUNNING?
    {
      var c :| 0 <= c < |s.cpus| && s.cpus[c] == Some(p);
      assert Runs(s, s.cpus[c].value);
    }
  }

  lemma {:induction false} ReapedGrows(states: seq<State>, steps: seq<Step>, m: nat, n: nat)
    requires Run(states, steps) && m <= n < |states|
    ensures states[m].reaped <= states[n].reaped
  {
    if m < n {
      ReapedGrows(states, steps, m, n - 1);
      assert states[n] == Do(states[n - 1], steps[n - 1]);
    }
  }

  /** `wait` never returns the same pid twice, and every pid it returns is positive. */
  lemma WaitReturnsFreshPids(states: seq<State>, steps: seq<Step>, m: nat, n: nat)
    requires Run(states, steps) && m < n < |steps|
    requires steps[m].WaitOnce? && steps[n].WaitOnce?
    requires Enabled(states[m], steps[m]) && Enabled(states[n], steps[n])
    requires WaitScan(states[m].procs, steps[m].p).Reaped? && WaitScan(states[n].procs, steps[n].p).Reaped?
    ensures var a := states[m].procs[WaitScan(states[m].procs, steps[m].p).child].pid;
            var b := states[n].procs[WaitScan(states[n].procs, steps[n].p).child].pid;
            a != b && a > 0 && b > 0
  {
    var a := states[m].procs[WaitScan(states[m].procs, steps[m].p).child].pid;
    assert states[m + 1] == Do(states[m], steps[m]);
    assert a in states[m + 1].reaped;
    RunInv(states, steps, m);
    RunInv(states, steps, n);
    ReapedGrows(states, steps, m + 1, n);
    hide Run, Owned, Births, Families, Channels, NoneLost, Expecting;
  }

  /** In every run, after `kill` of a nonzero pid whoever has it is marked and not asleep. */
  lemma KilledIsAwake(states: seq<State>, steps: seq<Step>, n: nat, i: nat)
    requires Run(states, steps) && n < |steps| && i < NPROC && Sized(states[n]) && Sized(states[n + 1])
    requires steps[n].KillPid? && steps[n].pid != 0 && states[n].procs[i].pid == steps[n].pid
    ensures var q := states[n + 1].procs[i];
            q.pid == steps[n].pid && q.killed && !q.state.SLEEPING?
  {
    hide Init, Owned, Births, Families, Channels, NoneLost, Expecting, Kill;
    RunInv(states, steps, n);
    assert states[n + 1] == Do(states[n], steps[n]);
    assert forall j :: 0 <= j < NPROC && j != i ==> states[n].procs[j].pid != steps[n].pid;
    KillMarks(states[n].procs, steps[n].pid, i);
  }

  lemma KillMarks(ps: seq<Proc>, pid: int, i: nat)
    requires i < |ps| && ps[i].pid == pid && forall j :: 0 <= j < |ps| && j != i ==> ps[j].pid != pid
    ensures var q := Kill(ps, pid)[i]; q.pid == pid && q.killed && !q.state.SLEEPING?
  {
    assert PidFrom(ps, pid, 0) == i;
  }

  /** In every run, a finished `fork` leaves a child that can run, is the caller's, and has a pid that
      nobody else has and `wait` has never returned. */
  lemma ForkMakesChild(states: seq<State>, steps: seq<Step>, n: nat, p: nat)
    requires Run(states, steps) && n < |steps| && steps[n] == ForkFinish(p)
    requires Sized(states[n]) && Sized(states[n + 1]) && p < NPROC && states[n].pcs[p].Parented?
    ensures var k, r := states[n].pcs[p].child, states[n + 1];
            && k < NPROC && k != p && r.procs[k].state == RUNNABLE && r.procs[k].parent == Some(p)
            && r.procs[k].pid > 0 && r.procs[k].pid !in r.reaped
            && forall j :: 0 <= j < NPROC && j != k ==> r.procs[j] == states[n].procs[j] && r.procs[j].pid != r.procs[k].pid
  {
    hide Init, Owned, Families, Channels, NoneLost, Expecting;
    RunInv(states, steps, n);
    assert states[n + 1] == Do(states[n], steps[n]);
    assert Live(states[n].procs[p].state);
  }
}

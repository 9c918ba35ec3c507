/** The process table: the scans `allocproc`, `wakeup1`, `exit`, `wait` and `kill` make over it
    while they hold `ptable.lock`. */
module Proc {

  const NPROC: nat := 64

  /** `userinit` puts the first process in the first slot. */
  const INIT: nat := 0

  datatype ProcState = UNUSED | EMBRYO | SLEEPING | RUNNABLE | RUNNING | ZOMBIE

  datatype Option<T> = None | Some(value: T)

  /** What a process sleeps on: nothing, a process (only `wait` does), or anything else. */
  datatype Chan = NoChan | OnProc(p: nat) | Other(n: nat)

  datatype Proc = Proc(state: ProcState, pid: nat, parent: Option<nat>, chan: Chan, killed: bool)

  // ---------------------------------------------------------------- wakeup1

  predicate Wakes(p: Proc, chan: Chan)
  {
    p.state.SLEEPING? && p.chan == chan
  }

  function Woken(p: Proc, chan: Chan): (r: Proc)
  {
    if Wakes(p, chan) then p.(state := RUNNABLE) else p
  }

  function Wakeup(ps: seq<Proc>, chan: Chan): (rs: seq<Proc>)
    ensures |rs| == |ps|
  {
    seq(|ps|, i requires 0 <= i < |ps| => Woken(ps[i], chan))
  }

  // ---------------------------------------------------------------- exit

  function ParentChan(p: Proc): (c: Chan)
  {
    match p.parent
    case None => NoChan
    case Some(q) => OnProc(q)
  }

  predicate ChildOf(p: Proc, me: nat)
  {
    p.parent == Some(me)
  }

  /** `exit`'s loop over slots 0 to `n`: children go to init, which is woken for each zombie. */
  function Abandon(ps: seq<Proc>, me: nat, n: nat): (rs: seq<Proc>)
    requires n <= |ps|
    ensures |rs| == |ps|
  {
    if n == 0 then ps
    else
      var qs := Abandon(ps, me, n - 1);
      if !ChildOf(qs[n - 1], me) then qs
      else
        var rs := qs[n - 1 := qs[n - 1].(parent := Some(INIT))];
        if rs[n - 1].state.ZOMBIE? then Wakeup(rs, OnProc(INIT)) else rs
  }

  function Exit(ps: seq<Proc>, me: nat): (rs: seq<Proc>)
    requires me < |ps|
    ensures |rs| == |ps|
  {
    var qs := Abandon(Wakeup(ps, ParentChan(ps[me])), me, |ps|);
    qs[me := qs[me].(state := ZOMBIE)]
  }

  ghost predicate LeavesZombie(ps: seq<Proc>, me: nat, n: nat)
  {
    exists j :: 0 <= j < n <= |ps| && ChildOf(ps[j], me) && ps[j].state.ZOMBIE?
  }

  ghost function Abandoned(ps: seq<Proc>, me: nat, n: nat, i: nat): (r: Proc)
    requires i < |ps|
  {
    var q := if i < n && ChildOf(ps[i], me) then ps[i].(parent := Some(INIT)) else ps[i];
    if LeavesZombie(ps, me, n) then Woken(q, OnProc(INIT)) else q
  }

  /** The loop in one step: what it does to each slot does not depend on the others' order. */
  lemma {:induction false} AbandonAt(ps: seq<Proc>, me: nat, n: nat, i: nat)
    requires n <= |ps| && i < |ps| && me != INIT
    ensures Abandon(ps, me, n)[i] == Abandoned(ps, me, n, i)
  {
    if n > 0 {
      AbandonAt(ps, me, n - 1, i);
      AbandonAt(ps, me, n - 1, n - 1);
      assert LeavesZombie(ps, me, n) <==>
          LeavesZombie(ps, me, n - 1) || (ChildOf(ps[n - 1], me) && ps[n - 1].state.ZOMBIE?);
    }
  }

  /** What `exit` does to each slot: the caller is a zombie, its children are init's, and awake are
      a parent asleep on itself and, if a child had exited before, init. */
  lemma ExitAt(ps: seq<Proc>, me: nat, i: nat)
    requires me < |ps| && i < |ps| && me != INIT && ps[me].parent.Some?
    ensures var q := Exit(ps, me)[i];
            && q.pid == ps[i].pid && q.chan == ps[i].chan && q.killed == ps[i].killed
            && q.parent == (if ps[i].parent == Some(me) then Some(INIT) else ps[i].parent)
            && q.state == if i == me then ZOMBIE
                          else if ps[i].state == SLEEPING
                                  && (ps[i].chan == OnProc(ps[me].parent.value)
                                      || (ps[i].chan == OnProc(INIT)
                                          && exists j :: 0 <= j < |ps| && ps[j].parent == Some(me) && ps[j].state == ZOMBIE))
                          then RUNNABLE else ps[i].state
  {
    var woken := Wakeup(ps, ParentChan(ps[me]));
    AbandonAt(woken, me, |ps|, i);
    AbandonAt(woken, me, |ps|, me);
    assert forall j :: 0 <= j < |ps| ==> woken[j] == Woken(ps[j], ParentChan(ps[me]));
    hide Abandon, Wakeup;
    if exists j :: 0 <= j < |ps| && ps[j].parent == Some(me) && ps[j].state == ZOMBIE {
      var j :| 0 <= j < |ps| && ps[j].parent == Some(me) && ps[j].state == ZOMBIE;
      assert ChildOf(woken[j], me) && woken[j].state.ZOMBIE?;
    }
    if LeavesZombie(woken, me, |ps|) {
      var j :| 0 <= j < |ps| && ChildOf(woken[j], me) && woken[j].state.ZOMBIE?;
      assert ps[j].parent == Some(me) && ps[j].state == ZOMBIE;
    }
  }

  // ---------------------------------------------------------------- wait

  datatype WaitResult = Reaped(child: nat) | NoChildren | Asleep

  function ZombieFrom(ps: seq<Proc>, me: nat, i: nat): (k: nat)
    requires i <= |ps|
    ensures i <= k <= |ps|
    ensures k < |ps| ==> ChildOf(ps[k], me) && ps[k].state.ZOMBIE?
    ensures forall j :: i <= j < k ==> !(ChildOf(ps[j], me) && ps[j].state.ZOMBIE?)
    decreases |ps| - i
  {
    if i == |ps| || (ChildOf(ps[i], me) && ps[i].state.ZOMBIE?) then i else ZombieFrom(ps, me, i + 1)
  }

  predicate HasKids(ps: seq<Proc>, me: nat)
  {
    exists i :: 0 <= i < |ps| && ChildOf(ps[i], me)
  }

  function WaitScan(ps: seq<Proc>, me: nat): (r: WaitResult)
    requires me < |ps|
  {
    var k := ZombieFrom(ps, me, 0);
    if k < |ps| then Reaped(k)
    else if !HasKids(ps, me) || ps[me].killed then NoChildren
    else Asleep
  }

  function Reap(ps: seq<Proc>, k: nat): (rs: seq<Proc>)
    requires k < |ps|
    ensures |rs| == |ps|
  {
    ps[k := ps[k].(pid := 0, parent := None, killed := false, state := UNUSED)]
  }

  function AfterWait(ps: seq<Proc>, me: nat): (rs: seq<Proc>)
    requires me < |ps|
    ensures |rs| == |ps|
  {
    match WaitScan(ps, me)
    case Reaped(k) => Reap(ps, k)
    case NoChildren => ps
    case Asleep => ps[me := ps[me].(chan := OnProc(me), state := SLEEPING)]
  }

  // ---------------------------------------------------------------- allocproc and kill

  function UnusedFrom(ps: seq<Proc>, i: nat): (k: nat)
    requires i <= |ps|
    ensures i <= k <= |ps| && (k < |ps| ==> ps[k].state.UNUSED?)
    ensures forall j :: i <= j < k ==> !ps[j].state.UNUSED?
    decreases |ps| - i
  {
    if i == |ps| || ps[i].state.UNUSED? then i else UnusedFrom(ps, i + 1)
  }

  function Alloc(ps: seq<Proc>, k: nat, pid: nat): (rs: seq<Proc>)
    requires k < |ps|
    ensures |rs| == |ps|
  {
    ps[k := ps[k].(state := EMBRYO, pid := pid)]
  }

  function PidFrom(ps: seq<Proc>, pid: int, i: nat): (k: nat)
    requires i <= |ps|
    ensures i <= k <= |ps| && (k < |ps| ==> ps[k].pid == pid)
    ensures forall j :: i <= j < k ==> ps[j].pid != pid
    decreases |ps| - i
  {
    if i == |ps| || ps[i].pid == pid then i else PidFrom(ps, pid, i + 1)
  }

  function Killed(p: Proc): (r: Proc)
  {
    p.(killed := true, state := if p.state.SLEEPING? then RUNNABLE else p.state)
  }

  function Kill(ps: seq<Proc>, pid: int): (rs: seq<Proc>)
    ensures |rs| == |ps|
  {
    var k := PidFrom(ps, pid, 0);
    if k < |ps| then ps[k := Killed(ps[k])] else ps
  }

  // ---------------------------------------------------------------- the code

  class Table {
    const procs: array<Proc>
    var nextpid: nat

    constructor ()
      ensures procs.Length == NPROC && nextpid == 1 && fresh(procs)
      ensures forall i :: 0 <= i < NPROC ==> procs[i] == Proc(UNUSED, 0, None, NoChan, false)
    {
      procs := new Proc[NPROC](_ => Proc(UNUSED, 0, None, NoChan, false));
      nextpid := 1;
    }

    /** `allocproc` while it holds the lock. */
    method AllocProc() returns (ok: bool, k: nat)
      modifies this`nextpid, procs
      ensures k == UnusedFrom(old(procs[..]), 0) && ok == (k < procs.Length)
      ensures if ok then procs[..] == Alloc(old(procs[..]), k, old(nextpid)) && nextpid == old(nextpid) + 1
              else procs[..] == old(procs[..]) && nextpid == old(nextpid)
    {
      k := 0;
      while k < procs.Length
        invariant 0 <= k <= procs.Length
        invariant UnusedFrom(procs[..], k) == UnusedFrom(procs[..], 0)
        invariant procs[..] == old(procs[..]) && nextpid == old(nextpid)
      {
        if procs[k].state == UNUSED {
          procs[k] := procs[k].(state := EMBRYO, pid := nextpid);
          nextpid := nextpid + 1;
          return true, k;
        }
        k := k + 1;
      }
      ok := false;
    }

    method Wakeup1(chan: Chan)
      modifies procs
      ensures procs[..] == Wakeup(old(procs[..]), chan)
      ensures forall j :: 0 <= j < procs.Length ==>
                if old(procs[j].state) == SLEEPING && old(procs[j].chan) == chan
                then procs[j] == old(procs[j]).(state := RUNNABLE) else procs[j] == old(procs[j])
    {
      var i := 0;
      while i < procs.Length
        invariant 0 <= i <= procs.Length
        invariant forall j :: 0 <= j < i ==> procs[j] == Woken(old(procs[j]), chan)
        invariant forall j :: i <= j < procs.Length ==> procs[j] == old(procs[j])
      {
        if procs[i].state == SLEEPING && procs[i].chan == chan {
          procs[i] := procs[i].(state := RUNNABLE);
        }
        i := i + 1;
      }
    }

    /** `exit` while it holds the lock, up to the switch to the scheduler. */
    method ExitProc(me: nat)
      requires me < procs.Length
      modifies procs
      ensures procs[..] == Exit(old(procs[..]), me)
    {
      Wakeup1(ParentChan(procs[me]));
      ghost var ps := procs[..];
      var i := 0;
      while i < procs.Length
        invariant 0 <= i <= procs.Length
        invariant procs[..] == Abandon(ps, me, i)
      {
        assert procs[i] == Abandon(ps, me, i)[i];
        if procs[i].parent == Some(me) {
          procs[i] := procs[i].(parent := Some(INIT));
          if procs[i].state == ZOMBIE {
            Wakeup1(OnProc(INIT));
          }
        }
        i := i + 1;
      }
      procs[me] := procs[me].(state := ZOMBIE);
    }

    /** One scan of `wait`, and what follows it while the lock is held. It returns a child's pid if
        some child has exited. Otherwise it returns -1 if the caller has no children or was killed,
        and else goes to sleep. */
    method Wait(me: nat) returns (r: WaitResult, pid: int)
      requires me < procs.Length
      modifies procs
      ensures r == WaitScan(old(procs[..]), me)
      ensures procs[..] == AfterWait(old(procs[..]), me)
      ensures r.Reaped? <==> exists i :: 0 <= i < procs.Length && old(procs[i].parent) == Some(me) && old(procs[i].state) == ZOMBIE
      ensures r.Reaped? ==>
                && r.child < procs.Length && pid == old(procs[r.child].pid)
                && old(procs[r.child].parent) == Some(me) && old(procs[r.child].state) == ZOMBIE
                && procs[r.child] == Proc(UNUSED, 0, None, old(procs[r.child].chan), false)
                && forall j :: 0 <= j < procs.Length && j != r.child ==> procs[j] == old(procs[j])
      ensures r.NoChildren? <==>
                && (forall i :: 0 <= i < procs.Length && old(procs[i].parent) == Some(me) ==> old(procs[i].state) != ZOMBIE)
                && ((forall i :: 0 <= i < procs.Length ==> old(procs[i].parent) != Some(me)) || old(procs[me].killed))
      ensures r.NoChildren? ==> pid == -1 && procs[..] == old(procs[..])
      ensures r.Asleep? ==> procs[me].state == SLEEPING && procs[me].chan == OnProc(me)
    {
      ghost var ps := procs[..];
      assert forall i :: 0 <= i < procs.Length ==> ps[i] == old(procs[i]);
      pid := 0;
      var havekids, i := false, 0;
      while i < procs.Length
        invariant 0 <= i <= procs.Length && procs[..] == ps
        invariant ZombieFrom(ps, me, i) == ZombieFrom(ps, me, 0)
        invariant havekids <==> exists j :: 0 <= j < i && ChildOf(ps[j], me)
      {
        assert procs[i] == ps[i];
        if procs[i].parent == Some(me) {
          havekids := true;
          if procs[i].state == ZOMBIE {
            pid := procs[i].pid;
            procs[i] := procs[i].(pid := 0, parent := None, killed := false, state := UNUSED);
            return Reaped(i), pid;
          }
        }
        i := i + 1;
      }
      assert procs[me] == ps[me];
      if !havekids || procs[me].killed {
        return NoChildren, -1;
      }
      procs[me] := procs[me].(chan := OnProc(me), state := SLEEPING);
      r := Asleep;
    }

    method KillPid(pid: int) returns (ok: bool)
      modifies procs
      ensures procs[..] == Kill(old(procs[..]), pid)
      ensures ok <==> exists i :: 0 <= i < procs.Length && old(procs[i].pid) == pid
      ensures ok ==>
                exists i :: 0 <= i < procs.Length && old(procs[i].pid) == pid
                            && procs[i].killed && procs[i].state != SLEEPING
                            && (old(procs[i].state) == SLEEPING ==> procs[i].state == RUNNABLE)
                            && (old(procs[i].state) != SLEEPING ==> procs[i].state == old(procs[i].state))
                            && forall j :: 0 <= j < procs.Length && j != i ==> procs[j] == old(procs[j])
    {
      ghost var ps := procs[..];
      assert forall j :: 0 <= j < procs.Length ==> ps[j] == old(procs[j]);
      var i := 0;
      while i < procs.Length
        invariant 0 <= i <= procs.Length && procs[..] == ps
        invariant PidFrom(ps, pid, i) == PidFrom(ps, pid, 0)
      {
        assert procs[i] == ps[i];
        if procs[i].pid == pid {
          procs[i] := procs[i].(killed := true);
          if procs[i].state == SLEEPING {
            procs[i] := procs[i].(state := RUNNABLE);
          }
          assert procs[..] == ps[i := Killed(ps[i])];
          assert old(procs[i].pid) == pid && procs[i].killed && procs[i].state != SLEEPING;
          return true;
        }
        i := i + 1;
      }
      ok := false;
    }
  }
}

/** The code of `log.c` makes only steps of the machine whose runs `LogRuns` settles: each call is a
    step, or the steps of a whole commit one after another. */
module LogSim {
  import opened Blocks
  import opened LogRecovery
  import opened LogCode
  import opened LogRuns
  import Sums

  /** The fields of the code hold what the machine's state says. */
  ghost predicate Shows(log: Log, c: Config, s: State)
    reads log
  {
    && log.Valid() && log.layout == c.layout && log.disk == s.disk && log.block == s.lh
    && log.outstanding == |s.ops| && log.committing == s.phase.Committing? && !s.panicked
    && |s.mem| == |s.disk|
    && forall b :: 0 <= b < |s.disk| && !InLog(c.layout, b) ==> s.mem[b] == Cached(log.dirty, log.disk, b)
  }

  /** The events `es` lead through the states `run`. */
  ghost predicate Path(c: Config, run: seq<State>, es: seq<Event>)
  {
    |run| == |es| + 1 && forall i :: 0 <= i < |es| ==> Next(c, run[i], es[i], run[i + 1])
  }

  lemma PathStep(c: Config, run: seq<State>, es: seq<Event>, e: Event, t: State)
    requires Path(c, run, es) && Next(c, run[|run| - 1], e, t)
    ensures Path(c, run + [t], es + [e])
  {
    hide Next;
  }

  /** `begin_op` admits an operation exactly when no commit runs and the log has room for whatever 10
      blocks it and each outstanding operation may still log; that is when the machine lets it begin. */
  method Begin(log: Log, ghost c: Config, ghost s: State, ghost id: nat) returns (admitted: bool, ghost t: State)
    requires Shows(log, c, s) && id !in s.used
    modifies log
    ensures Shows(log, c, t)
    ensures if admitted then Next(c, s, LogRuns.Begin(id), t)
            else t == s && forall i, u :: !Next(c, s, LogRuns.Begin(i), u)
    ensures admitted <==> s.phase.Idle? && RoomFor(s.lh, |s.ops| + 1)
  {
    hide RoomFor;
    RoomExact(s.lh, |s.ops| + 1);
    admitted := log.BeginOp();
    t := if admitted then s.(ops := s.ops + [Op(id, {})], used := s.used + {id}) else s;
  }

  /** `log_write` by the operation in row `i`. */
  method Write(log: Log, b: nat, data: Block, ghost c: Config, ghost s: State, ghost i: nat)
    returns (panicked: bool, ghost t: State)
    requires Shows(log, c, s) && i < |s.ops| && IsHome(c.layout, s.mem, b) && |s.ops[i].blocks + {b}| <= c.budget
    modifies log
    ensures Next(c, s, LogWrite(i, b, data), t) && panicked == t.panicked
    ensures !panicked ==> Shows(log, c, t)
  {
    hide LogEmpty;
    panicked := log.LogWrite(b, data);
    t := if panicked then s.(panicked := true) else Logged(s, i, b, data);
  }

  /** A commit under way at its start, `k` writes later. */
  ghost function Written(c: Config, s: State, k: nat): (t: State)
    requires ReadyToCommit(c, s) && k <= |Todo(c, s)|
  {
    s.(disk := Apply(s.phase.pre, Todo(c, s)[..k]), phase := Committing(s.phase.pre, k))
  }

  lemma WrittenNext(c: Config, s: State, k: nat)
    requires Inv(c, s) && ReadyToCommit(c, s) && s.phase.done == 0 && !s.panicked && k < |Todo(c, s)|
    requires Inv(c, Written(c, s, k))
    ensures Next(c, Written(c, s, k), CommitWrite, Written(c, s, k + 1)) && Inv(c, Written(c, s, k + 1))
  {
    var u := Written(c, s, k);
    hide Inv, Apply, LogEmpty, ValidTransaction, CommitWrites;
    TodoInRange(c, s, k);
    ApplyPrefix(s.phase.pre, Todo(c, s), k);
    NextKeeps(c, u, CommitWrite, Written(c, s, k + 1));
  }

  lemma TodoInRange(c: Config, s: State, k: nat)
    requires ReadyToCommit(c, s) && k < |Todo(c, s)|
    ensures Todo(c, s)[k].block < |s.phase.pre|
  {
  }

  /** The first `k` writes of a commit as steps of the machine. */
  lemma {:induction false} CommitRun(c: Config, s: State, k: nat) returns (run: seq<State>, es: seq<Event>)
    requires Inv(c, s) && ReadyToCommit(c, s) && s.phase.done == 0 && !s.panicked && k <= |Todo(c, s)|
    ensures Path(c, run, es) && run[0] == s && run[|run| - 1] == Written(c, s, k) && Inv(c, Written(c, s, k))
  {
    if k == 0 {
      run, es := [s], [];
      ApplyNothing(s.phase.pre);
      assert Todo(c, s)[..0] == [];
    } else {
      hide Inv, ReadyToCommit, Todo, Next;
      run, es := CommitRun(c, s, k - 1);
      WrittenNext(c, s, k - 1);
      PathStep(c, run, es, CommitWrite, Written(c, s, k));
      run, es := run + [Written(c, s, k)], es + [CommitWrite];
    }
  }

  /** What follows `end_op` of the last operation, all the way to the end of its commit. */
  lemma WholeCommit(c: Config, s: State, e: State) returns (run: seq<State>, es: seq<Event>, t: State)
    requires Inv(c, s) && !s.panicked && |s.ops| == 1 && s.phase.Idle? && Next(c, s, LogRuns.End(0), e)
    ensures ReadyToCommit(c, e) && e.phase.pre == s.disk && e.lh == s.lh && e.mem == s.mem
    ensures Path(c, run, es) && run[0] == e && run[|run| - 1] == t && Inv(c, t)
    ensures t.disk == Apply(s.disk, Todo(c, e)) && t.lh == [] && t.ops == [] && t.phase.Idle? && !t.panicked
    ensures t.mem == s.mem
  {
    NextKeeps(c, s, LogRuns.End(0), e);
    assert ReadyToCommit(c, e) && e.phase.done == 0;
    var n := |Todo(c, e)|;
    assert Todo(c, e)[..n] == Todo(c, e);
    hide Inv, Apply, LogEmpty, ValidTransaction, CommitWrites;
    run, es := CommitRun(c, e, n);
    var w := Written(c, e, n);
    assert Todo(c, w) == Todo(c, e);
    t := w.(phase := Idle, lh := [], groups := w.groups + [w.open], open := []);
    NextKeeps(c, w, CommitDone, t);
    PathStep(c, run, es, CommitDone, t);
    run, es := run + [t], es + [CommitDone];
  }

  lemma IdleShows(c: Config, t: State, b: nat)
    requires Inv(c, t) && t.phase.Idle? && t.ops == [] && b < |t.disk| && !InLog(c.layout, b)
    ensures |t.mem| == |t.disk| && t.mem[b] == t.disk[b]
  {
    hide Apply, Effect;
    assert Writes(t.open) == [];
    ApplyNothing(Effect(t.base, t.groups));
  }

  lemma SameData(c: Config, e: State, dirty: map<nat, Block>, disk: Disk)
    requires ReadyToCommit(c, e) && e.phase.pre == disk && |e.mem| == |disk|
    requires forall b :: 0 <= b < |disk| && !InLog(c.layout, b) ==> e.mem[b] == Cached(dirty, disk, b)
    requires forall i :: 0 <= i < |e.lh| ==> e.lh[i] < |disk|
    ensures Data(e) == LoggedData(dirty, disk, e.lh)
  {
    hide LogEmpty;
  }

  lemma PathCons(c: Config, s: State, e: Event, run: seq<State>, es: seq<Event>)
    requires Path(c, run, es) && Next(c, s, e, run[0])
    ensures Path(c, [s] + run, [e] + es)
  {
    hide Next;
    var r, f := [s] + run, [e] + es;
    forall i | 0 <= i < |f|
      ensures Next(c, r[i], f[i], r[i + 1])
    {
      if i > 0 { assert Next(c, run[i - 1], es[i - 1], run[i - 1 + 1]); }
    }
  }

  /** `end_op` never panics, and is a step of the machine followed, for the last operation, by the
      block writes of its commit and the end of it. */
  method End(log: Log, ghost c: Config, ghost s: State, ghost i: nat)
    returns (panicked: bool, ghost run: seq<State>, ghost es: seq<Event>, ghost t: State)
    requires Shows(log, c, s) && Inv(c, s) && i < |s.ops|
    modifies log
    ensures !panicked && Shows(log, c, t) && Inv(c, t)
    ensures Path(c, run, es) && |es| > 0 && es[0] == LogRuns.End(i) && run[0] == s && run[|run| - 1] == t
  {
    assert s.phase.Idle?;
    ghost var e := s.(ops := Sums.Without(s.ops, i), phase := if |s.ops| == 1 then Committing(s.disk, 0) else Idle);
    NextKeeps(c, s, LogRuns.End(i), e);
    if |s.ops| > 1 {
      t, run, es := e, [s, e], [LogRuns.End(i)];
    } else {
      run, es, t := WholeCommit(c, s, e);
      SameData(c, e, log.dirty, log.disk);
      PathCons(c, s, LogRuns.End(i), run, es);
      run, es := [s] + run, [LogRuns.End(i)] + es;
      forall b | 0 <= b < |t.disk| && !InLog(c.layout, b)
        ensures |t.mem| == |t.disk| && t.mem[b] == t.disk[b]
      {
        IdleShows(c, t, b);
      }
    }
    hide Inv, Apply, CommitWrites, Path, Next, LogEmpty;
    panicked := log.EndOp();
  }

  lemma NoCuts(l: Layout, d: Disk)
    requires WellFormed(l, d)
    ensures CutRecoveries(l, d, []) == d
  {
  }

  lemma AfterCrash(c: Config, s: State) returns (t: State)
    requires Inv(c, s)
    ensures WellFormed(c.layout, s.disk) && t.disk == Recover(c.layout, s.disk)
    ensures Next(c, s, Crash([]), t) && Inv(c, t)
    ensures t.mem == t.disk && t.lh == [] && t.ops == [] && t.phase.Idle? && !t.panicked
  {
    hide Inv, Recover, WellFormed, LogEmpty, SameHome, Effect;
    CrashRecoversGroups(c, s, []);
    NoCuts(c.layout, s.disk);
    hide CutRecoveries;
    var r := Recover(c.layout, s.disk);
    t := State(r, r, [], [], Idle, false, s.base, if HeaderOut(s) then s.groups + [s.open] else s.groups, [], s.used);
    NextKeeps(c, s, Crash([]), t);
  }

  /** After a crash in any state, a fresh start recovers to where the machine goes. */
  method Reboot(c: Config, disk: Disk, ghost s: State) returns (log: Log, ghost t: State)
    requires Inv(c, s) && disk == s.disk
    ensures fresh(log) && Shows(log, c, t) && Inv(c, t) && Next(c, s, Crash([]), t)
  {
    t := AfterCrash(c, s);
    hide Inv, Next, Recover, WellFormed, LogEmpty;
    log := new Log.Boot(c.layout, disk);
    log.RecoverFromLog();
  }

  // ---------------------------------------------------------------- who is refused gets in later

  /** Only operations ending and the commit going on. */
  predicate Winding(e: Event)
  {
    e.End? || e.CommitWrite? || e.CommitDone?
  }

  ghost predicate WindsDown(c: Config, s: State, run: seq<State>, es: seq<Event>, t: State)
  {
    Path(c, run, es) && run[0] == s && run[|run| - 1] == t && forall i :: 0 <= i < |es| ==> Winding(es[i])
  }

  ghost predicate Drained(t: State)
  {
    t.phase.Idle? && t.ops == [] && t.lh == [] && !t.panicked
  }

  lemma WindCons(c: Config, s: State, e: Event, u: State, run: seq<State>, es: seq<Event>, t: State)
    requires Next(c, s, e, u) && Winding(e) && WindsDown(c, u, run, es, t)
    ensures WindsDown(c, s, [s] + run, [e] + es, t)
  {
    hide Next;
    PathCons(c, s, e, run, es);
  }

  ghost function WritesLeft(c: Config, s: State): (n: nat)
    requires Inv(c, s)
  {
    if s.phase.Committing? then |Todo(c, s)| - s.phase.done else 0
  }

  /** The next write of a commit under way. */
  lemma CommitGoesOn(c: Config, s: State) returns (u: State)
    requires Inv(c, s) && s.phase.Committing? && !s.panicked && WritesLeft(c, s) > 0
    ensures Next(c, s, CommitWrite, u) && Inv(c, u) && WritesLeft(c, u) == WritesLeft(c, s) - 1
    ensures u.phase.Committing? && !u.panicked && u.used == s.used
  {
    hide Apply, LogEmpty, ValidTransaction, CommitWrites;
    var w := Todo(c, s)[s.phase.done];
    TodoInRange(c, s, s.phase.done);
    u := s.(disk := s.disk[w.block := w.data], phase := Committing(s.phase.pre, s.phase.done + 1));
    NextKeeps(c, s, CommitWrite, u);
  }

  lemma CommitEnds(c: Config, s: State) returns (t: State)
    requires Inv(c, s) && s.phase.Committing? && !s.panicked && WritesLeft(c, s) == 0
    ensures Next(c, s, CommitDone, t) && Inv(c, t) && Drained(t) && t.used == s.used
  {
    hide Apply, LogEmpty, ValidTransaction, CommitWrites;
    t := s.(phase := Idle, lh := [], groups := s.groups + [s.open], open := []);
    NextKeeps(c, s, CommitDone, t);
  }

  /** A commit under way runs to its end. */
  lemma {:induction false} CommitFinishes(c: Config, s: State) returns (run: seq<State>, es: seq<Event>, t: State)
    requires Inv(c, s) && s.phase.Committing? && !s.panicked
    ensures WindsDown(c, s, run, es, t) && Inv(c, t) && Drained(t) && t.used == s.used
    decreases WritesLeft(c, s)
  {
    hide Inv, Next, WritesLeft, Drained;
    if WritesLeft(c, s) > 0 {
      var u := CommitGoesOn(c, s);
      run, es, t := CommitFinishes(c, u);
      WindCons(c, s, CommitWrite, u, run, es, t);
      run, es := [s] + run, [CommitWrite] + es;
    } else {
      t := CommitEnds(c, s);
      run, es := [s, t], [CommitDone];
    }
  }

  /** If the outstanding operations end one after another, the last one commits. */
  lemma {:induction false} WindDown(c: Config, s: State) returns (run: seq<State>, es: seq<Event>, t: State)
    requires Inv(c, s) && !s.panicked
    ensures WindsDown(c, s, run, es, t) && Inv(c, t) && Drained(t) && t.used == s.used
    decreases |s.ops|
  {
    if s.phase.Committing? {
      run, es, t := CommitFinishes(c, s);
    } else if s.ops == [] {
      run, es, t := [s], [], s;
    } else {
      var u := s.(ops := Sums.Without(s.ops, 0), phase := if |s.ops| == 1 then Committing(s.disk, 0) else Idle);
      NextKeeps(c, s, LogRuns.End(0), u);
      hide Inv;
      run, es, t := WindDown(c, u);
      WindCons(c, s, LogRuns.End(0), u, run, es, t);
      run, es := [s] + run, [LogRuns.End(0)] + es;
    }
  }

  /** Whoever is refused in a reachable state gets in once the operations before have ended and their
      commit is through, which nothing can stop but a crash. */
  lemma RefusedGetsIn(c: Config, s: State, id: nat) returns (run: seq<State>, es: seq<Event>, t: State)
    requires Reachable(c, s) && !s.panicked && id !in s.used
    ensures WindsDown(c, s, run, es, t) && exists u :: Next(c, t, LogRuns.Begin(id), u)
  {
    ReachableInv(c, s);
    run, es, t := WindDown(c, s);
    RoomExact(t.lh, |t.ops| + 1);
    AdmissionExact(c, t, id);
  }
}

/** Group commit as a state machine: any number of operations between `begin_op` and `end_op`,
    interleaved in any order, with crashes between any two steps or block writes. */
module LogRuns {
  import opened Blocks
  import opened LogRecovery
  import opened LogCode
  import opened Sums

  /** An outstanding operation and the distinct blocks it has logged. */
  datatype Op = Op(id: nat, blocks: set<nat>)

  datatype Entry = Entry(op: nat, write: Write)
  type Group = seq<Entry>

  /** `Committing`: the commit started on disk `pre` and has made `done` of its writes. */
  datatype Phase = Idle | Committing(pre: Disk, done: nat)

  datatype State = State(
    disk: Disk,            // what survives a crash
    mem: Disk,             // what readers see: the buffer cache over the disk
    lh: seq<nat>,
    ops: seq<Op>,
    phase: Phase,
    panicked: bool,
    base: Disk,            // history: the first disk,
    groups: seq<Group>,    // the groups committed since,
    open: Group,           // the writes of the group being formed or committed,
    used: set<nat>)        // and every operation ever begun

  /** `budget`: how many distinct blocks one operation logs at most. */
  datatype Config = Config(layout: Layout, budget: nat)

  datatype Event =
    | Begin(id: nat)
    | LogWrite(op: nat, block: nat, data: Block)
    | End(op: nat)
    | CommitWrite
    | CommitDone
    | Crash(cuts: seq<nat>)

  // ---------------------------------------------------------------- the machine

  ghost predicate LhInRange(s: State)
  {
    forall i :: 0 <= i < |s.lh| ==> s.lh[i] < |s.mem|
  }

  function Data(s: State): (data: seq<Block>)
    requires LhInRange(s)
    ensures |data| == |s.lh|
  {
    seq(|s.lh|, i requires 0 <= i < |s.lh| => s.mem[s.lh[i]])
  }

  ghost predicate ReadyToCommit(c: Config, s: State)
  {
    && s.phase.Committing? && LhInRange(s) && LogEmpty(c.layout, s.phase.pre)
    && ValidTransaction(c.layout, s.phase.pre, s.lh, Data(s))
  }

  ghost function Todo(c: Config, s: State): (ws: seq<Write>)
    requires ReadyToCommit(c, s)
  {
    CommitWrites(c.layout, s.phase.pre, s.lh, Data(s))
  }

  /** Whether the header block naming the open group has reached the disk. */
  predicate HeaderOut(s: State)
  {
    s.phase.Committing? && s.phase.done > |s.lh|
  }

  function Logged(s: State, i: nat, b: nat, data: Block): (t: State)
    requires i < |s.ops| && b < |s.mem|
  {
    s.(mem := s.mem[b := data], lh := Absorb(s.lh, b),
       ops := s.ops[i := Op(s.ops[i].id, s.ops[i].blocks + {b})],
       open := s.open + [Entry(s.ops[i].id, Write(b, data))])
  }

  ghost predicate Next(c: Config, s: State, e: Event, t: State)
  {
    match e
    case Begin(id) =>
      && !s.panicked && id !in s.used
      && MayBegin(|s.lh|, |s.ops|, s.phase.Committing?)
      && t == s.(ops := s.ops + [Op(id, {})], used := s.used + {id})
    case LogWrite(i, b, data) =>
      && !s.panicked && i < |s.ops| && IsHome(c.layout, s.mem, b)
      && |s.ops[i].blocks + {b}| <= c.budget
      && t == if LogWritePanics(c.layout, |s.lh|, |s.ops|) then s.(panicked := true)
              else Logged(s, i, b, data)
    case End(i) =>
      && !s.panicked && i < |s.ops|
      && t == if s.phase.Committing? then s.(panicked := true)
              else s.(ops := Without(s.ops, i),
                      phase := if |s.ops| == 1 then Committing(s.disk, 0) else Idle)
    case CommitWrite =>
      && !s.panicked && ReadyToCommit(c, s) && s.phase.done < |Todo(c, s)|
      && Todo(c, s)[s.phase.done].block < |s.disk|
      && t == s.(disk := s.disk[Todo(c, s)[s.phase.done].block := Todo(c, s)[s.phase.done].data],
                 phase := Committing(s.phase.pre, s.phase.done + 1))
    case CommitDone =>
      && !s.panicked && ReadyToCommit(c, s) && s.phase.done == |Todo(c, s)|
      && t == s.(phase := Idle, lh := [], groups := s.groups + [s.open], open := [])
    case Crash(cuts) =>
      && (WellFormed(c.layout, s.disk) ==> t.disk == Recover(c.layout, CutRecoveries(c.layout, s.disk, cuts)))
      && t == State(t.disk, t.disk, [], [], Idle, false, s.base,
                    if HeaderOut(s) then s.groups + [s.open] else s.groups, [], s.used)
  }

  ghost predicate Init(c: Config, s: State)
  {
    && LogEmpty(c.layout, s.disk)
    && s == State(s.disk, s.disk, [], [], Idle, false, s.disk, [], [], {})
  }

  /** A finite run: its states and the events between them. */
  ghost predicate IsRun(c: Config, run: seq<State>, events: seq<Event>)
  {
    && |run| == |events| + 1 && Init(c, run[0])
    && forall i :: 0 <= i < |events| ==> Next(c, run[i], events[i], run[i + 1])
  }

  ghost predicate Reachable(c: Config, s: State)
  {
    exists run, events :: IsRun(c, run, events) && run[|run| - 1] == s
  }

  // ---------------------------------------------------------------- the effect of groups

  function Writes(g: Group): (ws: seq<Write>)
    ensures |ws| == |g|
  {
    seq(|g|, i requires 0 <= i < |g| => g[i].write)
  }

  /** The disk after all the writes of all the groups, in order, with no log and no crash. */
  function Effect(base: Disk, groups: seq<Group>): (d: Disk)
    ensures |d| == |base|
  {
    if groups == [] then base
    else Apply(Effect(base, groups[..|groups| - 1]), Writes(groups[|groups| - 1]))
  }

  lemma EffectSnoc(base: Disk, groups: seq<Group>, g: Group)
    ensures Effect(base, groups + [g]) == Apply(Effect(base, groups), Writes(g))
  {
    assert (groups + [g])[..|groups|] == groups;
  }

  // ---------------------------------------------------------------- what every step keeps

  ghost predicate Shape(c: Config, s: State)
  {
    && 1 <= c.layout.size && c.layout.start + c.layout.size <= |s.disk|
    && |s.disk| == |s.mem| == |s.base|
    && |s.lh| <= LOGSIZE && |s.lh| < c.layout.size
    && (forall i :: 0 <= i < |s.lh| ==> IsHome(c.layout, s.mem, s.lh[i]))
    && (forall i, j :: 0 <= i < j < |s.lh| ==> s.lh[i] != s.lh[j])
    && (forall i :: 0 <= i < |s.open| ==> s.open[i].write.block in s.lh)
  }

  ghost predicate Quiet(s: State)
  {
    && (s.phase.Committing? ==> s.ops == [])
    && (s.phase.Idle? && s.ops == [] ==> s.lh == [] && s.open == [])
  }

  /** Readers see the committed groups and the open one; the disk holds the committed ones,
      or is part of the way through committing the open one. */
  ghost predicate Durable(c: Config, s: State)
  {
    && SameHome(c.layout, s.mem, Apply(Effect(s.base, s.groups), Writes(s.open)))
    && match s.phase
       case Idle => LogEmpty(c.layout, s.disk) && SameHome(c.layout, s.disk, Effect(s.base, s.groups))
       case Committing(pre, done) =>
         && ReadyToCommit(c, s) && SameHome(c.layout, pre, Effect(s.base, s.groups))
         && done <= |Todo(c, s)| && s.disk == Apply(pre, Todo(c, s)[..done])
  }

  ghost predicate Inv(c: Config, s: State)
  {
    Shape(c, s) && Quiet(s) && Durable(c, s)
  }

  /** Installing the logged blocks has the effect of all the writes of the group. */
  lemma InstallIsTheGroup(c: Config, s: State, d: Disk)
    requires Shape(c, s)
    requires SameHome(c.layout, d, Effect(s.base, s.groups))
    requires SameHome(c.layout, s.mem, Apply(Effect(s.base, s.groups), Writes(s.open)))
    ensures SameHome(c.layout, Apply(d, HomeWrites(s.lh, Data(s))), Apply(Effect(s.base, s.groups), Writes(s.open)))
  {
    var hs := HomeWrites(s.lh, Data(s));
    var f := Effect(s.base, s.groups);
    forall b | 0 <= b < |d| && !InLog(c.layout, b)
      ensures Apply(d, hs)[b] == Apply(f, Writes(s.open))[b]
    {
      if b in s.lh {
        var i :| 0 <= i < |s.lh| && s.lh[i] == b;
        ApplyLast(d, hs, i);
      } else {
        ApplyUntouched(d, hs, b);
        ApplyUntouched(f, Writes(s.open), b);
      }
    }
  }

  lemma BeginKeeps(c: Config, s: State, id: nat, t: State)
    requires Inv(c, s) && Next(c, s, Begin(id), t)
    ensures Inv(c, t)
  {
  }

  lemma LogWriteKeepsShape(c: Config, s: State, i: nat, b: nat, data: Block, t: State)
    requires Shape(c, s) && Next(c, s, LogWrite(i, b, data), t)
    ensures Shape(c, t)
  {
    AbsorbMembers(s.lh, b);
  }

  lemma LogWriteKeeps(c: Config, s: State, i: nat, b: nat, data: Block, t: State)
    requires Inv(c, s) && Next(c, s, LogWrite(i, b, data), t)
    ensures Inv(c, t)
  {
    hide Apply, Effect, LogEmpty, ValidTransaction, CommitWrites;
    if !t.panicked {
      LogWriteKeepsShape(c, s, i, b, data, t);
      hide Shape;
      assert Writes(t.open) == Writes(s.open) + [Write(b, data)];
      ApplySnoc(Effect(s.base, s.groups), Writes(s.open), Write(b, data));
    }
  }

  lemma EndKeeps(c: Config, s: State, i: nat, t: State)
    requires Inv(c, s) && Next(c, s, End(i), t)
    ensures Inv(c, t)
  {
    hide Effect, LogEmpty;
    if t.phase.Committing? {
      assert Todo(c, t)[..0] == [];
      ApplyNothing(s.disk);
    }
  }

  lemma CommitWriteKeeps(c: Config, s: State, t: State)
    requires Inv(c, s) && Next(c, s, CommitWrite, t)
    ensures Inv(c, t)
  {
    hide Apply, Effect, LogEmpty, CommitWrites;
    ApplyPrefix(s.phase.pre, Todo(c, s), s.phase.done);
  }

  lemma CommitDoneKeeps(c: Config, s: State, t: State)
    requires Inv(c, s) && Next(c, s, CommitDone, t)
    ensures Inv(c, t)
  {
    hide Apply, Effect, LogEmpty, CommitWrites;
    var ws := Todo(c, s);
    assert ws[..s.phase.done] == ws;
    CommitCompletes(c.layout, s.phase.pre, s.lh, Data(s));
    InstallIsTheGroup(c, s, s.phase.pre);
    EffectSnoc(s.base, s.groups, s.open);
    assert Writes(t.open) == [];
    ApplyNothing(Effect(t.base, t.groups));
  }

  /** Wherever a crash strikes, recovery leaves the committed groups, and the open group as
      well exactly when its header had been written. */
  lemma CrashRecoversGroups(c: Config, s: State, cuts: seq<nat>)
    requires Inv(c, s)
    ensures WellFormed(c.layout, s.disk)
    ensures var r := Recover(c.layout, CutRecoveries(c.layout, s.disk, cuts));
            && LogEmpty(c.layout, r)
            && SameHome(c.layout, r, Effect(s.base, if HeaderOut(s) then s.groups + [s.open] else s.groups))
  {
    hide Apply, Effect, CommitWrites, HeaderCount, PutHeader;
    var l := c.layout;
    if s.phase.Idle? {
      CommitSurvivesCrashes(l, s.disk, [], [], 0, cuts);
      ApplyNothing(s.disk);
      assert CommitWrites(l, s.disk, [], [])[..0] == [];
    } else {
      CommitSurvivesCrashes(l, s.phase.pre, s.lh, Data(s), s.phase.done, cuts);
      InstallIsTheGroup(c, s, s.phase.pre);
      EffectSnoc(s.base, s.groups, s.open);
    }
  }

  lemma CrashKeeps(c: Config, s: State, cuts: seq<nat>, t: State)
    requires Inv(c, s) && Next(c, s, Crash(cuts), t)
    ensures Inv(c, t)
  {
    hide Apply, Effect, WellFormed;
    CrashRecoversGroups(c, s, cuts);
    assert Writes(t.open) == [];
    ApplyNothing(Effect(t.base, t.groups));
  }

  lemma NextKeeps(c: Config, s: State, e: Event, t: State)
    requires Inv(c, s) && Next(c, s, e, t)
    ensures Inv(c, t)
  {
    hide *;
    match e
    case Begin(id) => BeginKeeps(c, s, id, t);
    case LogWrite(i, b, data) => LogWriteKeeps(c, s, i, b, data, t);
    case End(i) => EndKeeps(c, s, i, t);
    case CommitWrite => CommitWriteKeeps(c, s, t);
    case CommitDone => CommitDoneKeeps(c, s, t);
    case Crash(cuts) => CrashKeeps(c, s, cuts, t);
  }

  lemma InitInv(c: Config, s: State)
    requires Init(c, s)
    ensures Inv(c, s)
  {
    assert Writes(s.open) == [];
  }

  lemma {:induction false} RunInv(c: Config, run: seq<State>, events: seq<Event>, k: nat)
    requires IsRun(c, run, events) && k < |run|
    ensures Inv(c, run[k])
  {
    hide Inv, Next, Init;
    if k == 0 {
      InitInv(c, run[0]);
    } else {
      RunInv(c, run, events, k - 1);
      NextKeeps(c, run[k - 1], events[k - 1], run[k]);
    }
  }

  lemma ReachableInv(c: Config, s: State)
    requires Reachable(c, s)
    ensures Inv(c, s)
  {
    var run, events :| IsRun(c, run, events) && run[|run| - 1] == s;
    RunInv(c, run, events, |run| - 1);
  }

  /** In every reachable state: no commit runs while an operation is outstanding, so the
      panic in `end_op` cannot happen, and a crash leaves whole groups. */
  lemma GroupCommitIsSafe(c: Config, s: State, cuts: seq<nat>)
    requires Reachable(c, s)
    ensures s.phase.Committing? ==> s.ops == []
    ensures WellFormed(c.layout, s.disk)
    ensures var r := Recover(c.layout, CutRecoveries(c.layout, s.disk, cuts));
            && LogEmpty(c.layout, r)
            && (SameHome(c.layout, r, Effect(s.base, s.groups))
                || (s.phase.Committing? && SameHome(c.layout, r, Effect(s.base, s.groups + [s.open]))))
  {
    ReachableInv(c, s);
    CrashRecoversGroups(c, s, cuts);
  }

  lemma EndOpNeverPanics(c: Config, s: State, op: nat, t: State)
    requires Reachable(c, s) && Next(c, s, End(op), t)
    ensures !t.panicked
  {
    ReachableInv(c, s);
  }

  // ---------------------------------------------------------------- history

  /** A committed group is never lost and never changes, whatever happens later. */
  lemma {:induction false} CommittedGroupsStay(c: Config, run: seq<State>, events: seq<Event>, i: nat, j: nat)
    requires IsRun(c, run, events) && i <= j < |run|
    ensures run[i].groups <= run[j].groups && run[i].base == run[j].base
    decreases j - i
  {
    if i < j {
      CommittedGroupsStay(c, run, events, i, j - 1);
      assert Next(c, run[j - 1], events[j - 1], run[j - 1 + 1]);
    }
  }

  function OpsOf(g: Group): (ids: set<nat>)
  {
    set i | 0 <= i < |g| :: g[i].op
  }

  /** The groups so far, the open one last. */
  function AllGroups(s: State): (gs: seq<Group>)
  {
    s.groups + [s.open]
  }

  ghost predicate Owners(s: State)
  {
    && OpsOf(s.open) <= s.used
    && (forall i :: 0 <= i < |s.groups| ==> OpsOf(s.groups[i]) <= s.used && OpsOf(s.groups[i]) !! OpsOf(s.open))
    && (forall i, j :: 0 <= i < j < |s.groups| ==> OpsOf(s.groups[i]) !! OpsOf(s.groups[j]))
    && (forall k :: 0 <= k < |s.ops| ==> s.ops[k].id in s.used)
    && (forall i, k :: 0 <= i < |s.groups| && 0 <= k < |s.ops| ==> s.ops[k].id !in OpsOf(s.groups[i]))
  }

  lemma NextKeepsOwners(c: Config, s: State, e: Event, t: State)
    requires Quiet(s) && Owners(s) && Next(c, s, e, t)
    ensures Owners(t)
  {
    hide OpsOf, LogEmpty, ValidTransaction, Recover, CutRecoveries, CommitWrites, WellFormed, IsHome, LogWritePanics;
    OpsOfNothing();
    match e
    case Begin(id) =>
    case LogWrite(k, b, data) =>
      OpsOfSnoc(s.open, Entry(s.ops[k].id, Write(b, data)));
    case End(k) =>
    case CommitWrite =>
    case CommitDone =>
    case Crash(cuts) =>
  }

  lemma OpsOfNothing()
    ensures OpsOf([]) == {}
  {
  }

  lemma OpsOfSnoc(g: Group, e: Entry)
    ensures OpsOf(g + [e]) == OpsOf(g) + {e.op}
  {
    var h := g + [e];
    assert h[|g|] == e;
    assert forall i :: 0 <= i < |g| ==> h[i] == g[i];
  }

  lemma {:induction false} RunOwners(c: Config, run: seq<State>, events: seq<Event>, k: nat)
    requires IsRun(c, run, events) && k < |run|
    ensures Owners(run[k])
  {
    hide Next, Owners;
    if k == 0 {
      InitOwners(c, run[0]);
    } else {
      RunOwners(c, run, events, k - 1);
      RunInv(c, run, events, k - 1);
      NextKeepsOwners(c, run[k - 1], events[k - 1], run[k]);
    }
  }

  lemma InitOwners(c: Config, s: State)
    requires Init(c, s)
    ensures Owners(s)
  {
  }

  /** All the writes of one operation are in one group, the open one while it is outstanding. */
  lemma OneGroupPerOperation(c: Config, s: State, i: nat, j: nat, id: nat)
    requires Reachable(c, s) && i < |AllGroups(s)| && j < |AllGroups(s)|
    requires id in OpsOf(AllGroups(s)[i]) && id in OpsOf(AllGroups(s)[j])
    ensures i == j
    ensures (exists k :: 0 <= k < |s.ops| && s.ops[k].id == id) ==> i == |s.groups|
  {
    var run, events :| IsRun(c, run, events) && run[|run| - 1] == s;
    RunOwners(c, run, events, |run| - 1);
  }

  // ---------------------------------------------------------------- log space

  /** What one operation may still add to the log. */
  function ReserveOf(budget: nat): (f: Op -> int)
  {
    (op: Op) => budget - |op.blocks|
  }

  ghost predicate Space(c: Config, s: State)
  {
    && !s.panicked
    && (forall i :: 0 <= i < |s.ops| ==> |s.ops[i].blocks| <= c.budget)
    && (forall i, b :: 0 <= i < |s.ops| && b in s.ops[i].blocks ==> b in s.lh)
    && (s.ops != [] ==> |s.lh| + Sum(s.ops, ReserveOf(c.budget)) <= 28)
  }

  lemma {:induction false} ReserveBounds(ops: seq<Op>, budget: nat)
    requires forall i :: 0 <= i < |ops| ==> |ops[i].blocks| <= budget
    ensures 0 <= Sum(ops, ReserveOf(budget)) <= budget * |ops|
  {
    if ops != [] {
      ReserveBounds(ops[1..], budget);
      assert budget * |ops| == budget + budget * |ops[1..]|;
    }
  }

  lemma {:induction false} SumSnoc(ops: seq<Op>, f: Op -> int, op: Op)
    ensures Sum(ops + [op], f) == Sum(ops, f) + f(op)
  {
    SumDrop(ops + [op], f, |ops|);
    assert (ops + [op])[..|ops|] + (ops + [op])[|ops| + 1..] == ops;
  }

  lemma BeginKeepsSpace(c: Config, s: State, id: nat, t: State)
    requires c.budget <= 9 && Quiet(s) && Space(c, s) && Next(c, s, Begin(id), t)
    ensures Space(c, t)
  {
    var f, n := ReserveOf(c.budget), |s.ops|;
    ReserveBounds(s.ops, c.budget);
    SumSnoc(s.ops, f, Op(id, {}));
    assert c.budget * n <= 9 * n;
  }

  lemma LogWriteKeepsSpace(c: Config, s: State, i: nat, b: nat, data: Block, t: State)
    requires c.layout.size == 30 && Quiet(s) && Space(c, s) && Next(c, s, LogWrite(i, b, data), t)
    ensures Space(c, t)
  {
    hide IsHome;
    var f := ReserveOf(c.budget);
    ReserveBounds(s.ops, c.budget);
    AbsorbMembers(s.lh, b);
    assert !LogWritePanics(c.layout, |s.lh|, |s.ops|);
    SetGrows(s.ops[i].blocks, b);
    SumUpdate(s.ops, f, i, t.ops[i]);
  }

  lemma SetGrows(s: set<nat>, b: nat)
    ensures |s + {b}| == |s| + if b in s then 0 else 1
  {
    if b in s {
      assert s + {b} == s;
    }
  }

  lemma EndKeepsSpace(c: Config, s: State, i: nat, t: State)
    requires Quiet(s) && Space(c, s) && Next(c, s, End(i), t)
    ensures Space(c, t)
  {
    SumDrop(s.ops, ReserveOf(c.budget), i);
  }

  lemma NextKeepsSpace(c: Config, s: State, e: Event, t: State)
    requires c.layout.size == 30 && c.budget <= 9
    requires Quiet(s) && Space(c, s) && Next(c, s, e, t)
    ensures Space(c, t)
  {
    match e
    case Begin(id) => BeginKeepsSpace(c, s, id, t);
    case LogWrite(i, b, data) => LogWriteKeepsSpace(c, s, i, b, data, t);
    case End(i) => EndKeepsSpace(c, s, i, t);
    case CommitWrite =>
    case CommitDone =>
    case Crash(cuts) =>
  }

  lemma {:induction false} RunSpace(c: Config, run: seq<State>, events: seq<Event>, k: nat)
    requires IsRun(c, run, events) && k < |run| && c.layout.size == 30 && c.budget <= 9
    ensures Space(c, run[k])
  {
    hide Next;
    if k > 0 {
      RunSpace(c, run, events, k - 1);
      RunInv(c, run, events, k - 1);
      NextKeepsSpace(c, run[k - 1], events[k - 1], run[k]);
    }
  }

  lemma NeverPanics(c: Config, s: State)
    requires Reachable(c, s) && c.layout.size == 30 && c.budget <= 9
    ensures !s.panicked
  {
    var run, events :| IsRun(c, run, events) && run[|run| - 1] == s;
    RunSpace(c, run, events, |run| - 1);
  }

  // The run that fills the log: three operations, ten blocks each.

  lemma ReachableStep(c: Config, s: State, e: Event, t: State)
    requires Reachable(c, s) && Next(c, s, e, t)
    ensures Reachable(c, t)
  {
    hide Next, Init;
    var run, events :| IsRun(c, run, events) && run[|run| - 1] == s;
    assert IsRun(c, run + [t], events + [e]);
    assert (run + [t])[|run + [t]| - 1] == t;
  }

  ghost predicate Filling(c: Config, d: Disk, s: State, j: nat)
  {
    && Reachable(c, s) && !s.panicked && s.base == d && |s.mem| == |d| && s.phase.Idle?
    && |s.lh| == j && (forall b :: b in s.lh ==> b < c.layout.start + 30 + j)
    && |s.ops| == 3
    && (forall i :: 0 <= i < 3 ==> |s.ops[i].blocks| <= if j <= 10 * i then 0 else j - 10 * i)
    && (forall i :: 0 <= i < 3 ==> |s.ops[i].blocks| <= 10)
  }

  lemma ThreeOperations(c: Config, d: Disk) returns (s: State)
    requires LogEmpty(c.layout, d)
    ensures Filling(c, d, s, 0)
  {
    hide LogEmpty;
    var s0 := State(d, d, [], [], Idle, false, d, [], [], {});
    assert IsRun(c, [s0], []);
    var s1 := s0.(ops := [Op(0, {})], used := {0});
    assert Next(c, s0, Begin(0), s1);
    ReachableStep(c, s0, Begin(0), s1);
    var s2 := s1.(ops := [Op(0, {}), Op(1, {})], used := {0, 1});
    assert Next(c, s1, Begin(1), s2);
    ReachableStep(c, s1, Begin(1), s2);
    s := s2.(ops := [Op(0, {}), Op(1, {}), Op(2, {})], used := {0, 1, 2});
    assert Next(c, s2, Begin(2), s);
    ReachableStep(c, s2, Begin(2), s);
  }

  lemma FillOne(c: Config, d: Disk, s: State, j: nat) returns (t: State)
    requires c.layout.size == 30 && c.budget >= 10 && j < 30
    requires c.layout.start + 60 <= |d| <= 0x1_0000_0000
    requires Filling(c, d, s, j)
    ensures if j < 29 then Filling(c, d, t, j + 1) else Reachable(c, t) && t.panicked && t.base == d
  {
    hide Reachable, LogEmpty;
    var i, b := j / 10, c.layout.start + 30 + j;
    var blocks := s.ops[i].blocks;
    assert |blocks + {b}| <= |blocks| + 1;
    t := if LogWritePanics(c.layout, |s.lh|, |s.ops|) then s.(panicked := true) else Logged(s, i, b, ZeroBlock());
    assert Next(c, s, LogWrite(i, b, ZeroBlock()), t);
    ReachableStep(c, s, LogWrite(i, b, ZeroBlock()), t);
    AbsorbMembers(s.lh, b);
  }

  lemma {:induction false} FillLog(c: Config, d: Disk, j: nat) returns (s: State)
    requires c.layout.size == 30 && c.budget >= 10 && j < 30
    requires c.layout.start + 60 <= |d| <= 0x1_0000_0000 && LogEmpty(c.layout, d)
    ensures Filling(c, d, s, j)
  {
    hide Filling;
    if j == 0 {
      s := ThreeOperations(c, d);
    } else {
      s := FillLog(c, d, j - 1);
      s := FillOne(c, d, s, j - 1);
    }
  }

  /** With the 30-block log of the image, no run hits either size panic in `log_write` if and
      only if operations log at most nine distinct blocks: one fewer than MAXOPBLOCKS. */
  lemma LogSpaceExact(c: Config, d: Disk)
    requires c.layout.size == 30 && LogEmpty(c.layout, d)
    requires c.layout.start + 60 <= |d| <= 0x1_0000_0000
    ensures (forall s :: Reachable(c, s) && s.base == d ==> !s.panicked) <==> c.budget <= 9
  {
    if c.budget <= 9 {
      forall s | Reachable(c, s)
        ensures !s.panicked
      {
        NeverPanics(c, s);
      }
    } else {
      var s := FillLog(c, d, 29);
      var t := FillOne(c, d, s, 29);
    }
  }

  // ---------------------------------------------------------------- who is admitted

  /** The block list after logging `bs` as well. */
  function LogSome(lh: seq<nat>, bs: seq<nat>): (r: seq<nat>)
  {
    if bs == [] then lh else Absorb(LogSome(lh, bs[..|bs| - 1]), bs[|bs| - 1])
  }

  /** The block list after each operation has logged its share. */
  function LogAll(lh: seq<nat>, shares: seq<seq<nat>>): (r: seq<nat>)
  {
    if shares == [] then lh else LogSome(LogAll(lh, shares[..|shares| - 1]), shares[|shares| - 1])
  }

  /** Whatever 10 blocks each of `n` operations still logs, the list stays within its 30 entries. */
  ghost predicate RoomFor(lh: seq<nat>, n: nat)
  {
    forall shares: seq<seq<nat>> ::
      |shares| == n && (forall i :: 0 <= i < n ==> |shares[i]| <= 10) ==> |LogAll(lh, shares)| <= 30
  }

  lemma {:induction false} SomeAtMost(lh: seq<nat>, bs: seq<nat>)
    ensures |LogSome(lh, bs)| <= |lh| + |bs|
  {
    if bs != [] { SomeAtMost(lh, bs[..|bs| - 1]); }
  }

  lemma {:induction false} AllAtMost(lh: seq<nat>, shares: seq<seq<nat>>)
    requires forall i :: 0 <= i < |shares| ==> |shares[i]| <= 10
    ensures |LogAll(lh, shares)| <= |lh| + 10 * |shares|
  {
    if shares != [] {
      var n := |shares| - 1;
      AllAtMost(lh, shares[..n]);
      SomeAtMost(LogAll(lh, shares[..n]), shares[n]);
    }
  }

  /** The `n` blocks from `b` on, and ten such blocks for each operation. */
  function Run10(b: nat, n: nat): (bs: seq<nat>)
    ensures |bs| == n
  {
    seq(n, i requires 0 <= i < n => b + i)
  }

  function Shares(b: nat, n: nat): (ss: seq<seq<nat>>)
    ensures |ss| == n
  {
    seq(n, i requires 0 <= i < n => Run10(b + 10 * i, 10))
  }

  ghost predicate Below(lh: seq<nat>, b: nat)
  {
    forall x :: x in lh ==> x < b
  }

  lemma {:induction false} SomeFresh(lh: seq<nat>, b: nat, n: nat)
    requires Below(lh, b)
    ensures |LogSome(lh, Run10(b, n))| == |lh| + n && Below(LogSome(lh, Run10(b, n)), b + n)
  {
    if n > 0 {
      var bs := Run10(b, n);
      assert bs[..n - 1] == Run10(b, n - 1) && bs[n - 1] == b + n - 1;
      SomeFresh(lh, b, n - 1);
    }
  }

  lemma {:induction false} AllFresh(lh: seq<nat>, b: nat, n: nat)
    requires Below(lh, b)
    ensures |LogAll(lh, Shares(b, n))| == |lh| + 10 * n && Below(LogAll(lh, Shares(b, n)), b + 10 * n)
  {
    if n > 0 {
      var ss := Shares(b, n);
      assert ss[..n - 1] == Shares(b, n - 1) && ss[n - 1] == Run10(b + 10 * (n - 1), 10);
      AllFresh(lh, b, n - 1);
      SomeFresh(LogAll(lh, Shares(b, n - 1)), b + 10 * (n - 1), 10);
    }
  }

  lemma {:induction false} Above(lh: seq<nat>) returns (b: nat)
    ensures Below(lh, b)
  {
    b := 0;
    if lh != [] {
      b := Above(lh[1..]);
      b := if lh[0] < b then b else lh[0] + 1;
      assert forall x :: x in lh ==> x == lh[0] || x in lh[1..];
    }
  }

  lemma RoomExact(lh: seq<nat>, n: nat)
    ensures RoomFor(lh, n) <==> |lh| + 10 * n <= 30
  {
    if |lh| + 10 * n <= 30 {
      forall shares: seq<seq<nat>> | |shares| == n && (forall i :: 0 <= i < n ==> |shares[i]| <= 10)
        ensures |LogAll(lh, shares)| <= 30
      {
        AllAtMost(lh, shares);
      }
    } else {
      var b := Above(lh);
      AllFresh(lh, b, n);
      assert forall i :: 0 <= i < n ==> |Shares(b, n)[i]| <= 10;
    }
  }

  /** A new operation is let in exactly when no commit runs and the log has room for whatever 10
      blocks it and each outstanding operation may log on top of what is logged. */
  lemma AdmissionExact(c: Config, s: State, id: nat)
    requires !s.panicked && id !in s.used
    ensures (exists t :: Next(c, s, Begin(id), t)) <==> s.phase.Idle? && RoomFor(s.lh, |s.ops| + 1)
  {
    RoomExact(s.lh, |s.ops| + 1);
    hide RoomFor;
    var t := s.(ops := s.ops + [Op(id, {})], used := s.used + {id});
    if s.phase.Idle? && RoomFor(s.lh, |s.ops| + 1) {
      assert Next(c, s, Begin(id), t);
    }
  }
}

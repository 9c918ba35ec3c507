/** Any number of readers and writers on one pipe, interleaved at every release of its lock. */
module PipeRuns {
  import opened Blocks
  import opened Pipe

  datatype Phase = Awake | Asleep | Done

  datatype User =
    | Writer(buf: seq<byte>, i: nat, phase: Phase, killed: bool)
    | Reader(n: nat, phase: Phase, killed: bool)

  datatype State = State(
    flow: Flow,
    tags: seq<nat>,              // history: which writer stored each byte
    readopen: bool,
    writeopen: bool,
    users: map<nat, User>)

  datatype Step =
    | StartWrite(t: nat, buf: seq<byte>)
    | StartRead(t: nat, n: nat)
    | WriteOn(t: nat)
    | ReadOn(t: nat)
    | CloseEnd(writable: bool)
    | Kill(t: nat)

  // ---------------------------------------------------------------- the machine

  function Wake(u: User): (v: User)
  {
    if u.phase.Asleep? then u.(phase := Awake) else u
  }

  function WakeReaders(users: map<nat, User>): (r: map<nat, User>)
  {
    map t | t in users :: if users[t].Reader? then Wake(users[t]) else users[t]
  }

  function WakeWriters(users: map<nat, User>): (r: map<nat, User>)
  {
    map t | t in users :: if users[t].Writer? then Wake(users[t]) else users[t]
  }

  function Repeat(t: nat, n: nat): (r: seq<nat>)
    ensures |r| == n && forall i :: 0 <= i < n ==> r[i] == t
  {
    seq(n, _ => t)
  }

  /** What the writer's next region does, as `Pipe.Write` computes it. */
  function Written(s: State, t: nat): (k: nat)
    requires t in s.users && s.users[t].Writer? && s.users[t].i <= |s.users[t].buf| && Buffered(s.flow) <= PIPESIZE
    ensures k <= |s.users[t].buf| - s.users[t].i
  {
    CanWrite(s.flow, |s.users[t].buf| - s.users[t].i)
  }

  function WriteOutcome(s: State, t: nat): (r: Outcome)
    requires t in s.users && s.users[t].Writer? && s.users[t].i <= |s.users[t].buf| && Buffered(s.flow) <= PIPESIZE
  {
    if s.users[t].i + Written(s, t) == |s.users[t].buf| then Returned
    else if !s.readopen || s.users[t].killed then Failed
    else Sleeps
  }

  function ReadOutcome(s: State, t: nat): (r: Outcome)
    requires t in s.users && s.users[t].Reader?
  {
    if Buffered(s.flow) == 0 && s.writeopen then (if s.users[t].killed then Failed else Sleeps) else Returned
  }

  predicate Enabled(s: State, e: Step)
  {
    && (s.readopen || s.writeopen) && 0 <= Buffered(s.flow) <= PIPESIZE
    && match e
       case StartWrite(t, _) => t !in s.users
       case StartRead(t, _) => t !in s.users
       case WriteOn(t) =>
         t in s.users && s.users[t].Writer? && s.users[t].phase.Awake? && s.users[t].i <= |s.users[t].buf|
       case ReadOn(t) => t in s.users && s.users[t].Reader? && s.users[t].phase.Awake?
       case CloseEnd(_) => true
       case Kill(t) => t in s.users
  }

  function Do(s: State, e: Step): (r: State)
    requires Enabled(s, e)
  {
    match e
    case StartWrite(t, buf) => s.(users := s.users[t := Writer(buf, 0, Awake, false)])
    case StartRead(t, n) => s.(users := s.users[t := Reader(n, Awake, false)])
    case WriteOn(t) =>
      var u, k, o := s.users[t], Written(s, t), WriteOutcome(s, t);
      var v := u.(i := u.i + k, phase := if o.Sleeps? then Asleep else Done);
      s.(flow := Stored(s.flow, u.buf[u.i..u.i + k]), tags := s.tags + Repeat(t, k),
         users := (if o.Failed? then s.users else WakeReaders(s.users))[t := v])
    case ReadOn(t) =>
      var u, o := s.users[t], ReadOutcome(s, t);
      if o.Returned? then
        s.(flow := Delivered(s.flow, CanRead(s.flow, u.n)), users := WakeWriters(s.users)[t := Reader(u.n, Done, u.killed)])
      else s.(users := s.users[t := Reader(u.n, if o.Sleeps? then Asleep else Done, u.killed)])
    case CloseEnd(writable) =>
      if writable then s.(writeopen := false, users := WakeReaders(s.users))
      else s.(readopen := false, users := WakeWriters(s.users))
    case Kill(t) => s.(users := s.users[t := Wake(s.users[t]).(killed := true)])
  }

  predicate Init(s: State)
  {
    s.flow == Flow([], []) && s.tags == [] && s.readopen && s.writeopen && s.users == map[]
  }

  // ---------------------------------------------------------------- what every step keeps

  /** The bytes one writer has put in, in the order they went in. */
  function Mine(stored: seq<byte>, tags: seq<nat>, t: nat): (r: seq<byte>)
    requires |tags| == |stored|
  {
    if stored == [] then []
    else
      var n := |stored| - 1;
      Mine(stored[..n], tags[..n], t) + if tags[n] == t then [stored[n]] else []
  }

  ghost predicate WriterAt(s: State, t: nat)
    requires t in s.users && |s.tags| == |s.flow.stored|
  {
    s.users[t].Writer? ==>
      && s.users[t].i <= |s.users[t].buf| && Mine(s.flow.stored, s.tags, t) == s.users[t].buf[..s.users[t].i]
      && (s.users[t].phase.Asleep? ==> s.users[t].i < |s.users[t].buf|)
  }

  /** A writer sleeps only while the pipe is full and its read end open. */
  ghost predicate WritersAsleep(s: State)
  {
    forall t :: t in s.users && s.users[t].Writer? && s.users[t].phase.Asleep? ==>
      Buffered(s.flow) == PIPESIZE && s.readopen
  }

  /** A reader sleeps only while the pipe is empty and its write end open. */
  ghost predicate ReadersAsleep(s: State)
  {
    forall t :: t in s.users && s.users[t].Reader? && s.users[t].phase.Asleep? ==>
      Buffered(s.flow) == 0 && s.writeopen
  }

  ghost predicate Inv(s: State)
  {
    && Fifo(s.flow) && |s.tags| == |s.flow.stored| && WritersAsleep(s)
    && (forall t :: t in s.users ==> WriterAt(s, t))
    && (forall i :: 0 <= i < |s.tags| ==> s.tags[i] in s.users)
  }

  lemma {:induction false} MineAppend(stored: seq<byte>, tags: seq<nat>, bytes: seq<byte>, u: nat, t: nat)
    requires |tags| == |stored|
    ensures Mine(stored + bytes, tags + Repeat(u, |bytes|), t) == Mine(stored, tags, t) + if u == t then bytes else []
  {
    if bytes == [] {
      assert stored + bytes == stored && tags + Repeat(u, 0) == tags;
    } else {
      var n := |bytes| - 1;
      MineAppend(stored, tags, bytes[..n], u, t);
      var all, marks := stored + bytes, tags + Repeat(u, |bytes|);
      assert all[..|all| - 1] == stored + bytes[..n];
      assert marks[..|all| - 1] == tags + Repeat(u, n);
      assert bytes == bytes[..n] + [bytes[n]];
    }
  }

  lemma {:induction false} MineNone(stored: seq<byte>, tags: seq<nat>, t: nat)
    requires |tags| == |stored| && t !in tags
    ensures Mine(stored, tags, t) == []
  {
    if stored != [] { MineNone(stored[..|stored| - 1], tags[..|stored| - 1], t); }
  }

  lemma WriteKeepsWriter(s: State, t: nat, q: nat)
    requires Inv(s) && Enabled(s, WriteOn(t)) && q in s.users
    ensures var r := Do(s, WriteOn(t)); |r.tags| == |r.flow.stored| && q in r.users && WriterAt(r, q)
  {
    hide Mine, Fifo, WritersAsleep;
    var u, k := s.users[t], Written(s, t);
    var bytes := u.buf[u.i..u.i + k];
    assert WriterAt(s, q);
    MineAppend(s.flow.stored, s.tags, bytes, t, q);
    assert u.buf[..u.i] + bytes == u.buf[..u.i + k];
  }

  lemma WriteKeeps(s: State, t: nat)
    requires Inv(s) && Enabled(s, WriteOn(t))
    ensures Inv(Do(s, WriteOn(t)))
  {
    hide Mine, WriterAt;
    var r, u, k := Do(s, WriteOn(t)), s.users[t], Written(s, t);
    StoredFifo(s.flow, u.buf[u.i..u.i + k]);
    hide Fifo;
    forall q | q in r.users
      ensures WriterAt(r, q)
    {
      WriteKeepsWriter(s, t, q);
    }
  }

  lemma ReadKeeps(s: State, t: nat)
    requires Inv(s) && Enabled(s, ReadOn(t))
    ensures Inv(Do(s, ReadOn(t)))
  {
    var r := Do(s, ReadOn(t));
    if ReadOutcome(s, t).Returned? { DeliveredFifo(s.flow, CanRead(s.flow, s.users[t].n)); }
    hide Mine, Fifo;
    forall q | q in r.users
      ensures WriterAt(r, q)
    {
      assert WriterAt(s, q);
    }
  }

  lemma OthersKeep(s: State, e: Step)
    requires Inv(s) && Enabled(s, e) && !e.WriteOn? && !e.ReadOn?
    ensures Inv(Do(s, e))
  {
    var r := Do(s, e);
    if e.StartWrite? { MineNone(s.flow.stored, s.tags, e.t); }
    hide Mine, Fifo;
    forall q | q in r.users
      ensures WriterAt(r, q)
    {
      if q in s.users { assert WriterAt(s, q); }
    }
  }

  lemma StepKeeps(s: State, e: Step)
    requires Inv(s) && Enabled(s, e)
    ensures Inv(Do(s, e))
  {
    hide Inv, Enabled, Do;
    match e {
      case WriteOn(t) => WriteKeeps(s, t);
      case ReadOn(t) => ReadKeeps(s, t);
      case _ => OthersKeep(s, e);
    }
  }

  /** The early return of `pipewrite` after it stored something, with a reader asleep. */
  ghost predicate Skips(s: State, e: Step)
    requires Enabled(s, e)
  {
    && e.WriteOn? && WriteOutcome(s, e.t).Failed? && Written(s, e.t) > 0
    && exists q :: q in s.users && s.users[q].Reader? && s.users[q].phase.Asleep?
  }

  /** No reader's wake-up is lost by a step, except exactly by an early return of that kind. */
  lemma ReaderWakeupExact(s: State, e: Step)
    requires Inv(s) && Enabled(s, e) && ReadersAsleep(s)
    ensures ReadersAsleep(Do(s, e)) <==> !Skips(s, e)
  {
    hide WritersAsleep, WriterAt, Mine;
    var r := Do(s, e);
    if Skips(s, e) {
      var q :| q in s.users && s.users[q].Reader? && s.users[q].phase.Asleep?;
      assert q in r.users && r.users[q].Reader? && r.users[q].phase.Asleep?;
      assert Buffered(r.flow) > 0;
    }
  }

  // ---------------------------------------------------------------- whole runs

  ghost predicate Run(states: seq<State>, steps: seq<Step>)
  {
    && |states| == |steps| + 1 && Init(states[0])
    && forall i :: 0 <= i < |steps| ==> Enabled(states[i], steps[i]) && states[i + 1] == Do(states[i], steps[i])
  }

  lemma {:induction false} RunInv(states: seq<State>, steps: seq<Step>, n: nat)
    requires Run(states, steps) && n < |states|
    ensures Inv(states[n])
  {
    if n > 0 {
      RunInv(states, steps, n - 1);
      StepKeeps(states[n - 1], steps[n - 1]);
    }
  }

  /** At every release of the lock: what was delivered is a prefix of what was stored, at most 512
      bytes wait, each writer's bytes went in in its own order and none twice, and a writer sleeps
      only on a full pipe that can still be read. */
  lemma PipeIsFifo(states: seq<State>, steps: seq<Step>, n: nat)
    requires Run(states, steps) && n < |states|
    ensures var s := states[n];
            && s.flow.delivered <= s.flow.stored && |s.flow.stored| - |s.flow.delivered| <= PIPESIZE
            && |s.tags| == |s.flow.stored|
            && (forall t :: t in s.users && s.users[t].Writer? ==>
                  && s.users[t].i <= |s.users[t].buf|
                  && Mine(s.flow.stored, s.tags, t) == s.users[t].buf[..s.users[t].i])
            && WritersAsleep(s)
  {
    RunInv(states, steps, n);
    hide Run, Mine;
    var s := states[n];
    forall t | t in s.users && s.users[t].Writer?
      ensures s.users[t].i <= |s.users[t].buf| && Mine(s.flow.stored, s.tags, t) == s.users[t].buf[..s.users[t].i]
    {
      assert WriterAt(s, t);
    }
  }

  /** In a run without such early returns, a reader sleeps only on an empty pipe that can still be
      written. */
  lemma {:induction false} ReadersNeverStranded(states: seq<State>, steps: seq<Step>, n: nat)
    requires Run(states, steps) && n < |states|
    requires forall i :: 0 <= i < n ==> !Skips(states[i], steps[i])
    ensures ReadersAsleep(states[n])
  {
    if n > 0 {
      ReadersNeverStranded(states, steps, n - 1);
      RunInv(states, steps, n - 1);
      ReaderWakeupExact(states[n - 1], steps[n - 1]);
    }
  }

  /** In a whole run readers sleep only on an empty pipe that can still be written if and only if no
      step skips their wake-up. */
  lemma ReadersExact(states: seq<State>, steps: seq<Step>)
    requires Run(states, steps)
    ensures (forall n :: 0 <= n < |states| ==> ReadersAsleep(states[n]))
       <==> (forall i :: 0 <= i < |steps| ==> !Skips(states[i], steps[i]))
  {
    hide ReadersAsleep, Skips, Inv;
    if forall i :: 0 <= i < |steps| ==> !Skips(states[i], steps[i]) {
      forall n | 0 <= n < |states|
        ensures ReadersAsleep(states[n])
      {
        ReadersNeverStranded(states, steps, n);
      }
    }
    if forall n :: 0 <= n < |states| ==> ReadersAsleep(states[n]) {
      forall i | 0 <= i < |steps|
        ensures !Skips(states[i], steps[i])
      {
        RunInv(states, steps, i);
        assert ReadersAsleep(states[i]) && ReadersAsleep(states[i + 1]);
        ReaderWakeupExact(states[i], steps[i]);
      }
    }
  }

  /** Nobody is asleep on the side whose other end is closed. */
  ghost predicate Released(s: State)
  {
    && (!s.writeopen ==> forall t :: t in s.users && s.users[t].Reader? ==> !s.users[t].phase.Asleep?)
    && (!s.readopen ==> forall t :: t in s.users && s.users[t].Writer? ==> !s.users[t].phase.Asleep?)
  }

  lemma StepReleases(s: State, e: Step)
    requires Released(s) && Enabled(s, e)
    ensures Released(Do(s, e)) && (!s.writeopen ==> !Do(s, e).writeopen) && (!s.readopen ==> !Do(s, e).readopen)
    ensures e.CloseEnd? && e.writable ==> !Do(s, e).writeopen
    ensures e.CloseEnd? && !e.writable ==> !Do(s, e).readopen
  {
  }

  lemma {:induction false} RunReleases(states: seq<State>, steps: seq<Step>, n: nat)
    requires Run(states, steps) && n < |states|
    ensures Released(states[n])
  {
    if n > 0 {
      RunReleases(states, steps, n - 1);
      StepReleases(states[n - 1], steps[n - 1]);
    }
  }

  lemma {:induction false} EndsStayClosed(states: seq<State>, steps: seq<Step>, i: nat, n: nat)
    requires Run(states, steps) && i < n < |states| && steps[i].CloseEnd?
    ensures if steps[i].writable then !states[n].writeopen else !states[n].readopen
    decreases n
  {
    RunReleases(states, steps, n - 1);
    StepReleases(states[n - 1], steps[n - 1]);
    if i < n - 1 { EndsStayClosed(states, steps, i, n - 1); }
  }

  /** Closing an end is final: from then on nobody sleeps on the other side, whatever early returns
      there were before. A reader of a pipe without writers is never put to sleep and is given what
      is left; a writer without readers never waits for room. */
  lemma CloseIsFinal(states: seq<State>, steps: seq<Step>, i: nat, n: nat, t: nat)
    requires Run(states, steps) && i < n < |states| && steps[i].CloseEnd? && t in states[n].users
    ensures steps[i].writable && states[n].users[t].Reader? ==>
              !states[n].users[t].phase.Asleep? && ReadOutcome(states[n], t).Returned?
    ensures !steps[i].writable && states[n].users[t].Writer? ==>
              && !states[n].users[t].phase.Asleep? && Fifo(states[n].flow) && states[n].users[t].i <= |states[n].users[t].buf|
              && !WriteOutcome(states[n], t).Sleeps?
  {
    RunReleases(states, steps, n);
    EndsStayClosed(states, steps, i, n);
    RunInv(states, steps, n);
    assert WriterAt(states[n], t);
  }

  /** A killed writer that fills the pipe leaves a sleeping reader behind with 512 bytes to read. */
  lemma ReaderCanBeStranded()
    ensures exists states: seq<State>, steps: seq<Step> :: Run(states, steps) && !ReadersAsleep(states[|steps|])
                                    && Buffered(states[|steps|].flow) == PIPESIZE
  {
    var bytes: seq<byte> := seq(PIPESIZE + 1, _ => 0);
    var s0 := State(Flow([], []), [], true, true, map[]);
    var e0 := StartRead(0, 1);
    var s1 := Do(s0, e0);
    var e1 := ReadOn(0);
    var s2 := Do(s1, e1);
    var e2 := StartWrite(1, bytes);
    var s3 := Do(s2, e2);
    var e3 := Kill(1);
    var s4 := Do(s3, e3);
    var e4 := WriteOn(1);
    var s5 := Do(s4, e4);
    assert s5.users[0].Reader? && s5.users[0].phase.Asleep?;
    assert Buffered(s5.flow) == PIPESIZE;
    assert Run([s0, s1, s2, s3, s4, s5], [e0, e1, e2, e3, e4]);
  }

  // ---------------------------------------------------------------- how calls end

  /** Nobody killed is asleep, and a writer gives up early only if it was killed or the read end is
      closed. */
  ghost predicate Endings(s: State)
  {
    && (forall t :: t in s.users && s.users[t].phase.Asleep? ==> !s.users[t].killed)
    && (forall t :: t in s.users && s.users[t].Writer? && s.users[t].phase.Done? && s.users[t].i < |s.users[t].buf| ==>
          s.users[t].killed || !s.readopen)
  }

  lemma StepKeepsEndings(s: State, e: Step)
    requires Enabled(s, e) && Endings(s)
    ensures Endings(Do(s, e))
  {
    hide CanRead, CanWrite, Stored, Delivered, Repeat;
  }

  /** In every run: a killed process never sleeps on the pipe, and a writer that was not killed, with
      the read end open, does not return before its last byte is in. */
  lemma {:induction false} CallsEndRightly(states: seq<State>, steps: seq<Step>, n: nat)
    requires Run(states, steps) && n < |states|
    ensures Endings(states[n])
  {
    if n > 0 {
      CallsEndRightly(states, steps, n - 1);
      StepKeepsEndings(states[n - 1], steps[n - 1]);
    }
  }

  /** In every run, a read that finds bytes, or the write end closed, delivers the next bytes, as many
      as asked for or all there are; any other read delivers nothing, and sleeps unless it was killed. */
  lemma ReadsDeliver(states: seq<State>, steps: seq<Step>, n: nat)
    requires Run(states, steps) && n < |steps| && steps[n].ReadOn?
    ensures Enabled(states[n], steps[n])
    ensures var s, r, t := states[n], states[n + 1], steps[n].t;
            var d, waiting := |s.flow.delivered|, |s.flow.stored| - |s.flow.delivered|;
            && t in r.users && r.flow.stored == s.flow.stored
            && (if waiting > 0 || !s.writeopen then
                  var k := if s.users[t].n <= waiting then s.users[t].n else waiting;
                  r.users[t].phase.Done? && r.flow.delivered == s.flow.delivered + s.flow.stored[d..d + k]
                else
                  r.flow == s.flow && (r.users[t].phase.Asleep? <==> !s.users[t].killed))
  {
    assert states[n + 1] == Do(states[n], steps[n]);
    hide Init;
  }

  /** In every run, one turn of a writer stores what fits into the 512 bytes, and it goes to sleep
      exactly if some is left over, the read end is open and it was not killed. */
  lemma WritesStore(states: seq<State>, steps: seq<Step>, n: nat)
    requires Run(states, steps) && n < |steps| && steps[n].WriteOn?
    ensures Enabled(states[n], steps[n])
    ensures var s, r, t := states[n], states[n + 1], steps[n].t;
            var u, room := s.users[t], 512 - (|s.flow.stored| - |s.flow.delivered|);
            var k := if |u.buf| - u.i <= room then |u.buf| - u.i else room;
            && t in r.users && r.users[t].Writer? && r.users[t].i == u.i + k
            && r.flow == s.flow.(stored := s.flow.stored + u.buf[u.i..u.i + k])
            && (r.users[t].phase.Asleep? <==> u.i + k < |u.buf| && s.readopen && !u.killed)
  {
    assert states[n + 1] == Do(states[n], steps[n]);
    hide Init;
  }
}

/** Any number of cache users at once: `bread`, changes to the data, `log_write` or `bwrite`, and
    `brelse`, interleaved in every order the cache lock and the buffers' sleep locks allow. */
module BioRuns {
  import opened Blocks
  import opened Bio
  import opened Sums

  /** Where a user is between `bget` and the end of `brelse`. `Ready`: `bread` has returned and all
      changes so far were passed to `log_write` or `bwrite`. */
  datatype Phase = Waiting | Locked | Ready | Changed | Leaving

  /** A user's claim on buffer `buf`, asked for as block `key`. */
  datatype Ref = Ref(buf: nat, key: Key, phase: Phase)

  datatype State = State(
    bufs: seq<Buf>,
    order: seq<nat>,
    refs: map<nat, Ref>,
    disk: seq<Block>,      // the blocks of device 1
    latest: seq<Block>)    // history: the contents last given to each block

  datatype Step =
    | Get(t: nat, key: Key)
    | Lock(t: nat)
    | Load(t: nat)
    | Modify(t: nat, data: Block)
    | LogWrite(t: nat)
    | Write(t: nat)
    | Unlock(t: nat)
    | Drop(t: nat, place: nat)

  predicate HasLock(p: Phase)
  {
    p.Locked? || p.Ready? || p.Changed?
  }

  // ---------------------------------------------------------------- the machine

  ghost predicate InTable(s: State)
  {
    && |s.bufs| == NBUF && Complete(s.order)
    && forall t :: t in s.refs ==> s.refs[t].buf < NBUF
  }

  predicate OnDisk(s: State, key: Key)
  {
    key.dev == 1 && key.blockno < |s.disk| == |s.latest|
  }

  ghost predicate Enabled(s: State, e: Step)
  {
    && InTable(s) && (!e.Get? ==> e.t in s.refs)
    && match e
       case Get(t, key) => t !in s.refs && Bget(s.bufs, s.order, key).Buffer?
       case Lock(t) =>
         s.refs[t].phase.Waiting? && forall u :: u in s.refs && HasLock(s.refs[u].phase) ==> s.refs[u].buf != s.refs[t].buf
       case Load(t) =>
         s.refs[t].phase.Locked? && !s.bufs[s.refs[t].buf].valid && OnDisk(s, s.bufs[s.refs[t].buf].key)
       case Modify(t, _) => s.refs[t].phase.Ready? || s.refs[t].phase.Changed?
       case LogWrite(t) =>
         (s.refs[t].phase.Ready? || s.refs[t].phase.Changed?) && OnDisk(s, s.bufs[s.refs[t].buf].key)
       case Write(t) =>
         (s.refs[t].phase.Ready? || s.refs[t].phase.Changed?) && OnDisk(s, s.bufs[s.refs[t].buf].key)
       case Unlock(t) => s.refs[t].phase.Ready?
       case Drop(t, k) =>
         s.refs[t].phase.Leaving? && k < NBUF && s.order[k] == s.refs[t].buf && s.bufs[s.refs[t].buf].refcnt > 0
  }

  function At(s: State, t: nat, p: Phase): (r: State)
    requires t in s.refs
  {
    s.(refs := s.refs[t := s.refs[t].(phase := p)])
  }

  function Put(s: State, b: nat, buf: Buf): (r: State)
    requires b < |s.bufs|
  {
    s.(bufs := s.bufs[b := buf])
  }

  ghost function Do(s: State, e: Step): (r: State)
    requires Enabled(s, e)
  {
    match e
    case Get(t, key) =>
      var g := Bget(s.bufs, s.order, key);
      s.(bufs := g.bufs, refs := s.refs[t := Ref(g.b, key, Waiting)])
    case Lock(t) =>
      At(s, t, if s.bufs[s.refs[t].buf].valid then Ready else Locked)
    case Load(t) =>
      var b := s.refs[t].buf;
      At(Put(s, b, s.bufs[b].(valid := true, data := s.disk[s.bufs[b].key.blockno])), t, Ready)
    case Modify(t, data) =>
      var b := s.refs[t].buf;
      At(Put(s, b, s.bufs[b].(data := data)), t, Changed)
    case LogWrite(t) =>
      var b := s.refs[t].buf;
      var buf := s.bufs[b];
      At(Put(s, b, buf.(dirty := true)), t, Ready).(latest := s.latest[buf.key.blockno := buf.data])
    case Write(t) =>
      var b := s.refs[t].buf;
      var buf := s.bufs[b];
      At(Put(s, b, buf.(dirty := false, valid := true)), t, Ready).(
        disk := s.disk[buf.key.blockno := buf.data], latest := s.latest[buf.key.blockno := buf.data])
    case Unlock(t) =>
      At(s, t, Leaving)
    case Drop(t, k) =>
      s.(bufs := DroppedBufs(s.bufs, s.order[k]), order := DroppedOrder(s.bufs, s.order, k), refs := s.refs - {t})
  }

  /** After `binit`: all buffers empty and on the list, nobody using them. */
  ghost predicate Init(s: State)
  {
    && |s.bufs| == NBUF && Complete(s.order) && s.refs == map[] && s.latest == s.disk
    && forall b :: 0 <= b < NBUF ==>
         s.bufs[b].key == Key(0, 0) && !s.bufs[b].valid && !s.bufs[b].dirty && s.bufs[b].refcnt == 0
  }

  // ---------------------------------------------------------------- what every step keeps

  ghost function Users(refs: map<nat, Ref>, b: nat): (us: set<nat>)
  {
    set t | t in refs && refs[t].buf == b
  }

  /** The reference counts are right, each user has the block it asked for, and each buffer's
      sleep lock has at most one holder. */
  ghost predicate Claims(s: State)
    requires InTable(s)
  {
    && (forall b :: 0 <= b < NBUF ==> s.bufs[b].refcnt == |Users(s.refs, b)|)
    && (forall t :: t in s.refs ==> s.bufs[s.refs[t].buf].key == s.refs[t].key)
    && (forall t, u :: t in s.refs && u in s.refs && t != u && HasLock(s.refs[t].phase) && HasLock(s.refs[u].phase)
          ==> s.refs[t].buf != s.refs[u].buf)
  }

  /** No block of a device is in two buffers; only the key the empty buffers start with repeats. */
  ghost predicate Unique(s: State)
    requires |s.bufs| == NBUF
  {
    forall b, c :: 0 <= b < c < NBUF && s.bufs[b].key == s.bufs[c].key ==> s.bufs[b].key == Key(0, 0)
  }

  ghost predicate Changing(s: State, b: nat)
  {
    exists t :: t in s.refs && s.refs[t].buf == b && s.refs[t].phase.Changed?
  }

  /** A valid buffer nobody is changing has the contents last given to its block. */
  ghost predicate Current(s: State, b: nat)
    requires |s.bufs| == NBUF && b < NBUF
  {
    && (s.bufs[b].dirty ==> s.bufs[b].valid)
    && (s.bufs[b].valid ==> OnDisk(s, s.bufs[b].key))
    && (s.bufs[b].valid && !Changing(s, b) ==> s.bufs[b].data == s.latest[s.bufs[b].key.blockno])
  }

  /** A block whose latest contents are not on disk is pinned in the cache. */
  ghost predicate Kept(s: State, n: nat)
    requires |s.bufs| == NBUF && n < |s.disk| == |s.latest|
  {
    s.disk[n] == s.latest[n] || exists b :: 0 <= b < NBUF && s.bufs[b].dirty && s.bufs[b].key == Key(1, n)
  }

  ghost predicate Inv(s: State)
  {
    && InTable(s) && Claims(s) && Unique(s) && |s.disk| == |s.latest|
    && (forall b :: 0 <= b < NBUF ==> Current(s, b))
    && (forall t :: t in s.refs && (s.refs[t].phase.Ready? || s.refs[t].phase.Changed?) ==> s.bufs[s.refs[t].buf].valid)
    && (forall n :: 0 <= n < |s.disk| ==> Kept(s, n))
  }

  lemma InitInv(s: State)
    requires Init(s)
    ensures Inv(s)
  {
    forall b | 0 <= b < NBUF
      ensures s.bufs[b].refcnt == |Users(s.refs, b)|
    {
      assert Users(s.refs, b) == {};
    }
  }

  lemma EmptyCache(disk: seq<Block>) returns (s: State)
    ensures Init(s) && Inv(s) && s.disk == disk
  {
    var order := seq(NBUF, i requires 0 <= i => i);
    forall b | 0 <= b < NBUF
      ensures b in order
    {
      assert order[b] == b;
    }
    s := State(seq(NBUF, _ => Buf(Key(0, 0), false, false, 0, ZeroBlock())), order, map[], disk, disk);
    InitInv(s);
  }

  // Steps that only move a user from one phase to the next

  lemma AtUsers(refs: map<nat, Ref>, t: nat, p: Phase, b: nat)
    requires t in refs
    ensures Users(refs[t := refs[t].(phase := p)], b) == Users(refs, b)
  {
  }

  lemma AtClaims(s: State, t: nat, p: Phase)
    requires InTable(s) && Claims(s) && t in s.refs
    requires HasLock(p) ==> forall u :: u in s.refs && u != t && HasLock(s.refs[u].phase) ==> s.refs[u].buf != s.refs[t].buf
    ensures InTable(At(s, t, p)) && Claims(At(s, t, p))
  {
    var r := At(s, t, p);
    forall b | 0 <= b < NBUF
      ensures r.bufs[b].refcnt == |Users(r.refs, b)|
    {
      AtUsers(s.refs, t, p, b);
    }
  }

  /** A step by user `t` on its own buffer: nothing else in the table changes, and on disk and in
      the history at most that buffer's block. */
  ghost predicate OwnStep(s: State, r: State, t: nat, p: Phase, buf: Buf)
  {
    && InTable(s) && t in s.refs && |s.disk| == |s.latest| == |r.disk| == |r.latest|
    && (HasLock(s.refs[t].phase)
        || forall u :: u in s.refs && u != t && HasLock(s.refs[u].phase) ==> s.refs[u].buf != s.refs[t].buf)
    && var b := s.refs[t].buf;
       && r.order == s.order && r.refs == s.refs[t := s.refs[t].(phase := p)] && r.bufs == s.bufs[b := buf]
       && buf.key == s.bufs[b].key && buf.refcnt == s.bufs[b].refcnt
       && forall n :: 0 <= n < |s.disk| && Key(1, n) != buf.key ==> r.disk[n] == s.disk[n] && r.latest[n] == s.latest[n]
  }

  lemma OwnClaims(s: State, r: State, t: nat, p: Phase, buf: Buf)
    requires Inv(s) && OwnStep(s, r, t, p, buf)
    ensures InTable(r) && Claims(r) && Unique(r)
  {
    hide Current, Kept;
    AtClaims(s, t, p);
    forall b | 0 <= b < NBUF
      ensures r.bufs[b].key == s.bufs[b].key && r.bufs[b].refcnt == s.bufs[b].refcnt
    {
    }
  }

  lemma OwnLeavesOthers(s: State, r: State, t: nat, p: Phase, buf: Buf, b: nat)
    requires Inv(s) && OwnStep(s, r, t, p, buf) && b < NBUF && b != s.refs[t].buf
    ensures Current(r, b)
  {
    assert Current(s, b);
    hide Kept, Claims, Complete;
    if Changing(s, b) {
      var u :| u in s.refs && s.refs[u].buf == b && s.refs[u].phase.Changed?;
      assert u in r.refs && r.refs[u] == s.refs[u];
    }
    assert s.bufs[b].valid ==> s.bufs[b].key != buf.key;
  }

  lemma OwnKeepsBlocks(s: State, r: State, t: nat, p: Phase, buf: Buf, n: nat)
    requires Inv(s) && OwnStep(s, r, t, p, buf) && n < |s.disk| && Key(1, n) != buf.key
    ensures Kept(r, n)
  {
    assert Kept(s, n);
    hide Current, Claims, Complete, Unique;
    if s.disk[n] != s.latest[n] {
      var b :| 0 <= b < NBUF && s.bufs[b].dirty && s.bufs[b].key == Key(1, n);
      assert r.bufs[b] == s.bufs[b];
    }
  }

  /** A step on one's own buffer keeps everything, given that it does so for that buffer. */
  lemma OwnKeeps(s: State, r: State, t: nat, p: Phase, buf: Buf)
    requires Inv(s) && OwnStep(s, r, t, p, buf)
    requires InTable(r) ==> Current(r, s.refs[t].buf)
    requires (p.Ready? || p.Changed?) ==> buf.valid
    requires s.bufs[s.refs[t].buf].valid ==> buf.valid
    requires forall n :: 0 <= n < |s.disk| && Key(1, n) == buf.key && InTable(r) ==> Kept(r, n)
    ensures Inv(r)
  {
    OwnClaims(s, r, t, p, buf);
    hide Claims, Complete, Unique;
    forall u | u in r.refs && (r.refs[u].phase.Ready? || r.refs[u].phase.Changed?)
      ensures r.bufs[r.refs[u].buf].valid
    {
      if u != t { assert r.refs[u] == s.refs[u] && s.bufs[s.refs[u].buf].valid; }
    }
    hide Current, Kept;
    forall b | 0 <= b < NBUF
      ensures Current(r, b)
    {
      if b != s.refs[t].buf { OwnLeavesOthers(s, r, t, p, buf, b); }
    }
    forall n | 0 <= n < |r.disk|
      ensures Kept(r, n)
    {
      if Key(1, n) != buf.key { OwnKeepsBlocks(s, r, t, p, buf, n); }
    }
  }

  lemma NotChanging(s: State, r: State, t: nat, p: Phase, buf: Buf)
    requires Inv(s) && OwnStep(s, r, t, p, buf) && HasLock(s.refs[t].phase) && !s.refs[t].phase.Changed?
    ensures !Changing(s, s.refs[t].buf)
  {
    hide Current, Kept, Complete, Unique;
  }

  lemma ChangingIs(s: State, r: State, t: nat, p: Phase, buf: Buf)
    requires Inv(s) && OwnStep(s, r, t, p, buf)
    ensures Changing(r, s.refs[t].buf) ==> p.Changed?
    ensures p.Changed? ==> Changing(r, s.refs[t].buf)
  {
    hide Current, Kept, Complete, Unique;
    assert r.refs[t] == s.refs[t].(phase := p);
    assert forall u :: u in r.refs && u != t ==> r.refs[u] == s.refs[u];
  }

  lemma OwnBlockKept(s: State, r: State, t: nat, p: Phase, buf: Buf, n: nat)
    requires Inv(s) && OwnStep(s, r, t, p, buf) && InTable(r) && n < |s.disk|
    requires buf.dirty || (r.disk[n] == s.disk[n] && r.latest[n] == s.latest[n] && !s.bufs[s.refs[t].buf].dirty)
             || r.disk[n] == r.latest[n]
    requires buf.key == Key(1, n)
    ensures Kept(r, n)
  {
    var b := s.refs[t].buf;
    assert r.bufs[b] == buf;
    assert Kept(s, n);
    hide Current, Claims, Complete;
  }

  /** A block that is in no valid buffer has its latest contents on disk. */
  lemma LoadIsLatest(s: State, t: nat)
    requires Inv(s) && Enabled(s, Load(t))
    ensures var n := s.bufs[s.refs[t].buf].key.blockno; s.disk[n] == s.latest[n]
  {
    hide Claims, Complete;
    var b := s.refs[t].buf;
    assert Kept(s, s.bufs[b].key.blockno) && Current(s, b);
  }

  lemma IsOwnStep(s: State, e: Step)
    requires Inv(s) && Enabled(s, e) && !e.Get? && !e.Drop?
    ensures var r := Do(s, e);
            InTable(r) && OwnStep(s, r, e.t, r.refs[e.t].phase, r.bufs[s.refs[e.t].buf])
  {
    hide Claims, Complete, Unique, Kept, Current;
  }

  /** `Lock`, `Load`, `Modify`, `LogWrite`, `Write` and `Unlock` keep the invariant. */
  lemma OwnStepsKeep(s: State, e: Step)
    requires Inv(s) && Enabled(s, e) && !e.Get? && !e.Drop?
    ensures Inv(Do(s, e))
  {
    hide Claims, Complete, Unique, Kept;
    var t, r := e.t, Do(s, e);
    var b := s.refs[t].buf;
    var p, buf := r.refs[t].phase, r.bufs[b];
    assert Current(s, b);
    IsOwnStep(s, e);
    if e.Load? { LoadIsLatest(s, t); }
    ChangingIs(s, r, t, p, buf);
    if e.Unlock? || e.LogWrite? || e.Write? || e.Load? || e.Modify? {
      if !s.refs[t].phase.Changed? { NotChanging(s, r, t, p, buf); }
    }
    assert Current(r, b);
    hide Current;
    forall n | 0 <= n < |s.disk| && Key(1, n) == buf.key
      ensures Kept(r, n)
    {
      OwnBlockKept(s, r, t, p, buf, n);
    }
    OwnKeeps(s, r, t, p, buf);
  }

  // `bget` and the second half of `brelse`

  lemma GetUsers(refs: map<nat, Ref>, t: nat, ref: Ref, b: nat)
    requires t !in refs
    ensures Users(refs[t := ref], b) == if b == ref.buf then Users(refs, b) + {t} else Users(refs, b)
    ensures |Users(refs[t := ref], b)| == |Users(refs, b)| + if b == ref.buf then 1 else 0
  {
    assert Users(refs[t := ref], b) == if b == ref.buf then Users(refs, b) + {t} else Users(refs, b);
  }

  lemma DropUsers(refs: map<nat, Ref>, t: nat, b: nat)
    requires t in refs
    ensures |Users(refs - {t}, b)| == |Users(refs, b)| - if b == refs[t].buf then 1 else 0
  {
    assert Users(refs - {t}, b) == if b == refs[t].buf then Users(refs, b) - {t} else Users(refs, b);
  }

  /** `bget` found the block's own buffer. */
  ghost predicate Found(s: State, key: Key, g: Got)
  {
    && g.Buffer? && g.b < |s.bufs| == |g.bufs| && s.bufs[g.b].key == key
    && g.bufs == s.bufs[g.b := s.bufs[g.b].(refcnt := s.bufs[g.b].refcnt + 1)]
  }

  /** `bget` took an unused clean buffer for a block that was in none. */
  ghost predicate Recycled(s: State, key: Key, g: Got)
  {
    && g.Buffer? && g.b < |s.bufs| == |g.bufs| && s.bufs[g.b].refcnt == 0 && !s.bufs[g.b].dirty
    && g.bufs == s.bufs[g.b := Buf(key, false, false, 1, s.bufs[g.b].data)]
    && forall c :: 0 <= c < |s.bufs| ==> s.bufs[c].key != key
  }

  lemma NotCached(s: State, key: Key)
    requires InTable(s) && HitFrom(s.bufs, s.order, key, 0) == |s.order|
    ensures forall c :: 0 <= c < NBUF ==> s.bufs[c].key != key
  {
    forall c | 0 <= c < NBUF
      ensures s.bufs[c].key != key
    {
      assert c in s.order;
    }
  }

  lemma BgetFinds(s: State, key: Key)
    requires InTable(s) && Bget(s.bufs, s.order, key).Buffer?
    ensures Found(s, key, Bget(s.bufs, s.order, key)) || Recycled(s, key, Bget(s.bufs, s.order, key))
  {
    if HitFrom(s.bufs, s.order, key, 0) == |s.order| { NotCached(s, key); }
    hide Complete;
  }

  /** `bget` panics exactly when the block is in no buffer and every buffer is referenced or dirty. */
  lemma BgetPanicsExactly(s: State, key: Key)
    requires InTable(s)
    ensures Bget(s.bufs, s.order, key).NoBuffers?
       <==> forall c :: 0 <= c < 30 ==> s.bufs[c].key != key && (s.bufs[c].refcnt > 0 || s.bufs[c].dirty)
  {
    var k, v := HitFrom(s.bufs, s.order, key, 0), VictimBefore(s.bufs, s.order, |s.order|);
    if k == |s.order| {
      NotCached(s, key);
      if v == 0 {
        forall c | 0 <= c < NBUF
          ensures !Unused(s.bufs[c])
        {
          assert c in s.order;
        }
      }
    }
  }

  lemma GetClaims(s: State, t: nat, key: Key)
    requires Inv(s) && Enabled(s, Get(t, key))
    ensures var r := Do(s, Get(t, key)); InTable(r) && Claims(r) && Unique(r)
  {
    var g, r := Bget(s.bufs, s.order, key), Do(s, Get(t, key));
    BgetFinds(s, key);
    hide Bget, Current, Kept, Complete;
    assert Unique(r);
    hide Unique;
    forall b | 0 <= b < NBUF
      ensures r.bufs[b].refcnt == |Users(r.refs, b)|
    {
      GetUsers(s.refs, t, Ref(g.b, key, Waiting), b);
    }
    GetKeys(s, r, t, key, g);
  }

  lemma GetKeys(s: State, r: State, t: nat, key: Key, g: Got)
    requires InTable(s) && Claims(s) && t !in s.refs && (Found(s, key, g) || Recycled(s, key, g))
    requires InTable(r) && r.bufs == g.bufs && r.refs == s.refs[t := Ref(g.b, key, Waiting)]
    ensures forall u :: u in r.refs ==> r.bufs[r.refs[u].buf].key == r.refs[u].key
  {
    hide Complete;
    forall u | u in r.refs
      ensures r.bufs[r.refs[u].buf].key == r.refs[u].key
    {
      if u != t {
        assert u in Users(s.refs, s.refs[u].buf);
      }
    }
  }

  lemma GetCurrent(s: State, t: nat, key: Key, b: nat)
    requires Inv(s) && Enabled(s, Get(t, key)) && b < NBUF
    ensures var r := Do(s, Get(t, key)); |r.bufs| == NBUF && Current(r, b)
  {
    var r := Do(s, Get(t, key));
    BgetFinds(s, key);
    assert Current(s, b);
    hide Bget, Kept, Complete, Unique, Claims;
    if Changing(s, b) {
      var u :| u in s.refs && s.refs[u].buf == b && s.refs[u].phase.Changed?;
      assert r.refs[u] == s.refs[u];
    }
  }

  lemma GetKept(s: State, t: nat, key: Key, n: nat)
    requires Inv(s) && Enabled(s, Get(t, key)) && n < |s.disk|
    ensures var r := Do(s, Get(t, key)); |r.bufs| == NBUF && Kept(r, n)
  {
    var r := Do(s, Get(t, key));
    BgetFinds(s, key);
    assert Kept(s, n);
    hide Bget, Current, Complete, Unique, Claims;
    if s.disk[n] != s.latest[n] {
      var b :| 0 <= b < NBUF && s.bufs[b].dirty && s.bufs[b].key == Key(1, n);
      assert r.bufs[b].dirty && r.bufs[b].key == Key(1, n);
    }
  }

  lemma GetKeeps(s: State, t: nat, key: Key)
    requires Inv(s) && Enabled(s, Get(t, key))
    ensures Inv(Do(s, Get(t, key)))
  {
    var g, r := Bget(s.bufs, s.order, key), Do(s, Get(t, key));
    GetClaims(s, t, key);
    BgetFinds(s, key);
    hide Bget, Current, Kept, Complete, Unique;
    forall u | u in r.refs && (r.refs[u].phase.Ready? || r.refs[u].phase.Changed?)
      ensures r.bufs[r.refs[u].buf].valid
    {
      assert r.refs[u] == s.refs[u] && u in Users(s.refs, s.refs[u].buf);
    }
    forall b | 0 <= b < NBUF ensures Current(r, b) { GetCurrent(s, t, key, b); }
    forall n | 0 <= n < |r.disk| ensures Kept(r, n) { GetKept(s, t, key, n); }
  }

  lemma DropKeeps(s: State, t: nat, k: nat)
    requires Inv(s) && Enabled(s, Drop(t, k))
    ensures Inv(Do(s, Drop(t, k)))
  {
    hide Claims, Unique, Complete, ToFront, DroppedOrder;
    var r := Do(s, Drop(t, k));
    DropClaims(s, t, k);
    forall b | 0 <= b < NBUF
      ensures Current(r, b)
    {
      assert Current(s, b);
      if Changing(s, b) {
        var u :| u in s.refs && s.refs[u].buf == b && s.refs[u].phase.Changed?;
        assert u in r.refs && r.refs[u] == s.refs[u];
      }
    }
    forall n | 0 <= n < |r.disk|
      ensures Kept(r, n)
    {
      assert Kept(s, n);
      if s.disk[n] != s.latest[n] {
        var b :| 0 <= b < NBUF && s.bufs[b].dirty && s.bufs[b].key == Key(1, n);
        assert r.bufs[b].dirty && r.bufs[b].key == Key(1, n);
      }
    }
  }

  lemma DropClaims(s: State, t: nat, k: nat)
    requires Inv(s) && Enabled(s, Drop(t, k))
    ensures var r := Do(s, Drop(t, k)); InTable(r) && Claims(r) && Unique(r)
  {
    var r := Do(s, Drop(t, k));
    if s.bufs[s.order[k]].refcnt == 1 { ToFrontComplete(s.order, k); }
    hide Complete, ToFront, Current, Kept;
    forall b | 0 <= b < NBUF
      ensures r.bufs[b].refcnt == |Users(r.refs, b)| && r.bufs[b].key == s.bufs[b].key
    {
      DropUsers(s.refs, t, b);
    }
  }

  lemma StepKeeps(s: State, e: Step)
    requires Inv(s) && Enabled(s, e)
    ensures Inv(Do(s, e))
  {
    hide Inv, Enabled, Do;
    match e {
      case Get(t, key) => GetKeeps(s, t, key);
      case Drop(t, k) => DropKeeps(s, t, k);
      case _ => OwnStepsKeep(s, e);
    }
  }

  // ---------------------------------------------------------------- whole runs

  ghost predicate Run(states: seq<State>, steps: seq<Step>)
  {
    && |states| == |steps| + 1 && Init(states[0])
    && forall i :: 0 <= i < |steps| ==> Enabled(states[i], steps[i]) && states[i + 1] == Do(states[i], steps[i])
  }

  lemma {:induction false} RunInv(states: seq<State>, steps: seq<Step>, i: nat)
    requires Run(states, steps) && i < |states|
    ensures Inv(states[i])
  {
    if i == 0 {
      InitInv(states[0]);
    } else {
      RunInv(states, steps, i - 1);
      StepKeeps(states[i - 1], steps[i - 1]);
    }
  }

  /** In every state of every run, a user for whom `bread` has returned and who has passed its
      changes on finds in its buffer the contents last given to the block it asked for. */
  lemma BreadReturnsLatest(states: seq<State>, steps: seq<Step>, i: nat, t: nat)
    requires Run(states, steps) && i < |states|
    requires t in states[i].refs && states[i].refs[t].phase.Ready?
    ensures var s := states[i]; var ref := s.refs[t];
            && ref.buf < |s.bufs| && OnDisk(s, ref.key)
            && s.bufs[ref.buf].key == ref.key && s.bufs[ref.buf].data == s.latest[ref.key.blockno]
  {
    RunInv(states, steps, i);
    var s := states[i];
    hide Run, Kept, Unique, Complete;
    var b := s.refs[t].buf;
    assert Current(s, b);
    assert !Changing(s, b);
  }

  /** A buffer changes its block only when it is clean and unused, and a dirty mark goes away only
      by a write of that buffer to disk. */
  lemma DirtyStays(states: seq<State>, steps: seq<Step>, i: nat, b: nat)
    requires Run(states, steps) && i < |steps| && b < NBUF
    ensures |states[i].bufs| == NBUF && |states[i + 1].bufs| == NBUF
    ensures var o, n := states[i].bufs[b], states[i + 1].bufs[b];
            && (n.key != o.key ==> !o.dirty && o.refcnt == 0)
            && (o.dirty && !n.dirty ==>
                  && steps[i].Write? && states[i].refs[steps[i].t].buf == b
                  && states[i + 1].disk[o.key.blockno] == o.data)
  {
    RunInv(states, steps, i);
    RunInv(states, steps, i + 1);
    var s, e := states[i], steps[i];
    assert Enabled(s, e) && states[i + 1] == Do(s, e);
    hide Run, Kept, Unique, Complete, Claims;
    assert Current(s, b);
    if e.Get? { BgetFinds(s, e.key); }
  }

  /** No two buffers hold the same block of a device other than 0. */
  lemma BlocksHaveOneBuffer(states: seq<State>, steps: seq<Step>, i: nat, b: nat, c: nat)
    requires Run(states, steps) && i < |states| && b < c < NBUF
    ensures |states[i].bufs| == NBUF
    ensures states[i].bufs[b].key.dev != 0 ==> states[i].bufs[b].key != states[i].bufs[c].key
  {
    RunInv(states, steps, i);
  }

  /** Nothing given to a block is lost: it is on disk, or pinned in a buffer that has it. */
  lemma NothingLost(states: seq<State>, steps: seq<Step>, i: nat, n: nat)
    requires Run(states, steps) && i < |states| && n < |states[i].disk|
    ensures var s := states[i];
            && |s.latest| == |s.disk| && |s.bufs| == NBUF
            && (s.disk[n] == s.latest[n]
                || exists b :: 0 <= b < NBUF && s.bufs[b].dirty && s.bufs[b].key == Key(1, n)
                     && (s.bufs[b].data == s.latest[n] || Changing(s, b)))
  {
    RunInv(states, steps, i);
    var s := states[i];
    hide Run, Unique, Complete, Claims;
    assert Kept(s, n);
    if s.disk[n] != s.latest[n] {
      var b :| 0 <= b < NBUF && s.bufs[b].dirty && s.bufs[b].key == Key(1, n);
      assert Current(s, b);
    }
  }

  // Room in the cache

  ghost function Held(refs: map<nat, Ref>): (bs: set<nat>)
  {
    set t | t in refs :: refs[t].buf
  }

  lemma {:induction false} HeldAtMost(refs: map<nat, Ref>)
    ensures |Held(refs)| <= |refs|
    decreases |refs|
  {
    var held := Held(refs);
    if refs.Keys == {} {
      assert held == {};
    } else {
      var t :| t in refs;
      var rest := refs - {t};
      assert rest.Keys == refs.Keys - {t};
      HeldAtMost(rest);
      forall x | x in held
        ensures x in Held(rest) + {refs[t].buf}
      {
        var u :| u in refs && refs[u].buf == x;
        if u != t { assert u in rest && rest[u].buf == x; }
      }
      SubsetSize(held, Held(rest) + {refs[t].buf});
    }
  }

  lemma BusyIsHeld(s: State, b: nat)
    requires Inv(s) && |s.bufs| == NBUF && b < NBUF && s.bufs[b].refcnt > 0
    ensures b in Held(s.refs)
  {
    hide Unique, Current, Kept, Complete;
    assert Users(s.refs, b) != {};
    var t :| t in Users(s.refs, b);
    assert s.refs[t].buf in Held(s.refs);
  }

  lemma RoomIn(s: State, key: Key, dirty: set<nat>)
    requires Inv(s) && InTable(s) && |s.refs| + |dirty| < NBUF
    requires dirty == set b | 0 <= b < NBUF && s.bufs[b].dirty
    ensures Bget(s.bufs, s.order, key).Buffer?
  {
    hide Inv, Bget, Complete, Interval;
    BgetPanicsExactly(s, key);
    HeldAtMost(s.refs);
    var held, all := Held(s.refs), Interval(0, NBUF);
    if forall c :: 0 <= c < NBUF ==> s.bufs[c].refcnt > 0 || s.bufs[c].dirty {
      forall b | b in all
        ensures b in held + dirty
      {
        if s.bufs[b].refcnt > 0 { BusyIsHeld(s, b); }
      }
      SubsetSize(all, held + dirty);
    }
  }

  /** With fewer claims and dirty buffers together than there are buffers, `bget` never panics. */
  lemma CacheHasRoom(states: seq<State>, steps: seq<Step>, i: nat, key: Key, dirty: set<nat>)
    requires Run(states, steps) && i < |states| && |states[i].bufs| == NBUF
    requires dirty == set b | 0 <= b < NBUF && states[i].bufs[b].dirty
    requires |states[i].refs| + |dirty| < NBUF
    ensures InTable(states[i]) && Bget(states[i].bufs, states[i].order, key).Buffer?
  {
    hide Run, Unique, Current, Kept, Bget, Complete, Claims;
    RunInv(states, steps, i);
    RoomIn(states[i], key, dirty);
  }

  // ---------------------------------------------------------------- least recently used

  /** Step `i` of the run gives up the last reference to buffer `b`. */
  ghost predicate ReleasesAt(states: seq<State>, steps: seq<Step>, i: nat, b: nat)
    requires Run(states, steps) && i < |steps|
  {
    && Enabled(states[i], steps[i]) && steps[i].Drop?
    && states[i].order[steps[i].place] == b && states[i].bufs[b].refcnt == 1
  }

  /** The last step before `n` that released buffer `b`; -1 if none has. */
  ghost function LastRelease(states: seq<State>, steps: seq<Step>, n: nat, b: nat): (i: int)
    requires Run(states, steps) && n <= |steps|
    ensures i < n
  {
    if n == 0 then -1 else if ReleasesAt(states, steps, n - 1, b) then n - 1 else LastRelease(states, steps, n - 1, b)
  }

  /** The list goes from the buffer released last to the one released longest ago. */
  ghost predicate ByRecency(states: seq<State>, steps: seq<Step>, n: nat)
    requires Run(states, steps) && n <= |steps|
  {
    forall j, k :: 0 <= j < k < |states[n].order| ==>
      LastRelease(states, steps, n, states[n].order[j]) >= LastRelease(states, steps, n, states[n].order[k])
  }

  lemma SameOrder(states: seq<State>, steps: seq<Step>, n: nat)
    requires Run(states, steps) && n < |steps| && Enabled(states[n], steps[n])
    requires steps[n].Drop? ==> !ReleasesAt(states, steps, n, states[n].order[steps[n].place])
    ensures states[n + 1].order == states[n].order
  {
    hide Bget, Complete;
    assert states[n + 1] == Do(states[n], steps[n]);
  }

  lemma ReleasedToFront(states: seq<State>, steps: seq<Step>, n: nat, b: nat)
    requires Run(states, steps) && n < |steps| && ReleasesAt(states, steps, n, b)
    ensures InTable(states[n]) && steps[n].place < |states[n].order|
    ensures states[n + 1].order == [b] + Without(states[n].order, steps[n].place)
  {
    hide Bget, Complete, Without;
    assert Enabled(states[n], steps[n]) && states[n + 1] == Do(states[n], steps[n]);
    CompleteSize(states[n].order);
  }

  lemma CompleteSize(order: seq<nat>)
    requires Complete(order)
    ensures |order| == NBUF
  {
  }

  lemma {:induction false} RunByRecency(states: seq<State>, steps: seq<Step>, n: nat)
    requires Run(states, steps) && n <= |steps|
    ensures ByRecency(states, steps, n)
  {
    hide Enabled, Do, Init;
    if n > 0 {
      RunByRecency(states, steps, n - 1);
      RecencyStep(states, steps, n);
    }
  }

  lemma RecencyStep(states: seq<State>, steps: seq<Step>, n: nat)
    requires Run(states, steps) && 0 < n <= |steps| && ByRecency(states, steps, n - 1)
    ensures ByRecency(states, steps, n)
  {
    hide Do, Init, ByRecency;
    assert Enabled(states[n - 1], steps[n - 1]);
    if steps[n - 1].Drop? && ReleasesAt(states, steps, n - 1, states[n - 1].order[steps[n - 1].place]) {
      var b := states[n - 1].order[steps[n - 1].place];
      ReleasedToFront(states, steps, n - 1, b);
      OthersRecency(states, steps, n, b);
    } else {
      SameOrder(states, steps, n - 1);
      NothingReleased(states, steps, n);
    }
  }

  lemma NothingReleased(states: seq<State>, steps: seq<Step>, n: nat)
    requires Run(states, steps) && 0 < n <= |steps| && ByRecency(states, steps, n - 1)
    requires states[n].order == states[n - 1].order && Enabled(states[n - 1], steps[n - 1])
    requires steps[n - 1].Drop? ==> !ReleasesAt(states, steps, n - 1, states[n - 1].order[steps[n - 1].place])
    ensures ByRecency(states, steps, n)
  {
    hide Enabled, Do, Init;
    forall b: nat
      ensures LastRelease(states, steps, n, b) == LastRelease(states, steps, n - 1, b)
    {
    }
  }

  lemma OthersRecency(states: seq<State>, steps: seq<Step>, n: nat, b: nat)
    requires Run(states, steps) && 0 < n <= |steps| && ReleasesAt(states, steps, n - 1, b)
    requires ByRecency(states, steps, n - 1) && InTable(states[n - 1]) && steps[n - 1].place < |states[n - 1].order|
    requires states[n].order == [b] + Without(states[n - 1].order, steps[n - 1].place)
    ensures ByRecency(states, steps, n)
  {
    hide Enabled, Do, Init;
    var before, after, p := states[n - 1].order, states[n].order, steps[n - 1].place;
    forall j, k | 0 <= j < k < |after|
      ensures LastRelease(states, steps, n, after[j]) >= LastRelease(states, steps, n, after[k])
    {
      var l := if k - 1 < p then k - 1 else k;
      assert after[k] == before[l] && before[l] != b;
      if j > 0 {
        var i := if j - 1 < p then j - 1 else j;
        assert after[j] == before[i] && before[i] != b;
      }
    }
  }

  /** When `bget` recycles a buffer, it is the unused clean one whose last release is longest ago. */
  lemma VictimIsLeastRecent(states: seq<State>, steps: seq<Step>, n: nat, key: Key, c: nat)
    requires Run(states, steps) && n <= |steps| && InTable(states[n])
    requires forall b :: 0 <= b < NBUF ==> states[n].bufs[b].key != key
    requires c < NBUF && states[n].bufs[c].refcnt == 0 && !states[n].bufs[c].dirty
    ensures var g := Bget(states[n].bufs, states[n].order, key);
            && g.Buffer? && g.b < NBUF && states[n].bufs[g.b].refcnt == 0 && !states[n].bufs[g.b].dirty
            && LastRelease(states, steps, n, g.b) <= LastRelease(states, steps, n, c)
  {
    hide Enabled, Do, Init, LastRelease;
    RunByRecency(states, steps, n);
    var s := states[n];
    var k, v := HitFrom(s.bufs, s.order, key, 0), VictimBefore(s.bufs, s.order, |s.order|);
    assert k == |s.order|;
    assert c in s.order;
    var m :| 0 <= m < |s.order| && s.order[m] == c;
    assert Unused(s.bufs[s.order[m]]) && m < v;
  }

  // ---------------------------------------------------------------- a full cache

  /** Users 0 to `j - 1` each have a block of their own, and nothing is dirty. */
  ghost predicate Crowd(s: State, j: nat)
  {
    && InTable(s) && s.refs.Keys == Interval(0, j)
    && (forall t :: t in s.refs ==> s.refs[t].key == Key(1, t))
    && (forall b :: 0 <= b < NBUF ==> !s.bufs[b].dirty)
  }

  lemma ClaimIs(s: State, t: nat)
    requires Inv(s) && t in s.refs
    ensures var b := s.refs[t].buf; b < NBUF && |s.bufs| == NBUF && s.bufs[b].key == s.refs[t].key && s.bufs[b].refcnt > 0
  {
    hide Unique, Current, Kept, Complete;
    assert t in Users(s.refs, s.refs[t].buf);
  }

  /** As many buffers as users, if no two share one. */
  lemma {:induction false} HeldExactly(refs: map<nat, Ref>)
    requires forall t, u :: t in refs && u in refs && t != u ==> refs[t].buf != refs[u].buf
    ensures |Held(refs)| == |refs|
    decreases |refs|
  {
    var held := Held(refs);
    if refs.Keys == {} {
      assert held == {};
    } else {
      var t :| t in refs;
      var rest := refs - {t};
      assert rest.Keys == refs.Keys - {t};
      HeldExactly(rest);
      assert refs[t].buf !in Held(rest);
      forall x
        ensures x in held <==> x in Held(rest) + {refs[t].buf}
      {
        if x in held {
          var u :| u in refs && refs[u].buf == x;
          if u != t { assert u in rest && rest[u].buf == x; }
        }
      }
      assert held == Held(rest) + {refs[t].buf};
    }
  }

  lemma CrowdHeld(s: State)
    requires Inv(s) && Crowd(s, NBUF)
    ensures Held(s.refs) == Interval(0, NBUF)
  {
    hide Inv, InTable, Interval;
    forall t, u | t in s.refs && u in s.refs && t != u
      ensures s.refs[t].buf != s.refs[u].buf
    {
      ClaimIs(s, t);
      ClaimIs(s, u);
    }
    forall b | b in Held(s.refs)
      ensures b in Interval(0, NBUF)
    {
      var t :| t in s.refs && s.refs[t].buf == b;
      ClaimIs(s, t);
    }
    HeldExactly(s.refs);
    RefsCount(s, NBUF);
    SameSize(Held(s.refs), Interval(0, NBUF));
  }

  lemma RefsCount(s: State, j: nat)
    requires s.refs.Keys == Interval(0, j)
    ensures |s.refs| == j
  {
    hide Interval;
    assert |s.refs| == |s.refs.Keys|;
  }

  /** With nothing dirty, 30 such users leave no buffer for another block. */
  lemma CrowdIsFull(s: State)
    requires Inv(s) && Crowd(s, NBUF)
    ensures Bget(s.bufs, s.order, Key(1, NBUF)).NoBuffers?
  {
    hide Inv, Bget, Complete, Interval, Held;
    EveryoneUsed(s);
    BgetPanicsExactly(s, Key(1, NBUF));
  }

  lemma EveryoneUsed(s: State)
    requires Inv(s) && Crowd(s, NBUF)
    ensures forall b :: 0 <= b < NBUF ==> s.bufs[b].key != Key(1, NBUF) && s.bufs[b].refcnt > 0
  {
    hide Inv, Complete, Interval, Held;
    CrowdHeld(s);
    forall b | 0 <= b < NBUF
      ensures s.bufs[b].key != Key(1, NBUF) && s.bufs[b].refcnt > 0
    {
      HeldIsUsed(s, b);
    }
  }

  lemma HeldIsUsed(s: State, b: nat)
    requires Inv(s) && Crowd(s, NBUF) && b in Held(s.refs)
    ensures b < NBUF && s.bufs[b].key != Key(1, NBUF) && s.bufs[b].refcnt > 0
  {
    hide Inv, Complete, Interval;
    var t :| t in s.refs && s.refs[t].buf == b;
    ClaimIs(s, t);
  }

  lemma SameSize(a: set<nat>, b: set<nat>)
    requires a <= b && |a| == |b|
    ensures a == b
  {
    if x :| x in b && x !in a { SubsetSize(a + {x}, b); }
  }

  lemma CrowdHasRoom(states: seq<State>, steps: seq<Step>, j: nat)
    requires Run(states, steps) && Crowd(states[|states| - 1], j) && j < NBUF
    ensures Enabled(states[|states| - 1], Get(j, Key(1, j)))
  {
    hide Init, Enabled, Do, Bget, Complete, Interval;
    var s := states[|states| - 1];
    RefsCount(s, j);
    CacheHasRoom(states, steps, |states| - 1, Key(1, j), {});
    GetEnabled(s, j);
  }

  lemma GetEnabled(s: State, j: nat)
    requires Crowd(s, j) && j < NBUF && Bget(s.bufs, s.order, Key(1, j)).Buffer?
    ensures Enabled(s, Get(j, Key(1, j)))
  {
    hide Bget, Interval;
  }

  lemma GetStaysClean(bufs: seq<Buf>, order: seq<nat>, key: Key)
    requires |bufs| == NBUF && (forall j :: 0 <= j < |order| ==> order[j] < NBUF) && Bget(bufs, order, key).Buffer?
    requires forall b :: 0 <= b < NBUF ==> !bufs[b].dirty
    ensures var g := Bget(bufs, order, key);
            g.b < NBUF && |g.bufs| == NBUF && forall b :: 0 <= b < NBUF ==> !g.bufs[b].dirty
  {
  }

  lemma CrowdGrows(s: State, j: nat)
    requires Crowd(s, j) && j < NBUF && Enabled(s, Get(j, Key(1, j)))
    ensures Crowd(Do(s, Get(j, Key(1, j))), j + 1)
  {
    hide Bget, Interval;
    GetStaysClean(s.bufs, s.order, Key(1, j));
    var t := Do(s, Get(j, Key(1, j)));
    assert t.refs.Keys == s.refs.Keys + {j};
    assert Interval(0, j + 1) == Interval(0, j) + {j};
  }

  lemma RunSnoc(states: seq<State>, steps: seq<Step>, e: Step)
    requires Run(states, steps) && Enabled(states[|states| - 1], e)
    ensures Run(states + [Do(states[|states| - 1], e)], steps + [e])
  {
    hide Enabled, Do, Init;
  }

  lemma InitCrowd(s: State)
    requires Init(s)
    ensures Crowd(s, 0)
  {
    hide Complete;
    assert s.refs.Keys == {} == Interval(0, 0);
  }

  lemma {:induction false} CrowdGathers(disk: seq<Block>, j: nat) returns (states: seq<State>, steps: seq<Step>)
    requires j <= NBUF
    ensures Run(states, steps) && Crowd(states[|states| - 1], j)
  {
    hide Crowd, Enabled, Do, Init, InTable, Inv;
    if j == 0 {
      var s := EmptyCache(disk);
      states, steps := [s], [];
      InitCrowd(s);
    } else {
      states, steps := CrowdGathers(disk, j - 1);
      var e := Get(j - 1, Key(1, j - 1));
      CrowdHasRoom(states, steps, j - 1);
      CrowdGrows(states[|states| - 1], j - 1);
      RunSnoc(states, steps, e);
      states, steps := states + [Do(states[|states| - 1], e)], steps + [e];
    }
  }

  /** The bound on what the log keeps dirty does not save `bget`: from every disk there is a run to a
      state where nothing is dirty, 30 users have a buffer each, and `bget` panics. */
  lemma ReadersExhaustCache(disk: seq<Block>) returns (states: seq<State>, steps: seq<Step>)
    ensures Run(states, steps) && InTable(states[|states| - 1])
    ensures var s := states[|states| - 1];
            && |s.refs| == NBUF && (forall b :: 0 <= b < NBUF ==> !s.bufs[b].dirty)
            && Bget(s.bufs, s.order, Key(1, NBUF)).NoBuffers?
  {
    hide Bget, Inv, Enabled, Do, Init, Complete, Interval;
    states, steps := CrowdGathers(disk, NBUF);
    RunInv(states, steps, |states| - 1);
    CrowdIsFull(states[|states| - 1]);
    RefsCount(states[|states| - 1], NBUF);
  }
}

/** The on-disk redo log: what commit and recovery write, block by block, and why a crash
    between any two block writes leaves either the old or the new home blocks. */
module LogRecovery {
  import opened Blocks

  const LOGSIZE: nat := 30

  /** The log region: a header block at `start`, then `size - 1` blocks of log. */
  datatype Layout = Layout(start: nat, size: nat)

  datatype Write = Write(block: nat, data: Block)

  predicate InLog(l: Layout, b: nat)
  {
    l.start <= b < l.start + l.size
  }

  predicate IsHome(l: Layout, d: Disk, b: nat)
  {
    b < |d| && !InLog(l, b) && b < 0x1_0000_0000
  }

  ghost predicate SameHome(l: Layout, d: Disk, e: Disk)
  {
    |d| == |e| && forall b :: 0 <= b < |d| && !InLog(l, b) ==> d[b] == e[b]
  }

  // ---------------------------------------------------------------- the header block

  function PutEntries(h: Block, bs: seq<nat>, i: nat): (r: Block)
    requires i <= |bs| <= LOGSIZE
    requires forall k :: 0 <= k < |bs| ==> bs[k] < 0x1_0000_0000
    decreases |bs| - i
  {
    if i == |bs| then h else PutEntries(SetWord(h, 1 + i, bs[i]), bs, i + 1)
  }

  /** The header block after `write_head`: the count, then the block numbers; the rest is kept. */
  function PutHeader(h: Block, bs: seq<nat>): (r: Block)
    requires |bs| <= LOGSIZE
    requires forall k :: 0 <= k < |bs| ==> bs[k] < 0x1_0000_0000
  {
    PutEntries(SetWord(h, 0, |bs|), bs, 0)
  }

  function HeaderCount(h: Block): (n: nat)
  {
    GetWord(h, 0)
  }

  function HeaderBlocks(h: Block): (bs: seq<nat>)
    requires HeaderCount(h) <= LOGSIZE
    ensures |bs| == HeaderCount(h)
  {
    seq(HeaderCount(h), i requires 0 <= i < HeaderCount(h) => GetWord(h, 1 + i) as nat)
  }

  lemma {:induction false} PutEntriesWords(h: Block, bs: seq<nat>, i: nat, j: nat)
    requires i <= |bs| <= LOGSIZE && j < WORDS
    requires forall k :: 0 <= k < |bs| ==> bs[k] < 0x1_0000_0000
    ensures GetWord(PutEntries(h, bs, i), j) == if i < j <= |bs| then bs[j - 1] else GetWord(h, j)
    decreases |bs| - i
  {
    hide GetWord, SetWord;
    if i < |bs| {
      PutEntriesWords(SetWord(h, 1 + i, bs[i]), bs, i + 1, j);
      GetSetWord(h, 1 + i, bs[i], j);
    }
  }

  /** Reading back a written header gives the same block list, whatever was there before. */
  lemma HeaderRoundTrip(h: Block, bs: seq<nat>)
    requires |bs| <= LOGSIZE
    requires forall k :: 0 <= k < |bs| ==> bs[k] < 0x1_0000_0000
    ensures HeaderCount(PutHeader(h, bs)) == |bs|
    ensures HeaderBlocks(PutHeader(h, bs)) == bs
  {
    hide GetWord, SetWord;
    var g := SetWord(h, 0, |bs|);
    PutEntriesWords(g, bs, 0, 0);
    GetSetWord(h, 0, |bs|, 0);
    forall i | 0 <= i < |bs|
      ensures GetWord(PutHeader(h, bs), 1 + i) == bs[i]
    {
      PutEntriesWords(g, bs, 0, 1 + i);
    }
  }

  lemma ClearTwice(h: Block)
    ensures PutHeader(PutHeader(h, []), []) == PutHeader(h, [])
  {
    SetWordTwice(h, 0, 0, 0);
  }

  // ---------------------------------------------------------------- applying writes

  /** The disk after the writes `ws`, in order. */
  function Apply(d: Disk, ws: seq<Write>): (r: Disk)
    ensures |r| == |d|
  {
    if ws == [] then d
    else
      var p := Apply(d, ws[..|ws| - 1]);
      var w := ws[|ws| - 1];
      if w.block < |p| then p[w.block := w.data] else p
  }

  lemma ApplyNothing(d: Disk)
    ensures Apply(d, []) == d
  {
  }

  lemma ApplySnoc(d: Disk, ws: seq<Write>, w: Write)
    requires w.block < |d|
    ensures Apply(d, ws + [w]) == Apply(d, ws)[w.block := w.data]
  {
    assert (ws + [w])[..|ws|] == ws;
  }

  lemma ApplyPrefix(d: Disk, ws: seq<Write>, k: nat)
    requires k < |ws| && ws[k].block < |d|
    ensures Apply(d, ws[..k + 1]) == Apply(d, ws[..k])[ws[k].block := ws[k].data]
  {
    assert ws[..k + 1] == ws[..k] + [ws[k]];
    ApplySnoc(d, ws[..k], ws[k]);
  }

  lemma {:induction false} ApplyConcat(d: Disk, us: seq<Write>, ws: seq<Write>)
    ensures Apply(d, us + ws) == Apply(Apply(d, us), ws)
  {
    if ws == [] {
      assert us + ws == us;
    } else {
      ApplyConcat(d, us, ws[..|ws| - 1]);
      assert (us + ws)[..|us + ws| - 1] == us + ws[..|ws| - 1];
    }
  }

  lemma {:induction false} ApplyUntouched(d: Disk, ws: seq<Write>, b: nat)
    requires b < |d|
    requires forall i :: 0 <= i < |ws| ==> ws[i].block != b
    ensures Apply(d, ws)[b] == d[b]
  {
    if ws != [] {
      ApplyUntouched(d, ws[..|ws| - 1], b);
    }
  }

  /** The last write to a block wins. */
  lemma {:induction false} ApplyLast(d: Disk, ws: seq<Write>, i: nat)
    requires i < |ws| && ws[i].block < |d|
    requires forall k :: i < k < |ws| ==> ws[k].block != ws[i].block
    ensures Apply(d, ws)[ws[i].block] == ws[i].data
  {
    if i < |ws| - 1 {
      ApplyLast(d, ws[..|ws| - 1], i);
    }
  }

  /** Writes overwrite: disks that differ only in written blocks become equal. */
  lemma {:induction false} ApplyAgree(d: Disk, e: Disk, ws: seq<Write>, b: nat)
    requires |d| == |e| && b < |d|
    requires d[b] == e[b] || exists i :: 0 <= i < |ws| && ws[i].block == b
    ensures Apply(d, ws)[b] == Apply(e, ws)[b]
  {
    if ws != [] && ws[|ws| - 1].block != b {
      ApplyAgree(d, e, ws[..|ws| - 1], b);
    }
  }

  // ---------------------------------------------------------------- recovery

  /** A disk whose log header can be trusted: its entries name home blocks and fit the log. */
  ghost predicate WellFormed(l: Layout, d: Disk)
  {
    && 1 <= l.size && l.start + l.size <= |d|
    && HeaderCount(d[l.start]) <= LOGSIZE && HeaderCount(d[l.start]) < l.size
    && forall i :: 0 <= i < HeaderCount(d[l.start]) ==> IsHome(l, d, HeaderBlocks(d[l.start])[i])
  }

  ghost predicate LogEmpty(l: Layout, d: Disk)
  {
    1 <= l.size && l.start + l.size <= |d| && HeaderCount(d[l.start]) == 0
  }

  /** The home writes of `install_trans` for the block list `bs`. */
  function InstallWrites(l: Layout, d: Disk, bs: seq<nat>): (ws: seq<Write>)
    requires l.start + 1 + |bs| <= |d|
    ensures |ws| == |bs|
  {
    seq(|bs|, i requires 0 <= i < |bs| => Write(bs[i], d[l.start + 1 + i]))
  }

  /** Every block write of `recover_from_log`, in order. */
  ghost function RecoveryWrites(l: Layout, d: Disk): (ws: seq<Write>)
    requires WellFormed(l, d)
    ensures |ws| == HeaderCount(d[l.start]) + 1
  {
    InstallWrites(l, d, HeaderBlocks(d[l.start])) + [Write(l.start, PutHeader(d[l.start], []))]
  }

  ghost function Recover(l: Layout, d: Disk): (r: Disk)
    requires WellFormed(l, d)
    ensures |r| == |d|
  {
    Apply(d, RecoveryWrites(l, d))
  }

  lemma RecoverClearsLog(l: Layout, d: Disk)
    requires WellFormed(l, d)
    ensures LogEmpty(l, Recover(l, d)) && WellFormed(l, Recover(l, d))
    ensures Recover(l, d)[l.start] == PutHeader(d[l.start], [])
  {
    var ws := RecoveryWrites(l, d);
    ApplyLast(d, ws, |ws| - 1);
    HeaderRoundTrip(d[l.start], []);
  }

  lemma InstallKeepsLog(l: Layout, d: Disk, ws: seq<Write>)
    requires WellFormed(l, d)
    requires forall i :: 0 <= i < |ws| ==> IsHome(l, d, ws[i].block)
    ensures forall b: nat :: InLog(l, b) ==> Apply(d, ws)[b] == d[b]
    ensures WellFormed(l, Apply(d, ws))
  {
    forall b: nat | InLog(l, b)
      ensures Apply(d, ws)[b] == d[b]
    {
      ApplyUntouched(d, ws, b);
    }
    assert InLog(l, l.start);
  }

  /** Recovery stopped after any number of its block writes can simply be run again. */
  lemma RecoveryRestarts(l: Layout, d: Disk, k: nat)
    requires WellFormed(l, d) && k <= |RecoveryWrites(l, d)|
    ensures WellFormed(l, Apply(d, RecoveryWrites(l, d)[..k]))
    ensures Recover(l, Apply(d, RecoveryWrites(l, d)[..k])) == Recover(l, d)
  {
    hide HeaderBlocks, HeaderCount, PutHeader;
    var ws := RecoveryWrites(l, d);
    var e := Apply(d, ws[..k]);
    if k < |ws| {
      assert forall i :: 0 <= i < k ==> ws[..k][i] == ws[i];
      InstallKeepsLog(l, d, ws[..k]);
      assert InLog(l, l.start);
      assert RecoveryWrites(l, e) == ws;
      forall b | 0 <= b < |d|
        ensures Apply(e, ws)[b] == Apply(d, ws)[b]
      {
        if forall i :: 0 <= i < |ws| ==> ws[i].block != b {
          ApplyUntouched(d, ws[..k], b);
        }
        ApplyAgree(e, d, ws, b);
      }
    } else {
      assert ws[..k] == ws;
      RecoverOfEmpty(l, d);
    }
  }

  lemma RecoverOfEmpty(l: Layout, d: Disk)
    requires WellFormed(l, d)
    ensures WellFormed(l, Recover(l, d)) && Recover(l, Recover(l, d)) == Recover(l, d)
  {
    hide PutHeader, Apply;
    var e := Recover(l, d);
    RecoverClearsLog(l, d);
    ClearTwice(d[l.start]);
    assert RecoveryWrites(l, e) == [] + [Write(l.start, e[l.start])];
    ApplySnoc(e, [], Write(l.start, e[l.start]));
    ApplyNothing(e);
  }

  /** The disk after a series of recoveries, the i-th of them cut off after `cuts[i]` writes. */
  ghost function CutRecoveries(l: Layout, d: Disk, cuts: seq<nat>): (r: Disk)
    requires WellFormed(l, d)
    ensures WellFormed(l, r) && Recover(l, r) == Recover(l, d)
    decreases cuts
  {
    if cuts == [] then d
    else
      var ws := RecoveryWrites(l, d);
      var k := if cuts[0] <= |ws| then cuts[0] else |ws|;
      RecoveryRestarts(l, d, k);
      CutRecoveries(l, Apply(d, ws[..k]), cuts[1..])
  }

  // ---------------------------------------------------------------- commit

  /** A transaction that fits the log: distinct home blocks and their new contents. */
  ghost predicate ValidTransaction(l: Layout, d: Disk, bs: seq<nat>, data: seq<Block>)
  {
    && |bs| == |data| && |bs| <= LOGSIZE && |bs| < l.size
    && (forall i :: 0 <= i < |bs| ==> IsHome(l, d, bs[i]))
    && (forall i, j :: 0 <= i < j < |bs| ==> bs[i] != bs[j])
  }

  function LogWrites(l: Layout, data: seq<Block>): (ws: seq<Write>)
    ensures |ws| == |data|
  {
    seq(|data|, i requires 0 <= i < |data| => Write(l.start + 1 + i, data[i]))
  }

  function HomeWrites(bs: seq<nat>, data: seq<Block>): (ws: seq<Write>)
    requires |bs| == |data|
    ensures |ws| == |bs|
  {
    seq(|bs|, i requires 0 <= i < |bs| => Write(bs[i], data[i]))
  }

  /** Every block write of `commit`, in order: the log, the header, the home blocks, the
      cleared header. An empty transaction writes nothing. */
  ghost function CommitWrites(l: Layout, d: Disk, bs: seq<nat>, data: seq<Block>): (ws: seq<Write>)
    requires l.start < |d| && ValidTransaction(l, d, bs, data)
    ensures |ws| == if bs == [] then 0 else 2 * |bs| + 2
  {
    if bs == [] then []
    else
      var h := PutHeader(d[l.start], bs);
      LogWrites(l, data) + [Write(l.start, h)] + HomeWrites(bs, data) + [Write(l.start, PutHeader(h, []))]
  }

  /** Before the header write nothing a recovery looks at has changed. */
  lemma CutBeforeHeader(l: Layout, d: Disk, bs: seq<nat>, data: seq<Block>, k: nat)
    requires LogEmpty(l, d) && ValidTransaction(l, d, bs, data) && k <= |bs|
    ensures var e := Apply(d, LogWrites(l, data)[..k]);
            LogEmpty(l, e) && WellFormed(l, e) && SameHome(l, Recover(l, e), d)
  {
    var ws := LogWrites(l, data)[..k];
    var e := Apply(d, ws);
    ApplyUntouched(d, ws, l.start);
    assert RecoveryWrites(l, e) == [] + [Write(l.start, PutHeader(e[l.start], []))];
    forall b | 0 <= b < |d| && !InLog(l, b)
      ensures Recover(l, e)[b] == d[b]
    {
      ApplyUntouched(d, ws, b);
      ApplyUntouched(e, RecoveryWrites(l, e), b);
    }
  }

  lemma LoggedContents(l: Layout, d: Disk, bs: seq<nat>, data: seq<Block>)
    requires LogEmpty(l, d) && ValidTransaction(l, d, bs, data)
    ensures var e := Apply(d, LogWrites(l, data) + [Write(l.start, PutHeader(d[l.start], bs))]);
            && SameHome(l, e, d)
            && e[l.start] == PutHeader(d[l.start], bs) && InstallWrites(l, e, bs) == HomeWrites(bs, data)
  {
    hide HeaderCount, HeaderBlocks, PutHeader;
    var ws := LogWrites(l, data) + [Write(l.start, PutHeader(d[l.start], bs))];
    var e := Apply(d, ws);
    ApplyLast(d, ws, |data|);
    forall i | 0 <= i < |data|
      ensures e[l.start + 1 + i] == data[i]
    {
      ApplyLast(d, ws, i);
    }
    forall b | 0 <= b < |d| && !InLog(l, b)
      ensures e[b] == d[b]
    {
      ApplyUntouched(d, ws, b);
    }
  }

  /** The disk right after the header write: the log holds the whole transaction. */
  lemma HeaderWritten(l: Layout, d: Disk, bs: seq<nat>, data: seq<Block>)
    requires LogEmpty(l, d) && ValidTransaction(l, d, bs, data)
    ensures var e := Apply(d, LogWrites(l, data) + [Write(l.start, PutHeader(d[l.start], bs))]);
            WellFormed(l, e) && SameHome(l, e, d)
            && RecoveryWrites(l, e)
               == HomeWrites(bs, data) + [Write(l.start, PutHeader(PutHeader(d[l.start], bs), []))]
  {
    hide HeaderCount, HeaderBlocks, PutHeader, Apply;
    HeaderRoundTrip(d[l.start], bs);
    LoggedContents(l, d, bs, data);
  }

  /** The block list of a transaction installs exactly its contents. */
  lemma HomeWritesInstall(l: Layout, d: Disk, e: Disk, bs: seq<nat>, data: seq<Block>, w: Write)
    requires ValidTransaction(l, d, bs, data) && SameHome(l, e, d) && w.block == l.start && InLog(l, l.start)
    ensures SameHome(l, Apply(e, HomeWrites(bs, data) + [w]), Apply(d, HomeWrites(bs, data)))
  {
    var hs := HomeWrites(bs, data);
    forall b | 0 <= b < |d| && !InLog(l, b)
      ensures Apply(e, hs + [w])[b] == Apply(d, hs)[b]
    {
      ApplyAgree(e, d, hs, b);
      assert (hs + [w])[..|hs|] == hs;
    }
  }

  /** The disk of a commit cut off after its header write is that of a cut recovery. */
  lemma CutAfterHeader(l: Layout, d: Disk, bs: seq<nat>, data: seq<Block>, k: nat)
    requires LogEmpty(l, d) && ValidTransaction(l, d, bs, data)
    requires |bs| < k <= |CommitWrites(l, d, bs, data)|
    ensures var e := Apply(d, CommitWrites(l, d, bs, data)[..k]);
            WellFormed(l, e) && SameHome(l, Recover(l, e), Apply(d, HomeWrites(bs, data)))
  {
    hide Apply, WellFormed, SameHome, HeaderCount, HeaderBlocks, PutHeader, InstallWrites;
    var ws := CommitWrites(l, d, bs, data);
    var n := |bs| + 1;
    var f := Apply(d, ws[..n]);
    assert ws[..n] == LogWrites(l, data) + [Write(l.start, PutHeader(d[l.start], bs))];
    HeaderWritten(l, d, bs, data);
    assert ws[n..] == RecoveryWrites(l, f);
    assert ws[..k] == ws[..n] + ws[n..][..k - n];
    ApplyConcat(d, ws[..n], ws[n..][..k - n]);
    RecoveryRestarts(l, f, k - n);
    HomeWritesInstall(l, d, f, bs, data, ws[|ws| - 1]);
  }

  /** Crash atomicity: stop after any `k` block writes of commit and recover, and the home
      blocks are those of before the transaction (header not yet written) or exactly those
      with the whole transaction installed; the log is empty again. */
  lemma CommitIsAtomic(l: Layout, d: Disk, bs: seq<nat>, data: seq<Block>, k: nat)
    requires LogEmpty(l, d) && ValidTransaction(l, d, bs, data)
    requires k <= |CommitWrites(l, d, bs, data)|
    ensures var e := Apply(d, CommitWrites(l, d, bs, data)[..k]);
            && WellFormed(l, e) && LogEmpty(l, Recover(l, e))
            && SameHome(l, Recover(l, e), if k <= |bs| then d else Apply(d, HomeWrites(bs, data)))
  {
    hide Apply, HeaderCount, HeaderBlocks, PutHeader, InstallWrites, SameHome;
    var ws := CommitWrites(l, d, bs, data);
    if k <= |bs| {
      CutBeforeHeader(l, d, bs, data, k);
      assert ws[..k] == LogWrites(l, data)[..k];
    } else {
      CutAfterHeader(l, d, bs, data, k);
    }
    RecoverClearsLog(l, Apply(d, ws[..k]));
  }

  /** The same with recovery itself cut off any number of times before it first completes. */
  lemma CommitSurvivesCrashes(l: Layout, d: Disk, bs: seq<nat>, data: seq<Block>, k: nat, cuts: seq<nat>)
    requires LogEmpty(l, d) && ValidTransaction(l, d, bs, data)
    requires k <= |CommitWrites(l, d, bs, data)|
    ensures var e := Apply(d, CommitWrites(l, d, bs, data)[..k]);
            && WellFormed(l, e)
            && var r := Recover(l, CutRecoveries(l, e, cuts));
               LogEmpty(l, r) && SameHome(l, r, if k <= |bs| then d else Apply(d, HomeWrites(bs, data)))
  {
    CommitIsAtomic(l, d, bs, data, k);
  }

  /** A commit that is not interrupted: the transaction is installed and the log empty. */
  lemma CommitCompletes(l: Layout, d: Disk, bs: seq<nat>, data: seq<Block>)
    requires LogEmpty(l, d) && ValidTransaction(l, d, bs, data)
    ensures var e := Apply(d, CommitWrites(l, d, bs, data));
            LogEmpty(l, e) && SameHome(l, e, Apply(d, HomeWrites(bs, data)))
  {
    hide HeaderCount, HeaderBlocks, PutHeader, InstallWrites;
    var ws := CommitWrites(l, d, bs, data);
    if bs != [] {
      var n := |bs| + 1;
      var f := Apply(d, ws[..n]);
      assert ws[..n] == LogWrites(l, data) + [Write(l.start, PutHeader(d[l.start], bs))];
      HeaderWritten(l, d, bs, data);
      assert ws[n..] == RecoveryWrites(l, f);
      assert ws == ws[..n] + ws[n..];
      ApplyConcat(d, ws[..n], ws[n..]);
      RecoverClearsLog(l, f);
      HomeWritesInstall(l, d, f, bs, data, ws[|ws| - 1]);
    }
  }
}

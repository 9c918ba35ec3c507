/** The typed message queue of `sys_send` and `sys_recv`: a ring of 64 slots guarded by one lock,
    so each call is one step. */
module MsgQueue {
  import opened Blocks
  import opened Sums

  const MAX_MESSAGES: nat := 64
  const MSG_SIZE: nat := 32

  datatype Message = Message(typ: int, data: seq<byte>)

  /** A queued message as its receiver sees it. */
  datatype Item = Item(typ: int, text: seq<byte>)

  // Strings in fixed buffers

  function ZeroFrom(d: seq<byte>, i: nat): (n: nat)
    requires i <= |d|
    ensures i <= n <= |d| && (n < |d| ==> d[n] == 0)
    ensures forall j :: i <= j < n ==> d[j] != 0
    decreases |d| - i
  {
    if i == |d| || d[i] == 0 then i else ZeroFrom(d, i + 1)
  }

  /** The bytes before the first zero byte. */
  function Text(d: seq<byte>): (t: seq<byte>)
    ensures |t| <= |d|
  {
    d[..ZeroFrom(d, 0)]
  }

  lemma TextIs(d: seq<byte>, n: nat)
    requires n <= |d| && (n < |d| ==> d[n] == 0) && forall i :: 0 <= i < n ==> d[i] != 0
    ensures Text(d) == d[..n] && |Text(d)| == n
  {
  }

  /** What fits in a message: at most 31 bytes of the sender's string. */
  function Clip(d: seq<byte>): (t: seq<byte>)
    requires |d| == MSG_SIZE
    ensures |t| < MSG_SIZE
  {
    Text(d[..MSG_SIZE - 1])
  }

  ghost predicate Stored(d: seq<byte>)
  {
    |d| == MSG_SIZE && |Text(d)| < MSG_SIZE
  }

  /** What is stored has been clipped, and clipping it again on the way out changes nothing. */
  lemma ClipStored(d: seq<byte>)
    requires Stored(d)
    ensures Clip(d) == Text(d)
  {
    var n, c := |Text(d)|, d[..MSG_SIZE - 1];
    assert forall i :: 0 <= i < |c| ==> c[i] == d[i];
    TextIs(c, n);
    assert c[..n] == d[..n];
  }

  /** `safestrcpy` over a whole message buffer. */
  method SafeStrCpy(dst: seq<byte>, src: seq<byte>) returns (r: seq<byte>)
    requires |dst| == MSG_SIZE && |src| == MSG_SIZE
    ensures Stored(r) && Text(r) == Clip(src) && Text(r) <= src && |Text(r)| <= 31
    ensures |Text(r)| == 31 || src[|Text(r)|] == 0
    ensures forall i :: |Clip(src)| + 1 < i < MSG_SIZE ==> r[i] == dst[i]
  {
    r := dst;
    var i := 0;
    ghost var c := src[..MSG_SIZE - 1];
    while i < MSG_SIZE - 1
      invariant 0 <= i < MSG_SIZE && |r| == MSG_SIZE
      invariant forall j :: 0 <= j < i ==> r[j] == src[j] && src[j] != 0
      invariant forall j :: i <= j < MSG_SIZE ==> r[j] == dst[j]
    {
      r := r[i := src[i]];
      i := i + 1;
      if src[i - 1] == 0 {
        TextIs(c, i - 1);
        r := r[i := 0];
        TextIs(r, i - 1);
        assert r[..i - 1] == c[..i - 1];
        return;
      }
    }
    TextIs(c, i);
    r := r[i := 0];
    TextIs(r, i);
    assert r[..i] == c[..i];
  }

  // The queue as a list

  function MatchFrom(q: seq<Item>, typ: int, i: nat): (k: nat)
    requires i <= |q|
    ensures i <= k <= |q| && (k < |q| ==> q[k].typ == typ)
    ensures forall j :: i <= j < k ==> q[j].typ != typ
    decreases |q| - i
  {
    if i == |q| || q[i].typ == typ then i else MatchFrom(q, typ, i + 1)
  }

  /** The position of the oldest message of a type, or the length when there is none. */
  function FirstMatch(q: seq<Item>, typ: int): (k: nat)
    ensures k <= |q|
  {
    MatchFrom(q, typ, 0)
  }

  /** The bounded list of messages the queue is meant to be. */
  function SendTo(q: seq<Item>, m: Item): (r: seq<Item>)
    ensures |q| <= MAX_MESSAGES ==> |r| <= MAX_MESSAGES
  {
    if |q| == MAX_MESSAGES then q else q + [m]
  }

  function RecvFrom(q: seq<Item>, typ: int): (r: seq<Item>)
    ensures |r| <= |q|
  {
    if FirstMatch(q, typ) == |q| then q else Without(q, FirstMatch(q, typ))
  }

  /** Queue full and the match in slot `head`: the slot to close up is also slot `tail`. */
  predicate Wraps(q: seq<Item>, typ: int)
  {
    |q| == MAX_MESSAGES && q[0].typ == typ
  }

  /** What `sys_recv` leaves: in the wrapping case the shift loop does nothing and the newest
      message is cut off. */
  function RecvLeaves(q: seq<Item>, typ: int): (r: seq<Item>)
    ensures |r| <= |q|
  {
    if Wraps(q, typ) then q[..MAX_MESSAGES - 1] else RecvFrom(q, typ)
  }

  predicate AllSame(q: seq<Item>)
  {
    forall i :: 0 <= i < |q| ==> q[i] == q[0]
  }

  /** `sys_recv` deletes the oldest match and keeps the order of the rest, except exactly when the
      queue is full, its oldest message matches and the messages are not all the same. */
  lemma RecvExact(q: seq<Item>, typ: int)
    requires |q| <= MAX_MESSAGES
    ensures RecvLeaves(q, typ) == RecvFrom(q, typ) <==> !Wraps(q, typ) || AllSame(q)
  {
    if Wraps(q, typ) {
      var l, r := q[..MAX_MESSAGES - 1], q[1..];
      assert FirstMatch(q, typ) == 0 && RecvFrom(q, typ) == r;
      if l == r {
        forall i | 0 <= i < |q|
          ensures q[i] == q[0]
        {
          ShiftedSame(q, i);
        }
      }
      if AllSame(q) {
        assert l == r;
      }
    }
  }

  lemma {:induction false} ShiftedSame(q: seq<Item>, i: nat)
    requires i < |q| && q[..|q| - 1] == q[1..]
    ensures q[i] == q[0]
  {
    if i > 0 {
      assert q[i - 1] == q[..|q| - 1][i - 1] == q[1..][i - 1] == q[i];
      ShiftedSame(q, i - 1);
    }
  }

  /** A concrete failure: 63 messages of one type behind one of another. */
  lemma RecvCanDropTheNewest()
    ensures exists q: seq<Item> :: |q| == MAX_MESSAGES && Wraps(q, 1)
              && RecvLeaves(q, 1)[0] == q[0] && RecvLeaves(q, 1) != RecvFrom(q, 1)
  {
    var rest := seq(MAX_MESSAGES - 1, _ => Item(2, []));
    var q := [Item(1, [])] + rest;
    assert q[0].typ == 1 && q[1].typ == 2;
    assert !AllSame(q) by { assert q[1] != q[0]; }
    RecvExact(q, 1);
    assert RecvLeaves(q, 1)[0] == q[0];
  }

  // Whole runs

  datatype Op = Send(m: Item) | Recv(typ: int)

  function Leaves(q: seq<Item>, op: Op): (r: seq<Item>)
    ensures |q| <= MAX_MESSAGES ==> |r| <= MAX_MESSAGES
  {
    match op
    case Send(m) => SendTo(q, m)
    case Recv(typ) => RecvLeaves(q, typ)
  }

  function Ideal(q: seq<Item>, op: Op): (r: seq<Item>)
    ensures |q| <= MAX_MESSAGES ==> |r| <= MAX_MESSAGES
  {
    match op
    case Send(m) => SendTo(q, m)
    case Recv(typ) => RecvFrom(q, typ)
  }

  function Run(ops: seq<Op>): (q: seq<Item>)
    ensures |q| <= MAX_MESSAGES
  {
    if ops == [] then [] else Leaves(Run(ops[..|ops| - 1]), ops[|ops| - 1])
  }

  function IdealRun(ops: seq<Op>): (q: seq<Item>)
    ensures |q| <= MAX_MESSAGES
  {
    if ops == [] then [] else Ideal(IdealRun(ops[..|ops| - 1]), ops[|ops| - 1])
  }

  ghost predicate WrapsAt(ops: seq<Op>, i: nat)
    requires i < |ops|
  {
    ops[i].Recv? && Wraps(IdealRun(ops[..i]), ops[i].typ) && !AllSame(IdealRun(ops[..i]))
  }

  ghost predicate AgreesAt(ops: seq<Op>, i: nat)
    requires i <= |ops|
  {
    Run(ops[..i]) == IdealRun(ops[..i])
  }

  lemma RunStep(ops: seq<Op>, i: nat)
    requires i < |ops| && AgreesAt(ops, i)
    ensures AgreesAt(ops, i + 1) <==> !WrapsAt(ops, i)
  {
    var next := ops[..i + 1];
    assert next[..|next| - 1] == ops[..i] && next[|next| - 1] == ops[i];
    hide Wraps, AllSame, RecvLeaves, RecvFrom;
    if ops[i].Recv? { RecvExact(IdealRun(ops[..i]), ops[i].typ); }
  }

  lemma {:induction false} AgreesUpTo(ops: seq<Op>, n: nat)
    requires n <= |ops| && forall i :: 0 <= i < n ==> !WrapsAt(ops, i)
    ensures AgreesAt(ops, n)
  {
    if n > 0 {
      AgreesUpTo(ops, n - 1);
      RunStep(ops, n - 1);
    }
  }

  /** A run agrees with the list after every call if and only if no receive wraps. */
  lemma RunExact(ops: seq<Op>)
    ensures (forall i :: 0 <= i <= |ops| ==> AgreesAt(ops, i)) <==> (forall i :: 0 <= i < |ops| ==> !WrapsAt(ops, i))
  {
    hide AgreesAt, WrapsAt;
    if forall i :: 0 <= i < |ops| ==> !WrapsAt(ops, i) {
      forall n | 0 <= n <= |ops|
        ensures AgreesAt(ops, n)
      {
        AgreesUpTo(ops, n);
      }
    }
    if forall i :: 0 <= i <= |ops| ==> AgreesAt(ops, i) {
      forall i | 0 <= i < |ops|
        ensures !WrapsAt(ops, i)
      {
        assert AgreesAt(ops, i + 1);
        RunStep(ops, i);
      }
    }
  }

  function Items(ops: seq<Op>): (q: seq<Item>)
    requires forall i :: 0 <= i < |ops| ==> ops[i].Send?
    ensures |q| == |ops|
  {
    seq(|ops|, i requires 0 <= i < |ops| => ops[i].m)
  }

  lemma {:induction false} SendsFill(ops: seq<Op>)
    requires |ops| <= MAX_MESSAGES && forall i :: 0 <= i < |ops| ==> ops[i].Send?
    ensures IdealRun(ops) == Items(ops)
  {
    if ops != [] {
      SendsFill(ops[..|ops| - 1]);
    }
  }

  /** Such a queue comes about: after one message of type 1 and 63 of type 2, receiving type 1 keeps
      the received message and loses the last one sent. */
  lemma RunCanDropTheNewest() returns (ops: seq<Op>)
    ensures |ops| == MAX_MESSAGES + 1 && WrapsAt(ops, MAX_MESSAGES) && !AgreesAt(ops, MAX_MESSAGES + 1)
    ensures AgreesAt(ops, MAX_MESSAGES) && Run(ops) == Run(ops[..MAX_MESSAGES])[..MAX_MESSAGES - 1]
  {
    var sends := seq(MAX_MESSAGES, i => Send(Item(if i == 0 then 1 else 2, [])));
    ops := sends + [Recv(1)];
    assert ops[..MAX_MESSAGES] == sends && ops[..MAX_MESSAGES + 1] == ops;
    SendsFill(sends);
    var q := IdealRun(sends);
    assert q[0] == Item(1, []) && q[1] == Item(2, []);
    forall i | 0 <= i < MAX_MESSAGES
      ensures !WrapsAt(ops, i)
    {
      assert ops[i] == sends[i];
    }
    AgreesUpTo(ops, MAX_MESSAGES);
    RunStep(ops, MAX_MESSAGES);
  }

  // Per-type order

  function OfType(q: seq<Item>, typ: int): (r: seq<Item>)
  {
    if q == [] then [] else OfType(q[..|q| - 1], typ) + if q[|q| - 1].typ == typ then [q[|q| - 1]] else []
  }

  lemma {:induction false} OfTypeConcat(p: seq<Item>, q: seq<Item>, typ: int)
    ensures OfType(p + q, typ) == OfType(p, typ) + OfType(q, typ)
  {
    if q == [] {
      assert p + q == p;
    } else {
      var n := |q| - 1;
      OfTypeConcat(p, q[..n], typ);
      assert (p + q)[..|p + q| - 1] == p + q[..n];
    }
  }

  lemma {:induction false} OfTypeNone(q: seq<Item>, typ: int)
    requires forall i :: 0 <= i < |q| ==> q[i].typ != typ
    ensures OfType(q, typ) == []
  {
    if q != [] { OfTypeNone(q[..|q| - 1], typ); }
  }

  /** The message of a type that one call puts in, and the one it hands out. */
  function Accepted(q: seq<Item>, op: Op, typ: int): (r: seq<Item>)
  {
    if op.Send? && op.m.typ == typ && |q| != MAX_MESSAGES then [op.m] else []
  }

  function HandedOut(q: seq<Item>, op: Op, typ: int): (r: seq<Item>)
  {
    if op.Recv? && op.typ == typ && FirstMatch(q, typ) < |q| then [q[FirstMatch(q, typ)]] else []
  }

  function Sent(ops: seq<Op>, typ: int): (r: seq<Item>)
  {
    if ops == [] then []
    else Sent(ops[..|ops| - 1], typ) + Accepted(Run(ops[..|ops| - 1]), ops[|ops| - 1], typ)
  }

  function Received(ops: seq<Op>, typ: int): (r: seq<Item>)
  {
    if ops == [] then []
    else Received(ops[..|ops| - 1], typ) + HandedOut(Run(ops[..|ops| - 1]), ops[|ops| - 1], typ)
  }

  ghost predicate NeverWraps(ops: seq<Op>)
  {
    ops == []
    || (NeverWraps(ops[..|ops| - 1])
        && (ops[|ops| - 1].Recv? ==> !Wraps(Run(ops[..|ops| - 1]), ops[|ops| - 1].typ)))
  }

  lemma FifoStep(q: seq<Item>, op: Op, typ: int)
    requires op.Recv? ==> !Wraps(q, op.typ)
    ensures OfType(q, typ) + Accepted(q, op, typ) == HandedOut(q, op, typ) + OfType(Leaves(q, op), typ)
  {
    match op {
      case Send(m) =>
        OfTypeConcat(q, [m], typ);
        OneOfType(m, typ);
      case Recv(t) =>
        var k := FirstMatch(q, t);
        if k < |q| { RemoveOfType(q, k, typ); }
    }
  }

  /** While no receive wraps, each type is delivered in the order it was sent, nothing lost and
      nothing twice: what was sent is what was received followed by what still waits. */
  lemma {:induction false} TypeIsFifo(ops: seq<Op>, typ: int)
    requires NeverWraps(ops)
    ensures Sent(ops, typ) == Received(ops, typ) + OfType(Run(ops), typ)
  {
    if ops != [] {
      var init, op := ops[..|ops| - 1], ops[|ops| - 1];
      TypeIsFifo(init, typ);
      FifoStep(Run(init), op, typ);
      hide Accepted, HandedOut, Leaves, OfType;
      Regroup(Received(init, typ), OfType(Run(init), typ), Accepted(Run(init), op, typ),
              HandedOut(Run(init), op, typ), OfType(Run(ops), typ));
    }
  }

  lemma Regroup(r: seq<Item>, w: seq<Item>, a: seq<Item>, h: seq<Item>, l: seq<Item>)
    requires w + a == h + l
    ensures r + w + a == r + h + l
  {
    assert r + w + a == r + (w + a);
    assert r + h + l == r + (h + l);
  }

  lemma OneOfType(m: Item, typ: int)
    ensures OfType([m], typ) == if m.typ == typ then [m] else []
  {
    assert [m][..0] == [];
  }

  lemma RemoveOfType(q: seq<Item>, k: nat, typ: int)
    requires k < |q| && forall i :: 0 <= i < k ==> q[i].typ != q[k].typ
    ensures OfType(q, typ) == (if q[k].typ == typ then [q[k]] else []) + OfType(Without(q, k), typ)
  {
    hide OfType;
    var a, b := q[..k], q[k + 1..];
    assert q == a + ([q[k]] + b);
    OfTypeConcat(a, [q[k]] + b, typ);
    OfTypeConcat([q[k]], b, typ);
    OneOfType(q[k], typ);
    OfTypeConcat(a, b, typ);
    if q[k].typ == typ { OfTypeNone(a, typ); }
  }

  // The ring

  function Slot(i: nat): (s: nat)
    ensures s < MAX_MESSAGES
  {
    i % MAX_MESSAGES
  }

  function ItemOf(m: Message): (r: Item)
  {
    Item(m.typ, Text(m.data))
  }

  ghost function View(a: seq<Message>, head: nat, count: nat): (q: seq<Item>)
    requires |a| == MAX_MESSAGES
    ensures |q| == count
  {
    seq(count, i requires 0 <= i => ItemOf(a[Slot(head + i)]))
  }

  ghost predicate RingOk(a: seq<Message>, head: nat, tail: nat, count: nat)
  {
    && |a| == MAX_MESSAGES && head < MAX_MESSAGES && count <= MAX_MESSAGES && tail == Slot(head + count)
    && forall i :: 0 <= i < |a| ==> Stored(a[i].data)
  }

  class Queue {
    const messages: array<Message>
    var head: nat
    var tail: nat
    var count: nat

    ghost predicate Valid()
      reads this, messages
    {
      RingOk(messages[..], head, tail, count)
    }

    ghost function Contents(): (q: seq<Item>)
      requires Valid()
      reads this, messages
    {
      View(messages[..], head, count)
    }

    constructor ()
      ensures Valid() && fresh(messages) && Contents() == []
    {
      var zero := seq(MSG_SIZE, _ => 0);
      messages := new Message[MAX_MESSAGES](_ => Message(0, zero));
      head, tail, count := 0, 0, 0;
    }

    method Send(typ: int, msg: seq<byte>) returns (ok: bool)
      requires Valid() && |msg| == MSG_SIZE
      modifies this, messages
      ensures Valid() && head == old(head)
      ensures ok == (|old(Contents())| < 64)
      ensures Contents() == SendTo(old(Contents()), Item(typ, Clip(msg)))
    {
      if count == MAX_MESSAGES {
        return false;
      }
      hide View, Text, Stored;
      ghost var was := messages[..];
      assert Stored(was[tail].data);
      var data := SafeStrCpy(messages[tail].data, msg);
      messages[tail] := Message(typ, data);
      ViewAppend(was, head, tail, count, Message(typ, data));
      assert messages[..] == was[tail := Message(typ, data)];
      hide RingOk;
      tail := (tail + 1) % MAX_MESSAGES;
      count := count + 1;
      return true;
    }

    /** The search loop of `sys_recv`. */
    method Find(typ: int) returns (i: nat)
      requires Valid()
      ensures i == FirstMatch(Contents(), typ)
    {
      i := 0;
      while i < count
        invariant 0 <= i <= count
        invariant forall j :: 0 <= j < i ==> Contents()[j].typ != typ
      {
        assert Contents()[i] == ItemOf(messages[Slot(head + i)]);
        if messages[(head + i) % MAX_MESSAGES].typ == typ {
          return;
        }
        i := i + 1;
      }
    }

    /** The shift loop of `sys_recv`: slots `index` up to before `tail` each take their successor. */
    method Shift(index: nat)
      requires Valid() && index < MAX_MESSAGES
      modifies messages
      ensures messages[..] == Shifted(old(messages[..]), index, tail)
    {
      ghost var was := messages[..];
      var j := index;
      while j != tail
        invariant 0 <= j < MAX_MESSAGES && Ahead(index, j) <= Ahead(index, tail)
        invariant messages[..] == Shifted(was, index, j)
        decreases Ahead(index, tail) - Ahead(index, j)
      {
        var next := (j + 1) % MAX_MESSAGES;
        AheadNext(index, j, tail);
        assert messages[next] == Shifted(was, index, j)[next] == was[next];
        messages[j] := messages[next];
        assert messages[..] == Shifted(was, index, j)[j := was[next]];
        ShiftedNext(was, index, j, tail);
        j := next;
      }
    }

    method Recv(typ: int, dst: seq<byte>) returns (ok: bool, msg: seq<byte>)
      requires Valid() && |dst| == MSG_SIZE
      modifies this, messages
      ensures Valid() && head == old(head)
      ensures var q := old(Contents()); var k := FirstMatch(q, typ);
              && ok == (k < |q|)
              && (ok ==> Stored(msg) && Text(msg) == q[k].text)
              && (!ok ==> msg == dst)
      ensures Contents() == RecvLeaves(old(Contents()), typ)
    {
      hide View, Text, Stored, RingOk, Shifted, Slot, RecvLeaves, FirstMatch, Clip;
      msg := dst;
      var i := Find(typ);
      if i == count {
        RecvNone(Contents(), typ);
        return false, msg;
      }
      var index := (head + i) % MAX_MESSAGES;
      SlotIs(head + i);
      RecvParts(messages[..], head, tail, count, i, typ);
      msg := SafeStrCpy(msg, messages[index].data);
      Shift(index);
      tail := (tail - 1 + MAX_MESSAGES) % MAX_MESSAGES;
      count := count - 1;
      ok := true;
    }
  }

  lemma SlotIs(i: nat)
    ensures Slot(i) == i % MAX_MESSAGES
  {
  }

  lemma ViewAt(a: seq<Message>, head: nat, count: nat, i: nat)
    requires |a| == MAX_MESSAGES && i < count
    ensures View(a, head, count)[i] == ItemOf(a[Slot(head + i)])
  {
  }

  lemma SlotsDiffer(head: nat, i: nat, j: nat)
    requires i < j < i + MAX_MESSAGES
    ensures Slot(head + i) != Slot(head + j)
  {
  }

  lemma ViewAppend(a: seq<Message>, head: nat, tail: nat, count: nat, m: Message)
    requires RingOk(a, head, tail, count) && count < MAX_MESSAGES && Stored(m.data)
    ensures RingOk(a[tail := m], head, Slot(tail + 1), count + 1)
    ensures View(a[tail := m], head, count + 1) == View(a, head, count) + [ItemOf(m)]
  {
    assert Slot(tail + 1) == Slot(head + (count + 1));
    hide Stored, ItemOf, View, Slot;
    var l, r := View(a[tail := m], head, count + 1), View(a, head, count) + [ItemOf(m)];
    forall i | 0 <= i <= count
      ensures l[i] == r[i]
    {
      ViewAt(a[tail := m], head, count + 1, i);
      if i < count {
        ViewAt(a, head, count, i);
        SlotsDiffer(head, i, count);
      }
    }
  }

  /** How many steps slot `j` lies after slot `i` round the ring. */
  function Ahead(i: nat, j: nat): (n: int)
    requires i < MAX_MESSAGES && j < MAX_MESSAGES
    ensures 0 <= n < MAX_MESSAGES
  {
    if j >= i then j - i else j - i + MAX_MESSAGES
  }

  lemma AheadNext(i: nat, j: nat, tail: nat)
    requires i < MAX_MESSAGES && j < MAX_MESSAGES && tail < MAX_MESSAGES
    requires j != tail && Ahead(i, j) <= Ahead(i, tail)
    ensures Ahead(i, Slot(j + 1)) == Ahead(i, j) + 1 <= Ahead(i, tail)
  {
  }

  function Shifted(a: seq<Message>, index: nat, j: nat): (r: seq<Message>)
    requires |a| == MAX_MESSAGES && index < MAX_MESSAGES && j < MAX_MESSAGES
    ensures |r| == MAX_MESSAGES
  {
    seq(MAX_MESSAGES, s requires 0 <= s < MAX_MESSAGES =>
      if Ahead(index, s) < Ahead(index, j) then a[Slot(s + 1)] else a[s])
  }

  lemma ShiftedNext(a: seq<Message>, index: nat, j: nat, tail: nat)
    requires |a| == MAX_MESSAGES && index < MAX_MESSAGES && j < MAX_MESSAGES && tail < MAX_MESSAGES
    requires j != tail && Ahead(index, j) <= Ahead(index, tail)
    ensures Shifted(a, index, Slot(j + 1)) == Shifted(a, index, j)[j := a[Slot(j + 1)]]
  {
    AheadNext(index, j, tail);
    assert forall s :: 0 <= s < MAX_MESSAGES && Ahead(index, s) == Ahead(index, j) ==> s == j;
  }

  lemma RecvLeavesAt(q: seq<Item>, typ: int, i: nat)
    requires FirstMatch(q, typ) < |q| <= MAX_MESSAGES && i < |q| - 1
    ensures |RecvLeaves(q, typ)| == |q| - 1
    ensures RecvLeaves(q, typ)[i]
            == q[if i >= FirstMatch(q, typ) && !(|q| == MAX_MESSAGES && FirstMatch(q, typ) == 0) then i + 1 else i]
  {
  }

  lemma ShiftedAt(a: seq<Message>, head: nat, tail: nat, count: nat, k: nat, i: nat)
    requires |a| == MAX_MESSAGES && head < MAX_MESSAGES && tail == Slot(head + count)
    requires k < count <= MAX_MESSAGES && i < count - 1
    ensures Shifted(a, Slot(head + k), tail)[Slot(head + i)]
            == a[Slot(head + if i >= k && !(count == MAX_MESSAGES && k == 0) then i + 1 else i)]
  {
    ShiftedSlot(head, count, k, i);
    hide Ahead, Slot;
  }

  lemma ShiftedView(a: seq<Message>, head: nat, tail: nat, count: nat, k: nat, typ: int)
    requires RingOk(a, head, tail, count) && k < count
    requires k == FirstMatch(View(a, head, count), typ)
    ensures var r := Shifted(a, Slot(head + k), tail);
            && RingOk(r, head, Slot(tail - 1 + MAX_MESSAGES), count - 1)
            && View(r, head, count - 1) == RecvLeaves(View(a, head, count), typ)
  {
    ShiftedStored(a, head, tail, count, Slot(head + k));
    hide Stored, ItemOf, View, FirstMatch, RecvLeaves, Slot, Ahead, RingOk, Shifted;
    var q, r := View(a, head, count), Shifted(a, Slot(head + k), tail);
    var l := RecvLeaves(q, typ);
    RecvShortens(q, typ);
    forall i | 0 <= i < count - 1
      ensures View(r, head, count - 1)[i] == l[i]
    {
      ShiftedViewAt(a, head, tail, count, k, typ, i);
    }
  }

  lemma ShiftedViewAt(a: seq<Message>, head: nat, tail: nat, count: nat, k: nat, typ: int, i: nat)
    requires RingOk(a, head, tail, count) && k < count && i < count - 1
    requires k == FirstMatch(View(a, head, count), typ)
    ensures |RecvLeaves(View(a, head, count), typ)| == count - 1
    ensures View(Shifted(a, Slot(head + k), tail), head, count - 1)[i] == RecvLeaves(View(a, head, count), typ)[i]
  {
    hide Stored, ItemOf, View, FirstMatch, RecvLeaves, Ahead, Shifted;
    ShiftedAt(a, head, tail, count, k, i);
    RecvLeavesAt(View(a, head, count), typ, i);
    hide Slot;
    ViewAt(Shifted(a, Slot(head + k), tail), head, count - 1, i);
    ViewAt(a, head, count, i);
    ViewAt(a, head, count, i + 1);
  }

  /** What `sys_recv` reads off the ring, and the state its updates lead to. */
  lemma RecvParts(a: seq<Message>, head: nat, tail: nat, count: nat, k: nat, typ: int)
    requires RingOk(a, head, tail, count) && k < count
    requires k == FirstMatch(View(a, head, count), typ)
    ensures |a| == MAX_MESSAGES && tail < MAX_MESSAGES
    ensures var m := a[Slot(head + k)]; |m.data| == MSG_SIZE && View(a, head, count)[k].text == Clip(m.data)
    ensures var r := Shifted(a, Slot(head + k), tail);
            && RingOk(r, head, (tail - 1 + MAX_MESSAGES) % MAX_MESSAGES, count - 1)
            && View(r, head, count - 1) == RecvLeaves(View(a, head, count), typ)
  {
    ViewAt(a, head, count, k);
    ClipStored(a[Slot(head + k)].data);
    SlotIs(tail - 1 + MAX_MESSAGES);
    ShiftedView(a, head, tail, count, k, typ);
    hide *;
  }

  lemma ShiftedStored(a: seq<Message>, head: nat, tail: nat, count: nat, index: nat)
    requires RingOk(a, head, tail, count) && 0 < count && index < MAX_MESSAGES
    ensures RingOk(Shifted(a, index, tail), head, Slot(tail - 1 + MAX_MESSAGES), count - 1)
  {
    hide Stored, Ahead;
    assert Slot(tail - 1 + MAX_MESSAGES) == Slot(head + (count - 1));
  }

  lemma RecvNone(q: seq<Item>, typ: int)
    requires FirstMatch(q, typ) == |q|
    ensures RecvLeaves(q, typ) == q
  {
  }

  lemma RecvShortens(q: seq<Item>, typ: int)
    requires FirstMatch(q, typ) < |q| <= MAX_MESSAGES
    ensures |RecvLeaves(q, typ)| == |q| - 1
  {
  }

  /** Position `i` after the shift: kept before the match, moved down behind it, except that
      nothing moves when the ring is full and the match is at `head`. */
  lemma ShiftedSlot(head: nat, count: nat, k: nat, i: nat)
    requires head < MAX_MESSAGES && k < count <= MAX_MESSAGES && i < count - 1
    ensures Ahead(Slot(head + k), Slot(head + i)) < Ahead(Slot(head + k), Slot(head + count))
       <==> i >= k && !(count == MAX_MESSAGES && k == 0)
    ensures Slot(Slot(head + i) + 1) == Slot(head + i + 1)
  {
  }
}

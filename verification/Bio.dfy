/** The block cache: 30 buffers on a ring in order of last use, most recent first. */
module Bio {
  import opened Blocks
  import opened Sums

  const NBUF: nat := 30

  /** The list head, one past the buffers. */
  const HEAD: nat := 30

  datatype Key = Key(dev: nat, blockno: nat)

  datatype Buf = Buf(key: Key, valid: bool, dirty: bool, refcnt: nat, data: Block)

  // ---------------------------------------------------------------- the order of use

  ghost predicate Distinct(order: seq<nat>)
  {
    && (forall i :: 0 <= i < |order| ==> order[i] < NBUF)
    && (forall i, j :: 0 <= i < j < |order| ==> order[i] != order[j])
  }

  /** Every buffer is on the list exactly once. */
  ghost predicate Complete(order: seq<nat>)
  {
    Distinct(order) && |order| == NBUF && forall b :: 0 <= b < NBUF ==> b in order
  }

  function ToFront(order: seq<nat>, k: nat): (r: seq<nat>)
    requires k < |order|
    ensures |r| == |order|
  {
    [order[k]] + Without(order, k)
  }

  lemma WithoutAt(order: seq<nat>, k: nat, i: nat)
    requires k < |order| && i < |order| - 1
    ensures Without(order, k)[i] == order[if i < k then i else i + 1]
  {
  }

  lemma WithoutDistinct(order: seq<nat>, k: nat)
    requires Distinct(order) && k < |order|
    ensures Distinct(Without(order, k)) && order[k] !in Without(order, k)
  {
    var r := Without(order, k);
    hide Without;
    forall i | 0 <= i < |r|
      ensures r[i] < NBUF && r[i] != order[k]
      ensures forall j :: i < j < |r| ==> r[i] != r[j]
    {
      WithoutAt(order, k, i);
      forall j | i < j < |r|
        ensures r[i] != r[j]
      {
        WithoutAt(order, k, j);
      }
    }
  }

  lemma WithoutKeeps(order: seq<nat>, k: nat, b: nat)
    requires k < |order| && b in order && b != order[k]
    ensures b in Without(order, k)
  {
    var i :| 0 <= i < |order| && order[i] == b;
    if i < k { WithoutAt(order, k, i); } else { WithoutAt(order, k, i - 1); }
  }

  lemma ToFrontComplete(order: seq<nat>, k: nat)
    requires Complete(order) && k < |order|
    ensures Complete(ToFront(order, k))
  {
    WithoutDistinct(order, k);
    forall b | 0 <= b < NBUF
      ensures b in ToFront(order, k)
    {
      if b != order[k] { WithoutKeeps(order, k, b); }
    }
  }

  // ---------------------------------------------------------------- the links

  /** The node at place `i` of the ring: the head, the buffers in order, and the head again. */
  function Node(order: seq<nat>, i: nat): (n: nat)
    requires i <= |order| + 1
  {
    if i == 0 || i == |order| + 1 then HEAD else order[i - 1]
  }

  ghost predicate LinkAt(next: seq<nat>, prev: seq<nat>, order: seq<nat>, i: nat)
    requires |next| == NBUF + 1 && |prev| == NBUF + 1 && i <= |order|
  {
    var a, b := Node(order, i), Node(order, i + 1);
    a <= NBUF && b <= NBUF && next[a] == b && prev[b] == a
  }

  /** `next` and `prev` link the head and the listed buffers into one ring, both ways round. */
  ghost predicate Ring(next: seq<nat>, prev: seq<nat>, order: seq<nat>)
  {
    && |next| == NBUF + 1 && |prev| == NBUF + 1 && Distinct(order)
    && forall i :: 0 <= i <= |order| ==> LinkAt(next, prev, order, i)
  }

  lemma NodesDiffer(order: seq<nat>, i: nat, j: nat)
    requires Distinct(order) && i < j <= |order| + 1 && !(i == 0 && j == |order| + 1)
    ensures Node(order, i) != Node(order, j)
  {
  }

  lemma RingLink(next: seq<nat>, prev: seq<nat>, order: seq<nat>, i: nat)
    requires Ring(next, prev, order) && i <= |order|
    ensures LinkAt(next, prev, order, i)
  {
  }

  lemma NodeWithout(order: seq<nat>, k: nat, i: nat)
    requires k < |order| && i <= |order|
    ensures Node(Without(order, k), i) == Node(order, if i <= k then i else i + 1)
  {
    if 0 < i < |order| { WithoutAt(order, k, i - 1); }
  }

  /** Taking the buffer at position `k` off the ring. */
  lemma UnlinkAt(next: seq<nat>, prev: seq<nat>, order: seq<nat>, k: nat, i: nat)
    requires Ring(next, prev, order) && k < |order| && i < |order|
    ensures var b := order[k];
            b <= NBUF && next[b] <= NBUF && prev[b] <= NBUF
            && LinkAt(next[prev[b] := next[b]], prev[next[b] := prev[b]], Without(order, k), i)
  {
    assert Node(order, k + 1) == order[k];
    RingLink(next, prev, order, k);
    RingLink(next, prev, order, k + 1);
    NodeWithout(order, k, i);
    NodeWithout(order, k, i + 1);
    var l := if i <= k then i else i + 1;
    RingLink(next, prev, order, l);
    hide Ring, Node, Without;
    if l < k {
      NodesDiffer(order, l, k);
      NodesDiffer(order, l + 1, k + 2);
    } else if l > k + 1 {
      NodesDiffer(order, k, l);
      NodesDiffer(order, k + 2, l + 1);
    }
  }

  lemma Unlink(next: seq<nat>, prev: seq<nat>, order: seq<nat>, k: nat)
    requires Ring(next, prev, order) && k < |order|
    ensures var b := order[k];
            b <= NBUF && next[b] <= NBUF && prev[b] <= NBUF
            && Ring(next[prev[b] := next[b]], prev[next[b] := prev[b]], Without(order, k))
  {
    UnlinkAt(next, prev, order, k, 0);
    WithoutDistinct(order, k);
    hide LinkAt, Distinct, Without;
    var b, r := order[k], Without(order, k);
    var n, p := next[prev[b] := next[b]], prev[next[b] := prev[b]];
    forall i | 0 <= i <= |r|
      ensures LinkAt(n, p, r, i)
    {
      UnlinkAt(next, prev, order, k, i);
    }
  }

  lemma NodePush(order: seq<nat>, b: nat, i: nat)
    requires 0 < i <= |order| + 2
    ensures Node([b] + order, i) == if i == 1 then b else Node(order, i - 1)
  {
  }

  /** Putting buffer `b` just behind the head. */
  lemma PushAt(next: seq<nat>, prev: seq<nat>, order: seq<nat>, b: nat, i: nat)
    requires Ring(next, prev, order) && b < NBUF && b !in order && i <= |order| + 1
    ensures next[HEAD] <= NBUF
    ensures LinkAt(next[b := next[HEAD]][HEAD := b], prev[b := HEAD][next[HEAD] := b], [b] + order, i)
  {
    RingLink(next, prev, order, 0);
    NodePush(order, b, i + 1);
    if i > 0 {
      NodePush(order, b, i);
      RingLink(next, prev, order, i - 1);
      if i > 1 {
        assert Node(order, i - 1) != b && Node(order, i - 1) != HEAD;
        NodesDiffer(order, 1, i);
      }
      assert Node(order, i) != b;
    }
  }

  lemma Push(next: seq<nat>, prev: seq<nat>, order: seq<nat>, b: nat)
    requires Ring(next, prev, order) && b < NBUF && b !in order
    ensures next[HEAD] <= NBUF
    ensures Ring(next[b := next[HEAD]][HEAD := b], prev[b := HEAD][next[HEAD] := b], [b] + order)
  {
    PushAt(next, prev, order, b, 0);
    assert Distinct([b] + order);
    hide LinkAt, Distinct;
    var n, p, r := next[b := next[HEAD]][HEAD := b], prev[b := HEAD][next[HEAD] := b], [b] + order;
    forall i | 0 <= i <= |r|
      ensures LinkAt(n, p, r, i)
    {
      PushAt(next, prev, order, b, i);
    }
  }

  // ---------------------------------------------------------------- finding a buffer

  /** The first position from `i` on whose buffer holds the block, or the length. */
  function HitFrom(bufs: seq<Buf>, order: seq<nat>, key: Key, i: nat): (k: nat)
    requires |bufs| == NBUF && i <= |order| && forall j :: 0 <= j < |order| ==> order[j] < NBUF
    ensures i <= k <= |order| && (k < |order| ==> bufs[order[k]].key == key)
    ensures forall j :: i <= j < k ==> bufs[order[j]].key != key
    decreases |order| - i
  {
    if i == |order| || bufs[order[i]].key == key then i else HitFrom(bufs, order, key, i + 1)
  }

  predicate Unused(b: Buf)
  {
    b.refcnt == 0 && !b.dirty
  }

  /** One more than the last position before `i` whose buffer may be recycled, or 0. */
  function VictimBefore(bufs: seq<Buf>, order: seq<nat>, i: nat): (k: nat)
    requires |bufs| == NBUF && i <= |order| && forall j :: 0 <= j < |order| ==> order[j] < NBUF
    ensures k <= i && (k > 0 ==> Unused(bufs[order[k - 1]]))
    ensures forall j :: k <= j < i ==> !Unused(bufs[order[j]])
  {
    if i == 0 || Unused(bufs[order[i - 1]]) then i else VictimBefore(bufs, order, i - 1)
  }

  datatype Got = Buffer(b: nat, bufs: seq<Buf>) | NoBuffers

  /** `bget` under the cache lock: the buffer and the table afterwards, or the panic. */
  function Bget(bufs: seq<Buf>, order: seq<nat>, key: Key): (g: Got)
    requires |bufs| == NBUF && forall j :: 0 <= j < |order| ==> order[j] < NBUF
  {
    var k := HitFrom(bufs, order, key, 0);
    if k < |order| then
      var b := bufs[order[k]];
      Buffer(order[k], bufs[order[k] := b.(refcnt := b.refcnt + 1)])
    else
      var v := VictimBefore(bufs, order, |order|);
      if v > 0 then
        var b := bufs[order[v - 1]];
        Buffer(order[v - 1], bufs[order[v - 1] := Buf(key, false, false, 1, b.data)])
      else NoBuffers
  }

  /** `brelse` under the cache lock. */
  function DroppedBufs(bufs: seq<Buf>, b: nat): (r: seq<Buf>)
    requires b < |bufs| && bufs[b].refcnt > 0
    ensures |r| == |bufs|
  {
    bufs[b := bufs[b].(refcnt := bufs[b].refcnt - 1)]
  }

  function DroppedOrder(bufs: seq<Buf>, order: seq<nat>, k: nat): (r: seq<nat>)
    requires k < |order| && order[k] < |bufs|
  {
    if bufs[order[k]].refcnt == 1 then ToFront(order, k) else order
  }

  // ---------------------------------------------------------------- the code

  class Cache {
    const bufs: array<Buf>
    const next: array<nat>
    const prev: array<nat>
    ghost var order: seq<nat>

    ghost predicate Valid()
      reads this, bufs, next, prev
    {
      && bufs.Length == NBUF && next != prev
      && Ring(next[..], prev[..], order) && Complete(order)
    }

    /** `binit`: link every buffer in behind the head. */
    constructor (zero: Block)
      ensures Valid() && fresh(bufs) && fresh(next) && fresh(prev)
      ensures forall b :: 0 <= b < NBUF ==> bufs[b] == Buf(Key(0, 0), false, false, 0, zero)
    {
      bufs := new Buf[NBUF](_ => Buf(Key(0, 0), false, false, 0, zero));
      next := new nat[NBUF + 1](_ => 0);
      prev := new nat[NBUF + 1](_ => 0);
      order := [];
      new;
      next[HEAD] := HEAD;
      prev[HEAD] := HEAD;
      assert LinkAt(next[..], prev[..], order, 0);
      var b := 0;
      while b < NBUF
        invariant 0 <= b <= NBUF && |order| == b && Ring(next[..], prev[..], order)
        invariant forall c :: 0 <= c < NBUF ==> (c in order <==> c < b)
        invariant forall c :: 0 <= c < NBUF ==> bufs[c] == Buf(Key(0, 0), false, false, 0, zero)
      {
        PushFront(b);
        b := b + 1;
      }
    }

    /** The four assignments that put `b` behind the head. */
    method PushFront(b: nat)
      requires bufs.Length == NBUF && next != prev
      requires Ring(next[..], prev[..], order) && b < NBUF && b !in order
      modifies next, prev, this`order
      ensures Ring(next[..], prev[..], order) && order == [b] + old(order)
    {
      ghost var n: seq<nat>, p: seq<nat> := next[..], prev[..];
      Push(n, p, order, b);
      hide Ring;
      next[b] := next[HEAD];
      prev[b] := HEAD;
      prev[next[HEAD]] := b;
      next[HEAD] := b;
      assert next[..] == n[b := n[HEAD]][HEAD := b];
      assert prev[..] == p[b := HEAD][n[HEAD] := b];
      order := [b] + order;
    }

    /** The search for a cached block, from the most recently used. */
    method FindCached(key: Key) returns (p: nat)
      requires Valid()
      ensures p == Node(order, HitFrom(bufs[..], order, key, 0) + 1)
    {
      ghost var k := 0;
      RingLink(next[..], prev[..], order, 0);
      p := next[HEAD];
      while p != HEAD
        invariant 0 <= k <= |order| && p == Node(order, k + 1)
        invariant HitFrom(bufs[..], order, key, 0) == HitFrom(bufs[..], order, key, k)
        decreases |order| - k
      {
        if bufs[p].key == key {
          return;
        }
        RingLink(next[..], prev[..], order, k + 1);
        p := next[p];
        k := k + 1;
      }
    }

    /** The search for a buffer to recycle, from the least recently used. */
    method FindVictim() returns (p: nat)
      requires Valid()
      ensures p == Node(order, VictimBefore(bufs[..], order, |order|))
    {
      ghost var k := |order|;
      RingLink(next[..], prev[..], order, k);
      p := prev[HEAD];
      while p != HEAD
        invariant 0 <= k <= |order| && p == Node(order, k)
        invariant VictimBefore(bufs[..], order, |order|) == VictimBefore(bufs[..], order, k)
        decreases k
      {
        if bufs[p].refcnt == 0 && !bufs[p].dirty {
          return;
        }
        RingLink(next[..], prev[..], order, k - 1);
        p := prev[p];
        k := k - 1;
      }
    }

    method Get(key: Key) returns (ok: bool, b: nat)
      requires Valid()
      modifies bufs
      ensures Valid()
      ensures match Bget(old(bufs[..]), order, key)
              case Buffer(c, t) => ok && b == c && bufs[..] == t
              case NoBuffers => !ok && bufs[..] == old(bufs[..])
    {
      hide Ring;
      b := FindCached(key);
      if b != HEAD {
        bufs[b] := bufs[b].(refcnt := bufs[b].refcnt + 1);
        return true, b;
      }
      b := FindVictim();
      if b != HEAD {
        bufs[b] := Buf(key, false, false, 1, bufs[b].data);
        return true, b;
      }
      return false, b;
    }

    method Drop(b: nat)
      requires Valid() && b < NBUF && bufs[b].refcnt > 0
      modifies this, bufs, next, prev
      ensures Valid()
      ensures exists k :: 0 <= k < NBUF && old(order)[k] == b
                && order == DroppedOrder(old(bufs[..]), old(order), k)
      ensures bufs[..] == DroppedBufs(old(bufs[..]), b)
    {
      assert b in order;
      ghost var k :| 0 <= k < |order| && order[k] == b;
      hide Ring, Complete, ToFront;
      bufs[b] := bufs[b].(refcnt := bufs[b].refcnt - 1);
      if bufs[b].refcnt == 0 {
        ghost var n: seq<nat>, p: seq<nat> := next[..], prev[..];
        Unlink(n, p, order, k);
        WithoutDistinct(order, k);
        ToFrontComplete(order, k);
        prev[next[b]] := prev[b];
        next[prev[b]] := next[b];
        order := Without(order, k);
        assert next[..] == n[p[b] := n[b]] && prev[..] == p[n[b] := p[b]];
        PushFront(b);
      }
    }
  }
}

/** Sums of an integer measure over a sequence, and other helpers on sequences and sets. */
module Sums {

  function Sum<T>(s: seq<T>, f: T -> int): (r: int)
  {
    if s == [] then 0 else f(s[0]) + Sum(s[1..], f)
  }

  lemma {:induction false} SumUpdate<T>(s: seq<T>, f: T -> int, i: nat, x: T)
    requires i < |s|
    ensures Sum(s[i := x], f) == Sum(s, f) - f(s[i]) + f(x)
  {
    if i > 0 {
      assert s[i := x][1..] == s[1..][i - 1 := x];
      SumUpdate(s[1..], f, i - 1, x);
    } else {
      assert s[i := x][1..] == s[1..];
    }
  }

  lemma {:induction false} SumDrop<T>(s: seq<T>, f: T -> int, i: nat)
    requires i < |s|
    ensures Sum(s, f) == f(s[i]) + Sum(s[..i] + s[i + 1..], f)
  {
    var rest := s[..i] + s[i + 1..];
    if i > 0 {
      SumDrop(s[1..], f, i - 1);
      assert rest[1..] == s[1..][..i - 1] + s[1..][i..];
    } else {
      assert rest == s[1..];
    }
  }

  lemma {:induction false} SumPermutation<T>(s: seq<T>, t: seq<T>, f: T -> int)
    requires multiset(s) == multiset(t)
    ensures Sum(s, f) == Sum(t, f)
  {
    if s == [] {
      assert |multiset(t)| == 0;
    } else {
      assert s[0] in multiset(t);
      var i :| 0 <= i < |t| && t[i] == s[0];
      SumDrop(t, f, i);
      assert s == [s[0]] + s[1..];
      assert t == t[..i] + [t[i]] + t[i + 1..];
      calc {
        multiset(s[1..]);
        multiset(s) - multiset{s[0]};
        multiset(t) - multiset{t[i]};
        multiset(t[..i]) + multiset(t[i + 1..]);
        multiset(t[..i] + t[i + 1..]);
      }
      SumPermutation(s[1..], t[..i] + t[i + 1..], f);
    }
  }

  lemma {:induction false} SumMonotone<T>(s: seq<T>, f: T -> int, g: T -> int)
    requires forall x :: x in s ==> f(x) <= g(x)
    ensures Sum(s, f) <= Sum(s, g)
  {
    if s != [] { SumMonotone(s[1..], f, g); }
  }

  lemma {:induction false} SumPositive<T>(s: seq<T>, f: T -> int, x: T)
    requires forall y :: y in s ==> f(y) >= 0
    requires x in s
    ensures Sum(s, f) >= f(x)
  {
    if s[0] == x {
      SumNonNegative(s[1..], f);
    } else {
      SumPositive(s[1..], f, x);
    }
  }

  lemma {:induction false} SumNonNegative<T>(s: seq<T>, f: T -> int)
    requires forall y :: y in s ==> f(y) >= 0
    ensures Sum(s, f) >= 0
  {
    if s != [] { SumNonNegative(s[1..], f); }
  }

  lemma SubsetSize<T>(a: set<T>, b: set<T>)
    requires a <= b
    ensures |a| <= |b|
  {
    assert b == a + (b - a);
  }

  /** The `n` numbers from `lo` on. */
  function Interval(lo: nat, n: nat): (s: set<nat>)
    ensures |s| == n && forall x: nat :: x in s <==> lo <= x < lo + n
  {
    if n == 0 then {} else Interval(lo, n - 1) + {lo + n - 1}
  }

  function Without<T>(s: seq<T>, k: nat): (r: seq<T>)
    requires k < |s|
    ensures |r| == |s| - 1
  {
    s[..k] + s[k + 1..]
  }

  lemma Removed<T>(s: seq<T>, i: nat)
    requires i < |s|
    ensures multiset(Without(s, i)) == multiset(s) - multiset{s[i]}
  {
    assert s == s[..i] + [s[i]] + s[i + 1..];
  }

  ghost predicate Companions<A, B>(rs: seq<A>, xs: seq<B>, r: A, x: B)
    requires |xs| == |rs|
  {
    exists j :: 0 <= j < |rs| && rs[j] == r && xs[j] == x
  }

  /** `ys` goes with `o` as `xs` goes with `rs`. */
  ghost predicate GoesWith<A, B>(rs: seq<A>, xs: seq<B>, o: seq<A>, ys: seq<B>)
  {
    && |xs| == |rs| && |ys| == |o|
    && forall i :: 0 <= i < |o| ==> Companions(rs, xs, o[i], ys[i])
  }

  /** What belongs to the elements of a sequence, when these are put in another order. */
  lemma {:induction false} Reorder<A, B>(rs: seq<A>, xs: seq<B>, o: seq<A>) returns (ys: seq<B>)
    requires |xs| == |rs| && multiset(o) == multiset(rs)
    ensures multiset(ys) == multiset(xs) && GoesWith(rs, xs, o, ys)
    decreases |rs|
  {
    hide Without, GoesWith;
    if o == [] {
      assert |multiset(rs)| == 0;
      ys := [];
      NothingGoes(rs, xs);
    } else {
      assert o[0] in multiset(rs);
      var k :| 0 <= k < |rs| && rs[k] == o[0];
      Removed(rs, k);
      Removed(xs, k);
      Removed(o, 0);
      FirstRemoved(o);
      var rest := Reorder(Without(rs, k), Without(xs, k), o[1..]);
      ys := [xs[k]] + rest;
      Prepended(rs, xs, o, k, rest);
    }
  }

  lemma NothingGoes<A, B>(rs: seq<A>, xs: seq<B>)
    requires |xs| == |rs|
    ensures GoesWith(rs, xs, [], [])
  {
  }

  lemma FirstRemoved<T>(o: seq<T>)
    requires o != []
    ensures Without(o, 0) == o[1..]
  {
  }

  lemma Prepended<A, B>(rs: seq<A>, xs: seq<B>, o: seq<A>, k: nat, rest: seq<B>)
    requires |xs| == |rs| && k < |rs| && o != [] && rs[k] == o[0]
    requires GoesWith(Without(rs, k), Without(xs, k), o[1..], rest)
    ensures GoesWith(rs, xs, o, [xs[k]] + rest)
  {
    forall i | 0 <= i < |o|
      ensures Companions(rs, xs, o[i], ([xs[k]] + rest)[i])
    {
      if i > 0 {
        assert Companions(Without(rs, k), Without(xs, k), o[1..][i - 1], rest[i - 1]);
        var j :| 0 <= j < |rs| - 1 && Without(rs, k)[j] == o[1..][i - 1] && Without(xs, k)[j] == rest[i - 1];
        var l := if j < k then j else j + 1;
        assert rs[l] == o[i] && xs[l] == rest[i - 1];
      }
    }
  }
}

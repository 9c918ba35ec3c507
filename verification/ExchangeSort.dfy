/** The exchange sort that both real-time simulators run in place over their process table,
    with the comparison key (next deadline, or period) as a parameter. */
module ExchangeSort {

  function Swap<T>(s: seq<T>, i: nat, j: nat): (r: seq<T>)
    requires i < |s| && j < |s|
    ensures |r| == |s|
  {
    s[i := s[j]][j := s[i]]
  }

  lemma SwapIsPermutation<T>(s: seq<T>, i: nat, j: nat)
    requires i < |s| && j < |s|
    ensures multiset(Swap(s, i, j)) == multiset(s)
  {
  }

  /** The inner loop from column `j` on: slot `i` ends with the least key of `s[i..]`. */
  function Pass<T>(s: seq<T>, key: T -> int, i: nat, j: nat): (r: seq<T>)
    requires i < j <= |s|
    ensures |r| == |s|
    decreases |s| - j
  {
    if j == |s| then s
    else if key(s[i]) > key(s[j]) then Pass(Swap(s, i, j), key, i, j + 1)
    else Pass(s, key, i, j + 1)
  }

  /** The outer loop from row `i` on. */
  function SortFrom<T>(s: seq<T>, key: T -> int, i: nat): (r: seq<T>)
    ensures |r| == |s|
    decreases |s| - i
  {
    if i + 1 >= |s| then s else SortFrom(Pass(s, key, i, i + 1), key, i + 1)
  }

  function Sort<T>(s: seq<T>, key: T -> int): (r: seq<T>)
    ensures |r| == |s|
  {
    SortFrom(s, key, 0)
  }

  ghost predicate Sorted<T>(s: seq<T>, key: T -> int)
  {
    forall i, j :: 0 <= i < j < |s| ==> key(s[i]) <= key(s[j])
  }

  /** Rows before `i` are final: ordered, and no larger than anything after them. */
  ghost predicate SortedUpTo<T>(s: seq<T>, key: T -> int, i: nat)
  {
    forall k, l :: 0 <= k < l < |s| && k < i ==> key(s[k]) <= key(s[l])
  }

  /** Slot `i` holds the least key seen so far among rows `i..j`. */
  ghost predicate LeastUpTo<T>(s: seq<T>, key: T -> int, i: nat, j: nat)
    requires i < |s|
  {
    forall l :: i < l < j && l < |s| ==> key(s[i]) <= key(s[l])
  }

  lemma SwapKeepsRows<T>(s: seq<T>, key: T -> int, i: nat, j: nat)
    requires i < j < |s| && SortedUpTo(s, key, i) && LeastUpTo(s, key, i, j)
    requires key(s[i]) > key(s[j])
    ensures SortedUpTo(Swap(s, i, j), key, i)
    ensures LeastUpTo(Swap(s, i, j), key, i, j + 1)
  {
    var r := Swap(s, i, j);
    assert forall l :: 0 <= l < |s| ==> r[l] == s[if l == i then j else if l == j then i else l];
  }

  lemma {:induction false} PassPlacesMinimum<T>(s: seq<T>, key: T -> int, i: nat, j: nat)
    requires i < j <= |s|
    requires SortedUpTo(s, key, i) && LeastUpTo(s, key, i, j)
    ensures multiset(Pass(s, key, i, j)) == multiset(s)
    ensures SortedUpTo(Pass(s, key, i, j), key, i)
    ensures LeastUpTo(Pass(s, key, i, j), key, i, |s|)
    decreases |s| - j
  {
    if j < |s| {
      if key(s[i]) > key(s[j]) {
        SwapKeepsRows(s, key, i, j);
        SwapIsPermutation(s, i, j);
        PassPlacesMinimum(Swap(s, i, j), key, i, j + 1);
      } else {
        PassPlacesMinimum(s, key, i, j + 1);
      }
    }
  }

  lemma {:induction false} SortFromIsSorted<T>(s: seq<T>, key: T -> int, i: nat)
    requires SortedUpTo(s, key, i)
    ensures multiset(SortFrom(s, key, i)) == multiset(s)
    ensures Sorted(SortFrom(s, key, i), key)
    decreases |s| - i
  {
    if i + 1 < |s| {
      PassPlacesMinimum(s, key, i, i + 1);
      SortFromIsSorted(Pass(s, key, i, i + 1), key, i + 1);
    }
  }

  /** The sort orders the table by key and only rearranges it. */
  lemma SortIsSortedPermutation<T>(s: seq<T>, key: T -> int)
    ensures Sorted(Sort(s, key), key)
    ensures multiset(Sort(s, key)) == multiset(s)
  {
    SortFromIsSorted(s, key, 0);
  }

  /** The inner loop in place. */
  method PassInPlace<T>(a: array<T>, key: T -> int, i: nat)
    requires i < a.Length
    modifies a
    ensures a[..] == Pass(old(a[..]), key, i, i + 1)
  {
    var j := i + 1;
    while j < a.Length
      invariant i < j <= a.Length
      invariant Pass(a[..], key, i, j) == Pass(old(a[..]), key, i, i + 1)
    {
      if key(a[i]) > key(a[j]) {
        ghost var before := a[..];
        a[i], a[j] := a[j], a[i];
        assert a[..] == Swap(before, i, j);
      }
      j := j + 1;
    }
  }

  /** The in-place double loop computes `Sort`. */
  method SortInPlace<T>(a: array<T>, key: T -> int)
    modifies a
    ensures a[..] == Sort(old(a[..]), key)
  {
    var i := 0;
    while i < a.Length - 1
      invariant 0 <= i
      invariant SortFrom(a[..], key, i) == Sort(old(a[..]), key)
    {
      PassInPlace(a, key, i);
      i := i + 1;
    }
  }
}

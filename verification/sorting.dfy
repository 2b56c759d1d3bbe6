/**
 In-place sorting of an array of strings into non-increasing order of a
 key, standing for Go's `sort.Slice` with a `key(a[i]) > key(a[j])`
 comparator. Only the outcome is specified: a permutation, ordered by the
 key. `sort.Slice` is not stable, so nothing is said about equal keys.
 */
module Sorting {

  /** `s` is in non-increasing order of `key`. */
  predicate SortedBy(s: seq<string>, key: string -> int) {
    forall i, j | 0 <= i < j < |s| :: key(s[i]) >= key(s[j])
  }

  method Swap(a: array<string>, i: int, j: int)
    requires 0 <= i < a.Length && 0 <= j < a.Length
    modifies a
    ensures a[i] == old(a[j]) && a[j] == old(a[i])
    ensures forall m | 0 <= m < a.Length && m != i && m != j :: a[m] == old(a[m])
    ensures multiset(a[..]) == old(multiset(a[..]))
  {
    a[i], a[j] := a[j], a[i];
  }

  /** Insertion sort by descending key. */
  method SortDescending(a: array<string>, key: string -> int)
    modifies a
    ensures SortedBy(a[..], key)
    ensures multiset(a[..]) == old(multiset(a[..]))
  {
    var i := 0;
    while i < a.Length
      invariant 0 <= i <= a.Length
      invariant forall p, q | 0 <= p < q < i :: key(a[p]) >= key(a[q])
      invariant multiset(a[..]) == old(multiset(a[..]))
    {
      var j := i;
      while j > 0 && key(a[j - 1]) < key(a[j])
        invariant 0 <= j <= i
        invariant forall p, q | 0 <= p < q <= i && p != j && q != j :: key(a[p]) >= key(a[q])
        invariant forall q | j < q <= i :: key(a[j]) > key(a[q])
        invariant multiset(a[..]) == old(multiset(a[..]))
      {
        Swap(a, j - 1, j);
        j := j - 1;
      }
      i := i + 1;
    }
  }
}

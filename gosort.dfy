/** Go's `sort.Sort` (and `sort.Strings`) as the code relies on it: after the
    call the slice is a permutation of what it was, ordered so that no element
    is Less than one before it. The library's own algorithm (pattern-defeating
    quicksort) is not modelled; an insertion sort that uses only Less and Swap
    stands in for it, which is all the contract below depends on.

    Less is given as a strict weak order `less` on a sort key `key(x)`; every
    Less in the code compares such a key (a string, or a metric's type and
    name). */
module GoSort {

  /** What sort.Sort needs of Less. */
  ghost predicate StrictWeakOrder<K(!new)>(less: (K, K) -> bool) {
    && (forall x, y :: less(x, y) ==> !less(y, x))
    && (forall x, y, z :: !less(y, x) && !less(z, y) ==> !less(z, x))
  }

  /** No element is Less than an element before it. */
  ghost predicate Sorted<T, K>(s: seq<T>, key: T -> K, less: (K, K) -> bool) {
    forall i, j :: 0 <= i < j < |s| ==> !less(key(s[j]), key(s[i]))
  }

  /** `m[i], m[j] = m[j], m[i]`: the two elements trade places and every
      other position keeps its element. */
  method Swap<T>(a: array<T>, i: int, j: int)
    requires 0 <= i < a.Length && 0 <= j < a.Length
    modifies a
    ensures a[..] == old(a[..])[i := old(a[j])][j := old(a[i])]
    ensures multiset(a[..]) == old(multiset(a[..]))
  {
    a[i], a[j] := a[j], a[i];
  }

  /** `sort.Sort`: sorts in place, keeping the same elements. */
  method Sort<T, K(!new)>(a: array<T>, key: T -> K, less: (K, K) -> bool)
    requires StrictWeakOrder(less)
    modifies a
    ensures Sorted(a[..], key, less)
    ensures multiset(a[..]) == old(multiset(a[..]))
  {
    var i := 0;
    while i < a.Length
      invariant 0 <= i <= a.Length
      invariant forall p, q :: 0 <= p < q < i ==> !less(key(a[q]), key(a[p]))
      invariant multiset(a[..]) == old(multiset(a[..]))
    {
      var j := i;
      while j > 0 && less(key(a[j]), key(a[j - 1]))
        invariant 0 <= j <= i
        invariant forall p, q :: 0 <= p < q <= i && p != j && q != j ==> !less(key(a[q]), key(a[p]))
        invariant forall q :: j < q <= i ==> less(key(a[j]), key(a[q]))
        invariant multiset(a[..]) == old(multiset(a[..]))
      {
        Swap(a, j - 1, j);
        j := j - 1;
      }
      forall p, q | 0 <= p < q <= i ensures !less(key(a[q]), key(a[p])) {
        if q == j && p < j - 1 {
          var x, y, z := key(a[p]), key(a[j - 1]), key(a[j]);
          assert !less(y, x) && !less(z, y);
        } else if p == j {
          assert less(key(a[j]), key(a[q]));
        }
      }
      i := i + 1;
    }
  }
}

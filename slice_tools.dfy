/**
 * slice_tools/slice_tools.go: a first-match search over a slice, and removal
 * of one element by shifting the rest left inside the slice's backing array.
 */
module SliceTools {
  /** FindIndex: the first index whose element satisfies fn, or -1. */
  method FindIndex<E>(slice: seq<E>, fn: E -> bool) returns (r: int)
    ensures r == -1 <==> forall k :: 0 <= k < |slice| ==> !fn(slice[k])
    ensures r != -1 ==> 0 <= r < |slice| && fn(slice[r])
    ensures r != -1 ==> forall k :: 0 <= k < r ==> !fn(slice[k])
  {
    var i := 0;
    while i < |slice|
      invariant 0 <= i <= |slice|
      invariant forall k :: 0 <= k < i ==> !fn(slice[k])
    {
      if fn(slice[i]) {
        return i;
      }
      i := i + 1;
    }
    return -1;
  }

  /** The elements of s without the one at index. */
  function Removed<E>(s: seq<E>, index: nat): seq<E>
    requires index < |s|
  {
    s[..index] + s[index + 1..]
  }

  /** Removal shortens by one, keeps what comes before index and moves what comes after it down by one. */
  lemma RemovedShape<E>(s: seq<E>, index: nat)
    requires index < |s|
    ensures |Removed(s, index)| == |s| - 1
    ensures forall k :: 0 <= k < index ==> Removed(s, index)[k] == s[k]
    ensures forall k :: index <= k < |s| - 1 ==> Removed(s, index)[k] == s[k + 1]
    ensures multiset(Removed(s, index)) + multiset{s[index]} == multiset(s)
  {
    assert s == s[..index] + [s[index]] + s[index + 1..];
  }

  /**
   * RemoveAtIndex: `append(slice[:index], slice[index+1:]...)` copies the tail
   * one place to the left inside the backing array and returns its first
   * len-1 elements; the last element of the array is left as it was.
   */
  method RemoveAtIndex<E>(a: array<E>, index: int) returns (n: int)
    requires 0 <= index < a.Length
    modifies a
    ensures n == a.Length - 1
    ensures a[..n] == Removed(old(a[..]), index)
    ensures a[n] == old(a[n])
  {
    ghost var s := a[..];
    var k := index;
    while k < a.Length - 1
      invariant index <= k <= a.Length - 1
      invariant forall m :: 0 <= m < index ==> a[m] == s[m]
      invariant forall m :: index <= m < k ==> a[m] == s[m + 1]
      invariant forall m :: k <= m < a.Length ==> a[m] == s[m]
    {
      a[k] := a[k + 1];
      k := k + 1;
    }
    n := a.Length - 1;
    RemovedShape(s, index);
    assert a[..n] == Removed(s, index);
  }
}

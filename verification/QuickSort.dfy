/**
 In-place Hoare quicksort. `less(x, y)` is the strict test of the copy being modelled:
 `x < y` or `cmp(x, y) < 0` when ascending, `x > y` or `cmp(x, y) > 0` when descending.
 */
module QuickSort {
  import opened Ordering

  /** The upward scan: it has no bounds test, so some cell `stop` at or after `from` must end it. */
  method ScanUp<T(!new)>(a: array<T>, from: int, p: T, ghost stop: int, less: (T, T) -> bool) returns (i: int)
    requires Asymmetric(less)
    requires 0 <= from <= stop < a.Length && !less(a[stop], p)
    ensures from <= i <= stop && !less(a[i], p)
    ensures forall k :: from <= k < i ==> !less(p, a[k])
  {
    i := from;
    while less(a[i], p)
      invariant from <= i <= stop
      invariant forall k :: from <= k < i ==> !less(p, a[k])
      decreases stop - i
    {
      i := i + 1;
    }
  }

  /** The downward scan, ended by some cell `stop` at or before `from`. */
  method ScanDown<T(!new)>(a: array<T>, from: int, p: T, ghost stop: int, less: (T, T) -> bool) returns (j: int)
    requires Asymmetric(less)
    requires 0 <= stop <= from < a.Length && !less(p, a[stop])
    ensures stop <= j <= from && !less(p, a[j])
    ensures forall k :: j < k <= from ==> !less(a[k], p)
  {
    j := from;
    while less(p, a[j])
      invariant stop <= j <= from
      invariant forall k :: j < k <= from ==> !less(a[k], p)
      decreases j
    {
      j := j - 1;
    }
  }

  /**
   One partition round. The scans carry no bounds test of their own: an element that
   stops each scan is always left inside [low, high].
   */
  method Partition<T(!new)>(a: array<T>, low: int, high: int, less: (T, T) -> bool)
    returns (i: int, j: int, ghost pivot: T)
    requires Asymmetric(less)
    requires 0 <= low <= high < a.Length
    modifies a
    ensures low < i <= high + 1 && low - 1 <= j < high && j < i
    ensures forall k :: low <= k <= j ==> !less(pivot, a[k])
    ensures forall k :: i <= k <= high ==> !less(a[k], pivot)
    ensures forall k :: j < k < i ==> !less(a[k], pivot) && !less(pivot, a[k])
    ensures PermutedWithin(old(a[..]), a[..], low, high + 1)
  {
    hide PermutedWithin, Asymmetric;
    PermutedReflexive(a[..], low, high + 1);
    i, j := low, high;
    var p := a[low + (high - low) / 2];
    pivot := p;
    Irreflexive(less, p);
    ghost var stopI, stopJ := low + (high - low) / 2, low + (high - low) / 2;
    while i <= j
      invariant low <= i <= high + 1 && low - 1 <= j <= high
      invariant (i == low && j == high) || (low < i && j < high)
      invariant i <= j ==> i <= stopI <= high && !less(a[stopI], p)
      invariant i <= j ==> low <= stopJ <= j && !less(p, a[stopJ])
      invariant forall k :: low <= k < i ==> !less(p, a[k])
      invariant forall k :: j < k <= high ==> !less(a[k], p)
      invariant PermutedWithin(old(a[..]), a[..], low, high + 1)
      decreases j - i
    {
      i := ScanUp(a, i, p, stopI, less);
      j := ScanDown(a, j, p, stopJ, less);
      if i <= j {
        Swap(a, i, j, old(a[..]), low, high + 1);
        stopI, stopJ := j, i;
        i, j := i + 1, j - 1;
      }
    }
  }

  /** The two sorted sides, and the run equal to the pivot between them, form a sorted whole. */
  lemma SidesMeet<T(!new)>(s: seq<T>, low: int, left: int, right: int, high: int, pivot: T, less: (T, T) -> bool)
    requires StrictWeakOrder(less)
    requires 0 <= low <= left <= right <= high <= |s|
    requires SortedWithin(s, low, left, less) && SortedWithin(s, right, high, less)
    requires forall k :: low <= k < left ==> !less(pivot, s[k])
    requires forall k :: right <= k < high ==> !less(s[k], pivot)
    requires forall k :: left <= k < right ==> !less(s[k], pivot) && !less(pivot, s[k])
    ensures SortedWithin(s, low, high, less)
  {
    forall x, y | low <= x < y < high ensures !less(s[y], s[x]) {
      if left <= y && x < right {
        assert !less(s[y], pivot) && !less(pivot, s[x]);
      }
    }
  }

  /** What sorting one side [lo, hi) of [low, high) leaves as it was. */
  lemma SideDone<T>(orig: seq<T>, s: seq<T>, t: seq<T>, low: int, lo: int, hi: int, high: int, bound: T -> bool)
    requires 0 <= low <= lo <= hi <= high <= |s|
    requires PermutedWithin(orig, s, low, high) && PermutedWithin(s, t, lo, hi)
    requires forall k :: lo <= k < hi ==> bound(s[k])
    ensures PermutedWithin(orig, t, low, high)
    ensures |t| == |s| && forall k :: lo <= k < hi ==> bound(t[k])
    ensures forall k :: 0 <= k < lo || hi <= k < |s| ==> t[k] == s[k]
  {
    hide PermutedWithin;
    PermutedOutside(s, t, lo, hi);
    PermutedKeepsBound(s, t, lo, hi, bound);
    WidenPermuted(s, t, lo, hi, low, high);
    PermutedTransitive(orig, s, t, low, high);
  }

  method Sort<T(!new)>(a: array<T>, low: int, high: int, less: (T, T) -> bool)
    requires StrictWeakOrder(less)
    requires 0 <= low <= high < a.Length
    modifies a
    ensures SortedWithin(a[..], low, high + 1, less)
    ensures PermutedWithin(old(a[..]), a[..], low, high + 1)
    decreases high - low
  {
    hide PermutedWithin;
    var i, j, pivot := Partition(a, low, high, less);
    ghost var split := a[..];
    if low < j {
      Sort(a, low, j, less);
      SideDone(old(a[..]), split, a[..], low, low, j + 1, high + 1, x => !less(pivot, x));
    }
    ghost var half := a[..];
    if i < high {
      Sort(a, i, high, less);
      SideDone(old(a[..]), half, a[..], low, i, high + 1, high + 1, x => !less(x, pivot));
    }
    SidesMeet(a[..], low, j + 1, i, high + 1, pivot, less);
  }
}

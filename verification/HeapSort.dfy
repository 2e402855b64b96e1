/**
 In-place heap sort. The percolate keeps the sinking value in a local and moves a hole
 down, so between iterations the array holds a stale duplicate in the hole.
 */
module HeapSort {
  import opened Ordering

  /** Every parent at or after `low` is not before its children inside [.., high). */
  ghost predicate Heap<T>(s: seq<T>, low: int, high: int, less: (T, T) -> bool)
    requires 0 <= low && high <= |s|
  {
    forall k, c :: low <= k && c < high && (c == 2 * k + 1 || c == 2 * k + 2) ==> !less(s[k], s[c])
  }

  /** The array that results if the held value p is put into the hole. */
  ghost function Filled<T>(s: seq<T>, hole: int, p: T): (r: seq<T>)
    requires 0 <= hole < |s|
  {
    s[hole := p]
  }

  ghost predicate LargerChild<T>(s: seq<T>, k: int, q: int, high: int, less: (T, T) -> bool)
    requires 0 <= k && high <= |s|
  {
    && (q == 2 * k + 1 || q == 2 * k + 2) && q < high
    && forall c :: (c == 2 * k + 1 || c == 2 * k + 2) && c < high ==> !less(s[q], s[c])
  }

  lemma ChildPicked<T(!new)>(s: seq<T>, k: int, q: int, high: int, less: (T, T) -> bool)
    requires StrictWeakOrder(less)
    requires 0 <= k && q < high <= |s|
    requires (q == 2 * k + 1 && (q == high - 1 || !less(s[q], s[q + 1]))) || (q == 2 * k + 2 && less(s[q - 1], s[q]))
    ensures LargerChild(s, k, q, high, less)
  {
  }

  /** Moving the larger child up into the hole repairs the heap there; the value held stays below its new parent. */
  lemma HoleMoves<T(!new)>(s: seq<T>, low: int, hole: int, q: int, high: int, p: T, less: (T, T) -> bool)
    requires StrictWeakOrder(less)
    requires 0 <= low <= hole < high <= |s|
    requires Heap(s, if hole == low then low + 1 else low, high, less)
    requires LargerChild(s, hole, q, high, less) && less(p, s[q])
    ensures Heap(s[hole := s[q]], low, high, less)
    ensures (q - 1) / 2 == hole && !less(s[q], p)
    ensures PermutedWithin(Filled(s, hole, p), Filled(s[hole := s[q]], q, p), low, high)
  {
    hide PermutedWithin;
    var t := s[hole := s[q]];
    SwapPermutes(Filled(s, hole, p), hole, q, low, high);
    assert Filled(t, q, p) == Filled(s, hole, p)[hole := s[q]][q := p];
    forall k, c | low <= k && c < high && (c == 2 * k + 1 || c == 2 * k + 2)
      ensures !less(t[k], t[c])
    {
      if c == hole {
        assert !less(s[k], s[hole]) && !less(s[hole], s[q]);
      }
    }
  }

  /** Putting the held value into the hole completes the heap once no child must move up. */
  lemma HoleFilled<T(!new)>(s: seq<T>, low: int, hole: int, high: int, p: T, less: (T, T) -> bool)
    requires StrictWeakOrder(less)
    requires 0 <= low <= hole < high <= |s|
    requires Heap(s, if hole == low then low + 1 else low, high, less)
    requires hole > low ==> !less(s[(hole - 1) / 2], p)
    requires 2 * hole + 1 < high ==> exists q :: LargerChild(s, hole, q, high, less) && !less(p, s[q])
    ensures Heap(Filled(s, hole, p), low, high, less)
  {
    var t := Filled(s, hole, p);
    forall k, c | low <= k && c < high && (c == 2 * k + 1 || c == 2 * k + 2)
      ensures !less(t[k], t[c])
    {
      if k == hole {
        var q :| LargerChild(s, hole, q, high, less) && !less(p, s[q]);
        assert !less(s[q], s[c]);
      }
    }
  }

  method Percolate<T(!new)>(a: array<T>, low: int, high: int, less: (T, T) -> bool)
    requires StrictWeakOrder(less)
    requires 0 <= low < high <= a.Length
    requires Heap(a[..], low + 1, high, less)
    modifies a
    ensures Heap(a[..], low, high, less)
    ensures PermutedWithin(old(a[..]), a[..], low, high)
  {
    hide PermutedWithin, Heap, LargerChild, StrictWeakOrder;
    var p := a[low];
    var hole := low;
    PermutedReflexive(a[..], low, high);
    assert Filled(a[..], hole, p) == a[..];
    while 2 * hole + 1 < high
      invariant low <= hole < high
      invariant PermutedWithin(old(a[..]), Filled(a[..], hole, p), low, high)
      invariant Heap(a[..], if hole == low then low + 1 else low, high, less)
      invariant hole > low ==> !less(a[(hole - 1) / 2], p)
      decreases high - hole
    {
      ghost var s := a[..];
      var q := 2 * hole + 1;
      if q != high - 1 && less(a[q], a[q + 1]) {
        q := q + 1;
      }
      ChildPicked(s, hole, q, high, less);
      if less(p, a[q]) {
        a[hole] := a[q];
        assert a[..] == s[hole := s[q]];
        HoleMoves(s, low, hole, q, high, p, less);
        PermutedTransitive(old(a[..]), Filled(s, hole, p), Filled(a[..], q, p), low, high);
        hole := q;
      } else {
        break;
      }
    }
    HoleFilled(a[..], low, hole, high, p, less);
    ghost var s := a[..];
    a[hole] := p;
    assert a[..] == Filled(s, hole, p);
  }

  lemma {:induction false} HeapTop<T(!new)>(s: seq<T>, high: int, k: int, less: (T, T) -> bool)
    requires StrictWeakOrder(less)
    requires 0 <= k < high <= |s| && Heap(s, 0, high, less)
    ensures !less(s[0], s[k])
    decreases k
  {
    if k > 0 {
      HeapTop(s, high, (k - 1) / 2, less);
      assert !less(s[(k - 1) / 2], s[k]);
    }
  }

  /** Exchanging the top with cell i extends the settled part and leaves a heap short of its root. */
  lemma TopExtracted<T(!new)>(s: seq<T>, i: int, less: (T, T) -> bool)
    requires StrictWeakOrder(less)
    requires 0 < i < |s| && Heap(s, 0, i + 1, less) && Settled(s, i + 1, less)
    ensures var t := s[0 := s[i]][i := s[0]]; Heap(t, 1, i, less) && Settled(t, i, less)
  {
    forall k | 0 <= k <= i ensures !less(s[0], s[k]) {
      HeapTop(s, i + 1, k, less);
    }
  }

  method Sort<T(!new)>(a: array<T>, less: (T, T) -> bool)
    requires StrictWeakOrder(less)
    requires a.Length >= 1
    modifies a
    ensures SortedWithin(a[..], 0, a.Length, less)
    ensures PermutedWithin(old(a[..]), a[..], 0, a.Length)
  {
    hide PermutedWithin, StrictWeakOrder;
    var n := a.Length;
    PermutedReflexive(a[..], 0, n);
    var i := n / 2;
    while i >= 0
      invariant -1 <= i <= n / 2
      invariant Heap(a[..], i + 1, n, less)
      invariant PermutedWithin(old(a[..]), a[..], 0, n)
    {
      ghost var s := a[..];
      Percolate(a, i, n, less);
      WidenPermuted(s, a[..], i, n, 0, n);
      PermutedTransitive(old(a[..]), s, a[..], 0, n);
      i := i - 1;
    }
    i := n - 1;
    while i > 0
      invariant 0 <= i < n
      invariant Heap(a[..], 0, i + 1, less)
      invariant Settled(a[..], i + 1, less)
      invariant PermutedWithin(old(a[..]), a[..], 0, n)
    {
      TopExtracted(a[..], i, less);
      ghost var s := a[..];
      Swap(a, 0, i, old(a[..]), 0, n);
      assert a[..] == s[0 := s[i]][i := s[0]];
      ghost var t := a[..];
      Percolate(a, 0, i, less);
      SettledKept(t, a[..], i, less);
      WidenPermuted(t, a[..], 0, i, 0, n);
      PermutedTransitive(old(a[..]), t, a[..], 0, n);
      i := i - 1;
    }
  }
}

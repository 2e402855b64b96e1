/** The three quadratic routines; `less` is the strict test of the copy being modelled. */
module SimpleSorts {
  import opened Ordering

  /** Inside a bubble pass over [0, n): the last cell seen is a maximum of [0, i); x is the last index exchanged. */
  ghost predicate Bubbled<T>(s: seq<T>, i: int, n: int, x: int, less: (T, T) -> bool)
    requires 0 <= n <= |s|
  {
    && 1 <= i && 0 <= x < i && Settled(s, n, less)
    && (i <= n ==> x < n && forall k :: 0 <= k < i ==> !less(s[i - 1], s[k]))
    && (i <= n && x == 0 ==> SortedWithin(s, 0, i, less))
  }

  lemma BubbleStep<T(!new)>(s: seq<T>, i: int, n: int, x: int, less: (T, T) -> bool)
    requires StrictWeakOrder(less)
    requires 0 <= n <= |s| && i < n && Bubbled(s, i, n, x, less)
    ensures less(s[i], s[i - 1]) ==> Bubbled(s[i - 1 := s[i]][i := s[i - 1]], i + 1, n, i, less)
    ensures !less(s[i], s[i - 1]) ==> Bubbled(s, i + 1, n, x, less)
  {
  }

  lemma BubbleDone<T(!new)>(s: seq<T>, n: int, x: int, less: (T, T) -> bool)
    requires 0 <= n <= |s| && Bubbled(s, if n < 1 then 1 else n, n, x, less)
    ensures x == 0 ==> SortedWithin(s, 0, |s|, less)
    ensures x > 0 ==> n >= 1 && Settled(s, n - 1, less)
  {
  }

  method BubbleSort<T(!new)>(a: array<T>, less: (T, T) -> bool)
    requires StrictWeakOrder(less)
    modifies a
    ensures SortedWithin(a[..], 0, a.Length, less)
    ensures PermutedWithin(old(a[..]), a[..], 0, a.Length)
    ensures Stable(old(a[..]), a[..], less)
  {
    hide PermutedWithin, Stable, Bubbled, StrictWeakOrder;
    PermutedReflexive(a[..], 0, a.Length);
    StableReflexive(a[..], less);
    var n, x := a.Length, 1;
    while x != 0
      invariant 0 <= x
      invariant x == 0 ==> SortedWithin(a[..], 0, a.Length, less)
      invariant x != 0 ==> 0 <= n <= a.Length && Settled(a[..], n, less)
      invariant PermutedWithin(old(a[..]), a[..], 0, a.Length)
      invariant Stable(old(a[..]), a[..], less)
      decreases x != 0, n
    {
      x := 0;
      var i := 1;
      BubbleStart(a[..], n, less);
      while i < n
        invariant 1 <= i <= if n < 1 then 1 else n
        invariant Bubbled(a[..], i, n, x, less)
        invariant PermutedWithin(old(a[..]), a[..], 0, a.Length)
        invariant Stable(old(a[..]), a[..], less)
      {
        ghost var s := a[..];
        BubbleStep(s, i, n, x, less);
        if less(a[i], a[i - 1]) {
          ExchangeStable(old(a[..]), s, i, less);
          Swap(a, i - 1, i, old(a[..]), 0, a.Length);
          assert a[..] == s[i - 1 := s[i]][i := s[i - 1]];
          x := i;
        }
        i := i + 1;
      }
      BubbleDone(a[..], n, x, less);
      n := n - 1;
    }
  }

  lemma BubbleStart<T(!new)>(s: seq<T>, n: int, less: (T, T) -> bool)
    requires StrictWeakOrder(less)
    requires 0 <= n <= |s| && Settled(s, n, less)
    ensures Bubbled(s, 1, n, 0, less)
  {
  }

  /** While the element of round i sinks: [0, i] is sorted apart from the cell j that still sinks. */
  ghost predicate Sinking<T>(s: seq<T>, i: int, j: int, less: (T, T) -> bool) {
    && 0 <= j <= i < |s|
    && (forall p, q :: 0 <= p < q <= i && q != j && p != j ==> !less(s[q], s[p]))
    && (forall q :: j < q <= i ==> !less(s[q], s[j]))
  }

  lemma SinkStep<T(!new)>(s: seq<T>, i: int, j: int, less: (T, T) -> bool)
    requires StrictWeakOrder(less)
    requires Sinking(s, i, j, less) && j > 0 && less(s[j], s[j - 1])
    ensures Sinking(s[j := s[j - 1]][j - 1 := s[j]], i, j - 1, less)
  {
  }

  lemma SinkEnd<T(!new)>(s: seq<T>, i: int, j: int, less: (T, T) -> bool)
    requires StrictWeakOrder(less)
    requires Sinking(s, i, j, less) && (j == 0 || !less(s[j], s[j - 1]))
    ensures SortedWithin(s, 0, i + 1, less)
  {
    forall p | 0 <= p < j ensures !less(s[j], s[p]) {
      assert p < j - 1 ==> !less(s[j - 1], s[p]);
    }
  }

  method InsertionSort<T(!new)>(a: array<T>, less: (T, T) -> bool)
    requires StrictWeakOrder(less)
    modifies a
    ensures SortedWithin(a[..], 0, a.Length, less)
    ensures PermutedWithin(old(a[..]), a[..], 0, a.Length)
    ensures Stable(old(a[..]), a[..], less)
  {
    hide PermutedWithin, Stable, Sinking, StrictWeakOrder;
    PermutedReflexive(a[..], 0, a.Length);
    StableReflexive(a[..], less);
    var i := 1;
    while i < a.Length
      invariant 1 <= i && (i <= a.Length || a.Length == 0)
      invariant SortedWithin(a[..], 0, if i < a.Length then i else a.Length, less)
      invariant PermutedWithin(old(a[..]), a[..], 0, a.Length)
      invariant Stable(old(a[..]), a[..], less)
    {
      var j := i;
      SinkStart(a[..], i, less);
      while j > 0 && less(a[j], a[j - 1])
        invariant 0 <= j <= i && Sinking(a[..], i, j, less)
        invariant PermutedWithin(old(a[..]), a[..], 0, a.Length)
        invariant Stable(old(a[..]), a[..], less)
      {
        ghost var s := a[..];
        SinkStep(s, i, j, less);
        ExchangeStable(old(a[..]), s, j, less);
        Swap(a, j - 1, j, old(a[..]), 0, a.Length);
        assert a[..] == s[j := s[j - 1]][j - 1 := s[j]] == s[j - 1 := s[j]][j := s[j - 1]];
        j := j - 1;
      }
      SinkEnd(a[..], i, j, less);
      i := i + 1;
    }
  }

  lemma SinkStart<T(!new)>(s: seq<T>, i: int, less: (T, T) -> bool)
    requires 0 <= i < |s| && SortedWithin(s, 0, i, less)
    ensures Sinking(s, i, i, less)
  {
  }

  /** The cells before j are sorted and none of them comes after any later cell. */
  ghost predicate Selected<T>(s: seq<T>, j: int, less: (T, T) -> bool)
    requires 0 <= j <= |s|
  {
    && SortedWithin(s, 0, j, less)
    && forall k, m :: 0 <= k < j <= m < |s| ==> !less(s[m], s[k])
  }

  lemma SelectStep<T(!new)>(s: seq<T>, j: int, min: int, less: (T, T) -> bool)
    requires StrictWeakOrder(less)
    requires 0 <= j <= min < |s| && Selected(s, j, less)
    requires forall k :: j <= k < |s| ==> !less(s[k], s[min])
    ensures Selected(s[j := s[min]][min := s[j]], j + 1, less)
  {
  }

  method SelectionSort<T(!new)>(a: array<T>, less: (T, T) -> bool)
    requires StrictWeakOrder(less)
    requires a.Length >= 1
    modifies a
    ensures SortedWithin(a[..], 0, a.Length, less)
    ensures PermutedWithin(old(a[..]), a[..], 0, a.Length)
  {
    hide PermutedWithin, Selected, StrictWeakOrder;
    PermutedReflexive(a[..], 0, a.Length);
    var j := 0;
    SelectStart(a[..], less);
    while j < a.Length - 1
      invariant 0 <= j < a.Length && Selected(a[..], j, less)
      invariant PermutedWithin(old(a[..]), a[..], 0, a.Length)
    {
      var min := Smallest(a, j, less);
      ghost var s := a[..];
      SelectStep(s, j, min, less);
      if min != j {
        Swap(a, j, min, old(a[..]), 0, a.Length);
      }
      assert a[..] == s[j := s[min]][min := s[j]];
      j := j + 1;
    }
    SelectEnd(a[..], less);
  }

  method Smallest<T(!new)>(a: array<T>, j: int, less: (T, T) -> bool) returns (min: int)
    requires StrictWeakOrder(less)
    requires 0 <= j < a.Length
    ensures j <= min < a.Length
    ensures forall k :: j <= k < a.Length ==> !less(a[k], a[min])
  {
    min := j;
    var i := j + 1;
    while i < a.Length
      invariant j <= min < i <= a.Length
      invariant forall k :: j <= k < i ==> !less(a[k], a[min])
    {
      if less(a[i], a[min]) {
        min := i;
      }
      i := i + 1;
    }
  }

  lemma SelectStart<T(!new)>(s: seq<T>, less: (T, T) -> bool)
    ensures Selected(s, 0, less)
  {
  }

  lemma SelectEnd<T(!new)>(s: seq<T>, less: (T, T) -> bool)
    requires s != [] && Selected(s, |s| - 1, less)
    ensures SortedWithin(s, 0, |s|, less)
  {
  }
}

/**
 The counting passes of the LSD radix sort in base ten, for either copy of the routine: `dig` is the
 counting index that a pass computes for an element.
 */
module RadixPass {
  import opened Ordering

  const K := 10

  // ---------------------------------------------------------------- one counting pass

  /** Every element has a digit, an index of the ten counters. */
  ghost predicate Ranged<T>(s: seq<T>, dig: T -> int) {
    forall i :: 0 <= i < |s| ==> 0 <= dig(s[i]) < K
  }

  /** The elements of s whose digit is d, in their order in s. */
  ghost function Filter<T(!new)>(s: seq<T>, dig: T -> int, d: nat): (r: seq<T>)
    ensures |r| <= |s|
  {
    if s == [] then [] else
    var init, last := s[..|s| - 1], s[|s| - 1];
    Filter(init, dig, d) + if dig(last) == d then [last] else []
  }

  /** The elements with digit below d, grouped by digit: the list a stable pass must produce for d == K. */
  ghost function Grouped<T(!new)>(s: seq<T>, dig: T -> int, d: nat): (r: seq<T>)
  {
    if d == 0 then [] else Grouped(s, dig, d - 1) + Filter(s, dig, d - 1)
  }

  lemma {:induction false} FilterGrows<T(!new)>(s: seq<T>, dig: T -> int, d: nat, i: nat)
    requires i <= |s|
    ensures Filter(s[..i], dig, d) <= Filter(s, dig, d)
    decreases |s| - i
  {
    if i == |s| {
      assert s[..i] == s;
    } else {
      assert s[..i + 1][..i] == s[..i];
      FilterGrows(s, dig, d, i + 1);
    }
  }

  lemma {:induction false} GroupedGrows<T(!new)>(s: seq<T>, dig: T -> int, d: nat, d': nat)
    requires d <= d'
    ensures Grouped(s, dig, d) <= Grouped(s, dig, d')
    decreases d' - d
  {
    if d < d' {
      GroupedGrows(s, dig, d + 1, d');
    }
  }

  /** Where a pass must put s[i]: after every smaller digit and every earlier element of its own digit. */
  ghost function Slot<T(!new)>(s: seq<T>, dig: T -> int, i: nat): (r: nat)
    requires i < |s| && Ranged(s, dig)
  {
    |Grouped(s, dig, dig(s[i]))| + |Filter(s[..i], dig, dig(s[i]))|
  }

  lemma SlotHolds<T(!new)>(s: seq<T>, dig: T -> int, i: nat)
    requires i < |s| && Ranged(s, dig)
    ensures Slot(s, dig, i) < |Grouped(s, dig, dig(s[i]) + 1)| <= |Grouped(s, dig, K)|
    ensures Grouped(s, dig, K)[Slot(s, dig, i)] == s[i]
  {
    var d := dig(s[i]);
    assert s[..i + 1][..i] == s[..i];
    FilterGrows(s, dig, d, i + 1);
    GroupedGrows(s, dig, d + 1, K);
  }

  lemma {:induction false} FilterCounts<T(!new)>(s: seq<T>, dig: T -> int, d: nat, x: T)
    ensures multiset(Filter(s, dig, d))[x] == if dig(x) == d then multiset(s)[x] else 0
  {
    if s != [] {
      FilterCounts(s[..|s| - 1], dig, d, x);
      assert s == s[..|s| - 1] + [s[|s| - 1]];
    }
  }

  lemma {:induction false} GroupedCounts<T(!new)>(s: seq<T>, dig: T -> int, d: nat, x: T)
    ensures multiset(Grouped(s, dig, d))[x] == if 0 <= dig(x) < d then multiset(s)[x] else 0
  {
    hide Filter;
    if d > 0 {
      GroupedCounts(s, dig, d - 1, x);
      FilterCounts(s, dig, d - 1, x);
    }
  }

  lemma GroupedPermutes<T(!new)>(s: seq<T>, dig: T -> int)
    requires Ranged(s, dig)
    ensures Permutation(s, Grouped(s, dig, K)) && |Grouped(s, dig, K)| == |s|
  {
    forall x ensures multiset(s)[x] == multiset(Grouped(s, dig, K))[x] {
      GroupedCounts(s, dig, K, x);
      if x in multiset(s) {
        var i :| 0 <= i < |s| && s[i] == x;
      }
    }
    assert multiset(s) == multiset(Grouped(s, dig, K));
    assert |s| == |multiset(s)|;
  }

  // ---------------------------------------------------------------- order after a pass

  ghost predicate OrderedBy<T(!new)>(s: seq<T>, r: (T, T) -> bool) {
    forall i, j :: 0 <= i < j < |s| ==> r(s[i], s[j])
  }

  /** Digit first, the previous order among equal digits. */
  ghost function Refine<T(!new)>(dig: T -> int, r: (T, T) -> bool): (result: (T, T) -> bool)
  {
    (x: T, y: T) => dig(x) < dig(y) || (dig(x) == dig(y) && r(x, y))
  }

  lemma {:induction false} FilterOrdered<T(!new)>(s: seq<T>, dig: T -> int, d: nat, r: (T, T) -> bool)
    requires OrderedBy(s, r)
    ensures OrderedBy(Filter(s, dig, d), r)
    ensures forall x :: x in Filter(s, dig, d) ==> x in s && dig(x) == d
  {
    if s != [] {
      var init, last := s[..|s| - 1], s[|s| - 1];
      FilterOrdered(init, dig, d, r);
      forall x | x in Filter(init, dig, d) ensures x in s && r(x, last) {
        var k :| 0 <= k < |init| && init[k] == x;
        assert s[k] == x;
      }
    }
  }

  lemma AppendOrdered<T(!new)>(s: seq<T>, t: seq<T>, r: (T, T) -> bool)
    requires OrderedBy(s, r) && OrderedBy(t, r)
    requires forall x, y :: x in s && y in t ==> r(x, y)
    ensures OrderedBy(s + t, r)
  {
  }

  /** A stable pass: digits ascend, and ties keep their previous order. */
  lemma {:induction false} GroupedOrdered<T(!new)>(s: seq<T>, dig: T -> int, d: nat, r: (T, T) -> bool)
    requires OrderedBy(s, r)
    ensures OrderedBy(Grouped(s, dig, d), Refine(dig, r))
    ensures forall x :: x in Grouped(s, dig, d) ==> dig(x) < d
  {
    hide Filter;
    if d > 0 {
      GroupedOrdered(s, dig, d - 1, r);
      FilterOrdered(s, dig, d - 1, r);
      AppendOrdered(Grouped(s, dig, d - 1), Filter(s, dig, d - 1), Refine(dig, r));
    }
  }

  /** less ties only elements with the same digit. */
  ghost predicate TiesShareDigit<T(!new)>(dig: T -> int, less: (T, T) -> bool) {
    forall x, y :: Tied(y, x, less) ==> dig(x) == dig(y)
  }

  lemma {:induction false} FilterTies<T(!new)>(s: seq<T>, dig: T -> int, d: nat, x: T, less: (T, T) -> bool)
    requires TiesShareDigit(dig, less)
    ensures TiesOf(Filter(s, dig, d), x, less) == if dig(x) == d then TiesOf(s, x, less) else []
  {
    hide TiesOf;
    if s == [] {
      NoTies(x, less);
    } else {
      var init, last := s[..|s| - 1], s[|s| - 1];
      FilterTies(init, dig, d, x, less);
      TiesAppend(init, [last], x, less);
      TiesAppend(Filter(init, dig, d), [last], x, less);
      OneTie(last, x, less);
      assert s == init + [last] && Filter(init, dig, d) + [] == Filter(init, dig, d);
    }
  }

  /** A pass that looks at the same digits of the elements does the same. */
  lemma {:induction false} SameFilter<T(!new)>(s: seq<T>, dig: T -> int, dig': T -> int, d: nat)
    requires forall i :: 0 <= i < |s| ==> dig(s[i]) == dig'(s[i])
    ensures Filter(s, dig, d) == Filter(s, dig', d)
  {
    if s != [] {
      SameFilter(s[..|s| - 1], dig, dig', d);
    }
  }

  lemma {:induction false} SameGrouped<T(!new)>(s: seq<T>, dig: T -> int, dig': T -> int, d: nat)
    requires forall i :: 0 <= i < |s| ==> dig(s[i]) == dig'(s[i])
    ensures Grouped(s, dig, d) == Grouped(s, dig', d)
  {
    if d > 0 {
      SameGrouped(s, dig, dig', d - 1);
      SameFilter(s, dig, dig', d - 1);
    }
  }

  lemma {:induction false} GroupedTies<T(!new)>(s: seq<T>, dig: T -> int, d: nat, x: T, less: (T, T) -> bool)
    requires TiesShareDigit(dig, less)
    ensures TiesOf(Grouped(s, dig, d), x, less) == if 0 <= dig(x) < d then TiesOf(s, x, less) else []
  {
    hide Filter, TiesShareDigit;
    if d > 0 {
      GroupedTies(s, dig, d - 1, x, less);
      FilterTies(s, dig, d - 1, x, less);
      TiesAppend(Grouped(s, dig, d - 1), Filter(s, dig, d - 1), x, less);
    }
  }

  // ---------------------------------------------------------------- the in-place routine

  /** The occurrences of every digit. */
  method CountDigits<T(!new)>(a: array<T>, dig: T -> int) returns (bb: array<nat>)
    requires Ranged(a[..], dig)
    ensures fresh(bb) && bb.Length == K
    ensures forall d :: 0 <= d < K ==> bb[d] == |Filter(a[..], dig, d)|
  {
    bb := new nat[K](_ => 0);
    var i := 0;
    while i < a.Length
      invariant 0 <= i <= a.Length
      invariant forall d :: 0 <= d < K ==> bb[d] == |Filter(a[..i], dig, d)|
    {
      assert a[..i + 1][..i] == a[..i];
      bb[dig(a[i])] := bb[dig(a[i])] + 1;
      i := i + 1;
    }
    assert a[..a.Length] == a[..];
  }

  /** Running totals: bb[d] becomes the end of group d. */
  method Accumulate<T(!new)>(bb: array<nat>, ghost s: seq<T>, ghost dig: T -> int)
    requires bb.Length == K
    requires forall d :: 0 <= d < K ==> bb[d] == |Filter(s, dig, d)|
    modifies bb
    ensures forall d :: 0 <= d < K ==> bb[d] == |Grouped(s, dig, d + 1)|
  {
    hide Filter;
    var i := 1;
    assert Grouped(s, dig, 1) == Grouped(s, dig, 0) + Filter(s, dig, 0);
    while i < K
      invariant 1 <= i <= K
      invariant forall d :: 0 <= d < i ==> bb[d] == |Grouped(s, dig, d + 1)|
      invariant forall d :: i <= d < K ==> bb[d] == |Filter(s, dig, d)|
    {
      bb[i] := bb[i] + bb[i - 1];
      i := i + 1;
    }
  }

  /** Every index lies in exactly one group's range. */
  lemma {:induction false} GroupOf<T(!new)>(s: seq<T>, dig: T -> int, d: nat, p: nat) returns (g: nat)
    requires p < |Grouped(s, dig, d)|
    ensures g < d && |Grouped(s, dig, g)| <= p < |Grouped(s, dig, g + 1)|
  {
    hide Filter;
    if |Grouped(s, dig, d - 1)| <= p {
      g := d - 1;
    } else {
      g := GroupOf(s, dig, d - 1, p);
    }
  }

  lemma ScatterStart<T(!new)>(s: seq<T>, dig: T -> int, d: nat)
    ensures |Grouped(s, dig, d + 1)| == |Grouped(s, dig, d)| + |Filter(s[..|s|], dig, d)|
  {
    assert s[..|s|] == s;
  }

  lemma EmptyFilter<T(!new)>(s: seq<T>, dig: T -> int, d: nat)
    requires s == []
    ensures Filter(s, dig, d) == []
  {
  }

  lemma ScatterStep<T(!new)>(s: seq<T>, dig: T -> int, i: nat, d: nat)
    requires i < |s|
    ensures |Filter(s[..i + 1], dig, d)| == |Filter(s[..i], dig, d)| + if dig(s[i]) == d then 1 else 0
  {
    assert s[..i + 1][..i] == s[..i];
  }

  /** The last i elements still to place: ends[d] is one past the next free cell of group d. */
  ghost predicate Ends<T(!new)>(ends: seq<nat>, s: seq<T>, dig: T -> int, i: nat)
    requires i <= |s|
  {
    |ends| == K && forall d :: 0 <= d < K ==> ends[d] == |Grouped(s, dig, d)| + |Filter(s[..i], dig, d)|
  }

  /** The cells of each group from its free end on have their final elements. */
  ghost predicate Placed<T(!new)>(ends: seq<nat>, b: seq<T>, s: seq<T>, dig: T -> int)
    requires |ends| == K
  {
    var g := Grouped(s, dig, K);
    && |b| == |g|
    && forall d, p :: 0 <= d < K && ends[d] <= p < |Grouped(s, dig, d + 1)| && p < |g| ==> b[p] == g[p]
  }

  lemma ScatterOne<T(!new)>(ends: seq<nat>, b: seq<T>, s: seq<T>, dig: T -> int, i: nat)
    requires i < |s| && Ranged(s, dig)
    requires Ends(ends, s, dig, i + 1) && Placed(ends, b, s, dig)
    ensures var d := dig(s[i]);
      && 0 < ends[d] <= |b|
      && Ends(ends[d := ends[d] - 1], s, dig, i)
      && Placed(ends[d := ends[d] - 1], b[ends[d] - 1 := s[i]], s, dig)
  {
    hide Filter, Grouped;
    SlotHolds(s, dig, i);
    forall d: nat | d < K { ScatterStep(s, dig, i, d); }
  }

  lemma ScatterFirst<T(!new)>(ends: seq<nat>, b: seq<T>, s: seq<T>, dig: T -> int)
    requires |ends| == K && |b| == |s| && Ranged(s, dig)
    requires forall d :: 0 <= d < K ==> ends[d] == |Grouped(s, dig, d + 1)|
    ensures Ends(ends, s, dig, |s|) && Placed(ends, b, s, dig)
  {
    hide Filter, Grouped;
    GroupedPermutes(s, dig);
    forall d: nat | d < K { ScatterStart(s, dig, d); }
  }

  lemma ScatterLast<T(!new)>(ends: seq<nat>, b: seq<T>, s: seq<T>, dig: T -> int)
    requires Ends(ends, s, dig, 0) && Placed(ends, b, s, dig)
    ensures b == Grouped(s, dig, K)
  {
    hide Filter, Grouped;
    var g := Grouped(s, dig, K);
    forall p | 0 <= p < |g| ensures b[p] == g[p] {
      var d := GroupOf(s, dig, K, p);
      EmptyFilter(s[..0], dig, d);
    }
  }

  /** Scatter from the back: each element goes to the last free cell of its group. */
  method Scatter<T(!new)>(a: array<T>, b: array<T>, bb: array<nat>, dig: T -> int)
    requires bb.Length == K && a.Length == b.Length && a != b && bb as object != a && bb as object != b
    requires Ranged(a[..], dig)
    requires forall d :: 0 <= d < K ==> bb[d] == |Grouped(a[..], dig, d + 1)|
    modifies b, bb
    ensures b[..] == Grouped(a[..], dig, K)
  {
    hide Grouped, Ends, Placed;
    ghost var s := a[..];
    ScatterFirst(bb[..], b[..], s, dig);
    var i := a.Length;
    while i > 0
      invariant 0 <= i <= a.Length && a[..] == s
      invariant Ends(bb[..], s, dig, i) && Placed(bb[..], b[..], s, dig)
    {
      i := i - 1;
      ScatterOne(bb[..], b[..], s, dig, i);
      ghost var ends, cells := bb[..], b[..];
      var d := dig(a[i]);
      bb[d] := bb[d] - 1;
      b[bb[d]] := a[i];
      assert bb[..] == ends[d := ends[d] - 1] && b[..] == cells[ends[d] - 1 := s[i]];
    }
    ScatterLast(bb[..], b[..], s, dig);
  }

  method CopyFrom<T>(a: array<T>, b: array<T>)
    requires a.Length == b.Length && a != b
    modifies a
    ensures a[..] == b[..]
  {
    forall i | 0 <= i < a.Length {
      a[i] := b[i];
    }
  }

  /** One pass of the outer loop is the stable regrouping by the digit it looks at. */
  method Pass<T(!new)>(a: array<T>, b: array<T>, dig: T -> int)
    requires a.Length == b.Length && a != b && Ranged(a[..], dig)
    modifies a, b
    ensures a[..] == Grouped(old(a[..]), dig, K)
  {
    hide Grouped, Filter;
    var bb := CountDigits(a, dig);
    Accumulate(bb, a[..], dig);
    Scatter(a, b, bb, dig);
    CopyFrom(a, b);
  }

  // ---------------------------------------------------------------- around the passes

  method Maximum<T(!new)>(a: array<T>, less: (T, T) -> bool) returns (m: T)
    requires a.Length >= 1 && StrictWeakOrder(less)
    ensures m in a[..] && forall i :: 0 <= i < a.Length ==> !less(m, a[i])
  {
    m := a[0];
    var i := 1;
    while i < a.Length
      invariant 1 <= i <= a.Length
      invariant m in a[..] && forall j :: 0 <= j < i ==> !less(m, a[j])
    {
      if less(m, a[i]) {
        m := a[i];
      }
      i := i + 1;
    }
  }

  /** The first i cells of t are the last i of s, back to front. */
  ghost predicate Mirrored<T>(s: seq<T>, t: seq<T>, i: nat) {
    |s| == |t| && i <= |s| && forall k :: 0 <= k < i ==> t[k] == s[|s| - 1 - k]
  }

  function Backwards<T>(s: seq<T>): (r: seq<T>)
    ensures |r| == |s|
  {
    seq(|s|, k requires 0 <= k < |s| => s[|s| - 1 - k])
  }

  lemma MirroredBack<T>(s: seq<T>, t: seq<T>)
    requires Mirrored(s, t, |s|)
    ensures Backwards(t) == s
  {
  }

  lemma MirrorOne<T>(s: seq<T>, t: seq<T>, i: nat)
    requires Mirrored(s, t, i) && i < |s|
    ensures Mirrored(s, t[i := s[|s| - 1 - i]], i + 1)
  {
  }

  /** The descending end: back to front through the second array. */
  method Reverse<T>(a: array<T>, b: array<T>)
    requires a.Length == b.Length >= 1 && a != b
    modifies a, b
    ensures Mirrored(old(a[..]), a[..], a.Length)
    ensures Permutation(old(a[..]), a[..])
  {
    hide Permutation, Mirrored;
    ghost var s := a[..];
    var n := a.Length;
    var i, j := 0, n - 1;
    assert Mirrored(s, b[..], 0) by { MirrorNone(s, b[..]); }
    while i < n
      invariant 0 <= i <= n && j == n - 1 - i
      invariant a[..] == s && Mirrored(s, b[..], i)
    {
      MirrorOne(s, b[..], i);
      ghost var t := b[..];
      b[i] := a[j];
      assert b[..] == t[i := s[j]];
      i, j := i + 1, j - 1;
    }
    ghost var t := b[..];
    MirrorPermutes(s, t);
    CopyFrom(a, b);
    assert a[..] == t;
  }

  lemma MirrorNone<T>(s: seq<T>, t: seq<T>)
    requires |s| == |t|
    ensures Mirrored(s, t, 0)
  {
  }

  lemma MirrorPermutes<T>(s: seq<T>, t: seq<T>)
    requires Mirrored(s, t, |s|)
    ensures Permutation(s, t)
  {
    ReversalPermutes(s, t);
  }

  lemma {:induction false} ReversalPermutes<T>(s: seq<T>, t: seq<T>)
    requires |s| == |t| && forall k :: 0 <= k < |s| ==> t[k] == s[|s| - 1 - k]
    ensures Permutation(s, t)
  {
    if s != [] {
      assert s == [s[0]] + s[1..] && t == t[..|t| - 1] + [t[|t| - 1]];
      ReversalPermutes(s[1..], t[..|t| - 1]);
    }
  }
}

/** Comparators, sortedness and permutations shared by every sorting routine. */
module Ordering {

  /** What a C comparator must promise: sign-symmetric and transitive (ties allowed). */
  ghost predicate TotalPreorder<T(!new)>(cmp: (T, T) -> int) {
    && (forall x, y :: cmp(x, y) < 0 <==> cmp(y, x) > 0)
    && (forall x, y, z :: cmp(x, y) <= 0 && cmp(y, z) <= 0 ==> cmp(x, z) <= 0)
  }

  /** The strict test a routine makes: `cmp < 0` when ascending, `cmp > 0` when descending. */
  function Before<T>(cmp: (T, T) -> int, ascend: bool): (r: (T, T) -> bool) {
    (x, y) => if ascend then cmp(x, y) < 0 else cmp(x, y) > 0
  }

  ghost predicate StrictWeakOrder<T(!new)>(less: (T, T) -> bool) {
    && Asymmetric(less)
    && (forall x, y, z :: !less(y, x) && !less(z, y) ==> !less(z, x))
  }

  ghost predicate Asymmetric<T(!new)>(less: (T, T) -> bool) {
    forall x, y :: less(x, y) ==> !less(y, x)
  }

  lemma Irreflexive<T(!new)>(less: (T, T) -> bool, x: T)
    requires Asymmetric(less)
    ensures !less(x, x)
  {
  }

  lemma BeforeIsStrictWeakOrder<T(!new)>(cmp: (T, T) -> int, ascend: bool)
    requires TotalPreorder(cmp)
    ensures StrictWeakOrder(Before(cmp, ascend))
  {
    forall x, y, z | !Before(cmp, ascend)(y, x) && !Before(cmp, ascend)(z, y)
      ensures !Before(cmp, ascend)(z, x)
    {
      if ascend {
        assert cmp(x, y) <= 0 && cmp(y, z) <= 0;
      } else {
        assert cmp(z, y) <= 0 && cmp(y, x) <= 0;
      }
    }
  }

  /** No element comes strictly before an earlier one. */
  ghost predicate Sorted<T>(s: seq<T>, less: (T, T) -> bool) {
    forall i, j :: 0 <= i < j < |s| ==> !less(s[j], s[i])
  }

  ghost predicate SortedWithin<T>(s: seq<T>, lo: int, hi: int, less: (T, T) -> bool)
    requires 0 <= lo <= hi <= |s|
  {
    forall i, j :: lo <= i < j < hi ==> !less(s[j], s[i])
  }

  ghost predicate Permutation<T>(s: seq<T>, t: seq<T>) {
    multiset(s) == multiset(t)
  }

  /** A permutation of s keeps every bound that holds of all elements of s. */
  lemma PermutationKeepsAll<T>(s: seq<T>, t: seq<T>, p: T -> bool)
    requires Permutation(s, t)
    requires forall k :: 0 <= k < |s| ==> p(s[k])
    ensures forall k :: 0 <= k < |t| ==> p(t[k])
  {
    forall k | 0 <= k < |t| ensures p(t[k]) {
      assert t[k] in multiset(t);
      assert t[k] in multiset(s);
    }
  }

  /** t is s with the cells [lo, hi) rearranged and every other cell untouched. */
  ghost predicate PermutedWithin<T>(s: seq<T>, t: seq<T>, lo: int, hi: int) {
    && 0 <= lo <= hi <= |s| == |t|
    && s[..lo] == t[..lo] && s[hi..] == t[hi..]
    && Permutation(s[lo..hi], t[lo..hi])
  }

  lemma PermutedReflexive<T>(s: seq<T>, lo: int, hi: int)
    requires 0 <= lo <= hi <= |s|
    ensures PermutedWithin(s, s, lo, hi)
  {
  }

  lemma PermutedOutside<T>(s: seq<T>, t: seq<T>, lo: int, hi: int)
    requires PermutedWithin(s, t, lo, hi)
    ensures 0 <= lo <= hi <= |s| == |t|
    ensures forall k :: 0 <= k < lo || hi <= k < |s| ==> t[k] == s[k]
  {
    forall k | hi <= k < |s| ensures t[k] == s[k] {
      assert t[hi..][k - hi] == s[hi..][k - hi];
    }
    forall k | 0 <= k < lo ensures t[k] == s[k] {
      assert t[..lo][k] == s[..lo][k];
    }
  }

  lemma PermutedTransitive<T>(s: seq<T>, t: seq<T>, u: seq<T>, lo: int, hi: int)
    requires PermutedWithin(s, t, lo, hi) && PermutedWithin(t, u, lo, hi)
    ensures PermutedWithin(s, u, lo, hi)
  {
  }

  lemma WidenPermuted<T>(s: seq<T>, t: seq<T>, lo: int, hi: int, lo': int, hi': int)
    requires PermutedWithin(s, t, lo, hi)
    requires 0 <= lo' <= lo && hi <= hi' <= |s|
    ensures PermutedWithin(s, t, lo', hi')
  {
    assert s[lo'..hi'] == s[lo'..lo] + s[lo..hi] + s[hi..hi'];
    assert t[lo'..hi'] == t[lo'..lo] + t[lo..hi] + t[hi..hi'];
    assert s[lo'..lo] == s[..lo][lo'..] && t[lo'..lo] == t[..lo][lo'..];
    assert s[hi..hi'] == s[hi..][..hi' - hi] && t[hi..hi'] == t[hi..][..hi' - hi];
    assert s[..lo'] == s[..lo][..lo'] && t[..lo'] == t[..lo][..lo'];
    assert s[hi'..] == s[hi..][hi' - hi..] && t[hi'..] == t[hi..][hi' - hi..];
  }

  /** A bound on the rearranged cells survives the rearrangement. */
  lemma PermutedKeepsBound<T>(s: seq<T>, t: seq<T>, lo: int, hi: int, bound: T -> bool)
    requires PermutedWithin(s, t, lo, hi)
    requires forall k :: lo <= k < hi ==> bound(s[k])
    ensures forall k :: lo <= k < hi ==> bound(t[k])
  {
    PermutationKeepsAll(s[lo..hi], t[lo..hi], bound);
    forall k | lo <= k < hi ensures bound(t[k]) {
      assert t[k] == t[lo..hi][k - lo];
    }
  }

  lemma SwapPermutes<T>(s: seq<T>, i: int, j: int, lo: int, hi: int)
    requires 0 <= lo <= i <= j < hi <= |s|
    ensures PermutedWithin(s, s[i := s[j]][j := s[i]], lo, hi)
  {
    var t := s[i := s[j]][j := s[i]];
    assert t[lo..hi] == s[lo..hi][i - lo := s[j]][j - lo := s[i]];
  }

  /** Exchange of two cells, as swap_d, swap_u and swap_p do it, inside a range already rearranged from `orig`. */
  method Swap<T>(a: array<T>, i: int, j: int, ghost orig: seq<T>, ghost lo: int, ghost hi: int)
    requires 0 <= lo <= i <= j < hi <= a.Length
    requires PermutedWithin(orig, a[..], lo, hi)
    modifies a
    ensures a[i] == old(a[j]) && a[j] == old(a[i])
    ensures forall k :: 0 <= k < a.Length && k != i && k != j ==> a[k] == old(a[k])
    ensures PermutedWithin(orig, a[..], lo, hi)
  {
    hide PermutedWithin;
    ghost var s := a[..];
    var tmp := a[i];
    a[i] := a[j];
    a[j] := tmp;
    assert a[..] == s[i := s[j]][j := s[i]];
    SwapPermutes(s, i, j, lo, hi);
    PermutedTransitive(orig, s, a[..], lo, hi);
  }

  /** The cells from `last` on are sorted and nothing before them comes after any of them. */
  ghost predicate Settled<T>(s: seq<T>, last: int, less: (T, T) -> bool)
    requires 0 <= last <= |s|
  {
    && SortedWithin(s, last, |s|, less)
    && forall k, m :: 0 <= k < last <= m < |s| ==> !less(s[m], s[k])
  }

  /** Rearranging the part not yet settled keeps what is settled. */
  lemma SettledKept<T(!new)>(s: seq<T>, t: seq<T>, i: int, less: (T, T) -> bool)
    requires 0 <= i <= |s| && PermutedWithin(s, t, 0, i) && Settled(s, i, less)
    ensures Settled(t, i, less)
  {
    PermutedOutside(s, t, 0, i);
    forall m | i <= m < |s| ensures forall k :: 0 <= k < i ==> !less(t[m], t[k]) {
      PermutedKeepsBound(s, t, 0, i, x => !less(s[m], x));
    }
  }

  /** Where ties are equalities, a multiset has only one sorted arrangement. */
  lemma {:induction false} SortedIsUnique<T(!new)>(s: seq<T>, t: seq<T>, less: (T, T) -> bool)
    requires forall x, y :: !less(x, y) && !less(y, x) ==> x == y
    requires Sorted(s, less) && Sorted(t, less) && Permutation(s, t)
    ensures s == t
    decreases |s|
  {
    assert |s| == |multiset(s)| == |multiset(t)| == |t|;
    if s != [] {
      HeadsAgree(s, t, less);
      TailsPermute(s, t);
      SortedIsUnique(s[1..], t[1..], less);
      assert s == [s[0]] + s[1..] && t == [t[0]] + t[1..];
    }
  }

  lemma TailsPermute<T>(s: seq<T>, t: seq<T>)
    requires s != [] && t != [] && s[0] == t[0] && Permutation(s, t)
    ensures Permutation(s[1..], t[1..])
  {
    assert s == [s[0]] + s[1..] && t == [t[0]] + t[1..];
    assert multiset(s[1..]) == multiset(s) - multiset{s[0]} == multiset(t[1..]);
  }

  lemma HeadsAgree<T(!new)>(s: seq<T>, t: seq<T>, less: (T, T) -> bool)
    requires forall x, y :: !less(x, y) && !less(y, x) ==> x == y
    requires Sorted(s, less) && Sorted(t, less) && Permutation(s, t)
    requires s != [] && t != []
    ensures s[0] == t[0]
  {
    assert s[0] in multiset(t) && t[0] in multiset(s);
    var i :| 0 <= i < |t| && t[i] == s[0];
    var j :| 0 <= j < |s| && s[j] == t[0];
  }

  /** The order of numbers in the requested direction. */
  function Numeric(ascend: bool): (less: (int, int) -> bool) {
    if ascend then (x: int, y: int) => x < y else (x: int, y: int) => y < x
  }

  lemma NumericOrder(ascend: bool)
    ensures StrictWeakOrder(Numeric(ascend))
  {
  }

  // ---------------------------------------------------------------- stability

  predicate Tied<T>(x: T, y: T, less: (T, T) -> bool) {
    !less(x, y) && !less(y, x)
  }

  /** The elements of s that tie with x, in their order in s. */
  ghost function TiesOf<T>(s: seq<T>, x: T, less: (T, T) -> bool): (r: seq<T>) {
    if s == [] then [] else (if Tied(s[0], x, less) then [s[0]] else []) + TiesOf(s[1..], x, less)
  }

  /** Elements that tie are in t what they are in s, in the same order. */
  ghost predicate Stable<T(!new)>(s: seq<T>, t: seq<T>, less: (T, T) -> bool) {
    forall x :: TiesOf(s, x, less) == TiesOf(t, x, less)
  }

  lemma StableReflexive<T(!new)>(s: seq<T>, less: (T, T) -> bool)
    ensures Stable(s, s, less)
  {
  }

  lemma StableSymmetric<T(!new)>(s: seq<T>, t: seq<T>, less: (T, T) -> bool)
    requires Stable(s, t, less)
    ensures Stable(t, s, less)
  {
  }

  lemma StableTransitive<T(!new)>(s: seq<T>, t: seq<T>, u: seq<T>, less: (T, T) -> bool)
    requires Stable(s, t, less) && Stable(t, u, less)
    ensures Stable(s, u, less)
  {
  }

  lemma TiesFirst<T>(s: seq<T>, x: T, less: (T, T) -> bool)
    requires s != []
    ensures TiesOf(s, x, less) == TiesOf([s[0]], x, less) + TiesOf(s[1..], x, less)
  {
    OneTie(s[0], x, less);
  }

  lemma {:induction false} TiesAppend<T>(s: seq<T>, t: seq<T>, x: T, less: (T, T) -> bool)
    ensures TiesOf(s + t, x, less) == TiesOf(s, x, less) + TiesOf(t, x, less)
  {
    hide TiesOf;
    if s == [] {
      NoTies(x, less);
      assert s + t == t;
    } else {
      assert (s + t)[1..] == s[1..] + t && (s + t)[0] == s[0];
      TiesFirst(s, x, less);
      TiesFirst(s + t, x, less);
      TiesAppend(s[1..], t, x, less);
    }
  }

  lemma TiesOfPair<T(!new)>(y: T, z: T, x: T, less: (T, T) -> bool)
    requires StrictWeakOrder(less) && less(z, y)
    ensures TiesOf([y, z], x, less) == TiesOf([z, y], x, less)
  {
    assert [y, z][1..] == [z] && [z, y][1..] == [y];
    assert !(Tied(y, x, less) && Tied(z, x, less));
  }

  /** Exchanging neighbours that are out of order moves no element past one it ties with. */
  lemma ExchangeStable<T(!new)>(orig: seq<T>, s: seq<T>, i: nat, less: (T, T) -> bool)
    requires StrictWeakOrder(less) && Stable(orig, s, less)
    requires 0 < i < |s| && less(s[i], s[i - 1])
    ensures Stable(orig, s[i - 1 := s[i]][i := s[i - 1]], less)
  {
    hide StrictWeakOrder, TiesOf;
    var t := s[i - 1 := s[i]][i := s[i - 1]];
    var front, back := s[..i - 1], s[i + 1..];
    var pair, riap := [s[i - 1], s[i]], [s[i], s[i - 1]];
    assert s == front + pair + back && t == front + riap + back;
    forall x ensures TiesOf(orig, x, less) == TiesOf(t, x, less) {
      TiesOfPair(s[i - 1], s[i], x, less);
      TiesAppend(front, pair, x, less);
      TiesAppend(front, riap, x, less);
      TiesAppend(front + pair, back, x, less);
      TiesAppend(front + riap, back, x, less);
    }
  }

  lemma {:induction false} TiesAreMembers<T>(s: seq<T>, x: T, less: (T, T) -> bool)
    ensures forall y :: y in TiesOf(s, x, less) ==> y in s && Tied(y, x, less)
    ensures forall y :: y in s && Tied(y, x, less) ==> y in TiesOf(s, x, less)
  {
    if s != [] {
      TiesAreMembers(s[1..], x, less);
    }
  }

  /** A list has only one stable and sorted arrangement, whatever ties in it. */
  lemma {:induction false} StableIsUnique<T(!new)>(s: seq<T>, t: seq<T>, less: (T, T) -> bool)
    requires StrictWeakOrder(less)
    requires Sorted(s, less) && Sorted(t, less) && Stable(s, t, less)
    ensures s == t
    decreases |s|
  {
    hide StrictWeakOrder, TiesOf;
    if s == [] {
      if t != [] {
        NoTies(t[0], less);
        HeadTies(t, less);
      }
    } else {
      StableHeads(s, t, less);
      assert s == [s[0]] + s[1..] && t == [s[0]] + t[1..];
      forall x ensures TiesOf(s[1..], x, less) == TiesOf(t[1..], x, less) {
        TiesAppend([s[0]], s[1..], x, less);
        TiesAppend([s[0]], t[1..], x, less);
        SameRest(TiesOf([s[0]], x, less), TiesOf(s[1..], x, less), TiesOf(t[1..], x, less));
      }
      StableIsUnique(s[1..], t[1..], less);
    }
  }

  lemma SameRest<T>(p: seq<T>, s: seq<T>, t: seq<T>)
    requires p + s == p + t
    ensures s == t
  {
    assert s == (p + s)[|p|..] && t == (p + t)[|p|..];
  }

  lemma NoTies<T>(x: T, less: (T, T) -> bool)
    ensures TiesOf([], x, less) == []
  {
  }

  lemma OneTie<T>(y: T, x: T, less: (T, T) -> bool)
    ensures TiesOf([y], x, less) == if Tied(y, x, less) then [y] else []
  {
    assert [y][1..] == [];
  }

  lemma HeadTies<T(!new)>(s: seq<T>, less: (T, T) -> bool)
    requires StrictWeakOrder(less) && s != []
    ensures TiesOf(s, s[0], less) != [] && TiesOf(s, s[0], less)[0] == s[0]
  {
    Irreflexive(less, s[0]);
  }

  lemma FirstTie<T>(s: seq<T>, x: T, less: (T, T) -> bool)
    requires s != [] && Tied(s[0], x, less)
    ensures TiesOf(s, x, less) != [] && TiesOf(s, x, less)[0] == s[0]
  {
  }

  lemma StableHeads<T(!new)>(s: seq<T>, t: seq<T>, less: (T, T) -> bool)
    requires StrictWeakOrder(less) && s != []
    requires Sorted(s, less) && Sorted(t, less) && Stable(s, t, less)
    ensures t != [] && t[0] == s[0]
  {
    hide TiesOf;
    HeadTies(s, less);
    TiesAreMembers(t, s[0], less);
    assert s[0] in TiesOf(t, s[0], less);
    HeadTies(t, less);
    TiesAreMembers(s, t[0], less);
    assert t[0] in TiesOf(s, t[0], less);
    assert Tied(t[0], s[0], less);
    FirstTie(t, s[0], less);
  }
}

/**
 The signed copy of the radix sort. C divides towards zero, so a negative element asks for a counter
 that is not there unless its digit is 0; where that never happens, negative elements count as 0.
 */
module SignedRadix {
  import opened Ordering
  import opened RadixPass
  import opened RadixSort

  /** `x / e` and `x % e` on signed int. */
  function Quotient(x: int, e: nat): (q: int)
    requires e > 0
  {
    if x >= 0 then x / e else -(-x / e)
  }

  function Remainder(x: int, e: nat): (r: int)
    requires e > 0
  {
    if x >= 0 then x % e else -(-x % e)
  }

  /** Quotient and remainder as C defines them: they make up the dividend, and the remainder has its sign. */
  lemma DivisionInC(x: int, e: nat)
    requires e > 0
    ensures x == e * Quotient(x, e) + Remainder(x, e)
    ensures (x >= 0 ==> 0 <= Remainder(x, e) < e) && (x <= 0 ==> 0 <= -Remainder(x, e) < e)
  {
    if x < 0 {
      var q, r := -x / e, -x % e;
      assert -x == e * q + r && Quotient(x, e) == -q && Remainder(x, e) == -r;
      assert e * -q == -(e * q);
    }
  }

  /** The counting index of a pass: `(x / exp) % K`. */
  function CountingIndex(x: int, e: nat): (d: int)
    requires e > 0
  {
    Remainder(Quotient(x, e), K)
  }

  /** How many passes a maximum m leads to: the number of its digits if it is positive. */
  function Passes(m: int): (p: nat) {
    if m <= 0 then 0 else 1 + Passes(m / K)
  }

  /** The loop test before pass k. */
  lemma {:induction false} PassRuns(m: int, k: nat)
    requires m > 0
    ensures Quotient(m, PowerOfTen(k)) > 0 <==> k < Passes(m)
    ensures PowerOfTen(k) <= m <==> k < Passes(m)
    decreases k
  {
    LoopTest(m, PowerOfTen(k));
    if k > 0 {
      if m >= K {
        PassRuns(m / K, k - 1);
      } else {
        assert Passes(m) == 1;
      }
    }
  }

  function Largest(s: seq<int>): (m: int)
    requires s != []
    ensures m in s && forall i :: 0 <= i < |s| ==> s[i] <= m
  {
    if |s| == 1 then s[0] else
    var m := Largest(s[1..]);
    if s[0] > m then s[0] else m
  }

  /** Every negative element is a multiple of ten to the number of passes. */
  ghost predicate Inside(s: seq<int>)
    requires s != []
  {
    forall i :: 0 <= i < |s| && s[i] < 0 ==> s[i] % PowerOfTen(Passes(Largest(s))) == 0
  }

  predicate ZeroDigit(n: nat, k: nat) {
    Digit(n, PowerOfTen(k)) == 0
  }

  /** A number ends in p zeros exactly if it is a multiple of 10^p. */
  lemma {:induction false} ZeroDigits(n: nat, p: nat)
    ensures (forall k :: 0 <= k < p ==> ZeroDigit(n, k)) <==> n % PowerOfTen(p) == 0
  {
    hide Digit;
    if p == 0 {
      assert PowerOfTen(0) == 1;
    } else {
      var e := PowerOfTen(p - 1);
      ZeroDigits(n, p - 1);
      ModSplit(n, e);
      ZeroSum(e, Digit(n, e), n % e);
      assert ZeroDigit(n, p - 1) <==> Digit(n, e) == 0;
    }
  }

  lemma ZeroSum(e: nat, d: nat, r: nat)
    requires e > 0
    ensures e * d + r == 0 <==> d == 0 && r == 0
  {
    if d > 0 {
      assert e * d >= d;
    }
  }

  lemma Scale(e: nat, z: int)
    requires e > 0
    ensures z >= 1 ==> e * z >= e
    ensures z <= -1 ==> e * z + e <= 0
  {
    if z >= 1 {
      assert e * z == e + e * (z - 1);
    } else if z <= -1 {
      assert e * z + e == e * (z + 1);
    }
  }

  lemma NaturalQuotient(x: nat, e: nat)
    requires e > 0
    ensures x / e >= 0
  {
    assert x == e * (x / e) + x % e;
    Scale(e, x / e);
  }

  lemma IndexOfNatural(x: nat, e: nat)
    requires e > 0
    ensures CountingIndex(x, e) == Digit(x, e)
  {
    NaturalQuotient(x, e);
    var q: nat := x / e;
    assert Quotient(x, e) == q;
  }

  lemma IndexOfNegative(x: int, e: nat)
    requires e > 0 && x < 0
    ensures CountingIndex(x, e) + Digit(-x, e) == 0
  {
    hide Remainder;
    NaturalQuotient(-x, e);
    RemainderSign(Quotient(x, e));
  }

  lemma RemainderSign(x: int)
    requires x <= 0
    ensures Remainder(x, K) + (-x) % K == 0
  {
  }

  lemma NegativeMultiple(x: int, e: nat)
    requires e > 0
    ensures x % e == 0 <==> (-x) % e == 0
  {
    var q, r := x / e, x % e;
    var t, u := (-x) / e, (-x) % e;
    assert x == e * q + r && -x == e * t + u;
    assert e * (q + t) == -r - u;
    Scale(e, q + t);
  }

  /** The counting index of x in pass k is an index of the ten counters. */
  ghost predicate Counted(x: int, k: nat) {
    0 <= CountingIndex(x, PowerOfTen(k)) < K
  }

  lemma CountedAt(x: int, k: nat)
    ensures Counted(x, k) <==> x >= 0 || ZeroDigit(-x, k)
  {
    hide CountingIndex, Digit, PowerOfTen;
    if x >= 0 {
      IndexOfNatural(x, PowerOfTen(k));
    } else {
      IndexOfNegative(x, PowerOfTen(k));
    }
  }

  /** In p passes, exactly the negative numbers that are no multiples of 10^p ask for a counter that is not there. */
  lemma CountedExactly(x: int, p: nat)
    ensures (forall k :: 0 <= k < p ==> Counted(x, k)) <==> x >= 0 || x % PowerOfTen(p) == 0
  {
    hide Counted, ZeroDigit, PowerOfTen;
    if x >= 0 {
      forall k | 0 <= k < p ensures Counted(x, k) {
        CountedAt(x, k);
      }
    } else {
      var n: nat := -x;
      forall k | 0 <= k < p ensures Counted(x, k) <==> ZeroDigit(n, k) {
        CountedAt(x, k);
      }
      ZeroDigits(n, p);
      NegativeMultiple(x, PowerOfTen(p));
    }
  }

  /** Every counting index of every pass is inside exactly if each negative element is a multiple of 10^passes. */
  lemma IndicesInside(s: seq<int>)
    requires s != []
    ensures Inside(s) <==> forall i, k :: 0 <= i < |s| && 0 <= k < Passes(Largest(s)) ==> Counted(s[i], k)
  {
    hide Counted, PowerOfTen, Passes;
    var p := Passes(Largest(s));
    forall i | 0 <= i < |s|
      ensures (forall k :: 0 <= k < p ==> Counted(s[i], k)) <==> s[i] >= 0 || s[i] % PowerOfTen(p) == 0
    {
      CountedExactly(s[i], p);
    }
  }

  // ---------------------------------------------------------------- inside the counters

  /** The value an element counts as. */
  function Clamp(x: int): (n: nat) {
    if x > 0 then x else 0
  }

  function ByClamp(): (less: (int, int) -> bool) {
    (x: int, y: int) => Clamp(x) < Clamp(y)
  }

  function IndexAt(e: nat): (dig: int -> int)
    requires e > 0
  {
    (x: int) => CountingIndex(x, e)
  }

  function ClampDigit(e: nat): (dig: int -> int)
    requires e > 0
  {
    (x: int) => Digit(Clamp(x), e)
  }

  lemma ClampedIndex(x: int, k: nat)
    requires Counted(x, k)
    ensures CountingIndex(x, PowerOfTen(k)) == Digit(Clamp(x), PowerOfTen(k))
  {
    hide CountingIndex, PowerOfTen;
    CountedAt(x, k);
    if x >= 0 {
      IndexOfNatural(x, PowerOfTen(k));
    } else {
      IndexOfNegative(x, PowerOfTen(k));
    }
  }

  /** The order of the last k digits of the clamped values. */
  ghost function ByDigits(k: nat): (r: (int, int) -> bool) {
    (x: int, y: int) => Clamp(x) % PowerOfTen(k) <= Clamp(y) % PowerOfTen(k)
  }

  /** What holds each time the loop test is evaluated, after k passes over `orig` with maximum m. */
  ghost predicate Clamped(orig: seq<int>, s: seq<int>, m: int, k: nat) {
    && (forall i :: 0 <= i < |s| ==> s[i] <= m && forall j :: 0 <= j < Passes(m) ==> Counted(s[i], j))
    && OrderedBy(s, ByDigits(k))
    && Permutation(orig, s) && Stable(orig, s, ByClamp())
  }

  lemma ClampedTies(e: nat)
    requires e > 0
    ensures TiesShareDigit(ClampDigit(e), ByClamp())
  {
  }

  lemma PassIsStable(s: seq<int>, e: nat)
    requires e > 0
    ensures Stable(s, Grouped(s, ClampDigit(e), K), ByClamp())
  {
    hide Grouped, Digit, TiesOf, TiesShareDigit;
    ClampedTies(e);
    forall x ensures TiesOf(s, x, ByClamp()) == TiesOf(Grouped(s, ClampDigit(e), K), x, ByClamp()) {
      GroupedTies(s, ClampDigit(e), K, x, ByClamp());
    }
  }

  /** A pass groups by the digits of the clamped values, and orders one digit more. */
  lemma OnePass(orig: seq<int>, s: seq<int>, m: int, k: nat)
    requires Clamped(orig, s, m, k) && k < Passes(m)
    ensures Ranged(s, IndexAt(PowerOfTen(k)))
    ensures Clamped(orig, Grouped(s, IndexAt(PowerOfTen(k)), K), m, k + 1)
  {
    hide CountingIndex, Counted, Digit, Grouped, Refine, Stable, PowerOfTen, Passes;
    var e := PowerOfTen(k);
    forall i | 0 <= i < |s| ensures IndexAt(e)(s[i]) == ClampDigit(e)(s[i]) {
      ClampedIndex(s[i], k);
    }
    SameGrouped(s, IndexAt(e), ClampDigit(e), K);
    var g := Grouped(s, ClampDigit(e), K);
    GroupedPermutes(s, ClampDigit(e));
    GroupedOrdered(s, ClampDigit(e), K, ByDigits(k));
    PassIsStable(s, e);
    StableTransitive(orig, s, g, ByClamp());
    forall i | 0 <= i < |g| ensures g[i] in s {
      assert g[i] in multiset(g);
    }
    forall i, j | 0 <= i < j < |g| ensures ByDigits(k + 1)(g[i], g[j]) {
      ByOneDigitMore(k, g[i], g[j]);
    }
  }

  lemma ByOneDigitMore(k: nat, x: int, y: int)
    requires Refine(ClampDigit(PowerOfTen(k)), ByDigits(k))(x, y)
    ensures ByDigits(k + 1)(x, y)
  {
    hide Digit;
    RefineMod(PowerOfTen(k), Clamp(x), Clamp(y));
  }

  lemma StartClamped(s: seq<int>, m: int)
    requires s != [] && Inside(s) && m in s && forall i :: 0 <= i < |s| ==> s[i] <= m
    ensures Clamped(s, s, m, 0) && PowerOfTen(0) == 1
  {
    hide Counted, Passes;
    assert m == Largest(s);
    IndicesInside(s);
    StableReflexive(s, ByClamp());
    assert PowerOfTen(0) == 1;
  }

  /** After the last pass the list is ordered by the clamped values. */
  lemma ClampedEnd(orig: seq<int>, s: seq<int>, m: int)
    requires Clamped(orig, s, m, Passes(m))
    ensures Sorted(s, ByClamp()) && Stable(orig, s, ByClamp()) && Permutation(orig, s)
  {
    hide Counted, Stable, PowerOfTen;
    var e := PowerOfTen(Passes(m));
    if m > 0 {
      PassRuns(m, Passes(m));
    }
    forall i, j | 0 <= i < j < |s| ensures !ByClamp()(s[j], s[i]) {
      assert ByDigits(Passes(m))(s[i], s[j]);
      if m > 0 {
        ModUnique(Clamp(s[i]), e, 0, Clamp(s[i]));
        ModUnique(Clamp(s[j]), e, 0, Clamp(s[j]));
      }
    }
  }

  lemma {:induction false} TensAscend(k: nat)
    requires k >= 9
    ensures PowerOfTen(k) >= 1000000000
  {
    if k == 9 {
      TrueTens(9);
      ExpValue(9);
    } else {
      TensAscend(k - 1);
    }
  }

  lemma ProductFits(k: nat)
    requires PowerOfTen(k) < 1000000000
    ensures PowerOfTen(k + 1) == PowerOfTen(k) * K <= 1000000000
  {
    hide Exp;
    if k >= 9 {
      TensAscend(k);
    } else {
      TrueTens(k + 1);
    }
  }

  /**
   The ascending part. No product leaves int and every counting index is inside; the result is
   the stable sort by the clamped values.
   */
  method SortAscending(a: array<int>, b: array<int>)
    requires a.Length == b.Length >= 1 && a != b
    requires Inside(a[..]) && forall i :: 0 <= i < a.Length ==> a[i] < 1000000000
    modifies a, b
    ensures Sorted(a[..], ByClamp()) && Stable(old(a[..]), a[..], ByClamp())
    ensures Permutation(old(a[..]), a[..])
  {
    hide Clamped, Grouped, Inside, Sorted, Permutation, Stable, PowerOfTen, Passes, Counted;
    NumericOrder(true);
    var m := Maximum(a, Numeric(true));
    var exp := 1;
    ghost var k := 0;
    StartClamped(a[..], m);
    NoPasses(m);
    while Quotient(m, exp) > 0
      invariant exp == PowerOfTen(k) && k <= Passes(m) && Clamped(old(a[..]), a[..], m, k)
      decreases Passes(m) - k
    {
      QuotientPositive(m, exp);
      PassRuns(m, k);
      OnePass(old(a[..]), a[..], m, k);
      ProductFits(k);
      Pass(a, b, IndexAt(exp));
      assert exp * K < 0x8000_0000;
      exp := exp * K;
      k := k + 1;
    }
    if m > 0 {
      PassRuns(m, k);
    }
    ClampedEnd(old(a[..]), a[..], m);
  }

  lemma NoPasses(m: int)
    ensures m <= 0 ==> Passes(m) == 0
  {
  }

  lemma QuotientPositive(m: int, e: nat)
    requires e > 0 && Quotient(m, e) > 0
    ensures m > 0
  {
  }

  // ---------------------------------------------------------------- what the result is

  /** The elements that are not positive, in their order. */
  ghost function NonPositive(s: seq<int>): (r: seq<int>) {
    TiesOf(s, 0, ByClamp())
  }

  /** t, read from the end that comes first, is s sorted stably by the clamped values. */
  ghost predicate Result(s: seq<int>, t: seq<int>, ascend: bool) {
    var u := if ascend then t else Backwards(t);
    Sorted(u, ByClamp()) && Stable(s, u, ByClamp())
  }

  method Sort(a: array<int>, ascend: bool)
    requires a.Length >= 1
    requires Inside(a[..]) && forall i :: 0 <= i < a.Length ==> a[i] < 1000000000
    modifies a
    ensures Result(old(a[..]), a[..], ascend)
    ensures Permutation(old(a[..]), a[..])
  {
    hide Sorted, Stable;
    var n := a.Length;
    var b := new int[n];
    SortAscending(a, b);
    if !ascend {
      ghost var s := a[..];
      Reverse(a, b);
      MirroredBack(s, a[..]);
    }
  }

  /** No other list is the result. */
  lemma ResultIsUnique(s: seq<int>, t: seq<int>, t': seq<int>, ascend: bool)
    requires Result(s, t, ascend) && Result(s, t', ascend)
    ensures t == t'
  {
    hide Sorted, Stable;
    var u, u' := if ascend then t else Backwards(t), if ascend then t' else Backwards(t');
    ClampOrder();
    StableSymmetric(s, u, ByClamp());
    StableTransitive(u, s, u', ByClamp());
    StableIsUnique(u, u', ByClamp());
    if !ascend {
      assert t == Backwards(u) && t' == Backwards(u');
    }
  }

  lemma ClampOrder()
    ensures StrictWeakOrder(ByClamp())
  {
  }

  lemma NonPositiveFirst(t: seq<int>)
    requires t != []
    ensures NonPositive(t) == (if t[0] <= 0 then [t[0]] else []) + NonPositive(t[1..])
    ensures forall x :: x in NonPositive(t[1..]) <==> x in t[1..] && x <= 0
  {
    TiesAreMembers(t[1..], 0, ByClamp());
  }

  lemma ClampedFirst(t: seq<int>)
    requires t != [] && Sorted(t, ByClamp())
    ensures Sorted(t[1..], ByClamp())
    ensures forall x :: x in t[1..] && (x > 0 || t[0] > 0) ==> t[0] <= x && x > 0
  {
  }

  /** A list ordered by its clamped values is sorted exactly if its non-positive elements are. */
  lemma {:induction false} ClampedSorted(t: seq<int>)
    requires Sorted(t, ByClamp())
    ensures Sorted(t, Numeric(true)) <==> Sorted(NonPositive(t), Numeric(true))
  {
    if t != [] {
      ClampedFirst(t);
      ClampedSorted(t[1..]);
      hide Sorted, Numeric, NonPositive;
      FirstSorted(t);
      NonPositiveFirst(t);
      if t[0] <= 0 {
        FirstSorted(NonPositive(t));
        assert NonPositive(t)[1..] == NonPositive(t[1..]);
      }
    }
  }

  lemma Ascends(s: seq<int>)
    ensures Sorted(s, Numeric(true)) <==> forall i, j :: 0 <= i < j < |s| ==> s[i] <= s[j]
  {
  }

  lemma FirstSorted(t: seq<int>)
    requires t != []
    ensures Sorted(t, Numeric(true)) <==> Sorted(t[1..], Numeric(true)) && forall x :: x in t[1..] ==> t[0] <= x
  {
    hide Sorted, Numeric;
    var rest := t[1..];
    Ascends(t);
    Ascends(rest);
    if Sorted(rest, Numeric(true)) && forall x :: x in rest ==> t[0] <= x {
      forall i, j | 0 <= i < j < |t| ensures t[i] <= t[j] {
        assert t[j] == rest[j - 1] && rest[j - 1] in rest;
        assert i > 0 ==> t[i] == rest[i - 1];
      }
    }
    if Sorted(t, Numeric(true)) {
      forall i, j | 0 <= i < j < |rest| ensures rest[i] <= rest[j] {
        assert rest[i] == t[i + 1] && rest[j] == t[j + 1];
      }
    }
  }

  /** The result is sorted exactly if the non-positive elements were given in ascending order. */
  lemma SortedExactly(s: seq<int>, t: seq<int>, ascend: bool)
    requires Result(s, t, ascend)
    ensures Sorted(t, Numeric(ascend)) <==> Sorted(NonPositive(s), Numeric(true))
  {
    hide TiesOf, Sorted, Backwards, Numeric, ByClamp;
    var u := if ascend then t else Backwards(t);
    ClampedSorted(u);
    assert NonPositive(s) == NonPositive(u);
    if !ascend {
      BackwardsSorted(t);
    }
  }

  lemma Descends(s: seq<int>)
    ensures Sorted(s, Numeric(false)) <==> forall i, j :: 0 <= i < j < |s| ==> s[i] >= s[j]
  {
  }

  lemma BackwardsSorted(t: seq<int>)
    ensures Sorted(t, Numeric(false)) <==> Sorted(Backwards(t), Numeric(true))
  {
    hide Sorted, Numeric;
    var u := Backwards(t);
    Descends(t);
    Ascends(u);
    if Sorted(u, Numeric(true)) {
      forall i, j | 0 <= i < j < |t| ensures t[i] >= t[j] {
        assert t[i] == u[|t| - 1 - i] && t[j] == u[|t| - 1 - j];
      }
    }
  }

  /** Naturals stay inside the counters, and are sorted. */
  lemma NaturalsAreSorted(s: seq<int>)
    requires s != [] && forall i :: 0 <= i < |s| ==> s[i] >= 0
    ensures Inside(s) && Sorted(NonPositive(s), Numeric(true))
  {
    TiesAreMembers(s, 0, ByClamp());
    forall i | 0 <= i < |NonPositive(s)| ensures NonPositive(s)[i] == 0 {
      assert NonPositive(s)[i] in s;
    }
  }

  /** Without a positive element no pass runs and the list comes back as it was. */
  lemma NothingPositive(s: seq<int>, t: seq<int>)
    requires s != [] && forall i :: 0 <= i < |s| ==> s[i] <= 0
    ensures Inside(s) && (Result(s, t, true) <==> t == s)
  {
    hide Stable;
    assert PowerOfTen(0) == 1;
    StableReflexive(s, ByClamp());
    if Result(s, t, true) {
      ResultIsUnique(s, s, t, true);
    }
  }

  /** The first element of [-1, 5] asks for counter -1; both elements of [-10, 5] count as they should. */
  lemma BelowTheCounters()
    ensures CountingIndex(-1, PowerOfTen(0)) == -1 && Passes(5) == 1
    ensures !Inside([-1, 5]) && Inside([-10, 5])
  {
    assert PowerOfTen(0) == 1 && PowerOfTen(1) == K * PowerOfTen(0);
    assert 5 / K == 0 && Passes(5) == 1 + Passes(0);
    var s, t := [-1, 5], [-10, 5];
    assert s[0] % PowerOfTen(1) != 0;
  }
}

/** LSD radix sort in base ten, the unsigned copy: `exp *= K` wraps modulo 2^32. */
module RadixSort {
  import opened Ordering
  import opened RadixPass

  const WORD := 0x1_0000_0000

  /** The 24th divisor, 10^23 modulo 2^32: the sort works exactly for lists whose maximum is below it. */
  const LIMIT := 4135583744

  function Digit(x: nat, e: nat): (d: nat)
    requires e > 0
    ensures d < K
  {
    (x / e) % K
  }

  /** The counting index of a pass with divisor e. */
  function DigitAt(e: nat): (dig: nat -> int)
    requires e > 0
  {
    (x: nat) => Digit(x, e)
  }

  lemma DigitsInRange(s: seq<nat>, e: nat)
    requires e > 0
    ensures Ranged(s, DigitAt(e))
  {
  }

  // ---------------------------------------------------------------- the wrapping divisor

  /** exp after k passes: repeated `exp *= K` on a 32-bit word. */
  function Exp(k: nat): (e: nat)
    ensures e < WORD
  {
    if k == 0 then 1 else Exp(k - 1) * K % WORD
  }

  function PowerOfTen(k: nat): (p: nat)
    ensures p >= 1
  {
    if k == 0 then 1 else K * PowerOfTen(k - 1)
  }

  /** The divisors by value: powers of ten up to 10^9, wrapped products after that, zero at the end. */
  const DIVISORS: seq<nat> := [
    1, 10, 100, 1000, 10000, 100000, 1000000, 10000000, 100000000,
    1000000000, 1410065408, 1215752192, 3567587328, 1316134912, 276447232, 2764472320, 1874919424, 1569325056,
    2808348672, 2313682944, 1661992960, 3735027712, 2990538752, 4135583744, 2701131776, 1241513984, 3825205248,
    3892314112, 268435456, 2684354560, 1073741824, 2147483648, 0
  ]

  lemma {:induction false} ExpValue(k: nat)
    requires k <= 32
    ensures Exp(k) == DIVISORS[k]
  {
    if k > 0 {
      ExpValue(k - 1);
      DivisorStep(k);
    }
  }

  lemma TrueTens(k: nat)
    requires k <= 9
    ensures Exp(k) == PowerOfTen(k) && PowerOfTen(k) <= 1000000000
  {
    if k > 0 {
      TrueTens(k - 1);
      ExpValue(k);
      ExpValue(k - 1);
    }
  }

  lemma DivisorStep(k: nat)
    requires 0 < k <= 32
    ensures DIVISORS[k] == DIVISORS[k - 1] * K % WORD
  {
  }

  /**
   Exactness of the bound: at or above LIMIT no divisor ever exceeds the maximum, so the loop
   test reaches `m / 0` on its 33rd evaluation; below it some divisor ends the loop.
   */
  lemma DivisorReachesZero(m: nat)
    requires m < WORD
    ensures m >= LIMIT <==> forall k :: 0 <= k <= 31 ==> 0 < Exp(k) <= m
    ensures Exp(32) == 0
  {
    hide Exp;
    ExpValue(23);
    ExpValue(32);
    forall k | 0 <= k <= 31 ensures 0 < Exp(k) <= LIMIT {
      ExpValue(k);
    }
  }

  // ---------------------------------------------------------------- what each pass achieves

  ghost predicate ByValue(x: nat, y: nat) {
    x <= y
  }

  /**
   The order established by the first k passes: value modulo 10^k while the divisor is a
   true power of ten, value from then on. Only the 15th pass disturbs it, because its divisor
   leaves quotients above nine, and the 16th pass repairs that.
   */
  ghost function RankAfter(k: nat): (r: (nat, nat) -> bool)
    requires k <= 23
  {
    ExpValue(14);
    if k <= 9 then (x: nat, y: nat) => x % PowerOfTen(k) <= y % PowerOfTen(k)
    else if k == 15 then Refine<nat>(DigitAt(Exp(14)), ByValue)
    else ByValue
  }

  lemma MulGap(m: nat, a: nat, b: nat)
    requires a < b
    ensures m * a + m <= m * b
  {
    var d: nat := b - a - 1;
    assert m * b == m * (a + 1 + d) == m * a + m + m * d;
  }

  lemma ModUnique(x: nat, m: nat, t: nat, r: nat)
    requires 0 <= r < m && x == m * t + r
    ensures x % m == r && x / m == t
  {
    var t' := x / m;
    assert x == m * t' + x % m;
    if t < t' {
      MulGap(m, t, t');
    } else if t' < t {
      MulGap(m, t', t);
    }
  }

  lemma ModSplit(x: nat, e: nat)
    requires e > 0
    ensures x % (K * e) == e * Digit(x, e) + x % e
    ensures x / (K * e) == x / e / K
  {
    var q, r := x / e, x % e;
    var t, d := q / K, q % K;
    assert x == e * q + r;
    assert e * q == (K * e) * t + e * d by {
      assert q == K * t + d;
    }
    MulGap(e, d, K);
    ModUnique(x, K * e, t, e * d + r);
  }

  lemma GroupThenRest(e: nat, dx: nat, rx: nat, dy: nat, ry: nat)
    requires rx < e && ry < e && (dx < dy || (dx == dy && rx <= ry))
    ensures e * dx + rx <= e * dy + ry
  {
    if dx < dy {
      MulGap(e, dx, dy);
    }
  }

  /** Digit first, remainder second is the order modulo ten times the divisor. */
  lemma RefineMod(e: nat, x: nat, y: nat)
    requires e > 0 && Refine<nat>(DigitAt(e), (u: nat, v: nat) => u % e <= v % e)(x, y)
    ensures x % (K * e) <= y % (K * e)
  {
    hide Digit;
    ModSplit(x, e);
    ModSplit(y, e);
    GroupThenRest(e, Digit(x, e), x % e, Digit(y, e), y % e);
  }

  /** A number below ten times the divisor is its digit and its remainder. */
  lemma OneDigit(x: nat, e: nat)
    requires 0 < e && x < K * e
    ensures x == e * Digit(x, e) + x % e
  {
    hide Digit;
    ModSplit(x, e);
    ModUnique(x, K * e, 0, x);
  }

  /** Dividing by a divisor with only one-digit quotients keeps the order by value. */
  lemma RefineValue(e: nat, x: nat, y: nat)
    requires 0 < e && x < K * e && y < K * e && Refine<nat>(DigitAt(e), ByValue)(x, y)
    ensures ByValue(x, y)
  {
    hide Digit;
    OneDigit(x, e);
    OneDigit(y, e);
    if Digit(x, e) < Digit(y, e) {
      GroupThenRest(e, Digit(x, e), x % e, Digit(y, e), y % e);
    }
  }

  /** The repairing pass: a disturbed order by value, then a divisor exactly ten times larger. */
  lemma RefineTwice(e: nat, f: nat, x: nat, y: nat)
    requires 0 < e && f == K * e && x < K * f && y < K * f
    requires Refine<nat>(DigitAt(f), Refine<nat>(DigitAt(e), ByValue))(x, y)
    ensures ByValue(x, y)
  {
    hide Digit;
    OneDigit(x, f);
    OneDigit(y, f);
    ModSplit(x, e);
    ModSplit(y, e);
    if Digit(x, e) < Digit(y, e) {
      GroupThenRest(e, Digit(x, e), x % e, Digit(y, e), y % e);
    }
    if Digit(x, f) < Digit(y, f) {
      GroupThenRest(f, Digit(x, f), x % f, Digit(y, f), y % f);
    }
  }

  lemma PassRefines(k: nat, x: nat, y: nat)
    requires k <= 22 && x < LIMIT && y < LIMIT
    requires Exp(k) > 0 && Refine<nat>(DigitAt(Exp(k)), RankAfter(k))(x, y)
    ensures RankAfter(k + 1)(x, y)
  {
    hide Exp, Digit;
    ExpValue(k);
    if k <= 9 {
      TrueTens(k);
      RefineMod(Exp(k), x, y);
      if k == 9 {
        assert x % 10000000000 <= y % 10000000000;
      }
    } else if k == 15 {
      ExpValue(14);
      RefineTwice(Exp(14), Exp(15), x, y);
    } else if k != 14 {
      RefineValue(Exp(k), x, y);
    }
  }

  /** One pass carries the whole list from one order to the next. */
  lemma PassOrders(s: seq<nat>, k: nat)
    requires k <= 22 && Exp(k) > 0
    requires forall i :: 0 <= i < |s| ==> s[i] < LIMIT
    requires OrderedBy(s, RankAfter(k))
    ensures OrderedBy(Grouped<nat>(s, DigitAt(Exp(k)), K), RankAfter(k + 1))
    ensures forall i :: 0 <= i < |s| ==>
              |Grouped<nat>(s, DigitAt(Exp(k)), K)| == |s| && Grouped<nat>(s, DigitAt(Exp(k)), K)[i] in s
  {
    hide Exp, Digit, Grouped, RankAfter, Refine;
    var g := Grouped<nat>(s, DigitAt(Exp(k)), K);
    DigitsInRange(s, Exp(k));
    GroupedOrdered(s, DigitAt(Exp(k)), K, RankAfter(k));
    GroupedPermutes(s, DigitAt(Exp(k)));
    forall i | 0 <= i < |g| ensures g[i] in s && g[i] < LIMIT {
      assert g[i] in multiset(g);
    }
    forall i, j | 0 <= i < j < |g| ensures RankAfter(k + 1)(g[i], g[j]) {
      PassRefines(k, g[i], g[j]);
    }
  }

  lemma NextDivisor(k: nat)
    requires k <= 22
    ensures Exp(k + 1) == Exp(k) * K % WORD > 0 && Exp(23) == LIMIT
  {
    hide Exp;
    ExpValue(k);
    ExpValue(k + 1);
    DivisorStep(k + 1);
    ExpValue(23);
  }

  /** The strict test on machine integers. */
  function Natural(ascend: bool): (r: (nat, nat) -> bool) {
    (x, y) => if ascend then x < y else x > y
  }

  lemma NaturalOrder(ascend: bool)
    ensures StrictWeakOrder(Natural(ascend))
  {
  }

  /** What holds each time the loop test is evaluated, after k passes over `orig` with maximum m. */
  ghost predicate AfterPasses(orig: seq<nat>, s: seq<nat>, m: nat, k: nat) {
    && k <= 23 && m < LIMIT
    && (forall j :: 0 <= j < k ==> Exp(j) <= m)
    && (forall i :: 0 <= i < |s| ==> s[i] <= m)
    && OrderedBy(s, RankAfter(k))
    && Permutation(orig, s)
  }

  lemma LoopTest(m: nat, e: nat)
    requires e > 0
    ensures m / e > 0 <==> e <= m
  {
    if e <= m {
      MulGap(e, 0, 1);
    } else {
      ModUnique(m, e, 0, m);
    }
  }

  lemma StartPasses(s: seq<nat>, m: nat)
    requires m < LIMIT && forall i :: 0 <= i < |s| ==> s[i] <= m
    ensures AfterPasses(s, s, m, 0) && Exp(0) == 1
  {
    assert PowerOfTen(0) == 1;
  }

  lemma OnePassMore(orig: seq<nat>, s: seq<nat>, m: nat, k: nat)
    requires AfterPasses(orig, s, m, k) && 0 < Exp(k) <= m
    ensures k <= 22 && Exp(k + 1) == Exp(k) * K % WORD > 0
    ensures AfterPasses(orig, Grouped<nat>(s, DigitAt(Exp(k)), K), m, k + 1)
  {
    hide Exp, Digit, Grouped, RankAfter, Refine;
    ExpValue(23);
    NextDivisor(if k <= 22 then k else 22);
    PassOrders(s, k);
    DigitsInRange(s, Exp(k));
    GroupedPermutes(s, DigitAt(Exp(k)));
  }

  /** When the loop test fails, the order reached is the order by value. */
  lemma LoopEndSorted(orig: seq<nat>, s: seq<nat>, k: nat, m: nat)
    requires AfterPasses(orig, s, m, k) && Exp(k) > m
    ensures OrderedBy(s, ByValue) && Permutation(orig, s)
  {
    hide Exp;
    ExpValue(k);
    ExpValue(12);
    if k <= 9 {
      TrueTens(k);
      forall i, j | 0 <= i < j < |s| ensures ByValue(s[i], s[j]) {
        ModUnique(s[i], PowerOfTen(k), 0, s[i]);
        ModUnique(s[j], PowerOfTen(k), 0, s[j]);
      }
    }
  }

  /**
   The ascending part: the divisor runs through Exp(0), Exp(1), ... until it exceeds the
   maximum. Every division is by a positive number and every counting index is in range.
   */
  method SortAscending(a: array<nat>, b: array<nat>)
    requires a.Length == b.Length >= 1 && a != b
    requires forall i :: 0 <= i < a.Length ==> a[i] < LIMIT
    modifies a, b
    ensures OrderedBy(a[..], ByValue)
    ensures Permutation(old(a[..]), a[..])
  {
    hide Exp, Digit, Grouped, AfterPasses;
    NaturalOrder(true);
    var m := Maximum(a, Natural(true));
    var exp := 1;
    ghost var k := 0;
    StartPasses(a[..], m);
    while m / exp > 0
      invariant exp == Exp(k) > 0 && AfterPasses(old(a[..]), a[..], m, k)
      decreases 24 - k
    {
      LoopTest(m, exp);
      OnePassMore(old(a[..]), a[..], m, k);
      DigitsInRange(a[..], exp);
      Pass(a, b, DigitAt(exp));
      exp := exp * K % WORD;
      k := k + 1;
    }
    LoopTest(m, exp);
    LoopEndSorted(old(a[..]), a[..], k, m);
  }

  method Sort(a: array<nat>, ascend: bool)
    requires a.Length >= 1
    requires forall i :: 0 <= i < a.Length ==> a[i] < LIMIT
    modifies a
    ensures Sorted(a[..], Natural(ascend))
    ensures forall i, j :: 0 <= i < j < a.Length ==> if ascend then a[i] <= a[j] else a[i] >= a[j]
    ensures Permutation(old(a[..]), a[..]) && multiset(a[..]) == multiset(old(a[..]))
  {
    var n := a.Length;
    var b := new nat[n];
    SortAscending(a, b);
    if !ascend {
      Reverse(a, b);
    }
  }

  /**
   The signed copy has the same divisors as long as no product wraps: with a maximum below 10^9
   every product an executed pass computes is a true power of ten that a signed int holds, and
   with a larger maximum the tenth pass runs and computes 10^10.
   */
  lemma SignedProductFits(m: nat)
    requires m < 0x8000_0000
    ensures m < 1000000000 <==>
            forall k :: 0 <= k <= 31 && (forall j :: 0 <= j <= k ==> 0 < Exp(j) <= m) ==> Exp(k) * K < 0x8000_0000
  {
    hide Exp;
    ExpValue(9);
    forall k | 0 <= k <= 9 ensures 0 < Exp(k) <= 1000000000 && (k <= 8 ==> Exp(k) * K < 0x8000_0000) {
      TrueTens(k);
      ExpValue(k);
    }
  }
}

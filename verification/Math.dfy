/**
 Rounding up to a power of two by smearing the top bit downwards, and the power-of-two test.
 */
module Math {

  const TOP: bv64 := 0x8000_0000_0000_0000
  const ONES: bv64 := 0xffff_ffff_ffff_ffff

  /** The powers of two that fit in 64 bits. */
  function Power(k: bv64): (r: bv64)
    requires k < 64
  {
    1 << k
  }

  ghost predicate PowerOfTwo(p: bv64) {
    exists k: bv64 :: k < 64 && p == Power(k)
  }

  /** p is the smallest power of two that is not below v. */
  ghost predicate RoundsUp(v: bv64, p: bv64) {
    && PowerOfTwo(p)
    && v <= p
    && forall q :: PowerOfTwo(q) && v <= q ==> p <= q
  }

  function Minus1(x: bv64): (r: bv64) { x - 1 }

  function Plus1(x: bv64): (r: bv64) { x + 1 }

  function Half(x: bv64): (r: bv64) { x >> 1 }

  function Double(x: bv64): (r: bv64) { x << 1 }

  /** One step of the smear: the bits of x, and again n places lower. */
  function Spread(x: bv64, n: bv64): (r: bv64)
    requires n <= 64
  {
    x | (x >> n)
  }

  function Smear(x: bv64): (r: bv64) {
    Spread(Spread(Spread(Spread(Spread(Spread(x, 1), 2), 4), 8), 16), 32)
  }

  // ------------------------------------------------ masks

  /** The words whose one bits are exactly the lowest ones. */
  predicate Mask(s: bv64) {
    s | (s >> 1) == s
  }

  /** No bit of x lies outside t. */
  predicate Under(x: bv64, t: bv64) {
    x | t == t
  }

  lemma SmearIsMask(x: bv64)
    ensures Mask(Smear(x))
  {
  }

  lemma SmearCovers(x: bv64)
    ensures Under(x, Smear(x))
  {
  }

  lemma SpreadStays1(x: bv64, t: bv64)
    requires Mask(t) && Under(x, t)
    ensures Under(Spread(x, 1), t)
  {
  }

  lemma SpreadStays2(x: bv64, t: bv64)
    requires Mask(t) && Under(x, t)
    ensures Under(Spread(x, 2), t)
  {
  }

  lemma SpreadStays4(x: bv64, t: bv64)
    requires Mask(t) && Under(x, t)
    ensures Under(Spread(x, 4), t)
  {
  }

  lemma SpreadStays8(x: bv64, t: bv64)
    requires Mask(t) && Under(x, t)
    ensures Under(Spread(x, 8), t)
  {
  }

  lemma SpreadStays16(x: bv64, t: bv64)
    requires Mask(t) && Under(x, t)
    ensures Under(Spread(x, 16), t)
  {
  }

  lemma SpreadStays32(x: bv64, t: bv64)
    requires Mask(t) && Under(x, t)
    ensures Under(Spread(x, 32), t)
  {
  }

  /** The smear is the smallest mask that holds the word. */
  lemma SmearIsLeast(x: bv64, t: bv64)
    requires Mask(t)
    ensures Under(x, t) <==> Under(Smear(x), t)
  {
    hide Mask, Under, Spread;
    SmearCovers(x);
    if Under(x, t) {
      SpreadStays1(x, t);
      SpreadStays2(Spread(x, 1), t);
      SpreadStays4(Spread(Spread(x, 1), 2), t);
      SpreadStays8(Spread(Spread(Spread(x, 1), 2), 4), t);
      SpreadStays16(Spread(Spread(Spread(Spread(x, 1), 2), 4), 8), t);
      SpreadStays32(Spread(Spread(Spread(Spread(Spread(x, 1), 2), 4), 8), 16), t);
    } else if Under(Smear(x), t) {
      UnderChains(x, Smear(x), t);
    }
  }

  lemma UnderChains(x: bv64, s: bv64, t: bv64)
    requires Under(x, s) && Under(s, t)
    ensures Under(x, t)
  {
  }

  // ------------------------------------------------ words with a single bit

  predicate SingleBit(p: bv64) {
    p != 0 && p & (p - 1) == 0
  }

  lemma OddSingleBit(p: bv64)
    requires SingleBit(p) && p & 1 == 1
    ensures p == 1
  {
  }

  lemma HalfSingleBit(p: bv64)
    requires SingleBit(p) && p & 1 == 0
    ensures SingleBit(Half(p))
  {
  }

  lemma HalfDoubles(p: bv64)
    requires p & 1 == 0
    ensures p == Double(Half(p))
  {
  }

  lemma LowBit(p: bv64)
    ensures p & 1 == 0 || p & 1 == 1
  {
  }

  lemma HalfSmaller(p: bv64)
    requires p != 0
    ensures Half(p) < p
  {
  }

  lemma PowerIsSingleBit(k: bv64)
    requires k < 64
    ensures SingleBit(Power(k))
  {
  }

  lemma DoublePower(k: bv64)
    requires k < 64 && Double(Power(k)) != 0
    ensures k < 63
    ensures Power(k + 1) == Double(Power(k))
  {
  }

  lemma {:induction false} SingleBitIsPower(p: bv64)
    requires SingleBit(p)
    ensures PowerOfTwo(p)
    decreases p
  {
    hide Half, Double, Power;
    LowBit(p);
    if p & 1 == 1 {
      OddSingleBit(p);
      assert p == Power(0) by { PowerZero(); }
    } else {
      HalfSingleBit(p);
      HalfDoubles(p);
      HalfSmaller(p);
      SingleBitIsPower(Half(p));
      var k: bv64 :| k < 64 && Half(p) == Power(k);
      DoublePower(k);
      assert p == Power(k + 1);
    }
  }

  lemma PowerZero()
    ensures Power(0) == 1
  {
  }

  // ------------------------------------------------ the two functions

  predicate IsPow2(value: bv64) {
    value >= 2 && value & (value - 1) == 0
  }

  lemma IsPow2Bits(value: bv64)
    ensures IsPow2(value) <==> SingleBit(value) && value >= 2
  {
  }

  lemma PowerAtLeastTwo(k: bv64)
    requires k < 64
    ensures Power(k) >= 2 <==> k >= 1
  {
  }

  /** The test accepts exactly the powers of two from the first one on: 1 is not accepted. */
  lemma IsPow2Exactly(value: bv64)
    ensures IsPow2(value) <==> exists k: bv64 :: 1 <= k < 64 && value == Power(k)
  {
    hide IsPow2, SingleBit, Power;
    IsPow2Bits(value);
    if IsPow2(value) {
      SingleBitIsPower(value);
      var k: bv64 :| k < 64 && value == Power(k);
      PowerAtLeastTwo(k);
    }
    forall k: bv64 | 1 <= k < 64 && value == Power(k) ensures IsPow2(value) {
      PowerIsSingleBit(k);
      PowerAtLeastTwo(k);
    }
  }

  lemma AfterMask(s: bv64)
    requires Mask(s) && s != ONES
    ensures SingleBit(Plus1(s))
  {
  }

  lemma BeforeSingleBit(p: bv64)
    requires SingleBit(p)
    ensures Mask(Minus1(p))
  {
  }

  lemma ComesBeforeBits(v: bv64, p: bv64)
    requires v != 0 && v <= p
    ensures v - 1 < p
  {
  }

  lemma ComesBefore(v: bv64, p: bv64)
    requires v != 0 && v <= p
    ensures Minus1(v) < p
  {
    ComesBeforeBits(v, p);
  }

  lemma BelowSingleBit(x: bv64, p: bv64)
    requires SingleBit(p) && x < p
    ensures Under(x, Minus1(p))
  {
  }

  /** Below a single-bit word everything fits under the mask of its lower bits. */
  lemma UnderBefore(v: bv64, p: bv64)
    requires v != 0 && v <= p && SingleBit(p)
    ensures Under(Minus1(v), Minus1(p))
  {
    hide *;
    ComesBefore(v, p);
    BelowSingleBit(Minus1(v), p);
  }

  lemma AboveMask(v: bv64, s: bv64)
    requires Mask(s) && s != ONES && Under(Minus1(v), s)
    ensures v <= Plus1(s)
  {
  }

  lemma AtMostSingleBit(s: bv64, p: bv64)
    requires SingleBit(p) && Under(s, Minus1(p))
    ensures Plus1(s) <= p
  {
  }

  lemma SmallBefore(v: bv64)
    ensures 1 <= v <= TOP <==> Minus1(v) <= Minus1(TOP)
  {
  }

  lemma TopMask()
    ensures Mask(Minus1(TOP)) && Minus1(TOP) != ONES && Plus1(ONES) == 0
  {
  }

  lemma FullMask(s: bv64)
    requires Mask(s) && !Under(s, Minus1(TOP))
    ensures s == ONES
  {
  }

  lemma SmallIsUnder(x: bv64)
    ensures x <= Minus1(TOP) <==> Under(x, Minus1(TOP))
  {
  }

  lemma OnesAbove()
    ensures !Under(ONES, Minus1(TOP))
  {
  }

  lemma SmearFits(v: bv64)
    requires 1 <= v <= TOP
    ensures Smear(Minus1(v)) != ONES
  {
    hide *;
    TopMask();
    SmallBefore(v);
    SmallIsUnder(Minus1(v));
    SmearIsLeast(Minus1(v), Minus1(TOP));
    OnesAbove();
  }

  lemma NothingBetween(v: bv64, q: bv64)
    requires 1 <= v <= q && PowerOfTwo(q)
    ensures Plus1(Smear(Minus1(v))) <= q
  {
    hide *;
    PowerBits(q);
    BeforeSingleBit(q);
    UnderBefore(v, q);
    SmearIsLeast(Minus1(v), Minus1(q));
    AtMostSingleBit(Smear(Minus1(v)), q);
  }

  lemma SmearIsPower(x: bv64)
    requires Smear(x) != ONES
    ensures PowerOfTwo(Plus1(Smear(x)))
  {
    hide *;
    SmearIsMask(x);
    AfterMask(Smear(x));
    SingleBitIsPower(Plus1(Smear(x)));
  }

  lemma SmearIsAbove(v: bv64)
    requires Smear(Minus1(v)) != ONES
    ensures v <= Plus1(Smear(Minus1(v)))
  {
    hide *;
    SmearIsMask(Minus1(v));
    SmearCovers(Minus1(v));
    AboveMask(v, Smear(Minus1(v)));
  }

  /** One more than the smear rounds up, as long as the result fits. */
  lemma SmearRoundsUp(v: bv64)
    requires 1 <= v <= TOP
    ensures RoundsUp(v, Plus1(Smear(Minus1(v))))
  {
    hide Smear, PowerOfTwo, Plus1, Minus1;
    SmearFits(v);
    SmearIsPower(Minus1(v));
    SmearIsAbove(v);
    forall q | PowerOfTwo(q) && v <= q ensures Plus1(Smear(Minus1(v))) <= q {
      NothingBetween(v, q);
    }
  }

  lemma NotZero(p: bv64)
    requires SingleBit(p)
    ensures p != 0
  {
  }

  lemma PowerBits(q: bv64)
    requires PowerOfTwo(q)
    ensures SingleBit(q)
  {
    hide SingleBit, Power;
    var k: bv64 :| k < 64 && q == Power(k);
    PowerIsSingleBit(k);
  }

  /** Outside the range that rounds up, everything overflows to 0. */
  lemma SmearOverflows(v: bv64)
    requires !(1 <= v <= TOP)
    ensures Plus1(Smear(Minus1(v))) == 0
  {
    hide Smear, Mask, Under, Plus1, Minus1;
    SmearIsMask(Minus1(v));
    TopMask();
    SmallBefore(v);
    SmallIsUnder(Minus1(v));
    SmearIsLeast(Minus1(v), Minus1(TOP));
    FullMask(Smear(Minus1(v)));
  }

  lemma ZeroIsNoPower()
    ensures !PowerOfTwo(0)
  {
    hide SingleBit, PowerOfTwo;
    if PowerOfTwo(0) {
      PowerBits(0);
      NotZero(0);
    }
  }

  lemma RoundedAccepted(value: bv64, r: bv64)
    requires RoundsUp(value, r)
    ensures IsPow2(r) <==> value >= 2
  {
    hide IsPow2, SingleBit, PowerOfTwo, Power;
    IsPow2Bits(r);
    PowerBits(r);
    OneIsPower();
    if value >= 2 {
      TwoStep(value, r);
    } else {
      OneStep(value, r);
    }
  }

  lemma OneIsPower()
    ensures PowerOfTwo(1)
  {
    PowerZero();
  }

  lemma TwoStep(value: bv64, r: bv64)
    requires 2 <= value && value <= r
    ensures r >= 2
  {
  }

  lemma OneStep(value: bv64, r: bv64)
    requires !(value >= 2)
    ensures value <= 1 && (r <= 1 ==> !(r >= 2))
  {
  }

  /** The zero argument, for which the header announces 1, and arguments above the largest power give 0. */
  method NextPow2(value: bv64) returns (r: bv64)
    ensures RoundsUp(value, r) <==> 1 <= value <= TOP
    ensures !(1 <= value <= TOP) ==> r == 0
    ensures IsPow2(r) <==> 2 <= value <= TOP
  {
    hide Spread, Plus1, Minus1, IsPow2, RoundsUp;
    var v := Minus1(value);
    v := Spread(v, 1);
    v := Spread(v, 2);
    v := Spread(v, 4);
    v := Spread(v, 8);
    v := Spread(v, 16);
    v := Spread(v, 32);
    r := Plus1(v);
    NextPow2Cases(value);
  }

  lemma NextPow2Cases(value: bv64)
    ensures var r := Plus1(Smear(Minus1(value)));
      && (RoundsUp(value, r) <==> 1 <= value <= TOP)
      && (!(1 <= value <= TOP) ==> r == 0)
      && (IsPow2(r) <==> 2 <= value <= TOP)
  {
    hide Smear, Plus1, Minus1, IsPow2, RoundsUp;
    if 1 <= value <= TOP {
      SmearRoundsUp(value);
      RoundedAccepted(value, Plus1(Smear(Minus1(value))));
    } else {
      SmearOverflows(value);
      ZeroNotAccepted(value);
    }
  }

  lemma ZeroNotAccepted(value: bv64)
    ensures !IsPow2(0) && !RoundsUp(value, 0)
  {
    hide PowerOfTwo;
    ZeroIsNoPower();
  }
}

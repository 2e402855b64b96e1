/**
 Bitwise words: to show that two 32-bit words computed by logical operations are equal it is
 enough to compare them bit by bit, where each operation is its truth table.
 */
module WordBits {

  /** A machine word. */
  datatype Word = Word(bits: bv32)

  function XorBits(x: bv32, y: bv32): (r: bv32) { x ^ y }

  function AndBits(x: bv32, y: bv32): (r: bv32) { x & y }

  function OrBits(x: bv32, y: bv32): (r: bv32) { x | y }

  function NotBits(x: bv32): (r: bv32) { !x }

  function Xor(x: Word, y: Word): (r: Word) { Word(XorBits(x.bits, y.bits)) }

  function And(x: Word, y: Word): (r: Word) { Word(AndBits(x.bits, y.bits)) }

  function Or(x: Word, y: Word): (r: Word) { Word(OrBits(x.bits, y.bits)) }

  function Not(x: Word): (r: Word) { Word(NotBits(x.bits)) }

  /** A mask that selects a single bit. */
  predicate OneHot(m: bv32) {
    || m == 0x1 || m == 0x2 || m == 0x4 || m == 0x8 || m == 0x10 || m == 0x20 || m == 0x40 || m == 0x80
    || m == 0x100 || m == 0x200 || m == 0x400 || m == 0x800 || m == 0x1000 || m == 0x2000 || m == 0x4000 || m == 0x8000
    || m == 0x10000 || m == 0x20000 || m == 0x40000 || m == 0x80000
    || m == 0x100000 || m == 0x200000 || m == 0x400000 || m == 0x800000
    || m == 0x1000000 || m == 0x2000000 || m == 0x4000000 || m == 0x8000000
    || m == 0x10000000 || m == 0x20000000 || m == 0x40000000 || m == 0x80000000
  }

  lemma Masks()
    ensures OneHot(0x1) && OneHot(0x2) && OneHot(0x4) && OneHot(0x8)
    ensures OneHot(0x10) && OneHot(0x20) && OneHot(0x40) && OneHot(0x80)
    ensures OneHot(0x100) && OneHot(0x200) && OneHot(0x400) && OneHot(0x800)
    ensures OneHot(0x1000) && OneHot(0x2000) && OneHot(0x4000) && OneHot(0x8000)
    ensures OneHot(0x10000) && OneHot(0x20000) && OneHot(0x40000) && OneHot(0x80000)
    ensures OneHot(0x100000) && OneHot(0x200000) && OneHot(0x400000) && OneHot(0x800000)
    ensures OneHot(0x1000000) && OneHot(0x2000000) && OneHot(0x4000000) && OneHot(0x8000000)
    ensures OneHot(0x10000000) && OneHot(0x20000000) && OneHot(0x40000000) && OneHot(0x80000000)
  {
  }

  lemma SameMasks(x: bv32, y: bv32)
    requires AndBits(x, 0x1) == AndBits(y, 0x1) && AndBits(x, 0x2) == AndBits(y, 0x2)
    requires AndBits(x, 0x4) == AndBits(y, 0x4) && AndBits(x, 0x8) == AndBits(y, 0x8)
    requires AndBits(x, 0x10) == AndBits(y, 0x10) && AndBits(x, 0x20) == AndBits(y, 0x20)
    requires AndBits(x, 0x40) == AndBits(y, 0x40) && AndBits(x, 0x80) == AndBits(y, 0x80)
    requires AndBits(x, 0x100) == AndBits(y, 0x100) && AndBits(x, 0x200) == AndBits(y, 0x200)
    requires AndBits(x, 0x400) == AndBits(y, 0x400) && AndBits(x, 0x800) == AndBits(y, 0x800)
    requires AndBits(x, 0x1000) == AndBits(y, 0x1000) && AndBits(x, 0x2000) == AndBits(y, 0x2000)
    requires AndBits(x, 0x4000) == AndBits(y, 0x4000) && AndBits(x, 0x8000) == AndBits(y, 0x8000)
    requires AndBits(x, 0x10000) == AndBits(y, 0x10000) && AndBits(x, 0x20000) == AndBits(y, 0x20000)
    requires AndBits(x, 0x40000) == AndBits(y, 0x40000) && AndBits(x, 0x80000) == AndBits(y, 0x80000)
    requires AndBits(x, 0x100000) == AndBits(y, 0x100000) && AndBits(x, 0x200000) == AndBits(y, 0x200000)
    requires AndBits(x, 0x400000) == AndBits(y, 0x400000) && AndBits(x, 0x800000) == AndBits(y, 0x800000)
    requires AndBits(x, 0x1000000) == AndBits(y, 0x1000000) && AndBits(x, 0x2000000) == AndBits(y, 0x2000000)
    requires AndBits(x, 0x4000000) == AndBits(y, 0x4000000) && AndBits(x, 0x8000000) == AndBits(y, 0x8000000)
    requires AndBits(x, 0x10000000) == AndBits(y, 0x10000000) && AndBits(x, 0x20000000) == AndBits(y, 0x20000000)
    requires AndBits(x, 0x40000000) == AndBits(y, 0x40000000) && AndBits(x, 0x80000000) == AndBits(y, 0x80000000)
    ensures x == y
  {
  }

  lemma MaskValue(x: bv32, m: bv32)
    requires OneHot(m)
    ensures m != 0 && (AndBits(x, m) == 0 || AndBits(x, m) == m)
  {
  }

  /** The selected bit of a word. */
  predicate Bit(x: Word, m: bv32) {
    AndBits(x.bits, m) != 0
  }

  /** Words that agree on every bit are equal. */
  lemma BitsDecide(x: Word, y: Word)
    requires forall m :: OneHot(m) ==> Bit(x, m) == Bit(y, m)
    ensures x == y
  {
    hide AndBits, OneHot;
    forall m | OneHot(m) ensures AndBits(x.bits, m) == AndBits(y.bits, m) {
      assert Bit(x, m) == Bit(y, m);
      MaskValue(x.bits, m);
      MaskValue(y.bits, m);
    }
    Masks();
    SameMasks(x.bits, y.bits);
  }

  // Selecting bits commutes with every operation.

  lemma MaskXor(x: bv32, y: bv32, m: bv32)
    ensures (x ^ y) & m == (x & m) ^ (y & m)
  {
  }

  lemma XorFirst(x: bv32, y: bv32, m: bv32)
    ensures AndBits(XorBits(x, y), m) == (x ^ y) & m
  {
  }

  lemma XorLast(x: bv32, y: bv32, m: bv32)
    ensures XorBits(AndBits(x, m), AndBits(y, m)) == (x & m) ^ (y & m)
  {
  }

  lemma MaskedXor(x: bv32, y: bv32, m: bv32)
    ensures AndBits(XorBits(x, y), m) == XorBits(AndBits(x, m), AndBits(y, m))
  {
    hide *;
    XorFirst(x, y, m);
    XorLast(x, y, m);
    MaskXor(x, y, m);
  }

  lemma MaskOr(x: bv32, y: bv32, m: bv32)
    ensures (x | y) & m == (x & m) | (y & m)
  {
  }

  lemma OrFirst(x: bv32, y: bv32, m: bv32)
    ensures AndBits(OrBits(x, y), m) == (x | y) & m
  {
  }

  lemma OrLast(x: bv32, y: bv32, m: bv32)
    ensures OrBits(AndBits(x, m), AndBits(y, m)) == (x & m) | (y & m)
  {
  }

  lemma MaskedOr(x: bv32, y: bv32, m: bv32)
    ensures AndBits(OrBits(x, y), m) == OrBits(AndBits(x, m), AndBits(y, m))
  {
    hide *;
    OrFirst(x, y, m);
    OrLast(x, y, m);
    MaskOr(x, y, m);
  }

  lemma MaskAnd(x: bv32, y: bv32, m: bv32)
    ensures (x & y) & m == (x & m) & (y & m)
  {
  }

  lemma AndFirst(x: bv32, y: bv32, m: bv32)
    ensures AndBits(AndBits(x, y), m) == (x & y) & m
  {
  }

  lemma AndLast(x: bv32, y: bv32, m: bv32)
    ensures AndBits(AndBits(x, m), AndBits(y, m)) == (x & m) & (y & m)
  {
  }

  lemma MaskedAnd(x: bv32, y: bv32, m: bv32)
    ensures AndBits(AndBits(x, y), m) == AndBits(AndBits(x, m), AndBits(y, m))
  {
    hide *;
    AndFirst(x, y, m);
    AndLast(x, y, m);
    MaskAnd(x, y, m);
  }

  lemma MaskNot(x: bv32, m: bv32)
    ensures !x & m == (x & m) ^ m
  {
  }

  lemma NotFirst(x: bv32, m: bv32)
    ensures AndBits(NotBits(x), m) == !x & m
  {
  }

  lemma NotLast(x: bv32, m: bv32)
    ensures XorBits(AndBits(x, m), m) == (x & m) ^ m
  {
  }

  lemma MaskedNot(x: bv32, m: bv32)
    ensures AndBits(NotBits(x), m) == XorBits(AndBits(x, m), m)
  {
    hide *;
    NotFirst(x, m);
    NotLast(x, m);
    MaskNot(x, m);
  }

  lemma Corners(m: bv32)
    ensures XorBits(0, 0) == 0 && XorBits(0, m) == m && XorBits(m, 0) == m && XorBits(m, m) == 0
    ensures OrBits(0, 0) == 0 && OrBits(0, m) == m && OrBits(m, 0) == m && OrBits(m, m) == m
    ensures AndBits(0, 0) == 0 && AndBits(0, m) == 0 && AndBits(m, 0) == 0 && AndBits(m, m) == m
  {
  }

  /** The truth tables of the operations. */
  lemma BitOperations(m: bv32)
    requires OneHot(m)
    ensures forall x, y :: Bit(Xor(x, y), m) == (Bit(x, m) != Bit(y, m))
    ensures forall x, y :: Bit(And(x, y), m) == (Bit(x, m) && Bit(y, m))
    ensures forall x, y :: Bit(Or(x, y), m) == (Bit(x, m) || Bit(y, m))
    ensures forall x :: Bit(Not(x), m) == !Bit(x, m)
  {
    hide XorBits, AndBits, OrBits, NotBits, OneHot;
    Corners(m);
    forall x ensures Bit(Not(x), m) == !Bit(x, m) {
      MaskValue(x.bits, m);
      MaskedNot(x.bits, m);
    }
    forall x, y ensures Bit(Xor(x, y), m) == (Bit(x, m) != Bit(y, m)) {
      MaskValue(x.bits, m);
      MaskValue(y.bits, m);
      MaskedXor(x.bits, y.bits, m);
    }
    forall x, y ensures Bit(And(x, y), m) == (Bit(x, m) && Bit(y, m)) {
      MaskValue(x.bits, m);
      MaskValue(y.bits, m);
      MaskedAnd(x.bits, y.bits, m);
    }
    forall x, y ensures Bit(Or(x, y), m) == (Bit(x, m) || Bit(y, m)) {
      MaskValue(x.bits, m);
      MaskValue(y.bits, m);
      MaskedOr(x.bits, y.bits, m);
    }
  }
}

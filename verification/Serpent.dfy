/**
 Serpent encryption and decryption for arbitrary contents of the expanded key. The macros of
 the source alternate between the register names a..d and e..h; a quadruple of registers is a
 value here, so both copies of a macro are one function.
 */
module Serpent {
  import opened SerpentBoxes
  import opened WordBits

  // ------------------------------------------------ the linear mixing step

  function RotlBits(x: bv32, n: bv32): (r: bv32)
    requires n <= 32
  {
    (x << n) | (x >> (32 - n))
  }

  function RotrBits(x: bv32, n: bv32): (r: bv32)
    requires n <= 32
  {
    (x >> n) | (x << (32 - n))
  }

  function Rotl(x: Word, n: bv32): (r: Word)
    requires n <= 32
  {
    Word(RotlBits(x.bits, n))
  }

  function Rotr(x: Word, n: bv32): (r: Word)
    requires n <= 32
  {
    Word(RotrBits(x.bits, n))
  }

  function ShlBits(x: bv32, n: bv32): (r: bv32)
    requires n <= 32
  {
    x << n
  }

  function Shl(x: Word, n: bv32): (r: Word)
    requires n <= 32
  {
    Word(ShlBits(x.bits, n))
  }

  predicate Amount(n: bv32)
    ensures Amount(n) ==> n <= 32
  {
    n == 1 || n == 3 || n == 5 || n == 7 || n == 13 || n == 22
  }

  lemma Rotates1(x: bv32)
    ensures RotrBits(RotlBits(x, 1), 1) == x && RotlBits(RotrBits(x, 1), 1) == x
  {
  }

  lemma Rotates3(x: bv32)
    ensures RotrBits(RotlBits(x, 3), 3) == x && RotlBits(RotrBits(x, 3), 3) == x
  {
  }

  lemma Rotates5(x: bv32)
    ensures RotrBits(RotlBits(x, 5), 5) == x && RotlBits(RotrBits(x, 5), 5) == x
  {
  }

  lemma Rotates7(x: bv32)
    ensures RotrBits(RotlBits(x, 7), 7) == x && RotlBits(RotrBits(x, 7), 7) == x
  {
  }

  lemma Rotates13(x: bv32)
    ensures RotrBits(RotlBits(x, 13), 13) == x && RotlBits(RotrBits(x, 13), 13) == x
  {
  }

  lemma Rotates22(x: bv32)
    ensures RotrBits(RotlBits(x, 22), 22) == x && RotlBits(RotrBits(x, 22), 22) == x
  {
  }

  /** The two rotations undo each other for the amounts the macros use. */
  lemma RotatesBack(x: Word, n: bv32)
    requires Amount(n)
    ensures Rotr(Rotl(x, n), n) == x && Rotl(Rotr(x, n), n) == x
  {
    hide RotlBits, RotrBits;
    Rotates1(x.bits);
    Rotates3(x.bits);
    Rotates5(x.bits);
    Rotates7(x.bits);
    Rotates13(x.bits);
    Rotates22(x.bits);
  }

  lemma XorCancels(x: Word, y: Word)
    ensures Xor(Xor(x, y), y) == x
  {
    XorBitsCancel(x.bits, y.bits);
  }

  lemma XorBitsCancel(x: bv32, y: bv32)
    ensures XorBits(XorBits(x, y), y) == x
  {
  }

  /** rot */
  function Mix(q: Quad): (r: Quad) {
    var a, c := Rotl(q.a, 13), Rotl(q.c, 3);
    var d := Xor(q.d, Xor(c, Shl(a, 3)));
    var b := Xor(q.b, Xor(a, c));
    var d, b := Rotl(d, 7), Rotl(b, 1);
    var a := Xor(a, Xor(b, d));
    var c := Xor(c, Xor(d, Shl(b, 7)));
    Quad(Rotl(a, 5), b, Rotl(c, 22), d)
  }

  /** irot */
  function Unmix(q: Quad): (r: Quad) {
    var c, a := Rotr(q.c, 22), Rotr(q.a, 5);
    var c := Xor(c, Xor(q.d, Shl(q.b, 7)));
    var a := Xor(a, Xor(q.b, q.d));
    var d, b := Rotr(q.d, 7), Rotr(q.b, 1);
    var d := Xor(d, Xor(c, Shl(a, 3)));
    var b := Xor(b, Xor(a, c));
    Quad(Rotr(a, 13), b, Rotr(c, 3), d)
  }

  /** The bits that single bits of the registers reach, from the linear transformation of the Serpent proposal. */
  lemma MixSpreads()
    ensures Mix(Words(0x1, 0, 0, 0)) == Words(0x100c0000, 0x00004000, 0x00002800, 0x00800000)
    ensures Mix(Words(0, 0x1, 0, 0)) == Words(0x00000040, 0x00000002, 0x40000000, 0)
    ensures Mix(Words(0, 0, 0x1, 0)) == Words(0x00008200, 0x00000010, 0x02000003, 0x00000400)
    ensures Mix(Words(0, 0, 0, 0x1)) == Words(0x00001000, 0, 0x20000000, 0x00000080)
    ensures Mix(Words(0x80000000, 0, 0, 0)) == Words(0x08060000, 0x00002000, 0x00001400, 0x00400000)
    ensures Mix(Words(0, 0x80000000, 0, 0)) == Words(0x00000020, 0x00000001, 0x20000000, 0)
  {
  }

  function Words(a: bv32, b: bv32, c: bv32, d: bv32): (q: Quad) {
    Quad(Word(a), Word(b), Word(c), Word(d))
  }

  lemma RegistersCancel()
    ensures forall x, y :: Xor(Xor(x, y), y) == x
    ensures forall x, n :: Amount(n) ==> Rotr(Rotl(x, n), n) == x && Rotl(Rotr(x, n), n) == x
  {
    hide Xor, Rotl, Rotr, Amount;
    forall x, y ensures Xor(Xor(x, y), y) == x { XorCancels(x, y); }
    forall x, n | Amount(n) ensures Rotr(Rotl(x, n), n) == x && Rotl(Rotr(x, n), n) == x { RotatesBack(x, n); }
  }

  lemma MixInverts(q: Quad)
    ensures Unmix(Mix(q)) == q && Mix(Unmix(q)) == q
  {
    hide Xor, Rotl, Rotr, Shl;
    RegistersCancel();
  }

  // ------------------------------------------------ rounds for an arbitrary expanded key

  /** ctx->l_key: eight words of the user key and thirty-three round keys. */
  ghost predicate ExpandedKey(key: seq<Word>) {
    |key| == 140
  }

  /** ai: xor of round key r into the registers. */
  function AddKey(key: seq<Word>, r: nat, q: Quad): (result: Quad)
    requires ExpandedKey(key) && r <= 32
  {
    Quad(Xor(q.a, key[4 * r + 8]), Xor(q.b, key[4 * r + 9]), Xor(q.c, key[4 * r + 10]), Xor(q.d, key[4 * r + 11]))
  }

  function Sb(k: nat, q: Quad): (r: Quad)
    requires k < 8
  {
    match k
    case 0 => Sb0(q) case 1 => Sb1(q) case 2 => Sb2(q) case 3 => Sb3(q)
    case 4 => Sb4(q) case 5 => Sb5(q) case 6 => Sb6(q) case _ => Sb7(q)
  }

  function Ib(k: nat, q: Quad): (r: Quad)
    requires k < 8
  {
    match k
    case 0 => Ib0(q) case 1 => Ib1(q) case 2 => Ib2(q) case 3 => Ib3(q)
    case 4 => Ib4(q) case 5 => Ib5(q) case 6 => Ib6(q) case _ => Ib7(q)
  }

  lemma BoxInverts(k: nat, q: Quad)
    requires k < 8
    ensures Ib(k, Sb(k, q)) == q && Sb(k, Ib(k, q)) == q
  {
    hide Sb0, Sb1, Sb2, Sb3, Sb4, Sb5, Sb6, Sb7, Ib0, Ib1, Ib2, Ib3, Ib4, Ib5, Ib6, Ib7;
    Inverts0(q); Inverts1(q); Inverts2(q); Inverts3(q);
    Inverts4(q); Inverts5(q); Inverts6(q); Inverts7(q);
  }

  lemma KeyCancels(key: seq<Word>, r: nat, q: Quad)
    requires ExpandedKey(key) && r <= 32
    ensures AddKey(key, r, AddKey(key, r, q)) == q
  {
    hide Xor;
    RegistersCancel();
  }

  /** ad, ae: round r of the first thirty-one. */
  function Round(key: seq<Word>, r: nat, q: Quad): (result: Quad)
    requires ExpandedKey(key) && r <= 32
  {
    Mix(Sb(r % 8, AddKey(key, r, q)))
  }

  /** ah, aj: the inverse of round r. */
  function Unround(key: seq<Word>, r: nat, q: Quad): (result: Quad)
    requires ExpandedKey(key) && r <= 32
  {
    AddKey(key, r, Ib(r % 8, Unmix(q)))
  }

  lemma RoundInverts(key: seq<Word>, r: nat, q: Quad)
    requires ExpandedKey(key) && r <= 32
    ensures Unround(key, r, Round(key, r, q)) == q && Round(key, r, Unround(key, r, q)) == q
  {
    hide Mix, Unmix, Sb, Ib, AddKey;
    var x := AddKey(key, r, q);
    MixInverts(Sb(r % 8, x));
    BoxInverts(r % 8, x);
    KeyCancels(key, r, q);
    var y := Ib(r % 8, Unmix(q));
    KeyCancels(key, r, y);
    BoxInverts(r % 8, Unmix(q));
    MixInverts(q);
  }

  /** Rounds 0 to n - 1. */
  function Forward(key: seq<Word>, q: Quad, n: nat): (r: Quad)
    requires ExpandedKey(key) && n <= 32
  {
    if n == 0 then q else Round(key, n - 1, Forward(key, q, n - 1))
  }

  /** Inverse rounds from - 1 down to n. */
  function Backward(key: seq<Word>, q: Quad, from: nat, n: nat): (r: Quad)
    requires ExpandedKey(key) && n <= from <= 32
    decreases from - n
  {
    if n == from then q else Unround(key, n, Backward(key, q, from, n + 1))
  }

  lemma {:induction false} BackwardUnwinds(key: seq<Word>, q: Quad, from: nat, n: nat)
    requires ExpandedKey(key) && n <= from <= 32
    ensures Backward(key, Forward(key, q, from), from, n) == Forward(key, q, n)
    decreases from - n
  {
    hide Round, Unround;
    if n < from {
      BackwardUnwinds(key, q, from, n + 1);
      RoundInverts(key, n, Forward(key, q, n));
    }
  }

  lemma {:induction false} ForwardUnwinds(key: seq<Word>, q: Quad, from: nat, n: nat)
    requires ExpandedKey(key) && n <= from <= 32
    ensures Forward(key, Backward(key, q, from, 0), n) == Backward(key, q, from, n)
  {
    hide Round, Unround;
    if n > 0 {
      ForwardUnwinds(key, q, from, n - 1);
      RoundInverts(key, n - 1, Backward(key, q, from, n));
    }
  }

  /** The last round has a second key in place of the mixing step. */
  function Encrypted(key: seq<Word>, q: Quad): (r: Quad)
    requires ExpandedKey(key)
  {
    AddKey(key, 32, Sb7(AddKey(key, 31, Forward(key, q, 31))))
  }

  function Decrypted(key: seq<Word>, q: Quad): (r: Quad)
    requires ExpandedKey(key)
  {
    Backward(key, AddKey(key, 31, Ib7(AddKey(key, 32, q))), 31, 0)
  }

  /** Decryption inverts encryption, and the other way round, whatever the expanded key holds. */
  lemma BlockInverts(key: seq<Word>, q: Quad)
    requires ExpandedKey(key)
    ensures Decrypted(key, Encrypted(key, q)) == q && Encrypted(key, Decrypted(key, q)) == q
  {
    hide AddKey, Sb7, Ib7, Forward, Backward;
    var f := Forward(key, q, 31);
    KeyCancels(key, 32, Sb7(AddKey(key, 31, f)));
    Inverts7(AddKey(key, 31, f));
    KeyCancels(key, 31, f);
    BackwardUnwinds(key, q, 31, 0);
    NoRounds(key, q);
    var b := AddKey(key, 31, Ib7(AddKey(key, 32, q)));
    ForwardUnwinds(key, b, 31, 31);
    NoRounds(key, b);
    KeyCancels(key, 31, Ib7(AddKey(key, 32, q)));
    Inverts7(AddKey(key, 32, q));
    KeyCancels(key, 32, q);
  }

  lemma NoRounds(key: seq<Word>, q: Quad)
    requires ExpandedKey(key)
    ensures Forward(key, q, 0) == q && Backward(key, q, 31, 31) == q
  {
  }

  // ------------------------------------------------ every round key matters

  /** The expanded keys differ in the words of round key r at most. */
  ghost predicate AgreeOutside(k1: seq<Word>, k2: seq<Word>, r: nat) {
    && ExpandedKey(k1) && ExpandedKey(k2) && r <= 32
    && forall i :: 0 <= i < 140 && !(4 * r + 8 <= i < 4 * r + 12) ==> k1[i] == k2[i]
  }

  lemma XorInjective(x: Word, k: Word, l: Word)
    ensures Xor(x, k) == Xor(x, l) <==> k == l
  {
    hide XorBits;
    XorBitsInjective(x.bits, k.bits, l.bits);
  }

  lemma XorBitsInjective(x: bv32, k: bv32, l: bv32)
    ensures XorBits(x, k) == XorBits(x, l) <==> k == l
  {
  }

  lemma AddKeyDiffers(k1: seq<Word>, k2: seq<Word>, r: nat, q: Quad)
    requires AgreeOutside(k1, k2, r)
    ensures AddKey(k1, r, q) == AddKey(k2, r, q) <==> k1 == k2
  {
    hide Xor;
    XorInjective(q.a, k1[4 * r + 8], k2[4 * r + 8]);
    XorInjective(q.b, k1[4 * r + 9], k2[4 * r + 9]);
    XorInjective(q.c, k1[4 * r + 10], k2[4 * r + 10]);
    XorInjective(q.d, k1[4 * r + 11], k2[4 * r + 11]);
    if AddKey(k1, r, q) == AddKey(k2, r, q) {
      assert forall i :: 0 <= i < 140 ==> k1[i] == k2[i];
    }
  }

  lemma AddKeyAgrees(k1: seq<Word>, k2: seq<Word>, r: nat, n: nat, q: Quad)
    requires AgreeOutside(k1, k2, r) && n <= 32 && n != r
    ensures AddKey(k1, n, q) == AddKey(k2, n, q)
  {
    hide Xor;
  }

  /** Before round r the two keys have done the same; from there on the registers differ if the keys do. */
  lemma {:induction false} ForwardDiffers(k1: seq<Word>, k2: seq<Word>, r: nat, q: Quad, n: nat)
    requires AgreeOutside(k1, k2, r) && n <= 31
    ensures Forward(k1, q, n) == Forward(k2, q, n) <==> n <= r || k1 == k2
  {
    hide AddKey, Mix, Unmix, Sb, Ib;
    if n > 0 {
      ForwardDiffers(k1, k2, r, q, n - 1);
      var x, y := Forward(k1, q, n - 1), Forward(k2, q, n - 1);
      RoundDiffers(k1, k2, r, n - 1, x, y);
    }
  }

  lemma RoundDiffers(k1: seq<Word>, k2: seq<Word>, r: nat, n: nat, x: Quad, y: Quad)
    requires AgreeOutside(k1, k2, r) && n < 31
    ensures n != r ==> (Round(k1, n, x) == Round(k2, n, y) <==> x == y)
    ensures n == r && x == y ==> (Round(k1, n, x) == Round(k2, n, y) <==> k1 == k2)
  {
    hide AddKey, Mix, Unmix, Sb, Ib;
    var u, v := AddKey(k1, n, x), AddKey(k2, n, y);
    MixInverts(Sb(n % 8, u));
    MixInverts(Sb(n % 8, v));
    BoxInverts(n % 8, u);
    BoxInverts(n % 8, v);
    if n == r {
      AddKeyDiffers(k1, k2, r, x);
    } else {
      AddKeyAgrees(k1, k2, r, n, y);
      KeyCancels(k1, n, x);
      KeyCancels(k1, n, y);
    }
  }

  /** Whichever round key two expanded keys differ in, they encrypt every block differently. */
  lemma EncryptionNeedsKey(k1: seq<Word>, k2: seq<Word>, r: nat, q: Quad)
    requires AgreeOutside(k1, k2, r)
    ensures Encrypted(k1, q) == Encrypted(k2, q) <==> k1 == k2
  {
    hide AddKey, Sb7, Ib7, Forward;
    ForwardDiffers(k1, k2, r, q, 31);
    var x, y := Forward(k1, q, 31), Forward(k2, q, 31);
    var u, v := AddKey(k1, 31, x), AddKey(k2, 31, y);
    LastStep(k1, k2, r, 31, x, y);
    Inverts7(u);
    Inverts7(v);
    LastStep(k1, k2, r, 32, Sb7(u), Sb7(v));
  }

  lemma LastStep(k1: seq<Word>, k2: seq<Word>, r: nat, n: nat, x: Quad, y: Quad)
    requires AgreeOutside(k1, k2, r) && n <= 32
    ensures n != r ==> (AddKey(k1, n, x) == AddKey(k2, n, y) <==> x == y)
    ensures n == r && x == y ==> (AddKey(k1, n, x) == AddKey(k2, n, y) <==> k1 == k2)
  {
    hide AddKey;
    if n == r {
      AddKeyDiffers(k1, k2, r, x);
    } else {
      AddKeyAgrees(k1, k2, r, n, y);
      KeyCancels(k1, n, x);
      KeyCancels(k1, n, y);
    }
  }

  lemma DecryptionNeedsKey(k1: seq<Word>, k2: seq<Word>, r: nat, q: Quad)
    requires AgreeOutside(k1, k2, r)
    ensures Decrypted(k1, q) == Decrypted(k2, q) <==> k1 == k2
  {
    hide Encrypted, Decrypted;
    BlockInverts(k1, q);
    BlockInverts(k2, q);
    EncryptionNeedsKey(k1, k2, r, Decrypted(k1, q));
  }

  /** The last four words go into the registers one by one: changing word 136 + j by d changes register j by d. */
  lemma LastWordsShow(key: seq<Word>, q: Quad, d: Word)
    requires ExpandedKey(key)
    ensures var e := Encrypted(key, q);
      && Encrypted(key[136 := Xor(key[136], d)], q) == e.(a := Xor(e.a, d))
      && Encrypted(key[137 := Xor(key[137], d)], q) == e.(b := Xor(e.b, d))
      && Encrypted(key[138 := Xor(key[138], d)], q) == e.(c := Xor(e.c, d))
      && Encrypted(key[139 := Xor(key[139], d)], q) == e.(d := Xor(e.d, d))
  {
    hide Xor, Encrypted, Sb7, Forward;
    var x := Sb7(AddKey(key, 31, Forward(key, q, 31)));
    XorAssociates(x.a, key[136], d);
    XorAssociates(x.b, key[137], d);
    XorAssociates(x.c, key[138], d);
    XorAssociates(x.d, key[139], d);
    LastWordShows(key, key[136 := Xor(key[136], d)], q, d);
    LastWordShows(key, key[137 := Xor(key[137], d)], q, d);
    LastWordShows(key, key[138 := Xor(key[138], d)], q, d);
    LastWordShows(key, key[139 := Xor(key[139], d)], q, d);
  }

  lemma XorAssociates(x: Word, k: Word, d: Word)
    ensures Xor(x, Xor(k, d)) == Xor(Xor(x, k), d)
  {
    hide XorBits;
    XorBitsAssociate(x.bits, k.bits, d.bits);
  }

  lemma XorBitsAssociate(x: bv32, k: bv32, d: bv32)
    ensures XorBits(x, XorBits(k, d)) == XorBits(XorBits(x, k), d)
  {
  }

  lemma LastWordShows(key: seq<Word>, other: seq<Word>, q: Quad, d: Word)
    requires AgreeOutside(key, other, 32)
    ensures var x := Sb7(AddKey(key, 31, Forward(key, q, 31)));
      Encrypted(key, q) == AddKey(key, 32, x) && Encrypted(other, q) == AddKey(other, 32, x)
  {
    hide AddKey, Sb7, Forward;
    ForwardDiffers(key, other, 32, q, 31);
    AddKeyAgrees(key, other, 32, 31, Forward(key, q, 31));
  }

  // ------------------------------------------------ the block routines

  lemma NextRound(key: seq<Word>, q: Quad, x: nat, k: nat)
    requires ExpandedKey(key) && x % 8 == 0 && k < 8 && x + k < 32
    ensures Forward(key, q, x + k + 1) == Mix(Sb(k, AddKey(key, x + k, Forward(key, q, x + k))))
  {
    hide Sb, Mix, AddKey;
  }

  lemma PreviousRound(key: seq<Word>, q: Quad, x: nat, k: nat)
    requires ExpandedKey(key) && x % 8 == 0 && k < 8 && x + k < 31
    ensures Backward(key, q, 31, x + k) == AddKey(key, x + k, Ib(k, Unmix(Backward(key, q, 31, x + k + 1))))
  {
    hide Ib, Unmix, AddKey;
  }

  /** af without its last step: seven rounds from x on. */
  method SevenRounds(key: seq<Word>, x: nat, p: Quad, ghost start: Quad) returns (q: Quad)
    requires ExpandedKey(key) && x <= 24 && x % 8 == 0 && p == Forward(key, start, x)
    ensures q == Forward(key, start, x + 7)
  {
    hide Sb0, Sb1, Sb2, Sb3, Sb4, Sb5, Sb6, Sb7, Mix, AddKey, Forward;
    q := p;
    NextRound(key, start, x, 0);
    q := Mix(Sb0(AddKey(key, x, q)));
    NextRound(key, start, x, 1);
    q := Mix(Sb1(AddKey(key, x + 1, q)));
    NextRound(key, start, x, 2);
    q := Mix(Sb2(AddKey(key, x + 2, q)));
    NextRound(key, start, x, 3);
    q := Mix(Sb3(AddKey(key, x + 3, q)));
    NextRound(key, start, x, 4);
    q := Mix(Sb4(AddKey(key, x + 4, q)));
    NextRound(key, start, x, 5);
    q := Mix(Sb5(AddKey(key, x + 5, q)));
    NextRound(key, start, x, 6);
    q := Mix(Sb6(AddKey(key, x + 6, q)));
  }

  /** af: eight rounds from x on. */
  method EightRounds(key: seq<Word>, x: nat, p: Quad, ghost start: Quad) returns (q: Quad)
    requires ExpandedKey(key) && x <= 16 && x % 8 == 0 && p == Forward(key, start, x)
    ensures q == Forward(key, start, x + 8)
  {
    hide Sb0, Sb1, Sb2, Sb3, Sb4, Sb5, Sb6, Sb7, Mix, AddKey, Forward;
    q := SevenRounds(key, x, p, start);
    NextRound(key, start, x, 7);
    q := Mix(Sb7(AddKey(key, x + 7, q)));
  }

  /** ak without its first step: the inverse rounds x + 6 down to x. */
  method SevenBack(key: seq<Word>, x: nat, p: Quad, ghost start: Quad) returns (q: Quad)
    requires ExpandedKey(key) && x <= 24 && x % 8 == 0 && p == Backward(key, start, 31, x + 7)
    ensures q == Backward(key, start, 31, x)
  {
    hide Ib0, Ib1, Ib2, Ib3, Ib4, Ib5, Ib6, Ib7, Unmix, AddKey, Backward;
    q := p;
    PreviousRound(key, start, x, 6);
    q := AddKey(key, x + 6, Ib6(Unmix(q)));
    PreviousRound(key, start, x, 5);
    q := AddKey(key, x + 5, Ib5(Unmix(q)));
    PreviousRound(key, start, x, 4);
    q := AddKey(key, x + 4, Ib4(Unmix(q)));
    PreviousRound(key, start, x, 3);
    q := AddKey(key, x + 3, Ib3(Unmix(q)));
    PreviousRound(key, start, x, 2);
    q := AddKey(key, x + 2, Ib2(Unmix(q)));
    PreviousRound(key, start, x, 1);
    q := AddKey(key, x + 1, Ib1(Unmix(q)));
    PreviousRound(key, start, x, 0);
    q := AddKey(key, x, Ib0(Unmix(q)));
  }

  /** ak: the inverse rounds x + 7 down to x. */
  method EightBack(key: seq<Word>, x: nat, p: Quad, ghost start: Quad) returns (q: Quad)
    requires ExpandedKey(key) && x <= 16 && x % 8 == 0 && p == Backward(key, start, 31, x + 8)
    ensures q == Backward(key, start, 31, x)
  {
    hide Ib0, Ib1, Ib2, Ib3, Ib4, Ib5, Ib6, Ib7, Unmix, AddKey, Backward;
    PreviousRound(key, start, x, 7);
    q := AddKey(key, x + 7, Ib7(Unmix(p)));
    q := SevenBack(key, x, q, start);
  }

  method EncryptRegisters(key: seq<Word>, input: Quad) returns (q: Quad)
    requires ExpandedKey(key)
    ensures q == Encrypted(key, input)
  {
    hide Sb7, AddKey, Forward;
    NoRounds(key, input);
    q := EightRounds(key, 0, input, input);
    q := EightRounds(key, 8, q, input);
    q := EightRounds(key, 16, q, input);
    q := SevenRounds(key, 24, q, input);
    q := Sb7(AddKey(key, 31, q));
    q := AddKey(key, 32, q);
  }

  method DecryptRegisters(key: seq<Word>, input: Quad) returns (q: Quad)
    requires ExpandedKey(key)
    ensures q == Decrypted(key, input)
  {
    hide Ib7, AddKey, Backward;
    q := AddKey(key, 32, input);
    q := Ib7(q);
    q := AddKey(key, 31, q);
    ghost var start := q;
    NoRounds(key, start);
    q := SevenBack(key, 24, q, start);
    q := EightBack(key, 16, q, start);
    q := EightBack(key, 8, q, start);
    q := EightBack(key, 0, q, start);
  }

  // ------------------------------------------------ byte buffers

  /** Four bytes as a word, least significant first. */
  function LoadBits(b: seq<bv8>): (r: bv32)
    requires |b| == 4
  {
    (b[0] as bv32) | ((b[1] as bv32) << 8) | ((b[2] as bv32) << 16) | ((b[3] as bv32) << 24)
  }

  function StoreBits(x: bv32): (b: seq<bv8>)
    ensures |b| == 4
  {
    [(x & 0xff) as bv8, ((x >> 8) & 0xff) as bv8, ((x >> 16) & 0xff) as bv8, ((x >> 24) & 0xff) as bv8]
  }

  /** The first byte is the lowest. */
  lemma FirstByteLowest(b: seq<bv8>)
    requires |b| == 4
    ensures LoadBits(b) & 0xff == b[0] as bv32 && LoadBits(b) & 0xff00 == (b[1] as bv32) << 8
    ensures LoadBits(b) & 0xff0000 == (b[2] as bv32) << 16 && LoadBits(b) & 0xff000000 == (b[3] as bv32) << 24
  {
  }

  lemma LoadStored(x: bv32)
    ensures LoadBits(StoreBits(x)) == x
  {
  }

  lemma StoreLoaded(b: seq<bv8>)
    requires |b| == 4
    ensures StoreBits(LoadBits(b)) == b
  {
  }

  function Load(b: seq<bv8>): (r: Quad)
    requires |b| == 16
  {
    Quad(Word(LoadBits(b[..4])), Word(LoadBits(b[4..8])), Word(LoadBits(b[8..12])), Word(LoadBits(b[12..])))
  }

  function Store(q: Quad): (b: seq<bv8>)
    ensures |b| == 16
  {
    StoreBits(q.a.bits) + StoreBits(q.b.bits) + StoreBits(q.c.bits) + StoreBits(q.d.bits)
  }

  lemma BytesRoundTrip(b: seq<bv8>, q: Quad)
    requires |b| == 16
    ensures Store(Load(b)) == b && Load(Store(q)) == q
  {
    hide LoadBits, StoreBits;
    StoreLoaded(b[..4]); StoreLoaded(b[4..8]); StoreLoaded(b[8..12]); StoreLoaded(b[12..]);
    LoadStored(q.a.bits); LoadStored(q.b.bits); LoadStored(q.c.bits); LoadStored(q.d.bits);
    assert b == b[..4] + b[4..8] + b[8..12] + b[12..];
    var s := Store(q);
    assert s[..4] == StoreBits(q.a.bits) && s[4..8] == StoreBits(q.b.bits);
    assert s[8..12] == StoreBits(q.c.bits) && s[12..] == StoreBits(q.d.bits);
  }

  lemma Remaining(n: nat)
    requires n > 0 && n % 16 == 0
    ensures n >= 16 && (n - 16) % 16 == 0
  {
  }

  /** A buffer of whole blocks, each transformed on its own. */
  ghost function Blocks(key: seq<Word>, encrypt: bool, data: seq<bv8>): (out: seq<bv8>)
    requires ExpandedKey(key) && |data| % 16 == 0
    ensures |out| == |data|
  {
    hide *;
    if data == [] then [] else
    Remaining(|data|);
    var q := Load(data[..16]);
    Store(if encrypt then Encrypted(key, q) else Decrypted(key, q)) + Blocks(key, encrypt, data[16..])
  }

  /** Block k of the output depends on block k of the input alone. */
  lemma {:induction false} BlockAt(key: seq<Word>, encrypt: bool, data: seq<bv8>, k: nat)
    requires ExpandedKey(key) && |data| % 16 == 0 && 16 * k + 16 <= |data|
    ensures var q := Load(data[16 * k..16 * k + 16]);
      Blocks(key, encrypt, data)[16 * k..16 * k + 16] == Store(if encrypt then Encrypted(key, q) else Decrypted(key, q))
    decreases k
  {
    hide Load, Store, Encrypted, Decrypted;
    var p, rest := 16 * k, data[16..];
    var out := Blocks(key, encrypt, data);
    Remaining(|data|);
    assert out[16..] == Blocks(key, encrypt, rest);
    if k > 0 {
      BlockAt(key, encrypt, rest, k - 1);
      assert rest[p - 16..p] == data[p..p + 16] && out[p..p + 16] == out[16..][p - 16..p];
    }
  }

  /** Serpent's round trip on every input of whole blocks. */
  lemma {:induction false} BlocksInvert(key: seq<Word>, encrypt: bool, data: seq<bv8>)
    requires ExpandedKey(key) && |data| % 16 == 0
    ensures Blocks(key, !encrypt, Blocks(key, encrypt, data)) == data
  {
    hide Load, Store, Encrypted, Decrypted;
    if data != [] {
      var q := Load(data[..16]);
      var e := if encrypt then Encrypted(key, q) else Decrypted(key, q);
      BlockInverts(key, q);
      BytesRoundTrip(data[..16], e);
      BlocksInvert(key, encrypt, data[16..]);
      var out := Blocks(key, encrypt, data);
      assert out[..16] == Store(e) && out[16..] == Blocks(key, encrypt, data[16..]);
      assert data == data[..16] + data[16..];
    }
  }

  method Transform(key: seq<Word>, encrypt: bool, dest: array<bv8>, data: array<bv8>)
    requires ExpandedKey(key) && dest != data
    requires data.Length % 16 == 0 && dest.Length == data.Length
    modifies dest
    ensures dest[..] == Blocks(key, encrypt, data[..])
  {
    hide Load, Store, Encrypted, Decrypted;
    ghost var d := data[..];
    var i := 0;
    while i < data.Length
      invariant 0 <= i <= data.Length && i % 16 == 0 && data[..] == d
      invariant Blocks(key, encrypt, d) == dest[..i] + Blocks(key, encrypt, d[i..])
    {
      var q := Load(data[i..i + 16]);
      if encrypt {
        q := EncryptRegisters(key, q);
      } else {
        q := DecryptRegisters(key, q);
      }
      ghost var before := dest[..i];
      WriteBlock(dest, i, Store(q));
      assert d[i..][..16] == data[i..i + 16] && d[i..][16..] == d[i + 16..];
      assert dest[..i + 16] == before + Store(q);
      i := i + 16;
    }
  }

  method WriteBlock(dest: array<bv8>, at: nat, b: seq<bv8>)
    requires |b| == 16 && at + 16 <= dest.Length
    modifies dest
    ensures dest[..at + 16] == old(dest[..at]) + b
  {
    forall j | 0 <= j < 16 {
      dest[at + j] := b[j];
    }
  }

  /** Encrypting into one buffer and decrypting into another restores the data. */
  method EncryptThenDecrypt(key: seq<Word>, data: array<bv8>, cipher: array<bv8>, plain: array<bv8>)
    requires ExpandedKey(key) && cipher != data && plain != cipher && plain != data
    requires data.Length % 16 == 0 && cipher.Length == plain.Length == data.Length
    modifies cipher, plain
    ensures plain[..] == data[..] == old(data[..])
  {
    Transform(key, true, cipher, data);
    Transform(key, false, plain, cipher);
    BlocksInvert(key, true, data[..]);
  }
}

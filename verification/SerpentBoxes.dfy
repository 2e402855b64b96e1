/**
 The eight bit-sliced Serpent boxes and their inverses, each as the straight-line sequence of
 register assignments of its macro, and the linear mixing step with its inverse.
 */
module SerpentBoxes {
  import opened WordBits

  datatype Quad = Quad(a: Word, b: Word, c: Word, d: Word)

  function Sb0(q: Quad): (r: Quad) {
    var Quad(a, b, c, d) := q;
    var t1 := Xor(a, d); var t2 := And(a, d); var t3 := Xor(c, t1); var t6 := And(b, t1); var t4 := Xor(b, t3);
    var t10 := Not(t3); var h := Xor(t2, t4); var t7 := Xor(a, t6); var t14 := Not(t7); var t8 := Or(c, t7);
    var t11 := Xor(t3, t7); var g := Xor(t4, t8); var t12 := And(h, t11); var f := Xor(t10, t12);
    var e := Xor(t12, t14);
    Quad(e, f, g, h)
  }

  function Ib0(q: Quad): (r: Quad) {
    var Quad(a, b, c, d) := q;
    var t1 := Not(a); var t2 := Xor(a, b); var t3 := Or(t1, t2); var t4 := Xor(d, t3); var t7 := And(d, t2);
    var t5 := Xor(c, t4); var t8 := Xor(t1, t7); var g := Xor(t2, t5); var t11 := And(a, t4); var t9 := And(g, t8);
    var t14 := Xor(t5, t8); var f := Xor(t4, t9); var t12 := Or(t5, f); var h := Xor(t11, t12); var e := Xor(h, t14);
    Quad(e, f, g, h)
  }

  function Sb1(q: Quad): (r: Quad) {
    var Quad(a, b, c, d) := q;
    var t1 := Not(a); var t2 := Xor(b, t1); var t3 := Or(a, t2); var t4 := Or(d, t2); var t5 := Xor(c, t3);
    var g := Xor(d, t5); var t7 := Xor(b, t4); var t8 := Xor(t2, g); var t9 := And(t5, t7); var h := Xor(t8, t9);
    var t11 := Xor(t5, t7); var f := Xor(h, t11); var t13 := And(t8, t11); var e := Xor(t5, t13);
    Quad(e, f, g, h)
  }

  function Ib1(q: Quad): (r: Quad) {
    var Quad(a, b, c, d) := q;
    var t1 := Xor(a, d); var t2 := And(a, b); var t3 := Xor(b, c); var t4 := Xor(a, t3); var t5 := Or(b, d);
    var t7 := Or(c, t1); var h := Xor(t4, t5); var t8 := Xor(b, t7); var t11 := Not(t2); var t9 := And(t4, t8);
    var f := Xor(t1, t9); var t13 := Xor(t9, t11); var t12 := And(h, f); var g := Xor(t12, t13); var t15 := And(a, d);
    var t16 := Xor(c, t13); var e := Xor(t15, t16);
    Quad(e, f, g, h)
  }

  function Sb2(q: Quad): (r: Quad) {
    var Quad(a, b, c, d) := q;
    var t1 := Not(a); var t2 := Xor(b, d); var t3 := And(c, t1); var t13 := Or(d, t1); var e := Xor(t2, t3);
    var t5 := Xor(c, t1); var t6 := Xor(c, e); var t7 := And(b, t6); var t10 := Or(e, t5); var h := Xor(t5, t7);
    var t9 := Or(d, t7); var t11 := And(t9, t10); var t14 := Xor(t2, h); var g := Xor(a, t11); var t15 := Xor(g, t13);
    var f := Xor(t14, t15);
    Quad(e, f, g, h)
  }

  function Ib2(q: Quad): (r: Quad) {
    var Quad(a, b, c, d) := q;
    var t1 := Xor(b, d); var t2 := Not(t1); var t3 := Xor(a, c); var t4 := Xor(c, t1); var t7 := Or(a, t2);
    var t5 := And(b, t4); var t8 := Xor(d, t7); var t11 := Not(t4); var e := Xor(t3, t5); var t9 := Or(t3, t8);
    var t14 := And(d, t11); var h := Xor(t1, t9); var t12 := Or(e, h); var f := Xor(t11, t12);
    var t15 := Xor(t3, t12); var g := Xor(t14, t15);
    Quad(e, f, g, h)
  }

  function Sb3(q: Quad): (r: Quad) {
    var Quad(a, b, c, d) := q;
    var t1 := Xor(a, c); var t2 := Xor(d, t1); var t3 := And(a, t2); var t4 := Xor(d, t3); var t5 := And(b, t4);
    var g := Xor(t2, t5); var t7 := Or(a, g); var t8 := Or(b, d); var t11 := Or(a, d); var t9 := And(t4, t7);
    var f := Xor(t8, t9); var t12 := Xor(b, t11); var t13 := Xor(g, t9); var t15 := Xor(t3, t8);
    var h := Xor(t12, t13); var t16 := And(c, t15); var e := Xor(t12, t16);
    Quad(e, f, g, h)
  }

  function Ib3(q: Quad): (r: Quad) {
    var Quad(a, b, c, d) := q;
    var t1 := Xor(b, c); var t2 := Or(b, c); var t3 := Xor(a, c); var t7 := Xor(a, d); var t4 := Xor(t2, t3);
    var t5 := Or(d, t4); var t9 := Xor(t2, t7); var e := Xor(t1, t5); var t8 := Or(t1, t5); var t11 := And(a, t4);
    var g := Xor(t8, t9); var t12 := Or(e, t9); var f := Xor(t11, t12); var t14 := And(a, g); var t15 := Xor(t2, t14);
    var t16 := And(e, t15); var h := Xor(t4, t16);
    Quad(e, f, g, h)
  }

  function Sb4(q: Quad): (r: Quad) {
    var Quad(a, b, c, d) := q;
    var t1 := Xor(a, d); var t2 := And(d, t1); var t3 := Xor(c, t2); var t4 := Or(b, t3); var h := Xor(t1, t4);
    var t6 := Not(b); var t7 := Or(t1, t6); var e := Xor(t3, t7); var t9 := And(a, e); var t10 := Xor(t1, t6);
    var t11 := And(t4, t10); var g := Xor(t9, t11); var t13 := Xor(a, t3); var t14 := And(t10, g);
    var f := Xor(t13, t14);
    Quad(e, f, g, h)
  }

  function Ib4(q: Quad): (r: Quad) {
    var Quad(a, b, c, d) := q;
    var t1 := Xor(c, d); var t2 := Or(c, d); var t3 := Xor(b, t2); var t4 := And(a, t3); var f := Xor(t1, t4);
    var t6 := Xor(a, d); var t7 := Or(b, d); var t8 := And(t6, t7); var h := Xor(t3, t8); var t10 := Not(a);
    var t11 := Xor(c, h); var t12 := Or(t10, t11); var e := Xor(t3, t12); var t14 := Or(c, t4);
    var t15 := Xor(t7, t14); var t16 := Or(h, t10); var g := Xor(t15, t16);
    Quad(e, f, g, h)
  }

  function Sb5(q: Quad): (r: Quad) {
    var Quad(a, b, c, d) := q;
    var t1 := Not(a); var t2 := Xor(a, b); var t3 := Xor(a, d); var t4 := Xor(c, t1); var t5 := Or(t2, t3);
    var e := Xor(t4, t5); var t7 := And(d, e); var t8 := Xor(t2, e); var t10 := Or(t1, e); var f := Xor(t7, t8);
    var t11 := Or(t2, t7); var t12 := Xor(t3, t10); var t14 := Xor(b, t7); var g := Xor(t11, t12);
    var t15 := And(f, t12); var h := Xor(t14, t15);
    Quad(e, f, g, h)
  }

  function Ib5(q: Quad): (r: Quad) {
    var Quad(a, b, c, d) := q;
    var t1 := Not(c); var t2 := And(b, t1); var t3 := Xor(d, t2); var t4 := And(a, t3); var t5 := Xor(b, t1);
    var h := Xor(t4, t5); var t7 := Or(b, h); var t8 := And(a, t7); var f := Xor(t3, t8); var t10 := Or(a, d);
    var t11 := Xor(t1, t7); var e := Xor(t10, t11); var t13 := Xor(a, c); var t14 := And(b, t10);
    var t15 := Or(t4, t13); var g := Xor(t14, t15);
    Quad(e, f, g, h)
  }

  function Sb6(q: Quad): (r: Quad) {
    var Quad(a, b, c, d) := q;
    var t1 := Not(a); var t2 := Xor(a, d); var t3 := Xor(b, t2); var t4 := Or(t1, t2); var t5 := Xor(c, t4);
    var f := Xor(b, t5); var t13 := Not(t5); var t7 := Or(t2, f); var t8 := Xor(d, t7); var t9 := And(t5, t8);
    var g := Xor(t3, t9); var t11 := Xor(t5, t8); var e := Xor(g, t11); var t14 := And(t3, t11);
    var h := Xor(t13, t14);
    Quad(e, f, g, h)
  }

  function Ib6(q: Quad): (r: Quad) {
    var Quad(a, b, c, d) := q;
    var t1 := Not(a); var t2 := Xor(a, b); var t3 := Xor(c, t2); var t4 := Or(c, t1); var t5 := Xor(d, t4);
    var t13 := And(d, t1); var f := Xor(t3, t5); var t7 := And(t3, t5); var t8 := Xor(t2, t7); var t9 := Or(b, t8);
    var h := Xor(t5, t9); var t11 := Or(b, h); var e := Xor(t8, t11); var t14 := Xor(t3, t11); var g := Xor(t13, t14);
    Quad(e, f, g, h)
  }

  function Sb7(q: Quad): (r: Quad) {
    var Quad(a, b, c, d) := q;
    var t1 := Not(c); var t2 := Xor(b, c); var t3 := Or(b, t1); var t4 := Xor(d, t3); var t5 := And(a, t4);
    var t7 := Xor(a, d); var h := Xor(t2, t5); var t8 := Xor(b, t5); var t9 := Or(t2, t8); var t11 := And(d, t3);
    var f := Xor(t7, t9); var t12 := Xor(t5, f); var t15 := Or(t1, t4); var t13 := And(h, t12);
    var g := Xor(t11, t13); var t16 := Xor(t12, g); var e := Xor(t15, t16);
    Quad(e, f, g, h)
  }

  function Ib7(q: Quad): (r: Quad) {
    var Quad(a, b, c, d) := q;
    var t1 := And(a, b); var t2 := Or(a, b); var t3 := Or(c, t1); var t4 := And(d, t2); var h := Xor(t3, t4);
    var t6 := Not(d); var t7 := Xor(b, t4); var t8 := Xor(h, t6); var t11 := Xor(c, t7); var t9 := Or(t7, t8);
    var f := Xor(a, t9); var t12 := Or(d, f); var e := Xor(t11, t12); var t14 := And(a, h); var t15 := Xor(t3, f);
    var t16 := Xor(e, t14); var g := Xor(t15, t16);
    Quad(e, f, g, h)
  }

  // ------------------------------------------------ the boxes are inverses

  ghost predicate SameBits(p: Quad, q: Quad, m: bv32) {
    && Bit(p.a, m) == Bit(q.a, m) && Bit(p.b, m) == Bit(q.b, m)
    && Bit(p.c, m) == Bit(q.c, m) && Bit(p.d, m) == Bit(q.d, m)
  }

  lemma SameQuad(p: Quad, q: Quad)
    requires forall m :: OneHot(m) ==> SameBits(p, q, m)
    ensures p == q
  {
    hide Bit, OneHot;
    BitsDecide(p.a, q.a);
    BitsDecide(p.b, q.b);
    BitsDecide(p.c, q.c);
    BitsDecide(p.d, q.d);
  }

  lemma Inverts0(q: Quad)
    ensures Ib0(Sb0(q)) == q && Sb0(Ib0(q)) == q
  {
    hide Xor, And, Or, Not, OneHot, Bit;
    forall m | OneHot(m) ensures SameBits(Ib0(Sb0(q)), q, m) && SameBits(Sb0(Ib0(q)), q, m) {
      BitOperations(m);
    }
    SameQuad(Ib0(Sb0(q)), q);
    SameQuad(Sb0(Ib0(q)), q);
  }

  lemma Inverts1(q: Quad)
    ensures Ib1(Sb1(q)) == q && Sb1(Ib1(q)) == q
  {
    hide Xor, And, Or, Not, OneHot, Bit;
    forall m | OneHot(m) ensures SameBits(Ib1(Sb1(q)), q, m) && SameBits(Sb1(Ib1(q)), q, m) {
      BitOperations(m);
    }
    SameQuad(Ib1(Sb1(q)), q);
    SameQuad(Sb1(Ib1(q)), q);
  }

  lemma Inverts2(q: Quad)
    ensures Ib2(Sb2(q)) == q && Sb2(Ib2(q)) == q
  {
    hide Xor, And, Or, Not, OneHot, Bit;
    forall m | OneHot(m) ensures SameBits(Ib2(Sb2(q)), q, m) && SameBits(Sb2(Ib2(q)), q, m) {
      BitOperations(m);
    }
    SameQuad(Ib2(Sb2(q)), q);
    SameQuad(Sb2(Ib2(q)), q);
  }

  lemma Inverts3(q: Quad)
    ensures Ib3(Sb3(q)) == q && Sb3(Ib3(q)) == q
  {
    hide Xor, And, Or, Not, OneHot, Bit;
    forall m | OneHot(m) ensures SameBits(Ib3(Sb3(q)), q, m) && SameBits(Sb3(Ib3(q)), q, m) {
      BitOperations(m);
    }
    SameQuad(Ib3(Sb3(q)), q);
    SameQuad(Sb3(Ib3(q)), q);
  }

  lemma Inverts4(q: Quad)
    ensures Ib4(Sb4(q)) == q && Sb4(Ib4(q)) == q
  {
    hide Xor, And, Or, Not, OneHot, Bit;
    forall m | OneHot(m) ensures SameBits(Ib4(Sb4(q)), q, m) && SameBits(Sb4(Ib4(q)), q, m) {
      BitOperations(m);
    }
    SameQuad(Ib4(Sb4(q)), q);
    SameQuad(Sb4(Ib4(q)), q);
  }

  lemma Inverts5(q: Quad)
    ensures Ib5(Sb5(q)) == q && Sb5(Ib5(q)) == q
  {
    hide Xor, And, Or, Not, OneHot, Bit;
    forall m | OneHot(m) ensures SameBits(Ib5(Sb5(q)), q, m) && SameBits(Sb5(Ib5(q)), q, m) {
      BitOperations(m);
    }
    SameQuad(Ib5(Sb5(q)), q);
    SameQuad(Sb5(Ib5(q)), q);
  }

  lemma Inverts6(q: Quad)
    ensures Ib6(Sb6(q)) == q && Sb6(Ib6(q)) == q
  {
    hide Xor, And, Or, Not, OneHot, Bit;
    forall m | OneHot(m) ensures SameBits(Ib6(Sb6(q)), q, m) && SameBits(Sb6(Ib6(q)), q, m) {
      BitOperations(m);
    }
    SameQuad(Ib6(Sb6(q)), q);
    SameQuad(Sb6(Ib6(q)), q);
  }

  lemma Inverts7(q: Quad)
    ensures Ib7(Sb7(q)) == q && Sb7(Ib7(q)) == q
  {
    hide Xor, And, Or, Not, OneHot, Bit;
    forall m | OneHot(m) ensures SameBits(Ib7(Sb7(q)), q, m) && SameBits(Sb7(Ib7(q)), q, m) {
      BitOperations(m);
    }
    SameQuad(Ib7(Sb7(q)), q);
    SameQuad(Sb7(Ib7(q)), q);
  }

  // ------------------------------------------------ the boxes are the published ones

  /** The four register bits under a mask, register a the lowest. */
  ghost function Nibble(q: Quad, m: bv32): (v: nat)
    ensures v < 16
  {
    (if Bit(q.a, m) then 1 else 0) + (if Bit(q.b, m) then 2 else 0)
    + (if Bit(q.c, m) then 4 else 0) + if Bit(q.d, m) then 8 else 0
  }

  function Four(j: nat, p: nat, q: nat, r: nat, s: nat): (result: nat) {
    if j == 0 then p else if j == 1 then q else if j == 2 then r else s
  }

  /** The S-boxes S0 to S7 of the Serpent proposal: the value for each of the sixteen inputs. */
  function Published(k: nat, v: nat): (r: nat)
    requires k < 8 && v < 16
  {
    match k
    case 0 =>
      if v < 4 then Four(v, 3, 8, 15, 1) else if v < 8 then Four(v - 4, 10, 6, 5, 11)
      else if v < 12 then Four(v - 8, 14, 13, 4, 2) else Four(v - 12, 7, 0, 9, 12)
    case 1 =>
      if v < 4 then Four(v, 15, 12, 2, 7) else if v < 8 then Four(v - 4, 9, 0, 5, 10)
      else if v < 12 then Four(v - 8, 1, 11, 14, 8) else Four(v - 12, 6, 13, 3, 4)
    case 2 =>
      if v < 4 then Four(v, 8, 6, 7, 9) else if v < 8 then Four(v - 4, 3, 12, 10, 15)
      else if v < 12 then Four(v - 8, 13, 1, 14, 4) else Four(v - 12, 0, 11, 5, 2)
    case 3 =>
      if v < 4 then Four(v, 0, 15, 11, 8) else if v < 8 then Four(v - 4, 12, 9, 6, 3)
      else if v < 12 then Four(v - 8, 13, 1, 2, 4) else Four(v - 12, 10, 7, 5, 14)
    case 4 =>
      if v < 4 then Four(v, 1, 15, 8, 3) else if v < 8 then Four(v - 4, 12, 0, 11, 6)
      else if v < 12 then Four(v - 8, 2, 5, 4, 10) else Four(v - 12, 9, 14, 7, 13)
    case 5 =>
      if v < 4 then Four(v, 15, 5, 2, 11) else if v < 8 then Four(v - 4, 4, 10, 9, 12)
      else if v < 12 then Four(v - 8, 0, 3, 14, 8) else Four(v - 12, 13, 6, 7, 1)
    case 6 =>
      if v < 4 then Four(v, 7, 2, 12, 5) else if v < 8 then Four(v - 4, 8, 4, 6, 11)
      else if v < 12 then Four(v - 8, 14, 9, 1, 15) else Four(v - 12, 13, 3, 10, 0)
    case _ =>
      if v < 4 then Four(v, 1, 13, 15, 0) else if v < 8 then Four(v - 4, 14, 8, 2, 11)
      else if v < 12 then Four(v - 8, 7, 4, 12, 10) else Four(v - 12, 9, 3, 5, 6)
  }

  lemma Published0(q: Quad, m: bv32)
    requires OneHot(m)
    ensures Nibble(Sb0(q), m) == Published(0, Nibble(q, m))
  {
    hide Xor, And, Or, Not, OneHot, Bit;
    BitOperations(m);
  }

  lemma Published1(q: Quad, m: bv32)
    requires OneHot(m)
    ensures Nibble(Sb1(q), m) == Published(1, Nibble(q, m))
  {
    hide Xor, And, Or, Not, OneHot, Bit;
    BitOperations(m);
  }

  lemma Published2(q: Quad, m: bv32)
    requires OneHot(m)
    ensures Nibble(Sb2(q), m) == Published(2, Nibble(q, m))
  {
    hide Xor, And, Or, Not, OneHot, Bit;
    BitOperations(m);
  }

  lemma Published3(q: Quad, m: bv32)
    requires OneHot(m)
    ensures Nibble(Sb3(q), m) == Published(3, Nibble(q, m))
  {
    hide Xor, And, Or, Not, OneHot, Bit;
    BitOperations(m);
  }

  lemma Published4(q: Quad, m: bv32)
    requires OneHot(m)
    ensures Nibble(Sb4(q), m) == Published(4, Nibble(q, m))
  {
    hide Xor, And, Or, Not, OneHot, Bit;
    BitOperations(m);
  }

  lemma Published5(q: Quad, m: bv32)
    requires OneHot(m)
    ensures Nibble(Sb5(q), m) == Published(5, Nibble(q, m))
  {
    hide Xor, And, Or, Not, OneHot, Bit;
    BitOperations(m);
  }

  lemma Published6(q: Quad, m: bv32)
    requires OneHot(m)
    ensures Nibble(Sb6(q), m) == Published(6, Nibble(q, m))
  {
    hide Xor, And, Or, Not, OneHot, Bit;
    BitOperations(m);
  }

  lemma Published7(q: Quad, m: bv32)
    requires OneHot(m)
    ensures Nibble(Sb7(q), m) == Published(7, Nibble(q, m))
  {
    hide Xor, And, Or, Not, OneHot, Bit;
    BitOperations(m);
  }
}

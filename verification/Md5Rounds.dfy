/**
 The MD5 block function: the sixty-four unrolled macro calls of the transform, with their rotating
 register names, against the operations of section 3.4 of RFC 1321.
 */
module Md5Rounds {
  import opened MessagePadding

  datatype Regs = Regs(a: bv32, b: bv32, c: bv32, d: bv32)

  const INITIAL := Regs(0x67452301, 0xefcdab89, 0x98badcfe, 0x10325476)

  // ------------------------------------------------ the standard

  function Plus(x: bv32, y: bv32): (r: bv32) { x + y }

  function StandardSum(a: bv32, f: bv32, x: bv32, t: bv32): (r: bv32) { ((a + f) + x) + t }

  function F(x: bv32, y: bv32, z: bv32): (r: bv32) { (x & y) | (!x & z) }

  function G(x: bv32, y: bv32, z: bv32): (r: bv32) { (x & z) | (y & !z) }

  function H(x: bv32, y: bv32, z: bv32): (r: bv32) { x ^ y ^ z }

  function I(x: bv32, y: bv32, z: bv32): (r: bv32) { y ^ (x | !z) }

  function Auxiliary(round: nat, x: bv32, y: bv32, z: bv32): (r: bv32) {
    if round == 0 then F(x, y, z) else if round == 1 then G(x, y, z) else if round == 2 then H(x, y, z) else I(x, y, z)
  }

  function Rotl(x: bv32, s: nat): (r: bv32)
    requires s <= 32
  {
    (x << s) | (x >> (32 - s))
  }

  /** Which word of the block operation n uses. */
  function Word(n: nat): (k: nat)
    requires n < 64
    ensures k < 16
  {
    if n < 16 then n else if n < 32 then (5 * n + 1) % 16 else if n < 48 then (3 * n + 5) % 16 else 7 * n % 16
  }

  function Turn(j: nat, p: nat, q: nat, r: nat, s: nat): (result: nat) {
    if j == 0 then p else if j == 1 then q else if j == 2 then r else s
  }

  /** How far operation n rotates. */
  function Shift(n: nat): (s: nat)
    requires n < 64
    ensures s <= 32
  {
    if n < 16 then Turn(n % 4, 7, 12, 17, 22) else if n < 32 then Turn(n % 4, 5, 9, 14, 20)
    else if n < 48 then Turn(n % 4, 4, 11, 16, 23) else Turn(n % 4, 6, 10, 15, 21)
  }

  /** The table T of the standard, counted from 0. */
  function T(n: nat): (r: bv32)
    requires n < 64
  {
    if n < 16 then T1(n) else if n < 32 then T2(n) else if n < 48 then T3(n) else T4(n)
  }

  function Four(j: nat, p: bv32, q: bv32, r: bv32, s: bv32): (result: bv32) {
    if j == 0 then p else if j == 1 then q else if j == 2 then r else s
  }

  function T1(n: nat): (r: bv32) {
    if n < 4 then Four(n % 4, 0xd76aa478, 0xe8c7b756, 0x242070db, 0xc1bdceee)
    else if n < 8 then Four(n % 4, 0xf57c0faf, 0x4787c62a, 0xa8304613, 0xfd469501)
    else if n < 12 then Four(n % 4, 0x698098d8, 0x8b44f7af, 0xffff5bb1, 0x895cd7be)
    else Four(n % 4, 0x6b901122, 0xfd987193, 0xa679438e, 0x49b40821)
  }

  function T2(n: nat): (r: bv32) {
    if n < 20 then Four(n % 4, 0xf61e2562, 0xc040b340, 0x265e5a51, 0xe9b6c7aa)
    else if n < 24 then Four(n % 4, 0xd62f105d, 0x02441453, 0xd8a1e681, 0xe7d3fbc8)
    else if n < 28 then Four(n % 4, 0x21e1cde6, 0xc33707d6, 0xf4d50d87, 0x455a14ed)
    else Four(n % 4, 0xa9e3e905, 0xfcefa3f8, 0x676f02d9, 0x8d2a4c8a)
  }

  function T3(n: nat): (r: bv32) {
    if n < 36 then Four(n % 4, 0xfffa3942, 0x8771f681, 0x6d9d6122, 0xfde5380c)
    else if n < 40 then Four(n % 4, 0xa4beea44, 0x4bdecfa9, 0xf6bb4b60, 0xbebfbc70)
    else if n < 44 then Four(n % 4, 0x289b7ec6, 0xeaa127fa, 0xd4ef3085, 0x04881d05)
    else Four(n % 4, 0xd9d4d039, 0xe6db99e5, 0x1fa27cf8, 0xc4ac5665)
  }

  function T4(n: nat): (r: bv32) {
    if n < 52 then Four(n % 4, 0xf4292244, 0x432aff97, 0xab9423a7, 0xfc93a039)
    else if n < 56 then Four(n % 4, 0x655b59c3, 0x8f0ccc92, 0xffeff47d, 0x85845dd1)
    else if n < 60 then Four(n % 4, 0x6fa87e4f, 0xfe2ce6e0, 0xa3014314, 0x4e0811a1)
    else Four(n % 4, 0xf7537e82, 0xbd3af235, 0x2ad7d2bb, 0xeb86d391)
  }

  /** One operation; the registers then change names. */
  function Operation(r: Regs, x: seq<bv32>, n: nat): (result: Regs)
    requires |x| == 16 && n < 64
  {
    var sum := StandardSum(r.a, Auxiliary(n / 16, r.b, r.c, r.d), x[Word(n)], T(n));
    Regs(r.d, Plus(r.b, Rotl(sum, Shift(n))), r.b, r.c)
  }

  function Operations(r: Regs, x: seq<bv32>, n: nat): (result: Regs)
    requires |x| == 16 && n <= 64
  {
    if n == 0 then r else Operation(Operations(r, x, n - 1), x, n - 1)
  }

  /** Four bytes, least significant first. */
  function Load(block: seq<bv8>, k: nat): (r: bv32)
    requires 4 * k + 4 <= |block|
  {
    (block[4 * k] as bv32) | ((block[4 * k + 1] as bv32) << 8)
    | ((block[4 * k + 2] as bv32) << 16) | ((block[4 * k + 3] as bv32) << 24)
  }

  function Words(block: seq<bv8>): (x: seq<bv32>)
    requires |block| == 64
    ensures |x| == 16
  {
    seq(16, k requires 0 <= k < 16 => Load(block, k))
  }

  function Compress(r: Regs, block: seq<bv8>): (result: Regs)
    requires |block| == 64
  {
    var q := Operations(r, Words(block), 64);
    Regs(Plus(q.a, r.a), Plus(q.b, r.b), Plus(q.c, r.c), Plus(q.d, r.d))
  }

  // ------------------------------------------------ the macros

  function MacroF(x: bv32, y: bv32, z: bv32): (r: bv32) { z ^ (x & (y ^ z)) }

  function MacroG(x: bv32, y: bv32, z: bv32): (r: bv32) { y ^ (z & (x ^ y)) }

  function MacroH(x: bv32, y: bv32, z: bv32): (r: bv32) { x ^ y ^ z }

  function MacroI(x: bv32, y: bv32, z: bv32): (r: bv32) { y ^ (x | !z) }

  function Macro(round: nat, x: bv32, y: bv32, z: bv32): (r: bv32) {
    if round == 0 then MacroF(x, y, z) else if round == 1 then MacroG(x, y, z)
    else if round == 2 then MacroH(x, y, z) else MacroI(x, y, z)
  }

  lemma FBits(x: bv32, y: bv32, z: bv32)
    ensures z ^ (x & (y ^ z)) == (x & y) | (!x & z)
  {
  }

  lemma GBits(x: bv32, y: bv32, z: bv32)
    ensures y ^ (z & (x ^ y)) == (x & z) | (y & !z)
  {
  }

  lemma FAgrees(x: bv32, y: bv32, z: bv32)
    ensures MacroF(x, y, z) == F(x, y, z)
  {
    FBits(x, y, z);
  }

  lemma GAgrees(x: bv32, y: bv32, z: bv32)
    ensures MacroG(x, y, z) == G(x, y, z)
  {
    GBits(x, y, z);
  }

  lemma OthersAgree(x: bv32, y: bv32, z: bv32)
    ensures MacroH(x, y, z) == H(x, y, z) && MacroI(x, y, z) == I(x, y, z)
  {
  }

  /** The optimised macros are the auxiliary functions of the standard. */
  lemma MacrosAgree(round: nat, x: bv32, y: bv32, z: bv32)
    ensures Macro(round, x, y, z) == Auxiliary(round, x, y, z)
  {
    hide MacroF, MacroG, MacroH, MacroI, F, G, H, I;
    FAgrees(x, y, z);
    GAgrees(x, y, z);
    OthersAgree(x, y, z);
  }

  function CodeSum(a: bv32, f: bv32, x: bv32, t: bv32): (r: bv32) { a + ((f + x) + t) }

  /** MD5_STEP: what it leaves in its first register; f is the macro's value. */
  function Step(a: bv32, b: bv32, f: bv32, x: bv32, t: bv32, s: nat): (r: bv32)
    requires s <= 32
  {
    Plus(Rotl(CodeSum(a, f, x, t), s), b)
  }

  lemma SumsAgree(a: bv32, f: bv32, x: bv32, t: bv32)
    ensures CodeSum(a, f, x, t) == StandardSum(a, f, x, t)
  {
  }

  lemma PlusCommutes(x: bv32, y: bv32)
    ensures Plus(x, y) == Plus(y, x)
  {
  }

  /** A macro call with the right word, constant and shift is the next operation. */
  lemma StepIsOperation(origin: Regs, x: seq<bv32>, n: nat, r: Regs, k: nat, t: bv32, s: nat)
    requires |x| == 16 && n < 64 && Word(n) == k && T(n) == t && Shift(n) == s
    requires r == Operations(origin, x, n)
    ensures var f := Macro(n / 16, r.b, r.c, r.d);
      Operations(origin, x, n + 1) == Regs(r.d, Step(r.a, r.b, f, x[k], t, s), r.b, r.c)
  {
    hide Plus, Auxiliary, Macro, Rotl, Word, Shift, T, CodeSum, StandardSum;
    var f := Auxiliary(n / 16, r.b, r.c, r.d);
    MacrosAgree(n / 16, r.b, r.c, r.d);
    SumsAgree(r.a, f, x[k], t);
    PlusCommutes(r.b, Rotl(StandardSum(r.a, f, x[k], t), s));
  }

  // MD5_STEP with each of the four macros, as operation n.

  method StepF(ghost origin: Regs, x: seq<bv32>, ghost n: nat, a: bv32, b: bv32, c: bv32, d: bv32, k: nat, t: bv32,
          s: nat) returns (r: bv32)
    requires |x| == 16 && n < 16 && k == n && T1(n) == t && Turn(n % 4, 7, 12, 17, 22) == s
    requires k < 16 && s <= 32 && Regs(a, b, c, d) == Operations(origin, x, n)
    ensures Operations(origin, x, n + 1) == Regs(d, r, b, c)
  {
    hide Operations, Step, MacroF, MacroG, MacroH, MacroI, T1, T2, T3, T4, Turn;
    StepIsOperation(origin, x, n, Regs(a, b, c, d), k, t, s);
    r := Step(a, b, MacroF(b, c, d), x[k], t, s);
  }

  method StepG(ghost origin: Regs, x: seq<bv32>, ghost n: nat, a: bv32, b: bv32, c: bv32, d: bv32, k: nat, t: bv32,
          s: nat) returns (r: bv32)
    requires |x| == 16 && 16 <= n < 32 && k == (5 * n + 1) % 16 && T2(n) == t && Turn(n % 4, 5, 9, 14, 20) == s
    requires k < 16 && s <= 32 && Regs(a, b, c, d) == Operations(origin, x, n)
    ensures Operations(origin, x, n + 1) == Regs(d, r, b, c)
  {
    hide Operations, Step, MacroF, MacroG, MacroH, MacroI, T1, T2, T3, T4, Turn;
    StepIsOperation(origin, x, n, Regs(a, b, c, d), k, t, s);
    r := Step(a, b, MacroG(b, c, d), x[k], t, s);
  }

  method StepH(ghost origin: Regs, x: seq<bv32>, ghost n: nat, a: bv32, b: bv32, c: bv32, d: bv32, k: nat, t: bv32,
          s: nat) returns (r: bv32)
    requires |x| == 16 && 32 <= n < 48 && k == (3 * n + 5) % 16 && T3(n) == t && Turn(n % 4, 4, 11, 16, 23) == s
    requires k < 16 && s <= 32 && Regs(a, b, c, d) == Operations(origin, x, n)
    ensures Operations(origin, x, n + 1) == Regs(d, r, b, c)
  {
    hide Operations, Step, MacroF, MacroG, MacroH, MacroI, T1, T2, T3, T4, Turn;
    StepIsOperation(origin, x, n, Regs(a, b, c, d), k, t, s);
    r := Step(a, b, MacroH(b, c, d), x[k], t, s);
  }

  method StepI(ghost origin: Regs, x: seq<bv32>, ghost n: nat, a: bv32, b: bv32, c: bv32, d: bv32, k: nat, t: bv32,
          s: nat) returns (r: bv32)
    requires |x| == 16 && 48 <= n < 64 && k == 7 * n % 16 && T4(n) == t && Turn(n % 4, 6, 10, 15, 21) == s
    requires k < 16 && s <= 32 && Regs(a, b, c, d) == Operations(origin, x, n)
    ensures Operations(origin, x, n + 1) == Regs(d, r, b, c)
  {
    hide Operations, Step, MacroF, MacroG, MacroH, MacroI, T1, T2, T3, T4, Turn;
    StepIsOperation(origin, x, n, Regs(a, b, c, d), k, t, s);
    r := Step(a, b, MacroI(b, c, d), x[k], t, s);
  }

  method FirstRound(x: seq<bv32>, p: Regs, ghost origin: Regs) returns (r: Regs)
    requires |x| == 16 && p == Operations(origin, x, 0)
    ensures r == Operations(origin, x, 16)
  {
    hide Operations;
    var a, b, c, d := p.a, p.b, p.c, p.d;
    a := StepF(origin, x, 0, a, b, c, d, 0, 0xd76aa478, 7);
    d := StepF(origin, x, 1, d, a, b, c, 1, 0xe8c7b756, 12);
    c := StepF(origin, x, 2, c, d, a, b, 2, 0x242070db, 17);
    b := StepF(origin, x, 3, b, c, d, a, 3, 0xc1bdceee, 22);
    a := StepF(origin, x, 4, a, b, c, d, 4, 0xf57c0faf, 7);
    d := StepF(origin, x, 5, d, a, b, c, 5, 0x4787c62a, 12);
    c := StepF(origin, x, 6, c, d, a, b, 6, 0xa8304613, 17);
    b := StepF(origin, x, 7, b, c, d, a, 7, 0xfd469501, 22);
    a := StepF(origin, x, 8, a, b, c, d, 8, 0x698098d8, 7);
    d := StepF(origin, x, 9, d, a, b, c, 9, 0x8b44f7af, 12);
    c := StepF(origin, x, 10, c, d, a, b, 10, 0xffff5bb1, 17);
    b := StepF(origin, x, 11, b, c, d, a, 11, 0x895cd7be, 22);
    a := StepF(origin, x, 12, a, b, c, d, 12, 0x6b901122, 7);
    d := StepF(origin, x, 13, d, a, b, c, 13, 0xfd987193, 12);
    c := StepF(origin, x, 14, c, d, a, b, 14, 0xa679438e, 17);
    b := StepF(origin, x, 15, b, c, d, a, 15, 0x49b40821, 22);
    r := Regs(a, b, c, d);
  }

  method SecondRound(x: seq<bv32>, p: Regs, ghost origin: Regs) returns (r: Regs)
    requires |x| == 16 && p == Operations(origin, x, 16)
    ensures r == Operations(origin, x, 32)
  {
    hide Operations;
    var a, b, c, d := p.a, p.b, p.c, p.d;
    a := StepG(origin, x, 16, a, b, c, d, 1, 0xf61e2562, 5);
    d := StepG(origin, x, 17, d, a, b, c, 6, 0xc040b340, 9);
    c := StepG(origin, x, 18, c, d, a, b, 11, 0x265e5a51, 14);
    b := StepG(origin, x, 19, b, c, d, a, 0, 0xe9b6c7aa, 20);
    a := StepG(origin, x, 20, a, b, c, d, 5, 0xd62f105d, 5);
    d := StepG(origin, x, 21, d, a, b, c, 10, 0x02441453, 9);
    c := StepG(origin, x, 22, c, d, a, b, 15, 0xd8a1e681, 14);
    b := StepG(origin, x, 23, b, c, d, a, 4, 0xe7d3fbc8, 20);
    a := StepG(origin, x, 24, a, b, c, d, 9, 0x21e1cde6, 5);
    d := StepG(origin, x, 25, d, a, b, c, 14, 0xc33707d6, 9);
    c := StepG(origin, x, 26, c, d, a, b, 3, 0xf4d50d87, 14);
    b := StepG(origin, x, 27, b, c, d, a, 8, 0x455a14ed, 20);
    a := StepG(origin, x, 28, a, b, c, d, 13, 0xa9e3e905, 5);
    d := StepG(origin, x, 29, d, a, b, c, 2, 0xfcefa3f8, 9);
    c := StepG(origin, x, 30, c, d, a, b, 7, 0x676f02d9, 14);
    b := StepG(origin, x, 31, b, c, d, a, 12, 0x8d2a4c8a, 20);
    r := Regs(a, b, c, d);
  }

  method ThirdRound(x: seq<bv32>, p: Regs, ghost origin: Regs) returns (r: Regs)
    requires |x| == 16 && p == Operations(origin, x, 32)
    ensures r == Operations(origin, x, 48)
  {
    hide Operations;
    var a, b, c, d := p.a, p.b, p.c, p.d;
    a := StepH(origin, x, 32, a, b, c, d, 5, 0xfffa3942, 4);
    d := StepH(origin, x, 33, d, a, b, c, 8, 0x8771f681, 11);
    c := StepH(origin, x, 34, c, d, a, b, 11, 0x6d9d6122, 16);
    b := StepH(origin, x, 35, b, c, d, a, 14, 0xfde5380c, 23);
    a := StepH(origin, x, 36, a, b, c, d, 1, 0xa4beea44, 4);
    d := StepH(origin, x, 37, d, a, b, c, 4, 0x4bdecfa9, 11);
    c := StepH(origin, x, 38, c, d, a, b, 7, 0xf6bb4b60, 16);
    b := StepH(origin, x, 39, b, c, d, a, 10, 0xbebfbc70, 23);
    a := StepH(origin, x, 40, a, b, c, d, 13, 0x289b7ec6, 4);
    d := StepH(origin, x, 41, d, a, b, c, 0, 0xeaa127fa, 11);
    c := StepH(origin, x, 42, c, d, a, b, 3, 0xd4ef3085, 16);
    b := StepH(origin, x, 43, b, c, d, a, 6, 0x04881d05, 23);
    a := StepH(origin, x, 44, a, b, c, d, 9, 0xd9d4d039, 4);
    d := StepH(origin, x, 45, d, a, b, c, 12, 0xe6db99e5, 11);
    c := StepH(origin, x, 46, c, d, a, b, 15, 0x1fa27cf8, 16);
    b := StepH(origin, x, 47, b, c, d, a, 2, 0xc4ac5665, 23);
    r := Regs(a, b, c, d);
  }

  method FourthRound(x: seq<bv32>, p: Regs, ghost origin: Regs) returns (r: Regs)
    requires |x| == 16 && p == Operations(origin, x, 48)
    ensures r == Operations(origin, x, 64)
  {
    hide Operations;
    var a, b, c, d := p.a, p.b, p.c, p.d;
    a := StepI(origin, x, 48, a, b, c, d, 0, 0xf4292244, 6);
    d := StepI(origin, x, 49, d, a, b, c, 7, 0x432aff97, 10);
    c := StepI(origin, x, 50, c, d, a, b, 14, 0xab9423a7, 15);
    b := StepI(origin, x, 51, b, c, d, a, 5, 0xfc93a039, 21);
    a := StepI(origin, x, 52, a, b, c, d, 12, 0x655b59c3, 6);
    d := StepI(origin, x, 53, d, a, b, c, 3, 0x8f0ccc92, 10);
    c := StepI(origin, x, 54, c, d, a, b, 10, 0xffeff47d, 15);
    b := StepI(origin, x, 55, b, c, d, a, 1, 0x85845dd1, 21);
    a := StepI(origin, x, 56, a, b, c, d, 8, 0x6fa87e4f, 6);
    d := StepI(origin, x, 57, d, a, b, c, 15, 0xfe2ce6e0, 10);
    c := StepI(origin, x, 58, c, d, a, b, 6, 0xa3014314, 15);
    b := StepI(origin, x, 59, b, c, d, a, 13, 0x4e0811a1, 21);
    a := StepI(origin, x, 60, a, b, c, d, 4, 0xf7537e82, 6);
    d := StepI(origin, x, 61, d, a, b, c, 11, 0xbd3af235, 10);
    c := StepI(origin, x, 62, c, d, a, b, 2, 0x2ad7d2bb, 15);
    b := StepI(origin, x, 63, b, c, d, a, 9, 0xeb86d391, 21);
    r := Regs(a, b, c, d);
  }

  lemma NoOperations(r: Regs, x: seq<bv32>)
    requires |x| == 16
    ensures Operations(r, x, 0) == r
  {
  }

  /** One turn of the loop: saved registers, four rounds, sums. */
  method Transform(r: Regs, block: seq<bv8>) returns (q: Regs)
    requires |block| == 64
    ensures q == Compress(r, block)
  {
    hide Operations, Plus, Words;
    var x := Words(block);
    NoOperations(r, x);
    q := FirstRound(x, r, r);
    q := SecondRound(x, q, r);
    q := ThirdRound(x, q, r);
    q := FourthRound(x, q, r);
    q := Regs(Plus(q.a, r.a), Plus(q.b, r.b), Plus(q.c, r.c), Plus(q.d, r.d));
  }

  // ------------------------------------------------ the digest bytes

  /** A word as bytes, least significant first. */
  function Bytes(x: bv32): (b: seq<bv8>)
    ensures |b| == 4
  {
    [(x & 255) as bv8, ((x >> 8) & 255) as bv8, ((x >> 16) & 255) as bv8, ((x >> 24) & 255) as bv8]
  }

  /** What digest writes out. */
  function Store(r: Regs): (b: seq<bv8>)
    ensures |b| == 16
  {
    Bytes(r.a) + Bytes(r.b) + Bytes(r.c) + Bytes(r.d)
  }

  /** Storing a word loses nothing: loading the bytes gives it back. */
  lemma LoadStored(x: bv32)
    ensures Load(Bytes(x), 0) == x
  {
  }

  lemma BytesInjective(x: bv32, y: bv32)
    requires Bytes(x) == Bytes(y)
    ensures x == y
  {
    hide Bytes, Load;
    LoadStored(x);
    LoadStored(y);
  }

  /** The digest bytes hold every register: different registers are written differently. */
  lemma StoreInjective(r: Regs, q: Regs)
    ensures Store(r) == Store(q) <==> r == q
  {
    hide Bytes;
    if Store(r) == Store(q) {
      var r1 := Bytes(r.a);
      var q1 := Bytes(q.a);
      var r2 := r1 + Bytes(r.b);
      var q2 := q1 + Bytes(q.b);
      var r3 := r2 + Bytes(r.c);
      var q3 := q2 + Bytes(q.c);
      EqualEnds(r3, Bytes(r.d), q3, Bytes(q.d));
      EqualEnds(r2, Bytes(r.c), q2, Bytes(q.c));
      EqualEnds(r1, Bytes(r.b), q1, Bytes(q.b));
      BytesInjective(r.a, q.a); BytesInjective(r.b, q.b); BytesInjective(r.c, q.c); BytesInjective(r.d, q.d);
    }
  }

  /** The block function; anything but a whole block is ignored. */
  function Block(r: Regs, block: seq<bv8>): (result: Regs) {
    if |block| == 64 then Compress(r, block) else r
  }
}

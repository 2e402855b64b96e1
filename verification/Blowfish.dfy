/** The Blowfish cipher for an arbitrary context, and its ECB and CBC modes in place. */
module Blowfish {

  /** The context: four S-boxes laid out in a row, and eighteen subkeys. */
  datatype Context = Context(S: seq<bv32>, P: seq<bv32>) {
    ghost predicate Valid() {
      |S| == 0x400 && |P| == 18
    }
  }

  datatype Halves = Halves(l: bv32, r: bv32)

  function Byte(x: bv32, shift: bv8): (r: bv8)
    requires shift <= 24
  {
    ((x >> shift) & 0xFF) as bv8
  }

  function Combined(w: bv32, x: bv32, y: bv32, z: bv32): (r: bv32) { ((w + x) ^ y) + z }

  /** The round function of the Feistel network. */
  function F(s: seq<bv32>, x: bv32): (r: bv32)
    requires |s| == 0x400
  {
    Combined(s[Byte(x, 24) as int], s[0x100 + Byte(x, 16) as int], s[0x200 + Byte(x, 8) as int],
             s[0x300 + Byte(x, 0) as int])
  }

  lemma BytesOf(a: bv8, b: bv8, c: bv8, d: bv8)
    ensures var x := ((a as bv32) << 24) | ((b as bv32) << 16) | ((c as bv32) << 8) | (d as bv32);
      Byte(x, 24) == a && Byte(x, 16) == b && Byte(x, 8) == c && Byte(x, 0) == d
  {
  }

  /** F on the word with the bytes a, b, c and d, the highest first: one entry of each box. */
  lemma FOfBytes(s: seq<bv32>, x: bv32, a: bv8, b: bv8, c: bv8, d: bv8)
    requires |s| == 0x400
    requires Byte(x, 24) == a && Byte(x, 16) == b && Byte(x, 8) == c && Byte(x, 0) == d
    ensures F(s, x) == Combined(s[a as int], s[256 + b as int], s[512 + c as int], s[768 + d as int])
  {
    hide Byte, Combined;
  }

  /** Which entries are added modulo 2^32 and which are combined by exclusive or. */
  lemma CombinedIs(w: bv32, x: bv32, y: bv32, z: bv32)
    ensures Combined(w, x, y, z) == ((w + x) ^ y) + z
    ensures Combined(1, 3, 6, 5) == 7
  {
  }

  function Xor(x: bv32, y: bv32): (r: bv32) { x ^ y }

  lemma XorFacts(x: bv32, y: bv32, z: bv32)
    ensures Xor(Xor(x, y), y) == x && Xor(x, 0) == x && Xor(x, y) == Xor(y, x)
    ensures Xor(x, Xor(y, z)) == Xor(Xor(x, y), z)
  {
  }

  /** `i ^= F(s, j) ^ p[n]`. */
  function BlfRnd(c: Context, i: bv32, j: bv32, n: nat): (r: bv32)
    requires c.Valid() && n < 18
  {
    Xor(i, Xor(F(c.S, j), c.P[n]))
  }

  // ------------------------------------------------ the cipher as a function

  /** Round n changes the right half when `right`, the left half otherwise. */
  function Round(c: Context, h: Halves, n: nat, right: bool): (result: Halves)
    requires c.Valid() && n < 18
  {
    if right then Halves(h.l, BlfRnd(c, h.r, h.l, n)) else Halves(BlfRnd(c, h.l, h.r, n), h.r)
  }

  /** Rounds 1 to n: odd rounds change the right half. */
  function Forward(c: Context, h: Halves, n: nat): (r: Halves)
    requires c.Valid() && n <= 16
  {
    if n == 0 then h else Round(c, Forward(c, h, n - 1), n, n % 2 == 1)
  }

  /** Rounds 16 down to n + 1: even rounds change the right half. */
  function Backward(c: Context, h: Halves, n: nat): (r: Halves)
    requires c.Valid() && n <= 16
    decreases 16 - n
  {
    if n == 16 then h else Round(c, Backward(c, h, n + 1), n + 1, n % 2 == 1)
  }

  function Enciphered(c: Context, h: Halves): (result: Halves)
    requires c.Valid()
  {
    var x := Forward(c, Halves(Xor(h.l, c.P[0]), h.r), 16);
    Halves(Xor(x.r, c.P[17]), x.l)
  }

  function Deciphered(c: Context, h: Halves): (result: Halves)
    requires c.Valid()
  {
    var x := Backward(c, Halves(Xor(h.l, c.P[17]), h.r), 0);
    Halves(Xor(x.r, c.P[0]), x.l)
  }

  function Swapped(h: Halves): (result: Halves) { Halves(h.r, h.l) }

  lemma RoundUndone(c: Context, h: Halves, n: nat, right: bool)
    requires c.Valid() && n < 18
    ensures Round(c, Swapped(Round(c, h, n, right)), n, !right) == Swapped(h)
  {
    hide F, Xor;
    XorFacts(h.r, Xor(F(c.S, h.l), c.P[n]), 0);
    XorFacts(h.l, Xor(F(c.S, h.r), c.P[n]), 0);
  }

  /** Running the rounds backward on exchanged halves unwinds them one by one. */
  lemma {:induction false} BackwardUnwinds(c: Context, h: Halves, n: nat)
    requires c.Valid() && n <= 16
    ensures Backward(c, Swapped(Forward(c, h, 16)), n) == Swapped(Forward(c, h, n))
    decreases 16 - n
  {
    hide Round;
    if n < 16 {
      BackwardUnwinds(c, h, n + 1);
      RoundUndone(c, Forward(c, h, n), n + 1, (n + 1) % 2 == 1);
    }
  }

  lemma {:induction false} ForwardUnwinds(c: Context, h: Halves, n: nat)
    requires c.Valid() && n <= 16
    ensures Forward(c, Swapped(Backward(c, h, 0)), n) == Swapped(Backward(c, h, n))
  {
    hide Round;
    if n > 0 {
      ForwardUnwinds(c, h, n - 1);
      RoundUndone(c, Backward(c, h, n), n, n % 2 == 0);
    }
  }

  /** Decipher inverts encipher, and encipher decipher, for every context. */
  lemma CipherInverts(c: Context, h: Halves)
    requires c.Valid()
    ensures Deciphered(c, Enciphered(c, h)) == h
    ensures Enciphered(c, Deciphered(c, h)) == h
  {
    hide Forward, Backward, Xor;
    var e := Halves(Xor(h.l, c.P[0]), h.r);
    BackwardUnwinds(c, e, 0);
    NoRounds(c, e);
    XorFacts(h.l, c.P[0], 0);
    XorFacts(Forward(c, e, 16).r, c.P[17], 0);
    var d := Halves(Xor(h.l, c.P[17]), h.r);
    ForwardUnwinds(c, d, 16);
    NoRounds(c, d);
    XorFacts(h.l, c.P[17], 0);
    XorFacts(Backward(c, d, 0).r, c.P[0], 0);
  }

  lemma NoRounds(c: Context, h: Halves)
    requires c.Valid()
    ensures Forward(c, h, 0) == h && Backward(c, h, 16) == h
  {
  }

  // ------------------------------------------------ the published algorithm

  /** n rounds as published: xL ^= P, xR ^= F(xL), exchange. Subkeys are numbered from 0. */
  ghost function Published(c: Context, h: Halves, n: nat): (result: Halves)
    requires c.Valid() && n <= 16
  {
    if n == 0 then h else
    var p := Published(c, h, n - 1);
    var l := Xor(p.l, c.P[n - 1]);
    Halves(Xor(p.r, F(c.S, l)), l)
  }

  /** The published cipher: sixteen rounds, the last exchange undone, two final subkeys. */
  ghost function PublishedCipher(c: Context, h: Halves): (result: Halves)
    requires c.Valid()
  {
    var p := Published(c, h, 16);
    Halves(Xor(p.r, c.P[17]), Xor(p.l, c.P[16]))
  }

  /** The code's rounds fold each subkey into the round before and never exchange the halves. */
  lemma {:induction false} RoundsArePublished(c: Context, h: Halves, n: nat)
    requires c.Valid() && n <= 16
    ensures var p := Published(c, h, n);
            var x := Forward(c, Halves(Xor(h.l, c.P[0]), h.r), n);
            x == if n % 2 == 0 then Halves(Xor(p.l, c.P[n]), p.r) else Halves(p.r, Xor(p.l, c.P[n]))
  {
    hide F, Xor;
    if n > 0 {
      RoundsArePublished(c, h, n - 1);
      var p := Published(c, h, n - 1);
      XorFacts(p.r, F(c.S, Xor(p.l, c.P[n - 1])), c.P[n]);
    }
  }

  lemma EncipherIsPublished(c: Context, h: Halves)
    requires c.Valid()
    ensures Enciphered(c, h) == PublishedCipher(c, h)
  {
    hide F, Xor, Published, Forward;
    RoundsArePublished(c, h, 16);
  }

  // ------------------------------------------------ every subkey matters

  /** The contexts differ in subkey i at most. */
  ghost predicate AgreeOutside(c1: Context, c2: Context, i: nat) {
    && c1.Valid() && c2.Valid() && i < 18 && c1.S == c2.S
    && forall j :: 0 <= j < 18 && j != i ==> c1.P[j] == c2.P[j]
  }

  lemma XorChain(x: bv32, y: bv32, f: bv32, p: bv32, q: bv32)
    ensures Xor(x, Xor(f, p)) == Xor(y, Xor(f, p)) <==> x == y
    ensures Xor(x, Xor(f, p)) == Xor(x, Xor(f, q)) <==> p == q
  {
  }

  lemma XorSame(x: bv32, y: bv32, z: bv32)
    ensures (Xor(x, z) == Xor(y, z) <==> x == y) && (Xor(z, x) == Xor(z, y) <==> x == y)
  {
  }

  lemma SameSubkey(c1: Context, c2: Context, i: nat)
    requires AgreeOutside(c1, c2, i)
    ensures c1.P[i] == c2.P[i] <==> c1 == c2
  {
    if c1.P[i] == c2.P[i] {
      assert c1.P == c2.P;
    }
  }

  lemma RoundDiffers(c1: Context, c2: Context, i: nat, x: Halves, y: Halves, n: nat, right: bool)
    requires AgreeOutside(c1, c2, i) && n < 18
    ensures n != i ==> (Round(c1, x, n, right) == Round(c2, y, n, right) <==> x == y)
    ensures n == i && x == y ==> (Round(c1, x, n, right) == Round(c2, y, n, right) <==> c1 == c2)
  {
    hide F, Xor;
    SameSubkey(c1, c2, i);
    if right {
      XorChain(x.r, y.r, F(c1.S, x.l), c1.P[n], c2.P[n]);
    } else {
      XorChain(x.l, y.l, F(c1.S, x.r), c1.P[n], c2.P[n]);
    }
  }

  lemma {:induction false} ForwardDiffers(c1: Context, c2: Context, i: nat, x: Halves, y: Halves, n: nat)
    requires AgreeOutside(c1, c2, i) && n <= 16
    requires i == 0 || x == y
    ensures i == 0 || n < i ==> (Forward(c1, x, n) == Forward(c2, y, n) <==> x == y)
    ensures 0 < i <= n ==> (Forward(c1, x, n) == Forward(c2, y, n) <==> c1 == c2)
  {
    hide Round;
    if n > 0 {
      ForwardDiffers(c1, c2, i, x, y, n - 1);
      RoundDiffers(c1, c2, i, Forward(c1, x, n - 1), Forward(c2, y, n - 1), n, n % 2 == 1);
    }
  }

  /** Whichever subkey two contexts differ in, they encipher every block differently. */
  lemma EncipherNeedsSubkey(c1: Context, c2: Context, i: nat, h: Halves)
    requires AgreeOutside(c1, c2, i)
    ensures Enciphered(c1, h) == Enciphered(c2, h) <==> c1 == c2
  {
    hide Forward, Xor;
    SameSubkey(c1, c2, i);
    var x, y := Halves(Xor(h.l, c1.P[0]), h.r), Halves(Xor(h.l, c2.P[0]), h.r);
    XorSame(c1.P[0], c2.P[0], h.l);
    ForwardDiffers(c1, c2, i, x, y, 16);
    var u, v := Forward(c1, x, 16), Forward(c2, y, 16);
    XorSame(u.r, v.r, c1.P[17]);
    XorSame(c1.P[17], c2.P[17], u.r);
  }

  lemma DecipherNeedsSubkey(c1: Context, c2: Context, i: nat, h: Halves)
    requires AgreeOutside(c1, c2, i)
    ensures Deciphered(c1, h) == Deciphered(c2, h) <==> c1 == c2
  {
    hide Enciphered, Deciphered;
    CipherInverts(c1, h);
    CipherInverts(c2, h);
    EncipherNeedsSubkey(c1, c2, i, Deciphered(c1, h));
  }

  // ------------------------------------------------ the routines

  lemma TwoRounds(c: Context, h: Halves, n: nat)
    requires c.Valid() && n <= 14 && n % 2 == 0
    ensures Forward(c, h, n + 2) == Round(c, Round(c, Forward(c, h, n), n + 1, true), n + 2, false)
  {
    hide Round;
  }

  lemma TwoBack(c: Context, h: Halves, n: nat)
    requires c.Valid() && 2 <= n <= 16 && n % 2 == 0
    ensures Backward(c, h, n - 2) == Round(c, Round(c, Backward(c, h, n), n, true), n - 1, false)
  {
    hide Round;
  }

  method Encipher(c: Context, xl: bv32, xr: bv32) returns (l: bv32, r: bv32)
    requires c.Valid()
    ensures Halves(l, r) == Enciphered(c, Halves(xl, xr))
  {
    hide BlfRnd, Forward, Xor;
    var Xl, Xr := Xor(xl, c.P[0]), xr;
    ghost var start := Halves(Xl, Xr);
    NoRounds(c, start);
    Xr := BlfRnd(c, Xr, Xl, 1);
    Xl := BlfRnd(c, Xl, Xr, 2);
    assert Halves(Xl, Xr) == Forward(c, start, 2) by { TwoRounds(c, start, 0); }
    Xr := BlfRnd(c, Xr, Xl, 3);
    Xl := BlfRnd(c, Xl, Xr, 4);
    assert Halves(Xl, Xr) == Forward(c, start, 4) by { TwoRounds(c, start, 2); }
    Xr := BlfRnd(c, Xr, Xl, 5);
    Xl := BlfRnd(c, Xl, Xr, 6);
    assert Halves(Xl, Xr) == Forward(c, start, 6) by { TwoRounds(c, start, 4); }
    Xr := BlfRnd(c, Xr, Xl, 7);
    Xl := BlfRnd(c, Xl, Xr, 8);
    assert Halves(Xl, Xr) == Forward(c, start, 8) by { TwoRounds(c, start, 6); }
    Xr := BlfRnd(c, Xr, Xl, 9);
    Xl := BlfRnd(c, Xl, Xr, 10);
    assert Halves(Xl, Xr) == Forward(c, start, 10) by { TwoRounds(c, start, 8); }
    Xr := BlfRnd(c, Xr, Xl, 11);
    Xl := BlfRnd(c, Xl, Xr, 12);
    assert Halves(Xl, Xr) == Forward(c, start, 12) by { TwoRounds(c, start, 10); }
    Xr := BlfRnd(c, Xr, Xl, 13);
    Xl := BlfRnd(c, Xl, Xr, 14);
    assert Halves(Xl, Xr) == Forward(c, start, 14) by { TwoRounds(c, start, 12); }
    Xr := BlfRnd(c, Xr, Xl, 15);
    Xl := BlfRnd(c, Xl, Xr, 16);
    assert Halves(Xl, Xr) == Forward(c, start, 16) by { TwoRounds(c, start, 14); }
    l := Xor(Xr, c.P[17]);
    r := Xl;
  }

  method Decipher(c: Context, xl: bv32, xr: bv32) returns (l: bv32, r: bv32)
    requires c.Valid()
    ensures Halves(l, r) == Deciphered(c, Halves(xl, xr))
  {
    hide BlfRnd, Backward, Xor;
    var Xl, Xr := Xor(xl, c.P[17]), xr;
    ghost var start := Halves(Xl, Xr);
    NoRounds(c, start);
    Xr := BlfRnd(c, Xr, Xl, 16);
    Xl := BlfRnd(c, Xl, Xr, 15);
    assert Halves(Xl, Xr) == Backward(c, start, 14) by { TwoBack(c, start, 16); }
    Xr := BlfRnd(c, Xr, Xl, 14);
    Xl := BlfRnd(c, Xl, Xr, 13);
    assert Halves(Xl, Xr) == Backward(c, start, 12) by { TwoBack(c, start, 14); }
    Xr := BlfRnd(c, Xr, Xl, 12);
    Xl := BlfRnd(c, Xl, Xr, 11);
    assert Halves(Xl, Xr) == Backward(c, start, 10) by { TwoBack(c, start, 12); }
    Xr := BlfRnd(c, Xr, Xl, 10);
    Xl := BlfRnd(c, Xl, Xr, 9);
    assert Halves(Xl, Xr) == Backward(c, start, 8) by { TwoBack(c, start, 10); }
    Xr := BlfRnd(c, Xr, Xl, 8);
    Xl := BlfRnd(c, Xl, Xr, 7);
    assert Halves(Xl, Xr) == Backward(c, start, 6) by { TwoBack(c, start, 8); }
    Xr := BlfRnd(c, Xr, Xl, 6);
    Xl := BlfRnd(c, Xl, Xr, 5);
    assert Halves(Xl, Xr) == Backward(c, start, 4) by { TwoBack(c, start, 6); }
    Xr := BlfRnd(c, Xr, Xl, 4);
    Xl := BlfRnd(c, Xl, Xr, 3);
    assert Halves(Xl, Xr) == Backward(c, start, 2) by { TwoBack(c, start, 4); }
    Xr := BlfRnd(c, Xr, Xl, 2);
    Xl := BlfRnd(c, Xl, Xr, 1);
    assert Halves(Xl, Xr) == Backward(c, start, 0) by { TwoBack(c, start, 2); }
    l := Xor(Xr, c.P[0]);
    r := Xl;
  }
}

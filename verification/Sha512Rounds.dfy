/**
 sha512_transform: eight rounds are unrolled and the eight registers are never moved; each
 round names them in rotated order instead. `Round` below is the round of section 6.4.2 of
 FIPS 180-4, which moves every register.
 */
module Sha512Rounds {
  import opened MessagePadding

  datatype Regs = Regs(a: bv64, b: bv64, c: bv64, d: bv64, e: bv64, f: bv64, g: bv64, h: bv64)

  // ------------------------------------------------ FIPS 180-4, sections 4.1.3 and 6.4.2

  /** Addition modulo 2^64. */
  function Plus(x: bv64, y: bv64): (r: bv64) { x + y }

  function Ch(x: bv64, y: bv64, z: bv64): (r: bv64) { (x & y) ^ (!x & z) }

  function Maj(x: bv64, y: bv64, z: bv64): (r: bv64) { (x & y) ^ (x & z) ^ (y & z) }

  function Sigma0(x: bv64): (r: bv64) { ((x >> 28) | (x << 36)) ^ ((x >> 34) | (x << 30)) ^ ((x >> 39) | (x << 25)) }

  function Sigma1(x: bv64): (r: bv64) { ((x >> 14) | (x << 50)) ^ ((x >> 18) | (x << 46)) ^ ((x >> 41) | (x << 23)) }

  function Gamma0(x: bv64): (r: bv64) { ((x >> 1) | (x << 63)) ^ ((x >> 8) | (x << 56)) ^ (x >> 7) }

  function Gamma1(x: bv64): (r: bv64) { ((x >> 19) | (x << 45)) ^ ((x >> 61) | (x << 3)) ^ (x >> 6) }

  function Round(r: Regs, k: bv64, w: bv64): (result: Regs) {
    var t1 := Plus(Plus(Plus(Plus(r.h, Sigma1(r.e)), Ch(r.e, r.f, r.g)), k), w);
    var t2 := Plus(Sigma0(r.a), Maj(r.a, r.b, r.c));
    Regs(Plus(t1, t2), r.a, r.b, r.c, Plus(r.d, t1), r.e, r.f, r.g)
  }

  function Rounds(r: Regs, k: seq<bv64>, w: seq<bv64>, n: nat): (result: Regs)
    requires n <= |k| && n <= |w|
  {
    if n == 0 then r else Round(Rounds(r, k, w, n - 1), k[n - 1], w[n - 1])
  }

  /** Word t of the block, most significant byte first. */
  function Load(block: seq<bv8>, t: nat): (r: bv64)
    requires 8 * t + 8 <= |block|
  {
    ((block[8 * t] as bv64) << 56) | ((block[8 * t + 1] as bv64) << 48)
    | ((block[8 * t + 2] as bv64) << 40) | ((block[8 * t + 3] as bv64) << 32)
    | ((block[8 * t + 4] as bv64) << 24) | ((block[8 * t + 5] as bv64) << 16)
    | ((block[8 * t + 6] as bv64) << 8) | (block[8 * t + 7] as bv64)
  }

  /** The first n words of the message schedule. */
  function Schedule(block: seq<bv8>, n: nat): (w: seq<bv64>)
    requires |block| == 128
    ensures |w| == n
  {
    if n == 0 then [] else
    var w := Schedule(block, n - 1);
    var t := n - 1;
    w + [if t < 16 then Load(block, t)
         else Plus(Plus(Plus(Gamma1(w[t - 2]), w[t - 7]), Gamma0(w[t - 15])), w[t - 16])]
  }

  function Compress(k: seq<bv64>, r: Regs, block: seq<bv8>): (result: Regs)
    requires |k| == 80 && |block| == 128
  {
    var s := Rounds(r, k, Schedule(block, 80), 80);
    Regs(Plus(r.a, s.a), Plus(r.b, s.b), Plus(r.c, s.c), Plus(r.d, s.d),
         Plus(r.e, s.e), Plus(r.f, s.f), Plus(r.g, s.g), Plus(r.h, s.h))
  }

  // ------------------------------------------------ the routine

  function ChMacro(x: bv64, y: bv64, z: bv64): (r: bv64) { z ^ (x & (y ^ z)) }

  function MajMacro(x: bv64, y: bv64, z: bv64): (r: bv64) { ((x | y) & z) | (x & y) }

  lemma ChBits(x: bv64, y: bv64, z: bv64)
    ensures z ^ (x & (y ^ z)) == (x & y) ^ (!x & z)
  {
  }

  lemma MajBits(x: bv64, y: bv64, z: bv64)
    ensures ((x | y) & z) | (x & y) == (x & y) ^ (x & z) ^ (y & z)
  {
  }

  lemma MacrosAgree(x: bv64, y: bv64, z: bv64)
    ensures ChMacro(x, y, z) == Ch(x, y, z) && MajMacro(x, y, z) == Maj(x, y, z)
  {
    ChBits(x, y, z);
    MajBits(x, y, z);
  }

  /** The names of one macro call: cells of the array, the two written ones named once. */
  predicate Registers(a: int, b: int, c: int, d: int, e: int, f: int, g: int, h: int) {
    && 0 <= a < 8 && 0 <= b < 8 && 0 <= c < 8 && 0 <= d < 8 && 0 <= e < 8 && 0 <= f < 8 && 0 <= g < 8 && 0 <= h < 8
    && d != a && d != b && d != c && d != e && d != f && d != g && d != h
    && h != a && h != b && h != c && h != e && h != f && h != g
  }

  /** The registers as named by one macro call. */
  ghost function Named(s: seq<bv64>, a: int, b: int, c: int, d: int, e: int, f: int, g: int, h: int): (r: Regs)
    requires |s| == 8 && 0 <= a < 8 && 0 <= b < 8 && 0 <= c < 8 && 0 <= d < 8
    requires 0 <= e < 8 && 0 <= f < 8 && 0 <= g < 8 && 0 <= h < 8
  {
    Regs(s[a], s[b], s[c], s[d], s[e], s[f], s[g], s[h])
  }

  /** One expansion of the round macro: only the registers named d and h are written. */
  method RoundMacro(s: array<bv64>, a: int, b: int, c: int, d: int, e: int, f: int, g: int, h: int, k: bv64, w: bv64)
    requires s.Length == 8 && Registers(a, b, c, d, e, f, g, h)
    modifies s
    ensures Named(s[..], h, a, b, c, d, e, f, g) == Round(Named(old(s[..]), a, b, c, d, e, f, g, h), k, w)
  {
    hide Plus, Ch, Maj, Sigma0, Sigma1, ChMacro, MajMacro;
    MacrosAgree(s[e], s[f], s[g]);
    MacrosAgree(s[a], s[b], s[c]);
    var t0 := Plus(Plus(Plus(Plus(s[h], Sigma1(s[e])), ChMacro(s[e], s[f], s[g])), k), w);
    var t1 := Plus(Sigma0(s[a]), MajMacro(s[a], s[b], s[c]));
    s[d] := Plus(s[d], t0);
    s[h] := Plus(t0, t1);
  }

  lemma ScheduleStep(block: seq<bv8>, t: nat)
    requires |block| == 128
    ensures Schedule(block, 0) == []
    ensures t < 16 ==> Schedule(block, t + 1) == Schedule(block, t) + [Load(block, t)]
    ensures t >= 16 ==>
              var w := Schedule(block, t);
              Schedule(block, t + 1) ==
              w + [Plus(Plus(Plus(Gamma1(w[t - 2]), w[t - 7]), Gamma0(w[t - 15])), w[t - 16])]
  {
    hide Plus, Gamma0, Gamma1, Load;
  }

  /** Filling W: the sixteen words of the block, then the expansion. */
  method FillSchedule(buf: seq<bv8>, w: array<bv64>)
    requires |buf| == 128 && w.Length == 80
    modifies w
    ensures w[..] == Schedule(buf, 80)
  {
    hide Plus, Gamma0, Gamma1, Load, Schedule;
    var i := 0;
    ScheduleStep(buf, 0);
    while i < 16
      invariant 0 <= i <= 16 && w[..i] == Schedule(buf, i)
    {
      ScheduleStep(buf, i);
      w[i] := Load(buf, i);
      assert w[..i + 1] == w[..i] + [w[i]];
      i := i + 1;
    }
    while i < 80
      invariant 16 <= i <= 80 && w[..i] == Schedule(buf, i)
    {
      ScheduleStep(buf, i);
      ghost var done := w[..i];
      w[i] := Plus(Plus(Plus(Gamma1(w[i - 2]), w[i - 7]), Gamma0(w[i - 15])), w[i - 16]);
      assert w[..i + 1] == done + [w[i]];
      i := i + 1;
    }
    assert w[..80] == w[..];
  }

  /** The registers in array order. */
  ghost function InOrder(s: seq<bv64>): (r: Regs)
    requires |s| == 8
  {
    Named(s, 0, 1, 2, 3, 4, 5, 6, 7)
  }

  lemma EightRounds(r: Regs, k: seq<bv64>, w: seq<bv64>, i: nat)
    requires i + 8 <= |k| && i + 8 <= |w|
    ensures Rounds(r, k, w, i + 8) ==
            Round(Round(Round(Round(Round(Round(Round(Round(Rounds(r, k, w, i),
              k[i], w[i]), k[i + 1], w[i + 1]), k[i + 2], w[i + 2]), k[i + 3], w[i + 3]),
              k[i + 4], w[i + 4]), k[i + 5], w[i + 5]), k[i + 6], w[i + 6]), k[i + 7], w[i + 7])
  {
    hide Round;
    assert Rounds(r, k, w, i + 2) == Round(Rounds(r, k, w, i + 1), k[i + 1], w[i + 1]);
    assert Rounds(r, k, w, i + 4) == Round(Rounds(r, k, w, i + 3), k[i + 3], w[i + 3]);
    assert Rounds(r, k, w, i + 6) == Round(Rounds(r, k, w, i + 5), k[i + 5], w[i + 5]);
  }

  /** The unrolled loop body: eight expansions, each naming the registers one step further round. */
  method EightMacros(s: array<bv64>, k: seq<bv64>, w: seq<bv64>, i: nat)
    requires s.Length == 8 && i + 8 <= |k| && i + 8 <= |w|
    modifies s
    ensures forall r :: InOrder(old(s[..])) == Rounds(r, k, w, i) ==> InOrder(s[..]) == Rounds(r, k, w, i + 8)
  {
    hide Round, Rounds;
    forall r { EightRounds(r, k, w, i); }
    RoundMacro(s, 0, 1, 2, 3, 4, 5, 6, 7, k[i], w[i]);
    RoundMacro(s, 7, 0, 1, 2, 3, 4, 5, 6, k[i + 1], w[i + 1]);
    RoundMacro(s, 6, 7, 0, 1, 2, 3, 4, 5, k[i + 2], w[i + 2]);
    RoundMacro(s, 5, 6, 7, 0, 1, 2, 3, 4, k[i + 3], w[i + 3]);
    RoundMacro(s, 4, 5, 6, 7, 0, 1, 2, 3, k[i + 4], w[i + 4]);
    RoundMacro(s, 3, 4, 5, 6, 7, 0, 1, 2, k[i + 5], w[i + 5]);
    RoundMacro(s, 2, 3, 4, 5, 6, 7, 0, 1, k[i + 6], w[i + 6]);
    RoundMacro(s, 1, 2, 3, 4, 5, 6, 7, 0, k[i + 7], w[i + 7]);
  }

  lemma NoRounds(r: Regs, k: seq<bv64>, w: seq<bv64>)
    ensures Rounds(r, k, w, 0) == r
  {
  }

  method RunRounds(k: seq<bv64>, s: array<bv64>, w: array<bv64>)
    requires |k| == 80 && s.Length == 8 && w.Length == 80 && s != w
    modifies s
    ensures InOrder(s[..]) == Rounds(InOrder(old(s[..])), k, w[..], 80)
  {
    hide Rounds;
    ghost var r, words := InOrder(s[..]), w[..];
    NoRounds(r, k, words);
    var i := 0;
    while i < 80
      invariant 0 <= i <= 80 && i % 8 == 0
      invariant InOrder(s[..]) == Rounds(r, k, words, i) && w[..] == words
    {
      EightMacros(s, k, w[..], i);
      i := i + 8;
    }
  }

  method Feedback(state: array<bv64>, s: array<bv64>)
    requires state.Length == 8 && s.Length == 8 && state != s
    modifies state
    ensures forall i :: 0 <= i < 8 ==> state[i] == Plus(old(state[i]), s[i])
  {
    hide Plus;
    var i := 0;
    while i < 8
      invariant 0 <= i <= 8
      invariant forall j :: 0 <= j < i ==> state[j] == Plus(old(state[j]), s[j])
      invariant forall j :: i <= j < 8 ==> state[j] == old(state[j])
    {
      state[i] := Plus(state[i], s[i]);
      i := i + 1;
    }
  }

  method Transform(k: seq<bv64>, state: array<bv64>, buf: seq<bv8>)
    requires |k| == 80 && state.Length == 8 && |buf| == 128
    modifies state
    ensures InOrder(state[..]) == Compress(k, InOrder(old(state[..])), buf)
  {
    hide Plus, Rounds, Schedule;
    var s := new bv64[8];
    var i := 0;
    while i < 8
      invariant 0 <= i <= 8 && state[..] == old(state[..])
      invariant forall j :: 0 <= j < i ==> s[j] == state[j]
    {
      s[i] := state[i];
      i := i + 1;
    }
    assert InOrder(s[..]) == InOrder(state[..]);
    var w := new bv64[80];
    FillSchedule(buf, w);
    RunRounds(k, s, w);
    Feedback(state, s);
  }

  /** A word as bytes, most significant first. */
  function Bytes(x: bv64): (b: seq<bv8>)
    ensures |b| == 8
  {
    [((x >> 56) & 255) as bv8, ((x >> 48) & 255) as bv8, ((x >> 40) & 255) as bv8, ((x >> 32) & 255) as bv8,
     ((x >> 24) & 255) as bv8, ((x >> 16) & 255) as bv8, ((x >> 8) & 255) as bv8, (x & 255) as bv8]
  }

  /** What digest writes out. */
  function Store(r: Regs): (b: seq<bv8>)
    ensures |b| == 64
  {
    Bytes(r.a) + Bytes(r.b) + Bytes(r.c) + Bytes(r.d) + Bytes(r.e) + Bytes(r.f) + Bytes(r.g) + Bytes(r.h)
  }

  /** Storing a word loses nothing: loading the bytes gives it back. */
  lemma LoadStored(x: bv64)
    ensures Load(Bytes(x), 0) == x
  {
  }

  lemma BytesInjective(x: bv64, y: bv64)
    requires Bytes(x) == Bytes(y)
    ensures x == y
  {
    hide Bytes, Load;
    LoadStored(x);
    LoadStored(y);
  }

  /** The digest bytes hold every register: different registers are written differently. */
  lemma StoreInjective(r: Regs, q: Regs)
    ensures Store(r) == Store(q) <==> r == q
  {
    hide Bytes;
    if Store(r) == Store(q) {
      var r1 := Bytes(r.a);
      var q1 := Bytes(q.a);
      var r2 := r1 + Bytes(r.b);
      var q2 := q1 + Bytes(q.b);
      var r3 := r2 + Bytes(r.c);
      var q3 := q2 + Bytes(q.c);
      var r4 := r3 + Bytes(r.d);
      var q4 := q3 + Bytes(q.d);
      var r5 := r4 + Bytes(r.e);
      var q5 := q4 + Bytes(q.e);
      var r6 := r5 + Bytes(r.f);
      var q6 := q5 + Bytes(q.f);
      var r7 := r6 + Bytes(r.g);
      var q7 := q6 + Bytes(q.g);
      EqualEnds(r7, Bytes(r.h), q7, Bytes(q.h));
      EqualEnds(r6, Bytes(r.g), q6, Bytes(q.g));
      EqualEnds(r5, Bytes(r.f), q5, Bytes(q.f));
      EqualEnds(r4, Bytes(r.e), q4, Bytes(q.e));
      EqualEnds(r3, Bytes(r.d), q3, Bytes(q.d));
      EqualEnds(r2, Bytes(r.c), q2, Bytes(q.c));
      EqualEnds(r1, Bytes(r.b), q1, Bytes(q.b));
      BytesInjective(r.a, q.a); BytesInjective(r.b, q.b); BytesInjective(r.c, q.c); BytesInjective(r.d, q.d);
      BytesInjective(r.e, q.e); BytesInjective(r.f, q.f); BytesInjective(r.g, q.g); BytesInjective(r.h, q.h);
    }
  }

  function Four(j: nat, p: bv64, q: bv64, r: bv64, s: bv64): (result: bv64) {
    if j == 0 then p else if j == 1 then q else if j == 2 then r else s
  }

  /** The round constants of section 4.2.3 of FIPS 180-4. */
  function Constant(t: nat): (k: bv64)
    requires t < 80
  {
    if t < 16 then K1(t) else if t < 32 then K2(t) else if t < 48 then K3(t) else if t < 64 then K4(t) else K5(t)
  }

  function K1(t: nat): (k: bv64) {
    if t < 4 then Four(t % 4, 0x428a2f98d728ae22, 0x7137449123ef65cd, 0xb5c0fbcfec4d3b2f, 0xe9b5dba58189dbbc)
    else if t < 8 then Four(t % 4, 0x3956c25bf348b538, 0x59f111f1b605d019, 0x923f82a4af194f9b, 0xab1c5ed5da6d8118)
    else if t < 12 then Four(t % 4, 0xd807aa98a3030242, 0x12835b0145706fbe, 0x243185be4ee4b28c, 0x550c7dc3d5ffb4e2)
    else Four(t % 4, 0x72be5d74f27b896f, 0x80deb1fe3b1696b1, 0x9bdc06a725c71235, 0xc19bf174cf692694)
  }

  function K2(t: nat): (k: bv64) {
    if t < 20 then Four(t % 4, 0xe49b69c19ef14ad2, 0xefbe4786384f25e3, 0x0fc19dc68b8cd5b5, 0x240ca1cc77ac9c65)
    else if t < 24 then Four(t % 4, 0x2de92c6f592b0275, 0x4a7484aa6ea6e483, 0x5cb0a9dcbd41fbd4, 0x76f988da831153b5)
    else if t < 28 then Four(t % 4, 0x983e5152ee66dfab, 0xa831c66d2db43210, 0xb00327c898fb213f, 0xbf597fc7beef0ee4)
    else Four(t % 4, 0xc6e00bf33da88fc2, 0xd5a79147930aa725, 0x06ca6351e003826f, 0x142929670a0e6e70)
  }

  function K3(t: nat): (k: bv64) {
    if t < 36 then Four(t % 4, 0x27b70a8546d22ffc, 0x2e1b21385c26c926, 0x4d2c6dfc5ac42aed, 0x53380d139d95b3df)
    else if t < 40 then Four(t % 4, 0x650a73548baf63de, 0x766a0abb3c77b2a8, 0x81c2c92e47edaee6, 0x92722c851482353b)
    else if t < 44 then Four(t % 4, 0xa2bfe8a14cf10364, 0xa81a664bbc423001, 0xc24b8b70d0f89791, 0xc76c51a30654be30)
    else Four(t % 4, 0xd192e819d6ef5218, 0xd69906245565a910, 0xf40e35855771202a, 0x106aa07032bbd1b8)
  }

  function K4(t: nat): (k: bv64) {
    if t < 52 then Four(t % 4, 0x19a4c116b8d2d0c8, 0x1e376c085141ab53, 0x2748774cdf8eeb99, 0x34b0bcb5e19b48a8)
    else if t < 56 then Four(t % 4, 0x391c0cb3c5c95a63, 0x4ed8aa4ae3418acb, 0x5b9cca4f7763e373, 0x682e6ff3d6b2b8a3)
    else if t < 60 then Four(t % 4, 0x748f82ee5defb2fc, 0x78a5636f43172f60, 0x84c87814a1f0ab72, 0x8cc702081a6439ec)
    else Four(t % 4, 0x90befffa23631e28, 0xa4506cebde82bde9, 0xbef9a3f7b2c67915, 0xc67178f2e372532b)
  }

  function K5(t: nat): (k: bv64) {
    if t < 68 then Four(t % 4, 0xca273eceea26619c, 0xd186b8c721c0c207, 0xeada7dd6cde0eb1e, 0xf57d4f7fee6ed178)
    else if t < 72 then Four(t % 4, 0x06f067aa72176fba, 0x0a637dc5a2c898a6, 0x113f9804bef90dae, 0x1b710b35131c471b)
    else if t < 76 then Four(t % 4, 0x28db77f523047d84, 0x32caab7b40c72493, 0x3c9ebe0a15c9bebc, 0x431d67c49c100d4c)
    else Four(t % 4, 0x4cc5d4becb3e42b6, 0x597f299cfc657e2a, 0x5fcb6fab3ad6faec, 0x6c44198c4a475817)
  }

  function Constants(): (k: seq<bv64>)
    ensures |k| == 80
  {
    seq(80, t requires 0 <= t < 80 => Constant(t))
  }

  const K: seq<bv64> := Constants()

  const INITIAL := Regs(
    0x6a09e667f3bcc908, 0xbb67ae8584caa73b, 0x3c6ef372fe94f82b, 0xa54ff53a5f1d36f1,
    0x510e527fade682d1, 0x9b05688c2b3e6c1f, 0x1f83d9abfb41bd6b, 0x5be0cd19137e2179
  )

  /** The block function with the routine's own constants; anything but a whole block is ignored. */
  function Block(r: Regs, block: seq<bv8>): (result: Regs) {
    if |block| == 128 then Compress(K, r, block) else r
  }
}

/**
 sha256_transform: one macro per round writes the registers d and h, then the array is
 shifted by one. `Round` below is the round of section 6.2.2 of FIPS 180-4.
 */
module Sha256Rounds {
  import opened MessagePadding

  datatype Regs = Regs(a: bv32, b: bv32, c: bv32, d: bv32, e: bv32, f: bv32, g: bv32, h: bv32)

  // ------------------------------------------------ FIPS 180-4, sections 4.1.2 and 6.2.2

  /** Addition modulo 2^32. */
  function Plus(x: bv32, y: bv32): (r: bv32) { x + y }

  function Ch(x: bv32, y: bv32, z: bv32): (r: bv32) { (x & y) ^ (!x & z) }

  function Maj(x: bv32, y: bv32, z: bv32): (r: bv32) { (x & y) ^ (x & z) ^ (y & z) }

  function Sigma0(x: bv32): (r: bv32) { ((x >> 2) | (x << 30)) ^ ((x >> 13) | (x << 19)) ^ ((x >> 22) | (x << 10)) }

  function Sigma1(x: bv32): (r: bv32) { ((x >> 6) | (x << 26)) ^ ((x >> 11) | (x << 21)) ^ ((x >> 25) | (x << 7)) }

  function Gamma0(x: bv32): (r: bv32) { ((x >> 7) | (x << 25)) ^ ((x >> 18) | (x << 14)) ^ (x >> 3) }

  function Gamma1(x: bv32): (r: bv32) { ((x >> 17) | (x << 15)) ^ ((x >> 19) | (x << 13)) ^ (x >> 10) }

  function Round(r: Regs, k: bv32, w: bv32): (result: Regs) {
    var t1 := Plus(Plus(Plus(Plus(r.h, Sigma1(r.e)), Ch(r.e, r.f, r.g)), k), w);
    var t2 := Plus(Sigma0(r.a), Maj(r.a, r.b, r.c));
    Regs(Plus(t1, t2), r.a, r.b, r.c, Plus(r.d, t1), r.e, r.f, r.g)
  }

  function Rounds(r: Regs, k: seq<bv32>, w: seq<bv32>, n: nat): (result: Regs)
    requires n <= |k| && n <= |w|
  {
    if n == 0 then r else Round(Rounds(r, k, w, n - 1), k[n - 1], w[n - 1])
  }

  /** Word t of the block, most significant byte first. */
  function Load(block: seq<bv8>, t: nat): (r: bv32)
    requires 4 * t + 4 <= |block|
  {
    ((block[4 * t] as bv32) << 24) | ((block[4 * t + 1] as bv32) << 16)
    | ((block[4 * t + 2] as bv32) << 8) | (block[4 * t + 3] as bv32)
  }

  /** The first n words of the message schedule. */
  function Schedule(block: seq<bv8>, n: nat): (w: seq<bv32>)
    requires |block| == 64
    ensures |w| == n
  {
    if n == 0 then [] else
    var w := Schedule(block, n - 1);
    var t := n - 1;
    w + [if t < 16 then Load(block, t)
         else Plus(Plus(Plus(Gamma1(w[t - 2]), w[t - 7]), Gamma0(w[t - 15])), w[t - 16])]
  }

  function Compress(k: seq<bv32>, r: Regs, block: seq<bv8>): (result: Regs)
    requires |k| == 64 && |block| == 64
  {
    var s := Rounds(r, k, Schedule(block, 64), 64);
    Regs(Plus(r.a, s.a), Plus(r.b, s.b), Plus(r.c, s.c), Plus(r.d, s.d),
         Plus(r.e, s.e), Plus(r.f, s.f), Plus(r.g, s.g), Plus(r.h, s.h))
  }

  // ------------------------------------------------ the routine

  function ChMacro(x: bv32, y: bv32, z: bv32): (r: bv32) { z ^ (x & (y ^ z)) }

  function MajMacro(x: bv32, y: bv32, z: bv32): (r: bv32) { ((x | y) & z) | (x & y) }

  lemma ChBits(x: bv32, y: bv32, z: bv32)
    ensures z ^ (x & (y ^ z)) == (x & y) ^ (!x & z)
  {
  }

  lemma MajBits(x: bv32, y: bv32, z: bv32)
    ensures ((x | y) & z) | (x & y) == (x & y) ^ (x & z) ^ (y & z)
  {
  }

  lemma MacrosAgree(x: bv32, y: bv32, z: bv32)
    ensures ChMacro(x, y, z) == Ch(x, y, z) && MajMacro(x, y, z) == Maj(x, y, z)
  {
    ChBits(x, y, z);
    MajBits(x, y, z);
  }

  /** The registers in array order. */
  ghost function InOrder(s: seq<bv32>): (r: Regs)
    requires |s| == 8
  {
    Regs(s[0], s[1], s[2], s[3], s[4], s[5], s[6], s[7])
  }

  /** The loop body: the round macro on S[0..8], then the shift that moves S[7] to the front. */
  method RoundAndShift(s: array<bv32>, k: bv32, w: bv32)
    requires s.Length == 8
    modifies s
    ensures InOrder(s[..]) == Round(InOrder(old(s[..])), k, w)
  {
    hide Plus, Ch, Maj, Sigma0, Sigma1, ChMacro, MajMacro;
    MacrosAgree(s[4], s[5], s[6]);
    MacrosAgree(s[0], s[1], s[2]);
    var t0 := Plus(Plus(Plus(Plus(s[7], Sigma1(s[4])), ChMacro(s[4], s[5], s[6])), k), w);
    var t1 := Plus(Sigma0(s[0]), MajMacro(s[0], s[1], s[2]));
    s[3] := Plus(s[3], t0);
    s[7] := Plus(t0, t1);
    var t := s[7];
    s[7] := s[6];
    s[6] := s[5];
    s[5] := s[4];
    s[4] := s[3];
    s[3] := s[2];
    s[2] := s[1];
    s[1] := s[0];
    s[0] := t;
  }

  lemma ScheduleStep(block: seq<bv8>, t: nat)
    requires |block| == 64
    ensures Schedule(block, 0) == []
    ensures t < 16 ==> Schedule(block, t + 1) == Schedule(block, t) + [Load(block, t)]
    ensures t >= 16 ==>
              var w := Schedule(block, t);
              Schedule(block, t + 1) ==
              w + [Plus(Plus(Plus(Gamma1(w[t - 2]), w[t - 7]), Gamma0(w[t - 15])), w[t - 16])]
  {
    hide Plus, Gamma0, Gamma1, Load;
  }

  /** Filling W: the sixteen words of the block, then the expansion. */
  method FillSchedule(buf: seq<bv8>, w: array<bv32>)
    requires |buf| == 64 && w.Length == 64
    modifies w
    ensures w[..] == Schedule(buf, 64)
  {
    hide Plus, Gamma0, Gamma1, Load, Schedule;
    var i := 0;
    ScheduleStep(buf, 0);
    while i < 16
      invariant 0 <= i <= 16 && w[..i] == Schedule(buf, i)
    {
      ScheduleStep(buf, i);
      w[i] := Load(buf, i);
      assert w[..i + 1] == w[..i] + [w[i]];
      i := i + 1;
    }
    while i < 64
      invariant 16 <= i <= 64 && w[..i] == Schedule(buf, i)
    {
      ScheduleStep(buf, i);
      ghost var done := w[..i];
      w[i] := Plus(Plus(Plus(Gamma1(w[i - 2]), w[i - 7]), Gamma0(w[i - 15])), w[i - 16]);
      assert w[..i + 1] == done + [w[i]];
      i := i + 1;
    }
    assert w[..64] == w[..];
  }

  method RunRounds(k: seq<bv32>, s: array<bv32>, w: array<bv32>)
    requires |k| == 64 && s.Length == 8 && w.Length == 64 && s != w
    modifies s
    ensures InOrder(s[..]) == Rounds(InOrder(old(s[..])), k, w[..], 64)
  {
    hide Round;
    ghost var r, words := InOrder(s[..]), w[..];
    var i := 0;
    while i < 64
      invariant 0 <= i <= 64 && w[..] == words
      invariant InOrder(s[..]) == Rounds(r, k, words, i)
    {
      RoundAndShift(s, k[i], w[i]);
      i := i + 1;
    }
  }

  method Feedback(state: array<bv32>, s: array<bv32>)
    requires state.Length == 8 && s.Length == 8 && state != s
    modifies state
    ensures forall i :: 0 <= i < 8 ==> state[i] == Plus(old(state[i]), s[i])
  {
    hide Plus;
    var i := 0;
    while i < 8
      invariant 0 <= i <= 8
      invariant forall j :: 0 <= j < i ==> state[j] == Plus(old(state[j]), s[j])
      invariant forall j :: i <= j < 8 ==> state[j] == old(state[j])
    {
      state[i] := Plus(state[i], s[i]);
      i := i + 1;
    }
  }

  method Transform(k: seq<bv32>, state: array<bv32>, buf: seq<bv8>)
    requires |k| == 64 && state.Length == 8 && |buf| == 64
    modifies state
    ensures InOrder(state[..]) == Compress(k, InOrder(old(state[..])), buf)
  {
    hide Plus, Rounds, Schedule;
    var s := new bv32[8];
    var i := 0;
    while i < 8
      invariant 0 <= i <= 8 && state[..] == old(state[..])
      invariant forall j :: 0 <= j < i ==> s[j] == state[j]
    {
      s[i] := state[i];
      i := i + 1;
    }
    assert InOrder(s[..]) == InOrder(state[..]);
    var w := new bv32[64];
    FillSchedule(buf, w);
    RunRounds(k, s, w);
    Feedback(state, s);
  }

  /** A word as bytes, most significant first. */
  function Bytes(x: bv32): (b: seq<bv8>)
    ensures |b| == 4
  {
    [((x >> 24) & 255) as bv8, ((x >> 16) & 255) as bv8, ((x >> 8) & 255) as bv8, (x & 255) as bv8]
  }

  /** What digest writes out. */
  function Store(r: Regs): (b: seq<bv8>)
    ensures |b| == 32
  {
    Bytes(r.a) + Bytes(r.b) + Bytes(r.c) + Bytes(r.d) + Bytes(r.e) + Bytes(r.f) + Bytes(r.g) + Bytes(r.h)
  }

  /** Storing a word loses nothing: loading the bytes gives it back. */
  lemma LoadStored(x: bv32)
    ensures Load(Bytes(x), 0) == x
  {
  }

  lemma BytesInjective(x: bv32, y: bv32)
    requires Bytes(x) == Bytes(y)
    ensures x == y
  {
    hide Bytes, Load;
    LoadStored(x);
    LoadStored(y);
  }

  /** The digest bytes hold every register: different registers are written differently. */
  lemma StoreInjective(r: Regs, q: Regs)
    ensures Store(r) == Store(q) <==> r == q
  {
    hide Bytes;
    if Store(r) == Store(q) {
      var r1 := Bytes(r.a);
      var q1 := Bytes(q.a);
      var r2 := r1 + Bytes(r.b);
      var q2 := q1 + Bytes(q.b);
      var r3 := r2 + Bytes(r.c);
      var q3 := q2 + Bytes(q.c);
      var r4 := r3 + Bytes(r.d);
      var q4 := q3 + Bytes(q.d);
      var r5 := r4 + Bytes(r.e);
      var q5 := q4 + Bytes(q.e);
      var r6 := r5 + Bytes(r.f);
      var q6 := q5 + Bytes(q.f);
      var r7 := r6 + Bytes(r.g);
      var q7 := q6 + Bytes(q.g);
      EqualEnds(r7, Bytes(r.h), q7, Bytes(q.h));
      EqualEnds(r6, Bytes(r.g), q6, Bytes(q.g));
      EqualEnds(r5, Bytes(r.f), q5, Bytes(q.f));
      EqualEnds(r4, Bytes(r.e), q4, Bytes(q.e));
      EqualEnds(r3, Bytes(r.d), q3, Bytes(q.d));
      EqualEnds(r2, Bytes(r.c), q2, Bytes(q.c));
      EqualEnds(r1, Bytes(r.b), q1, Bytes(q.b));
      BytesInjective(r.a, q.a); BytesInjective(r.b, q.b); BytesInjective(r.c, q.c); BytesInjective(r.d, q.d);
      BytesInjective(r.e, q.e); BytesInjective(r.f, q.f); BytesInjective(r.g, q.g); BytesInjective(r.h, q.h);
    }
  }

  function Four(j: nat, p: bv32, q: bv32, r: bv32, s: bv32): (result: bv32) {
    if j == 0 then p else if j == 1 then q else if j == 2 then r else s
  }

  /** The round constants of section 4.2.2 of FIPS 180-4. */
  function Constant(t: nat): (k: bv32)
    requires t < 64
  {
    if t < 16 then K1(t) else if t < 32 then K2(t) else if t < 48 then K3(t) else K4(t)
  }

  function K1(t: nat): (k: bv32) {
    if t < 4 then Four(t % 4, 0x428a2f98, 0x71374491, 0xb5c0fbcf, 0xe9b5dba5)
    else if t < 8 then Four(t % 4, 0x3956c25b, 0x59f111f1, 0x923f82a4, 0xab1c5ed5)
    else if t < 12 then Four(t % 4, 0xd807aa98, 0x12835b01, 0x243185be, 0x550c7dc3)
    else Four(t % 4, 0x72be5d74, 0x80deb1fe, 0x9bdc06a7, 0xc19bf174)
  }

  function K2(t: nat): (k: bv32) {
    if t < 20 then Four(t % 4, 0xe49b69c1, 0xefbe4786, 0x0fc19dc6, 0x240ca1cc)
    else if t < 24 then Four(t % 4, 0x2de92c6f, 0x4a7484aa, 0x5cb0a9dc, 0x76f988da)
    else if t < 28 then Four(t % 4, 0x983e5152, 0xa831c66d, 0xb00327c8, 0xbf597fc7)
    else Four(t % 4, 0xc6e00bf3, 0xd5a79147, 0x06ca6351, 0x14292967)
  }

  function K3(t: nat): (k: bv32) {
    if t < 36 then Four(t % 4, 0x27b70a85, 0x2e1b2138, 0x4d2c6dfc, 0x53380d13)
    else if t < 40 then Four(t % 4, 0x650a7354, 0x766a0abb, 0x81c2c92e, 0x92722c85)
    else if t < 44 then Four(t % 4, 0xa2bfe8a1, 0xa81a664b, 0xc24b8b70, 0xc76c51a3)
    else Four(t % 4, 0xd192e819, 0xd6990624, 0xf40e3585, 0x106aa070)
  }

  function K4(t: nat): (k: bv32) {
    if t < 52 then Four(t % 4, 0x19a4c116, 0x1e376c08, 0x2748774c, 0x34b0bcb5)
    else if t < 56 then Four(t % 4, 0x391c0cb3, 0x4ed8aa4a, 0x5b9cca4f, 0x682e6ff3)
    else if t < 60 then Four(t % 4, 0x748f82ee, 0x78a5636f, 0x84c87814, 0x8cc70208)
    else Four(t % 4, 0x90befffa, 0xa4506ceb, 0xbef9a3f7, 0xc67178f2)
  }

  function Constants(): (k: seq<bv32>)
    ensures |k| == 64
  {
    seq(64, t requires 0 <= t < 64 => Constant(t))
  }

  const K: seq<bv32> := Constants()

  const INITIAL := Regs(
    0x6a09e667, 0xbb67ae85, 0x3c6ef372, 0xa54ff53a,
    0x510e527f, 0x9b05688c, 0x1f83d9ab, 0x5be0cd19
  )

  /** The block function with the routine's own constants; anything but a whole block is ignored. */
  function Block(r: Regs, block: seq<bv8>): (result: Regs) {
    if |block| == 64 then Compress(K, r, block) else r
  }
}

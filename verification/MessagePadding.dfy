/** Message padding and block chaining, as the standards define them, for any block size. */
module MessagePadding {

  /** The chaining value after all blocks of msg, first to last. */
  function Fold<S>(compress: (S, seq<bv8>) -> S, start: S, msg: seq<bv8>, block: nat): (r: S)
    requires block > 0 && |msg| % block == 0
    decreases |msg|
  {
    if |msg| < block then start
    else
      DropBlock(|msg|, block);
      compress(Fold(compress, start, msg[..|msg| - block], block), msg[|msg| - block..])
  }

  lemma DropBlock(n: nat, block: nat)
    requires block > 0 && n >= block
    ensures (n - block) % block == n % block
  {
    var q, r := n / block, n % block;
    assert n - block == block * (q - 1) + r;
    Remainder(n - block, block, q - 1, r);
  }

  lemma Remainder(n: int, m: nat, q: int, r: nat)
    requires r < m && n == m * q + r
    ensures n % m == r
  {
    var q' := n / m;
    assert n == m * q' + n % m;
    if q' > q {
      assert m * q' == m * q + m * (q' - q);
      Multiple(m, q' - q);
    } else if q' < q {
      assert m * q == m * q' + m * (q - q');
      Multiple(m, q - q');
    }
  }

  lemma Multiple(m: nat, k: nat)
    requires k >= 1
    ensures m * k >= m
  {
    assert m * k == m + m * (k - 1);
  }

  /** One more whole block is one more compression. */
  lemma FoldStep<S>(compress: (S, seq<bv8>) -> S, start: S, msg: seq<bv8>, last: seq<bv8>, block: nat)
    requires block > 0 && |msg| % block == 0 && |last| == block
    ensures |msg + last| % block == 0
    ensures Fold(compress, start, msg + last, block) == compress(Fold(compress, start, msg, block), last)
  {
    DropBlock(|msg + last|, block);
    assert (msg + last)[..|msg|] == msg && (msg + last)[|msg|..] == last;
  }

  /** Equal strings with ends of equal length agree before the ends and on them. */
  lemma EqualEnds(s: seq<bv8>, x: seq<bv8>, t: seq<bv8>, y: seq<bv8>)
    requires s + x == t + y && |x| == |y|
    ensures s == t && x == y
  {
    assert s == (s + x)[..|s|] && t == (t + y)[..|t|];
    assert x == (s + x)[|s|..] && y == (t + y)[|t|..];
  }

  function Zeros(n: nat): (z: seq<bv8>)
    ensures |z| == n
  {
    seq(n, _ => 0)
  }

  /** x as n bytes, most significant first, modulo 256^n. */
  function BigEndian(x: nat, n: nat): (b: seq<bv8>)
    ensures |b| == n
  {
    if n == 0 then [] else BigEndian(x / 256, n - 1) + [(x % 256) as bv8]
  }

  /**
   Section 5.1.1 of FIPS 180-4 for byte messages: a one bit, the fewest zero bits that leave
   room for exactly the 64-bit length field in the last 64-byte block, and the bit length.
   */
  ghost function FipsPadding256(n: nat): (p: seq<bv8>)
    ensures (n + |p|) % 64 == 0
  {
    assert Fits256(n, FipsZeros256(n));
    [0x80] + Zeros(FipsZeros256(n)) + BigEndian(8 * n, 8)
  }

  /** Section 5.1.2 of FIPS 180-4: 128-byte blocks and a 128-bit length field. */
  ghost function FipsPadding512(n: nat): (p: seq<bv8>)
    ensures (n + |p|) % 128 == 0
  {
    assert Fits512(n, FipsZeros512(n));
    [0x80] + Zeros(FipsZeros512(n)) + BigEndian(8 * n, 16)
  }

  ghost predicate Fits256(n: nat, k: nat) {
    (n + 1 + k + 8) % 64 == 0
  }

  ghost predicate Fits512(n: nat, k: nat) {
    (n + 1 + k + 16) % 128 == 0
  }

  ghost function FipsZeros256(n: nat): (k: nat)
    ensures Fits256(n, k)
    ensures forall j: nat :: j < k ==> !Fits256(n, j)
  {
    if n % 64 < 56 then 55 - n % 64 else 119 - n % 64
  }

  ghost function FipsZeros512(n: nat): (k: nat)
    ensures Fits512(n, k)
    ensures forall j: nat :: j < k ==> !Fits512(n, j)
  {
    if n % 128 < 112 then 111 - n % 128 else 239 - n % 128
  }

  function Pow256(n: nat): (p: nat)
    ensures p > 0
  {
    if n == 0 then 1 else 256 * Pow256(n - 1)
  }

  /** One byte off a number, in terms of a larger modulus. */
  lemma ByteOff(x: nat, p: nat)
    requires p > 0
    ensures x % (256 * p) == 256 * (x / 256 % p) + x % 256
    ensures x / (256 * p) == x / 256 / p
  {
    var q := x / 256;
    var t, r := q / p, q % p;
    assert x == 256 * q + x % 256;
    assert q == p * t + r;
    assert 256 * (p * t) == (256 * p) * t;
    assert 256 * r + x % 256 < 256 * p by {
      assert 256 * (r + 1) <= 256 * p;
    }
    Remainder(x, 256 * p, t, 256 * r + x % 256);
  }

  /** What is left of a number above its last n bytes. */
  function Above(x: nat, n: nat): (h: nat)
    ensures h == x / Pow256(n)
  {
    hide Pow256;
    NoNegativeQuotient(x, Pow256(n));
    x / Pow256(n)
  }

  lemma NoNegativeQuotient(x: int, p: nat)
    requires x >= 0 && p > 0
    ensures x / p >= 0
  {
    var q := x / p;
    assert x == p * q + x % p;
    NegativeMultiple(p, q);
  }

  lemma NegativeMultiple(p: int, q: int)
    requires p >= 0
    ensures q < 0 ==> p * q <= -p
  {
  }

  /** A number written in more bytes: the bytes of its high part come first. */
  lemma {:induction false} BigEndianSplits(x: nat, k: nat, n: nat)
    ensures BigEndian(x, k + n) == BigEndian(Above(x, n), k) + BigEndian(x, n)
    decreases n
  {
    if n > 0 {
      BigEndianSplits(x / 256, k, n - 1);
      ByteOff(x, Pow256(n - 1));
    }
  }

  /** Only the value modulo 256^n is written. */
  lemma {:induction false} BigEndianModulo(x: nat, n: nat)
    ensures BigEndian(x % Pow256(n), n) == BigEndian(x, n)
    decreases n
  {
    if n > 0 {
      BigEndianModulo(x / 256, n - 1);
      ByteOff(x, Pow256(n - 1));
      OneByte(x / 256 % Pow256(n - 1), x % 256);
    }
  }

  lemma OneByte(h: nat, d: nat)
    requires d < 256
    ensures (256 * h + d) / 256 == h && (256 * h + d) % 256 == d
  {
  }

  /** The bytes are all zero exactly for the multiples of 256^n. */
  lemma {:induction false} ZeroBytes(x: nat, n: nat)
    ensures BigEndian(x, n) == Zeros(n) <==> x % Pow256(n) == 0
    decreases n
  {
    if n > 0 {
      ZeroBytes(x / 256, n - 1);
      ByteOff(x, Pow256(n - 1));
      var b := BigEndian(x, n);
      assert b[..n - 1] == BigEndian(x / 256, n - 1) && b[n - 1] == (x % 256) as bv8;
      assert Zeros(n)[..n - 1] == Zeros(n - 1) && Zeros(n)[n - 1] == 0;
      ZeroByte(x % 256);
      if BigEndian(x / 256, n - 1) == Zeros(n - 1) && x % 256 == 0 {
        assert Zeros(n - 1) + [0] == Zeros(n);
      }
    }
  }

  lemma ZeroByte(d: nat)
    requires d < 256
    ensures d as bv8 == 0 <==> d == 0
  {
  }

  /** memcpy into a buffer. */
  method CopyInto(buf: array<bv8>, at: nat, chunk: seq<bv8>)
    requires at + |chunk| <= buf.Length
    modifies buf
    ensures buf[..] == old(buf[..at]) + chunk + old(buf[at + |chunk|..])
  {
    forall i | 0 <= i < |chunk| {
      buf[at + i] := chunk[i];
    }
  }
}

/**
 The MD5 context: a 29-bit byte counter `lo` with carry into `hi`, whose low six bits say how
 much of the 64-byte buffer is used. The block function (section 3.4 of RFC 1321) is a parameter;
 module Hash supplies it and shows that the unrolled routine computes the same digests.
 */
module Md5Context {
  import opened MessagePadding

  const LOW := 0x2000_0000
  const WORD32 := 0x1_0000_0000

  /** x as n bytes, least significant first, modulo 256^n. */
  function LittleEndian(x: nat, n: nat): (b: seq<bv8>)
    ensures |b| == n
  {
    if n == 0 then [] else [(x % 256) as bv8] + LittleEndian(x / 256, n - 1)
  }

  lemma UnfoldBytes(x: nat, n: nat)
    requires n > 0
    ensures LittleEndian(x, n) == [(x % 256) as bv8] + LittleEndian(x / 256, n - 1)
  {
  }

  lemma UnfoldPow(n: nat, b: nat)
    requires n > 0
    ensures Pow256(n) * b == 256 * (Pow256(n - 1) * b)
  {
  }

  /** Joining the bytes of a low part and a high part. */
  lemma {:induction false} LittleEndianJoin(a: nat, b: nat, n: nat, k: nat)
    requires a < Pow256(n)
    ensures LittleEndian(a + Pow256(n) * b, n + k) == LittleEndian(a, n) + LittleEndian(b, k)
  {
    hide LittleEndian;
    if n == 0 {
      NoBytes(a);
    } else {
      var c := Pow256(n - 1) * b;
      UnfoldPow(n, b);
      ShiftOut(a, c);
      LittleEndianJoin(a / 256, b, n - 1, k);
      UnfoldBytes(a + 256 * c, n + k);
      UnfoldBytes(a, n);
    }
  }

  lemma ShiftOut(a: nat, c: nat)
    ensures (a + 256 * c) % 256 == a % 256 && (a + 256 * c) / 256 == a / 256 + c
  {
  }

  /**
   Sections 3.1 and 3.2 of RFC 1321: a one bit, zeros to 56 bytes modulo 64, and the low-order
   64 bits of the bit length, low-order word first.
   */
  ghost function RfcPadding(n: nat): (p: seq<bv8>)
    ensures (n + |p|) % 64 == 0
  {
    assert Fits256(n, FipsZeros256(n));
    [0x80] + Zeros(FipsZeros256(n)) + LittleEndian(8 * n, 8)
  }

  /** What the two counter words hold after n bytes: the pair is n modulo 2^61. */
  ghost predicate Counted(n: nat, lo: nat, hi: nat) {
    lo == n % LOW && hi == n / LOW % WORD32
  }

  /** The length field written from the counters is the low-order 64 bits of 8 * n, for every n. */
  lemma CounterField(n: nat, lo: nat, hi: nat)
    requires Counted(n, lo, hi)
    ensures lo < LOW && hi < WORD32 && hi * LOW + lo == n % (WORD32 * LOW)
    ensures LittleEndian(8 * n, 8) == LittleEndian(lo * 8 % WORD32, 4) + LittleEndian(hi, 4)
  {
    hide LittleEndian;
    assert Pow256(4) == WORD32;
    var q := n / LOW;
    assert 8 * n == lo * 8 + WORD32 * q;
    LittleEndianJoin(lo * 8, q, 4, 4);
    LittleEndianJoin(hi, q / WORD32, 4, 0);
    assert q == hi + WORD32 * (q / WORD32);
    NoBytes(q / WORD32);
  }

  lemma NoBytes(x: nat)
    ensures LittleEndian(x, 0) == []
  {
  }

  lemma CarryTest(n: nat, k: nat)
    ensures var lo := n % LOW;
            var lo' := (lo + k) % LOW;
            lo' == (n + k) % LOW && (n + k) / LOW == n / LOW + k / LOW + if lo' < lo then 1 else 0
  {
    var lo, r := n % LOW, k % LOW;
    assert n + k == LOW * (n / LOW + k / LOW) + (lo + r);
  }

  lemma HighSum(q: nat, c: nat, s: nat)
    ensures ((q % WORD32 + c) % WORD32 + s % WORD32) % WORD32 == (q + s + c) % WORD32
  {
    assert (q % WORD32 + c) % WORD32 == (q + c) % WORD32;
  }

  /** The carry test of md5_update, that the masked sum fell below the old counter, is exact. */
  lemma CounterStep(n: nat, lo: nat, hi: nat, k: nat)
    requires Counted(n, lo, hi)
    ensures var lo' := (lo + k) % LOW;
            var carry := if lo' < lo then 1 else 0;
            Counted(n + k, lo', ((hi + carry) % WORD32 + k / LOW % WORD32) % WORD32)
  {
    CarryTest(n, k);
    var carry := if (lo + k) % LOW < lo then 1 else 0;
    HighSum(n / LOW, carry, k / LOW);
  }

  lemma NextBlock(n: nat, pos: nat)
    requires pos < n && pos % 64 == 0 && n % 64 == 0
    ensures pos + 64 <= n && (pos + 64) % 64 == 0
  {
  }

  lemma TakeBlock(before: seq<bv8>, data: seq<bv8>, pos: nat)
    requires pos + 64 <= |data|
    ensures before + data[..pos] + data[pos..pos + 64] == before + data[..pos + 64]
  {
  }

  class Context<S(!new)> {
    const compress: (S, seq<bv8>) -> S
    const initial: S
    const output: S -> seq<bv8>

    var lo: nat
    var hi: nat
    var state: S
    const buffer: array<bv8>
    /** The bytes already compressed. */
    ghost var done: seq<bv8>

    ghost predicate Shape() {
      buffer.Length == 64
    }

    ghost predicate Valid()
      reads this, buffer
    {
      && Shape() && |done| % 64 == 0
      && state == Fold(compress, initial, done, 64)
      && Counted(|done| + lo % 64, lo, hi)
    }

    /** Everything fed in since the last reset. */
    ghost function Message(): (r: seq<bv8>)
      reads this, buffer
      requires Shape()
    {
      done + buffer[..lo % 64]
    }

    constructor (compress: (S, seq<bv8>) -> S, initial: S, output: S -> seq<bv8>)
      ensures Valid() && Message() == [] && fresh(buffer)
      ensures this.compress == compress && this.initial == initial && this.output == output
    {
      this.compress, this.initial, this.output := compress, initial, output;
      buffer := new bv8[64];
      lo, hi, state, done := 0, 0, initial, [];
    }

    method Reset()
      requires Shape()
      modifies this
      ensures Valid() && Message() == []
    {
      state := initial;
      lo := 0;
      hi := 0;
      done := [];
    }

    /** md5_transform: one or more whole blocks; the counters are not touched. */
    method Transform(data: seq<bv8>)
      requires |data| > 0 && |data| % 64 == 0
      requires |done| % 64 == 0 && state == Fold(compress, initial, done, 64)
      modifies this`state, this`done
      ensures done == old(done) + data
      ensures |done| % 64 == 0 && state == Fold(compress, initial, done, 64)
    {
      hide Fold;
      var pos := 0;
      assert done == done + data[..pos];
      while true
        invariant 0 <= pos < |data| && pos % 64 == 0
        invariant done == old(done) + data[..pos]
        invariant |done| % 64 == 0 && state == Fold(compress, initial, done, 64)
        decreases |data| - pos
      {
        NextBlock(|data|, pos);
        FoldStep(compress, initial, done, data[pos..pos + 64], 64);
        state := compress(state, data[pos..pos + 64]);
        done := done + data[pos..pos + 64];
        TakeBlock(old(done), data, pos);
        pos := pos + 64;
        if pos == |data| {
          break;
        }
      }
      assert data[..pos] == data;
    }

    /** The counter arithmetic of md5_update. */
    method Count(k: nat, ghost n: nat)
      requires Counted(n, lo, hi)
      modifies this`lo, this`hi
      ensures Counted(n + k, lo, hi)
    {
      CounterStep(n, lo, hi, k);
      var savedLo := lo;
      lo := (savedLo + k) % LOW;
      if lo < savedLo {
        hi := (hi + 1) % WORD32;
      }
      hi := (hi + k / LOW % WORD32) % WORD32;
    }

    /** Fill a partly used buffer from the data and compress it. */
    method TopUp(used: nat, data: seq<bv8>) returns (rest: seq<bv8>)
      requires Shape() && 0 < used < 64 && |data| >= 64 - used
      requires |done| % 64 == 0 && state == Fold(compress, initial, done, 64)
      modifies this`state, this`done, buffer
      ensures |done| % 64 == 0 && state == Fold(compress, initial, done, 64)
      ensures done + rest == old(done + buffer[..used]) + data
    {
      hide Fold;
      var free := 64 - used;
      ghost var r := buffer[..used];
      CopyInto(buffer, used, data[..free]);
      assert buffer[..] == r + data[..free];
      Transform(buffer[..]);
      rest := data[free..];
      assert data == data[..free] + rest;
    }

    /** The buffering of md5_update: top up and compress, compress whole blocks, keep the rest. */
    method Absorb(used: nat, data: seq<bv8>)
      requires Shape() && used < 64
      requires |done| % 64 == 0 && state == Fold(compress, initial, done, 64)
      modifies this`state, this`done, buffer
      ensures |done| % 64 == 0 && state == Fold(compress, initial, done, 64)
      ensures done + buffer[..(used + |data|) % 64] == old(done + buffer[..used]) + data
    {
      hide Fold;
      ghost var total := done + buffer[..used] + data;
      SixBits(|done|, used + |data|);
      if used != 0 {
        if |data| < 64 - used {
          ghost var r := buffer[..used];
          CopyInto(buffer, used, data);
          assert buffer[..used + |data|] == r + data;
        } else {
          var rest := TopUp(used, data);
          WholeBlocks(rest, total);
        }
      } else {
        WholeBlocks(data, total);
      }
    }

    method WholeBlocks(data: seq<bv8>, ghost total: seq<bv8>)
      requires Shape() && done + data == total
      requires |done| % 64 == 0 && state == Fold(compress, initial, done, 64)
      modifies this`state, this`done, buffer
      ensures |done| % 64 == 0 && state == Fold(compress, initial, done, 64)
      ensures done + buffer[..|total| % 64] == total
    {
      hide Fold;
      var rest := data;
      if |data| >= 64 {
        var whole := |data| - |data| % 64;
        Transform(data[..whole]);
        rest := data[whole..];
        assert data == data[..whole] + rest;
      }
      assert done + rest == total && |rest| < 64;
      assert |total| % 64 == |rest|;
      CopyInto(buffer, 0, rest);
      assert buffer[..|rest|] == rest;
    }

    method Update(data: seq<bv8>)
      requires Valid()
      modifies this, buffer
      ensures Valid() && Message() == old(Message()) + data
    {
      hide Fold;
      ghost var n := |done| + lo % 64;
      var used := lo % 64;
      Count(|data|, n);
      Absorb(used, data);
      UsedBytes(|old(Message())|, |data|);
    }

    /** The mark byte; if fewer than eight bytes remain, zeros up to the block end and a compression. */
    method MarkEnd(start: nat) returns (used: nat)
      requires Shape() && start < 64
      requires |done| % 64 == 0 && state == Fold(compress, initial, done, 64)
      modifies this`state, this`done, buffer
      ensures |done| % 64 == 0 && state == Fold(compress, initial, done, 64)
      ensures used == if start < 56 then start + 1 else 0
      ensures start < 56 ==> done == old(done) && buffer[..used] == old(buffer[..start]) + [0x80]
      ensures start >= 56 ==> done == old(done) + (old(buffer[..start]) + [0x80] + Zeros(63 - start))
    {
      hide Fold;
      used := start;
      buffer[used] := 0x80;
      used := used + 1;
      var free := 64 - used;
      if free < 8 {
        CopyInto(buffer, used, Zeros(free));
        Transform(buffer[..]);
        used := 0;
      }
    }

    method Digest() returns (digest: seq<bv8>)
      requires Valid()
      modifies this, buffer
      ensures Shape()
      ensures var padded := old(Message()) + RfcPadding(|old(Message())|);
              |padded| % 64 == 0 && state == Fold(compress, initial, padded, 64)
      ensures digest == output(state)
    {
      hide Fold, LittleEndian, Zeros, RfcPadding;
      ghost var d, r := done, buffer[..lo % 64];
      CounterField(|d + r|, lo, hi);
      var used := MarkEnd(lo % 64);
      ghost var pre := buffer[..used];
      CopyInto(buffer, used, Zeros(64 - used - 8));
      lo := lo * 8 % WORD32;
      var field := LittleEndian(lo, 4) + LittleEndian(hi, 4);
      CopyInto(buffer, 56, field);
      assert buffer[..] == pre + Zeros(56 - |pre|) + field;
      assert pre == [] ==> pre + Zeros(56) == Zeros(56);
      Transform(buffer[..]);
      PaddedIs(d, r, field);
      digest := output(state);
    }
  }

  lemma JoinZeros(j: nat, k: nat)
    ensures Zeros(j) + Zeros(k) == Zeros(j + k)
  {
  }

  lemma OneBlock(d: seq<bv8>, r: seq<bv8>, z: nat, field: seq<bv8>)
    ensures d + r + ([0x80] + Zeros(z) + field) == d + (r + [0x80] + Zeros(z) + field)
  {
  }

  lemma TwoBlocks(d: seq<bv8>, r: seq<bv8>, y: nat, z: nat, field: seq<bv8>)
    ensures d + r + ([0x80] + Zeros(y + z) + field) == d + (r + [0x80] + Zeros(y)) + (Zeros(z) + field)
  {
    JoinZeros(y, z);
    assert [0x80] + (Zeros(y) + Zeros(z)) + field == [0x80] + Zeros(y) + (Zeros(z) + field);
  }

  /** How many zeros the standard asks for when the last r bytes start a block. */
  lemma ZerosNeeded(n: nat, r: nat)
    requires n % 64 == r
    ensures FipsZeros256(n) == if r < 56 then 55 - r else 63 - r + 56
  {
  }

  lemma PaddedIs(d: seq<bv8>, r: seq<bv8>, field: seq<bv8>)
    requires |d| % 64 == 0 && |r| < 64 && field == LittleEndian(8 * |d + r|, 8)
    ensures d + r + RfcPadding(|d + r|) ==
            if |r| < 56 then d + (r + [0x80] + Zeros(56 - (|r| + 1)) + field)
            else d + (r + [0x80] + Zeros(63 - |r|)) + (Zeros(56) + field)
  {
    hide LittleEndian, Zeros, FipsZeros256;
    SixBits(|d|, |r|);
    ZerosNeeded(|d + r|, |r|);
    if |r| < 56 {
      OneBlock(d, r, 55 - |r|, field);
    } else {
      TwoBlocks(d, r, 63 - |r|, 56, field);
    }
  }

  lemma UsedBytes(n: nat, k: nat)
    ensures n % LOW % 64 == n % 64
    ensures (n % 64 + k) % 64 == (n + k) % LOW % 64
  {
    LowSix(n);
    LowSix(n + k);
  }

  lemma SixBits(n: nat, k: nat)
    requires n % 64 == 0
    ensures (n + k) % 64 == k % 64
  {
  }

  lemma LowSix(n: nat)
    ensures n % LOW % 64 == n % 64
  {
    assert n == 64 * (8388608 * (n / LOW)) + n % LOW;
  }
}

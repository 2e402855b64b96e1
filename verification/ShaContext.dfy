/**
 The SHA-256 and SHA-512 contexts as one class: the two copies of update and digest differ only
 in the block size and in where the zero filling stops. The compression is a parameter; module
 Hash supplies it and shows that the routines of the library compute the same digests.
 */
module ShaContext {
  import opened MessagePadding

  const WORD64 := 0x1_0000_0000_0000_0000
  const WORD128 := WORD64 * WORD64

  /** st and length are what a context holds after compressing the whole blocks m. */
  ghost predicate Chained<S(!new)>(compress: (S, seq<bv8>) -> S, initial: S, block: nat, m: seq<bv8>, st: S,
          length: nat) {
    && block > 0 && |m| % block == 0
    && st == Fold(compress, initial, m, block)
    && length == 8 * |m| % WORD64
  }

  lemma AddModulo(x: nat, y: nat)
    ensures (x % WORD64 + y) % WORD64 == (x + y) % WORD64
  {
  }

  lemma ChainStep<S(!new)>(compress: (S, seq<bv8>) -> S, initial: S, block: nat, m: seq<bv8>, st: S, length: nat,
          b: seq<bv8>)
    requires Chained(compress, initial, block, m, st, length) && |b| == block
    ensures Chained(compress, initial, block, m + b, compress(st, b), (length + 8 * block) % WORD64)
  {
    FoldStep(compress, initial, m, b, block);
    AddModulo(8 * |m|, 8 * block);
  }

  /** What digest appends when r bytes are buffered: the mark, zeros, the 64-bit length. */
  ghost function Trailer(r: nat, bits: nat, block: nat, tail: nat, lenAt: nat): (result: seq<bv8>)
    requires r < block && tail <= lenAt
  {
    [0x80] + Zeros(if r < tail then lenAt - r - 1 else block - r - 1 + lenAt) + BigEndian(bits, 8)
  }

  ghost function CodePadding(n: nat, block: nat, tail: nat, lenAt: nat): (r: seq<bv8>)
    requires block > 0 && tail <= lenAt
  {
    Trailer(n % block, 8 * n % WORD64, block, tail, lenAt)
  }

  lemma Extend(start: seq<bv8>, m: seq<bv8>, data: seq<bv8>, pos: nat, n: nat)
    requires pos + n <= |data| && m == start + data[..pos]
    ensures m + data[pos..pos + n] == start + data[..pos + n]
  {
    assert data[..pos + n] == data[..pos] + data[pos..pos + n];
  }

  class Context<S(!new)> {
    const block: nat
    const tail: nat
    const lenAt: nat
    const compress: (S, seq<bv8>) -> S
    const initial: S
    const output: S -> seq<bv8>

    var length: nat
    var state: S
    var curlen: nat
    const buf: array<bv8>
    /** The bytes already compressed. */
    ghost var done: seq<bv8>

    ghost predicate Shape() {
      && buf.Length == block && lenAt == block - 8
      && ((block == 64 && tail == 56) || (block == 128 && tail == 112))
    }

    ghost predicate Valid()
      reads this, buf
    {
      && Shape() && curlen < block
      && Chained(compress, initial, block, done, state, length)
    }

    /** Everything fed in since the last reset. */
    ghost function Message(): (r: seq<bv8>)
      reads this, buf
      requires curlen <= buf.Length
    {
      done + buf[..curlen]
    }

    /** Two block shapes: 64 bytes with the length at 56, or 128 bytes with the length at 120. */
    constructor (wide: bool, compress: (S, seq<bv8>) -> S, initial: S, output: S -> seq<bv8>)
      ensures Valid() && Message() == [] && fresh(buf)
      ensures block == (if wide then 128 else 64)
      ensures this.compress == compress && this.initial == initial && this.output == output
    {
      var n := if wide then 128 else 64;
      this.block, tail, lenAt := n, n - (if wide then 16 else 8), n - 8;
      this.compress, this.initial, this.output := compress, initial, output;
      buf := new bv8[n];
      length, state, curlen, done := 0, initial, 0, [];
    }

    method Reset()
      requires Shape()
      modifies this
      ensures Valid() && Message() == []
    {
      curlen := 0;
      length := 0;
      state := initial;
      done := [];
    }

    /** sha256_transform or sha512_transform on a block, with the length update that follows it. */
    method AbsorbBlock(b: seq<bv8>)
      requires Valid() && curlen == 0 && |b| == block
      modifies this
      ensures Valid() && curlen == 0 && done == old(done) + b
      ensures Message() == old(Message()) + b
    {
      ChainStep(compress, initial, block, done, state, length, b);
      state := compress(state, b);
      length := (length + block * 8) % WORD64;
      done := done + b;
      assert buf[..0] == [];
    }

    /** Copy into the free part of the buffer; a buffer that becomes full is compressed. */
    method Append(chunk: seq<bv8>)
      requires Valid() && |chunk| <= block - curlen
      modifies this, buf
      ensures Valid() && Message() == old(Message()) + chunk
    {
      hide Chained;
      ghost var before := buf[..curlen];
      CopyInto(buf, curlen, chunk);
      assert buf[..curlen + |chunk|] == before + chunk;
      curlen := curlen + |chunk|;
      if curlen == block {
        curlen := 0;
        AbsorbBlock(buf[..]);
        assert before + chunk == buf[..];
      }
    }

    method Update(data: seq<bv8>)
      requires Valid()
      modifies this, buf
      ensures Valid() && Message() == old(Message()) + data
    {
      hide Chained;
      if curlen > block {
        return;
      }
      var pos := 0;
      while pos < |data|
        invariant pos <= |data| && Valid()
        invariant Message() == old(Message()) + data[..pos]
      {
        ghost var m := Message();
        if curlen == 0 && |data| - pos >= block {
          AbsorbBlock(data[pos..pos + block]);
          Extend(old(Message()), m, data, pos, block);
          pos := pos + block;
        } else {
          var n := if |data| - pos < block - curlen then |data| - pos else block - curlen;
          Append(data[pos..pos + n]);
          Extend(old(Message()), m, data, pos, n);
          pos := pos + n;
        }
      }
    }

    /** Zero the buffer from curlen up to a limit. */
    method ZeroUpTo(limit: nat)
      requires curlen <= limit <= buf.Length
      modifies this`curlen, buf
      ensures curlen == limit
      ensures buf[..limit] == old(buf[..curlen]) + Zeros(limit - old(curlen))
    {
      while curlen < limit
        invariant old(curlen) <= curlen <= limit
        invariant buf[..curlen] == old(buf[..curlen]) + Zeros(curlen - old(curlen))
      {
        ghost var before := buf[..curlen];
        buf[curlen] := 0;
        assert buf[..curlen + 1] == before + [0];
        curlen := curlen + 1;
      }
    }

    /** STORE64H of the length into the last eight bytes. */
    method StoreLength()
      requires Shape() && length < WORD64
      modifies buf
      ensures buf[..] == old(buf[..lenAt]) + BigEndian(length, 8)
    {
      CopyInto(buf, lenAt, BigEndian(length, 8));
      assert buf[lenAt + 8..] == [];
    }

    /** Compress the buffer as the last block so far. */
    method CompressBuffer()
      requires Shape() && block > 0 && |done| % block == 0 && state == Fold(compress, initial, done, block)
      modifies this`state, this`done
      ensures done == old(done) + buf[..]
      ensures |done| % block == 0 && state == Fold(compress, initial, done, block)
    {
      FoldStep(compress, initial, done, buf[..], block);
      state := compress(state, buf[..]);
      done := done + buf[..];
    }

    /** The mark byte; if no room for the length is left, zeros up to the block end and a compression. */
    method MarkEnd()
      requires Shape() && curlen < block && block > 0
      requires |done| % block == 0 && state == Fold(compress, initial, done, block)
      modifies this`curlen, this`state, this`done, buf
      ensures |done| % block == 0 && state == Fold(compress, initial, done, block)
      ensures old(curlen) < tail ==>
                curlen == old(curlen) + 1 && done == old(done) && buf[..curlen] == old(buf[..curlen]) + [0x80]
      ensures old(curlen) >= tail ==>
                curlen == 0 && done == old(done) + (old(buf[..curlen]) + [0x80] + Zeros(block - old(curlen) - 1))
    {
      ghost var r := buf[..curlen];
      buf[curlen] := 0x80;
      curlen := curlen + 1;
      assert buf[..curlen] == r + [0x80];
      if curlen > tail {
        ZeroUpTo(block);
        assert buf[..] == buf[..block];
        CompressBuffer();
        curlen := 0;
      }
    }

    method Digest() returns (digest: seq<bv8>)
      requires Valid()
      modifies this, buf
      ensures Shape() && block > 0 && tail <= lenAt
      ensures var m := old(Message());
              var padded := m + CodePadding(|m|, block, tail, lenAt);
              |padded| % block == 0 && state == Fold(compress, initial, padded, block)
      ensures digest == output(state)
    {
      hide Fold, BigEndian, Zeros, Trailer;
      if curlen >= block {
        return [];
      }
      ghost var d, r := done, buf[..curlen];
      LengthField(d, r, block);
      length := (length + curlen * 8) % WORD64;
      MarkEnd();
      ghost var pre := buf[..curlen];
      ZeroUpTo(lenAt);
      StoreLength();
      assert buf[..] == pre + Zeros(lenAt - |pre|) + BigEndian(length, 8);
      assert pre == [] ==> pre + Zeros(lenAt) == Zeros(lenAt);
      CompressBuffer();
      TrailerIs(d, r, length, block, tail, lenAt);
      assert done == d + r + Trailer(|r|, length, block, tail, lenAt);
      digest := output(state);
    }
  }

  lemma LengthField(d: seq<bv8>, r: seq<bv8>, block: nat)
    requires |r| < block && |d| % block == 0
    ensures |d + r| % block == |r|
    ensures 8 * |d + r| % WORD64 == (8 * |d| % WORD64 + |r| * 8) % WORD64
  {
    Remainder(|d + r|, block, |d| / block, |r|);
    AddModulo(8 * |d|, 8 * |r|);
  }

  lemma TrailerIs(d: seq<bv8>, r: seq<bv8>, bits: nat, block: nat, tail: nat, lenAt: nat)
    requires 0 < tail <= lenAt < block && |r| < block
    ensures d + r + Trailer(|r|, bits, block, tail, lenAt) ==
            if |r| < tail then d + (r + [0x80] + Zeros(lenAt - |r| - 1) + BigEndian(bits, 8))
            else d + (r + [0x80] + Zeros(block - |r| - 1)) + (Zeros(lenAt) + BigEndian(bits, 8))
  {
    hide BigEndian;
    if |r| >= tail {
      assert Zeros(block - |r| - 1) + Zeros(lenAt) == Zeros(block - |r| - 1 + lenAt);
    }
  }

  /** The low sixteen bytes of the bit length are no more than the eight that the context counts. */
  predicate LengthFits(n: nat) {
    8 * n % WORD128 < WORD64
  }

  lemma FieldFits(n: nat)
    ensures BigEndian(8 * n % WORD64, 8) == BigEndian(8 * n, 8)
    ensures BigEndian(8 * n, 16) == Zeros(8) + BigEndian(8 * n, 8) <==> LengthFits(n)
  {
    hide BigEndian, Zeros;
    PowersOf256();
    BigEndianModulo(8 * n, 8);
    BigEndianSplits(8 * n, 8, 8);
    var h := Above(8 * n, 8);
    ZeroBytes(h, 8);
    HighWord(8 * n);
    if BigEndian(8 * n, 16) == Zeros(8) + BigEndian(8 * n, 8) {
      EqualEnds(BigEndian(h, 8), BigEndian(8 * n, 8), Zeros(8), BigEndian(8 * n, 8));
    }
  }

  lemma HighWord(x: nat)
    ensures x / WORD64 % WORD64 == 0 <==> x % WORD128 < WORD64
  {
  }

  /**
   The code's padding is the standard's: for SHA-256 with the low 64 bits of the bit length at
   every length, for SHA-512 exactly when the low 128 bits of the bit length fit in 64. Both
   standards end at messages of 2^64 and 2^128 bits.
   */
  lemma PaddingIsFips(n: nat)
    ensures CodePadding(n, 64, 56, 56) == FipsPadding256(n)
    ensures CodePadding(n, 128, 112, 120) == FipsPadding512(n) <==> LengthFits(n)
  {
    hide BigEndian, Fits256, Fits512, LengthFits;
    FieldFits(n);
    var zeros, field := FipsZeros512(n), BigEndian(8 * n, 8);
    assert Zeros(zeros) + Zeros(8) == Zeros(zeros + 8);
    assert CodePadding(n, 128, 112, 120) == ([0x80] + Zeros(zeros)) + (Zeros(8) + field);
    if CodePadding(n, 128, 112, 120) == FipsPadding512(n) {
      EqualEnds([0x80] + Zeros(zeros), Zeros(8) + field, [0x80] + Zeros(zeros), BigEndian(8 * n, 16));
    }
  }

  lemma PowersOf256()
    ensures Pow256(8) == WORD64
  {
    assert Pow256(4) == 0x1_0000_0000;
  }
}

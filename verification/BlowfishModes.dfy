/** ECB and CBC over a byte buffer, in place. A block is two big-endian words. */
module BlowfishModes {
  import opened Blowfish

  // ------------------------------------------------ bytes and words

  function LoadWord(b: seq<bv8>): (r: bv32)
    requires |b| == 4
  {
    ((b[0] as bv32) << 24) | ((b[1] as bv32) << 16) | ((b[2] as bv32) << 8) | (b[3] as bv32)
  }

  function StoreWord(x: bv32): (b: seq<bv8>)
    ensures |b| == 4
  {
    [((x >> 24) & 0xff) as bv8, ((x >> 16) & 0xff) as bv8, ((x >> 8) & 0xff) as bv8, (x & 0xff) as bv8]
  }

  lemma LoadStored(x: bv32)
    ensures LoadWord(StoreWord(x)) == x
  {
  }

  /** Network order: the first byte is the highest. */
  lemma FirstByteHighest(a: bv8, b: bv8, c: bv8, d: bv8)
    ensures Blowfish.Byte(LoadWord([a, b, c, d]), 24) == a && Blowfish.Byte(LoadWord([a, b, c, d]), 16) == b
    ensures Blowfish.Byte(LoadWord([a, b, c, d]), 8) == c && Blowfish.Byte(LoadWord([a, b, c, d]), 0) == d
  {
    hide Blowfish.Byte;
    BytesOf(a, b, c, d);
  }

  lemma StoreLoaded(b: seq<bv8>)
    requires |b| == 4
    ensures StoreWord(LoadWord(b)) == b
  {
  }

  function LoadBlock(b: seq<bv8>): (r: Halves)
    requires |b| == 8
  {
    Halves(LoadWord(b[..4]), LoadWord(b[4..]))
  }

  function StoreBlock(h: Halves): (b: seq<bv8>)
    ensures |b| == 8
  {
    StoreWord(h.l) + StoreWord(h.r)
  }

  lemma BlockRoundTrip(b: seq<bv8>, h: Halves)
    requires |b| == 8
    ensures StoreBlock(LoadBlock(b)) == b && LoadBlock(StoreBlock(h)) == h
  {
    hide LoadWord, StoreWord;
    StoreLoaded(b[..4]);
    StoreLoaded(b[4..]);
    LoadStored(h.l);
    LoadStored(h.r);
    assert b == b[..4] + b[4..];
    assert StoreBlock(h)[..4] == StoreWord(h.l) && StoreBlock(h)[4..] == StoreWord(h.r);
  }

  function EncryptBlock(c: Context, b: seq<bv8>): (e: seq<bv8>)
    requires c.Valid() && |b| == 8
    ensures |e| == 8
  {
    StoreBlock(Enciphered(c, LoadBlock(b)))
  }

  function DecryptBlock(c: Context, b: seq<bv8>): (d: seq<bv8>)
    requires c.Valid() && |b| == 8
    ensures |d| == 8
  {
    StoreBlock(Deciphered(c, LoadBlock(b)))
  }

  lemma BlockInverts(c: Context, b: seq<bv8>)
    requires c.Valid() && |b| == 8
    ensures DecryptBlock(c, EncryptBlock(c, b)) == b && EncryptBlock(c, DecryptBlock(c, b)) == b
  {
    hide LoadBlock, StoreBlock, Enciphered, Deciphered;
    var h := LoadBlock(b);
    BlockRoundTrip(b, Enciphered(c, h));
    BlockRoundTrip(b, Deciphered(c, h));
    CipherInverts(c, h);
  }

  function XorBytes(a: seq<bv8>, b: seq<bv8>): (x: seq<bv8>)
    requires |a| == |b|
    ensures |x| == |a|
  {
    seq(|a|, i requires 0 <= i < |a| => XorByte(a[i], b[i]))
  }

  function XorByte(x: bv8, y: bv8): (r: bv8) { x ^ y }

  lemma XorBytesTwice(a: seq<bv8>, b: seq<bv8>)
    requires |a| == |b|
    ensures XorBytes(XorBytes(a, b), b) == a
  {
    hide XorByte;
    forall i | 0 <= i < |a| ensures XorBytes(XorBytes(a, b), b)[i] == a[i] {
      XorTwice(a[i], b[i]);
    }
  }

  lemma XorBytesAt(a: seq<bv8>, b: seq<bv8>, i: nat)
    requires i < |a| == |b|
    ensures XorBytes(a, b)[i] == a[i] ^ b[i]
  {
  }

  lemma XorTwice(x: bv8, y: bv8)
    ensures XorByte(XorByte(x, y), y) == x
  {
  }

  // ------------------------------------------------ the modes as functions

  lemma LessBlock(n: nat)
    requires n > 0 && n % 8 == 0
    ensures n >= 8 && (n - 8) % 8 == 0
  {
  }

  function EcbEncrypted(c: Context, data: seq<bv8>): (e: seq<bv8>)
    requires c.Valid() && |data| % 8 == 0
    ensures |e| == |data|
  {
    hide EncryptBlock;
    if data == [] then [] else EncryptBlock(c, data[..8]) + EcbEncrypted(c, data[8..])
  }

  function EcbDecrypted(c: Context, data: seq<bv8>): (d: seq<bv8>)
    requires c.Valid() && |data| % 8 == 0
    ensures |d| == |data|
  {
    hide DecryptBlock;
    if data == [] then [] else DecryptBlock(c, data[..8]) + EcbDecrypted(c, data[8..])
  }

  function CbcEncrypted(c: Context, iv: seq<bv8>, data: seq<bv8>): (e: seq<bv8>)
    requires c.Valid() && |iv| == 8 && |data| % 8 == 0
    ensures |e| == |data|
    decreases |data|
  {
    hide *;
    if data == [] then [] else
    LessBlock(|data|);
    var e := EncryptBlock(c, XorBytes(data[..8], iv));
    e + CbcEncrypted(c, e, data[8..])
  }

  function CbcDecrypted(c: Context, iv: seq<bv8>, data: seq<bv8>): (d: seq<bv8>)
    requires c.Valid() && |iv| == 8 && |data| % 8 == 0
    ensures |d| == |data|
    decreases |data|
  {
    hide *;
    if data == [] then [] else
    LessBlock(|data|);
    XorBytes(DecryptBlock(c, data[..8]), iv) + CbcDecrypted(c, data[..8], data[8..])
  }

  lemma {:induction false} EcbRoundTrip(c: Context, data: seq<bv8>)
    requires c.Valid() && |data| % 8 == 0
    ensures EcbDecrypted(c, EcbEncrypted(c, data)) == data
    ensures EcbEncrypted(c, EcbDecrypted(c, data)) == data
  {
    hide EncryptBlock, DecryptBlock;
    if data != [] {
      EcbRoundTrip(c, data[8..]);
      BlockInverts(c, data[..8]);
      var e, d := EcbEncrypted(c, data), EcbDecrypted(c, data);
      assert e[..8] == EncryptBlock(c, data[..8]) && e[8..] == EcbEncrypted(c, data[8..]);
      assert d[..8] == DecryptBlock(c, data[..8]) && d[8..] == EcbDecrypted(c, data[8..]);
      assert data == data[..8] + data[8..];
    }
  }

  /** Each block on its own. */
  lemma {:induction false} EcbAt(c: Context, data: seq<bv8>, k: nat)
    requires c.Valid() && |data| % 8 == 0 && 8 * k + 8 <= |data|
    ensures EcbEncrypted(c, data)[8 * k..8 * k + 8] == EncryptBlock(c, data[8 * k..8 * k + 8])
    ensures EcbDecrypted(c, data)[8 * k..8 * k + 8] == DecryptBlock(c, data[8 * k..8 * k + 8])
    decreases k
  {
    hide EncryptBlock, DecryptBlock;
    var p, rest := 8 * k, data[8..];
    var e, d := EcbEncrypted(c, data), EcbDecrypted(c, data);
    assert e[8..] == EcbEncrypted(c, rest) && d[8..] == EcbDecrypted(c, rest);
    if k == 0 {
      assert e[..8] == EncryptBlock(c, data[..8]) && d[..8] == DecryptBlock(c, data[..8]);
    } else {
      EcbAt(c, rest, k - 1);
      assert rest[p - 8..p] == data[p..p + 8] && e[p..p + 8] == e[8..][p - 8..p] && d[p..p + 8] == d[8..][p - 8..p];
    }
  }

  /** CBC decryption undoes CBC encryption for every context, initialisation vector and message. */
  lemma {:induction false} CbcRoundTrip(c: Context, iv: seq<bv8>, data: seq<bv8>)
    requires c.Valid() && |iv| == 8 && |data| % 8 == 0
    ensures CbcDecrypted(c, iv, CbcEncrypted(c, iv, data)) == data
    decreases |data|
  {
    hide EncryptBlock, DecryptBlock, XorBytes;
    if data != [] {
      var x := XorBytes(data[..8], iv);
      var b := EncryptBlock(c, x);
      CbcRoundTrip(c, b, data[8..]);
      BlockInverts(c, x);
      XorBytesTwice(data[..8], iv);
      var e := CbcEncrypted(c, iv, data);
      assert e[..8] == b && e[8..] == CbcEncrypted(c, b, data[8..]);
      assert data == data[..8] + data[8..];
    }
  }

  /** And encryption undoes decryption. */
  lemma {:induction false} CbcRoundTripBack(c: Context, iv: seq<bv8>, data: seq<bv8>)
    requires c.Valid() && |iv| == 8 && |data| % 8 == 0
    ensures CbcEncrypted(c, iv, CbcDecrypted(c, iv, data)) == data
    decreases |data|
  {
    hide EncryptBlock, DecryptBlock, XorBytes;
    if data != [] {
      var b := data[..8];
      CbcRoundTripBack(c, b, data[8..]);
      BlockInverts(c, b);
      XorBytesTwice(DecryptBlock(c, b), iv);
      var d := CbcDecrypted(c, iv, data);
      assert d[..8] == XorBytes(DecryptBlock(c, b), iv) && d[8..] == CbcDecrypted(c, b, data[8..]);
      assert data == b + data[8..];
    }
  }

  // ------------------------------------------------ the routines

  /** Load, encipher and store the block at `at`. */
  method EncipherAt(c: Context, data: array<bv8>, at: nat)
    requires c.Valid() && at + 8 <= data.Length
    modifies data
    ensures data[..] == old(data[..at]) + EncryptBlock(c, old(data[at..at + 8])) + old(data[at + 8..])
  {
    hide Enciphered;
    var l, r := Encipher(c, LoadWord(data[at..at + 4]), LoadWord(data[at + 4..at + 8]));
    assert data[at..at + 8][..4] == data[at..at + 4] && data[at..at + 8][4..] == data[at + 4..at + 8];
    WriteBlock(data, at, StoreBlock(Halves(l, r)));
  }

  method DecipherAt(c: Context, data: array<bv8>, at: nat)
    requires c.Valid() && at + 8 <= data.Length
    modifies data
    ensures data[..] == old(data[..at]) + DecryptBlock(c, old(data[at..at + 8])) + old(data[at + 8..])
  {
    hide Deciphered;
    var l, r := Decipher(c, LoadWord(data[at..at + 4]), LoadWord(data[at + 4..at + 8]));
    assert data[at..at + 8][..4] == data[at..at + 4] && data[at..at + 8][4..] == data[at + 4..at + 8];
    WriteBlock(data, at, StoreBlock(Halves(l, r)));
  }

  method WriteBlock(data: array<bv8>, at: nat, b: seq<bv8>)
    requires |b| == 8 && at + 8 <= data.Length
    modifies data
    ensures data[..] == old(data[..at]) + b + old(data[at + 8..])
  {
    forall j | 0 <= j < 8 {
      data[at + j] := b[j];
    }
  }

  /** `data[j] ^= iv[j]` for the eight bytes of a block. */
  method XorAt(data: array<bv8>, at: nat, iv: seq<bv8>)
    requires |iv| == 8 && at + 8 <= data.Length
    modifies data
    ensures data[..] == old(data[..at]) + XorBytes(old(data[at..at + 8]), iv) + old(data[at + 8..])
  {
    hide XorByte;
    ghost var s := data[..];
    forall j | 0 <= j < 8 {
      data[at + j] := XorByte(data[at + j], iv[j]);
    }
    assert data[at..at + 8] == XorBytes(s[at..at + 8], iv);
    assert data[..] == data[..at] + data[at..at + 8] + data[at + 8..];
  }

  /** Replacing the block at i of s, whose rest is that of d, moves the boundary one block on. */
  lemma BlockDone<T>(d: seq<T>, s: seq<T>, t: seq<T>, i: nat, b: seq<T>)
    requires |d| == |s| && i + 8 <= |d| && |b| == 8 && s[i..] == d[i..] && t == s[..i] + b + s[i + 8..]
    ensures |t| == |d| && t[..i + 8] == s[..i] + b && t[i..i + 8] == b && t[i + 8..] == d[i + 8..]
    ensures d[i..][..8] == s[i..i + 8] && d[i..][8..] == d[i + 8..]
  {
    assert s[i..i + 8] == s[i..][..8];
    assert s[i + 8..] == s[i..][8..];
  }

  method EncryptEcb(c: Context, data: array<bv8>)
    requires c.Valid() && data.Length % 8 == 0
    modifies data
    ensures data[..] == EcbEncrypted(c, old(data[..]))
  {
    hide EncryptBlock;
    ghost var d := data[..];
    var i := 0;
    while i < data.Length
      invariant 0 <= i <= data.Length && i % 8 == 0
      invariant data[i..] == d[i..]
      invariant EcbEncrypted(c, d) == data[..i] + EcbEncrypted(c, d[i..])
    {
      ghost var s := data[..];
      EncipherAt(c, data, i);
      BlockDone(d, s, data[..], i, EncryptBlock(c, s[i..i + 8]));
      i := i + 8;
    }
  }

  method DecryptEcb(c: Context, data: array<bv8>)
    requires c.Valid() && data.Length % 8 == 0
    modifies data
    ensures data[..] == EcbDecrypted(c, old(data[..]))
  {
    hide DecryptBlock;
    ghost var d := data[..];
    var i := 0;
    while i < data.Length
      invariant 0 <= i <= data.Length && i % 8 == 0
      invariant data[i..] == d[i..]
      invariant EcbDecrypted(c, d) == data[..i] + EcbDecrypted(c, d[i..])
    {
      ghost var s := data[..];
      DecipherAt(c, data, i);
      BlockDone(d, s, data[..], i, DecryptBlock(c, s[i..i + 8]));
      i := i + 8;
    }
  }

  /** Chain the block at i with the ciphertext before it, then encipher it. */
  method EncryptCbcBlock(c: Context, data: array<bv8>, i: nat, chain: seq<bv8>, ghost d: seq<bv8>)
    requires c.Valid() && |chain| == 8 && |d| == data.Length && i + 8 <= |d| && data[i..] == d[i..]
    modifies data
    ensures data[..i + 8] == old(data[..i]) + EncryptBlock(c, XorBytes(d[i..i + 8], chain))
    ensures data[i + 8..] == d[i + 8..]
  {
    hide EncryptBlock, XorBytes;
    ghost var s := data[..];
    XorAt(data, i, chain);
    ghost var x := data[..];
    BlockDone(d, s, x, i, XorBytes(s[i..i + 8], chain));
    EncipherAt(c, data, i);
    BlockDone(x, x, data[..], i, EncryptBlock(c, x[i..i + 8]));
    assert x[..i] == s[..i] && d[i..][..8] == d[i..i + 8];
  }

  lemma CbcStep(c: Context, chain: seq<bv8>, d: seq<bv8>, i: nat)
    requires c.Valid() && |chain| == 8 && |d| % 8 == 0 && i % 8 == 0 && i < |d|
    ensures i + 8 <= |d| && (i + 8) % 8 == 0
    ensures var e := EncryptBlock(c, XorBytes(d[i..i + 8], chain));
      CbcEncrypted(c, chain, d[i..]) == e + CbcEncrypted(c, e, d[i + 8..])
  {
    hide EncryptBlock, XorBytes;
    assert d[i..][..8] == d[i..i + 8] && d[i..][8..] == d[i + 8..];
  }

  lemma CbcEnd(c: Context, chain: seq<bv8>, d: seq<bv8>)
    requires c.Valid() && |chain| == 8
    ensures CbcEncrypted(c, chain, d[|d|..]) == []
    ensures d[0..] == d
  {
  }

  /** Front to back; each block is chained to the ciphertext just written before it. */
  method EncryptCbc(c: Context, iv: array<bv8>, data: array<bv8>)
    requires c.Valid() && data.Length % 8 == 0 && iv.Length == 8 && iv != data
    modifies data
    ensures data[..] == CbcEncrypted(c, iv[..], old(data[..]))
  {
    hide EncryptBlock, XorBytes, CbcEncrypted;
    ghost var d := data[..];
    ghost var r := CbcEncrypted(c, iv[..], d);
    var i := 0;
    var chain := iv[..];
    CbcEnd(c, chain, d);
    while i < data.Length
      invariant 0 <= i <= data.Length && i % 8 == 0 && |chain| == 8
      invariant data[i..] == d[i..]
      invariant r == data[..i] + CbcEncrypted(c, chain, d[i..])
    {
      CbcStep(c, chain, d, i);
      ghost var done := data[..i];
      EncryptCbcBlock(c, data, i, chain, d);
      chain := data[i..i + 8];
      LastBlock(data[..i + 8], done, chain, i);
      i := i + 8;
    }
    CbcEnd(c, chain, d);
  }

  lemma LastBlock<T>(s: seq<T>, done: seq<T>, b: seq<T>, i: nat)
    requires |s| == i + 8 && |done| == i && b == s[i..] && done <= s
    ensures s == done + b
  {
  }

  /** What the block at p is chained to: the vector, or the ciphertext block before it. */
  ghost function ChainedTo(iv: seq<bv8>, data: seq<bv8>, p: nat): (b: seq<bv8>)
    requires |iv| == 8 && p + 8 <= |data|
    ensures |b| == 8
  {
    if p < 8 then iv else data[p - 8..p]
  }

  ghost function DecryptedAt(c: Context, iv: seq<bv8>, data: seq<bv8>, p: nat): (b: seq<bv8>)
    requires c.Valid() && |iv| == 8 && p + 8 <= |data|
    ensures |b| == 8
  {
    hide DecryptBlock, XorBytes;
    XorBytes(DecryptBlock(c, data[p..p + 8]), ChainedTo(iv, data, p))
  }

  /** Block k of the encrypted text r: combined with the ciphertext before it, or the vector, then enciphered. */
  lemma {:induction false} CbcEncryptedAt(c: Context, iv: seq<bv8>, data: seq<bv8>, r: seq<bv8>, k: nat)
    requires c.Valid() && |iv| == 8 && |data| % 8 == 0 && r == CbcEncrypted(c, iv, data)
    requires 8 * k + 8 <= |data| == |r|
    ensures var before := if k == 0 then iv else r[8 * k - 8..8 * k];
      r[8 * k..8 * k + 8] == EncryptBlock(c, XorBytes(data[8 * k..8 * k + 8], before))
    decreases k
  {
    hide EncryptBlock, XorBytes;
    var p := 8 * k;
    var e := EncryptBlock(c, XorBytes(data[..8], iv));
    var rest := CbcEncrypted(c, e, data[8..]);
    assert r[8..] == rest && r[..8] == e;
    if k > 0 {
      CbcEncryptedAt(c, e, data[8..], rest, k - 1);
      assert r[p..p + 8] == rest[p - 8..p];
      assert data[8..][p - 8..p] == data[p..p + 8];
      assert k > 1 ==> r[p - 8..p] == rest[p - 16..p - 8];
    }
  }

  /** Block k of the decrypted text r. */
  lemma {:induction false} CbcDecryptedAt(c: Context, iv: seq<bv8>, data: seq<bv8>, r: seq<bv8>, k: nat)
    requires c.Valid() && |iv| == 8 && |data| % 8 == 0 && r == CbcDecrypted(c, iv, data)
    requires 8 * k + 8 <= |data| && |r| == |data|
    ensures r[8 * k..8 * k + 8] == DecryptedAt(c, iv, data, 8 * k)
    ensures var before := if k == 0 then iv else data[8 * k - 8..8 * k];
      r[8 * k..8 * k + 8] == XorBytes(DecryptBlock(c, data[8 * k..8 * k + 8]), before)
    decreases k
  {
    hide DecryptBlock, XorBytes;
    var p := 8 * k;
    var rest := CbcDecrypted(c, data[..8], data[8..]);
    assert r[8..] == rest;
    if k > 0 {
      CbcDecryptedAt(c, data[..8], data[8..], rest, k - 1);
      assert r[p..p + 8] == rest[p - 8..p];
      assert data[8..][p - 8..p] == data[p..p + 8];
      assert k > 1 ==> data[8..][p - 16..p - 8] == data[p - 8..p];
    }
  }

  lemma SubSlice<T>(s: seq<T>, t: seq<T>, n: nat, lo: nat, hi: nat)
    requires lo <= hi <= n <= |s| && n <= |t| && s[..n] == t[..n]
    ensures s[lo..hi] == t[lo..hi]
  {
    forall i | lo <= i < hi ensures s[i] == t[i] {
      assert s[..n][i] == t[..n][i];
    }
  }

  /** The block at i of s is replaced by that of r; below it s is still d, from i + 8 on it is already r. */
  lemma BlockFromEnd<T>(d: seq<T>, r: seq<T>, s: seq<T>, t: seq<T>, i: nat, b: seq<T>)
    requires |d| == |s| == |r| && i + 8 <= |d| && |b| == 8 && r[i..i + 8] == b
    requires s[..i + 8] == d[..i + 8] && s[i + 8..] == r[i + 8..] && t == s[..i] + b + s[i + 8..]
    ensures |t| == |d| && t[..i] == d[..i] && t[i..] == r[i..]
    ensures s[i..i + 8] == d[i..i + 8] && (i >= 8 ==> t[i - 8..i] == d[i - 8..i])
  {
    assert t[..i] == s[..i] == s[..i + 8][..i];
    assert r[i..] == r[i..i + 8] + r[i + 8..];
    assert s[i..i + 8] == s[..i + 8][i..];
  }

  /** Decipher the block at i, then chain it with the ciphertext before it. */
  method DecryptCbcBlock(c: Context, data: array<bv8>, i: nat, chain: seq<bv8>, ghost d: seq<bv8>, ghost r: seq<bv8>)
    requires c.Valid() && |chain| == 8 && |d| == |r| == data.Length && i + 8 <= |d|
    requires data[..i + 8] == d[..i + 8] && data[i + 8..] == r[i + 8..]
    requires r[i..i + 8] == XorBytes(DecryptBlock(c, d[i..i + 8]), chain)
    modifies data
    ensures data[..i] == d[..i] && data[i..] == r[i..]
  {
    hide DecryptBlock, XorBytes;
    ghost var s := data[..];
    DecipherAt(c, data, i);
    ghost var x := data[..];
    assert x[..i] == s[..i] && x[i..i + 8] == DecryptBlock(c, s[i..i + 8]) && x[i + 8..] == s[i + 8..];
    XorAt(data, i, chain);
    assert s[i..i + 8] == s[..i + 8][i..] == d[i..i + 8];
    BlockFromEnd(d, r, s, data[..], i, XorBytes(x[i..i + 8], chain));
  }

  /** Back to front, so that the ciphertext each block is chained to is still there; the first block uses the vector. */
  method DecryptCbc(c: Context, iv: array<bv8>, data: array<bv8>)
    requires c.Valid() && data.Length % 8 == 0 && data.Length >= 8 && iv.Length == 8 && iv != data
    modifies data
    ensures data[..] == CbcDecrypted(c, iv[..], old(data[..]))
  {
    hide DecryptBlock, XorBytes, CbcDecrypted;
    ghost var d := data[..];
    ghost var r := CbcDecrypted(c, iv[..], d);
    var i := data.Length - 8;
    while i >= 8
      invariant 0 <= i <= data.Length - 8 && i % 8 == 0
      invariant data[..i + 8] == d[..i + 8] && data[i + 8..] == r[i + 8..]
    {
      CbcDecryptedAt(c, iv[..], d, r, i / 8);
      SubSlice(data[..], d, i + 8, i - 8, i);
      DecryptCbcBlock(c, data, i, data[i - 8..i], d, r);
      i := i - 8;
    }
    CbcDecryptedAt(c, iv[..], d, r, 0);
    DecryptCbcBlock(c, data, 0, iv[..], d, r);
  }

  /** The two routines in a row restore the buffer, whatever the context, vector and contents. */
  method EncryptThenDecrypt(c: Context, iv: array<bv8>, data: array<bv8>)
    requires c.Valid() && data.Length % 8 == 0 && data.Length >= 8 && iv.Length == 8 && iv != data
    modifies data
    ensures data[..] == old(data[..])
  {
    ghost var d := data[..];
    EncryptCbc(c, iv, data);
    DecryptCbc(c, iv, data);
    CbcRoundTrip(c, iv[..], d);
  }
}

/** The digests of "abc" that the standards publish, as results of the library. */
module PublishedDigests {
  import opened Hash
  import opened MessagePadding
  import Md5Context
  import Md5Rounds
  import Md5Vector
  import Sha256Rounds
  import Sha256Vector
  import Sha512Rounds
  import Sha512Vector
  import ShaContext

  const ABC: seq<bv8> := [0x61, 0x62, 0x63]

  lemma {:induction false} NoBytes(n: nat)
    ensures BigEndian(0, n) == Zeros(n) == Md5Context.LittleEndian(0, n)
  {
    if n > 0 {
      NoBytes(n - 1);
    }
  }

  lemma LengthBytes(n: nat)
    requires n > 0
    ensures BigEndian(24, n) == Zeros(n - 1) + [24]
    ensures Md5Context.LittleEndian(24, n) == [24] + Zeros(n - 1)
  {
    NoBytes(n - 1);
  }

  lemma OneBlock<S>(compress: (S, seq<bv8>) -> S, start: S, p: seq<bv8>, block: nat)
    requires |p| == block > 0
    ensures |p| % block == 0 && Fold(compress, start, p, block) == compress(start, p)
  {
    DropBlock(block, block);
    assert p[..0] == [] && p[0..] == p;
  }

  /** RFC 1321, appendix A.5. */
  lemma Md5OfAbc()
    ensures DigestOf(Md5, ABC)
         == [0x90, 0x01, 0x50, 0x98] + [0x3c, 0xd2, 0x4f, 0xb0] + [0xd6, 0x96, 0x3f, 0x7d] + [0x28, 0xe1, 0x7f, 0x72]
  {
    hide Fold, Md5Rounds.Compress, Md5Rounds.Store, BigEndian, Md5Context.LittleEndian;
    var p := Padded(Md5, ABC);
    LengthBytes(8);
    assert FipsZeros256(3) == 52;
    OneBlock(Md5Rounds.Block, Md5Rounds.INITIAL, p, 64);
    Md5Vector.Compressed(p);
    Md5Vector.Stored();
  }

  /** The SHA-256 example of FIPS 180-4. */
  lemma Sha256OfAbc()
    ensures DigestOf(Sha256, ABC)
         == [0xba, 0x78, 0x16, 0xbf] + [0x8f, 0x01, 0xcf, 0xea] + [0x41, 0x41, 0x40, 0xde] + [0x5d, 0xae, 0x22, 0x23]
          + [0xb0, 0x03, 0x61, 0xa3] + [0x96, 0x17, 0x7a, 0x9c] + [0xb4, 0x10, 0xff, 0x61] + [0xf2, 0x00, 0x15, 0xad]
  {
    hide Fold, Sha256Rounds.Compress, Sha256Rounds.Store, BigEndian;
    var p := Padded(Sha256, ABC);
    LengthBytes(8);
    assert FipsZeros256(3) == 52;
    OneBlock(Sha256Rounds.Block, Sha256Rounds.INITIAL, p, 64);
    Sha256Vector.Compressed(p);
    Sha256Vector.Stored();
  }

  /** The SHA-512 example of FIPS 180-4. */
  lemma Sha512OfAbc()
    ensures DigestOf(Sha512, ABC)
         == [0xdd, 0xaf, 0x35, 0xa1, 0x93, 0x61, 0x7a, 0xba] + [0xcc, 0x41, 0x73, 0x49, 0xae, 0x20, 0x41, 0x31]
          + [0x12, 0xe6, 0xfa, 0x4e, 0x89, 0xa9, 0x7e, 0xa2] + [0x0a, 0x9e, 0xee, 0xe6, 0x4b, 0x55, 0xd3, 0x9a]
          + [0x21, 0x92, 0x99, 0x2a, 0x27, 0x4f, 0xc1, 0xa8] + [0x36, 0xba, 0x3c, 0x23, 0xa3, 0xfe, 0xeb, 0xbd]
          + [0x45, 0x4d, 0x44, 0x23, 0x64, 0x3c, 0xe8, 0x0e] + [0x2a, 0x9a, 0xc9, 0x4f, 0xa5, 0x4c, 0xa4, 0x9f]
  {
    hide Fold, Sha512Rounds.Compress, Sha512Rounds.Store, BigEndian;
    var p := Padded(Sha512, ABC);
    LengthBytes(16);
    assert FipsZeros512(3) == 108;
    OneBlock(Sha512Rounds.Block, Sha512Rounds.INITIAL, p, 128);
    Sha512Vector.Compressed(p);
    Sha512Vector.Stored();
  }
}

/** The xtHash front end: one object, three digest algorithms, the result in its hash field. */
module Hash {
  import opened MessagePadding
  import Md5Context
  import Md5Rounds
  import Sha256Rounds
  import Sha512Rounds
  import ShaContext

  datatype Algorithm = Md5 | Sha256 | Sha512

  /** The message together with the padding its standard prescribes. */
  ghost function Padded(algorithm: Algorithm, m: seq<bv8>): (p: seq<bv8>)
    ensures if algorithm == Sha512 then |p| % 128 == 0 else |p| % 64 == 0
  {
    hide Md5Context.RfcPadding, FipsPadding256, FipsPadding512;
    match algorithm
    case Md5 => m + Md5Context.RfcPadding(|m|)
    case Sha256 => m + FipsPadding256(|m|)
    case Sha512 => m + FipsPadding512(|m|)
  }

  /** The digest of a whole message, defined without any buffering. */
  ghost function DigestOf(algorithm: Algorithm, m: seq<bv8>): (r: seq<bv8>) {
    match algorithm
    case Md5 => Md5Rounds.Store(Fold(Md5Rounds.Block, Md5Rounds.INITIAL, Padded(Md5, m), 64))
    case Sha256 => Sha256Rounds.Store(Fold(Sha256Rounds.Block, Sha256Rounds.INITIAL, Padded(Sha256, m), 64))
    case Sha512 => Sha512Rounds.Store(Fold(Sha512Rounds.Block, Sha512Rounds.INITIAL, Padded(Sha512, m), 128))
  }

  /** The padded messages end in the same chaining value. */
  ghost predicate SameChain(algorithm: Algorithm, m: seq<bv8>, n: seq<bv8>) {
    match algorithm
    case Md5 =>
      Fold(Md5Rounds.Block, Md5Rounds.INITIAL, Padded(Md5, m), 64)
      == Fold(Md5Rounds.Block, Md5Rounds.INITIAL, Padded(Md5, n), 64)
    case Sha256 =>
      Fold(Sha256Rounds.Block, Sha256Rounds.INITIAL, Padded(Sha256, m), 64)
      == Fold(Sha256Rounds.Block, Sha256Rounds.INITIAL, Padded(Sha256, n), 64)
    case Sha512 =>
      Fold(Sha512Rounds.Block, Sha512Rounds.INITIAL, Padded(Sha512, m), 128)
      == Fold(Sha512Rounds.Block, Sha512Rounds.INITIAL, Padded(Sha512, n), 128)
  }

  /** Writing out the digest adds no collision: digests agree exactly when the chaining values do. */
  lemma DigestsAgree(algorithm: Algorithm, m: seq<bv8>, n: seq<bv8>)
    ensures DigestOf(algorithm, m) == DigestOf(algorithm, n) <==> SameChain(algorithm, m, n)
  {
    hide Fold, Padded, Md5Rounds.Store, Sha256Rounds.Store, Sha512Rounds.Store;
    match algorithm
    case Md5 =>
      Md5Rounds.StoreInjective(
        Fold(Md5Rounds.Block, Md5Rounds.INITIAL, Padded(Md5, m), 64),
        Fold(Md5Rounds.Block, Md5Rounds.INITIAL, Padded(Md5, n), 64));
    case Sha256 =>
      Sha256Rounds.StoreInjective(
        Fold(Sha256Rounds.Block, Sha256Rounds.INITIAL, Padded(Sha256, m), 64),
        Fold(Sha256Rounds.Block, Sha256Rounds.INITIAL, Padded(Sha256, n), 64));
    case Sha512 =>
      Sha512Rounds.StoreInjective(
        Fold(Sha512Rounds.Block, Sha512Rounds.INITIAL, Padded(Sha512, m), 128),
        Fold(Sha512Rounds.Block, Sha512Rounds.INITIAL, Padded(Sha512, n), 128));
  }

  class XtHash {
    const algorithm: Algorithm
    const md5: Md5Context.Context<Md5Rounds.Regs>
    const sha256: ShaContext.Context<Sha256Rounds.Regs>
    const sha512: ShaContext.Context<Sha512Rounds.Regs>
    const hash: array<bv8>
    var hashSizeInBytes: nat

    ghost const Repr: set<object>

    ghost predicate Shape()
      reads this
    {
      && Repr == {this, md5, md5.buffer, sha256, sha256.buf, sha512, sha512.buf, hash}
      && hashSizeInBytes == (match algorithm case Md5 => 16 case Sha256 => 32 case Sha512 => 64)
      && hash != md5.buffer && hash != sha256.buf && hash != sha512.buf && hash.Length == 64
      && md5.buffer != sha256.buf && md5.buffer != sha512.buf && sha256.buf != sha512.buf
      && md5.Shape() && md5.compress == Md5Rounds.Block
      && md5.initial == Md5Rounds.INITIAL && md5.output == Md5Rounds.Store
      && sha256.Shape() && sha256.block == 64 && sha256.compress == Sha256Rounds.Block
      && sha256.initial == Sha256Rounds.INITIAL && sha256.output == Sha256Rounds.Store
      && sha512.Shape() && sha512.block == 128 && sha512.compress == Sha512Rounds.Block
      && sha512.initial == Sha512Rounds.INITIAL && sha512.output == Sha512Rounds.Store
    }

    ghost predicate Valid()
      reads this, Repr
    {
      && Shape()
      && match algorithm
         case Md5 => md5.Valid()
         case Sha256 => sha256.Valid()
         case Sha512 => sha512.Valid()
    }

    /** Everything fed in since initialisation or the last reset. */
    ghost function Message(): (r: seq<bv8>)
      requires Valid()
      reads this, Repr
    {
      match algorithm
      case Md5 => md5.Message()
      case Sha256 => sha256.Message()
      case Sha512 => sha512.Message()
    }

    constructor (algorithm: Algorithm)
      ensures Valid() && Message() == [] && fresh(Repr)
      ensures this.algorithm == algorithm
    {
      this.algorithm := algorithm;
      var m := new Md5Context.Context(Md5Rounds.Block, Md5Rounds.INITIAL, Md5Rounds.Store);
      var s := new ShaContext.Context(false, Sha256Rounds.Block, Sha256Rounds.INITIAL, Sha256Rounds.Store);
      var t := new ShaContext.Context(true, Sha512Rounds.Block, Sha512Rounds.INITIAL, Sha512Rounds.Store);
      var h := new bv8[64];
      md5, sha256, sha512, hash := m, s, t, h;
      Repr := {this, m, m.buffer, s, s.buf, t, t.buf, h};
      hashSizeInBytes := match algorithm case Md5 => 16 case Sha256 => 32 case Sha512 => 64;
    }

    method Reset()
      requires Shape()
      modifies Repr
      ensures Valid() && Message() == []
    {
      match algorithm {
        case Md5 =>
          md5.Reset();
          hashSizeInBytes := 16;
        case Sha256 =>
          sha256.Reset();
          hashSizeInBytes := 32;
        case Sha512 =>
          sha512.Reset();
          hashSizeInBytes := 64;
      }
    }

    method Update(data: seq<bv8>)
      requires Valid()
      modifies Repr
      ensures Valid() && Message() == old(Message()) + data
    {
      match algorithm {
        case Md5 => md5.Update(data);
        case Sha256 => sha256.Update(data);
        case Sha512 => sha512.Update(data);
      }
    }

    /** The hash depends on the bytes fed in alone, not on how they were split into updates. */
    method Digest()
      requires Valid()
      modifies Repr
      ensures Shape() && hashSizeInBytes <= 64
      ensures algorithm != Sha512 || ShaContext.LengthFits(|old(Message())|) ==>
                hash[..hashSizeInBytes] == DigestOf(algorithm, old(Message()))
    {
      hide Fold, Md5Context.RfcPadding, FipsPadding256, FipsPadding512, ShaContext.CodePadding;
      ghost var m := Message();
      match algorithm {
        case Md5 =>
          var d := md5.Digest();
          CopyInto(hash, 0, d);
        case Sha256 =>
          var d := sha256.Digest();
          CopyInto(hash, 0, d);
          ShaContext.PaddingIsFips(|m|);
        case Sha512 =>
          var d := sha512.Digest();
          CopyInto(hash, 0, d);
          ShaContext.PaddingIsFips(|m|);
      }
    }
  }

  ghost function Joined(chunks: seq<seq<bv8>>): (r: seq<bv8>) {
    if chunks == [] then [] else Joined(chunks[..|chunks| - 1]) + chunks[|chunks| - 1]
  }

  /** A whole run, initialise, update with every chunk in turn, digest: only the joined bytes matter. */
  method HashChunks(algorithm: Algorithm, chunks: seq<seq<bv8>>)
    returns (digest: seq<bv8>)
    ensures var m := Joined(chunks);
      algorithm != Sha512 || ShaContext.LengthFits(|m|) ==> digest == DigestOf(algorithm, m)
  {
    var ctx := new XtHash(algorithm);
    var i := 0;
    while i < |chunks|
      invariant 0 <= i <= |chunks| && ctx.Valid() && fresh(ctx.Repr)
      invariant ctx.Message() == Joined(chunks[..i])
    {
      assert chunks[..i + 1][..i] == chunks[..i];
      ctx.Update(chunks[i]);
      i := i + 1;
    }
    assert chunks[..i] == chunks;
    ctx.Digest();
    digest := ctx.hash[..ctx.hashSizeInBytes];
  }

  // ------------------------------------------------ the block routines and the contexts

  /** The unrolled MD5 routine, block after block. */
  method RunMd5(padded: seq<bv8>) returns (digest: seq<bv8>)
    requires |padded| % 64 == 0
    ensures digest == Md5Rounds.Store(Fold(Md5Rounds.Block, Md5Rounds.INITIAL, padded, 64))
  {
    hide Fold, Md5Rounds.Compress, Md5Rounds.Store;
    var r, pos := Md5Rounds.INITIAL, 0;
    NothingFolded(Md5Rounds.Block, r, padded, 64);
    while pos < |padded|
      invariant 0 <= pos <= |padded| && pos % 64 == 0
      invariant r == Fold(Md5Rounds.Block, Md5Rounds.INITIAL, padded[..pos], 64)
    {
      TakeBlock(Md5Rounds.Block, Md5Rounds.INITIAL, padded, pos, 64);
      r := Md5Rounds.Transform(r, padded[pos..pos + 64]);
      pos := pos + 64;
    }
    assert padded[..pos] == padded;
    digest := Md5Rounds.Store(r);
  }

  /** sha256_transform, block after block. */
  method RunSha256(padded: seq<bv8>) returns (digest: seq<bv8>)
    requires |padded| % 64 == 0
    ensures digest == Sha256Rounds.Store(Fold(Sha256Rounds.Block, Sha256Rounds.INITIAL, padded, 64))
  {
    hide Fold, Sha256Rounds.Compress, Sha256Rounds.Store;
    ghost var start := Sha256Rounds.INITIAL;
    var i := Sha256Rounds.INITIAL;
    var state := new bv32[8] [i.a, i.b, i.c, i.d, i.e, i.f, i.g, i.h];
    var pos := 0;
    NothingFolded(Sha256Rounds.Block, start, padded, 64);
    while pos < |padded|
      invariant 0 <= pos <= |padded| && pos % 64 == 0
      invariant Sha256Rounds.InOrder(state[..]) == Fold(Sha256Rounds.Block, start, padded[..pos], 64)
    {
      TakeBlock(Sha256Rounds.Block, start, padded, pos, 64);
      Sha256Rounds.Transform(Sha256Rounds.K, state, padded[pos..pos + 64]);
      pos := pos + 64;
    }
    assert padded[..pos] == padded;
    digest := Sha256Rounds.Store(
      Sha256Rounds.Regs(state[0], state[1], state[2], state[3], state[4], state[5], state[6], state[7]));
  }

  /** sha512_transform, block after block. */
  method RunSha512(padded: seq<bv8>) returns (digest: seq<bv8>)
    requires |padded| % 128 == 0
    ensures digest == Sha512Rounds.Store(Fold(Sha512Rounds.Block, Sha512Rounds.INITIAL, padded, 128))
  {
    hide Fold, Sha512Rounds.Compress, Sha512Rounds.Store;
    ghost var start := Sha512Rounds.INITIAL;
    var i := Sha512Rounds.INITIAL;
    var state := new bv64[8] [i.a, i.b, i.c, i.d, i.e, i.f, i.g, i.h];
    var pos := 0;
    NothingFolded(Sha512Rounds.Block, start, padded, 128);
    while pos < |padded|
      invariant 0 <= pos <= |padded| && pos % 128 == 0
      invariant Sha512Rounds.InOrder(state[..]) == Fold(Sha512Rounds.Block, start, padded[..pos], 128)
    {
      TakeBlock(Sha512Rounds.Block, start, padded, pos, 128);
      Sha512Rounds.Transform(Sha512Rounds.K, state, padded[pos..pos + 128]);
      pos := pos + 128;
    }
    assert padded[..pos] == padded;
    digest := Sha512Rounds.Store(
      Sha512Rounds.Regs(state[0], state[1], state[2], state[3], state[4], state[5], state[6], state[7]));
  }

  lemma NothingFolded<S>(compress: (S, seq<bv8>) -> S, start: S, padded: seq<bv8>, block: nat)
    requires block > 0 && 0 % block == 0
    ensures Fold(compress, start, padded[..0], block) == start
  {
  }

  lemma TakeBlock<S>(compress: (S, seq<bv8>) -> S, start: S, padded: seq<bv8>, pos: nat, block: nat)
    requires (block == 64 || block == 128) && |padded| % block == 0 && pos % block == 0 && pos < |padded|
    ensures pos + block <= |padded| && (pos + block) % block == 0
    ensures Fold(compress, start, padded[..pos + block], block)
      == compress(Fold(compress, start, padded[..pos], block), padded[pos..pos + block])
  {
    hide Fold;
    assert pos + block <= |padded|;
    assert padded[..pos + block] == padded[..pos] + padded[pos..pos + block];
    FoldStep(compress, start, padded[..pos], padded[pos..pos + block], block);
  }

  /**
   The contexts above run the block functions of the standards. Running the routines of the
   library on the padded message gives the same digest, so it is also what any split of the
   message into updates gives.
   */
  method DigestByRoutines(algorithm: Algorithm, m: seq<bv8>, padded: seq<bv8>) returns (digest: seq<bv8>)
    requires padded == Padded(algorithm, m)
    ensures digest == DigestOf(algorithm, m)
  {
    hide Padded, Fold;
    match algorithm
    case Md5 => digest := RunMd5(padded);
    case Sha256 => digest := RunSha256(padded);
    case Sha512 => digest := RunSha512(padded);
  }
}

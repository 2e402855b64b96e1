/** The digest of "abc" published in appendix A.5 of RFC 1321. */
module Md5Vector {
  import opened MessagePadding
  import opened Md5Rounds

  // ------------------------------------------------ the operations

  /** The register that an operation brings in. */
  function New(round: nat, a: bv32, b: bv32, c: bv32, d: bv32, x: bv32, t: bv32, s: nat): (r: bv32)
    requires s <= 32
  {
    Plus(b, Rotl(StandardSum(a, Auxiliary(round, b, c, d), x, t), s))
  }

  lemma News0()
    ensures New(0, 0x67452301, 0xefcdab89, 0x98badcfe, 0x10325476, 0x80636261, 0xd76aa478, 7) == 0xd6d117b4
    ensures New(0, 0x10325476, 0xd6d117b4, 0xefcdab89, 0x98badcfe, 0, 0xe8c7b756, 12) == 0x344a8432
    ensures New(0, 0x98badcfe, 0x344a8432, 0xd6d117b4, 0xefcdab89, 0, 0x242070db, 17) == 0x2f6fbd72
    ensures New(0, 0xefcdab89, 0x2f6fbd72, 0x344a8432, 0xd6d117b4, 0, 0xc1bdceee, 22) == 0x7ad956f2
    ensures New(0, 0xd6d117b4, 0x7ad956f2, 0x2f6fbd72, 0x344a8432, 0, 0xf57c0faf, 7) == 0xc73741ef
    ensures New(0, 0x344a8432, 0xc73741ef, 0x7ad956f2, 0x2f6fbd72, 0, 0x4787c62a, 12) == 0x8bac3051
    ensures New(0, 0x2f6fbd72, 0x8bac3051, 0xc73741ef, 0x7ad956f2, 0, 0xa8304613, 17) == 0x207dc67b
    ensures New(0, 0x7ad956f2, 0x207dc67b, 0x8bac3051, 0xc73741ef, 0, 0xfd469501, 22) == 0x928d99f6
    ensures New(0, 0xc73741ef, 0x928d99f6, 0x207dc67b, 0x8bac3051, 0, 0x698098d8, 7) == 0x854b3712
    ensures New(0, 0x8bac3051, 0x854b3712, 0x928d99f6, 0x207dc67b, 0, 0x8b44f7af, 12) == 0x74e2f284
    ensures New(0, 0x207dc67b, 0x74e2f284, 0x854b3712, 0x928d99f6, 0, 0xffff5bb1, 17) == 0x3020401c
    ensures New(0, 0x928d99f6, 0x3020401c, 0x74e2f284, 0x854b3712, 0, 0x895cd7be, 22) == 0x5ed49596
    ensures New(0, 0x854b3712, 0x5ed49596, 0x3020401c, 0x74e2f284, 0, 0x6b901122, 7) == 0xdda9b9a6
    ensures New(0, 0x74e2f284, 0xdda9b9a6, 0x5ed49596, 0x3020401c, 0, 0xfd987193, 12) == 0xa1051895
    ensures New(0, 0x3020401c, 0xa1051895, 0xdda9b9a6, 0x5ed49596, 24, 0xa679438e, 17) == 0xe396856b
    ensures New(0, 0x5ed49596, 0xe396856b, 0xa1051895, 0xdda9b9a6, 0, 0x49b40821, 22) == 0x72aff2e0
  {
  }

  lemma News16()
    ensures New(1, 0xdda9b9a6, 0x72aff2e0, 0xe396856b, 0xa1051895, 0, 0xf61e2562, 5) == 0x3e9e9126
    ensures New(1, 0xa1051895, 0x3e9e9126, 0x72aff2e0, 0xe396856b, 0, 0xc040b340, 9) == 0x4a1d804e
    ensures New(1, 0xe396856b, 0x4a1d804e, 0x3e9e9126, 0x72aff2e0, 0, 0x265e5a51, 14) == 0xe25e1652
    ensures New(1, 0x72aff2e0, 0xe25e1652, 0x4a1d804e, 0x3e9e9126, 0x80636261, 0xe9b6c7aa, 20) == 0xb5b204e4
    ensures New(1, 0x3e9e9126, 0xb5b204e4, 0xe25e1652, 0x4a1d804e, 0, 0xd62f105d, 5) == 0x59a8ffda
    ensures New(1, 0x4a1d804e, 0x59a8ffda, 0xb5b204e4, 0xe25e1652, 0, 0x02441453, 9) == 0x6d002f1e
    ensures New(1, 0xe25e1652, 0x6d002f1e, 0x59a8ffda, 0xb5b204e4, 0, 0xd8a1e681, 14) == 0xabfc7920
    ensures New(1, 0xb5b204e4, 0xabfc7920, 0x6d002f1e, 0x59a8ffda, 0, 0xe7d3fbc8, 20) == 0x47092c07
    ensures New(1, 0x59a8ffda, 0x47092c07, 0xabfc7920, 0x6d002f1e, 0, 0x21e1cde6, 5) == 0xb7f268cf
    ensures New(1, 0x6d002f1e, 0xb7f268cf, 0x47092c07, 0xabfc7920, 24, 0xc33707d6, 9) == 0x09388eff
    ensures New(1, 0xabfc7920, 0x09388eff, 0xb7f268cf, 0x47092c07, 0, 0xf4d50d87, 14) == 0xfe1623b1
    ensures New(1, 0x47092c07, 0xfe1623b1, 0x09388eff, 0xb7f268cf, 0, 0x455a14ed, 20) == 0x786acb8f
    ensures New(1, 0xb7f268cf, 0x786acb8f, 0xfe1623b1, 0x09388eff, 0, 0xa9e3e905, 5) == 0x790a77fb
    ensures New(1, 0x09388eff, 0x790a77fb, 0x786acb8f, 0xfe1623b1, 0, 0xfcefa3f8, 9) == 0x9f47e4f8
    ensures New(1, 0xfe1623b1, 0x9f47e4f8, 0x790a77fb, 0x786acb8f, 0, 0x676f02d9, 14) == 0xa62884aa
    ensures New(1, 0x786acb8f, 0xa62884aa, 0x9f47e4f8, 0x790a77fb, 0, 0x8d2a4c8a, 20) == 0x726342d3
  {
  }

  lemma News32()
    ensures New(2, 0x790a77fb, 0x726342d3, 0xa62884aa, 0x9f47e4f8, 0, 0xfffa3942, 4) == 0xb3707ebf
    ensures New(2, 0x9f47e4f8, 0xb3707ebf, 0x726342d3, 0xa62884aa, 0, 0x8771f681, 11) == 0x60127b2e
    ensures New(2, 0xa62884aa, 0x60127b2e, 0xb3707ebf, 0x726342d3, 0, 0x6d9d6122, 16) == 0x8d212ff5
    ensures New(2, 0x726342d3, 0x8d212ff5, 0x60127b2e, 0xb3707ebf, 24, 0xfde5380c, 23) == 0x3b0875c7
    ensures New(2, 0xb3707ebf, 0x3b0875c7, 0x8d212ff5, 0x60127b2e, 0, 0xa4beea44, 4) == 0x21b117b9
    ensures New(2, 0x60127b2e, 0x21b117b9, 0x3b0875c7, 0x8d212ff5, 0, 0x4bdecfa9, 11) == 0x6e7429d5
    ensures New(2, 0x8d212ff5, 0x6e7429d5, 0x21b117b9, 0x3b0875c7, 0, 0xf6bb4b60, 16) == 0x3575227e
    ensures New(2, 0x3b0875c7, 0x3575227e, 0x6e7429d5, 0x21b117b9, 0, 0xbebfbc70, 23) == 0x5a2f5ea5
    ensures New(2, 0x21b117b9, 0x5a2f5ea5, 0x3575227e, 0x6e7429d5, 0, 0x289b7ec6, 4) == 0x11de1779
    ensures New(2, 0x6e7429d5, 0x11de1779, 0x5a2f5ea5, 0x3575227e, 0x80636261, 0xeaa127fa, 11) == 0xfadcaa38
    ensures New(2, 0x3575227e, 0xfadcaa38, 0x11de1779, 0x5a2f5ea5, 0, 0xd4ef3085, 16) == 0x31c465ca
    ensures New(2, 0x5a2f5ea5, 0x31c465ca, 0xfadcaa38, 0x11de1779, 0, 0x04881d05, 23) == 0x4c6124f4
    ensures New(2, 0x11de1779, 0x4c6124f4, 0x31c465ca, 0xfadcaa38, 0, 0xd9d4d039, 4) == 0x7f2e507b
    ensures New(2, 0xfadcaa38, 0x7f2e507b, 0x4c6124f4, 0x31c465ca, 0, 0xe6db99e5, 11) == 0x99d9679d
    ensures New(2, 0x31c465ca, 0x99d9679d, 0x7f2e507b, 0x4c6124f4, 0, 0x1fa27cf8, 16) == 0x8fae6399
    ensures New(2, 0x4c6124f4, 0x8fae6399, 0x99d9679d, 0x7f2e507b, 0, 0xc4ac5665, 23) == 0x7beb9700
  {
  }

  lemma News48()
    ensures New(3, 0x7f2e507b, 0x7beb9700, 0x8fae6399, 0x99d9679d, 0x80636261, 0xf4292244, 6) == 0x7b201df8
    ensures New(3, 0x99d9679d, 0x7b201df8, 0x7beb9700, 0x8fae6399, 0, 0x432aff97, 10) == 0xf4e8e96e
    ensures New(3, 0x8fae6399, 0xf4e8e96e, 0x7b201df8, 0x7beb9700, 24, 0xab9423a7, 15) == 0xb298cefd
    ensures New(3, 0x7beb9700, 0xb298cefd, 0xf4e8e96e, 0x7b201df8, 0, 0xfc93a039, 21) == 0x8bf025c4
    ensures New(3, 0x7b201df8, 0x8bf025c4, 0xb298cefd, 0xf4e8e96e, 0, 0x655b59c3, 6) == 0x06cc5e8a
    ensures New(3, 0xf4e8e96e, 0x06cc5e8a, 0x8bf025c4, 0xb298cefd, 0, 0x8f0ccc92, 10) == 0x5b0d97aa
    ensures New(3, 0xb298cefd, 0x5b0d97aa, 0x06cc5e8a, 0x8bf025c4, 0, 0xffeff47d, 15) == 0x7d632dd0
    ensures New(3, 0x8bf025c4, 0x7d632dd0, 0x5b0d97aa, 0x06cc5e8a, 0, 0x85845dd1, 21) == 0x3bfa2c27
    ensures New(3, 0x06cc5e8a, 0x3bfa2c27, 0x7d632dd0, 0x5b0d97aa, 0, 0x6fa87e4f, 6) == 0x7f81cc35
    ensures New(3, 0x5b0d97aa, 0x7f81cc35, 0x3bfa2c27, 0x7d632dd0, 0, 0xfe2ce6e0, 10) == 0x094454ab
    ensures New(3, 0x7d632dd0, 0x094454ab, 0x7f81cc35, 0x3bfa2c27, 0, 0xa3014314, 15) == 0x4f9dbe3f
    ensures New(3, 0x3bfa2c27, 0x4f9dbe3f, 0x094454ab, 0x7f81cc35, 0, 0x4e0811a1, 21) == 0x7327d604
    ensures New(3, 0x7f81cc35, 0x7327d604, 0x4f9dbe3f, 0x094454ab, 0, 0xf7537e82, 6) == 0x310ade8f
    ensures New(3, 0x094454ab, 0x310ade8f, 0x7327d604, 0x4f9dbe3f, 0, 0xbd3af235, 10) == 0x624d8cb2
    ensures New(3, 0x4f9dbe3f, 0x624d8cb2, 0x310ade8f, 0x7327d604, 0, 0x2ad7d2bb, 15) == 0xe484b9d8
    ensures New(3, 0x7327d604, 0xe484b9d8, 0x624d8cb2, 0x310ade8f, 0, 0xeb86d391, 21) == 0xc08226b3
  {
  }

  /** The word, constant and shift of operation n. */
  predicate Uses(n: nat, k: nat, t: bv32, s: nat)
    requires n < 64
  {
    Word(n) == k && T(n) == t && Shift(n) == s
  }

  lemma Uses0()
    ensures Uses(0, 0, 0xd76aa478, 7) && Uses(1, 1, 0xe8c7b756, 12)
    ensures Uses(2, 2, 0x242070db, 17) && Uses(3, 3, 0xc1bdceee, 22)
    ensures Uses(4, 4, 0xf57c0faf, 7) && Uses(5, 5, 0x4787c62a, 12)
    ensures Uses(6, 6, 0xa8304613, 17) && Uses(7, 7, 0xfd469501, 22)
    ensures Uses(8, 8, 0x698098d8, 7) && Uses(9, 9, 0x8b44f7af, 12)
    ensures Uses(10, 10, 0xffff5bb1, 17) && Uses(11, 11, 0x895cd7be, 22)
    ensures Uses(12, 12, 0x6b901122, 7) && Uses(13, 13, 0xfd987193, 12)
    ensures Uses(14, 14, 0xa679438e, 17) && Uses(15, 15, 0x49b40821, 22)
  {
  }

  lemma Uses16()
    ensures Uses(16, 1, 0xf61e2562, 5) && Uses(17, 6, 0xc040b340, 9)
    ensures Uses(18, 11, 0x265e5a51, 14) && Uses(19, 0, 0xe9b6c7aa, 20)
    ensures Uses(20, 5, 0xd62f105d, 5) && Uses(21, 10, 0x02441453, 9)
    ensures Uses(22, 15, 0xd8a1e681, 14) && Uses(23, 4, 0xe7d3fbc8, 20)
    ensures Uses(24, 9, 0x21e1cde6, 5) && Uses(25, 14, 0xc33707d6, 9)
    ensures Uses(26, 3, 0xf4d50d87, 14) && Uses(27, 8, 0x455a14ed, 20)
    ensures Uses(28, 13, 0xa9e3e905, 5) && Uses(29, 2, 0xfcefa3f8, 9)
    ensures Uses(30, 7, 0x676f02d9, 14) && Uses(31, 12, 0x8d2a4c8a, 20)
  {
  }

  lemma Uses32()
    ensures Uses(32, 5, 0xfffa3942, 4) && Uses(33, 8, 0x8771f681, 11)
    ensures Uses(34, 11, 0x6d9d6122, 16) && Uses(35, 14, 0xfde5380c, 23)
    ensures Uses(36, 1, 0xa4beea44, 4) && Uses(37, 4, 0x4bdecfa9, 11)
    ensures Uses(38, 7, 0xf6bb4b60, 16) && Uses(39, 10, 0xbebfbc70, 23)
    ensures Uses(40, 13, 0x289b7ec6, 4) && Uses(41, 0, 0xeaa127fa, 11)
    ensures Uses(42, 3, 0xd4ef3085, 16) && Uses(43, 6, 0x04881d05, 23)
    ensures Uses(44, 9, 0xd9d4d039, 4) && Uses(45, 12, 0xe6db99e5, 11)
    ensures Uses(46, 15, 0x1fa27cf8, 16) && Uses(47, 2, 0xc4ac5665, 23)
  {
  }

  lemma Uses48()
    ensures Uses(48, 0, 0xf4292244, 6) && Uses(49, 7, 0x432aff97, 10)
    ensures Uses(50, 14, 0xab9423a7, 15) && Uses(51, 5, 0xfc93a039, 21)
    ensures Uses(52, 12, 0x655b59c3, 6) && Uses(53, 3, 0x8f0ccc92, 10)
    ensures Uses(54, 10, 0xffeff47d, 15) && Uses(55, 1, 0x85845dd1, 21)
    ensures Uses(56, 8, 0x6fa87e4f, 6) && Uses(57, 15, 0xfe2ce6e0, 10)
    ensures Uses(58, 6, 0xa3014314, 15) && Uses(59, 13, 0x4e0811a1, 21)
    ensures Uses(60, 4, 0xf7537e82, 6) && Uses(61, 11, 0xbd3af235, 10)
    ensures Uses(62, 2, 0x2ad7d2bb, 15) && Uses(63, 9, 0xeb86d391, 21)
  {
  }

  lemma NextOperation(x: seq<bv32>, n: nat)
    requires n < 64 && |x| == 16
    ensures var r := Operations(INITIAL, x, n); var b := New(n / 16, r.a, r.b, r.c, r.d, x[Word(n)], T(n), Shift(n));
      Operations(INITIAL, x, n + 1) == Regs(r.d, b, r.b, r.c)
  {
    hide Word, T, Shift, Auxiliary, Rotl, Plus, StandardSum;
  }

  /** The words of the only block. */
  predicate AbcWords(x: seq<bv32>) {
    && |x| == 16 && x[0] == 0x80636261 && x[14] == 24 && x[15] == 0
    && forall k :: 1 <= k < 14 ==> x[k] == 0
  }

  lemma After16(x: seq<bv32>)
    requires AbcWords(x) && Operations(INITIAL, x, 0) == Regs(0x67452301, 0xefcdab89, 0x98badcfe, 0x10325476)
    ensures Operations(INITIAL, x, 16) == Regs(0xdda9b9a6, 0x72aff2e0, 0xe396856b, 0xa1051895)
  {
    hide Operations, New, Word, T, Shift;
    News0();
    Uses0();
    NextOperation(x, 0); NextOperation(x, 1); NextOperation(x, 2); NextOperation(x, 3);
    NextOperation(x, 4); NextOperation(x, 5); NextOperation(x, 6); NextOperation(x, 7);
    NextOperation(x, 8); NextOperation(x, 9); NextOperation(x, 10); NextOperation(x, 11);
    NextOperation(x, 12); NextOperation(x, 13); NextOperation(x, 14); NextOperation(x, 15);
  }

  lemma After32(x: seq<bv32>)
    requires AbcWords(x) && Operations(INITIAL, x, 16) == Regs(0xdda9b9a6, 0x72aff2e0, 0xe396856b, 0xa1051895)
    ensures Operations(INITIAL, x, 32) == Regs(0x790a77fb, 0x726342d3, 0xa62884aa, 0x9f47e4f8)
  {
    hide Operations, New, Word, T, Shift;
    News16();
    Uses16();
    NextOperation(x, 16); NextOperation(x, 17); NextOperation(x, 18); NextOperation(x, 19);
    NextOperation(x, 20); NextOperation(x, 21); NextOperation(x, 22); NextOperation(x, 23);
    NextOperation(x, 24); NextOperation(x, 25); NextOperation(x, 26); NextOperation(x, 27);
    NextOperation(x, 28); NextOperation(x, 29); NextOperation(x, 30); NextOperation(x, 31);
  }

  lemma After48(x: seq<bv32>)
    requires AbcWords(x) && Operations(INITIAL, x, 32) == Regs(0x790a77fb, 0x726342d3, 0xa62884aa, 0x9f47e4f8)
    ensures Operations(INITIAL, x, 48) == Regs(0x7f2e507b, 0x7beb9700, 0x8fae6399, 0x99d9679d)
  {
    hide Operations, New, Word, T, Shift;
    News32();
    Uses32();
    NextOperation(x, 32); NextOperation(x, 33); NextOperation(x, 34); NextOperation(x, 35);
    NextOperation(x, 36); NextOperation(x, 37); NextOperation(x, 38); NextOperation(x, 39);
    NextOperation(x, 40); NextOperation(x, 41); NextOperation(x, 42); NextOperation(x, 43);
    NextOperation(x, 44); NextOperation(x, 45); NextOperation(x, 46); NextOperation(x, 47);
  }

  lemma After64(x: seq<bv32>)
    requires AbcWords(x) && Operations(INITIAL, x, 48) == Regs(0x7f2e507b, 0x7beb9700, 0x8fae6399, 0x99d9679d)
    ensures Operations(INITIAL, x, 64) == Regs(0x310ade8f, 0xc08226b3, 0xe484b9d8, 0x624d8cb2)
  {
    hide Operations, New, Word, T, Shift;
    News48();
    Uses48();
    NextOperation(x, 48); NextOperation(x, 49); NextOperation(x, 50); NextOperation(x, 51);
    NextOperation(x, 52); NextOperation(x, 53); NextOperation(x, 54); NextOperation(x, 55);
    NextOperation(x, 56); NextOperation(x, 57); NextOperation(x, 58); NextOperation(x, 59);
    NextOperation(x, 60); NextOperation(x, 61); NextOperation(x, 62); NextOperation(x, 63);
  }

  // ------------------------------------------------ the message

  /** The only block: the message, the mark, zeros and a length of 24 bits. */
  ghost predicate OnlyBlock(p: seq<bv8>) {
    && |p| == 64 && p[0] == 0x61 && p[1] == 0x62 && p[2] == 0x63 && p[3] == 0x80 && p[56] == 24
    && forall i :: 4 <= i < 64 && i != 56 ==> p[i] == 0
  }

  lemma LoadAbc(p: seq<bv8>, k: nat)
    requires OnlyBlock(p) && k < 16
    ensures Load(p, k) == if k == 0 then 0x80636261 else if k == 14 then 24 else 0
  {
  }

  lemma WordsOfAbc(p: seq<bv8>)
    requires OnlyBlock(p)
    ensures AbcWords(Words(p))
  {
    hide Load;
    forall k | 0 <= k < 16 ensures Words(p)[k] == if k == 0 then 0x80636261 else if k == 14 then 24 else 0 {
      LoadAbc(p, k);
    }
  }

  lemma Feedback()
    ensures Plus(0x310ade8f, 0x67452301) == 0x98500190
    ensures Plus(0xc08226b3, 0xefcdab89) == 0xb04fd23c
    ensures Plus(0xe484b9d8, 0x98badcfe) == 0x7d3f96d6
    ensures Plus(0x624d8cb2, 0x10325476) == 0x727fe128
  {
  }

  /** The chaining value after the only block. */
  lemma Compressed(p: seq<bv8>)
    requires OnlyBlock(p)
    ensures Compress(INITIAL, p) == Regs(0x98500190, 0xb04fd23c, 0x7d3f96d6, 0x727fe128)
  {
    hide Operations, Plus, Words;
    var x := Words(p);
    WordsOfAbc(p);
    NoOperations(INITIAL, x);
    After16(x);
    After32(x);
    After48(x);
    After64(x);
    Feedback();
  }

  /** The published bytes. */
  lemma Stored()
    ensures Store(Regs(0x98500190, 0xb04fd23c, 0x7d3f96d6, 0x727fe128))
         == [0x90, 0x01, 0x50, 0x98]
          + [0x3c, 0xd2, 0x4f, 0xb0]
          + [0xd6, 0x96, 0x3f, 0x7d]
          + [0x28, 0xe1, 0x7f, 0x72]
  {
    hide Bytes;
    StoredWords();
  }

  lemma StoredWords()
    ensures Bytes(0x98500190) == [0x90, 0x01, 0x50, 0x98]
    ensures Bytes(0xb04fd23c) == [0x3c, 0xd2, 0x4f, 0xb0]
    ensures Bytes(0x7d3f96d6) == [0xd6, 0x96, 0x3f, 0x7d]
    ensures Bytes(0x727fe128) == [0x28, 0xe1, 0x7f, 0x72]
  {
  }
}

/** The digest of "abc" published for SHA-256 as an example of FIPS 180-4. */
module Sha256Vector {
  import opened MessagePadding
  import opened Sha256Rounds

  // ------------------------------------------------ the message schedule

  function Sum(a: bv32, b: bv32, c: bv32, d: bv32): (r: bv32) {
    Plus(Plus(Plus(Gamma1(a), b), Gamma0(c)), d)
  }

  /** Word t is made of earlier ones. */
  predicate Grows(w: seq<bv32>, t: nat)
    requires 16 <= t < |w|
  {
    w[t] == Sum(w[t - 2], w[t - 7], w[t - 15], w[t - 16])
  }

  ghost predicate Scheduled(w: seq<bv32>) {
    |w| == 64 && forall t :: 16 <= t < 64 ==> Grows(w, t)
  }

  predicate Words0(w: seq<bv32>)
    requires |w| == 64
  {
    && w[0] == 0x61626380 && w[1] == 0x00000000 && w[2] == 0x00000000 && w[3] == 0x00000000
    && w[4] == 0x00000000 && w[5] == 0x00000000 && w[6] == 0x00000000 && w[7] == 0x00000000
    && w[8] == 0x00000000 && w[9] == 0x00000000 && w[10] == 0x00000000 && w[11] == 0x00000000
    && w[12] == 0x00000000 && w[13] == 0x00000000 && w[14] == 0x00000000 && w[15] == 0x00000018
  }

  predicate Words16(w: seq<bv32>)
    requires |w| == 64
  {
    && w[16] == 0x61626380 && w[17] == 0x000f0000 && w[18] == 0x7da86405 && w[19] == 0x600003c6
    && w[20] == 0x3e9d7b78 && w[21] == 0x0183fc00 && w[22] == 0x12dcbfdb && w[23] == 0xe2e2c38e
    && w[24] == 0xc8215c1a && w[25] == 0xb73679a2 && w[26] == 0xe5bc3909 && w[27] == 0x32663c5b
    && w[28] == 0x9d209d67 && w[29] == 0xec8726cb && w[30] == 0x702138a4 && w[31] == 0xd3b7973b
  }

  predicate Words32(w: seq<bv32>)
    requires |w| == 64
  {
    && w[32] == 0x93f5997f && w[33] == 0x3b68ba73 && w[34] == 0xaff4ffc1 && w[35] == 0xf10a5c62
    && w[36] == 0x0a8b3996 && w[37] == 0x72af830a && w[38] == 0x9409e33e && w[39] == 0x24641522
    && w[40] == 0x9f47bf94 && w[41] == 0xf0a64f5a && w[42] == 0x3e246a79 && w[43] == 0x27333ba3
    && w[44] == 0x0c4763f2 && w[45] == 0x840abf27 && w[46] == 0x7a290d5d && w[47] == 0x065c43da
  }

  predicate Words48(w: seq<bv32>)
    requires |w| == 64
  {
    && w[48] == 0xfb3e89cb && w[49] == 0xcc7617db && w[50] == 0xb9e66c34 && w[51] == 0xa9993667
    && w[52] == 0x84badedd && w[53] == 0xc21462bc && w[54] == 0x1487472c && w[55] == 0xb20f7a99
    && w[56] == 0xef57b9cd && w[57] == 0xebe6b238 && w[58] == 0x9fe3095e && w[59] == 0x78bc8d4b
    && w[60] == 0xa43fcf15 && w[61] == 0x668b2ff8 && w[62] == 0xeeaba2cc && w[63] == 0x12b1edeb
  }

  lemma Sums16()
    ensures Sum(0x00000000, 0x00000000, 0x00000000, 0x61626380) == 0x61626380
    ensures Sum(0x00000018, 0x00000000, 0x00000000, 0x00000000) == 0x000f0000
    ensures Sum(0x61626380, 0x00000000, 0x00000000, 0x00000000) == 0x7da86405
    ensures Sum(0x000f0000, 0x00000000, 0x00000000, 0x00000000) == 0x600003c6
    ensures Sum(0x7da86405, 0x00000000, 0x00000000, 0x00000000) == 0x3e9d7b78
    ensures Sum(0x600003c6, 0x00000000, 0x00000000, 0x00000000) == 0x0183fc00
    ensures Sum(0x3e9d7b78, 0x00000018, 0x00000000, 0x00000000) == 0x12dcbfdb
    ensures Sum(0x0183fc00, 0x61626380, 0x00000000, 0x00000000) == 0xe2e2c38e
  {
  }

  lemma Sums24()
    ensures Sum(0x12dcbfdb, 0x000f0000, 0x00000000, 0x00000000) == 0xc8215c1a
    ensures Sum(0xe2e2c38e, 0x7da86405, 0x00000000, 0x00000000) == 0xb73679a2
    ensures Sum(0xc8215c1a, 0x600003c6, 0x00000000, 0x00000000) == 0xe5bc3909
    ensures Sum(0xb73679a2, 0x3e9d7b78, 0x00000000, 0x00000000) == 0x32663c5b
    ensures Sum(0xe5bc3909, 0x0183fc00, 0x00000000, 0x00000000) == 0x9d209d67
    ensures Sum(0x32663c5b, 0x12dcbfdb, 0x00000000, 0x00000000) == 0xec8726cb
    ensures Sum(0x9d209d67, 0xe2e2c38e, 0x00000018, 0x00000000) == 0x702138a4
    ensures Sum(0xec8726cb, 0xc8215c1a, 0x61626380, 0x00000018) == 0xd3b7973b
  {
  }

  lemma Expansion16(w: seq<bv32>)
    requires Scheduled(w) && Words0(w)
    ensures Words16(w)
  {
    hide Sum;
    Sums16();
    Sums24();
    assert Grows(w, 16) && Grows(w, 17) && Grows(w, 18) && Grows(w, 19);
    assert Grows(w, 20) && Grows(w, 21) && Grows(w, 22) && Grows(w, 23);
    assert Grows(w, 24) && Grows(w, 25) && Grows(w, 26) && Grows(w, 27);
    assert Grows(w, 28) && Grows(w, 29) && Grows(w, 30) && Grows(w, 31);
  }

  lemma Sums32()
    ensures Sum(0x702138a4, 0xb73679a2, 0x000f0000, 0x61626380) == 0x93f5997f
    ensures Sum(0xd3b7973b, 0xe5bc3909, 0x7da86405, 0x000f0000) == 0x3b68ba73
    ensures Sum(0x93f5997f, 0x32663c5b, 0x600003c6, 0x7da86405) == 0xaff4ffc1
    ensures Sum(0x3b68ba73, 0x9d209d67, 0x3e9d7b78, 0x600003c6) == 0xf10a5c62
    ensures Sum(0xaff4ffc1, 0xec8726cb, 0x0183fc00, 0x3e9d7b78) == 0x0a8b3996
    ensures Sum(0xf10a5c62, 0x702138a4, 0x12dcbfdb, 0x0183fc00) == 0x72af830a
    ensures Sum(0x0a8b3996, 0xd3b7973b, 0xe2e2c38e, 0x12dcbfdb) == 0x9409e33e
    ensures Sum(0x72af830a, 0x93f5997f, 0xc8215c1a, 0xe2e2c38e) == 0x24641522
  {
  }

  lemma Sums40()
    ensures Sum(0x9409e33e, 0x3b68ba73, 0xb73679a2, 0xc8215c1a) == 0x9f47bf94
    ensures Sum(0x24641522, 0xaff4ffc1, 0xe5bc3909, 0xb73679a2) == 0xf0a64f5a
    ensures Sum(0x9f47bf94, 0xf10a5c62, 0x32663c5b, 0xe5bc3909) == 0x3e246a79
    ensures Sum(0xf0a64f5a, 0x0a8b3996, 0x9d209d67, 0x32663c5b) == 0x27333ba3
    ensures Sum(0x3e246a79, 0x72af830a, 0xec8726cb, 0x9d209d67) == 0x0c4763f2
    ensures Sum(0x27333ba3, 0x9409e33e, 0x702138a4, 0xec8726cb) == 0x840abf27
    ensures Sum(0x0c4763f2, 0x24641522, 0xd3b7973b, 0x702138a4) == 0x7a290d5d
    ensures Sum(0x840abf27, 0x9f47bf94, 0x93f5997f, 0xd3b7973b) == 0x065c43da
  {
  }

  lemma Expansion32(w: seq<bv32>)
    requires Scheduled(w) && Words16(w)
    ensures Words32(w)
  {
    hide Sum;
    Sums32();
    Sums40();
    assert Grows(w, 32) && Grows(w, 33) && Grows(w, 34) && Grows(w, 35);
    assert Grows(w, 36) && Grows(w, 37) && Grows(w, 38) && Grows(w, 39);
    assert Grows(w, 40) && Grows(w, 41) && Grows(w, 42) && Grows(w, 43);
    assert Grows(w, 44) && Grows(w, 45) && Grows(w, 46) && Grows(w, 47);
  }

  lemma Sums48()
    ensures Sum(0x7a290d5d, 0xf0a64f5a, 0x3b68ba73, 0x93f5997f) == 0xfb3e89cb
    ensures Sum(0x065c43da, 0x3e246a79, 0xaff4ffc1, 0x3b68ba73) == 0xcc7617db
    ensures Sum(0xfb3e89cb, 0x27333ba3, 0xf10a5c62, 0xaff4ffc1) == 0xb9e66c34
    ensures Sum(0xcc7617db, 0x0c4763f2, 0x0a8b3996, 0xf10a5c62) == 0xa9993667
    ensures Sum(0xb9e66c34, 0x840abf27, 0x72af830a, 0x0a8b3996) == 0x84badedd
    ensures Sum(0xa9993667, 0x7a290d5d, 0x9409e33e, 0x72af830a) == 0xc21462bc
    ensures Sum(0x84badedd, 0x065c43da, 0x24641522, 0x9409e33e) == 0x1487472c
    ensures Sum(0xc21462bc, 0xfb3e89cb, 0x9f47bf94, 0x24641522) == 0xb20f7a99
  {
  }

  lemma Sums56()
    ensures Sum(0x1487472c, 0xcc7617db, 0xf0a64f5a, 0x9f47bf94) == 0xef57b9cd
    ensures Sum(0xb20f7a99, 0xb9e66c34, 0x3e246a79, 0xf0a64f5a) == 0xebe6b238
    ensures Sum(0xef57b9cd, 0xa9993667, 0x27333ba3, 0x3e246a79) == 0x9fe3095e
    ensures Sum(0xebe6b238, 0x84badedd, 0x0c4763f2, 0x27333ba3) == 0x78bc8d4b
    ensures Sum(0x9fe3095e, 0xc21462bc, 0x840abf27, 0x0c4763f2) == 0xa43fcf15
    ensures Sum(0x78bc8d4b, 0x1487472c, 0x7a290d5d, 0x840abf27) == 0x668b2ff8
    ensures Sum(0xa43fcf15, 0xb20f7a99, 0x065c43da, 0x7a290d5d) == 0xeeaba2cc
    ensures Sum(0x668b2ff8, 0xef57b9cd, 0xfb3e89cb, 0x065c43da) == 0x12b1edeb
  {
  }

  lemma Expansion48(w: seq<bv32>)
    requires Scheduled(w) && Words32(w)
    ensures Words48(w)
  {
    hide Sum;
    Sums48();
    Sums56();
    assert Grows(w, 48) && Grows(w, 49) && Grows(w, 50) && Grows(w, 51);
    assert Grows(w, 52) && Grows(w, 53) && Grows(w, 54) && Grows(w, 55);
    assert Grows(w, 56) && Grows(w, 57) && Grows(w, 58) && Grows(w, 59);
    assert Grows(w, 60) && Grows(w, 61) && Grows(w, 62) && Grows(w, 63);
  }

  // ------------------------------------------------ the rounds

  predicate TwoRounds(r: Regs, k: bv32, w: bv32, k': bv32, w': bv32, q: Regs) {
    Round(Round(r, k, w), k', w') == q
  }

  lemma Rounds0()
    ensures TwoRounds(Regs(0x6a09e667, 0xbb67ae85, 0x3c6ef372, 0xa54ff53a, 0x510e527f, 0x9b05688c, 0x1f83d9ab,
                      0x5be0cd19), 0x428a2f98, 0x61626380, 0x71374491, 0x00000000, Regs(0x5a6ad9ad, 0x5d6aebcd,
                      0x6a09e667, 0xbb67ae85, 0x78ce7989, 0xfa2a4622, 0x510e527f, 0x9b05688c))
    ensures TwoRounds(Regs(0x5a6ad9ad, 0x5d6aebcd, 0x6a09e667, 0xbb67ae85, 0x78ce7989, 0xfa2a4622, 0x510e527f,
                      0x9b05688c), 0xb5c0fbcf, 0x00000000, 0xe9b5dba5, 0x00000000, Regs(0xd550f666, 0xc8c347a7,
                      0x5a6ad9ad, 0x5d6aebcd, 0x24e00850, 0xf92939eb, 0x78ce7989, 0xfa2a4622))
    ensures TwoRounds(Regs(0xd550f666, 0xc8c347a7, 0x5a6ad9ad, 0x5d6aebcd, 0x24e00850, 0xf92939eb, 0x78ce7989,
                      0xfa2a4622), 0x3956c25b, 0x00000000, 0x59f111f1, 0x00000000, Regs(0x2b4209f5, 0x04409a6a,
                      0xd550f666, 0xc8c347a7, 0x714260ad, 0x43ada245, 0x24e00850, 0xf92939eb))
    ensures TwoRounds(Regs(0x2b4209f5, 0x04409a6a, 0xd550f666, 0xc8c347a7, 0x714260ad, 0x43ada245, 0x24e00850,
                      0xf92939eb), 0x923f82a4, 0x00000000, 0xab1c5ed5, 0x00000000, Regs(0x85a07b5f, 0xe5030380,
                      0x2b4209f5, 0x04409a6a, 0x0c657a79, 0x9b27a401, 0x714260ad, 0x43ada245))
  {
  }

  lemma Rounds8()
    ensures TwoRounds(Regs(0x85a07b5f, 0xe5030380, 0x2b4209f5, 0x04409a6a, 0x0c657a79, 0x9b27a401, 0x714260ad,
                      0x43ada245), 0xd807aa98, 0x00000000, 0x12835b01, 0x00000000, Regs(0x8c87346b, 0x8e04ecb9,
                      0x85a07b5f, 0xe5030380, 0x1cc92596, 0x32ca2d8c, 0x0c657a79, 0x9b27a401))
    ensures TwoRounds(Regs(0x8c87346b, 0x8e04ecb9, 0x85a07b5f, 0xe5030380, 0x1cc92596, 0x32ca2d8c, 0x0c657a79,
                      0x9b27a401), 0x243185be, 0x00000000, 0x550c7dc3, 0x00000000, Regs(0xf71fc5a9, 0x4798a3f4,
                      0x8c87346b, 0x8e04ecb9, 0x816fd6e9, 0x436b23e8, 0x1cc92596, 0x32ca2d8c))
    ensures TwoRounds(Regs(0xf71fc5a9, 0x4798a3f4, 0x8c87346b, 0x8e04ecb9, 0x816fd6e9, 0x436b23e8, 0x1cc92596,
                      0x32ca2d8c), 0x72be5d74, 0x00000000, 0x80deb1fe, 0x00000000, Regs(0xd932eb16, 0x87912990,
                      0xf71fc5a9, 0x4798a3f4, 0x745a48de, 0x1e578218, 0x816fd6e9, 0x436b23e8))
    ensures TwoRounds(Regs(0xd932eb16, 0x87912990, 0xf71fc5a9, 0x4798a3f4, 0x745a48de, 0x1e578218, 0x816fd6e9,
                      0x436b23e8), 0x9bdc06a7, 0x00000000, 0xc19bf174, 0x00000018, Regs(0xb0fa238e, 0xc0645fde,
                      0xd932eb16, 0x87912990, 0x07590dcd, 0x0b92f20c, 0x745a48de, 0x1e578218))
  {
  }

  lemma Rounds16()
    ensures TwoRounds(Regs(0xb0fa238e, 0xc0645fde, 0xd932eb16, 0x87912990, 0x07590dcd, 0x0b92f20c, 0x745a48de,
                      0x1e578218), 0xe49b69c1, 0x61626380, 0xefbe4786, 0x000f0000, Regs(0xc2fbd9d1, 0x21da9a9b,
                      0xb0fa238e, 0xc0645fde, 0x846ee454, 0x8034229c, 0x07590dcd, 0x0b92f20c))
    ensures TwoRounds(Regs(0xc2fbd9d1, 0x21da9a9b, 0xb0fa238e, 0xc0645fde, 0x846ee454, 0x8034229c, 0x07590dcd,
                      0x0b92f20c), 0x0fc19dc6, 0x7da86405, 0x240ca1cc, 0x600003c6, Regs(0xe1f20c33, 0xfe777bbf,
                      0xc2fbd9d1, 0x21da9a9b, 0xb0638179, 0xcc899961, 0x846ee454, 0x8034229c))
    ensures TwoRounds(Regs(0xe1f20c33, 0xfe777bbf, 0xc2fbd9d1, 0x21da9a9b, 0xb0638179, 0xcc899961, 0x846ee454,
                      0x8034229c), 0x2de92c6f, 0x3e9d7b78, 0x4a7484aa, 0x0183fc00, Regs(0xc2606d6d, 0x9dc68b63,
                      0xe1f20c33, 0xfe777bbf, 0xe1257970, 0x8ada8930, 0xb0638179, 0xcc899961))
    ensures TwoRounds(Regs(0xc2606d6d, 0x9dc68b63, 0xe1f20c33, 0xfe777bbf, 0xe1257970, 0x8ada8930, 0xb0638179,
                      0xcc899961), 0x5cb0a9dc, 0x12dcbfdb, 0x76f988da, 0xe2e2c38e, Regs(0xc5d53d8d, 0xa7a3623f,
                      0xc2606d6d, 0x9dc68b63, 0xaa47c347, 0x49f5114a, 0xe1257970, 0x8ada8930))
  {
  }

  lemma Rounds24()
    ensures TwoRounds(Regs(0xc5d53d8d, 0xa7a3623f, 0xc2606d6d, 0x9dc68b63, 0xaa47c347, 0x49f5114a, 0xe1257970,
                      0x8ada8930), 0x983e5152, 0xc8215c1a, 0xa831c66d, 0xb73679a2, Regs(0xcde8037d, 0x1c2c2838,
                      0xc5d53d8d, 0xa7a3623f, 0x14383d8e, 0x2823ef91, 0xaa47c347, 0x49f5114a))
    ensures TwoRounds(Regs(0xcde8037d, 0x1c2c2838, 0xc5d53d8d, 0xa7a3623f, 0x14383d8e, 0x2823ef91, 0xaa47c347,
                      0x49f5114a), 0xb00327c8, 0xe5bc3909, 0xbf597fc7, 0x32663c5b, Regs(0x77d37528, 0xb62ec4bc,
                      0xcde8037d, 0x1c2c2838, 0xedffbff8, 0xc74c6516, 0x14383d8e, 0x2823ef91))
    ensures TwoRounds(Regs(0x77d37528, 0xb62ec4bc, 0xcde8037d, 0x1c2c2838, 0xedffbff8, 0xc74c6516, 0x14383d8e,
                      0x2823ef91), 0xc6e00bf3, 0x9d209d67, 0xd5a79147, 0xec8726cb, Regs(0xa0060b30, 0x363482c9,
                      0x77d37528, 0xb62ec4bc, 0xade79437, 0x6112a3b7, 0xedffbff8, 0xc74c6516))
    ensures TwoRounds(Regs(0xa0060b30, 0x363482c9, 0x77d37528, 0xb62ec4bc, 0xade79437, 0x6112a3b7, 0xedffbff8,
                      0xc74c6516), 0x06ca6351, 0x702138a4, 0x14292967, 0xd3b7973b, Regs(0x73b33bf5, 0xea992a22,
                      0xa0060b30, 0x363482c9, 0xba591112, 0x0109ab3a, 0xade79437, 0x6112a3b7))
  {
  }

  lemma Rounds32()
    ensures TwoRounds(Regs(0x73b33bf5, 0xea992a22, 0xa0060b30, 0x363482c9, 0xba591112, 0x0109ab3a, 0xade79437,
                      0x6112a3b7), 0x27b70a85, 0x93f5997f, 0x2e1b2138, 0x3b68ba73, Regs(0xfe604df5, 0x98e12507,
                      0x73b33bf5, 0xea992a22, 0x59249dd3, 0x9cd9f5f6, 0xba591112, 0x0109ab3a))
    ensures TwoRounds(Regs(0xfe604df5, 0x98e12507, 0x73b33bf5, 0xea992a22, 0x59249dd3, 0x9cd9f5f6, 0xba591112,
                      0x0109ab3a), 0x4d2c6dfc, 0xaff4ffc1, 0x53380d13, 0xf10a5c62, Regs(0x65a0cfe4, 0xa9a7738c,
                      0xfe604df5, 0x98e12507, 0xf4b002d6, 0x085f3833, 0x59249dd3, 0x9cd9f5f6))
    ensures TwoRounds(Regs(0x65a0cfe4, 0xa9a7738c, 0xfe604df5, 0x98e12507, 0xf4b002d6, 0x085f3833, 0x59249dd3,
                      0x9cd9f5f6), 0x650a7354, 0x0a8b3996, 0x766a0abb, 0x72af830a, Regs(0x34df1604, 0x41a65cb1,
                      0x65a0cfe4, 0xa9a7738c, 0xa507a53d, 0x0772a26b, 0xf4b002d6, 0x085f3833))
    ensures TwoRounds(Regs(0x34df1604, 0x41a65cb1, 0x65a0cfe4, 0xa9a7738c, 0xa507a53d, 0x0772a26b, 0xf4b002d6,
                      0x085f3833), 0x81c2c92e, 0x9409e33e, 0x92722c85, 0x24641522, Regs(0x79ea687a, 0x6dc57a8a,
                      0x34df1604, 0x41a65cb1, 0x1efbc0a0, 0xf0781bc8, 0xa507a53d, 0x0772a26b))
  {
  }

  lemma Rounds40()
    ensures TwoRounds(Regs(0x79ea687a, 0x6dc57a8a, 0x34df1604, 0x41a65cb1, 0x1efbc0a0, 0xf0781bc8, 0xa507a53d,
                      0x0772a26b), 0xa2bfe8a1, 0x9f47bf94, 0xa81a664b, 0xf0a64f5a, Regs(0xdf46652f, 0xd6670766,
                      0x79ea687a, 0x6dc57a8a, 0x838b2711, 0x26352d63, 0x1efbc0a0, 0xf0781bc8))
    ensures TwoRounds(Regs(0xdf46652f, 0xd6670766, 0x79ea687a, 0x6dc57a8a, 0x838b2711, 0x26352d63, 0x1efbc0a0,
                      0xf0781bc8), 0xc24b8b70, 0x3e246a79, 0xc76c51a3, 0x27333ba3, Regs(0x9d4baf93, 0x17aa0dfe,
                      0xdf46652f, 0xd6670766, 0xfda24c2e, 0xdecd4715, 0x838b2711, 0x26352d63))
    ensures TwoRounds(Regs(0x9d4baf93, 0x17aa0dfe, 0xdf46652f, 0xd6670766, 0xfda24c2e, 0xdecd4715, 0x838b2711,
                      0x26352d63), 0xd192e819, 0x0c4763f2, 0xd6990624, 0x840abf27, Regs(0x72ab4b91, 0x26628815,
                      0x9d4baf93, 0x17aa0dfe, 0xb7755da1, 0xa80f11f0, 0xfda24c2e, 0xdecd4715))
    ensures TwoRounds(Regs(0x72ab4b91, 0x26628815, 0x9d4baf93, 0x17aa0dfe, 0xb7755da1, 0xa80f11f0, 0xfda24c2e,
                      0xdecd4715), 0xf40e3585, 0x7a290d5d, 0x106aa070, 0x065c43da, Regs(0x4172328d, 0xa14c14b0,
                      0x72ab4b91, 0x26628815, 0xfecf0bc6, 0xd57b94a9, 0xb7755da1, 0xa80f11f0))
  {
  }

  lemma Rounds48()
    ensures TwoRounds(Regs(0x4172328d, 0xa14c14b0, 0x72ab4b91, 0x26628815, 0xfecf0bc6, 0xd57b94a9, 0xb7755da1,
                      0xa80f11f0), 0x19a4c116, 0xfb3e89cb, 0x1e376c08, 0xcc7617db, Regs(0xf11bfaa8, 0x05757ceb,
                      0x4172328d, 0xa14c14b0, 0x6e5c390c, 0xbd714038, 0xfecf0bc6, 0xd57b94a9))
    ensures TwoRounds(Regs(0xf11bfaa8, 0x05757ceb, 0x4172328d, 0xa14c14b0, 0x6e5c390c, 0xbd714038, 0xfecf0bc6,
                      0xd57b94a9), 0x2748774c, 0xb9e66c34, 0x34b0bcb5, 0xa9993667, Regs(0x886e7a22, 0x7a0508a1,
                      0xf11bfaa8, 0x05757ceb, 0x49231c1e, 0x52f1ccf7, 0x6e5c390c, 0xbd714038))
    ensures TwoRounds(Regs(0x886e7a22, 0x7a0508a1, 0xf11bfaa8, 0x05757ceb, 0x49231c1e, 0x52f1ccf7, 0x6e5c390c,
                      0xbd714038), 0x391c0cb3, 0x84badedd, 0x4ed8aa4a, 0xc21462bc, Regs(0xf5702fdb, 0x101fd28f,
                      0x886e7a22, 0x7a0508a1, 0x9f4787c3, 0x529e7d00, 0x49231c1e, 0x52f1ccf7))
    ensures TwoRounds(Regs(0xf5702fdb, 0x101fd28f, 0x886e7a22, 0x7a0508a1, 0x9f4787c3, 0x529e7d00, 0x49231c1e,
                      0x52f1ccf7), 0x5b9cca4f, 0x1487472c, 0x682e6ff3, 0xb20f7a99, Regs(0x38cc9913, 0x3ec45cdb,
                      0xf5702fdb, 0x101fd28f, 0x54cb266b, 0xe50e1b4f, 0x9f4787c3, 0x529e7d00))
  {
  }

  lemma Rounds56()
    ensures TwoRounds(Regs(0x38cc9913, 0x3ec45cdb, 0xf5702fdb, 0x101fd28f, 0x54cb266b, 0xe50e1b4f, 0x9f4787c3,
                      0x529e7d00), 0x748f82ee, 0xef57b9cd, 0x78a5636f, 0xebe6b238, Regs(0xc062d46f, 0xfcd1887b,
                      0x38cc9913, 0x3ec45cdb, 0x7e44008e, 0x9b5e906c, 0x54cb266b, 0xe50e1b4f))
    ensures TwoRounds(Regs(0xc062d46f, 0xfcd1887b, 0x38cc9913, 0x3ec45cdb, 0x7e44008e, 0x9b5e906c, 0x54cb266b,
                      0xe50e1b4f), 0x84c87814, 0x9fe3095e, 0x8cc70208, 0x78bc8d4b, Regs(0xb6ae8fff, 0xffb70472,
                      0xc062d46f, 0xfcd1887b, 0xb21bad3d, 0x6d83bfc6, 0x7e44008e, 0x9b5e906c))
    ensures TwoRounds(Regs(0xb6ae8fff, 0xffb70472, 0xc062d46f, 0xfcd1887b, 0xb21bad3d, 0x6d83bfc6, 0x7e44008e,
                      0x9b5e906c), 0x90befffa, 0xa43fcf15, 0xa4506ceb, 0x668b2ff8, Regs(0x04d24d6c, 0xb85e2ce9,
                      0xb6ae8fff, 0xffb70472, 0x948d25b6, 0x961f4894, 0xb21bad3d, 0x6d83bfc6))
    ensures TwoRounds(Regs(0x04d24d6c, 0xb85e2ce9, 0xb6ae8fff, 0xffb70472, 0x948d25b6, 0x961f4894, 0xb21bad3d,
                      0x6d83bfc6), 0xbef9a3f7, 0xeeaba2cc, 0xc67178f2, 0x12b1edeb, Regs(0x506e3058, 0xd39a2165,
                      0x04d24d6c, 0xb85e2ce9, 0x5ef50f24, 0xfb121210, 0x948d25b6, 0x961f4894))
  {
  }

  lemma Keys0()
    ensures Constant(0) == 0x428a2f98 && Constant(1) == 0x71374491
    ensures Constant(2) == 0xb5c0fbcf && Constant(3) == 0xe9b5dba5
    ensures Constant(4) == 0x3956c25b && Constant(5) == 0x59f111f1
    ensures Constant(6) == 0x923f82a4 && Constant(7) == 0xab1c5ed5
    ensures Constant(8) == 0xd807aa98 && Constant(9) == 0x12835b01
    ensures Constant(10) == 0x243185be && Constant(11) == 0x550c7dc3
    ensures Constant(12) == 0x72be5d74 && Constant(13) == 0x80deb1fe
    ensures Constant(14) == 0x9bdc06a7 && Constant(15) == 0xc19bf174
  {
  }

  lemma Keys16()
    ensures Constant(16) == 0xe49b69c1 && Constant(17) == 0xefbe4786
    ensures Constant(18) == 0x0fc19dc6 && Constant(19) == 0x240ca1cc
    ensures Constant(20) == 0x2de92c6f && Constant(21) == 0x4a7484aa
    ensures Constant(22) == 0x5cb0a9dc && Constant(23) == 0x76f988da
    ensures Constant(24) == 0x983e5152 && Constant(25) == 0xa831c66d
    ensures Constant(26) == 0xb00327c8 && Constant(27) == 0xbf597fc7
    ensures Constant(28) == 0xc6e00bf3 && Constant(29) == 0xd5a79147
    ensures Constant(30) == 0x06ca6351 && Constant(31) == 0x14292967
  {
  }

  lemma Keys32()
    ensures Constant(32) == 0x27b70a85 && Constant(33) == 0x2e1b2138
    ensures Constant(34) == 0x4d2c6dfc && Constant(35) == 0x53380d13
    ensures Constant(36) == 0x650a7354 && Constant(37) == 0x766a0abb
    ensures Constant(38) == 0x81c2c92e && Constant(39) == 0x92722c85
    ensures Constant(40) == 0xa2bfe8a1 && Constant(41) == 0xa81a664b
    ensures Constant(42) == 0xc24b8b70 && Constant(43) == 0xc76c51a3
    ensures Constant(44) == 0xd192e819 && Constant(45) == 0xd6990624
    ensures Constant(46) == 0xf40e3585 && Constant(47) == 0x106aa070
  {
  }

  lemma Keys48()
    ensures Constant(48) == 0x19a4c116 && Constant(49) == 0x1e376c08
    ensures Constant(50) == 0x2748774c && Constant(51) == 0x34b0bcb5
    ensures Constant(52) == 0x391c0cb3 && Constant(53) == 0x4ed8aa4a
    ensures Constant(54) == 0x5b9cca4f && Constant(55) == 0x682e6ff3
    ensures Constant(56) == 0x748f82ee && Constant(57) == 0x78a5636f
    ensures Constant(58) == 0x84c87814 && Constant(59) == 0x8cc70208
    ensures Constant(60) == 0x90befffa && Constant(61) == 0xa4506ceb
    ensures Constant(62) == 0xbef9a3f7 && Constant(63) == 0xc67178f2
  {
  }

  lemma After16(w: seq<bv32>)
    requires |w| == 64 && Words0(w)
    requires Rounds(INITIAL, K, w, 0) == Regs(0x6a09e667, 0xbb67ae85, 0x3c6ef372, 0xa54ff53a, 0x510e527f, 0x9b05688c,
                 0x1f83d9ab, 0x5be0cd19)
    ensures Rounds(INITIAL, K, w, 16) == Regs(0xb0fa238e, 0xc0645fde, 0xd932eb16, 0x87912990, 0x07590dcd, 0x0b92f20c,
                 0x745a48de, 0x1e578218)
  {
    hide Round, Rounds, Constant;
    Keys0();
    Rounds0();
    Rounds8();
    NextRound(w, 0); NextRound(w, 1); NextRound(w, 2); NextRound(w, 3);
    NextRound(w, 4); NextRound(w, 5); NextRound(w, 6); NextRound(w, 7);
    NextRound(w, 8); NextRound(w, 9); NextRound(w, 10); NextRound(w, 11);
    NextRound(w, 12); NextRound(w, 13); NextRound(w, 14); NextRound(w, 15);
  }

  lemma After32(w: seq<bv32>)
    requires |w| == 64 && Words16(w)
    requires Rounds(INITIAL, K, w, 16) == Regs(0xb0fa238e, 0xc0645fde, 0xd932eb16, 0x87912990, 0x07590dcd, 0x0b92f20c,
                 0x745a48de, 0x1e578218)
    ensures Rounds(INITIAL, K, w, 32) == Regs(0x73b33bf5, 0xea992a22, 0xa0060b30, 0x363482c9, 0xba591112, 0x0109ab3a,
                 0xade79437, 0x6112a3b7)
  {
    hide Round, Rounds, Constant;
    Keys16();
    Rounds16();
    Rounds24();
    NextRound(w, 16); NextRound(w, 17); NextRound(w, 18); NextRound(w, 19);
    NextRound(w, 20); NextRound(w, 21); NextRound(w, 22); NextRound(w, 23);
    NextRound(w, 24); NextRound(w, 25); NextRound(w, 26); NextRound(w, 27);
    NextRound(w, 28); NextRound(w, 29); NextRound(w, 30); NextRound(w, 31);
  }

  lemma After48(w: seq<bv32>)
    requires |w| == 64 && Words32(w)
    requires Rounds(INITIAL, K, w, 32) == Regs(0x73b33bf5, 0xea992a22, 0xa0060b30, 0x363482c9, 0xba591112, 0x0109ab3a,
                 0xade79437, 0x6112a3b7)
    ensures Rounds(INITIAL, K, w, 48) == Regs(0x4172328d, 0xa14c14b0, 0x72ab4b91, 0x26628815, 0xfecf0bc6, 0xd57b94a9,
                 0xb7755da1, 0xa80f11f0)
  {
    hide Round, Rounds, Constant;
    Keys32();
    Rounds32();
    Rounds40();
    NextRound(w, 32); NextRound(w, 33); NextRound(w, 34); NextRound(w, 35);
    NextRound(w, 36); NextRound(w, 37); NextRound(w, 38); NextRound(w, 39);
    NextRound(w, 40); NextRound(w, 41); NextRound(w, 42); NextRound(w, 43);
    NextRound(w, 44); NextRound(w, 45); NextRound(w, 46); NextRound(w, 47);
  }

  lemma After64(w: seq<bv32>)
    requires |w| == 64 && Words48(w)
    requires Rounds(INITIAL, K, w, 48) == Regs(0x4172328d, 0xa14c14b0, 0x72ab4b91, 0x26628815, 0xfecf0bc6, 0xd57b94a9,
                 0xb7755da1, 0xa80f11f0)
    ensures Rounds(INITIAL, K, w, 64) == Regs(0x506e3058, 0xd39a2165, 0x04d24d6c, 0xb85e2ce9, 0x5ef50f24, 0xfb121210,
                 0x948d25b6, 0x961f4894)
  {
    hide Round, Rounds, Constant;
    Keys48();
    Rounds48();
    Rounds56();
    NextRound(w, 48); NextRound(w, 49); NextRound(w, 50); NextRound(w, 51);
    NextRound(w, 52); NextRound(w, 53); NextRound(w, 54); NextRound(w, 55);
    NextRound(w, 56); NextRound(w, 57); NextRound(w, 58); NextRound(w, 59);
    NextRound(w, 60); NextRound(w, 61); NextRound(w, 62); NextRound(w, 63);
  }

  lemma NextRound(w: seq<bv32>, t: nat)
    requires t < 64 == |w|
    ensures Rounds(INITIAL, K, w, t + 1) == Round(Rounds(INITIAL, K, w, t), Constant(t), w[t])
  {
    hide Round, Constant;
  }

  // ------------------------------------------------ the message

  /** The only block: the message, the mark, zeros and a length of 24 bits. */
  ghost predicate OnlyBlock(p: seq<bv8>) {
    && |p| == 64 && p[0] == 0x61 && p[1] == 0x62 && p[2] == 0x63 && p[3] == 0x80 && p[63] == 24
    && forall i :: 4 <= i < 63 ==> p[i] == 0
  }

  /** The schedule only grows at its end. */
  lemma {:induction false} SchedulePrefix(block: seq<bv8>, t: nat, n: nat)
    requires |block| == 64 && t <= n
    ensures Schedule(block, n)[..t] == Schedule(block, t)
    decreases n
  {
    hide Plus, Gamma0, Gamma1, Load;
    if t < n {
      SchedulePrefix(block, t, n - 1);
    }
  }

  lemma WordAt(p: seq<bv8>, t: nat)
    requires OnlyBlock(p) && t < 64
    ensures t < 16 ==> Schedule(p, 64)[t] == Load(p, t)
    ensures t >= 16 ==> Grows(Schedule(p, 64), t)
  {
    hide Plus, Gamma0, Gamma1, Load;
    SchedulePrefix(p, t, 64);
    SchedulePrefix(p, t + 1, 64);
    ScheduleStep(p, t);
    assert Schedule(p, 64)[..t + 1][t] == Schedule(p, 64)[t];
    forall u | 0 <= u < t ensures Schedule(p, 64)[u] == Schedule(p, t)[u] {
      assert Schedule(p, 64)[..t][u] == Schedule(p, 64)[u];
    }
  }

  lemma LoadAbc(p: seq<bv8>, t: nat)
    requires OnlyBlock(p) && t < 16
    ensures Load(p, t) == if t == 0 then 0x61626380 else if t == 15 then 24 else 0
  {
  }

  lemma FirstWords(p: seq<bv8>)
    requires OnlyBlock(p)
    ensures Scheduled(Schedule(p, 64)) && Words0(Schedule(p, 64))
  {
    hide Schedule, Load, Grows;
    forall t | 0 <= t < 64
      ensures t >= 16 ==> Grows(Schedule(p, 64), t)
      ensures t < 16 ==> Schedule(p, 64)[t] == if t == 0 then 0x61626380 else if t == 15 then 24 else 0
    {
      WordAt(p, t);
      if t < 16 {
        LoadAbc(p, t);
      }
    }
  }

  lemma Feedback()
    ensures Plus(0x6a09e667, 0x506e3058) == 0xba7816bf
    ensures Plus(0xbb67ae85, 0xd39a2165) == 0x8f01cfea
    ensures Plus(0x3c6ef372, 0x04d24d6c) == 0x414140de
    ensures Plus(0xa54ff53a, 0xb85e2ce9) == 0x5dae2223
    ensures Plus(0x510e527f, 0x5ef50f24) == 0xb00361a3
    ensures Plus(0x9b05688c, 0xfb121210) == 0x96177a9c
    ensures Plus(0x1f83d9ab, 0x948d25b6) == 0xb410ff61
    ensures Plus(0x5be0cd19, 0x961f4894) == 0xf20015ad
  {
  }

  /** The chaining value after the only block. */
  lemma Compressed(p: seq<bv8>)
    requires OnlyBlock(p)
    ensures Compress(K, INITIAL, p) == Regs(0xba7816bf, 0x8f01cfea, 0x414140de, 0x5dae2223, 0xb00361a3, 0x96177a9c,
                 0xb410ff61, 0xf20015ad)
  {
    hide Schedule, Rounds, Plus;
    var w := Schedule(p, 64);
    FirstWords(p);
    Expansion16(w);
    Expansion32(w);
    Expansion48(w);
    NoRounds(w);
    After16(w);
    After32(w);
    After48(w);
    After64(w);
    Feedback();
  }

  lemma NoRounds(w: seq<bv32>)
    requires |w| == 64
    ensures Rounds(INITIAL, K, w, 0) == INITIAL
  {
  }

  /** The published bytes. */
  lemma Stored()
    ensures Store(Regs(0xba7816bf, 0x8f01cfea, 0x414140de, 0x5dae2223, 0xb00361a3, 0x96177a9c, 0xb410ff61, 0xf20015ad))
         == [0xba, 0x78, 0x16, 0xbf]
          + [0x8f, 0x01, 0xcf, 0xea]
          + [0x41, 0x41, 0x40, 0xde]
          + [0x5d, 0xae, 0x22, 0x23]
          + [0xb0, 0x03, 0x61, 0xa3]
          + [0x96, 0x17, 0x7a, 0x9c]
          + [0xb4, 0x10, 0xff, 0x61]
          + [0xf2, 0x00, 0x15, 0xad]
  {
    hide Bytes;
    StoredWords();
  }

  lemma StoredWords()
    ensures Bytes(0xba7816bf) == [0xba, 0x78, 0x16, 0xbf]
    ensures Bytes(0x8f01cfea) == [0x8f, 0x01, 0xcf, 0xea]
    ensures Bytes(0x414140de) == [0x41, 0x41, 0x40, 0xde]
    ensures Bytes(0x5dae2223) == [0x5d, 0xae, 0x22, 0x23]
    ensures Bytes(0xb00361a3) == [0xb0, 0x03, 0x61, 0xa3]
    ensures Bytes(0x96177a9c) == [0x96, 0x17, 0x7a, 0x9c]
    ensures Bytes(0xb410ff61) == [0xb4, 0x10, 0xff, 0x61]
    ensures Bytes(0xf20015ad) == [0xf2, 0x00, 0x15, 0xad]
  {
  }
}

/** The digest of "abc" published for SHA-512 as an example of FIPS 180-4. */
module Sha512Vector {
  import opened MessagePadding
  import opened Sha512Rounds

  // ------------------------------------------------ the message schedule

  function Sum(a: bv64, b: bv64, c: bv64, d: bv64): (r: bv64) {
    Plus(Plus(Plus(Gamma1(a), b), Gamma0(c)), d)
  }

  /** Word t is made of earlier ones. */
  predicate Grows(w: seq<bv64>, t: nat)
    requires 16 <= t < |w|
  {
    w[t] == Sum(w[t - 2], w[t - 7], w[t - 15], w[t - 16])
  }

  ghost predicate Scheduled(w: seq<bv64>) {
    |w| == 80 && forall t :: 16 <= t < 80 ==> Grows(w, t)
  }

  predicate Words0(w: seq<bv64>)
    requires |w| == 80
  {
    && w[0] == 0x6162638000000000 && w[1] == 0x0000000000000000 && w[2] == 0x0000000000000000
    && w[3] == 0x0000000000000000 && w[4] == 0x0000000000000000 && w[5] == 0x0000000000000000
    && w[6] == 0x0000000000000000 && w[7] == 0x0000000000000000 && w[8] == 0x0000000000000000
    && w[9] == 0x0000000000000000 && w[10] == 0x0000000000000000 && w[11] == 0x0000000000000000
    && w[12] == 0x0000000000000000 && w[13] == 0x0000000000000000 && w[14] == 0x0000000000000000
    && w[15] == 0x0000000000000018
  }

  predicate Words16(w: seq<bv64>)
    requires |w| == 80
  {
    && w[16] == 0x6162638000000000 && w[17] == 0x00030000000000c0 && w[18] == 0x0a9699a24c700003
    && w[19] == 0x00000c0060000603 && w[20] == 0x549ef62639858996 && w[21] == 0x00c0003300003c00
    && w[22] == 0x1497007a8a0e9dbc && w[23] == 0x62e56500cc0780f0 && w[24] == 0x7760dd475a538797
    && w[25] == 0xf1554b711c1c0003 && w[26] == 0xca2993a4345d9ff2 && w[27] == 0x5e0e66b5c783dd32
    && w[28] == 0xe25a625d00494b62 && w[29] == 0x9f44486fb1e4fbd2 && w[30] == 0xb31b8c2b06085f2f
    && w[31] == 0x0e987660934142f6
  }

  predicate Words32(w: seq<bv64>)
    requires |w| == 80
  {
    && w[32] == 0xa4af2cfd09fbb924 && w[33] == 0xad289e2e0bd53186 && w[34] == 0x3c74563aa2f9673e
    && w[35] == 0x6ccdcd14cc14b53f && w[36] == 0xc3f925b337f22bde && w[37] == 0x5bcc77a75ad95b54
    && w[38] == 0x3ec2257adca09a52 && w[39] == 0x28246960001fc5eb && w[40] == 0x04e33a75ce2be88a
    && w[41] == 0x7d5314b3c359e0e7 && w[42] == 0xaef7a285ff251266 && w[43] == 0x0b8472581deea04f
    && w[44] == 0xb174e26eddc7b033 && w[45] == 0x5d63bae58ddd88de && w[46] == 0x4c044007b744ccbb
    && w[47] == 0xe6a9aa4d74dc7d43
  }

  predicate Words48(w: seq<bv64>)
    requires |w| == 80
  {
    && w[48] == 0xebeaf1237248019c && w[49] == 0x361e80b2d00f3193 && w[50] == 0x2e9839125df3b175
    && w[51] == 0x3319629293ad5363 && w[52] == 0x9cbc5d89ac1b89d5 && w[53] == 0x275e23ffeeca50b7
    && w[54] == 0x3b80d680bf69ef58 && w[55] == 0x0d0696933945a125 && w[56] == 0x7533eabcb786ff00
    && w[57] == 0xb89826cee6fbf0e5 && w[58] == 0x249b4fbcad623e9f && w[59] == 0x4aea9df2b02d6f1e
    && w[60] == 0x2cc57475a55e8d8f && w[61] == 0xb2574ae938d8be89 && w[62] == 0xc1b35a57b16d6aea
    && w[63] == 0xcc4918b5949206bb
  }

  predicate Words64(w: seq<bv64>)
    requires |w| == 80
  {
    && w[64] == 0x5099c3add79f90ec && w[65] == 0x5ea81d78e7660bf1 && w[66] == 0xebee6267405ac2a9
    && w[67] == 0xb01f21926108a4ab && w[68] == 0x786433dd2fe65556 && w[69] == 0xc54a6eaa24a0552c
    && w[70] == 0xb3c8f1530bdbaa9e && w[71] == 0xbb8abfe56f469338 && w[72] == 0xf63d4265cc1c5a78
    && w[73] == 0xbe8355ea73129afb && w[74] == 0x49e2db8ebdcfbeb5 && w[75] == 0x82269d4a883a3d99
    && w[76] == 0xfdf53df3011f362b && w[77] == 0x464af5671d71c12e && w[78] == 0xe449b68198ec611c
    && w[79] == 0x92aeeed1a7bcf7d2
  }

  lemma Sums16()
    ensures Sum(0x0000000000000000, 0x0000000000000000, 0x0000000000000000, 0x6162638000000000) == 0x6162638000000000
    ensures Sum(0x0000000000000018, 0x0000000000000000, 0x0000000000000000, 0x0000000000000000) == 0x00030000000000c0
    ensures Sum(0x6162638000000000, 0x0000000000000000, 0x0000000000000000, 0x0000000000000000) == 0x0a9699a24c700003
    ensures Sum(0x00030000000000c0, 0x0000000000000000, 0x0000000000000000, 0x0000000000000000) == 0x00000c0060000603
    ensures Sum(0x0a9699a24c700003, 0x0000000000000000, 0x0000000000000000, 0x0000000000000000) == 0x549ef62639858996
    ensures Sum(0x00000c0060000603, 0x0000000000000000, 0x0000000000000000, 0x0000000000000000) == 0x00c0003300003c00
    ensures Sum(0x549ef62639858996, 0x0000000000000018, 0x0000000000000000, 0x0000000000000000) == 0x1497007a8a0e9dbc
    ensures Sum(0x00c0003300003c00, 0x6162638000000000, 0x0000000000000000, 0x0000000000000000) == 0x62e56500cc0780f0
  {
  }

  lemma Sums24()
    ensures Sum(0x1497007a8a0e9dbc, 0x00030000000000c0, 0x0000000000000000, 0x0000000000000000) == 0x7760dd475a538797
    ensures Sum(0x62e56500cc0780f0, 0x0a9699a24c700003, 0x0000000000000000, 0x0000000000000000) == 0xf1554b711c1c0003
    ensures Sum(0x7760dd475a538797, 0x00000c0060000603, 0x0000000000000000, 0x0000000000000000) == 0xca2993a4345d9ff2
    ensures Sum(0xf1554b711c1c0003, 0x549ef62639858996, 0x0000000000000000, 0x0000000000000000) == 0x5e0e66b5c783dd32
    ensures Sum(0xca2993a4345d9ff2, 0x00c0003300003c00, 0x0000000000000000, 0x0000000000000000) == 0xe25a625d00494b62
    ensures Sum(0x5e0e66b5c783dd32, 0x1497007a8a0e9dbc, 0x0000000000000000, 0x0000000000000000) == 0x9f44486fb1e4fbd2
    ensures Sum(0xe25a625d00494b62, 0x62e56500cc0780f0, 0x0000000000000018, 0x0000000000000000) == 0xb31b8c2b06085f2f
    ensures Sum(0x9f44486fb1e4fbd2, 0x7760dd475a538797, 0x6162638000000000, 0x0000000000000018) == 0x0e987660934142f6
  {
  }

  lemma Expansion16(w: seq<bv64>)
    requires Scheduled(w) && Words0(w)
    ensures Words16(w)
  {
    hide Sum;
    Sums16();
    Sums24();
    assert Grows(w, 16) && Grows(w, 17) && Grows(w, 18) && Grows(w, 19);
    assert Grows(w, 20) && Grows(w, 21) && Grows(w, 22) && Grows(w, 23);
    assert Grows(w, 24) && Grows(w, 25) && Grows(w, 26) && Grows(w, 27);
    assert Grows(w, 28) && Grows(w, 29) && Grows(w, 30) && Grows(w, 31);
  }

  lemma Sums32()
    ensures Sum(0xb31b8c2b06085f2f, 0xf1554b711c1c0003, 0x00030000000000c0, 0x6162638000000000) == 0xa4af2cfd09fbb924
    ensures Sum(0x0e987660934142f6, 0xca2993a4345d9ff2, 0x0a9699a24c700003, 0x00030000000000c0) == 0xad289e2e0bd53186
    ensures Sum(0xa4af2cfd09fbb924, 0x5e0e66b5c783dd32, 0x00000c0060000603, 0x0a9699a24c700003) == 0x3c74563aa2f9673e
    ensures Sum(0xad289e2e0bd53186, 0xe25a625d00494b62, 0x549ef62639858996, 0x00000c0060000603) == 0x6ccdcd14cc14b53f
    ensures Sum(0x3c74563aa2f9673e, 0x9f44486fb1e4fbd2, 0x00c0003300003c00, 0x549ef62639858996) == 0xc3f925b337f22bde
    ensures Sum(0x6ccdcd14cc14b53f, 0xb31b8c2b06085f2f, 0x1497007a8a0e9dbc, 0x00c0003300003c00) == 0x5bcc77a75ad95b54
    ensures Sum(0xc3f925b337f22bde, 0x0e987660934142f6, 0x62e56500cc0780f0, 0x1497007a8a0e9dbc) == 0x3ec2257adca09a52
    ensures Sum(0x5bcc77a75ad95b54, 0xa4af2cfd09fbb924, 0x7760dd475a538797, 0x62e56500cc0780f0) == 0x28246960001fc5eb
  {
  }

  lemma Sums40()
    ensures Sum(0x3ec2257adca09a52, 0xad289e2e0bd53186, 0xf1554b711c1c0003, 0x7760dd475a538797) == 0x04e33a75ce2be88a
    ensures Sum(0x28246960001fc5eb, 0x3c74563aa2f9673e, 0xca2993a4345d9ff2, 0xf1554b711c1c0003) == 0x7d5314b3c359e0e7
    ensures Sum(0x04e33a75ce2be88a, 0x6ccdcd14cc14b53f, 0x5e0e66b5c783dd32, 0xca2993a4345d9ff2) == 0xaef7a285ff251266
    ensures Sum(0x7d5314b3c359e0e7, 0xc3f925b337f22bde, 0xe25a625d00494b62, 0x5e0e66b5c783dd32) == 0x0b8472581deea04f
    ensures Sum(0xaef7a285ff251266, 0x5bcc77a75ad95b54, 0x9f44486fb1e4fbd2, 0xe25a625d00494b62) == 0xb174e26eddc7b033
    ensures Sum(0x0b8472581deea04f, 0x3ec2257adca09a52, 0xb31b8c2b06085f2f, 0x9f44486fb1e4fbd2) == 0x5d63bae58ddd88de
    ensures Sum(0xb174e26eddc7b033, 0x28246960001fc5eb, 0x0e987660934142f6, 0xb31b8c2b06085f2f) == 0x4c044007b744ccbb
    ensures Sum(0x5d63bae58ddd88de, 0x04e33a75ce2be88a, 0xa4af2cfd09fbb924, 0x0e987660934142f6) == 0xe6a9aa4d74dc7d43
  {
  }

  lemma Expansion32(w: seq<bv64>)
    requires Scheduled(w) && Words16(w)
    ensures Words32(w)
  {
    hide Sum;
    Sums32();
    Sums40();
    assert Grows(w, 32) && Grows(w, 33) && Grows(w, 34) && Grows(w, 35);
    assert Grows(w, 36) && Grows(w, 37) && Grows(w, 38) && Grows(w, 39);
    assert Grows(w, 40) && Grows(w, 41) && Grows(w, 42) && Grows(w, 43);
    assert Grows(w, 44) && Grows(w, 45) && Grows(w, 46) && Grows(w, 47);
  }

  lemma Sums48()
    ensures Sum(0x4c044007b744ccbb, 0x7d5314b3c359e0e7, 0xad289e2e0bd53186, 0xa4af2cfd09fbb924) == 0xebeaf1237248019c
    ensures Sum(0xe6a9aa4d74dc7d43, 0xaef7a285ff251266, 0x3c74563aa2f9673e, 0xad289e2e0bd53186) == 0x361e80b2d00f3193
    ensures Sum(0xebeaf1237248019c, 0x0b8472581deea04f, 0x6ccdcd14cc14b53f, 0x3c74563aa2f9673e) == 0x2e9839125df3b175
    ensures Sum(0x361e80b2d00f3193, 0xb174e26eddc7b033, 0xc3f925b337f22bde, 0x6ccdcd14cc14b53f) == 0x3319629293ad5363
    ensures Sum(0x2e9839125df3b175, 0x5d63bae58ddd88de, 0x5bcc77a75ad95b54, 0xc3f925b337f22bde) == 0x9cbc5d89ac1b89d5
    ensures Sum(0x3319629293ad5363, 0x4c044007b744ccbb, 0x3ec2257adca09a52, 0x5bcc77a75ad95b54) == 0x275e23ffeeca50b7
    ensures Sum(0x9cbc5d89ac1b89d5, 0xe6a9aa4d74dc7d43, 0x28246960001fc5eb, 0x3ec2257adca09a52) == 0x3b80d680bf69ef58
    ensures Sum(0x275e23ffeeca50b7, 0xebeaf1237248019c, 0x04e33a75ce2be88a, 0x28246960001fc5eb) == 0x0d0696933945a125
  {
  }

  lemma Sums56()
    ensures Sum(0x3b80d680bf69ef58, 0x361e80b2d00f3193, 0x7d5314b3c359e0e7, 0x04e33a75ce2be88a) == 0x7533eabcb786ff00
    ensures Sum(0x0d0696933945a125, 0x2e9839125df3b175, 0xaef7a285ff251266, 0x7d5314b3c359e0e7) == 0xb89826cee6fbf0e5
    ensures Sum(0x7533eabcb786ff00, 0x3319629293ad5363, 0x0b8472581deea04f, 0xaef7a285ff251266) == 0x249b4fbcad623e9f
    ensures Sum(0xb89826cee6fbf0e5, 0x9cbc5d89ac1b89d5, 0xb174e26eddc7b033, 0x0b8472581deea04f) == 0x4aea9df2b02d6f1e
    ensures Sum(0x249b4fbcad623e9f, 0x275e23ffeeca50b7, 0x5d63bae58ddd88de, 0xb174e26eddc7b033) == 0x2cc57475a55e8d8f
    ensures Sum(0x4aea9df2b02d6f1e, 0x3b80d680bf69ef58, 0x4c044007b744ccbb, 0x5d63bae58ddd88de) == 0xb2574ae938d8be89
    ensures Sum(0x2cc57475a55e8d8f, 0x0d0696933945a125, 0xe6a9aa4d74dc7d43, 0x4c044007b744ccbb) == 0xc1b35a57b16d6aea
    ensures Sum(0xb2574ae938d8be89, 0x7533eabcb786ff00, 0xebeaf1237248019c, 0xe6a9aa4d74dc7d43) == 0xcc4918b5949206bb
  {
  }

  lemma Expansion48(w: seq<bv64>)
    requires Scheduled(w) && Words32(w)
    ensures Words48(w)
  {
    hide Sum;
    Sums48();
    Sums56();
    assert Grows(w, 48) && Grows(w, 49) && Grows(w, 50) && Grows(w, 51);
    assert Grows(w, 52) && Grows(w, 53) && Grows(w, 54) && Grows(w, 55);
    assert Grows(w, 56) && Grows(w, 57) && Grows(w, 58) && Grows(w, 59);
    assert Grows(w, 60) && Grows(w, 61) && Grows(w, 62) && Grows(w, 63);
  }

  lemma Sums64()
    ensures Sum(0xc1b35a57b16d6aea, 0xb89826cee6fbf0e5, 0x361e80b2d00f3193, 0xebeaf1237248019c) == 0x5099c3add79f90ec
    ensures Sum(0xcc4918b5949206bb, 0x249b4fbcad623e9f, 0x2e9839125df3b175, 0x361e80b2d00f3193) == 0x5ea81d78e7660bf1
    ensures Sum(0x5099c3add79f90ec, 0x4aea9df2b02d6f1e, 0x3319629293ad5363, 0x2e9839125df3b175) == 0xebee6267405ac2a9
    ensures Sum(0x5ea81d78e7660bf1, 0x2cc57475a55e8d8f, 0x9cbc5d89ac1b89d5, 0x3319629293ad5363) == 0xb01f21926108a4ab
    ensures Sum(0xebee6267405ac2a9, 0xb2574ae938d8be89, 0x275e23ffeeca50b7, 0x9cbc5d89ac1b89d5) == 0x786433dd2fe65556
    ensures Sum(0xb01f21926108a4ab, 0xc1b35a57b16d6aea, 0x3b80d680bf69ef58, 0x275e23ffeeca50b7) == 0xc54a6eaa24a0552c
    ensures Sum(0x786433dd2fe65556, 0xcc4918b5949206bb, 0x0d0696933945a125, 0x3b80d680bf69ef58) == 0xb3c8f1530bdbaa9e
    ensures Sum(0xc54a6eaa24a0552c, 0x5099c3add79f90ec, 0x7533eabcb786ff00, 0x0d0696933945a125) == 0xbb8abfe56f469338
  {
  }

  lemma Sums72()
    ensures Sum(0xb3c8f1530bdbaa9e, 0x5ea81d78e7660bf1, 0xb89826cee6fbf0e5, 0x7533eabcb786ff00) == 0xf63d4265cc1c5a78
    ensures Sum(0xbb8abfe56f469338, 0xebee6267405ac2a9, 0x249b4fbcad623e9f, 0xb89826cee6fbf0e5) == 0xbe8355ea73129afb
    ensures Sum(0xf63d4265cc1c5a78, 0xb01f21926108a4ab, 0x4aea9df2b02d6f1e, 0x249b4fbcad623e9f) == 0x49e2db8ebdcfbeb5
    ensures Sum(0xbe8355ea73129afb, 0x786433dd2fe65556, 0x2cc57475a55e8d8f, 0x4aea9df2b02d6f1e) == 0x82269d4a883a3d99
    ensures Sum(0x49e2db8ebdcfbeb5, 0xc54a6eaa24a0552c, 0xb2574ae938d8be89, 0x2cc57475a55e8d8f) == 0xfdf53df3011f362b
    ensures Sum(0x82269d4a883a3d99, 0xb3c8f1530bdbaa9e, 0xc1b35a57b16d6aea, 0xb2574ae938d8be89) == 0x464af5671d71c12e
    ensures Sum(0xfdf53df3011f362b, 0xbb8abfe56f469338, 0xcc4918b5949206bb, 0xc1b35a57b16d6aea) == 0xe449b68198ec611c
    ensures Sum(0x464af5671d71c12e, 0xf63d4265cc1c5a78, 0x5099c3add79f90ec, 0xcc4918b5949206bb) == 0x92aeeed1a7bcf7d2
  {
  }

  lemma Expansion64(w: seq<bv64>)
    requires Scheduled(w) && Words48(w)
    ensures Words64(w)
  {
    hide Sum;
    Sums64();
    Sums72();
    assert Grows(w, 64) && Grows(w, 65) && Grows(w, 66) && Grows(w, 67);
    assert Grows(w, 68) && Grows(w, 69) && Grows(w, 70) && Grows(w, 71);
    assert Grows(w, 72) && Grows(w, 73) && Grows(w, 74) && Grows(w, 75);
    assert Grows(w, 76) && Grows(w, 77) && Grows(w, 78) && Grows(w, 79);
  }

  // ------------------------------------------------ the rounds

  predicate TwoRounds(r: Regs, k: bv64, w: bv64, k': bv64, w': bv64, q: Regs) {
    Round(Round(r, k, w), k', w') == q
  }

  lemma Rounds0()
    ensures TwoRounds(Regs(0x6a09e667f3bcc908, 0xbb67ae8584caa73b, 0x3c6ef372fe94f82b, 0xa54ff53a5f1d36f1,
                      0x510e527fade682d1, 0x9b05688c2b3e6c1f, 0x1f83d9abfb41bd6b, 0x5be0cd19137e2179),
                      0x428a2f98d728ae22, 0x6162638000000000, 0x7137449123ef65cd, 0x0000000000000000,
                      Regs(0x1320f8c9fb872cc0, 0xf6afceb8bcfcddf5, 0x6a09e667f3bcc908, 0xbb67ae8584caa73b,
                      0xc3d4ebfd48650ffa, 0x58cb02347ab51f91, 0x510e527fade682d1, 0x9b05688c2b3e6c1f))
    ensures TwoRounds(Regs(0x1320f8c9fb872cc0, 0xf6afceb8bcfcddf5, 0x6a09e667f3bcc908, 0xbb67ae8584caa73b,
                      0xc3d4ebfd48650ffa, 0x58cb02347ab51f91, 0x510e527fade682d1, 0x9b05688c2b3e6c1f),
                      0xb5c0fbcfec4d3b2f, 0x0000000000000000, 0xe9b5dba58189dbbc, 0x0000000000000000,
                      Regs(0x5a83cb3e80050e82, 0xebcffc07203d91f3, 0x1320f8c9fb872cc0, 0xf6afceb8bcfcddf5,
                      0x0b47b4bb1928990e, 0xdfa9b239f2697812, 0xc3d4ebfd48650ffa, 0x58cb02347ab51f91))
    ensures TwoRounds(Regs(0x5a83cb3e80050e82, 0xebcffc07203d91f3, 0x1320f8c9fb872cc0, 0xf6afceb8bcfcddf5,
                      0x0b47b4bb1928990e, 0xdfa9b239f2697812, 0xc3d4ebfd48650ffa, 0x58cb02347ab51f91),
                      0x3956c25bf348b538, 0x0000000000000000, 0x59f111f1b605d019, 0x0000000000000000,
                      Regs(0xaf573b02403e89cd, 0xb680953951604860, 0x5a83cb3e80050e82, 0xebcffc07203d91f3,
                      0x96f60209b6dc35ba, 0x745aca4a342ed2e2, 0x0b47b4bb1928990e, 0xdfa9b239f2697812))
    ensures TwoRounds(Regs(0xaf573b02403e89cd, 0xb680953951604860, 0x5a83cb3e80050e82, 0xebcffc07203d91f3,
                      0x96f60209b6dc35ba, 0x745aca4a342ed2e2, 0x0b47b4bb1928990e, 0xdfa9b239f2697812),
                      0x923f82a4af194f9b, 0x0000000000000000, 0xab1c5ed5da6d8118, 0x0000000000000000,
                      Regs(0x8093d195e0054fa3, 0xc4875b0c7abc076b, 0xaf573b02403e89cd, 0xb680953951604860,
                      0x86f67263a0f0ec0a, 0x5a6c781f54dcc00c, 0x96f60209b6dc35ba, 0x745aca4a342ed2e2))
  {
  }

  lemma Rounds8()
    ensures TwoRounds(Regs(0x8093d195e0054fa3, 0xc4875b0c7abc076b, 0xaf573b02403e89cd, 0xb680953951604860,
                      0x86f67263a0f0ec0a, 0x5a6c781f54dcc00c, 0x96f60209b6dc35ba, 0x745aca4a342ed2e2),
                      0xd807aa98a3030242, 0x0000000000000000, 0x12835b0145706fbe, 0x0000000000000000,
                      Regs(0x81782d4a5db48f03, 0xf1eca5544cb89225, 0x8093d195e0054fa3, 0xc4875b0c7abc076b,
                      0x00091f460be46c52, 0xd0403c398fc40002, 0x86f67263a0f0ec0a, 0x5a6c781f54dcc00c))
    ensures TwoRounds(Regs(0x81782d4a5db48f03, 0xf1eca5544cb89225, 0x8093d195e0054fa3, 0xc4875b0c7abc076b,
                      0x00091f460be46c52, 0xd0403c398fc40002, 0x86f67263a0f0ec0a, 0x5a6c781f54dcc00c),
                      0x243185be4ee4b28c, 0x0000000000000000, 0x550c7dc3d5ffb4e2, 0x0000000000000000,
                      Regs(0xdb0a9963f80c2eaa, 0x69854c4aa0f25b59, 0x81782d4a5db48f03, 0xf1eca5544cb89225,
                      0x475975b91a7a462c, 0xd375471bde1ba3f4, 0x00091f460be46c52, 0xd0403c398fc40002))
    ensures TwoRounds(Regs(0xdb0a9963f80c2eaa, 0x69854c4aa0f25b59, 0x81782d4a5db48f03, 0xf1eca5544cb89225,
                      0x475975b91a7a462c, 0xd375471bde1ba3f4, 0x00091f460be46c52, 0xd0403c398fc40002),
                      0x72be5d74f27b896f, 0x0000000000000000, 0x80deb1fe3b1696b1, 0x0000000000000000,
                      Regs(0x44249631255d2ca0, 0x5e41214388186c14, 0xdb0a9963f80c2eaa, 0x69854c4aa0f25b59,
                      0x860acf9effba6f61, 0xcdf3bff2883fc9d9, 0x475975b91a7a462c, 0xd375471bde1ba3f4))
    ensures TwoRounds(Regs(0x44249631255d2ca0, 0x5e41214388186c14, 0xdb0a9963f80c2eaa, 0x69854c4aa0f25b59,
                      0x860acf9effba6f61, 0xcdf3bff2883fc9d9, 0x475975b91a7a462c, 0xd375471bde1ba3f4),
                      0x9bdc06a725c71235, 0x0000000000000000, 0xc19bf174cf692694, 0x0000000000000018,
                      Regs(0x0ae07c86b1181c75, 0xfa967eed85a08028, 0x44249631255d2ca0, 0x5e41214388186c14,
                      0xa77b7c035dd4c161, 0x874bfe5f6aae9f2f, 0x860acf9effba6f61, 0xcdf3bff2883fc9d9))
  {
  }

  lemma Rounds16()
    ensures TwoRounds(Regs(0x0ae07c86b1181c75, 0xfa967eed85a08028, 0x44249631255d2ca0, 0x5e41214388186c14,
                      0xa77b7c035dd4c161, 0x874bfe5f6aae9f2f, 0x860acf9effba6f61, 0xcdf3bff2883fc9d9),
                      0xe49b69c19ef14ad2, 0x6162638000000000, 0xefbe4786384f25e3, 0x00030000000000c0,
                      Regs(0x4725be249ad19e6b, 0xcaf81a425d800537, 0x0ae07c86b1181c75, 0xfa967eed85a08028,
                      0xf47e8353f8047455, 0x2deecc6b39d64d78, 0xa77b7c035dd4c161, 0x874bfe5f6aae9f2f))
    ensures TwoRounds(Regs(0x4725be249ad19e6b, 0xcaf81a425d800537, 0x0ae07c86b1181c75, 0xfa967eed85a08028,
                      0xf47e8353f8047455, 0x2deecc6b39d64d78, 0xa77b7c035dd4c161, 0x874bfe5f6aae9f2f),
                      0x0fc19dc68b8cd5b5, 0x0a9699a24c700003, 0x240ca1cc77ac9c65, 0x00000c0060000603,
                      Regs(0x9a3fb4d38ab6cf06, 0x3c4b4104168e3edb, 0x4725be249ad19e6b, 0xcaf81a425d800537,
                      0xf14998dd5f70767e, 0x29695fd88d81dbd0, 0xf47e8353f8047455, 0x2deecc6b39d64d78))
    ensures TwoRounds(Regs(0x9a3fb4d38ab6cf06, 0x3c4b4104168e3edb, 0x4725be249ad19e6b, 0xcaf81a425d800537,
                      0xf14998dd5f70767e, 0x29695fd88d81dbd0, 0xf47e8353f8047455, 0x2deecc6b39d64d78),
                      0x2de92c6f592b0275, 0x549ef62639858996, 0x4a7484aa6ea6e483, 0x00c0003300003c00,
                      Regs(0xda34d6673d452dcf, 0x8dc5ae65569d3855, 0x9a3fb4d38ab6cf06, 0x3c4b4104168e3edb,
                      0x8e30ff09ad488753, 0x4bb9e66d1145bfdc, 0xf14998dd5f70767e, 0x29695fd88d81dbd0))
    ensures TwoRounds(Regs(0xda34d6673d452dcf, 0x8dc5ae65569d3855, 0x9a3fb4d38ab6cf06, 0x3c4b4104168e3edb,
                      0x8e30ff09ad488753, 0x4bb9e66d1145bfdc, 0xf14998dd5f70767e, 0x29695fd88d81dbd0),
                      0x5cb0a9dcbd41fbd4, 0x1497007a8a0e9dbc, 0x76f988da831153b5, 0x62e56500cc0780f0,
                      Regs(0x4f6877b58fe55484, 0x3e2644567b709a78, 0xda34d6673d452dcf, 0x8dc5ae65569d3855,
                      0xc66005f87db55233, 0x0ac2b11da8f571c6, 0x8e30ff09ad488753, 0x4bb9e66d1145bfdc))
  {
  }

  lemma Rounds24()
    ensures TwoRounds(Regs(0x4f6877b58fe55484, 0x3e2644567b709a78, 0xda34d6673d452dcf, 0x8dc5ae65569d3855,
                      0xc66005f87db55233, 0x0ac2b11da8f571c6, 0x8e30ff09ad488753, 0x4bb9e66d1145bfdc),
                      0x983e5152ee66dfab, 0x7760dd475a538797, 0xa831c66d2db43210, 0xf1554b711c1c0003,
                      Regs(0x0bc5f791f8e6816b, 0x9aff71163fa3a940, 0x4f6877b58fe55484, 0x3e2644567b709a78,
                      0x6ddf1fd7edcce336, 0xd3ecf13769180e6f, 0xc66005f87db55233, 0x0ac2b11da8f571c6))
    ensures TwoRounds(Regs(0x0bc5f791f8e6816b, 0x9aff71163fa3a940, 0x4f6877b58fe55484, 0x3e2644567b709a78,
                      0x6ddf1fd7edcce336, 0xd3ecf13769180e6f, 0xc66005f87db55233, 0x0ac2b11da8f571c6),
                      0xb00327c898fb213f, 0xca2993a4345d9ff2, 0xbf597fc7beef0ee4, 0x5e0e66b5c783dd32,
                      Regs(0xeab4a9e5771b8d09, 0x884c3bc27bc4f941, 0x0bc5f791f8e6816b, 0x9aff71163fa3a940,
                      0x09068a4e255a0dac, 0xe6e48c9a8e948365, 0x6ddf1fd7edcce336, 0xd3ecf13769180e6f))
    ensures TwoRounds(Regs(0xeab4a9e5771b8d09, 0x884c3bc27bc4f941, 0x0bc5f791f8e6816b, 0x9aff71163fa3a940,
                      0x09068a4e255a0dac, 0xe6e48c9a8e948365, 0x6ddf1fd7edcce336, 0xd3ecf13769180e6f),
                      0xc6e00bf33da88fc2, 0xe25a625d00494b62, 0xd5a79147930aa725, 0x9f44486fb1e4fbd2,
                      Regs(0x74bf40f869094c63, 0xe62349090f47d30a, 0xeab4a9e5771b8d09, 0x884c3bc27bc4f941,
                      0xf0aec2fe1437f085, 0x0fcdf99710f21584, 0x09068a4e255a0dac, 0xe6e48c9a8e948365))
    ensures TwoRounds(Regs(0x74bf40f869094c63, 0xe62349090f47d30a, 0xeab4a9e5771b8d09, 0x884c3bc27bc4f941,
                      0xf0aec2fe1437f085, 0x0fcdf99710f21584, 0x09068a4e255a0dac, 0xe6e48c9a8e948365),
                      0x06ca6351e003826f, 0xb31b8c2b06085f2f, 0x142929670a0e6e70, 0x0e987660934142f6,
                      Regs(0xff4d3f1f0d46a736, 0x4c4fbbb75f1873a6, 0x74bf40f869094c63, 0xe62349090f47d30a,
                      0x3cd388e119e8162e, 0x73e025d91b9efea3, 0xf0aec2fe1437f085, 0x0fcdf99710f21584))
  {
  }

  lemma Rounds32()
    ensures TwoRounds(Regs(0xff4d3f1f0d46a736, 0x4c4fbbb75f1873a6, 0x74bf40f869094c63, 0xe62349090f47d30a,
                      0x3cd388e119e8162e, 0x73e025d91b9efea3, 0xf0aec2fe1437f085, 0x0fcdf99710f21584),
                      0x27b70a8546d22ffc, 0xa4af2cfd09fbb924, 0x2e1b21385c26c926, 0xad289e2e0bd53186,
                      Regs(0x60d4e6995ed91fe6, 0xa0509015ca08c8d4, 0xff4d3f1f0d46a736, 0x4c4fbbb75f1873a6,
                      0xefabbd8bf47c041a, 0xe1034573654a106f, 0x3cd388e119e8162e, 0x73e025d91b9efea3))
    ensures TwoRounds(Regs(0x60d4e6995ed91fe6, 0xa0509015ca08c8d4, 0xff4d3f1f0d46a736, 0x4c4fbbb75f1873a6,
                      0xefabbd8bf47c041a, 0xe1034573654a106f, 0x3cd388e119e8162e, 0x73e025d91b9efea3),
                      0x4d2c6dfc5ac42aed, 0x3c74563aa2f9673e, 0x53380d139d95b3df, 0x6ccdcd14cc14b53f,
                      Regs(0x1a081afc59fdbc2c, 0x2c59ec7743632621, 0x60d4e6995ed91fe6, 0xa0509015ca08c8d4,
                      0xf098082f502b44cd, 0x0fbae670fa780fd3, 0xefabbd8bf47c041a, 0xe1034573654a106f))
    ensures TwoRounds(Regs(0x1a081afc59fdbc2c, 0x2c59ec7743632621, 0x60d4e6995ed91fe6, 0xa0509015ca08c8d4,
                      0xf098082f502b44cd, 0x0fbae670fa780fd3, 0xefabbd8bf47c041a, 0xe1034573654a106f),
                      0x650a73548baf63de, 0xc3f925b337f22bde, 0x766a0abb3c77b2a8, 0x5bcc77a75ad95b54,
                      Regs(0x002bb8e4cd989567, 0x88df85b0bbe77514, 0x1a081afc59fdbc2c, 0x2c59ec7743632621,
                      0x66adcfa249ac7bbd, 0x8fbfd0162bbf4675, 0xf098082f502b44cd, 0x0fbae670fa780fd3))
    ensures TwoRounds(Regs(0x002bb8e4cd989567, 0x88df85b0bbe77514, 0x1a081afc59fdbc2c, 0x2c59ec7743632621,
                      0x66adcfa249ac7bbd, 0x8fbfd0162bbf4675, 0xf098082f502b44cd, 0x0fbae670fa780fd3),
                      0x81c2c92e47edaee6, 0x3ec2257adca09a52, 0x92722c851482353b, 0x28246960001fc5eb,
                      Regs(0x8e01e125b855d225, 0xb3bb8542b3376de5, 0x002bb8e4cd989567, 0x88df85b0bbe77514,
                      0x0c710a47ba6a567b, 0xb49596c20feba7de, 0x66adcfa249ac7bbd, 0x8fbfd0162bbf4675))
  {
  }

  lemma Rounds40()
    ensures TwoRounds(Regs(0x8e01e125b855d225, 0xb3bb8542b3376de5, 0x002bb8e4cd989567, 0x88df85b0bbe77514,
                      0x0c710a47ba6a567b, 0xb49596c20feba7de, 0x66adcfa249ac7bbd, 0x8fbfd0162bbf4675),
                      0xa2bfe8a14cf10364, 0x04e33a75ce2be88a, 0xa81a664bbc423001, 0x7d5314b3c359e0e7,
                      Regs(0xe96f89dd48cbd851, 0xb01521dd6a6be12c, 0x8e01e125b855d225, 0xb3bb8542b3376de5,
                      0xf0996439e7b50cb1, 0x169008b3a4bb170b, 0x0c710a47ba6a567b, 0xb49596c20feba7de))
    ensures TwoRounds(Regs(0xe96f89dd48cbd851, 0xb01521dd6a6be12c, 0x8e01e125b855d225, 0xb3bb8542b3376de5,
                      0xf0996439e7b50cb1, 0x169008b3a4bb170b, 0x0c710a47ba6a567b, 0xb49596c20feba7de),
                      0xc24b8b70d0f89791, 0xaef7a285ff251266, 0xc76c51a30654be30, 0x0b8472581deea04f,
                      Regs(0x35d7e7f41defcbd5, 0xbc05ba8de5d3c480, 0xe96f89dd48cbd851, 0xb01521dd6a6be12c,
                      0xcc5100997f5710f2, 0x639cb938e14dc190, 0xf0996439e7b50cb1, 0x169008b3a4bb170b))
    ensures TwoRounds(Regs(0x35d7e7f41defcbd5, 0xbc05ba8de5d3c480, 0xe96f89dd48cbd851, 0xb01521dd6a6be12c,
                      0xcc5100997f5710f2, 0x639cb938e14dc190, 0xf0996439e7b50cb1, 0x169008b3a4bb170b),
                      0xd192e819d6ef5218, 0xb174e26eddc7b033, 0xd69906245565a910, 0x5d63bae58ddd88de,
                      Regs(0x021fbadbabab5ac6, 0xc47c9d5c7ea8a234, 0x35d7e7f41defcbd5, 0xbc05ba8de5d3c480,
                      0xe95c2a57572d64d9, 0x858d832ae0e8911c, 0xcc5100997f5710f2, 0x639cb938e14dc190))
    ensures TwoRounds(Regs(0x021fbadbabab5ac6, 0xc47c9d5c7ea8a234, 0x35d7e7f41defcbd5, 0xbc05ba8de5d3c480,
                      0xe95c2a57572d64d9, 0x858d832ae0e8911c, 0xcc5100997f5710f2, 0x639cb938e14dc190),
                      0xf40e35855771202a, 0x4c044007b744ccbb, 0x106aa07032bbd1b8, 0xe6a9aa4d74dc7d43,
                      Regs(0x6b69fc1bb482feac, 0xf61e672694de2d67, 0x021fbadbabab5ac6, 0xc47c9d5c7ea8a234,
                      0x35264334c03ac8ad, 0xc6bc35740d8daa9a, 0xe95c2a57572d64d9, 0x858d832ae0e8911c))
  {
  }

  lemma Rounds48()
    ensures TwoRounds(Regs(0x6b69fc1bb482feac, 0xf61e672694de2d67, 0x021fbadbabab5ac6, 0xc47c9d5c7ea8a234,
                      0x35264334c03ac8ad, 0xc6bc35740d8daa9a, 0xe95c2a57572d64d9, 0x858d832ae0e8911c),
                      0x19a4c116b8d2d0c8, 0xebeaf1237248019c, 0x1e376c085141ab53, 0x361e80b2d00f3193,
                      Regs(0xca9bd862c5050918, 0x571f323d96b3a047, 0x6b69fc1bb482feac, 0xf61e672694de2d67,
                      0xdfe091dab182e645, 0x271580ed6c3e5650, 0x35264334c03ac8ad, 0xc6bc35740d8daa9a))
    ensures TwoRounds(Regs(0xca9bd862c5050918, 0x571f323d96b3a047, 0x6b69fc1bb482feac, 0xf61e672694de2d67,
                      0xdfe091dab182e645, 0x271580ed6c3e5650, 0x35264334c03ac8ad, 0xc6bc35740d8daa9a),
                      0x2748774cdf8eeb99, 0x2e9839125df3b175, 0x34b0bcb5e19b48a8, 0x3319629293ad5363,
                      Regs(0xd43f83727325dd77, 0x813a43dd2c502043, 0xca9bd862c5050918, 0x571f323d96b3a047,
                      0x483f80a82eaee23e, 0x07a0d8ef821c5e1a, 0xdfe091dab182e645, 0x271580ed6c3e5650))
    ensures TwoRounds(Regs(0xd43f83727325dd77, 0x813a43dd2c502043, 0xca9bd862c5050918, 0x571f323d96b3a047,
                      0x483f80a82eaee23e, 0x07a0d8ef821c5e1a, 0xdfe091dab182e645, 0x271580ed6c3e5650),
                      0x391c0cb3c5c95a63, 0x9cbc5d89ac1b89d5, 0x4ed8aa4ae3418acb, 0x275e23ffeeca50b7,
                      Regs(0xd63f68037ddf06aa, 0x03df11b32d42e203, 0xd43f83727325dd77, 0x813a43dd2c502043,
                      0xa6781efe1aa1ce02, 0x504f94e40591cffa, 0x483f80a82eaee23e, 0x07a0d8ef821c5e1a))
    ensures TwoRounds(Regs(0xd63f68037ddf06aa, 0x03df11b32d42e203, 0xd43f83727325dd77, 0x813a43dd2c502043,
                      0xa6781efe1aa1ce02, 0x504f94e40591cffa, 0x483f80a82eaee23e, 0x07a0d8ef821c5e1a),
                      0x5b9cca4f7763e373, 0x3b80d680bf69ef58, 0x682e6ff3d6b2b8a3, 0x0d0696933945a125,
                      Regs(0x63b460e42748817e, 0xf650857b5babda4d, 0xd63f68037ddf06aa, 0x03df11b32d42e203,
                      0xc6b4dd2a9931c509, 0x9ccfb31a86df0f86, 0xa6781efe1aa1ce02, 0x504f94e40591cffa))
  {
  }

  lemma Rounds56()
    ensures TwoRounds(Regs(0x63b460e42748817e, 0xf650857b5babda4d, 0xd63f68037ddf06aa, 0x03df11b32d42e203,
                      0xc6b4dd2a9931c509, 0x9ccfb31a86df0f86, 0xa6781efe1aa1ce02, 0x504f94e40591cffa),
                      0x748f82ee5defb2fc, 0x7533eabcb786ff00, 0x78a5636f43172f60, 0xb89826cee6fbf0e5,
                      Regs(0x4b81c3aec976ea4b, 0x7a52912943d52b05, 0x63b460e42748817e, 0xf650857b5babda4d,
                      0x70505988124351ac, 0xd2e89bbd91e00be0, 0xc6b4dd2a9931c509, 0x9ccfb31a86df0f86))
    ensures TwoRounds(Regs(0x4b81c3aec976ea4b, 0x7a52912943d52b05, 0x63b460e42748817e, 0xf650857b5babda4d,
                      0x70505988124351ac, 0xd2e89bbd91e00be0, 0xc6b4dd2a9931c509, 0x9ccfb31a86df0f86),
                      0x84c87814a1f0ab72, 0x249b4fbcad623e9f, 0x8cc702081a6439ec, 0x4aea9df2b02d6f1e,
                      Regs(0x2c074484ef1eac8c, 0x581ecb3355dcd9b8, 0x4b81c3aec976ea4b, 0x7a52912943d52b05,
                      0x4797cde4ed370692, 0x6a3c9b0f71c8bf36, 0x70505988124351ac, 0xd2e89bbd91e00be0))
    ensures TwoRounds(Regs(0x2c074484ef1eac8c, 0x581ecb3355dcd9b8, 0x4b81c3aec976ea4b, 0x7a52912943d52b05,
                      0x4797cde4ed370692, 0x6a3c9b0f71c8bf36, 0x70505988124351ac, 0xd2e89bbd91e00be0),
                      0x90befffa23631e28, 0x2cc57475a55e8d8f, 0xa4506cebde82bde9, 0xb2574ae938d8be89,
                      Regs(0xcfcd928c5424e2b6, 0x3857dfd2fc37d3ba, 0x2c074484ef1eac8c, 0x581ecb3355dcd9b8,
                      0x09aee5bda1644de5, 0xa6af4e9c9f807e51, 0x4797cde4ed370692, 0x6a3c9b0f71c8bf36))
    ensures TwoRounds(Regs(0xcfcd928c5424e2b6, 0x3857dfd2fc37d3ba, 0x2c074484ef1eac8c, 0x581ecb3355dcd9b8,
                      0x09aee5bda1644de5, 0xa6af4e9c9f807e51, 0x4797cde4ed370692, 0x6a3c9b0f71c8bf36),
                      0xbef9a3f7b2c67915, 0xc1b35a57b16d6aea, 0xc67178f2e372532b, 0xcc4918b5949206bb,
                      Regs(0xab44e86276478d85, 0xa81dedbb9f19e643, 0xcfcd928c5424e2b6, 0x3857dfd2fc37d3ba,
                      0xcd881ee59ca6bc53, 0x84058865d60a05fa, 0x09aee5bda1644de5, 0xa6af4e9c9f807e51))
  {
  }

  lemma Rounds64()
    ensures TwoRounds(Regs(0xab44e86276478d85, 0xa81dedbb9f19e643, 0xcfcd928c5424e2b6, 0x3857dfd2fc37d3ba,
                      0xcd881ee59ca6bc53, 0x84058865d60a05fa, 0x09aee5bda1644de5, 0xa6af4e9c9f807e51),
                      0xca273eceea26619c, 0x5099c3add79f90ec, 0xd186b8c721c0c207, 0x5ea81d78e7660bf1,
                      Regs(0xeeb9c21bb0102598, 0x5a806d7e9821a501, 0xab44e86276478d85, 0xa81dedbb9f19e643,
                      0x3b5fed0d6a1f96e1, 0xaa84b086688a5c45, 0xcd881ee59ca6bc53, 0x84058865d60a05fa))
    ensures TwoRounds(Regs(0xeeb9c21bb0102598, 0x5a806d7e9821a501, 0xab44e86276478d85, 0xa81dedbb9f19e643,
                      0x3b5fed0d6a1f96e1, 0xaa84b086688a5c45, 0xcd881ee59ca6bc53, 0x84058865d60a05fa),
                      0xeada7dd6cde0eb1e, 0xebee6267405ac2a9, 0xf57d4f7fee6ed178, 0xb01f21926108a4ab,
                      Regs(0x54ba35cf56a0340e, 0x46c4210ab2cc155d, 0xeeb9c21bb0102598, 0x5a806d7e9821a501,
                      0x1c66f46d95690bcf, 0x29fab5a7bff53366, 0x3b5fed0d6a1f96e1, 0xaa84b086688a5c45))
    ensures TwoRounds(Regs(0x54ba35cf56a0340e, 0x46c4210ab2cc155d, 0xeeb9c21bb0102598, 0x5a806d7e9821a501,
                      0x1c66f46d95690bcf, 0x29fab5a7bff53366, 0x3b5fed0d6a1f96e1, 0xaa84b086688a5c45),
                      0x06f067aa72176fba, 0x786433dd2fe65556, 0x0a637dc5a2c898a6, 0xc54a6eaa24a0552c,
                      Regs(0xfb6aaae5d0b6a447, 0x181839d609c79748, 0x54ba35cf56a0340e, 0x46c4210ab2cc155d,
                      0xe3711cb6564d112d, 0x0ada78ba2d446140, 0x1c66f46d95690bcf, 0x29fab5a7bff53366))
    ensures TwoRounds(Regs(0xfb6aaae5d0b6a447, 0x181839d609c79748, 0x54ba35cf56a0340e, 0x46c4210ab2cc155d,
                      0xe3711cb6564d112d, 0x0ada78ba2d446140, 0x1c66f46d95690bcf, 0x29fab5a7bff53366),
                      0x113f9804bef90dae, 0xb3c8f1530bdbaa9e, 0x1b710b35131c471b, 0xbb8abfe56f469338,
                      Regs(0xf15e9664b2803575, 0x7652c579cb60f19c, 0xfb6aaae5d0b6a447, 0x181839d609c79748,
                      0x947c3dfafee570ef, 0xaff62c9665ff80fa, 0xe3711cb6564d112d, 0x0ada78ba2d446140))
  {
  }

  lemma Rounds72()
    ensures TwoRounds(Regs(0xf15e9664b2803575, 0x7652c579cb60f19c, 0xfb6aaae5d0b6a447, 0x181839d609c79748,
                      0x947c3dfafee570ef, 0xaff62c9665ff80fa, 0xe3711cb6564d112d, 0x0ada78ba2d446140),
                      0x28db77f523047d84, 0xf63d4265cc1c5a78, 0x32caab7b40c72493, 0xbe8355ea73129afb,
                      Regs(0x20878dcd29cdfaf5, 0x358406d165aee9ab, 0xf15e9664b2803575, 0x7652c579cb60f19c,
                      0x054d3536539948d0, 0x8c7b5fd91a794ca0, 0x947c3dfafee570ef, 0xaff62c9665ff80fa))
    ensures TwoRounds(Regs(0x20878dcd29cdfaf5, 0x358406d165aee9ab, 0xf15e9664b2803575, 0x7652c579cb60f19c,
                      0x054d3536539948d0, 0x8c7b5fd91a794ca0, 0x947c3dfafee570ef, 0xaff62c9665ff80fa),
                      0x3c9ebe0a15c9bebc, 0x49e2db8ebdcfbeb5, 0x431d67c49c100d4c, 0x82269d4a883a3d99,
                      Regs(0xc8960e6be864b916, 0x33d48dabb5521de2, 0x20878dcd29cdfaf5, 0x358406d165aee9ab,
                      0x995019a6ff3ba3de, 0x2ba18245b50de4cf, 0x054d3536539948d0, 0x8c7b5fd91a794ca0))
    ensures TwoRounds(Regs(0xc8960e6be864b916, 0x33d48dabb5521de2, 0x20878dcd29cdfaf5, 0x358406d165aee9ab,
                      0x995019a6ff3ba3de, 0x2ba18245b50de4cf, 0x054d3536539948d0, 0x8c7b5fd91a794ca0),
                      0x4cc5d4becb3e42b6, 0xfdf53df3011f362b, 0x597f299cfc657e2a, 0x464af5671d71c12e,
                      Regs(0xd67806db8b148677, 0x654ef9abec389ca9, 0xc8960e6be864b916, 0x33d48dabb5521de2,
                      0x25c96a7768fb2aa3, 0xceb9fc3691ce8326, 0x995019a6ff3ba3de, 0x2ba18245b50de4cf))
    ensures TwoRounds(Regs(0xd67806db8b148677, 0x654ef9abec389ca9, 0xc8960e6be864b916, 0x33d48dabb5521de2,
                      0x25c96a7768fb2aa3, 0xceb9fc3691ce8326, 0x995019a6ff3ba3de, 0x2ba18245b50de4cf),
                      0x5fcb6fab3ad6faec, 0xe449b68198ec611c, 0x6c44198c4a475817, 0x92aeeed1a7bcf7d2,
                      Regs(0x73a54f399fa4b1b2, 0x10d9c4c4295599f6, 0xd67806db8b148677, 0x654ef9abec389ca9,
                      0xd08446aa79693ed7, 0x9bb4d39778c07f9e, 0x25c96a7768fb2aa3, 0xceb9fc3691ce8326))
  {
  }

  lemma Keys0()
    ensures Constant(0) == 0x428a2f98d728ae22 && Constant(1) == 0x7137449123ef65cd
    ensures Constant(2) == 0xb5c0fbcfec4d3b2f
    ensures Constant(3) == 0xe9b5dba58189dbbc && Constant(4) == 0x3956c25bf348b538
    ensures Constant(5) == 0x59f111f1b605d019
    ensures Constant(6) == 0x923f82a4af194f9b && Constant(7) == 0xab1c5ed5da6d8118
    ensures Constant(8) == 0xd807aa98a3030242
    ensures Constant(9) == 0x12835b0145706fbe && Constant(10) == 0x243185be4ee4b28c
    ensures Constant(11) == 0x550c7dc3d5ffb4e2
    ensures Constant(12) == 0x72be5d74f27b896f && Constant(13) == 0x80deb1fe3b1696b1
    ensures Constant(14) == 0x9bdc06a725c71235
    ensures Constant(15) == 0xc19bf174cf692694
  {
  }

  lemma Keys16()
    ensures Constant(16) == 0xe49b69c19ef14ad2 && Constant(17) == 0xefbe4786384f25e3
    ensures Constant(18) == 0x0fc19dc68b8cd5b5
    ensures Constant(19) == 0x240ca1cc77ac9c65 && Constant(20) == 0x2de92c6f592b0275
    ensures Constant(21) == 0x4a7484aa6ea6e483
    ensures Constant(22) == 0x5cb0a9dcbd41fbd4 && Constant(23) == 0x76f988da831153b5
    ensures Constant(24) == 0x983e5152ee66dfab
    ensures Constant(25) == 0xa831c66d2db43210 && Constant(26) == 0xb00327c898fb213f
    ensures Constant(27) == 0xbf597fc7beef0ee4
    ensures Constant(28) == 0xc6e00bf33da88fc2 && Constant(29) == 0xd5a79147930aa725
    ensures Constant(30) == 0x06ca6351e003826f
    ensures Constant(31) == 0x142929670a0e6e70
  {
  }

  lemma Keys32()
    ensures Constant(32) == 0x27b70a8546d22ffc && Constant(33) == 0x2e1b21385c26c926
    ensures Constant(34) == 0x4d2c6dfc5ac42aed
    ensures Constant(35) == 0x53380d139d95b3df && Constant(36) == 0x650a73548baf63de
    ensures Constant(37) == 0x766a0abb3c77b2a8
    ensures Constant(38) == 0x81c2c92e47edaee6 && Constant(39) == 0x92722c851482353b
    ensures Constant(40) == 0xa2bfe8a14cf10364
    ensures Constant(41) == 0xa81a664bbc423001 && Constant(42) == 0xc24b8b70d0f89791
    ensures Constant(43) == 0xc76c51a30654be30
    ensures Constant(44) == 0xd192e819d6ef5218 && Constant(45) == 0xd69906245565a910
    ensures Constant(46) == 0xf40e35855771202a
    ensures Constant(47) == 0x106aa07032bbd1b8
  {
  }

  lemma Keys48()
    ensures Constant(48) == 0x19a4c116b8d2d0c8 && Constant(49) == 0x1e376c085141ab53
    ensures Constant(50) == 0x2748774cdf8eeb99
    ensures Constant(51) == 0x34b0bcb5e19b48a8 && Constant(52) == 0x391c0cb3c5c95a63
    ensures Constant(53) == 0x4ed8aa4ae3418acb
    ensures Constant(54) == 0x5b9cca4f7763e373 && Constant(55) == 0x682e6ff3d6b2b8a3
    ensures Constant(56) == 0x748f82ee5defb2fc
    ensures Constant(57) == 0x78a5636f43172f60 && Constant(58) == 0x84c87814a1f0ab72
    ensures Constant(59) == 0x8cc702081a6439ec
    ensures Constant(60) == 0x90befffa23631e28 && Constant(61) == 0xa4506cebde82bde9
    ensures Constant(62) == 0xbef9a3f7b2c67915
    ensures Constant(63) == 0xc67178f2e372532b
  {
  }

  lemma Keys64()
    ensures Constant(64) == 0xca273eceea26619c && Constant(65) == 0xd186b8c721c0c207
    ensures Constant(66) == 0xeada7dd6cde0eb1e
    ensures Constant(67) == 0xf57d4f7fee6ed178 && Constant(68) == 0x06f067aa72176fba
    ensures Constant(69) == 0x0a637dc5a2c898a6
    ensures Constant(70) == 0x113f9804bef90dae && Constant(71) == 0x1b710b35131c471b
    ensures Constant(72) == 0x28db77f523047d84
    ensures Constant(73) == 0x32caab7b40c72493 && Constant(74) == 0x3c9ebe0a15c9bebc
    ensures Constant(75) == 0x431d67c49c100d4c
    ensures Constant(76) == 0x4cc5d4becb3e42b6 && Constant(77) == 0x597f299cfc657e2a
    ensures Constant(78) == 0x5fcb6fab3ad6faec
    ensures Constant(79) == 0x6c44198c4a475817
  {
  }

  lemma After16(w: seq<bv64>)
    requires |w| == 80 && Words0(w)
    requires Rounds(INITIAL, K, w, 0) == Regs(0x6a09e667f3bcc908, 0xbb67ae8584caa73b, 0x3c6ef372fe94f82b,
                 0xa54ff53a5f1d36f1, 0x510e527fade682d1, 0x9b05688c2b3e6c1f, 0x1f83d9abfb41bd6b, 0x5be0cd19137e2179)
    ensures Rounds(INITIAL, K, w, 16) == Regs(0x0ae07c86b1181c75, 0xfa967eed85a08028, 0x44249631255d2ca0,
                 0x5e41214388186c14, 0xa77b7c035dd4c161, 0x874bfe5f6aae9f2f, 0x860acf9effba6f61, 0xcdf3bff2883fc9d9)
  {
    hide Round, Rounds, Constant;
    Keys0();
    Rounds0();
    Rounds8();
    NextRound(w, 0); NextRound(w, 1); NextRound(w, 2); NextRound(w, 3);
    NextRound(w, 4); NextRound(w, 5); NextRound(w, 6); NextRound(w, 7);
    NextRound(w, 8); NextRound(w, 9); NextRound(w, 10); NextRound(w, 11);
    NextRound(w, 12); NextRound(w, 13); NextRound(w, 14); NextRound(w, 15);
  }

  lemma After32(w: seq<bv64>)
    requires |w| == 80 && Words16(w)
    requires Rounds(INITIAL, K, w, 16) == Regs(0x0ae07c86b1181c75, 0xfa967eed85a08028, 0x44249631255d2ca0,
                 0x5e41214388186c14, 0xa77b7c035dd4c161, 0x874bfe5f6aae9f2f, 0x860acf9effba6f61, 0xcdf3bff2883fc9d9)
    ensures Rounds(INITIAL, K, w, 32) == Regs(0xff4d3f1f0d46a736, 0x4c4fbbb75f1873a6, 0x74bf40f869094c63,
                 0xe62349090f47d30a, 0x3cd388e119e8162e, 0x73e025d91b9efea3, 0xf0aec2fe1437f085, 0x0fcdf99710f21584)
  {
    hide Round, Rounds, Constant;
    Keys16();
    Rounds16();
    Rounds24();
    NextRound(w, 16); NextRound(w, 17); NextRound(w, 18); NextRound(w, 19);
    NextRound(w, 20); NextRound(w, 21); NextRound(w, 22); NextRound(w, 23);
    NextRound(w, 24); NextRound(w, 25); NextRound(w, 26); NextRound(w, 27);
    NextRound(w, 28); NextRound(w, 29); NextRound(w, 30); NextRound(w, 31);
  }

  lemma After48(w: seq<bv64>)
    requires |w| == 80 && Words32(w)
    requires Rounds(INITIAL, K, w, 32) == Regs(0xff4d3f1f0d46a736, 0x4c4fbbb75f1873a6, 0x74bf40f869094c63,
                 0xe62349090f47d30a, 0x3cd388e119e8162e, 0x73e025d91b9efea3, 0xf0aec2fe1437f085, 0x0fcdf99710f21584)
    ensures Rounds(INITIAL, K, w, 48) == Regs(0x6b69fc1bb482feac, 0xf61e672694de2d67, 0x021fbadbabab5ac6,
                 0xc47c9d5c7ea8a234, 0x35264334c03ac8ad, 0xc6bc35740d8daa9a, 0xe95c2a57572d64d9, 0x858d832ae0e8911c)
  {
    hide Round, Rounds, Constant;
    Keys32();
    Rounds32();
    Rounds40();
    NextRound(w, 32); NextRound(w, 33); NextRound(w, 34); NextRound(w, 35);
    NextRound(w, 36); NextRound(w, 37); NextRound(w, 38); NextRound(w, 39);
    NextRound(w, 40); NextRound(w, 41); NextRound(w, 42); NextRound(w, 43);
    NextRound(w, 44); NextRound(w, 45); NextRound(w, 46); NextRound(w, 47);
  }

  lemma After64(w: seq<bv64>)
    requires |w| == 80 && Words48(w)
    requires Rounds(INITIAL, K, w, 48) == Regs(0x6b69fc1bb482feac, 0xf61e672694de2d67, 0x021fbadbabab5ac6,
                 0xc47c9d5c7ea8a234, 0x35264334c03ac8ad, 0xc6bc35740d8daa9a, 0xe95c2a57572d64d9, 0x858d832ae0e8911c)
    ensures Rounds(INITIAL, K, w, 64) == Regs(0xab44e86276478d85, 0xa81dedbb9f19e643, 0xcfcd928c5424e2b6,
                 0x3857dfd2fc37d3ba, 0xcd881ee59ca6bc53, 0x84058865d60a05fa, 0x09aee5bda1644de5, 0xa6af4e9c9f807e51)
  {
    hide Round, Rounds, Constant;
    Keys48();
    Rounds48();
    Rounds56();
    NextRound(w, 48); NextRound(w, 49); NextRound(w, 50); NextRound(w, 51);
    NextRound(w, 52); NextRound(w, 53); NextRound(w, 54); NextRound(w, 55);
    NextRound(w, 56); NextRound(w, 57); NextRound(w, 58); NextRound(w, 59);
    NextRound(w, 60); NextRound(w, 61); NextRound(w, 62); NextRound(w, 63);
  }

  lemma After80(w: seq<bv64>)
    requires |w| == 80 && Words64(w)
    requires Rounds(INITIAL, K, w, 64) == Regs(0xab44e86276478d85, 0xa81dedbb9f19e643, 0xcfcd928c5424e2b6,
                 0x3857dfd2fc37d3ba, 0xcd881ee59ca6bc53, 0x84058865d60a05fa, 0x09aee5bda1644de5, 0xa6af4e9c9f807e51)
    ensures Rounds(INITIAL, K, w, 80) == Regs(0x73a54f399fa4b1b2, 0x10d9c4c4295599f6, 0xd67806db8b148677,
                 0x654ef9abec389ca9, 0xd08446aa79693ed7, 0x9bb4d39778c07f9e, 0x25c96a7768fb2aa3, 0xceb9fc3691ce8326)
  {
    hide Round, Rounds, Constant;
    Keys64();
    Rounds64();
    Rounds72();
    NextRound(w, 64); NextRound(w, 65); NextRound(w, 66); NextRound(w, 67);
    NextRound(w, 68); NextRound(w, 69); NextRound(w, 70); NextRound(w, 71);
    NextRound(w, 72); NextRound(w, 73); NextRound(w, 74); NextRound(w, 75);
    NextRound(w, 76); NextRound(w, 77); NextRound(w, 78); NextRound(w, 79);
  }

  lemma NextRound(w: seq<bv64>, t: nat)
    requires t < 80 == |w|
    ensures Rounds(INITIAL, K, w, t + 1) == Round(Rounds(INITIAL, K, w, t), Constant(t), w[t])
  {
    hide Round, Constant;
  }

  // ------------------------------------------------ the message

  /** The only block: the message, the mark, zeros and a length of 24 bits. */
  ghost predicate OnlyBlock(p: seq<bv8>) {
    && |p| == 128 && p[0] == 0x61 && p[1] == 0x62 && p[2] == 0x63 && p[3] == 0x80 && p[127] == 24
    && forall i :: 4 <= i < 127 ==> p[i] == 0
  }

  /** The schedule only grows at its end. */
  lemma {:induction false} SchedulePrefix(block: seq<bv8>, t: nat, n: nat)
    requires |block| == 128 && t <= n
    ensures Schedule(block, n)[..t] == Schedule(block, t)
    decreases n
  {
    hide Plus, Gamma0, Gamma1, Load;
    if t < n {
      SchedulePrefix(block, t, n - 1);
    }
  }

  lemma WordAt(p: seq<bv8>, t: nat)
    requires OnlyBlock(p) && t < 80
    ensures t < 16 ==> Schedule(p, 80)[t] == Load(p, t)
    ensures t >= 16 ==> Grows(Schedule(p, 80), t)
  {
    hide Plus, Gamma0, Gamma1, Load;
    SchedulePrefix(p, t, 80);
    SchedulePrefix(p, t + 1, 80);
    ScheduleStep(p, t);
    assert Schedule(p, 80)[..t + 1][t] == Schedule(p, 80)[t];
    forall u | 0 <= u < t ensures Schedule(p, 80)[u] == Schedule(p, t)[u] {
      assert Schedule(p, 80)[..t][u] == Schedule(p, 80)[u];
    }
  }

  lemma LoadAbc(p: seq<bv8>, t: nat)
    requires OnlyBlock(p) && t < 16
    ensures Load(p, t) == if t == 0 then 0x6162638000000000 else if t == 15 then 24 else 0
  {
  }

  lemma FirstWords(p: seq<bv8>)
    requires OnlyBlock(p)
    ensures Scheduled(Schedule(p, 80)) && Words0(Schedule(p, 80))
  {
    hide Schedule, Load, Grows;
    forall t | 0 <= t < 80
      ensures t >= 16 ==> Grows(Schedule(p, 80), t)
      ensures t < 16 ==> Schedule(p, 80)[t] == if t == 0 then 0x6162638000000000 else if t == 15 then 24 else 0
    {
      WordAt(p, t);
      if t < 16 {
        LoadAbc(p, t);
      }
    }
  }

  lemma Feedback()
    ensures Plus(0x6a09e667f3bcc908, 0x73a54f399fa4b1b2) == 0xddaf35a193617aba
    ensures Plus(0xbb67ae8584caa73b, 0x10d9c4c4295599f6) == 0xcc417349ae204131
    ensures Plus(0x3c6ef372fe94f82b, 0xd67806db8b148677) == 0x12e6fa4e89a97ea2
    ensures Plus(0xa54ff53a5f1d36f1, 0x654ef9abec389ca9) == 0x0a9eeee64b55d39a
    ensures Plus(0x510e527fade682d1, 0xd08446aa79693ed7) == 0x2192992a274fc1a8
    ensures Plus(0x9b05688c2b3e6c1f, 0x9bb4d39778c07f9e) == 0x36ba3c23a3feebbd
    ensures Plus(0x1f83d9abfb41bd6b, 0x25c96a7768fb2aa3) == 0x454d4423643ce80e
    ensures Plus(0x5be0cd19137e2179, 0xceb9fc3691ce8326) == 0x2a9ac94fa54ca49f
  {
  }

  /** The chaining value after the only block. */
  lemma Compressed(p: seq<bv8>)
    requires OnlyBlock(p)
    ensures Compress(K, INITIAL, p) == Regs(0xddaf35a193617aba, 0xcc417349ae204131, 0x12e6fa4e89a97ea2,
                 0x0a9eeee64b55d39a, 0x2192992a274fc1a8, 0x36ba3c23a3feebbd, 0x454d4423643ce80e, 0x2a9ac94fa54ca49f)
  {
    hide Schedule, Rounds, Plus;
    var w := Schedule(p, 80);
    FirstWords(p);
    Expansion16(w);
    Expansion32(w);
    Expansion48(w);
    Expansion64(w);
    NoRounds(w);
    After16(w);
    After32(w);
    After48(w);
    After64(w);
    After80(w);
    Feedback();
  }

  lemma NoRounds(w: seq<bv64>)
    requires |w| == 80
    ensures Rounds(INITIAL, K, w, 0) == INITIAL
  {
  }

  /** The published bytes. */
  lemma Stored()
    ensures Store(Regs(0xddaf35a193617aba, 0xcc417349ae204131, 0x12e6fa4e89a97ea2, 0x0a9eeee64b55d39a,
                      0x2192992a274fc1a8, 0x36ba3c23a3feebbd, 0x454d4423643ce80e, 0x2a9ac94fa54ca49f))
         == [0xdd, 0xaf, 0x35, 0xa1, 0x93, 0x61, 0x7a, 0xba]
          + [0xcc, 0x41, 0x73, 0x49, 0xae, 0x20, 0x41, 0x31]
          + [0x12, 0xe6, 0xfa, 0x4e, 0x89, 0xa9, 0x7e, 0xa2]
          + [0x0a, 0x9e, 0xee, 0xe6, 0x4b, 0x55, 0xd3, 0x9a]
          + [0x21, 0x92, 0x99, 0x2a, 0x27, 0x4f, 0xc1, 0xa8]
          + [0x36, 0xba, 0x3c, 0x23, 0xa3, 0xfe, 0xeb, 0xbd]
          + [0x45, 0x4d, 0x44, 0x23, 0x64, 0x3c, 0xe8, 0x0e]
          + [0x2a, 0x9a, 0xc9, 0x4f, 0xa5, 0x4c, 0xa4, 0x9f]
  {
    hide Bytes;
    StoredWords();
  }

  lemma StoredWords()
    ensures Bytes(0xddaf35a193617aba) == [0xdd, 0xaf, 0x35, 0xa1, 0x93, 0x61, 0x7a, 0xba]
    ensures Bytes(0xcc417349ae204131) == [0xcc, 0x41, 0x73, 0x49, 0xae, 0x20, 0x41, 0x31]
    ensures Bytes(0x12e6fa4e89a97ea2) == [0x12, 0xe6, 0xfa, 0x4e, 0x89, 0xa9, 0x7e, 0xa2]
    ensures Bytes(0x0a9eeee64b55d39a) == [0x0a, 0x9e, 0xee, 0xe6, 0x4b, 0x55, 0xd3, 0x9a]
    ensures Bytes(0x2192992a274fc1a8) == [0x21, 0x92, 0x99, 0x2a, 0x27, 0x4f, 0xc1, 0xa8]
    ensures Bytes(0x36ba3c23a3feebbd) == [0x36, 0xba, 0x3c, 0x23, 0xa3, 0xfe, 0xeb, 0xbd]
    ensures Bytes(0x454d4423643ce80e) == [0x45, 0x4d, 0x44, 0x23, 0x64, 0x3c, 0xe8, 0x0e]
    ensures Bytes(0x2a9ac94fa54ca49f) == [0x2a, 0x9a, 0xc9, 0x4f, 0xa5, 0x4c, 0xa4, 0x9f]
  {
  }
}

// SHA-256 against what section 4, section 5.3.2 and appendix B.1 of FIPS 180-2 say of it: the functions
// bit by bit, the constants as roots of primes, and the digest of "abc".
module Sha256Vectors {
  import opened Sha256Spec

  // ---------------------------------------------------------------------------------------
  // The functions

  // Bit i of a word, counted from the least significant one.
  predicate Bit(x: bv32, i: nat) {
    if i == 0 then x & 1 == 1 else Bit(x >> 1, i - 1)
  }

  lemma ChooseShifts(x: bv32, y: bv32, z: bv32)
    ensures Ch(x, y, z) >> 1 == Ch(x >> 1, y >> 1, z >> 1)
  {
  }

  lemma ChooseFirst(x: bv32, y: bv32, z: bv32)
    ensures Bit(Ch(x, y, z), 0) == if Bit(x, 0) then Bit(y, 0) else Bit(z, 0)
  {
  }

  // Ch chooses between y and z.
  lemma {:induction false} ChooseBit(x: bv32, y: bv32, z: bv32, i: nat)
    ensures Bit(Ch(x, y, z), i) == if Bit(x, i) then Bit(y, i) else Bit(z, i)
  {
    hide Ch;
    if i == 0 {
      ChooseFirst(x, y, z);
    } else {
      ChooseShifts(x, y, z);
      ChooseBit(x >> 1, y >> 1, z >> 1, i - 1);
    }
  }

  lemma MajorityShifts(x: bv32, y: bv32, z: bv32)
    ensures Maj(x, y, z) >> 1 == Maj(x >> 1, y >> 1, z >> 1)
  {
  }

  lemma MajorityFirst(x: bv32, y: bv32, z: bv32)
    ensures Bit(x, 0) == Bit(y, 0) ==> Bit(Maj(x, y, z), 0) == Bit(x, 0)
    ensures Bit(x, 0) != Bit(y, 0) ==> Bit(Maj(x, y, z), 0) == Bit(z, 0)
  {
  }

  // Maj is what two of them agree on.
  lemma {:induction false} MajorityBit(x: bv32, y: bv32, z: bv32, i: nat)
    ensures Bit(Maj(x, y, z), i) == if Bit(x, i) == Bit(y, i) then Bit(x, i) else Bit(z, i)
  {
    hide Maj;
    if i == 0 {
      MajorityFirst(x, y, z);
    } else {
      MajorityShifts(x, y, z);
      MajorityBit(x >> 1, y >> 1, z >> 1, i - 1);
    }
  }

  lemma SumsOfRotations(x: bv32)
    ensures Sigma0(x) == x.RotateRight(2) ^ x.RotateRight(13) ^ x.RotateRight(22)
    ensures Sigma1(x) == x.RotateRight(6) ^ x.RotateRight(11) ^ x.RotateRight(25)
    ensures SmallSigma0(x) == x.RotateRight(7) ^ x.RotateRight(18) ^ (x >> 3)
    ensures SmallSigma1(x) == x.RotateRight(17) ^ x.RotateRight(19) ^ (x >> 10)
  {
  }

  // ---------------------------------------------------------------------------------------
  // The constants

  // The first 32 bits of the fraction of the cube root and of the square root of p.
  ghost predicate IsCubeRoot(p: nat, k: bv32) {
    exists n: nat :: CubeRootIs(p, k, n)
  }

  predicate CubeRootIs(p: nat, k: bv32, n: nat) {
    n * n * n <= p * 0x1_0000_0000_0000_0000_0000_0000 < (n + 1) * (n + 1) * (n + 1) && n % 0x1_0000_0000 == k as nat
  }

  ghost predicate IsSquareRoot(p: nat, k: bv32) {
    exists n: nat :: SquareRootIs(p, k, n)
  }

  predicate SquareRootIs(p: nat, k: bv32, n: nat) {
    n * n <= p * 0x1_0000_0000_0000_0000 < (n + 1) * (n + 1) && n % 0x1_0000_0000 == k as nat
  }

  lemma CubeRoot(p: nat, t: nat, k: bv32, n: nat)
    requires t < 64 && KAt(t) == k && CubeRootIs(p, k, n)
    ensures IsCubeRoot(p, KAt(t))
  {
  }

  lemma SquareRoot(p: nat, i: nat, k: bv32, n: nat)
    requires i < 8 && InitialState[i] == k && SquareRootIs(p, k, n)
    ensures IsSquareRoot(p, InitialState[i])
  {
  }

  lemma CubeRoots0()
    ensures IsCubeRoot(2, KAt(0)) && IsCubeRoot(3, KAt(1))
    ensures IsCubeRoot(5, KAt(2)) && IsCubeRoot(7, KAt(3))
    ensures IsCubeRoot(11, KAt(4)) && IsCubeRoot(13, KAt(5))
    ensures IsCubeRoot(17, KAt(6)) && IsCubeRoot(19, KAt(7))
  {
    hide IsCubeRoot;
    CubeRoot(2, 0, 0x428a_2f98, 0x1428a2f98);
    CubeRoot(3, 1, 0x7137_4491, 0x171374491);
    CubeRoot(5, 2, 0xb5c0_fbcf, 0x1b5c0fbcf);
    CubeRoot(7, 3, 0xe9b5_dba5, 0x1e9b5dba5);
    CubeRoot(11, 4, 0x3956_c25b, 0x23956c25b);
    CubeRoot(13, 5, 0x59f1_11f1, 0x259f111f1);
    CubeRoot(17, 6, 0x923f_82a4, 0x2923f82a4);
    CubeRoot(19, 7, 0xab1c_5ed5, 0x2ab1c5ed5);
  }

  lemma CubeRoots1()
    ensures IsCubeRoot(23, KAt(8)) && IsCubeRoot(29, KAt(9))
    ensures IsCubeRoot(31, KAt(10)) && IsCubeRoot(37, KAt(11))
    ensures IsCubeRoot(41, KAt(12)) && IsCubeRoot(43, KAt(13))
    ensures IsCubeRoot(47, KAt(14)) && IsCubeRoot(53, KAt(15))
  {
    hide IsCubeRoot;
    CubeRoot(23, 8, 0xd807_aa98, 0x2d807aa98);
    CubeRoot(29, 9, 0x1283_5b01, 0x312835b01);
    CubeRoot(31, 10, 0x2431_85be, 0x3243185be);
    CubeRoot(37, 11, 0x550c_7dc3, 0x3550c7dc3);
    CubeRoot(41, 12, 0x72be_5d74, 0x372be5d74);
    CubeRoot(43, 13, 0x80de_b1fe, 0x380deb1fe);
    CubeRoot(47, 14, 0x9bdc_06a7, 0x39bdc06a7);
    CubeRoot(53, 15, 0xc19b_f174, 0x3c19bf174);
  }

  lemma CubeRoots2()
    ensures IsCubeRoot(59, KAt(16)) && IsCubeRoot(61, KAt(17))
    ensures IsCubeRoot(67, KAt(18)) && IsCubeRoot(71, KAt(19))
    ensures IsCubeRoot(73, KAt(20)) && IsCubeRoot(79, KAt(21))
    ensures IsCubeRoot(83, KAt(22)) && IsCubeRoot(89, KAt(23))
  {
    hide IsCubeRoot;
    CubeRoot(59, 16, 0xe49b_69c1, 0x3e49b69c1);
    CubeRoot(61, 17, 0xefbe_4786, 0x3efbe4786);
    CubeRoot(67, 18, 0x0fc1_9dc6, 0x40fc19dc6);
    CubeRoot(71, 19, 0x240c_a1cc, 0x4240ca1cc);
    CubeRoot(73, 20, 0x2de9_2c6f, 0x42de92c6f);
    CubeRoot(79, 21, 0x4a74_84aa, 0x44a7484aa);
    CubeRoot(83, 22, 0x5cb0_a9dc, 0x45cb0a9dc);
    CubeRoot(89, 23, 0x76f9_88da, 0x476f988da);
  }

  lemma CubeRoots3()
    ensures IsCubeRoot(97, KAt(24)) && IsCubeRoot(101, KAt(25))
    ensures IsCubeRoot(103, KAt(26)) && IsCubeRoot(107, KAt(27))
    ensures IsCubeRoot(109, KAt(28)) && IsCubeRoot(113, KAt(29))
    ensures IsCubeRoot(127, KAt(30)) && IsCubeRoot(131, KAt(31))
  {
    hide IsCubeRoot;
    CubeRoot(97, 24, 0x983e_5152, 0x4983e5152);
    CubeRoot(101, 25, 0xa831_c66d, 0x4a831c66d);
    CubeRoot(103, 26, 0xb003_27c8, 0x4b00327c8);
    CubeRoot(107, 27, 0xbf59_7fc7, 0x4bf597fc7);
    CubeRoot(109, 28, 0xc6e0_0bf3, 0x4c6e00bf3);
    CubeRoot(113, 29, 0xd5a7_9147, 0x4d5a79147);
    CubeRoot(127, 30, 0x06ca_6351, 0x506ca6351);
    CubeRoot(131, 31, 0x1429_2967, 0x514292967);
  }

  lemma CubeRoots4()
    ensures IsCubeRoot(137, KAt(32)) && IsCubeRoot(139, KAt(33))
    ensures IsCubeRoot(149, KAt(34)) && IsCubeRoot(151, KAt(35))
    ensures IsCubeRoot(157, KAt(36)) && IsCubeRoot(163, KAt(37))
    ensures IsCubeRoot(167, KAt(38)) && IsCubeRoot(173, KAt(39))
  {
    hide IsCubeRoot;
    CubeRoot(137, 32, 0x27b7_0a85, 0x527b70a85);
    CubeRoot(139, 33, 0x2e1b_2138, 0x52e1b2138);
    CubeRoot(149, 34, 0x4d2c_6dfc, 0x54d2c6dfc);
    CubeRoot(151, 35, 0x5338_0d13, 0x553380d13);
    CubeRoot(157, 36, 0x650a_7354, 0x5650a7354);
    CubeRoot(163, 37, 0x766a_0abb, 0x5766a0abb);
    CubeRoot(167, 38, 0x81c2_c92e, 0x581c2c92e);
    CubeRoot(173, 39, 0x9272_2c85, 0x592722c85);
  }

  lemma CubeRoots5()
    ensures IsCubeRoot(179, KAt(40)) && IsCubeRoot(181, KAt(41))
    ensures IsCubeRoot(191, KAt(42)) && IsCubeRoot(193, KAt(43))
    ensures IsCubeRoot(197, KAt(44)) && IsCubeRoot(199, KAt(45))
    ensures IsCubeRoot(211, KAt(46)) && IsCubeRoot(223, KAt(47))
  {
    hide IsCubeRoot;
    CubeRoot(179, 40, 0xa2bf_e8a1, 0x5a2bfe8a1);
    CubeRoot(181, 41, 0xa81a_664b, 0x5a81a664b);
    CubeRoot(191, 42, 0xc24b_8b70, 0x5c24b8b70);
    CubeRoot(193, 43, 0xc76c_51a3, 0x5c76c51a3);
    CubeRoot(197, 44, 0xd192_e819, 0x5d192e819);
    CubeRoot(199, 45, 0xd699_0624, 0x5d6990624);
    CubeRoot(211, 46, 0xf40e_3585, 0x5f40e3585);
    CubeRoot(223, 47, 0x106a_a070, 0x6106aa070);
  }

  lemma CubeRoots6()
    ensures IsCubeRoot(227, KAt(48)) && IsCubeRoot(229, KAt(49))
    ensures IsCubeRoot(233, KAt(50)) && IsCubeRoot(239, KAt(51))
    ensures IsCubeRoot(241, KAt(52)) && IsCubeRoot(251, KAt(53))
    ensures IsCubeRoot(257, KAt(54)) && IsCubeRoot(263, KAt(55))
  {
    hide IsCubeRoot;
    CubeRoot(227, 48, 0x19a4_c116, 0x619a4c116);
    CubeRoot(229, 49, 0x1e37_6c08, 0x61e376c08);
    CubeRoot(233, 50, 0x2748_774c, 0x62748774c);
    CubeRoot(239, 51, 0x34b0_bcb5, 0x634b0bcb5);
    CubeRoot(241, 52, 0x391c_0cb3, 0x6391c0cb3);
    CubeRoot(251, 53, 0x4ed8_aa4a, 0x64ed8aa4a);
    CubeRoot(257, 54, 0x5b9c_ca4f, 0x65b9cca4f);
    CubeRoot(263, 55, 0x682e_6ff3, 0x6682e6ff3);
  }

  lemma CubeRoots7()
    ensures IsCubeRoot(269, KAt(56)) && IsCubeRoot(271, KAt(57))
    ensures IsCubeRoot(277, KAt(58)) && IsCubeRoot(281, KAt(59))
    ensures IsCubeRoot(283, KAt(60)) && IsCubeRoot(293, KAt(61))
    ensures IsCubeRoot(307, KAt(62)) && IsCubeRoot(311, KAt(63))
  {
    hide IsCubeRoot;
    CubeRoot(269, 56, 0x748f_82ee, 0x6748f82ee);
    CubeRoot(271, 57, 0x78a5_636f, 0x678a5636f);
    CubeRoot(277, 58, 0x84c8_7814, 0x684c87814);
    CubeRoot(281, 59, 0x8cc7_0208, 0x68cc70208);
    CubeRoot(283, 60, 0x90be_fffa, 0x690befffa);
    CubeRoot(293, 61, 0xa450_6ceb, 0x6a4506ceb);
    CubeRoot(307, 62, 0xbef9_a3f7, 0x6bef9a3f7);
    CubeRoot(311, 63, 0xc671_78f2, 0x6c67178f2);
  }

  lemma SquareRoots()
    ensures IsSquareRoot(2, InitialState[0]) && IsSquareRoot(3, InitialState[1])
    ensures IsSquareRoot(5, InitialState[2]) && IsSquareRoot(7, InitialState[3])
    ensures IsSquareRoot(11, InitialState[4]) && IsSquareRoot(13, InitialState[5])
    ensures IsSquareRoot(17, InitialState[6]) && IsSquareRoot(19, InitialState[7])
  {
    SquareRoot(2, 0, 0x6a09_e667, 0x16a09e667);
    SquareRoot(3, 1, 0xbb67_ae85, 0x1bb67ae85);
    SquareRoot(5, 2, 0x3c6e_f372, 0x23c6ef372);
    SquareRoot(7, 3, 0xa54f_f53a, 0x2a54ff53a);
    SquareRoot(11, 4, 0x510e_527f, 0x3510e527f);
    SquareRoot(13, 5, 0x9b05_688c, 0x39b05688c);
    SquareRoot(17, 6, 0x1f83_d9ab, 0x41f83d9ab);
    SquareRoot(19, 7, 0x5be0_cd19, 0x45be0cd19);
  }

  // ---------------------------------------------------------------------------------------
  // The digest of "abc"

  // Sixteen words of the schedule.
  predicate Words(b: WordBlock, t: nat, w0: bv32, w1: bv32, w2: bv32, w3: bv32, w4: bv32, w5: bv32, w6: bv32, w7: bv32,
                  w8: bv32, w9: bv32, w10: bv32, w11: bv32, w12: bv32, w13: bv32, w14: bv32, w15: bv32)
  {
    && Schedule(b, t) == w0 && Schedule(b, t + 1) == w1 && Schedule(b, t + 2) == w2 && Schedule(b, t + 3) == w3
    && Schedule(b, t + 4) == w4 && Schedule(b, t + 5) == w5 && Schedule(b, t + 6) == w6 && Schedule(b, t + 7) == w7
    && Schedule(b, t + 8) == w8 && Schedule(b, t + 9) == w9 && Schedule(b, t + 10) == w10 && Schedule(b, t + 11) == w11
    && Schedule(b, t + 12) == w12 && Schedule(b, t + 13) == w13 && Schedule(b, t + 14) == w14 && Schedule(b, t + 15) == w15
  }

  function Next(w2: bv32, w7: bv32, w15: bv32, w16: bv32): bv32 {
    Plus(Plus(Plus(SmallSigma1(w2), w7), SmallSigma0(w15)), w16)
  }

  lemma NextIs(b: WordBlock, t: nat)
    requires t >= 16
    ensures Schedule(b, t) == Next(Schedule(b, t - 2), Schedule(b, t - 7), Schedule(b, t - 15), Schedule(b, t - 16))
  {
    hide Plus, SmallSigma0, SmallSigma1;
  }

  lemma NextWord(b: WordBlock, t: nat, w2: bv32, w7: bv32, w15: bv32, w16: bv32, w: bv32)
    requires t >= 16 && Next(w2, w7, w15, w16) == w
    requires Schedule(b, t - 2) == w2 && Schedule(b, t - 7) == w7 && Schedule(b, t - 15) == w15 && Schedule(b, t - 16) == w16
    ensures Schedule(b, t) == w
  {
    hide Schedule, Next;
    NextIs(b, t);
  }

  lemma Words16(b: WordBlock)
    requires Words(b, 0, 0x6162_6380, 0x0000_0000, 0x0000_0000, 0x0000_0000, 0x0000_0000, 0x0000_0000, 0x0000_0000, 0x0000_0000,
                  0x0000_0000, 0x0000_0000, 0x0000_0000, 0x0000_0000, 0x0000_0000, 0x0000_0000, 0x0000_0000, 0x0000_0018)
    ensures Words(b, 16, 0x6162_6380, 0x000f_0000, 0x7da8_6405, 0x6000_03c6, 0x3e9d_7b78, 0x0183_fc00, 0x12dc_bfdb, 0xe2e2_c38e,
                  0xc821_5c1a, 0xb736_79a2, 0xe5bc_3909, 0x3266_3c5b, 0x9d20_9d67, 0xec87_26cb, 0x7021_38a4, 0xd3b7_973b)
  {
    hide Schedule;
    NextWord(b, 16, 0x0000_0000, 0x0000_0000, 0x0000_0000, 0x6162_6380, 0x6162_6380);
    NextWord(b, 17, 0x0000_0018, 0x0000_0000, 0x0000_0000, 0x0000_0000, 0x000f_0000);
    NextWord(b, 18, 0x6162_6380, 0x0000_0000, 0x0000_0000, 0x0000_0000, 0x7da8_6405);
    NextWord(b, 19, 0x000f_0000, 0x0000_0000, 0x0000_0000, 0x0000_0000, 0x6000_03c6);
    NextWord(b, 20, 0x7da8_6405, 0x0000_0000, 0x0000_0000, 0x0000_0000, 0x3e9d_7b78);
    NextWord(b, 21, 0x6000_03c6, 0x0000_0000, 0x0000_0000, 0x0000_0000, 0x0183_fc00);
    NextWord(b, 22, 0x3e9d_7b78, 0x0000_0018, 0x0000_0000, 0x0000_0000, 0x12dc_bfdb);
    NextWord(b, 23, 0x0183_fc00, 0x6162_6380, 0x0000_0000, 0x0000_0000, 0xe2e2_c38e);
    NextWord(b, 24, 0x12dc_bfdb, 0x000f_0000, 0x0000_0000, 0x0000_0000, 0xc821_5c1a);
    NextWord(b, 25, 0xe2e2_c38e, 0x7da8_6405, 0x0000_0000, 0x0000_0000, 0xb736_79a2);
    NextWord(b, 26, 0xc821_5c1a, 0x6000_03c6, 0x0000_0000, 0x0000_0000, 0xe5bc_3909);
    NextWord(b, 27, 0xb736_79a2, 0x3e9d_7b78, 0x0000_0000, 0x0000_0000, 0x3266_3c5b);
    NextWord(b, 28, 0xe5bc_3909, 0x0183_fc00, 0x0000_0000, 0x0000_0000, 0x9d20_9d67);
    NextWord(b, 29, 0x3266_3c5b, 0x12dc_bfdb, 0x0000_0000, 0x0000_0000, 0xec87_26cb);
    NextWord(b, 30, 0x9d20_9d67, 0xe2e2_c38e, 0x0000_0018, 0x0000_0000, 0x7021_38a4);
    NextWord(b, 31, 0xec87_26cb, 0xc821_5c1a, 0x6162_6380, 0x0000_0018, 0xd3b7_973b);
  }

  lemma Words32(b: WordBlock)
    requires Words(b, 16, 0x6162_6380, 0x000f_0000, 0x7da8_6405, 0x6000_03c6, 0x3e9d_7b78, 0x0183_fc00, 0x12dc_bfdb, 0xe2e2_c38e,
                  0xc821_5c1a, 0xb736_79a2, 0xe5bc_3909, 0x3266_3c5b, 0x9d20_9d67, 0xec87_26cb, 0x7021_38a4, 0xd3b7_973b)
    ensures Words(b, 32, 0x93f5_997f, 0x3b68_ba73, 0xaff4_ffc1, 0xf10a_5c62, 0x0a8b_3996, 0x72af_830a, 0x9409_e33e, 0x2464_1522,
                  0x9f47_bf94, 0xf0a6_4f5a, 0x3e24_6a79, 0x2733_3ba3, 0x0c47_63f2, 0x840a_bf27, 0x7a29_0d5d, 0x065c_43da)
  {
    hide Schedule;
    NextWord(b, 32, 0x7021_38a4, 0xb736_79a2, 0x000f_0000, 0x6162_6380, 0x93f5_997f);
    NextWord(b, 33, 0xd3b7_973b, 0xe5bc_3909, 0x7da8_6405, 0x000f_0000, 0x3b68_ba73);
    NextWord(b, 34, 0x93f5_997f, 0x3266_3c5b, 0x6000_03c6, 0x7da8_6405, 0xaff4_ffc1);
    NextWord(b, 35, 0x3b68_ba73, 0x9d20_9d67, 0x3e9d_7b78, 0x6000_03c6, 0xf10a_5c62);
    NextWord(b, 36, 0xaff4_ffc1, 0xec87_26cb, 0x0183_fc00, 0x3e9d_7b78, 0x0a8b_3996);
    NextWord(b, 37, 0xf10a_5c62, 0x7021_38a4, 0x12dc_bfdb, 0x0183_fc00, 0x72af_830a);
    NextWord(b, 38, 0x0a8b_3996, 0xd3b7_973b, 0xe2e2_c38e, 0x12dc_bfdb, 0x9409_e33e);
    NextWord(b, 39, 0x72af_830a, 0x93f5_997f, 0xc821_5c1a, 0xe2e2_c38e, 0x2464_1522);
    NextWord(b, 40, 0x9409_e33e, 0x3b68_ba73, 0xb736_79a2, 0xc821_5c1a, 0x9f47_bf94);
    NextWord(b, 41, 0x2464_1522, 0xaff4_ffc1, 0xe5bc_3909, 0xb736_79a2, 0xf0a6_4f5a);
    NextWord(b, 42, 0x9f47_bf94, 0xf10a_5c62, 0x3266_3c5b, 0xe5bc_3909, 0x3e24_6a79);
    NextWord(b, 43, 0xf0a6_4f5a, 0x0a8b_3996, 0x9d20_9d67, 0x3266_3c5b, 0x2733_3ba3);
    NextWord(b, 44, 0x3e24_6a79, 0x72af_830a, 0xec87_26cb, 0x9d20_9d67, 0x0c47_63f2);
    NextWord(b, 45, 0x2733_3ba3, 0x9409_e33e, 0x7021_38a4, 0xec87_26cb, 0x840a_bf27);
    NextWord(b, 46, 0x0c47_63f2, 0x2464_1522, 0xd3b7_973b, 0x7021_38a4, 0x7a29_0d5d);
    NextWord(b, 47, 0x840a_bf27, 0x9f47_bf94, 0x93f5_997f, 0xd3b7_973b, 0x065c_43da);
  }

  lemma Words48(b: WordBlock)
    requires Words(b, 32, 0x93f5_997f, 0x3b68_ba73, 0xaff4_ffc1, 0xf10a_5c62, 0x0a8b_3996, 0x72af_830a, 0x9409_e33e, 0x2464_1522,
                  0x9f47_bf94, 0xf0a6_4f5a, 0x3e24_6a79, 0x2733_3ba3, 0x0c47_63f2, 0x840a_bf27, 0x7a29_0d5d, 0x065c_43da)
    ensures Words(b, 48, 0xfb3e_89cb, 0xcc76_17db, 0xb9e6_6c34, 0xa999_3667, 0x84ba_dedd, 0xc214_62bc, 0x1487_472c, 0xb20f_7a99,
                  0xef57_b9cd, 0xebe6_b238, 0x9fe3_095e, 0x78bc_8d4b, 0xa43f_cf15, 0x668b_2ff8, 0xeeab_a2cc, 0x12b1_edeb)
  {
    hide Schedule;
    NextWord(b, 48, 0x7a29_0d5d, 0xf0a6_4f5a, 0x3b68_ba73, 0x93f5_997f, 0xfb3e_89cb);
    NextWord(b, 49, 0x065c_43da, 0x3e24_6a79, 0xaff4_ffc1, 0x3b68_ba73, 0xcc76_17db);
    NextWord(b, 50, 0xfb3e_89cb, 0x2733_3ba3, 0xf10a_5c62, 0xaff4_ffc1, 0xb9e6_6c34);
    NextWord(b, 51, 0xcc76_17db, 0x0c47_63f2, 0x0a8b_3996, 0xf10a_5c62, 0xa999_3667);
    NextWord(b, 52, 0xb9e6_6c34, 0x840a_bf27, 0x72af_830a, 0x0a8b_3996, 0x84ba_dedd);
    NextWord(b, 53, 0xa999_3667, 0x7a29_0d5d, 0x9409_e33e, 0x72af_830a, 0xc214_62bc);
    NextWord(b, 54, 0x84ba_dedd, 0x065c_43da, 0x2464_1522, 0x9409_e33e, 0x1487_472c);
    NextWord(b, 55, 0xc214_62bc, 0xfb3e_89cb, 0x9f47_bf94, 0x2464_1522, 0xb20f_7a99);
    NextWord(b, 56, 0x1487_472c, 0xcc76_17db, 0xf0a6_4f5a, 0x9f47_bf94, 0xef57_b9cd);
    NextWord(b, 57, 0xb20f_7a99, 0xb9e6_6c34, 0x3e24_6a79, 0xf0a6_4f5a, 0xebe6_b238);
    NextWord(b, 58, 0xef57_b9cd, 0xa999_3667, 0x2733_3ba3, 0x3e24_6a79, 0x9fe3_095e);
    NextWord(b, 59, 0xebe6_b238, 0x84ba_dedd, 0x0c47_63f2, 0x2733_3ba3, 0x78bc_8d4b);
    NextWord(b, 60, 0x9fe3_095e, 0xc214_62bc, 0x840a_bf27, 0x0c47_63f2, 0xa43f_cf15);
    NextWord(b, 61, 0x78bc_8d4b, 0x1487_472c, 0x7a29_0d5d, 0x840a_bf27, 0x668b_2ff8);
    NextWord(b, 62, 0xa43f_cf15, 0xb20f_7a99, 0x065c_43da, 0x7a29_0d5d, 0xeeab_a2cc);
    NextWord(b, 63, 0x668b_2ff8, 0xef57_b9cd, 0xfb3e_89cb, 0x065c_43da, 0x12b1_edeb);
  }

  // Four rounds, and a window of constants.
  predicate FourGive(v: Vars, k0: bv32, w0: bv32, k1: bv32, w1: bv32, k2: bv32, w2: bv32, k3: bv32, w3: bv32, r: Vars) {
    Round(Round(Round(Round(v, k0, w0), k1, w1), k2, w2), k3, w3) == r
  }

  lemma FourRounds(v: Vars, b: WordBlock, t: nat, x: Vars, k0: bv32, w0: bv32, k1: bv32, w1: bv32, k2: bv32, w2: bv32,
                   k3: bv32, w3: bv32, y: Vars)
    requires t + 4 <= 64 && Rounds(v, b, t) == x && FourGive(x, k0, w0, k1, w1, k2, w2, k3, w3, y)
    requires KAt(t) == k0 && KAt(t + 1) == k1 && KAt(t + 2) == k2 && KAt(t + 3) == k3
    requires Schedule(b, t) == w0 && Schedule(b, t + 1) == w1 && Schedule(b, t + 2) == w2 && Schedule(b, t + 3) == w3
    ensures Rounds(v, b, t + 4) == y
  {
    hide Round, KAt, Schedule;
    var r1 := Round(x, k0, w0);
    var r2 := Round(r1, k1, w1);
    assert Rounds(v, b, t + 1) == r1;
    assert Rounds(v, b, t + 2) == r2;
    assert Rounds(v, b, t + 3) == Round(r2, k2, w2);
  }

  lemma Constants0()
    ensures KAt(0) == 0x428a_2f98 && KAt(1) == 0x7137_4491 && KAt(2) == 0xb5c0_fbcf && KAt(3) == 0xe9b5_dba5
    ensures KAt(4) == 0x3956_c25b && KAt(5) == 0x59f1_11f1 && KAt(6) == 0x923f_82a4 && KAt(7) == 0xab1c_5ed5
  {
  }

  lemma Constants8()
    ensures KAt(8) == 0xd807_aa98 && KAt(9) == 0x1283_5b01 && KAt(10) == 0x2431_85be && KAt(11) == 0x550c_7dc3
    ensures KAt(12) == 0x72be_5d74 && KAt(13) == 0x80de_b1fe && KAt(14) == 0x9bdc_06a7 && KAt(15) == 0xc19b_f174
  {
  }

  lemma Constants16()
    ensures KAt(16) == 0xe49b_69c1 && KAt(17) == 0xefbe_4786 && KAt(18) == 0x0fc1_9dc6 && KAt(19) == 0x240c_a1cc
    ensures KAt(20) == 0x2de9_2c6f && KAt(21) == 0x4a74_84aa && KAt(22) == 0x5cb0_a9dc && KAt(23) == 0x76f9_88da
  {
  }

  lemma Constants24()
    ensures KAt(24) == 0x983e_5152 && KAt(25) == 0xa831_c66d && KAt(26) == 0xb003_27c8 && KAt(27) == 0xbf59_7fc7
    ensures KAt(28) == 0xc6e0_0bf3 && KAt(29) == 0xd5a7_9147 && KAt(30) == 0x06ca_6351 && KAt(31) == 0x1429_2967
  {
  }

  lemma Constants32()
    ensures KAt(32) == 0x27b7_0a85 && KAt(33) == 0x2e1b_2138 && KAt(34) == 0x4d2c_6dfc && KAt(35) == 0x5338_0d13
    ensures KAt(36) == 0x650a_7354 && KAt(37) == 0x766a_0abb && KAt(38) == 0x81c2_c92e && KAt(39) == 0x9272_2c85
  {
  }

  lemma Constants40()
    ensures KAt(40) == 0xa2bf_e8a1 && KAt(41) == 0xa81a_664b && KAt(42) == 0xc24b_8b70 && KAt(43) == 0xc76c_51a3
    ensures KAt(44) == 0xd192_e819 && KAt(45) == 0xd699_0624 && KAt(46) == 0xf40e_3585 && KAt(47) == 0x106a_a070
  {
  }

  lemma Constants48()
    ensures KAt(48) == 0x19a4_c116 && KAt(49) == 0x1e37_6c08 && KAt(50) == 0x2748_774c && KAt(51) == 0x34b0_bcb5
    ensures KAt(52) == 0x391c_0cb3 && KAt(53) == 0x4ed8_aa4a && KAt(54) == 0x5b9c_ca4f && KAt(55) == 0x682e_6ff3
  {
  }

  lemma Constants56()
    ensures KAt(56) == 0x748f_82ee && KAt(57) == 0x78a5_636f && KAt(58) == 0x84c8_7814 && KAt(59) == 0x8cc7_0208
    ensures KAt(60) == 0x90be_fffa && KAt(61) == 0xa450_6ceb && KAt(62) == 0xbef9_a3f7 && KAt(63) == 0xc671_78f2
  {
  }

  lemma Rounds0To8()
    ensures FourGive(Vars(0x6a09_e667, 0xbb67_ae85, 0x3c6e_f372, 0xa54f_f53a, 0x510e_527f, 0x9b05_688c, 0x1f83_d9ab, 0x5be0_cd19),
              0x428a_2f98, 0x6162_6380, 0x7137_4491, 0x0000_0000, 0xb5c0_fbcf, 0x0000_0000, 0xe9b5_dba5, 0x0000_0000,
              Vars(0xd550_f666, 0xc8c3_47a7, 0x5a6a_d9ad, 0x5d6a_ebcd, 0x24e0_0850, 0xf929_39eb, 0x78ce_7989, 0xfa2a_4622))
    ensures FourGive(Vars(0xd550_f666, 0xc8c3_47a7, 0x5a6a_d9ad, 0x5d6a_ebcd, 0x24e0_0850, 0xf929_39eb, 0x78ce_7989, 0xfa2a_4622),
              0x3956_c25b, 0x0000_0000, 0x59f1_11f1, 0x0000_0000, 0x923f_82a4, 0x0000_0000, 0xab1c_5ed5, 0x0000_0000,
              Vars(0x85a0_7b5f, 0xe503_0380, 0x2b42_09f5, 0x0440_9a6a, 0x0c65_7a79, 0x9b27_a401, 0x7142_60ad, 0x43ad_a245))
  {
  }

  lemma Rounds8To16()
    ensures FourGive(Vars(0x85a0_7b5f, 0xe503_0380, 0x2b42_09f5, 0x0440_9a6a, 0x0c65_7a79, 0x9b27_a401, 0x7142_60ad, 0x43ad_a245),
              0xd807_aa98, 0x0000_0000, 0x1283_5b01, 0x0000_0000, 0x2431_85be, 0x0000_0000, 0x550c_7dc3, 0x0000_0000,
              Vars(0xf71f_c5a9, 0x4798_a3f4, 0x8c87_346b, 0x8e04_ecb9, 0x816f_d6e9, 0x436b_23e8, 0x1cc9_2596, 0x32ca_2d8c))
    ensures FourGive(Vars(0xf71f_c5a9, 0x4798_a3f4, 0x8c87_346b, 0x8e04_ecb9, 0x816f_d6e9, 0x436b_23e8, 0x1cc9_2596, 0x32ca_2d8c),
              0x72be_5d74, 0x0000_0000, 0x80de_b1fe, 0x0000_0000, 0x9bdc_06a7, 0x0000_0000, 0xc19b_f174, 0x0000_0018,
              Vars(0xb0fa_238e, 0xc064_5fde, 0xd932_eb16, 0x8791_2990, 0x0759_0dcd, 0x0b92_f20c, 0x745a_48de, 0x1e57_8218))
  {
  }

  lemma Rounds16To24()
    ensures FourGive(Vars(0xb0fa_238e, 0xc064_5fde, 0xd932_eb16, 0x8791_2990, 0x0759_0dcd, 0x0b92_f20c, 0x745a_48de, 0x1e57_8218),
              0xe49b_69c1, 0x6162_6380, 0xefbe_4786, 0x000f_0000, 0x0fc1_9dc6, 0x7da8_6405, 0x240c_a1cc, 0x6000_03c6,
              Vars(0xe1f2_0c33, 0xfe77_7bbf, 0xc2fb_d9d1, 0x21da_9a9b, 0xb063_8179, 0xcc89_9961, 0x846e_e454, 0x8034_229c))
    ensures FourGive(Vars(0xe1f2_0c33, 0xfe77_7bbf, 0xc2fb_d9d1, 0x21da_9a9b, 0xb063_8179, 0xcc89_9961, 0x846e_e454, 0x8034_229c),
              0x2de9_2c6f, 0x3e9d_7b78, 0x4a74_84aa, 0x0183_fc00, 0x5cb0_a9dc, 0x12dc_bfdb, 0x76f9_88da, 0xe2e2_c38e,
              Vars(0xc5d5_3d8d, 0xa7a3_623f, 0xc260_6d6d, 0x9dc6_8b63, 0xaa47_c347, 0x49f5_114a, 0xe125_7970, 0x8ada_8930))
  {
  }

  lemma Rounds24To32()
    ensures FourGive(Vars(0xc5d5_3d8d, 0xa7a3_623f, 0xc260_6d6d, 0x9dc6_8b63, 0xaa47_c347, 0x49f5_114a, 0xe125_7970, 0x8ada_8930),
              0x983e_5152, 0xc821_5c1a, 0xa831_c66d, 0xb736_79a2, 0xb003_27c8, 0xe5bc_3909, 0xbf59_7fc7, 0x3266_3c5b,
              Vars(0x77d3_7528, 0xb62e_c4bc, 0xcde8_037d, 0x1c2c_2838, 0xedff_bff8, 0xc74c_6516, 0x1438_3d8e, 0x2823_ef91))
    ensures FourGive(Vars(0x77d3_7528, 0xb62e_c4bc, 0xcde8_037d, 0x1c2c_2838, 0xedff_bff8, 0xc74c_6516, 0x1438_3d8e, 0x2823_ef91),
              0xc6e0_0bf3, 0x9d20_9d67, 0xd5a7_9147, 0xec87_26cb, 0x06ca_6351, 0x7021_38a4, 0x1429_2967, 0xd3b7_973b,
              Vars(0x73b3_3bf5, 0xea99_2a22, 0xa006_0b30, 0x3634_82c9, 0xba59_1112, 0x0109_ab3a, 0xade7_9437, 0x6112_a3b7))
  {
  }

  lemma Rounds32To40()
    ensures FourGive(Vars(0x73b3_3bf5, 0xea99_2a22, 0xa006_0b30, 0x3634_82c9, 0xba59_1112, 0x0109_ab3a, 0xade7_9437, 0x6112_a3b7),
              0x27b7_0a85, 0x93f5_997f, 0x2e1b_2138, 0x3b68_ba73, 0x4d2c_6dfc, 0xaff4_ffc1, 0x5338_0d13, 0xf10a_5c62,
              Vars(0x65a0_cfe4, 0xa9a7_738c, 0xfe60_4df5, 0x98e1_2507, 0xf4b0_02d6, 0x085f_3833, 0x5924_9dd3, 0x9cd9_f5f6))
    ensures FourGive(Vars(0x65a0_cfe4, 0xa9a7_738c, 0xfe60_4df5, 0x98e1_2507, 0xf4b0_02d6, 0x085f_3833, 0x5924_9dd3, 0x9cd9_f5f6),
              0x650a_7354, 0x0a8b_3996, 0x766a_0abb, 0x72af_830a, 0x81c2_c92e, 0x9409_e33e, 0x9272_2c85, 0x2464_1522,
              Vars(0x79ea_687a, 0x6dc5_7a8a, 0x34df_1604, 0x41a6_5cb1, 0x1efb_c0a0, 0xf078_1bc8, 0xa507_a53d, 0x0772_a26b))
  {
  }

  lemma Rounds40To48()
    ensures FourGive(Vars(0x79ea_687a, 0x6dc5_7a8a, 0x34df_1604, 0x41a6_5cb1, 0x1efb_c0a0, 0xf078_1bc8, 0xa507_a53d, 0x0772_a26b),
              0xa2bf_e8a1, 0x9f47_bf94, 0xa81a_664b, 0xf0a6_4f5a, 0xc24b_8b70, 0x3e24_6a79, 0xc76c_51a3, 0x2733_3ba3,
              Vars(0x9d4b_af93, 0x17aa_0dfe, 0xdf46_652f, 0xd667_0766, 0xfda2_4c2e, 0xdecd_4715, 0x838b_2711, 0x2635_2d63))
    ensures FourGive(Vars(0x9d4b_af93, 0x17aa_0dfe, 0xdf46_652f, 0xd667_0766, 0xfda2_4c2e, 0xdecd_4715, 0x838b_2711, 0x2635_2d63),
              0xd192_e819, 0x0c47_63f2, 0xd699_0624, 0x840a_bf27, 0xf40e_3585, 0x7a29_0d5d, 0x106a_a070, 0x065c_43da,
              Vars(0x4172_328d, 0xa14c_14b0, 0x72ab_4b91, 0x2662_8815, 0xfecf_0bc6, 0xd57b_94a9, 0xb775_5da1, 0xa80f_11f0))
  {
  }

  lemma Rounds48To56()
    ensures FourGive(Vars(0x4172_328d, 0xa14c_14b0, 0x72ab_4b91, 0x2662_8815, 0xfecf_0bc6, 0xd57b_94a9, 0xb775_5da1, 0xa80f_11f0),
              0x19a4_c116, 0xfb3e_89cb, 0x1e37_6c08, 0xcc76_17db, 0x2748_774c, 0xb9e6_6c34, 0x34b0_bcb5, 0xa999_3667,
              Vars(0x886e_7a22, 0x7a05_08a1, 0xf11b_faa8, 0x0575_7ceb, 0x4923_1c1e, 0x52f1_ccf7, 0x6e5c_390c, 0xbd71_4038))
    ensures FourGive(Vars(0x886e_7a22, 0x7a05_08a1, 0xf11b_faa8, 0x0575_7ceb, 0x4923_1c1e, 0x52f1_ccf7, 0x6e5c_390c, 0xbd71_4038),
              0x391c_0cb3, 0x84ba_dedd, 0x4ed8_aa4a, 0xc214_62bc, 0x5b9c_ca4f, 0x1487_472c, 0x682e_6ff3, 0xb20f_7a99,
              Vars(0x38cc_9913, 0x3ec4_5cdb, 0xf570_2fdb, 0x101f_d28f, 0x54cb_266b, 0xe50e_1b4f, 0x9f47_87c3, 0x529e_7d00))
  {
  }

  lemma Rounds56To64()
    ensures FourGive(Vars(0x38cc_9913, 0x3ec4_5cdb, 0xf570_2fdb, 0x101f_d28f, 0x54cb_266b, 0xe50e_1b4f, 0x9f47_87c3, 0x529e_7d00),
              0x748f_82ee, 0xef57_b9cd, 0x78a5_636f, 0xebe6_b238, 0x84c8_7814, 0x9fe3_095e, 0x8cc7_0208, 0x78bc_8d4b,
              Vars(0xb6ae_8fff, 0xffb7_0472, 0xc062_d46f, 0xfcd1_887b, 0xb21b_ad3d, 0x6d83_bfc6, 0x7e44_008e, 0x9b5e_906c))
    ensures FourGive(Vars(0xb6ae_8fff, 0xffb7_0472, 0xc062_d46f, 0xfcd1_887b, 0xb21b_ad3d, 0x6d83_bfc6, 0x7e44_008e, 0x9b5e_906c),
              0x90be_fffa, 0xa43f_cf15, 0xa450_6ceb, 0x668b_2ff8, 0xbef9_a3f7, 0xeeab_a2cc, 0xc671_78f2, 0x12b1_edeb,
              Vars(0x506e_3058, 0xd39a_2165, 0x04d2_4d6c, 0xb85e_2ce9, 0x5ef5_0f24, 0xfb12_1210, 0x948d_25b6, 0x961f_4894))
  {
  }

  lemma RoundsFrom0(v: Vars, b: WordBlock)
    requires Words(b, 0, 0x6162_6380, 0x0000_0000, 0x0000_0000, 0x0000_0000, 0x0000_0000, 0x0000_0000, 0x0000_0000, 0x0000_0000,
                  0x0000_0000, 0x0000_0000, 0x0000_0000, 0x0000_0000, 0x0000_0000, 0x0000_0000, 0x0000_0000, 0x0000_0018)
    requires Rounds(v, b, 0) == Vars(0x6a09_e667, 0xbb67_ae85, 0x3c6e_f372, 0xa54f_f53a, 0x510e_527f, 0x9b05_688c, 0x1f83_d9ab, 0x5be0_cd19)
    ensures Rounds(v, b, 16) == Vars(0xb0fa_238e, 0xc064_5fde, 0xd932_eb16, 0x8791_2990, 0x0759_0dcd, 0x0b92_f20c, 0x745a_48de, 0x1e57_8218)
  {
    hide Rounds, Round, Schedule, KAt, FourGive;
    Constants0();
    Rounds0To8();
    FourRounds(v, b, 0, Vars(0x6a09_e667, 0xbb67_ae85, 0x3c6e_f372, 0xa54f_f53a, 0x510e_527f, 0x9b05_688c, 0x1f83_d9ab, 0x5be0_cd19),
               0x428a_2f98, 0x6162_6380, 0x7137_4491, 0x0000_0000, 0xb5c0_fbcf, 0x0000_0000, 0xe9b5_dba5, 0x0000_0000,
               Vars(0xd550_f666, 0xc8c3_47a7, 0x5a6a_d9ad, 0x5d6a_ebcd, 0x24e0_0850, 0xf929_39eb, 0x78ce_7989, 0xfa2a_4622));
    FourRounds(v, b, 4, Vars(0xd550_f666, 0xc8c3_47a7, 0x5a6a_d9ad, 0x5d6a_ebcd, 0x24e0_0850, 0xf929_39eb, 0x78ce_7989, 0xfa2a_4622),
               0x3956_c25b, 0x0000_0000, 0x59f1_11f1, 0x0000_0000, 0x923f_82a4, 0x0000_0000, 0xab1c_5ed5, 0x0000_0000,
               Vars(0x85a0_7b5f, 0xe503_0380, 0x2b42_09f5, 0x0440_9a6a, 0x0c65_7a79, 0x9b27_a401, 0x7142_60ad, 0x43ad_a245));
    Constants8();
    Rounds8To16();
    FourRounds(v, b, 8, Vars(0x85a0_7b5f, 0xe503_0380, 0x2b42_09f5, 0x0440_9a6a, 0x0c65_7a79, 0x9b27_a401, 0x7142_60ad, 0x43ad_a245),
               0xd807_aa98, 0x0000_0000, 0x1283_5b01, 0x0000_0000, 0x2431_85be, 0x0000_0000, 0x550c_7dc3, 0x0000_0000,
               Vars(0xf71f_c5a9, 0x4798_a3f4, 0x8c87_346b, 0x8e04_ecb9, 0x816f_d6e9, 0x436b_23e8, 0x1cc9_2596, 0x32ca_2d8c));
    FourRounds(v, b, 12, Vars(0xf71f_c5a9, 0x4798_a3f4, 0x8c87_346b, 0x8e04_ecb9, 0x816f_d6e9, 0x436b_23e8, 0x1cc9_2596, 0x32ca_2d8c),
               0x72be_5d74, 0x0000_0000, 0x80de_b1fe, 0x0000_0000, 0x9bdc_06a7, 0x0000_0000, 0xc19b_f174, 0x0000_0018,
               Vars(0xb0fa_238e, 0xc064_5fde, 0xd932_eb16, 0x8791_2990, 0x0759_0dcd, 0x0b92_f20c, 0x745a_48de, 0x1e57_8218));
  }

  lemma RoundsFrom16(v: Vars, b: WordBlock)
    requires Words(b, 16, 0x6162_6380, 0x000f_0000, 0x7da8_6405, 0x6000_03c6, 0x3e9d_7b78, 0x0183_fc00, 0x12dc_bfdb, 0xe2e2_c38e,
                  0xc821_5c1a, 0xb736_79a2, 0xe5bc_3909, 0x3266_3c5b, 0x9d20_9d67, 0xec87_26cb, 0x7021_38a4, 0xd3b7_973b)
    requires Rounds(v, b, 16) == Vars(0xb0fa_238e, 0xc064_5fde, 0xd932_eb16, 0x8791_2990, 0x0759_0dcd, 0x0b92_f20c, 0x745a_48de, 0x1e57_8218)
    ensures Rounds(v, b, 32) == Vars(0x73b3_3bf5, 0xea99_2a22, 0xa006_0b30, 0x3634_82c9, 0xba59_1112, 0x0109_ab3a, 0xade7_9437, 0x6112_a3b7)
  {
    hide Rounds, Round, Schedule, KAt, FourGive;
    Constants16();
    Rounds16To24();
    FourRounds(v, b, 16, Vars(0xb0fa_238e, 0xc064_5fde, 0xd932_eb16, 0x8791_2990, 0x0759_0dcd, 0x0b92_f20c, 0x745a_48de, 0x1e57_8218),
               0xe49b_69c1, 0x6162_6380, 0xefbe_4786, 0x000f_0000, 0x0fc1_9dc6, 0x7da8_6405, 0x240c_a1cc, 0x6000_03c6,
               Vars(0xe1f2_0c33, 0xfe77_7bbf, 0xc2fb_d9d1, 0x21da_9a9b, 0xb063_8179, 0xcc89_9961, 0x846e_e454, 0x8034_229c));
    FourRounds(v, b, 20, Vars(0xe1f2_0c33, 0xfe77_7bbf, 0xc2fb_d9d1, 0x21da_9a9b, 0xb063_8179, 0xcc89_9961, 0x846e_e454, 0x8034_229c),
               0x2de9_2c6f, 0x3e9d_7b78, 0x4a74_84aa, 0x0183_fc00, 0x5cb0_a9dc, 0x12dc_bfdb, 0x76f9_88da, 0xe2e2_c38e,
               Vars(0xc5d5_3d8d, 0xa7a3_623f, 0xc260_6d6d, 0x9dc6_8b63, 0xaa47_c347, 0x49f5_114a, 0xe125_7970, 0x8ada_8930));
    Constants24();
    Rounds24To32();
    FourRounds(v, b, 24, Vars(0xc5d5_3d8d, 0xa7a3_623f, 0xc260_6d6d, 0x9dc6_8b63, 0xaa47_c347, 0x49f5_114a, 0xe125_7970, 0x8ada_8930),
               0x983e_5152, 0xc821_5c1a, 0xa831_c66d, 0xb736_79a2, 0xb003_27c8, 0xe5bc_3909, 0xbf59_7fc7, 0x3266_3c5b,
               Vars(0x77d3_7528, 0xb62e_c4bc, 0xcde8_037d, 0x1c2c_2838, 0xedff_bff8, 0xc74c_6516, 0x1438_3d8e, 0x2823_ef91));
    FourRounds(v, b, 28, Vars(0x77d3_7528, 0xb62e_c4bc, 0xcde8_037d, 0x1c2c_2838, 0xedff_bff8, 0xc74c_6516, 0x1438_3d8e, 0x2823_ef91),
               0xc6e0_0bf3, 0x9d20_9d67, 0xd5a7_9147, 0xec87_26cb, 0x06ca_6351, 0x7021_38a4, 0x1429_2967, 0xd3b7_973b,
               Vars(0x73b3_3bf5, 0xea99_2a22, 0xa006_0b30, 0x3634_82c9, 0xba59_1112, 0x0109_ab3a, 0xade7_9437, 0x6112_a3b7));
  }

  lemma RoundsFrom32(v: Vars, b: WordBlock)
    requires Words(b, 32, 0x93f5_997f, 0x3b68_ba73, 0xaff4_ffc1, 0xf10a_5c62, 0x0a8b_3996, 0x72af_830a, 0x9409_e33e, 0x2464_1522,
                  0x9f47_bf94, 0xf0a6_4f5a, 0x3e24_6a79, 0x2733_3ba3, 0x0c47_63f2, 0x840a_bf27, 0x7a29_0d5d, 0x065c_43da)
    requires Rounds(v, b, 32) == Vars(0x73b3_3bf5, 0xea99_2a22, 0xa006_0b30, 0x3634_82c9, 0xba59_1112, 0x0109_ab3a, 0xade7_9437, 0x6112_a3b7)
    ensures Rounds(v, b, 48) == Vars(0x4172_328d, 0xa14c_14b0, 0x72ab_4b91, 0x2662_8815, 0xfecf_0bc6, 0xd57b_94a9, 0xb775_5da1, 0xa80f_11f0)
  {
    hide Rounds, Round, Schedule, KAt, FourGive;
    Constants32();
    Rounds32To40();
    FourRounds(v, b, 32, Vars(0x73b3_3bf5, 0xea99_2a22, 0xa006_0b30, 0x3634_82c9, 0xba59_1112, 0x0109_ab3a, 0xade7_9437, 0x6112_a3b7),
               0x27b7_0a85, 0x93f5_997f, 0x2e1b_2138, 0x3b68_ba73, 0x4d2c_6dfc, 0xaff4_ffc1, 0x5338_0d13, 0xf10a_5c62,
               Vars(0x65a0_cfe4, 0xa9a7_738c, 0xfe60_4df5, 0x98e1_2507, 0xf4b0_02d6, 0x085f_3833, 0x5924_9dd3, 0x9cd9_f5f6));
    FourRounds(v, b, 36, Vars(0x65a0_cfe4, 0xa9a7_738c, 0xfe60_4df5, 0x98e1_2507, 0xf4b0_02d6, 0x085f_3833, 0x5924_9dd3, 0x9cd9_f5f6),
               0x650a_7354, 0x0a8b_3996, 0x766a_0abb, 0x72af_830a, 0x81c2_c92e, 0x9409_e33e, 0x9272_2c85, 0x2464_1522,
               Vars(0x79ea_687a, 0x6dc5_7a8a, 0x34df_1604, 0x41a6_5cb1, 0x1efb_c0a0, 0xf078_1bc8, 0xa507_a53d, 0x0772_a26b));
    Constants40();
    Rounds40To48();
    FourRounds(v, b, 40, Vars(0x79ea_687a, 0x6dc5_7a8a, 0x34df_1604, 0x41a6_5cb1, 0x1efb_c0a0, 0xf078_1bc8, 0xa507_a53d, 0x0772_a26b),
               0xa2bf_e8a1, 0x9f47_bf94, 0xa81a_664b, 0xf0a6_4f5a, 0xc24b_8b70, 0x3e24_6a79, 0xc76c_51a3, 0x2733_3ba3,
               Vars(0x9d4b_af93, 0x17aa_0dfe, 0xdf46_652f, 0xd667_0766, 0xfda2_4c2e, 0xdecd_4715, 0x838b_2711, 0x2635_2d63));
    FourRounds(v, b, 44, Vars(0x9d4b_af93, 0x17aa_0dfe, 0xdf46_652f, 0xd667_0766, 0xfda2_4c2e, 0xdecd_4715, 0x838b_2711, 0x2635_2d63),
               0xd192_e819, 0x0c47_63f2, 0xd699_0624, 0x840a_bf27, 0xf40e_3585, 0x7a29_0d5d, 0x106a_a070, 0x065c_43da,
               Vars(0x4172_328d, 0xa14c_14b0, 0x72ab_4b91, 0x2662_8815, 0xfecf_0bc6, 0xd57b_94a9, 0xb775_5da1, 0xa80f_11f0));
  }

  lemma RoundsFrom48(v: Vars, b: WordBlock)
    requires Words(b, 48, 0xfb3e_89cb, 0xcc76_17db, 0xb9e6_6c34, 0xa999_3667, 0x84ba_dedd, 0xc214_62bc, 0x1487_472c, 0xb20f_7a99,
                  0xef57_b9cd, 0xebe6_b238, 0x9fe3_095e, 0x78bc_8d4b, 0xa43f_cf15, 0x668b_2ff8, 0xeeab_a2cc, 0x12b1_edeb)
    requires Rounds(v, b, 48) == Vars(0x4172_328d, 0xa14c_14b0, 0x72ab_4b91, 0x2662_8815, 0xfecf_0bc6, 0xd57b_94a9, 0xb775_5da1, 0xa80f_11f0)
    ensures Rounds(v, b, 64) == Vars(0x506e_3058, 0xd39a_2165, 0x04d2_4d6c, 0xb85e_2ce9, 0x5ef5_0f24, 0xfb12_1210, 0x948d_25b6, 0x961f_4894)
  {
    hide Rounds, Round, Schedule, KAt, FourGive;
    Constants48();
    Rounds48To56();
    FourRounds(v, b, 48, Vars(0x4172_328d, 0xa14c_14b0, 0x72ab_4b91, 0x2662_8815, 0xfecf_0bc6, 0xd57b_94a9, 0xb775_5da1, 0xa80f_11f0),
               0x19a4_c116, 0xfb3e_89cb, 0x1e37_6c08, 0xcc76_17db, 0x2748_774c, 0xb9e6_6c34, 0x34b0_bcb5, 0xa999_3667,
               Vars(0x886e_7a22, 0x7a05_08a1, 0xf11b_faa8, 0x0575_7ceb, 0x4923_1c1e, 0x52f1_ccf7, 0x6e5c_390c, 0xbd71_4038));
    FourRounds(v, b, 52, Vars(0x886e_7a22, 0x7a05_08a1, 0xf11b_faa8, 0x0575_7ceb, 0x4923_1c1e, 0x52f1_ccf7, 0x6e5c_390c, 0xbd71_4038),
               0x391c_0cb3, 0x84ba_dedd, 0x4ed8_aa4a, 0xc214_62bc, 0x5b9c_ca4f, 0x1487_472c, 0x682e_6ff3, 0xb20f_7a99,
               Vars(0x38cc_9913, 0x3ec4_5cdb, 0xf570_2fdb, 0x101f_d28f, 0x54cb_266b, 0xe50e_1b4f, 0x9f47_87c3, 0x529e_7d00));
    Constants56();
    Rounds56To64();
    FourRounds(v, b, 56, Vars(0x38cc_9913, 0x3ec4_5cdb, 0xf570_2fdb, 0x101f_d28f, 0x54cb_266b, 0xe50e_1b4f, 0x9f47_87c3, 0x529e_7d00),
               0x748f_82ee, 0xef57_b9cd, 0x78a5_636f, 0xebe6_b238, 0x84c8_7814, 0x9fe3_095e, 0x8cc7_0208, 0x78bc_8d4b,
               Vars(0xb6ae_8fff, 0xffb7_0472, 0xc062_d46f, 0xfcd1_887b, 0xb21b_ad3d, 0x6d83_bfc6, 0x7e44_008e, 0x9b5e_906c));
    FourRounds(v, b, 60, Vars(0xb6ae_8fff, 0xffb7_0472, 0xc062_d46f, 0xfcd1_887b, 0xb21b_ad3d, 0x6d83_bfc6, 0x7e44_008e, 0x9b5e_906c),
               0x90be_fffa, 0xa43f_cf15, 0xa450_6ceb, 0x668b_2ff8, 0xbef9_a3f7, 0xeeab_a2cc, 0xc671_78f2, 0x12b1_edeb,
               Vars(0x506e_3058, 0xd39a_2165, 0x04d2_4d6c, 0xb85e_2ce9, 0x5ef5_0f24, 0xfb12_1210, 0x948d_25b6, 0x961f_4894));
  }

  // The padded message is one block.
  lemma AbcBlock(m: seq<bv8>)
    requires m == [0x61, 0x62, 0x63]
    ensures |m + Padding(3)| == 64
    ensures forall i :: 0 <= i < 64 ==>
      (m + Padding(3))[i] == if i == 0 then 0x61 else if i == 1 then 0x62 else if i == 2 then 0x63
                             else if i == 3 then 0x80 else if i == 63 then 0x18 else 0
  {
    assert PadLength(3) == 61;
    forall j | 0 <= j < 61
      ensures PadByte(3, j) == if j == 0 then 0x80 else if j == 60 then 0x18 else 0
    {
      AbcPadding(j);
    }
  }

  lemma AbcPadding(j: nat)
    requires j < 61
    ensures PadByte(3, j) == if j == 0 then 0x80 else if j == 60 then 0x18 else 0
  {
    assert PadLength(3) == 61;
    assert Byte(24) == 0x18 && Byte(0) == 0;
    if j >= 53 {
      assert LengthByte(3, j - 53) == if j == 60 then 24 else 0;
    }
  }

  lemma AbcWords(x: seq<bv8>, i: nat)
    requires |x| == 64 && i < 16
    requires forall i :: 0 <= i < 64 ==>
      x[i] == if i == 0 then 0x61 else if i == 1 then 0x62 else if i == 2 then 0x63
              else if i == 3 then 0x80 else if i == 63 then 0x18 else 0
    ensures WordsOf(x)[i] == if i == 0 then 0x6162_6380 else if i == 15 then 0x18 else 0
  {
    assert Word(0x61, 0x62, 0x63, 0x80) == 0x6162_6380 && Word(0, 0, 0, 0) == 0 && Word(0, 0, 0, 0x18) == 0x18;
    hide Word;
  }

  lemma AbcSchedule(b: WordBlock)
    requires forall i :: 0 <= i < 16 ==> b[i] == if i == 0 then 0x6162_6380 else if i == 15 then 0x18 else 0
    ensures Words(b, 0, 0x6162_6380, 0x0000_0000, 0x0000_0000, 0x0000_0000, 0x0000_0000, 0x0000_0000, 0x0000_0000, 0x0000_0000,
                  0x0000_0000, 0x0000_0000, 0x0000_0000, 0x0000_0000, 0x0000_0000, 0x0000_0000, 0x0000_0000, 0x0000_0018)
    ensures Words(b, 16, 0x6162_6380, 0x000f_0000, 0x7da8_6405, 0x6000_03c6, 0x3e9d_7b78, 0x0183_fc00, 0x12dc_bfdb, 0xe2e2_c38e,
                  0xc821_5c1a, 0xb736_79a2, 0xe5bc_3909, 0x3266_3c5b, 0x9d20_9d67, 0xec87_26cb, 0x7021_38a4, 0xd3b7_973b)
    ensures Words(b, 32, 0x93f5_997f, 0x3b68_ba73, 0xaff4_ffc1, 0xf10a_5c62, 0x0a8b_3996, 0x72af_830a, 0x9409_e33e, 0x2464_1522,
                  0x9f47_bf94, 0xf0a6_4f5a, 0x3e24_6a79, 0x2733_3ba3, 0x0c47_63f2, 0x840a_bf27, 0x7a29_0d5d, 0x065c_43da)
    ensures Words(b, 48, 0xfb3e_89cb, 0xcc76_17db, 0xb9e6_6c34, 0xa999_3667, 0x84ba_dedd, 0xc214_62bc, 0x1487_472c, 0xb20f_7a99,
                  0xef57_b9cd, 0xebe6_b238, 0x9fe3_095e, 0x78bc_8d4b, 0xa43f_cf15, 0x668b_2ff8, 0xeeab_a2cc, 0x12b1_edeb)
  {
    forall i | 0 <= i < 16
      ensures Schedule(b, i) == b[i]
    {
    }
    hide Schedule;
    Words16(b);
    Words32(b);
    Words48(b);
  }

  lemma AbcCompressed(b: WordBlock)
    requires forall i :: 0 <= i < 16 ==> b[i] == if i == 0 then 0x6162_6380 else if i == 15 then 0x18 else 0
    ensures Compress(InitialState, b) == [0xba78_16bf, 0x8f01_cfea, 0x4141_40de, 0x5dae_2223, 0xb003_61a3, 0x9617_7a9c, 0xb410_ff61, 0xf200_15ad]
  {
    hide Rounds, Words, Plus;
    var v := Vars(0x6a09_e667, 0xbb67_ae85, 0x3c6e_f372, 0xa54f_f53a, 0x510e_527f, 0x9b05_688c, 0x1f83_d9ab, 0x5be0_cd19);
    AbcSchedule(b);
    AbcStart(v, b);
    RoundsFrom0(v, b);
    RoundsFrom16(v, b);
    RoundsFrom32(v, b);
    RoundsFrom48(v, b);
    AbcSums();
  }

  lemma AbcStart(v: Vars, b: WordBlock)
    ensures Rounds(v, b, 0) == v
  {
  }

  lemma AbcSums()
    ensures Plus(0x6a09_e667, 0x506e_3058) == 0xba78_16bf
    ensures Plus(0xbb67_ae85, 0xd39a_2165) == 0x8f01_cfea
    ensures Plus(0x3c6e_f372, 0x04d2_4d6c) == 0x4141_40de
    ensures Plus(0xa54f_f53a, 0xb85e_2ce9) == 0x5dae_2223
    ensures Plus(0x510e_527f, 0x5ef5_0f24) == 0xb003_61a3
    ensures Plus(0x9b05_688c, 0xfb12_1210) == 0x9617_7a9c
    ensures Plus(0x1f83_d9ab, 0x948d_25b6) == 0xb410_ff61
    ensures Plus(0x5be0_cd19, 0x961f_4894) == 0xf200_15ad
  {
  }

  // Appendix B.1.
  lemma Abc(d: seq<bv8>)
    requires d == Sha256([0x61, 0x62, 0x63])
    ensures d[0] == 0xba && d[1] == 0x78 && d[2] == 0x16 && d[3] == 0xbf
    ensures d[4] == 0x8f && d[5] == 0x01 && d[6] == 0xcf && d[7] == 0xea
    ensures d[8] == 0x41 && d[9] == 0x41 && d[10] == 0x40 && d[11] == 0xde
    ensures d[12] == 0x5d && d[13] == 0xae && d[14] == 0x22 && d[15] == 0x23
    ensures d[16] == 0xb0 && d[17] == 0x03 && d[18] == 0x61 && d[19] == 0xa3
    ensures d[20] == 0x96 && d[21] == 0x17 && d[22] == 0x7a && d[23] == 0x9c
    ensures d[24] == 0xb4 && d[25] == 0x10 && d[26] == 0xff && d[27] == 0x61
    ensures d[28] == 0xf2 && d[29] == 0x00 && d[30] == 0x15 && d[31] == 0xad
  {
    hide Compress, WordsOf, Padding;
    var m: seq<bv8> := [0x61, 0x62, 0x63];
    var x := m + Padding(3);
    AbcBlock(m);
    forall i | 0 <= i < 16
      ensures WordsOf(x)[i] == if i == 0 then 0x6162_6380 else if i == 15 then 0x18 else 0
    {
      AbcWords(x, i);
    }
    AbcCompressed(WordsOf(x));
    AbcFold(x);
    AbcBytes(Fold(x));
  }

  lemma AbcFold(x: seq<bv8>)
    requires |x| == 64
    ensures Fold(x) == Compress(InitialState, WordsOf(x))
  {
    hide Compress, WordsOf;
    var none: seq<bv8> := [];
    assert none + x == x && Fold(none) == InitialState;
    FoldBlock(none, x);
  }

  lemma AbcBytes(h: Digest)
    requires h == [0xba78_16bf, 0x8f01_cfea, 0x4141_40de, 0x5dae_2223, 0xb003_61a3, 0x9617_7a9c, 0xb410_ff61, 0xf200_15ad]
    ensures var d := DigestBytes(h);
      d[0] == 0xba && d[1] == 0x78 && d[2] == 0x16 && d[3] == 0xbf &&
      d[4] == 0x8f && d[5] == 0x01 && d[6] == 0xcf && d[7] == 0xea &&
      d[8] == 0x41 && d[9] == 0x41 && d[10] == 0x40 && d[11] == 0xde &&
      d[12] == 0x5d && d[13] == 0xae && d[14] == 0x22 && d[15] == 0x23 &&
      d[16] == 0xb0 && d[17] == 0x03 && d[18] == 0x61 && d[19] == 0xa3 &&
      d[20] == 0x96 && d[21] == 0x17 && d[22] == 0x7a && d[23] == 0x9c &&
      d[24] == 0xb4 && d[25] == 0x10 && d[26] == 0xff && d[27] == 0x61 &&
      d[28] == 0xf2 && d[29] == 0x00 && d[30] == 0x15 && d[31] == 0xad
  {
  }
}

/** A known answer: the SHA-256 digest of "abc", the first example published for FIPS 180-4, computed step by step. It
    fixes the constants, the logical functions, the schedule, the rounds, the padding and the output. */
module Sha256Vectors {
  import opened LittleEndian
  import opened Sha256

  const ABC: Bytes := [97, 98, 99]

  // The message schedule

  /** Eight words from `i` on. */
  predicate Row(w: seq<bv32>, i: nat, row: Words)
    requires i + 8 <= |w|
  {
    && w[i] == row[0] && w[i + 1] == row[1] && w[i + 2] == row[2] && w[i + 3] == row[3]
    && w[i + 4] == row[4] && w[i + 5] == row[5] && w[i + 6] == row[6] && w[i + 7] == row[7]
  }

  const W0: Words := [0x61626380, 0x00000000, 0x00000000, 0x00000000, 0x00000000, 0x00000000, 0x00000000, 0x00000000]
  const W8: Words := [0x00000000, 0x00000000, 0x00000000, 0x00000000, 0x00000000, 0x00000000, 0x00000000, 0x00000018]
  const W16: Words := [0x61626380, 0x000f0000, 0x7da86405, 0x600003c6, 0x3e9d7b78, 0x0183fc00, 0x12dcbfdb, 0xe2e2c38e]
  const W24: Words := [0xc8215c1a, 0xb73679a2, 0xe5bc3909, 0x32663c5b, 0x9d209d67, 0xec8726cb, 0x702138a4, 0xd3b7973b]
  const W32: Words := [0x93f5997f, 0x3b68ba73, 0xaff4ffc1, 0xf10a5c62, 0x0a8b3996, 0x72af830a, 0x9409e33e, 0x24641522]
  const W40: Words := [0x9f47bf94, 0xf0a64f5a, 0x3e246a79, 0x27333ba3, 0x0c4763f2, 0x840abf27, 0x7a290d5d, 0x065c43da]
  const W48: Words := [0xfb3e89cb, 0xcc7617db, 0xb9e66c34, 0xa9993667, 0x84badedd, 0xc21462bc, 0x1487472c, 0xb20f7a99]
  const W56: Words := [0xef57b9cd, 0xebe6b238, 0x9fe3095e, 0x78bc8d4b, 0xa43fcf15, 0x668b2ff8, 0xeeaba2cc, 0x12b1edeb]

  /** The sum that gives a word of the schedule. */
  function Mixed(a: bv32, b: bv32, c: bv32, d: bv32): (r: bv32)
  {
    a + SmallSigma0(b) + c + SmallSigma1(d)
  }

  predicate Mixes(w: seq<bv32>, i: nat)
    requires 16 <= i < |w|
  {
    w[i] == Mixed(w[i - 16], w[i - 15], w[i - 7], w[i - 2])
  }

  lemma Sums16()
    ensures Mixed(0x61626380, 0x00000000, 0x00000000, 0x00000000) == 0x61626380
    ensures Mixed(0x00000000, 0x00000000, 0x00000000, 0x00000018) == 0x000f0000
    ensures Mixed(0x00000000, 0x00000000, 0x00000000, 0x61626380) == 0x7da86405
    ensures Mixed(0x00000000, 0x00000000, 0x00000000, 0x000f0000) == 0x600003c6
    ensures Mixed(0x00000000, 0x00000000, 0x00000000, 0x7da86405) == 0x3e9d7b78
    ensures Mixed(0x00000000, 0x00000000, 0x00000000, 0x600003c6) == 0x0183fc00
    ensures Mixed(0x00000000, 0x00000000, 0x00000018, 0x3e9d7b78) == 0x12dcbfdb
    ensures Mixed(0x00000000, 0x00000000, 0x61626380, 0x0183fc00) == 0xe2e2c38e
  {
  }

  lemma Words16(w: seq<bv32>)
    requires |w| == 64 && Row(w, 0, W0) && Row(w, 8, W8)
    requires Mixes(w, 16) && Mixes(w, 17) && Mixes(w, 18) && Mixes(w, 19)
    requires Mixes(w, 20) && Mixes(w, 21) && Mixes(w, 22) && Mixes(w, 23)
    ensures Row(w, 16, W16)
  {
    hide Mixed;
    Sums16();
  }

  lemma Sums24()
    ensures Mixed(0x00000000, 0x00000000, 0x000f0000, 0x12dcbfdb) == 0xc8215c1a
    ensures Mixed(0x00000000, 0x00000000, 0x7da86405, 0xe2e2c38e) == 0xb73679a2
    ensures Mixed(0x00000000, 0x00000000, 0x600003c6, 0xc8215c1a) == 0xe5bc3909
    ensures Mixed(0x00000000, 0x00000000, 0x3e9d7b78, 0xb73679a2) == 0x32663c5b
    ensures Mixed(0x00000000, 0x00000000, 0x0183fc00, 0xe5bc3909) == 0x9d209d67
    ensures Mixed(0x00000000, 0x00000000, 0x12dcbfdb, 0x32663c5b) == 0xec8726cb
    ensures Mixed(0x00000000, 0x00000018, 0xe2e2c38e, 0x9d209d67) == 0x702138a4
    ensures Mixed(0x00000018, 0x61626380, 0xc8215c1a, 0xec8726cb) == 0xd3b7973b
  {
  }

  lemma Words24(w: seq<bv32>)
    requires |w| == 64 && Row(w, 8, W8) && Row(w, 16, W16)
    requires Mixes(w, 24) && Mixes(w, 25) && Mixes(w, 26) && Mixes(w, 27)
    requires Mixes(w, 28) && Mixes(w, 29) && Mixes(w, 30) && Mixes(w, 31)
    ensures Row(w, 24, W24)
  {
    hide Mixed;
    Sums24();
  }

  lemma Sums32()
    ensures Mixed(0x61626380, 0x000f0000, 0xb73679a2, 0x702138a4) == 0x93f5997f
    ensures Mixed(0x000f0000, 0x7da86405, 0xe5bc3909, 0xd3b7973b) == 0x3b68ba73
    ensures Mixed(0x7da86405, 0x600003c6, 0x32663c5b, 0x93f5997f) == 0xaff4ffc1
    ensures Mixed(0x600003c6, 0x3e9d7b78, 0x9d209d67, 0x3b68ba73) == 0xf10a5c62
    ensures Mixed(0x3e9d7b78, 0x0183fc00, 0xec8726cb, 0xaff4ffc1) == 0x0a8b3996
    ensures Mixed(0x0183fc00, 0x12dcbfdb, 0x702138a4, 0xf10a5c62) == 0x72af830a
    ensures Mixed(0x12dcbfdb, 0xe2e2c38e, 0xd3b7973b, 0x0a8b3996) == 0x9409e33e
    ensures Mixed(0xe2e2c38e, 0xc8215c1a, 0x93f5997f, 0x72af830a) == 0x24641522
  {
  }

  lemma Words32(w: seq<bv32>)
    requires |w| == 64 && Row(w, 16, W16) && Row(w, 24, W24)
    requires Mixes(w, 32) && Mixes(w, 33) && Mixes(w, 34) && Mixes(w, 35)
    requires Mixes(w, 36) && Mixes(w, 37) && Mixes(w, 38) && Mixes(w, 39)
    ensures Row(w, 32, W32)
  {
    hide Mixed;
    Sums32();
  }

  lemma Sums40()
    ensures Mixed(0xc8215c1a, 0xb73679a2, 0x3b68ba73, 0x9409e33e) == 0x9f47bf94
    ensures Mixed(0xb73679a2, 0xe5bc3909, 0xaff4ffc1, 0x24641522) == 0xf0a64f5a
    ensures Mixed(0xe5bc3909, 0x32663c5b, 0xf10a5c62, 0x9f47bf94) == 0x3e246a79
    ensures Mixed(0x32663c5b, 0x9d209d67, 0x0a8b3996, 0xf0a64f5a) == 0x27333ba3
    ensures Mixed(0x9d209d67, 0xec8726cb, 0x72af830a, 0x3e246a79) == 0x0c4763f2
    ensures Mixed(0xec8726cb, 0x702138a4, 0x9409e33e, 0x27333ba3) == 0x840abf27
    ensures Mixed(0x702138a4, 0xd3b7973b, 0x24641522, 0x0c4763f2) == 0x7a290d5d
    ensures Mixed(0xd3b7973b, 0x93f5997f, 0x9f47bf94, 0x840abf27) == 0x065c43da
  {
  }

  lemma Words40(w: seq<bv32>)
    requires |w| == 64 && Row(w, 24, W24) && Row(w, 32, W32)
    requires Mixes(w, 40) && Mixes(w, 41) && Mixes(w, 42) && Mixes(w, 43)
    requires Mixes(w, 44) && Mixes(w, 45) && Mixes(w, 46) && Mixes(w, 47)
    ensures Row(w, 40, W40)
  {
    hide Mixed;
    Sums40();
  }

  lemma Sums48()
    ensures Mixed(0x93f5997f, 0x3b68ba73, 0xf0a64f5a, 0x7a290d5d) == 0xfb3e89cb
    ensures Mixed(0x3b68ba73, 0xaff4ffc1, 0x3e246a79, 0x065c43da) == 0xcc7617db
    ensures Mixed(0xaff4ffc1, 0xf10a5c62, 0x27333ba3, 0xfb3e89cb) == 0xb9e66c34
    ensures Mixed(0xf10a5c62, 0x0a8b3996, 0x0c4763f2, 0xcc7617db) == 0xa9993667
    ensures Mixed(0x0a8b3996, 0x72af830a, 0x840abf27, 0xb9e66c34) == 0x84badedd
    ensures Mixed(0x72af830a, 0x9409e33e, 0x7a290d5d, 0xa9993667) == 0xc21462bc
    ensures Mixed(0x9409e33e, 0x24641522, 0x065c43da, 0x84badedd) == 0x1487472c
    ensures Mixed(0x24641522, 0x9f47bf94, 0xfb3e89cb, 0xc21462bc) == 0xb20f7a99
  {
  }

  lemma Words48(w: seq<bv32>)
    requires |w| == 64 && Row(w, 32, W32) && Row(w, 40, W40)
    requires Mixes(w, 48) && Mixes(w, 49) && Mixes(w, 50) && Mixes(w, 51)
    requires Mixes(w, 52) && Mixes(w, 53) && Mixes(w, 54) && Mixes(w, 55)
    ensures Row(w, 48, W48)
  {
    hide Mixed;
    Sums48();
  }

  lemma Sums56()
    ensures Mixed(0x9f47bf94, 0xf0a64f5a, 0xcc7617db, 0x1487472c) == 0xef57b9cd
    ensures Mixed(0xf0a64f5a, 0x3e246a79, 0xb9e66c34, 0xb20f7a99) == 0xebe6b238
    ensures Mixed(0x3e246a79, 0x27333ba3, 0xa9993667, 0xef57b9cd) == 0x9fe3095e
    ensures Mixed(0x27333ba3, 0x0c4763f2, 0x84badedd, 0xebe6b238) == 0x78bc8d4b
    ensures Mixed(0x0c4763f2, 0x840abf27, 0xc21462bc, 0x9fe3095e) == 0xa43fcf15
    ensures Mixed(0x840abf27, 0x7a290d5d, 0x1487472c, 0x78bc8d4b) == 0x668b2ff8
    ensures Mixed(0x7a290d5d, 0x065c43da, 0xb20f7a99, 0xa43fcf15) == 0xeeaba2cc
    ensures Mixed(0x065c43da, 0xfb3e89cb, 0xef57b9cd, 0x668b2ff8) == 0x12b1edeb
  {
  }

  lemma Words56(w: seq<bv32>)
    requires |w| == 64 && Row(w, 40, W40) && Row(w, 48, W48)
    requires Mixes(w, 56) && Mixes(w, 57) && Mixes(w, 58) && Mixes(w, 59)
    requires Mixes(w, 60) && Mixes(w, 61) && Mixes(w, 62) && Mixes(w, 63)
    ensures Row(w, 56, W56)
  {
    hide Mixed;
    Sums56();
  }

  lemma NextIsMixed(block: Block, w: seq<bv32>)
    requires 16 <= |w| < 64
    ensures var i := |w|; NextWord(block, w) == Mixed(w[i - 16], w[i - 15], w[i - 7], w[i - 2])
  {
  }

  lemma {:induction false} SchedulePrefix(block: Block, m: nat, n: nat)
    requires m <= n <= 64
    ensures Schedule(block, n)[..m] == Schedule(block, m)
    decreases n
  {
    hide NextWord;
    if m < n {
      SchedulePrefix(block, m, n - 1);
      assert Schedule(block, n)[..m] == Schedule(block, n - 1)[..m];
    }
  }

  lemma ScheduleMixes(block: Block, i: nat)
    requires i < 64
    ensures var w := Schedule(block, 64); if i < 16 then w[i] == LoadWord(block, i) else Mixes(w, i)
  {
    hide Mixed, LoadWord;
    var w, before := Schedule(block, 64), Schedule(block, i);
    SchedulePrefix(block, i, 64);
    SchedulePrefix(block, i + 1, 64);
    assert w[i] == w[..i + 1][i] == NextWord(block, before);
    assert forall k :: 0 <= k < i ==> w[k] == w[..i][k];
    if i >= 16 {
      hide NextWord;
      NextIsMixed(block, before);
    }
  }

  // The working variables

  const S0: Words := [0x6a09e667, 0xbb67ae85, 0x3c6ef372, 0xa54ff53a, 0x510e527f, 0x9b05688c, 0x1f83d9ab, 0x5be0cd19]
  const S1: Words := [0x5d6aebcd, 0x6a09e667, 0xbb67ae85, 0x3c6ef372, 0xfa2a4622, 0x510e527f, 0x9b05688c, 0x1f83d9ab]
  const S2: Words := [0x5a6ad9ad, 0x5d6aebcd, 0x6a09e667, 0xbb67ae85, 0x78ce7989, 0xfa2a4622, 0x510e527f, 0x9b05688c]
  const S3: Words := [0xc8c347a7, 0x5a6ad9ad, 0x5d6aebcd, 0x6a09e667, 0xf92939eb, 0x78ce7989, 0xfa2a4622, 0x510e527f]
  const S4: Words := [0xd550f666, 0xc8c347a7, 0x5a6ad9ad, 0x5d6aebcd, 0x24e00850, 0xf92939eb, 0x78ce7989, 0xfa2a4622]
  const S5: Words := [0x04409a6a, 0xd550f666, 0xc8c347a7, 0x5a6ad9ad, 0x43ada245, 0x24e00850, 0xf92939eb, 0x78ce7989]
  const S6: Words := [0x2b4209f5, 0x04409a6a, 0xd550f666, 0xc8c347a7, 0x714260ad, 0x43ada245, 0x24e00850, 0xf92939eb]
  const S7: Words := [0xe5030380, 0x2b4209f5, 0x04409a6a, 0xd550f666, 0x9b27a401, 0x714260ad, 0x43ada245, 0x24e00850]
  const S8: Words := [0x85a07b5f, 0xe5030380, 0x2b4209f5, 0x04409a6a, 0x0c657a79, 0x9b27a401, 0x714260ad, 0x43ada245]
  const S9: Words := [0x8e04ecb9, 0x85a07b5f, 0xe5030380, 0x2b4209f5, 0x32ca2d8c, 0x0c657a79, 0x9b27a401, 0x714260ad]
  const S10: Words := [0x8c87346b, 0x8e04ecb9, 0x85a07b5f, 0xe5030380, 0x1cc92596, 0x32ca2d8c, 0x0c657a79, 0x9b27a401]
  const S11: Words := [0x4798a3f4, 0x8c87346b, 0x8e04ecb9, 0x85a07b5f, 0x436b23e8, 0x1cc92596, 0x32ca2d8c, 0x0c657a79]
  const S12: Words := [0xf71fc5a9, 0x4798a3f4, 0x8c87346b, 0x8e04ecb9, 0x816fd6e9, 0x436b23e8, 0x1cc92596, 0x32ca2d8c]
  const S13: Words := [0x87912990, 0xf71fc5a9, 0x4798a3f4, 0x8c87346b, 0x1e578218, 0x816fd6e9, 0x436b23e8, 0x1cc92596]
  const S14: Words := [0xd932eb16, 0x87912990, 0xf71fc5a9, 0x4798a3f4, 0x745a48de, 0x1e578218, 0x816fd6e9, 0x436b23e8]
  const S15: Words := [0xc0645fde, 0xd932eb16, 0x87912990, 0xf71fc5a9, 0x0b92f20c, 0x745a48de, 0x1e578218, 0x816fd6e9]
  const S16: Words := [0xb0fa238e, 0xc0645fde, 0xd932eb16, 0x87912990, 0x07590dcd, 0x0b92f20c, 0x745a48de, 0x1e578218]
  const S17: Words := [0x21da9a9b, 0xb0fa238e, 0xc0645fde, 0xd932eb16, 0x8034229c, 0x07590dcd, 0x0b92f20c, 0x745a48de]
  const S18: Words := [0xc2fbd9d1, 0x21da9a9b, 0xb0fa238e, 0xc0645fde, 0x846ee454, 0x8034229c, 0x07590dcd, 0x0b92f20c]
  const S19: Words := [0xfe777bbf, 0xc2fbd9d1, 0x21da9a9b, 0xb0fa238e, 0xcc899961, 0x846ee454, 0x8034229c, 0x07590dcd]
  const S20: Words := [0xe1f20c33, 0xfe777bbf, 0xc2fbd9d1, 0x21da9a9b, 0xb0638179, 0xcc899961, 0x846ee454, 0x8034229c]
  const S21: Words := [0x9dc68b63, 0xe1f20c33, 0xfe777bbf, 0xc2fbd9d1, 0x8ada8930, 0xb0638179, 0xcc899961, 0x846ee454]
  const S22: Words := [0xc2606d6d, 0x9dc68b63, 0xe1f20c33, 0xfe777bbf, 0xe1257970, 0x8ada8930, 0xb0638179, 0xcc899961]
  const S23: Words := [0xa7a3623f, 0xc2606d6d, 0x9dc68b63, 0xe1f20c33, 0x49f5114a, 0xe1257970, 0x8ada8930, 0xb0638179]
  const S24: Words := [0xc5d53d8d, 0xa7a3623f, 0xc2606d6d, 0x9dc68b63, 0xaa47c347, 0x49f5114a, 0xe1257970, 0x8ada8930]
  const S25: Words := [0x1c2c2838, 0xc5d53d8d, 0xa7a3623f, 0xc2606d6d, 0x2823ef91, 0xaa47c347, 0x49f5114a, 0xe1257970]
  const S26: Words := [0xcde8037d, 0x1c2c2838, 0xc5d53d8d, 0xa7a3623f, 0x14383d8e, 0x2823ef91, 0xaa47c347, 0x49f5114a]
  const S27: Words := [0xb62ec4bc, 0xcde8037d, 0x1c2c2838, 0xc5d53d8d, 0xc74c6516, 0x14383d8e, 0x2823ef91, 0xaa47c347]
  const S28: Words := [0x77d37528, 0xb62ec4bc, 0xcde8037d, 0x1c2c2838, 0xedffbff8, 0xc74c6516, 0x14383d8e, 0x2823ef91]
  const S29: Words := [0x363482c9, 0x77d37528, 0xb62ec4bc, 0xcde8037d, 0x6112a3b7, 0xedffbff8, 0xc74c6516, 0x14383d8e]
  const S30: Words := [0xa0060b30, 0x363482c9, 0x77d37528, 0xb62ec4bc, 0xade79437, 0x6112a3b7, 0xedffbff8, 0xc74c6516]
  const S31: Words := [0xea992a22, 0xa0060b30, 0x363482c9, 0x77d37528, 0x0109ab3a, 0xade79437, 0x6112a3b7, 0xedffbff8]
  const S32: Words := [0x73b33bf5, 0xea992a22, 0xa0060b30, 0x363482c9, 0xba591112, 0x0109ab3a, 0xade79437, 0x6112a3b7]
  const S33: Words := [0x98e12507, 0x73b33bf5, 0xea992a22, 0xa0060b30, 0x9cd9f5f6, 0xba591112, 0x0109ab3a, 0xade79437]
  const S34: Words := [0xfe604df5, 0x98e12507, 0x73b33bf5, 0xea992a22, 0x59249dd3, 0x9cd9f5f6, 0xba591112, 0x0109ab3a]
  const S35: Words := [0xa9a7738c, 0xfe604df5, 0x98e12507, 0x73b33bf5, 0x085f3833, 0x59249dd3, 0x9cd9f5f6, 0xba591112]
  const S36: Words := [0x65a0cfe4, 0xa9a7738c, 0xfe604df5, 0x98e12507, 0xf4b002d6, 0x085f3833, 0x59249dd3, 0x9cd9f5f6]
  const S37: Words := [0x41a65cb1, 0x65a0cfe4, 0xa9a7738c, 0xfe604df5, 0x0772a26b, 0xf4b002d6, 0x085f3833, 0x59249dd3]
  const S38: Words := [0x34df1604, 0x41a65cb1, 0x65a0cfe4, 0xa9a7738c, 0xa507a53d, 0x0772a26b, 0xf4b002d6, 0x085f3833]
  const S39: Words := [0x6dc57a8a, 0x34df1604, 0x41a65cb1, 0x65a0cfe4, 0xf0781bc8, 0xa507a53d, 0x0772a26b, 0xf4b002d6]
  const S40: Words := [0x79ea687a, 0x6dc57a8a, 0x34df1604, 0x41a65cb1, 0x1efbc0a0, 0xf0781bc8, 0xa507a53d, 0x0772a26b]
  const S41: Words := [0xd6670766, 0x79ea687a, 0x6dc57a8a, 0x34df1604, 0x26352d63, 0x1efbc0a0, 0xf0781bc8, 0xa507a53d]
  const S42: Words := [0xdf46652f, 0xd6670766, 0x79ea687a, 0x6dc57a8a, 0x838b2711, 0x26352d63, 0x1efbc0a0, 0xf0781bc8]
  const S43: Words := [0x17aa0dfe, 0xdf46652f, 0xd6670766, 0x79ea687a, 0xdecd4715, 0x838b2711, 0x26352d63, 0x1efbc0a0]
  const S44: Words := [0x9d4baf93, 0x17aa0dfe, 0xdf46652f, 0xd6670766, 0xfda24c2e, 0xdecd4715, 0x838b2711, 0x26352d63]
  const S45: Words := [0x26628815, 0x9d4baf93, 0x17aa0dfe, 0xdf46652f, 0xa80f11f0, 0xfda24c2e, 0xdecd4715, 0x838b2711]
  const S46: Words := [0x72ab4b91, 0x26628815, 0x9d4baf93, 0x17aa0dfe, 0xb7755da1, 0xa80f11f0, 0xfda24c2e, 0xdecd4715]
  const S47: Words := [0xa14c14b0, 0x72ab4b91, 0x26628815, 0x9d4baf93, 0xd57b94a9, 0xb7755da1, 0xa80f11f0, 0xfda24c2e]
  const S48: Words := [0x4172328d, 0xa14c14b0, 0x72ab4b91, 0x26628815, 0xfecf0bc6, 0xd57b94a9, 0xb7755da1, 0xa80f11f0]
  const S49: Words := [0x05757ceb, 0x4172328d, 0xa14c14b0, 0x72ab4b91, 0xbd714038, 0xfecf0bc6, 0xd57b94a9, 0xb7755da1]
  const S50: Words := [0xf11bfaa8, 0x05757ceb, 0x4172328d, 0xa14c14b0, 0x6e5c390c, 0xbd714038, 0xfecf0bc6, 0xd57b94a9]
  const S51: Words := [0x7a0508a1, 0xf11bfaa8, 0x05757ceb, 0x4172328d, 0x52f1ccf7, 0x6e5c390c, 0xbd714038, 0xfecf0bc6]
  const S52: Words := [0x886e7a22, 0x7a0508a1, 0xf11bfaa8, 0x05757ceb, 0x49231c1e, 0x52f1ccf7, 0x6e5c390c, 0xbd714038]
  const S53: Words := [0x101fd28f, 0x886e7a22, 0x7a0508a1, 0xf11bfaa8, 0x529e7d00, 0x49231c1e, 0x52f1ccf7, 0x6e5c390c]
  const S54: Words := [0xf5702fdb, 0x101fd28f, 0x886e7a22, 0x7a0508a1, 0x9f4787c3, 0x529e7d00, 0x49231c1e, 0x52f1ccf7]
  const S55: Words := [0x3ec45cdb, 0xf5702fdb, 0x101fd28f, 0x886e7a22, 0xe50e1b4f, 0x9f4787c3, 0x529e7d00, 0x49231c1e]
  const S56: Words := [0x38cc9913, 0x3ec45cdb, 0xf5702fdb, 0x101fd28f, 0x54cb266b, 0xe50e1b4f, 0x9f4787c3, 0x529e7d00]
  const S57: Words := [0xfcd1887b, 0x38cc9913, 0x3ec45cdb, 0xf5702fdb, 0x9b5e906c, 0x54cb266b, 0xe50e1b4f, 0x9f4787c3]
  const S58: Words := [0xc062d46f, 0xfcd1887b, 0x38cc9913, 0x3ec45cdb, 0x7e44008e, 0x9b5e906c, 0x54cb266b, 0xe50e1b4f]
  const S59: Words := [0xffb70472, 0xc062d46f, 0xfcd1887b, 0x38cc9913, 0x6d83bfc6, 0x7e44008e, 0x9b5e906c, 0x54cb266b]
  const S60: Words := [0xb6ae8fff, 0xffb70472, 0xc062d46f, 0xfcd1887b, 0xb21bad3d, 0x6d83bfc6, 0x7e44008e, 0x9b5e906c]
  const S61: Words := [0xb85e2ce9, 0xb6ae8fff, 0xffb70472, 0xc062d46f, 0x961f4894, 0xb21bad3d, 0x6d83bfc6, 0x7e44008e]
  const S62: Words := [0x04d24d6c, 0xb85e2ce9, 0xb6ae8fff, 0xffb70472, 0x948d25b6, 0x961f4894, 0xb21bad3d, 0x6d83bfc6]
  const S63: Words := [0xd39a2165, 0x04d24d6c, 0xb85e2ce9, 0xb6ae8fff, 0xfb121210, 0x948d25b6, 0x961f4894, 0xb21bad3d]
  const S64: Words := [0x506e3058, 0xd39a2165, 0x04d24d6c, 0xb85e2ce9, 0x5ef50f24, 0xfb121210, 0x948d25b6, 0x961f4894]

  lemma Steps0()
    ensures Round(S0, 0x428a2f98, 0x61626380) == S1
    ensures Round(S1, 0x71374491, 0x00000000) == S2
    ensures Round(S2, 0xb5c0fbcf, 0x00000000) == S3
    ensures Round(S3, 0xe9b5dba5, 0x00000000) == S4
    ensures Round(S4, 0x3956c25b, 0x00000000) == S5
    ensures Round(S5, 0x59f111f1, 0x00000000) == S6
    ensures Round(S6, 0x923f82a4, 0x00000000) == S7
    ensures Round(S7, 0xab1c5ed5, 0x00000000) == S8
  {
  }

  lemma Steps8()
    ensures Round(S8, 0xd807aa98, 0x00000000) == S9
    ensures Round(S9, 0x12835b01, 0x00000000) == S10
    ensures Round(S10, 0x243185be, 0x00000000) == S11
    ensures Round(S11, 0x550c7dc3, 0x00000000) == S12
    ensures Round(S12, 0x72be5d74, 0x00000000) == S13
    ensures Round(S13, 0x80deb1fe, 0x00000000) == S14
    ensures Round(S14, 0x9bdc06a7, 0x00000000) == S15
    ensures Round(S15, 0xc19bf174, 0x00000018) == S16
  {
  }

  lemma Steps16()
    ensures Round(S16, 0xe49b69c1, 0x61626380) == S17
    ensures Round(S17, 0xefbe4786, 0x000f0000) == S18
    ensures Round(S18, 0x0fc19dc6, 0x7da86405) == S19
    ensures Round(S19, 0x240ca1cc, 0x600003c6) == S20
    ensures Round(S20, 0x2de92c6f, 0x3e9d7b78) == S21
    ensures Round(S21, 0x4a7484aa, 0x0183fc00) == S22
    ensures Round(S22, 0x5cb0a9dc, 0x12dcbfdb) == S23
    ensures Round(S23, 0x76f988da, 0xe2e2c38e) == S24
  {
  }

  lemma Steps24()
    ensures Round(S24, 0x983e5152, 0xc8215c1a) == S25
    ensures Round(S25, 0xa831c66d, 0xb73679a2) == S26
    ensures Round(S26, 0xb00327c8, 0xe5bc3909) == S27
    ensures Round(S27, 0xbf597fc7, 0x32663c5b) == S28
    ensures Round(S28, 0xc6e00bf3, 0x9d209d67) == S29
    ensures Round(S29, 0xd5a79147, 0xec8726cb) == S30
    ensures Round(S30, 0x06ca6351, 0x702138a4) == S31
    ensures Round(S31, 0x14292967, 0xd3b7973b) == S32
  {
  }

  lemma Steps32()
    ensures Round(S32, 0x27b70a85, 0x93f5997f) == S33
    ensures Round(S33, 0x2e1b2138, 0x3b68ba73) == S34
    ensures Round(S34, 0x4d2c6dfc, 0xaff4ffc1) == S35
    ensures Round(S35, 0x53380d13, 0xf10a5c62) == S36
    ensures Round(S36, 0x650a7354, 0x0a8b3996) == S37
    ensures Round(S37, 0x766a0abb, 0x72af830a) == S38
    ensures Round(S38, 0x81c2c92e, 0x9409e33e) == S39
    ensures Round(S39, 0x92722c85, 0x24641522) == S40
  {
  }

  lemma Steps40()
    ensures Round(S40, 0xa2bfe8a1, 0x9f47bf94) == S41
    ensures Round(S41, 0xa81a664b, 0xf0a64f5a) == S42
    ensures Round(S42, 0xc24b8b70, 0x3e246a79) == S43
    ensures Round(S43, 0xc76c51a3, 0x27333ba3) == S44
    ensures Round(S44, 0xd192e819, 0x0c4763f2) == S45
    ensures Round(S45, 0xd6990624, 0x840abf27) == S46
    ensures Round(S46, 0xf40e3585, 0x7a290d5d) == S47
    ensures Round(S47, 0x106aa070, 0x065c43da) == S48
  {
  }

  lemma Steps48()
    ensures Round(S48, 0x19a4c116, 0xfb3e89cb) == S49
    ensures Round(S49, 0x1e376c08, 0xcc7617db) == S50
    ensures Round(S50, 0x2748774c, 0xb9e66c34) == S51
    ensures Round(S51, 0x34b0bcb5, 0xa9993667) == S52
    ensures Round(S52, 0x391c0cb3, 0x84badedd) == S53
    ensures Round(S53, 0x4ed8aa4a, 0xc21462bc) == S54
    ensures Round(S54, 0x5b9cca4f, 0x1487472c) == S55
    ensures Round(S55, 0x682e6ff3, 0xb20f7a99) == S56
  {
  }

  lemma Steps56()
    ensures Round(S56, 0x748f82ee, 0xef57b9cd) == S57
    ensures Round(S57, 0x78a5636f, 0xebe6b238) == S58
    ensures Round(S58, 0x84c87814, 0x9fe3095e) == S59
    ensures Round(S59, 0x8cc70208, 0x78bc8d4b) == S60
    ensures Round(S60, 0x90befffa, 0xa43fcf15) == S61
    ensures Round(S61, 0xa4506ceb, 0x668b2ff8) == S62
    ensures Round(S62, 0xbef9a3f7, 0xeeaba2cc) == S63
    ensures Round(S63, 0xc67178f2, 0x12b1edeb) == S64
  {
  }

  lemma Keys0()
    ensures Row(K(), 0, [0x428a2f98, 0x71374491, 0xb5c0fbcf, 0xe9b5dba5,
                        0x3956c25b, 0x59f111f1, 0x923f82a4, 0xab1c5ed5])
  {
  }

  lemma Keys8()
    ensures Row(K(), 8, [0xd807aa98, 0x12835b01, 0x243185be, 0x550c7dc3,
                        0x72be5d74, 0x80deb1fe, 0x9bdc06a7, 0xc19bf174])
  {
  }

  lemma Keys16()
    ensures Row(K(), 16, [0xe49b69c1, 0xefbe4786, 0x0fc19dc6, 0x240ca1cc,
                        0x2de92c6f, 0x4a7484aa, 0x5cb0a9dc, 0x76f988da])
  {
  }

  lemma Keys24()
    ensures Row(K(), 24, [0x983e5152, 0xa831c66d, 0xb00327c8, 0xbf597fc7,
                        0xc6e00bf3, 0xd5a79147, 0x06ca6351, 0x14292967])
  {
  }

  lemma Keys32()
    ensures Row(K(), 32, [0x27b70a85, 0x2e1b2138, 0x4d2c6dfc, 0x53380d13,
                        0x650a7354, 0x766a0abb, 0x81c2c92e, 0x92722c85])
  {
  }

  lemma Keys40()
    ensures Row(K(), 40, [0xa2bfe8a1, 0xa81a664b, 0xc24b8b70, 0xc76c51a3,
                        0xd192e819, 0xd6990624, 0xf40e3585, 0x106aa070])
  {
  }

  lemma Keys48()
    ensures Row(K(), 48, [0x19a4c116, 0x1e376c08, 0x2748774c, 0x34b0bcb5,
                        0x391c0cb3, 0x4ed8aa4a, 0x5b9cca4f, 0x682e6ff3])
  {
  }

  lemma Keys56()
    ensures Row(K(), 56, [0x748f82ee, 0x78a5636f, 0x84c87814, 0x8cc70208,
                        0x90befffa, 0xa4506ceb, 0xbef9a3f7, 0xc67178f2])
  {
  }

  lemma Rounds0(w: seq<bv32>)
    requires |w| == 64 && Row(w, 0, W0) && Rounds(INITIAL, w, 0) == S0
    ensures Rounds(INITIAL, w, 8) == S8
  {
    hide Round, K;
    Keys0();
    Steps0();
    assert Rounds(INITIAL, w, 1) == S1 && Rounds(INITIAL, w, 2) == S2 && Rounds(INITIAL, w, 3) == S3;
    assert Rounds(INITIAL, w, 4) == S4 && Rounds(INITIAL, w, 5) == S5 && Rounds(INITIAL, w, 6) == S6;
    assert Rounds(INITIAL, w, 7) == S7;
  }

  lemma Rounds8(w: seq<bv32>)
    requires |w| == 64 && Row(w, 8, W8) && Rounds(INITIAL, w, 8) == S8
    ensures Rounds(INITIAL, w, 16) == S16
  {
    hide Round, K;
    Keys8();
    Steps8();
    assert Rounds(INITIAL, w, 9) == S9 && Rounds(INITIAL, w, 10) == S10 && Rounds(INITIAL, w, 11) == S11;
    assert Rounds(INITIAL, w, 12) == S12 && Rounds(INITIAL, w, 13) == S13 && Rounds(INITIAL, w, 14) == S14;
    assert Rounds(INITIAL, w, 15) == S15;
  }

  lemma Rounds16(w: seq<bv32>)
    requires |w| == 64 && Row(w, 16, W16) && Rounds(INITIAL, w, 16) == S16
    ensures Rounds(INITIAL, w, 24) == S24
  {
    hide Round, K;
    Keys16();
    Steps16();
    assert Rounds(INITIAL, w, 17) == S17 && Rounds(INITIAL, w, 18) == S18 && Rounds(INITIAL, w, 19) == S19;
    assert Rounds(INITIAL, w, 20) == S20 && Rounds(INITIAL, w, 21) == S21 && Rounds(INITIAL, w, 22) == S22;
    assert Rounds(INITIAL, w, 23) == S23;
  }

  lemma Rounds24(w: seq<bv32>)
    requires |w| == 64 && Row(w, 24, W24) && Rounds(INITIAL, w, 24) == S24
    ensures Rounds(INITIAL, w, 32) == S32
  {
    hide Round, K;
    Keys24();
    Steps24();
    assert Rounds(INITIAL, w, 25) == S25 && Rounds(INITIAL, w, 26) == S26 && Rounds(INITIAL, w, 27) == S27;
    assert Rounds(INITIAL, w, 28) == S28 && Rounds(INITIAL, w, 29) == S29 && Rounds(INITIAL, w, 30) == S30;
    assert Rounds(INITIAL, w, 31) == S31;
  }

  lemma Rounds32(w: seq<bv32>)
    requires |w| == 64 && Row(w, 32, W32) && Rounds(INITIAL, w, 32) == S32
    ensures Rounds(INITIAL, w, 40) == S40
  {
    hide Round, K;
    Keys32();
    Steps32();
    assert Rounds(INITIAL, w, 33) == S33 && Rounds(INITIAL, w, 34) == S34 && Rounds(INITIAL, w, 35) == S35;
    assert Rounds(INITIAL, w, 36) == S36 && Rounds(INITIAL, w, 37) == S37 && Rounds(INITIAL, w, 38) == S38;
    assert Rounds(INITIAL, w, 39) == S39;
  }

  lemma Rounds40(w: seq<bv32>)
    requires |w| == 64 && Row(w, 40, W40) && Rounds(INITIAL, w, 40) == S40
    ensures Rounds(INITIAL, w, 48) == S48
  {
    hide Round, K;
    Keys40();
    Steps40();
    assert Rounds(INITIAL, w, 41) == S41 && Rounds(INITIAL, w, 42) == S42 && Rounds(INITIAL, w, 43) == S43;
    assert Rounds(INITIAL, w, 44) == S44 && Rounds(INITIAL, w, 45) == S45 && Rounds(INITIAL, w, 46) == S46;
    assert Rounds(INITIAL, w, 47) == S47;
  }

  lemma Rounds48(w: seq<bv32>)
    requires |w| == 64 && Row(w, 48, W48) && Rounds(INITIAL, w, 48) == S48
    ensures Rounds(INITIAL, w, 56) == S56
  {
    hide Round, K;
    Keys48();
    Steps48();
    assert Rounds(INITIAL, w, 49) == S49 && Rounds(INITIAL, w, 50) == S50 && Rounds(INITIAL, w, 51) == S51;
    assert Rounds(INITIAL, w, 52) == S52 && Rounds(INITIAL, w, 53) == S53 && Rounds(INITIAL, w, 54) == S54;
    assert Rounds(INITIAL, w, 55) == S55;
  }

  lemma Rounds56(w: seq<bv32>)
    requires |w| == 64 && Row(w, 56, W56) && Rounds(INITIAL, w, 56) == S56
    ensures Rounds(INITIAL, w, 64) == S64
  {
    hide Round, K;
    Keys56();
    Steps56();
    assert Rounds(INITIAL, w, 57) == S57 && Rounds(INITIAL, w, 58) == S58 && Rounds(INITIAL, w, 59) == S59;
    assert Rounds(INITIAL, w, 60) == S60 && Rounds(INITIAL, w, 61) == S61 && Rounds(INITIAL, w, 62) == S62;
    assert Rounds(INITIAL, w, 63) == S63;
  }

  // The digest

  /** The message, the end marker, zeros and the length in bits. */
  const ABC_BLOCK: Block := [97, 98, 99, 0x80] + Zeros(56) + [0, 0, 0, 24]

  const ABC_WORDS: Words := [
    0xba7816bf, 0x8f01cfea, 0x414140de, 0x5dae2223, 0xb00361a3, 0x96177a9c, 0xb410ff61, 0xf20015ad
  ]

  const ABC_DIGEST: seq<Bytes> := [
    [0xba, 0x78, 0x16, 0xbf], [0x8f, 0x01, 0xcf, 0xea],
    [0x41, 0x41, 0x40, 0xde], [0x5d, 0xae, 0x22, 0x23],
    [0xb0, 0x03, 0x61, 0xa3], [0x96, 0x17, 0x7a, 0x9c],
    [0xb4, 0x10, 0xff, 0x61], [0xf2, 0x00, 0x15, 0xad]
  ]

  /** All bytes of a sequence of rows. */
  function Joined(rows: seq<Bytes>): (b: Bytes)
  {
    if rows == [] then [] else rows[0] + Joined(rows[1..])
  }

  lemma AbcPadded()
    ensures Pad(ABC) == ABC_BLOCK
  {
    assert PadZeros(3) == 52;
    assert BE(24, 8) == [0, 0, 0, 0, 0, 0, 0, 24];
  }

  lemma ThreeWords()
    ensures 0x61626380 as bv32 == 0x61626380 && 0x18 as bv32 == 0x18 && 0 as bv32 == 0
  {
  }

  lemma AbcBytes(k: nat)
    requires k < 64
    ensures ABC_BLOCK[k] == if k < 3 then 97 + k else if k == 3 then 0x80 else if k == 63 then 24 else 0
  {
  }

  lemma LoadIs(b: Bytes, i: nat, n: nat)
    requires 4 * i + 4 <= |b| && FromBytes(b[4 * i], b[4 * i + 1], b[4 * i + 2], b[4 * i + 3]) == n
    ensures n < U32 && LoadWord(b, i) == n as bv32
  {
  }

  /** The number in word `i` of the block. */
  lemma AbcNumber(i: nat)
    requires i < 16
    ensures var b := ABC_BLOCK;
            FromBytes(b[4 * i], b[4 * i + 1], b[4 * i + 2], b[4 * i + 3])
            == if i == 0 then 0x61626380 else if i == 15 then 0x18 else 0
  {
    AbcBytes(4 * i);
    AbcBytes(4 * i + 1);
    AbcBytes(4 * i + 2);
    AbcBytes(4 * i + 3);
  }

  lemma AbcLoads(i: nat)
    requires i < 16
    ensures LoadWord(ABC_BLOCK, i) == if i == 0 then 0x61626380 else if i == 15 then 0x18 else 0
  {
    hide LoadWord, FromBytes;
    AbcNumber(i);
    LoadIs(ABC_BLOCK, i, if i == 0 then 0x61626380 else if i == 15 then 0x18 else 0);
    ThreeWords();
  }

  lemma AbcSchedule()
    ensures var w := Schedule(ABC_BLOCK, 64);
            && Row(w, 0, W0) && Row(w, 8, W8) && Row(w, 16, W16) && Row(w, 24, W24)
            && Row(w, 32, W32) && Row(w, 40, W40) && Row(w, 48, W48) && Row(w, 56, W56)
  {
    hide Schedule, LoadWord, Mixes;
    var w := Schedule(ABC_BLOCK, 64);
    forall i | 0 <= i < 64
      ensures if i < 16 then w[i] == if i == 0 then 0x61626380 else if i == 15 then 0x18 else 0 else Mixes(w, i)
    {
      ScheduleMixes(ABC_BLOCK, i);
      if i < 16 {
        AbcLoads(i);
      }
    }
    Words16(w);
    Words24(w);
    Words32(w);
    Words40(w);
    Words48(w);
    Words56(w);
  }

  lemma AbcCompressed()
    ensures Compress(INITIAL, ABC_BLOCK) == ABC_WORDS
  {
    hide Rounds, Schedule, Row;
    var w := Schedule(ABC_BLOCK, 64);
    AbcSchedule();
    assert Rounds(INITIAL, w, 0) == S0 by { NoRounds(w); }
    Rounds0(w);
    Rounds8(w);
    Rounds16(w);
    Rounds24(w);
    Rounds32(w);
    Rounds40(w);
    Rounds48(w);
    Rounds56(w);
  }

  lemma NoRounds(w: seq<bv32>)
    requires |w| == 64
    ensures Rounds(INITIAL, w, 0) == S0
  {
  }

  /** SHA-256("abc"). */
  lemma AbcDigest()
    ensures Hash(ABC) == Joined(ABC_DIGEST)
  {
    hide Compress;
    AbcPadded();
    AbsorbOne(INITIAL, ABC_BLOCK);
    AbcCompressed();
    AbcOutput();
  }

  lemma {:induction false} SerializedIs(s: seq<bv32>, rows: seq<Bytes>)
    requires |rows| == |s| && forall i :: 0 <= i < |s| ==> rows[i] == BE(s[i] as int, 4)
    ensures Serialized(s) == Joined(rows)
    decreases |s|
  {
    hide BE;
    if s != [] {
      SerializedIs(s[1..], rows[1..]);
    }
  }

  lemma FourBytes(n: nat)
    requires n < U32
    ensures BE(n, 4) == [n / 0x100_0000, n / 0x1_0000 % 0x100, n / 0x100 % 0x100, n % 0x100]
  {
    assert BE(n / 0x100_0000, 1) == [n / 0x100_0000];
    assert BE(n / 0x1_0000, 2) == BE(n / 0x100_0000, 1) + [n / 0x1_0000 % 0x100];
    assert BE(n / 0x100, 3) == BE(n / 0x1_0000, 2) + [n / 0x100 % 0x100];
  }

  lemma Digest0()
    ensures BE(ABC_WORDS[0] as int, 4) == ABC_DIGEST[0]
  {
    hide BE;
    assert ABC_WORDS[0] as int == 0xba7816bf;
    FourBytes(0xba7816bf);
  }

  lemma Digest1()
    ensures BE(ABC_WORDS[1] as int, 4) == ABC_DIGEST[1]
  {
    hide BE;
    assert ABC_WORDS[1] as int == 0x8f01cfea;
    FourBytes(0x8f01cfea);
  }

  lemma Digest2()
    ensures BE(ABC_WORDS[2] as int, 4) == ABC_DIGEST[2]
  {
    hide BE;
    assert ABC_WORDS[2] as int == 0x414140de;
    FourBytes(0x414140de);
  }

  lemma Digest3()
    ensures BE(ABC_WORDS[3] as int, 4) == ABC_DIGEST[3]
  {
    hide BE;
    assert ABC_WORDS[3] as int == 0x5dae2223;
    FourBytes(0x5dae2223);
  }

  lemma Digest4()
    ensures BE(ABC_WORDS[4] as int, 4) == ABC_DIGEST[4]
  {
    hide BE;
    assert ABC_WORDS[4] as int == 0xb00361a3;
    FourBytes(0xb00361a3);
  }

  lemma Digest5()
    ensures BE(ABC_WORDS[5] as int, 4) == ABC_DIGEST[5]
  {
    hide BE;
    assert ABC_WORDS[5] as int == 0x96177a9c;
    FourBytes(0x96177a9c);
  }

  lemma Digest6()
    ensures BE(ABC_WORDS[6] as int, 4) == ABC_DIGEST[6]
  {
    hide BE;
    assert ABC_WORDS[6] as int == 0xb410ff61;
    FourBytes(0xb410ff61);
  }

  lemma Digest7()
    ensures BE(ABC_WORDS[7] as int, 4) == ABC_DIGEST[7]
  {
    hide BE;
    assert ABC_WORDS[7] as int == 0xf20015ad;
    FourBytes(0xf20015ad);
  }

  lemma AbcOutput()
    ensures Output(ABC_WORDS) == Joined(ABC_DIGEST)
  {
    hide Serialized, BE, Joined;
    Digest0();
    Digest1();
    Digest2();
    Digest3();
    Digest4();
    Digest5();
    Digest6();
    Digest7();
    SerializedIs(ABC_WORDS, ABC_DIGEST);
  }
}

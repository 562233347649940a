/** The digests of "abc". sha2_vectors.py writes this file. */
module Sha2Vectors {
  import opened Words
  import opened Padding
  import opened Sha2
  import opened Sha2Variants
  import opened Sha2Steps

  const BLOCK_256: seq<Word> := [0x61626380, 0x00000000, 0x00000000, 0x00000000, 0x00000000, 0x00000000, 0x00000000,
      0x00000000, 0x00000000, 0x00000000, 0x00000000, 0x00000000, 0x00000000, 0x00000000, 0x00000000, 0x00000018]

  predicate Is256(p: Parameters) {
    && Sound(p) && p.bits == 32 && p.Rounds() == 64
    && p.big0 == Sigma(2, 13, 22) && p.big1 == Sigma(6, 11, 25)
    && p.small0 == Sigma(7, 18, 3) && p.small1 == Sigma(17, 19, 10)
  }

  lemma Row256_0(p: Parameters)
    requires p.constants == K256_0 + K256_1 + K256_2 + K256_3 + K256_4 + K256_5 + K256_6 + K256_7
    ensures |p.constants| == 64
    ensures p.constants[0] == 0x428a2f98
    ensures p.constants[1] == 0x71374491
    ensures p.constants[2] == 0xb5c0fbcf
    ensures p.constants[3] == 0xe9b5dba5
    ensures p.constants[4] == 0x3956c25b
    ensures p.constants[5] == 0x59f111f1
    ensures p.constants[6] == 0x923f82a4
    ensures p.constants[7] == 0xab1c5ed5
  {
  }

  lemma Row256_1(p: Parameters)
    requires p.constants == K256_0 + K256_1 + K256_2 + K256_3 + K256_4 + K256_5 + K256_6 + K256_7
    ensures |p.constants| == 64
    ensures p.constants[8] == 0xd807aa98
    ensures p.constants[9] == 0x12835b01
    ensures p.constants[10] == 0x243185be
    ensures p.constants[11] == 0x550c7dc3
    ensures p.constants[12] == 0x72be5d74
    ensures p.constants[13] == 0x80deb1fe
    ensures p.constants[14] == 0x9bdc06a7
    ensures p.constants[15] == 0xc19bf174
  {
  }

  lemma Row256_2(p: Parameters)
    requires p.constants == K256_0 + K256_1 + K256_2 + K256_3 + K256_4 + K256_5 + K256_6 + K256_7
    ensures |p.constants| == 64
    ensures p.constants[16] == 0xe49b69c1
    ensures p.constants[17] == 0xefbe4786
    ensures p.constants[18] == 0x0fc19dc6
    ensures p.constants[19] == 0x240ca1cc
    ensures p.constants[20] == 0x2de92c6f
    ensures p.constants[21] == 0x4a7484aa
    ensures p.constants[22] == 0x5cb0a9dc
    ensures p.constants[23] == 0x76f988da
  {
  }

  lemma Row256_3(p: Parameters)
    requires p.constants == K256_0 + K256_1 + K256_2 + K256_3 + K256_4 + K256_5 + K256_6 + K256_7
    ensures |p.constants| == 64
    ensures p.constants[24] == 0x983e5152
    ensures p.constants[25] == 0xa831c66d
    ensures p.constants[26] == 0xb00327c8
    ensures p.constants[27] == 0xbf597fc7
    ensures p.constants[28] == 0xc6e00bf3
    ensures p.constants[29] == 0xd5a79147
    ensures p.constants[30] == 0x06ca6351
    ensures p.constants[31] == 0x14292967
  {
  }

  lemma Row256_4(p: Parameters)
    requires p.constants == K256_0 + K256_1 + K256_2 + K256_3 + K256_4 + K256_5 + K256_6 + K256_7
    ensures |p.constants| == 64
    ensures p.constants[32] == 0x27b70a85
    ensures p.constants[33] == 0x2e1b2138
    ensures p.constants[34] == 0x4d2c6dfc
    ensures p.constants[35] == 0x53380d13
    ensures p.constants[36] == 0x650a7354
    ensures p.constants[37] == 0x766a0abb
    ensures p.constants[38] == 0x81c2c92e
    ensures p.constants[39] == 0x92722c85
  {
  }

  lemma Row256_5(p: Parameters)
    requires p.constants == K256_0 + K256_1 + K256_2 + K256_3 + K256_4 + K256_5 + K256_6 + K256_7
    ensures |p.constants| == 64
    ensures p.constants[40] == 0xa2bfe8a1
    ensures p.constants[41] == 0xa81a664b
    ensures p.constants[42] == 0xc24b8b70
    ensures p.constants[43] == 0xc76c51a3
    ensures p.constants[44] == 0xd192e819
    ensures p.constants[45] == 0xd6990624
    ensures p.constants[46] == 0xf40e3585
    ensures p.constants[47] == 0x106aa070
  {
  }

  lemma Row256_6(p: Parameters)
    requires p.constants == K256_0 + K256_1 + K256_2 + K256_3 + K256_4 + K256_5 + K256_6 + K256_7
    ensures |p.constants| == 64
    ensures p.constants[48] == 0x19a4c116
    ensures p.constants[49] == 0x1e376c08
    ensures p.constants[50] == 0x2748774c
    ensures p.constants[51] == 0x34b0bcb5
    ensures p.constants[52] == 0x391c0cb3
    ensures p.constants[53] == 0x4ed8aa4a
    ensures p.constants[54] == 0x5b9cca4f
    ensures p.constants[55] == 0x682e6ff3
  {
  }

  lemma Row256_7(p: Parameters)
    requires p.constants == K256_0 + K256_1 + K256_2 + K256_3 + K256_4 + K256_5 + K256_6 + K256_7
    ensures |p.constants| == 64
    ensures p.constants[56] == 0x748f82ee
    ensures p.constants[57] == 0x78a5636f
    ensures p.constants[58] == 0x84c87814
    ensures p.constants[59] == 0x8cc70208
    ensures p.constants[60] == 0x90befffa
    ensures p.constants[61] == 0xa4506ceb
    ensures p.constants[62] == 0xbef9a3f7
    ensures p.constants[63] == 0xc67178f2
  {
  }

  lemma Words256_0(p: Parameters, block: seq<Word>)
    requires Is256(p) && block == BLOCK_256
    ensures W(p, block, 0) == 0x61626380
    ensures W(p, block, 1) == 0x00000000
    ensures W(p, block, 2) == 0x00000000
    ensures W(p, block, 3) == 0x00000000
    ensures W(p, block, 4) == 0x00000000
    ensures W(p, block, 5) == 0x00000000
    ensures W(p, block, 6) == 0x00000000
    ensures W(p, block, 7) == 0x00000000
  {
  }

  lemma Words256_1(p: Parameters, block: seq<Word>)
    requires Is256(p) && block == BLOCK_256
    ensures W(p, block, 8) == 0x00000000
    ensures W(p, block, 9) == 0x00000000
    ensures W(p, block, 10) == 0x00000000
    ensures W(p, block, 11) == 0x00000000
    ensures W(p, block, 12) == 0x00000000
    ensures W(p, block, 13) == 0x00000000
    ensures W(p, block, 14) == 0x00000000
    ensures W(p, block, 15) == 0x00000018
  {
  }

  lemma Words256_2(p: Parameters, block: seq<Word>)
    requires Is256(p) && block == BLOCK_256
    ensures W(p, block, 16) == 0x61626380
    ensures W(p, block, 17) == 0x000f0000
    ensures W(p, block, 18) == 0x7da86405
    ensures W(p, block, 19) == 0x600003c6
    ensures W(p, block, 20) == 0x3e9d7b78
    ensures W(p, block, 21) == 0x0183fc00
    ensures W(p, block, 22) == 0x12dcbfdb
    ensures W(p, block, 23) == 0xe2e2c38e
  {
    hide W;
    Words256_0(p, block);
    Words256_1(p, block);
    WordAt(p, block, 16, 0x61626380);
    WordAt(p, block, 17, 0x000f0000);
    WordAt(p, block, 18, 0x7da86405);
    WordAt(p, block, 19, 0x600003c6);
    WordAt(p, block, 20, 0x3e9d7b78);
    WordAt(p, block, 21, 0x0183fc00);
    WordAt(p, block, 22, 0x12dcbfdb);
    WordAt(p, block, 23, 0xe2e2c38e);
  }

  lemma Words256_3(p: Parameters, block: seq<Word>)
    requires Is256(p) && block == BLOCK_256
    ensures W(p, block, 24) == 0xc8215c1a
    ensures W(p, block, 25) == 0xb73679a2
    ensures W(p, block, 26) == 0xe5bc3909
    ensures W(p, block, 27) == 0x32663c5b
    ensures W(p, block, 28) == 0x9d209d67
    ensures W(p, block, 29) == 0xec8726cb
    ensures W(p, block, 30) == 0x702138a4
    ensures W(p, block, 31) == 0xd3b7973b
  {
    hide W;
    Words256_1(p, block);
    Words256_2(p, block);
    WordAt(p, block, 24, 0xc8215c1a);
    WordAt(p, block, 25, 0xb73679a2);
    WordAt(p, block, 26, 0xe5bc3909);
    WordAt(p, block, 27, 0x32663c5b);
    WordAt(p, block, 28, 0x9d209d67);
    WordAt(p, block, 29, 0xec8726cb);
    WordAt(p, block, 30, 0x702138a4);
    WordAt(p, block, 31, 0xd3b7973b);
  }

  lemma Words256_4(p: Parameters, block: seq<Word>)
    requires Is256(p) && block == BLOCK_256
    ensures W(p, block, 32) == 0x93f5997f
    ensures W(p, block, 33) == 0x3b68ba73
    ensures W(p, block, 34) == 0xaff4ffc1
    ensures W(p, block, 35) == 0xf10a5c62
    ensures W(p, block, 36) == 0x0a8b3996
    ensures W(p, block, 37) == 0x72af830a
    ensures W(p, block, 38) == 0x9409e33e
    ensures W(p, block, 39) == 0x24641522
  {
    hide W;
    Words256_2(p, block);
    Words256_3(p, block);
    WordAt(p, block, 32, 0x93f5997f);
    WordAt(p, block, 33, 0x3b68ba73);
    WordAt(p, block, 34, 0xaff4ffc1);
    WordAt(p, block, 35, 0xf10a5c62);
    WordAt(p, block, 36, 0x0a8b3996);
    WordAt(p, block, 37, 0x72af830a);
    WordAt(p, block, 38, 0x9409e33e);
    WordAt(p, block, 39, 0x24641522);
  }

  lemma Words256_5(p: Parameters, block: seq<Word>)
    requires Is256(p) && block == BLOCK_256
    ensures W(p, block, 40) == 0x9f47bf94
    ensures W(p, block, 41) == 0xf0a64f5a
    ensures W(p, block, 42) == 0x3e246a79
    ensures W(p, block, 43) == 0x27333ba3
    ensures W(p, block, 44) == 0x0c4763f2
    ensures W(p, block, 45) == 0x840abf27
    ensures W(p, block, 46) == 0x7a290d5d
    ensures W(p, block, 47) == 0x065c43da
  {
    hide W;
    Words256_3(p, block);
    Words256_4(p, block);
    WordAt(p, block, 40, 0x9f47bf94);
    WordAt(p, block, 41, 0xf0a64f5a);
    WordAt(p, block, 42, 0x3e246a79);
    WordAt(p, block, 43, 0x27333ba3);
    WordAt(p, block, 44, 0x0c4763f2);
    WordAt(p, block, 45, 0x840abf27);
    WordAt(p, block, 46, 0x7a290d5d);
    WordAt(p, block, 47, 0x065c43da);
  }

  lemma Words256_6(p: Parameters, block: seq<Word>)
    requires Is256(p) && block == BLOCK_256
    ensures W(p, block, 48) == 0xfb3e89cb
    ensures W(p, block, 49) == 0xcc7617db
    ensures W(p, block, 50) == 0xb9e66c34
    ensures W(p, block, 51) == 0xa9993667
    ensures W(p, block, 52) == 0x84badedd
    ensures W(p, block, 53) == 0xc21462bc
    ensures W(p, block, 54) == 0x1487472c
    ensures W(p, block, 55) == 0xb20f7a99
  {
    hide W;
    Words256_4(p, block);
    Words256_5(p, block);
    WordAt(p, block, 48, 0xfb3e89cb);
    WordAt(p, block, 49, 0xcc7617db);
    WordAt(p, block, 50, 0xb9e66c34);
    WordAt(p, block, 51, 0xa9993667);
    WordAt(p, block, 52, 0x84badedd);
    WordAt(p, block, 53, 0xc21462bc);
    WordAt(p, block, 54, 0x1487472c);
    WordAt(p, block, 55, 0xb20f7a99);
  }

  lemma Words256_7(p: Parameters, block: seq<Word>)
    requires Is256(p) && block == BLOCK_256
    ensures W(p, block, 56) == 0xef57b9cd
    ensures W(p, block, 57) == 0xebe6b238
    ensures W(p, block, 58) == 0x9fe3095e
    ensures W(p, block, 59) == 0x78bc8d4b
    ensures W(p, block, 60) == 0xa43fcf15
    ensures W(p, block, 61) == 0x668b2ff8
    ensures W(p, block, 62) == 0xeeaba2cc
    ensures W(p, block, 63) == 0x12b1edeb
  {
    hide W;
    Words256_5(p, block);
    Words256_6(p, block);
    WordAt(p, block, 56, 0xef57b9cd);
    WordAt(p, block, 57, 0xebe6b238);
    WordAt(p, block, 58, 0x9fe3095e);
    WordAt(p, block, 59, 0x78bc8d4b);
    WordAt(p, block, 60, 0xa43fcf15);
    WordAt(p, block, 61, 0x668b2ff8);
    WordAt(p, block, 62, 0xeeaba2cc);
    WordAt(p, block, 63, 0x12b1edeb);
  }

  lemma States256_0(p: Parameters, start: Registers, block: seq<Word>)
    requires Is256(p) && block == BLOCK_256
    requires p.constants == K256_0 + K256_1 + K256_2 + K256_3 + K256_4 + K256_5 + K256_6 + K256_7
    requires Rounds(p, start, block, 0) == Registers(0x6a09e667, 0xbb67ae85, 0x3c6ef372, 0xa54ff53a, 0x510e527f,
        0x9b05688c, 0x1f83d9ab, 0x5be0cd19)
    ensures Rounds(p, start, block, 8) == Registers(0x85a07b5f, 0xe5030380, 0x2b4209f5, 0x04409a6a, 0x0c657a79,
        0x9b27a401, 0x714260ad, 0x43ada245)
  {
    hide W, Rounds;
    Words256_0(p, block);
    Row256_0(p);
    StateAt(p, start, block, 0, Registers(0x5d6aebcd, 0x6a09e667, 0xbb67ae85, 0x3c6ef372, 0xfa2a4622, 0x510e527f,
        0x9b05688c, 0x1f83d9ab));
    StateAt(p, start, block, 1, Registers(0x5a6ad9ad, 0x5d6aebcd, 0x6a09e667, 0xbb67ae85, 0x78ce7989, 0xfa2a4622,
        0x510e527f, 0x9b05688c));
    StateAt(p, start, block, 2, Registers(0xc8c347a7, 0x5a6ad9ad, 0x5d6aebcd, 0x6a09e667, 0xf92939eb, 0x78ce7989,
        0xfa2a4622, 0x510e527f));
    StateAt(p, start, block, 3, Registers(0xd550f666, 0xc8c347a7, 0x5a6ad9ad, 0x5d6aebcd, 0x24e00850, 0xf92939eb,
        0x78ce7989, 0xfa2a4622));
    StateAt(p, start, block, 4, Registers(0x04409a6a, 0xd550f666, 0xc8c347a7, 0x5a6ad9ad, 0x43ada245, 0x24e00850,
        0xf92939eb, 0x78ce7989));
    StateAt(p, start, block, 5, Registers(0x2b4209f5, 0x04409a6a, 0xd550f666, 0xc8c347a7, 0x714260ad, 0x43ada245,
        0x24e00850, 0xf92939eb));
    StateAt(p, start, block, 6, Registers(0xe5030380, 0x2b4209f5, 0x04409a6a, 0xd550f666, 0x9b27a401, 0x714260ad,
        0x43ada245, 0x24e00850));
    StateAt(p, start, block, 7, Registers(0x85a07b5f, 0xe5030380, 0x2b4209f5, 0x04409a6a, 0x0c657a79, 0x9b27a401,
        0x714260ad, 0x43ada245));
  }

  lemma States256_1(p: Parameters, start: Registers, block: seq<Word>)
    requires Is256(p) && block == BLOCK_256
    requires p.constants == K256_0 + K256_1 + K256_2 + K256_3 + K256_4 + K256_5 + K256_6 + K256_7
    requires Rounds(p, start, block, 8) == Registers(0x85a07b5f, 0xe5030380, 0x2b4209f5, 0x04409a6a, 0x0c657a79,
        0x9b27a401, 0x714260ad, 0x43ada245)
    ensures Rounds(p, start, block, 16) == Registers(0xb0fa238e, 0xc0645fde, 0xd932eb16, 0x87912990, 0x07590dcd,
        0x0b92f20c, 0x745a48de, 0x1e578218)
  {
    hide W, Rounds;
    Words256_1(p, block);
    Row256_1(p);
    StateAt(p, start, block, 8, Registers(0x8e04ecb9, 0x85a07b5f, 0xe5030380, 0x2b4209f5, 0x32ca2d8c, 0x0c657a79,
        0x9b27a401, 0x714260ad));
    StateAt(p, start, block, 9, Registers(0x8c87346b, 0x8e04ecb9, 0x85a07b5f, 0xe5030380, 0x1cc92596, 0x32ca2d8c,
        0x0c657a79, 0x9b27a401));
    StateAt(p, start, block, 10, Registers(0x4798a3f4, 0x8c87346b, 0x8e04ecb9, 0x85a07b5f, 0x436b23e8, 0x1cc92596,
        0x32ca2d8c, 0x0c657a79));
    StateAt(p, start, block, 11, Registers(0xf71fc5a9, 0x4798a3f4, 0x8c87346b, 0x8e04ecb9, 0x816fd6e9, 0x436b23e8,
        0x1cc92596, 0x32ca2d8c));
    StateAt(p, start, block, 12, Registers(0x87912990, 0xf71fc5a9, 0x4798a3f4, 0x8c87346b, 0x1e578218, 0x816fd6e9,
        0x436b23e8, 0x1cc92596));
    StateAt(p, start, block, 13, Registers(0xd932eb16, 0x87912990, 0xf71fc5a9, 0x4798a3f4, 0x745a48de, 0x1e578218,
        0x816fd6e9, 0x436b23e8));
    StateAt(p, start, block, 14, Registers(0xc0645fde, 0xd932eb16, 0x87912990, 0xf71fc5a9, 0x0b92f20c, 0x745a48de,
        0x1e578218, 0x816fd6e9));
    StateAt(p, start, block, 15, Registers(0xb0fa238e, 0xc0645fde, 0xd932eb16, 0x87912990, 0x07590dcd, 0x0b92f20c,
        0x745a48de, 0x1e578218));
  }

  lemma States256_2(p: Parameters, start: Registers, block: seq<Word>)
    requires Is256(p) && block == BLOCK_256
    requires p.constants == K256_0 + K256_1 + K256_2 + K256_3 + K256_4 + K256_5 + K256_6 + K256_7
    requires Rounds(p, start, block, 16) == Registers(0xb0fa238e, 0xc0645fde, 0xd932eb16, 0x87912990, 0x07590dcd,
        0x0b92f20c, 0x745a48de, 0x1e578218)
    ensures Rounds(p, start, block, 24) == Registers(0xc5d53d8d, 0xa7a3623f, 0xc2606d6d, 0x9dc68b63, 0xaa47c347,
        0x49f5114a, 0xe1257970, 0x8ada8930)
  {
    hide W, Rounds;
    Words256_2(p, block);
    Row256_2(p);
    StateAt(p, start, block, 16, Registers(0x21da9a9b, 0xb0fa238e, 0xc0645fde, 0xd932eb16, 0x8034229c, 0x07590dcd,
        0x0b92f20c, 0x745a48de));
    StateAt(p, start, block, 17, Registers(0xc2fbd9d1, 0x21da9a9b, 0xb0fa238e, 0xc0645fde, 0x846ee454, 0x8034229c,
        0x07590dcd, 0x0b92f20c));
    StateAt(p, start, block, 18, Registers(0xfe777bbf, 0xc2fbd9d1, 0x21da9a9b, 0xb0fa238e, 0xcc899961, 0x846ee454,
        0x8034229c, 0x07590dcd));
    StateAt(p, start, block, 19, Registers(0xe1f20c33, 0xfe777bbf, 0xc2fbd9d1, 0x21da9a9b, 0xb0638179, 0xcc899961,
        0x846ee454, 0x8034229c));
    StateAt(p, start, block, 20, Registers(0x9dc68b63, 0xe1f20c33, 0xfe777bbf, 0xc2fbd9d1, 0x8ada8930, 0xb0638179,
        0xcc899961, 0x846ee454));
    StateAt(p, start, block, 21, Registers(0xc2606d6d, 0x9dc68b63, 0xe1f20c33, 0xfe777bbf, 0xe1257970, 0x8ada8930,
        0xb0638179, 0xcc899961));
    StateAt(p, start, block, 22, Registers(0xa7a3623f, 0xc2606d6d, 0x9dc68b63, 0xe1f20c33, 0x49f5114a, 0xe1257970,
        0x8ada8930, 0xb0638179));
    StateAt(p, start, block, 23, Registers(0xc5d53d8d, 0xa7a3623f, 0xc2606d6d, 0x9dc68b63, 0xaa47c347, 0x49f5114a,
        0xe1257970, 0x8ada8930));
  }

  lemma States256_3(p: Parameters, start: Registers, block: seq<Word>)
    requires Is256(p) && block == BLOCK_256
    requires p.constants == K256_0 + K256_1 + K256_2 + K256_3 + K256_4 + K256_5 + K256_6 + K256_7
    requires Rounds(p, start, block, 24) == Registers(0xc5d53d8d, 0xa7a3623f, 0xc2606d6d, 0x9dc68b63, 0xaa47c347,
        0x49f5114a, 0xe1257970, 0x8ada8930)
    ensures Rounds(p, start, block, 32) == Registers(0x73b33bf5, 0xea992a22, 0xa0060b30, 0x363482c9, 0xba591112,
        0x0109ab3a, 0xade79437, 0x6112a3b7)
  {
    hide W, Rounds;
    Words256_3(p, block);
    Row256_3(p);
    StateAt(p, start, block, 24, Registers(0x1c2c2838, 0xc5d53d8d, 0xa7a3623f, 0xc2606d6d, 0x2823ef91, 0xaa47c347,
        0x49f5114a, 0xe1257970));
    StateAt(p, start, block, 25, Registers(0xcde8037d, 0x1c2c2838, 0xc5d53d8d, 0xa7a3623f, 0x14383d8e, 0x2823ef91,
        0xaa47c347, 0x49f5114a));
    StateAt(p, start, block, 26, Registers(0xb62ec4bc, 0xcde8037d, 0x1c2c2838, 0xc5d53d8d, 0xc74c6516, 0x14383d8e,
        0x2823ef91, 0xaa47c347));
    StateAt(p, start, block, 27, Registers(0x77d37528, 0xb62ec4bc, 0xcde8037d, 0x1c2c2838, 0xedffbff8, 0xc74c6516,
        0x14383d8e, 0x2823ef91));
    StateAt(p, start, block, 28, Registers(0x363482c9, 0x77d37528, 0xb62ec4bc, 0xcde8037d, 0x6112a3b7, 0xedffbff8,
        0xc74c6516, 0x14383d8e));
    StateAt(p, start, block, 29, Registers(0xa0060b30, 0x363482c9, 0x77d37528, 0xb62ec4bc, 0xade79437, 0x6112a3b7,
        0xedffbff8, 0xc74c6516));
    StateAt(p, start, block, 30, Registers(0xea992a22, 0xa0060b30, 0x363482c9, 0x77d37528, 0x0109ab3a, 0xade79437,
        0x6112a3b7, 0xedffbff8));
    StateAt(p, start, block, 31, Registers(0x73b33bf5, 0xea992a22, 0xa0060b30, 0x363482c9, 0xba591112, 0x0109ab3a,
        0xade79437, 0x6112a3b7));
  }

  lemma States256_4(p: Parameters, start: Registers, block: seq<Word>)
    requires Is256(p) && block == BLOCK_256
    requires p.constants == K256_0 + K256_1 + K256_2 + K256_3 + K256_4 + K256_5 + K256_6 + K256_7
    requires Rounds(p, start, block, 32) == Registers(0x73b33bf5, 0xea992a22, 0xa0060b30, 0x363482c9, 0xba591112,
        0x0109ab3a, 0xade79437, 0x6112a3b7)
    ensures Rounds(p, start, block, 40) == Registers(0x79ea687a, 0x6dc57a8a, 0x34df1604, 0x41a65cb1, 0x1efbc0a0,
        0xf0781bc8, 0xa507a53d, 0x0772a26b)
  {
    hide W, Rounds;
    Words256_4(p, block);
    Row256_4(p);
    StateAt(p, start, block, 32, Registers(0x98e12507, 0x73b33bf5, 0xea992a22, 0xa0060b30, 0x9cd9f5f6, 0xba591112,
        0x0109ab3a, 0xade79437));
    StateAt(p, start, block, 33, Registers(0xfe604df5, 0x98e12507, 0x73b33bf5, 0xea992a22, 0x59249dd3, 0x9cd9f5f6,
        0xba591112, 0x0109ab3a));
    StateAt(p, start, block, 34, Registers(0xa9a7738c, 0xfe604df5, 0x98e12507, 0x73b33bf5, 0x085f3833, 0x59249dd3,
        0x9cd9f5f6, 0xba591112));
    StateAt(p, start, block, 35, Registers(0x65a0cfe4, 0xa9a7738c, 0xfe604df5, 0x98e12507, 0xf4b002d6, 0x085f3833,
        0x59249dd3, 0x9cd9f5f6));
    StateAt(p, start, block, 36, Registers(0x41a65cb1, 0x65a0cfe4, 0xa9a7738c, 0xfe604df5, 0x0772a26b, 0xf4b002d6,
        0x085f3833, 0x59249dd3));
    StateAt(p, start, block, 37, Registers(0x34df1604, 0x41a65cb1, 0x65a0cfe4, 0xa9a7738c, 0xa507a53d, 0x0772a26b,
        0xf4b002d6, 0x085f3833));
    StateAt(p, start, block, 38, Registers(0x6dc57a8a, 0x34df1604, 0x41a65cb1, 0x65a0cfe4, 0xf0781bc8, 0xa507a53d,
        0x0772a26b, 0xf4b002d6));
    StateAt(p, start, block, 39, Registers(0x79ea687a, 0x6dc57a8a, 0x34df1604, 0x41a65cb1, 0x1efbc0a0, 0xf0781bc8,
        0xa507a53d, 0x0772a26b));
  }

  lemma States256_5(p: Parameters, start: Registers, block: seq<Word>)
    requires Is256(p) && block == BLOCK_256
    requires p.constants == K256_0 + K256_1 + K256_2 + K256_3 + K256_4 + K256_5 + K256_6 + K256_7
    requires Rounds(p, start, block, 40) == Registers(0x79ea687a, 0x6dc57a8a, 0x34df1604, 0x41a65cb1, 0x1efbc0a0,
        0xf0781bc8, 0xa507a53d, 0x0772a26b)
    ensures Rounds(p, start, block, 48) == Registers(0x4172328d, 0xa14c14b0, 0x72ab4b91, 0x26628815, 0xfecf0bc6,
        0xd57b94a9, 0xb7755da1, 0xa80f11f0)
  {
    hide W, Rounds;
    Words256_5(p, block);
    Row256_5(p);
    StateAt(p, start, block, 40, Registers(0xd6670766, 0x79ea687a, 0x6dc57a8a, 0x34df1604, 0x26352d63, 0x1efbc0a0,
        0xf0781bc8, 0xa507a53d));
    StateAt(p, start, block, 41, Registers(0xdf46652f, 0xd6670766, 0x79ea687a, 0x6dc57a8a, 0x838b2711, 0x26352d63,
        0x1efbc0a0, 0xf0781bc8));
    StateAt(p, start, block, 42, Registers(0x17aa0dfe, 0xdf46652f, 0xd6670766, 0x79ea687a, 0xdecd4715, 0x838b2711,
        0x26352d63, 0x1efbc0a0));
    StateAt(p, start, block, 43, Registers(0x9d4baf93, 0x17aa0dfe, 0xdf46652f, 0xd6670766, 0xfda24c2e, 0xdecd4715,
        0x838b2711, 0x26352d63));
    StateAt(p, start, block, 44, Registers(0x26628815, 0x9d4baf93, 0x17aa0dfe, 0xdf46652f, 0xa80f11f0, 0xfda24c2e,
        0xdecd4715, 0x838b2711));
    StateAt(p, start, block, 45, Registers(0x72ab4b91, 0x26628815, 0x9d4baf93, 0x17aa0dfe, 0xb7755da1, 0xa80f11f0,
        0xfda24c2e, 0xdecd4715));
    StateAt(p, start, block, 46, Registers(0xa14c14b0, 0x72ab4b91, 0x26628815, 0x9d4baf93, 0xd57b94a9, 0xb7755da1,
        0xa80f11f0, 0xfda24c2e));
    StateAt(p, start, block, 47, Registers(0x4172328d, 0xa14c14b0, 0x72ab4b91, 0x26628815, 0xfecf0bc6, 0xd57b94a9,
        0xb7755da1, 0xa80f11f0));
  }

  lemma States256_6(p: Parameters, start: Registers, block: seq<Word>)
    requires Is256(p) && block == BLOCK_256
    requires p.constants == K256_0 + K256_1 + K256_2 + K256_3 + K256_4 + K256_5 + K256_6 + K256_7
    requires Rounds(p, start, block, 48) == Registers(0x4172328d, 0xa14c14b0, 0x72ab4b91, 0x26628815, 0xfecf0bc6,
        0xd57b94a9, 0xb7755da1, 0xa80f11f0)
    ensures Rounds(p, start, block, 56) == Registers(0x38cc9913, 0x3ec45cdb, 0xf5702fdb, 0x101fd28f, 0x54cb266b,
        0xe50e1b4f, 0x9f4787c3, 0x529e7d00)
  {
    hide W, Rounds;
    Words256_6(p, block);
    Row256_6(p);
    StateAt(p, start, block, 48, Registers(0x05757ceb, 0x4172328d, 0xa14c14b0, 0x72ab4b91, 0xbd714038, 0xfecf0bc6,
        0xd57b94a9, 0xb7755da1));
    StateAt(p, start, block, 49, Registers(0xf11bfaa8, 0x05757ceb, 0x4172328d, 0xa14c14b0, 0x6e5c390c, 0xbd714038,
        0xfecf0bc6, 0xd57b94a9));
    StateAt(p, start, block, 50, Registers(0x7a0508a1, 0xf11bfaa8, 0x05757ceb, 0x4172328d, 0x52f1ccf7, 0x6e5c390c,
        0xbd714038, 0xfecf0bc6));
    StateAt(p, start, block, 51, Registers(0x886e7a22, 0x7a0508a1, 0xf11bfaa8, 0x05757ceb, 0x49231c1e, 0x52f1ccf7,
        0x6e5c390c, 0xbd714038));
    StateAt(p, start, block, 52, Registers(0x101fd28f, 0x886e7a22, 0x7a0508a1, 0xf11bfaa8, 0x529e7d00, 0x49231c1e,
        0x52f1ccf7, 0x6e5c390c));
    StateAt(p, start, block, 53, Registers(0xf5702fdb, 0x101fd28f, 0x886e7a22, 0x7a0508a1, 0x9f4787c3, 0x529e7d00,
        0x49231c1e, 0x52f1ccf7));
    StateAt(p, start, block, 54, Registers(0x3ec45cdb, 0xf5702fdb, 0x101fd28f, 0x886e7a22, 0xe50e1b4f, 0x9f4787c3,
        0x529e7d00, 0x49231c1e));
    StateAt(p, start, block, 55, Registers(0x38cc9913, 0x3ec45cdb, 0xf5702fdb, 0x101fd28f, 0x54cb266b, 0xe50e1b4f,
        0x9f4787c3, 0x529e7d00));
  }

  lemma States256_7(p: Parameters, start: Registers, block: seq<Word>)
    requires Is256(p) && block == BLOCK_256
    requires p.constants == K256_0 + K256_1 + K256_2 + K256_3 + K256_4 + K256_5 + K256_6 + K256_7
    requires Rounds(p, start, block, 56) == Registers(0x38cc9913, 0x3ec45cdb, 0xf5702fdb, 0x101fd28f, 0x54cb266b,
        0xe50e1b4f, 0x9f4787c3, 0x529e7d00)
    ensures Rounds(p, start, block, 64) == Registers(0x506e3058, 0xd39a2165, 0x04d24d6c, 0xb85e2ce9, 0x5ef50f24,
        0xfb121210, 0x948d25b6, 0x961f4894)
  {
    hide W, Rounds;
    Words256_7(p, block);
    Row256_7(p);
    StateAt(p, start, block, 56, Registers(0xfcd1887b, 0x38cc9913, 0x3ec45cdb, 0xf5702fdb, 0x9b5e906c, 0x54cb266b,
        0xe50e1b4f, 0x9f4787c3));
    StateAt(p, start, block, 57, Registers(0xc062d46f, 0xfcd1887b, 0x38cc9913, 0x3ec45cdb, 0x7e44008e, 0x9b5e906c,
        0x54cb266b, 0xe50e1b4f));
    StateAt(p, start, block, 58, Registers(0xffb70472, 0xc062d46f, 0xfcd1887b, 0x38cc9913, 0x6d83bfc6, 0x7e44008e,
        0x9b5e906c, 0x54cb266b));
    StateAt(p, start, block, 59, Registers(0xb6ae8fff, 0xffb70472, 0xc062d46f, 0xfcd1887b, 0xb21bad3d, 0x6d83bfc6,
        0x7e44008e, 0x9b5e906c));
    StateAt(p, start, block, 60, Registers(0xb85e2ce9, 0xb6ae8fff, 0xffb70472, 0xc062d46f, 0x961f4894, 0xb21bad3d,
        0x6d83bfc6, 0x7e44008e));
    StateAt(p, start, block, 61, Registers(0x04d24d6c, 0xb85e2ce9, 0xb6ae8fff, 0xffb70472, 0x948d25b6, 0x961f4894,
        0xb21bad3d, 0x6d83bfc6));
    StateAt(p, start, block, 62, Registers(0xd39a2165, 0x04d24d6c, 0xb85e2ce9, 0xb6ae8fff, 0xfb121210, 0x948d25b6,
        0x961f4894, 0xb21bad3d));
    StateAt(p, start, block, 63, Registers(0x506e3058, 0xd39a2165, 0x04d24d6c, 0xb85e2ce9, 0x5ef50f24, 0xfb121210,
        0x948d25b6, 0x961f4894));
  }

  lemma Block256(p: Parameters)
    requires Is256(p)
    ensures |Pad(ABC, 64, 8)| == 64
    ensures BlockWords(p, Pad(ABC, 64, 8)) == BLOCK_256
  {
    hide Pad, WordsOf, WordOf;
    var s: seq<byte> := [0x61, 0x62, 0x63, 0x80];
    PadWholeBlocks(ABC, 64, 8);
    AbcPadded(64, 8, 4);
    AbcWords(64, 8, 4);
    FourBytes(0x61, 0x62, 0x63, 0x80);
    ZerosAppended(s, 0);
    assert AppendByte(0x00000000, 0x61) == 0x00000061;
    assert AppendByte(0x00000061, 0x62) == 0x00006162;
    assert AppendByte(0x00006162, 0x63) == 0x00616263;
    assert AppendByte(0x00616263, 0x80) == 0x61626380;
    assert [0x61626380] + (seq(14, _ => 0 as Word) + [24]) == BLOCK_256;
  }

  lemma End256()
    ensures Rounds(SHA256, SHA256.initial, BLOCK_256, 64) == Registers(0x506e3058, 0xd39a2165, 0x04d24d6c, 0xb85e2ce9,
        0x5ef50f24, 0xfb121210, 0x948d25b6, 0x961f4894)
  {
    hide W, Round;
    var p, start := SHA256, SHA256.initial;
    assert Rounds(p, start, BLOCK_256, 0) == start;
    States256_0(p, start, BLOCK_256);
    States256_1(p, start, BLOCK_256);
    States256_2(p, start, BLOCK_256);
    States256_3(p, start, BLOCK_256);
    States256_4(p, start, BLOCK_256);
    States256_5(p, start, BLOCK_256);
    States256_6(p, start, BLOCK_256);
    States256_7(p, start, BLOCK_256);
  }

  lemma DigestWord256_0()
    ensures BytesOf(0xba7816bf, 4) == [0xba, 0x78, 0x16, 0xbf]
  {
    hide BytesOf;
    FourOf(0xba7816bf, 0xba7816, 0xba78, 0xba);
  }

  lemma DigestWord256_1()
    ensures BytesOf(0x8f01cfea, 4) == [0x8f, 0x01, 0xcf, 0xea]
  {
    hide BytesOf;
    FourOf(0x8f01cfea, 0x8f01cf, 0x8f01, 0x8f);
  }

  lemma DigestWord256_2()
    ensures BytesOf(0x414140de, 4) == [0x41, 0x41, 0x40, 0xde]
  {
    hide BytesOf;
    FourOf(0x414140de, 0x414140, 0x4141, 0x41);
  }

  lemma DigestWord256_3()
    ensures BytesOf(0x5dae2223, 4) == [0x5d, 0xae, 0x22, 0x23]
  {
    hide BytesOf;
    FourOf(0x5dae2223, 0x5dae22, 0x5dae, 0x5d);
  }

  lemma DigestWord256_4()
    ensures BytesOf(0xb00361a3, 4) == [0xb0, 0x03, 0x61, 0xa3]
  {
    hide BytesOf;
    FourOf(0xb00361a3, 0xb00361, 0xb003, 0xb0);
  }

  lemma DigestWord256_5()
    ensures BytesOf(0x96177a9c, 4) == [0x96, 0x17, 0x7a, 0x9c]
  {
    hide BytesOf;
    FourOf(0x96177a9c, 0x96177a, 0x9617, 0x96);
  }

  lemma DigestWord256_6()
    ensures BytesOf(0xb410ff61, 4) == [0xb4, 0x10, 0xff, 0x61]
  {
    hide BytesOf;
    FourOf(0xb410ff61, 0xb410ff, 0xb410, 0xb4);
  }

  lemma DigestWord256_7()
    ensures BytesOf(0xf20015ad, 4) == [0xf2, 0x00, 0x15, 0xad]
  {
    hide BytesOf;
    FourOf(0xf20015ad, 0xf20015, 0xf200, 0xf2);
  }

  lemma EndSum256()
    ensures Plus(SHA256, SHA256.initial, Registers(0x506e3058, 0xd39a2165, 0x04d24d6c, 0xb85e2ce9, 0x5ef50f24,
        0xfb121210, 0x948d25b6, 0x961f4894)) == Registers(0xba7816bf, 0x8f01cfea, 0x414140de, 0x5dae2223, 0xb00361a3,
        0x96177a9c, 0xb410ff61, 0xf20015ad)
  {
  }

  lemma Abc256()
    ensures Sha256(ABC) == [
      0xba, 0x78, 0x16, 0xbf, 0x8f, 0x01, 0xcf, 0xea, 0x41, 0x41, 0x40, 0xde, 0x5d, 0xae, 0x22, 0x23,
      0xb0, 0x03, 0x61, 0xa3, 0x96, 0x17, 0x7a, 0x9c, 0xb4, 0x10, 0xff, 0x61, 0xf2, 0x00, 0x15, 0xad]
  {
    hide Pad, BlockWords, Rounds, Plus, Spelled, BytesOf, Digest;
    BothSound();
    Block256(SHA256);
    End256();
    OneBlock(SHA256, ABC, Registers(0x506e3058, 0xd39a2165, 0x04d24d6c, 0xb85e2ce9, 0x5ef50f24, 0xfb121210, 0x948d25b6,
        0x961f4894));
    EndSum256();
    SpelledRegisters(Registers(0xba7816bf, 0x8f01cfea, 0x414140de, 0x5dae2223, 0xb00361a3, 0x96177a9c, 0xb410ff61,
        0xf20015ad), 4);
    DigestWord256_0();
    DigestWord256_1();
    DigestWord256_2();
    DigestWord256_3();
    DigestWord256_4();
    DigestWord256_5();
    DigestWord256_6();
    DigestWord256_7();
  }

  const BLOCK_512: seq<Word> := [0x6162638000000000, 0x0000000000000000, 0x0000000000000000, 0x0000000000000000,
      0x0000000000000000, 0x0000000000000000, 0x0000000000000000, 0x0000000000000000, 0x0000000000000000,
      0x0000000000000000, 0x0000000000000000, 0x0000000000000000, 0x0000000000000000, 0x0000000000000000,
      0x0000000000000000, 0x0000000000000018]

  predicate Is512(p: Parameters) {
    && Sound(p) && p.bits == 64 && p.Rounds() == 80
    && p.big0 == Sigma(28, 34, 39) && p.big1 == Sigma(14, 18, 41)
    && p.small0 == Sigma(1, 8, 7) && p.small1 == Sigma(19, 61, 6)
  }

  lemma Row512_0(p: Parameters)
    requires p.constants == K512_0 + K512_1 + K512_2 + K512_3 + K512_4 + K512_5 + K512_6 + K512_7 + K512_8 + K512_9
    ensures |p.constants| == 80
    ensures p.constants[0] == 0x428a2f98d728ae22
    ensures p.constants[1] == 0x7137449123ef65cd
    ensures p.constants[2] == 0xb5c0fbcfec4d3b2f
    ensures p.constants[3] == 0xe9b5dba58189dbbc
    ensures p.constants[4] == 0x3956c25bf348b538
    ensures p.constants[5] == 0x59f111f1b605d019
    ensures p.constants[6] == 0x923f82a4af194f9b
    ensures p.constants[7] == 0xab1c5ed5da6d8118
  {
  }

  lemma Row512_1(p: Parameters)
    requires p.constants == K512_0 + K512_1 + K512_2 + K512_3 + K512_4 + K512_5 + K512_6 + K512_7 + K512_8 + K512_9
    ensures |p.constants| == 80
    ensures p.constants[8] == 0xd807aa98a3030242
    ensures p.constants[9] == 0x12835b0145706fbe
    ensures p.constants[10] == 0x243185be4ee4b28c
    ensures p.constants[11] == 0x550c7dc3d5ffb4e2
    ensures p.constants[12] == 0x72be5d74f27b896f
    ensures p.constants[13] == 0x80deb1fe3b1696b1
    ensures p.constants[14] == 0x9bdc06a725c71235
    ensures p.constants[15] == 0xc19bf174cf692694
  {
  }

  lemma Row512_2(p: Parameters)
    requires p.constants == K512_0 + K512_1 + K512_2 + K512_3 + K512_4 + K512_5 + K512_6 + K512_7 + K512_8 + K512_9
    ensures |p.constants| == 80
    ensures p.constants[16] == 0xe49b69c19ef14ad2
    ensures p.constants[17] == 0xefbe4786384f25e3
    ensures p.constants[18] == 0x0fc19dc68b8cd5b5
    ensures p.constants[19] == 0x240ca1cc77ac9c65
    ensures p.constants[20] == 0x2de92c6f592b0275
    ensures p.constants[21] == 0x4a7484aa6ea6e483
    ensures p.constants[22] == 0x5cb0a9dcbd41fbd4
    ensures p.constants[23] == 0x76f988da831153b5
  {
  }

  lemma Row512_3(p: Parameters)
    requires p.constants == K512_0 + K512_1 + K512_2 + K512_3 + K512_4 + K512_5 + K512_6 + K512_7 + K512_8 + K512_9
    ensures |p.constants| == 80
    ensures p.constants[24] == 0x983e5152ee66dfab
    ensures p.constants[25] == 0xa831c66d2db43210
    ensures p.constants[26] == 0xb00327c898fb213f
    ensures p.constants[27] == 0xbf597fc7beef0ee4
    ensures p.constants[28] == 0xc6e00bf33da88fc2
    ensures p.constants[29] == 0xd5a79147930aa725
    ensures p.constants[30] == 0x06ca6351e003826f
    ensures p.constants[31] == 0x142929670a0e6e70
  {
  }

  lemma Row512_4(p: Parameters)
    requires p.constants == K512_0 + K512_1 + K512_2 + K512_3 + K512_4 + K512_5 + K512_6 + K512_7 + K512_8 + K512_9
    ensures |p.constants| == 80
    ensures p.constants[32] == 0x27b70a8546d22ffc
    ensures p.constants[33] == 0x2e1b21385c26c926
    ensures p.constants[34] == 0x4d2c6dfc5ac42aed
    ensures p.constants[35] == 0x53380d139d95b3df
    ensures p.constants[36] == 0x650a73548baf63de
    ensures p.constants[37] == 0x766a0abb3c77b2a8
    ensures p.constants[38] == 0x81c2c92e47edaee6
    ensures p.constants[39] == 0x92722c851482353b
  {
  }

  lemma Row512_5(p: Parameters)
    requires p.constants == K512_0 + K512_1 + K512_2 + K512_3 + K512_4 + K512_5 + K512_6 + K512_7 + K512_8 + K512_9
    ensures |p.constants| == 80
    ensures p.constants[40] == 0xa2bfe8a14cf10364
    ensures p.constants[41] == 0xa81a664bbc423001
    ensures p.constants[42] == 0xc24b8b70d0f89791
    ensures p.constants[43] == 0xc76c51a30654be30
    ensures p.constants[44] == 0xd192e819d6ef5218
    ensures p.constants[45] == 0xd69906245565a910
    ensures p.constants[46] == 0xf40e35855771202a
    ensures p.constants[47] == 0x106aa07032bbd1b8
  {
  }

  lemma Row512_6(p: Parameters)
    requires p.constants == K512_0 + K512_1 + K512_2 + K512_3 + K512_4 + K512_5 + K512_6 + K512_7 + K512_8 + K512_9
    ensures |p.constants| == 80
    ensures p.constants[48] == 0x19a4c116b8d2d0c8
    ensures p.constants[49] == 0x1e376c085141ab53
    ensures p.constants[50] == 0x2748774cdf8eeb99
    ensures p.constants[51] == 0x34b0bcb5e19b48a8
    ensures p.constants[52] == 0x391c0cb3c5c95a63
    ensures p.constants[53] == 0x4ed8aa4ae3418acb
    ensures p.constants[54] == 0x5b9cca4f7763e373
    ensures p.constants[55] == 0x682e6ff3d6b2b8a3
  {
  }

  lemma Row512_7(p: Parameters)
    requires p.constants == K512_0 + K512_1 + K512_2 + K512_3 + K512_4 + K512_5 + K512_6 + K512_7 + K512_8 + K512_9
    ensures |p.constants| == 80
    ensures p.constants[56] == 0x748f82ee5defb2fc
    ensures p.constants[57] == 0x78a5636f43172f60
    ensures p.constants[58] == 0x84c87814a1f0ab72
    ensures p.constants[59] == 0x8cc702081a6439ec
    ensures p.constants[60] == 0x90befffa23631e28
    ensures p.constants[61] == 0xa4506cebde82bde9
    ensures p.constants[62] == 0xbef9a3f7b2c67915
    ensures p.constants[63] == 0xc67178f2e372532b
  {
  }

  lemma Row512_8(p: Parameters)
    requires p.constants == K512_0 + K512_1 + K512_2 + K512_3 + K512_4 + K512_5 + K512_6 + K512_7 + K512_8 + K512_9
    ensures |p.constants| == 80
    ensures p.constants[64] == 0xca273eceea26619c
    ensures p.constants[65] == 0xd186b8c721c0c207
    ensures p.constants[66] == 0xeada7dd6cde0eb1e
    ensures p.constants[67] == 0xf57d4f7fee6ed178
    ensures p.constants[68] == 0x06f067aa72176fba
    ensures p.constants[69] == 0x0a637dc5a2c898a6
    ensures p.constants[70] == 0x113f9804bef90dae
    ensures p.constants[71] == 0x1b710b35131c471b
  {
  }

  lemma Row512_9(p: Parameters)
    requires p.constants == K512_0 + K512_1 + K512_2 + K512_3 + K512_4 + K512_5 + K512_6 + K512_7 + K512_8 + K512_9
    ensures |p.constants| == 80
    ensures p.constants[72] == 0x28db77f523047d84
    ensures p.constants[73] == 0x32caab7b40c72493
    ensures p.constants[74] == 0x3c9ebe0a15c9bebc
    ensures p.constants[75] == 0x431d67c49c100d4c
    ensures p.constants[76] == 0x4cc5d4becb3e42b6
    ensures p.constants[77] == 0x597f299cfc657e2a
    ensures p.constants[78] == 0x5fcb6fab3ad6faec
    ensures p.constants[79] == 0x6c44198c4a475817
  {
  }

  lemma Words512_0(p: Parameters, block: seq<Word>)
    requires Is512(p) && block == BLOCK_512
    ensures W(p, block, 0) == 0x6162638000000000
    ensures W(p, block, 1) == 0x0000000000000000
    ensures W(p, block, 2) == 0x0000000000000000
    ensures W(p, block, 3) == 0x0000000000000000
    ensures W(p, block, 4) == 0x0000000000000000
    ensures W(p, block, 5) == 0x0000000000000000
    ensures W(p, block, 6) == 0x0000000000000000
    ensures W(p, block, 7) == 0x0000000000000000
  {
  }

  lemma Words512_1(p: Parameters, block: seq<Word>)
    requires Is512(p) && block == BLOCK_512
    ensures W(p, block, 8) == 0x0000000000000000
    ensures W(p, block, 9) == 0x0000000000000000
    ensures W(p, block, 10) == 0x0000000000000000
    ensures W(p, block, 11) == 0x0000000000000000
    ensures W(p, block, 12) == 0x0000000000000000
    ensures W(p, block, 13) == 0x0000000000000000
    ensures W(p, block, 14) == 0x0000000000000000
    ensures W(p, block, 15) == 0x0000000000000018
  {
  }

  lemma Words512_2(p: Parameters, block: seq<Word>)
    requires Is512(p) && block == BLOCK_512
    ensures W(p, block, 16) == 0x6162638000000000
    ensures W(p, block, 17) == 0x00030000000000c0
    ensures W(p, block, 18) == 0x0a9699a24c700003
    ensures W(p, block, 19) == 0x00000c0060000603
    ensures W(p, block, 20) == 0x549ef62639858996
    ensures W(p, block, 21) == 0x00c0003300003c00
    ensures W(p, block, 22) == 0x1497007a8a0e9dbc
    ensures W(p, block, 23) == 0x62e56500cc0780f0
  {
    hide W;
    Words512_0(p, block);
    Words512_1(p, block);
    WordAt(p, block, 16, 0x6162638000000000);
    WordAt(p, block, 17, 0x00030000000000c0);
    WordAt(p, block, 18, 0x0a9699a24c700003);
    WordAt(p, block, 19, 0x00000c0060000603);
    WordAt(p, block, 20, 0x549ef62639858996);
    WordAt(p, block, 21, 0x00c0003300003c00);
    WordAt(p, block, 22, 0x1497007a8a0e9dbc);
    WordAt(p, block, 23, 0x62e56500cc0780f0);
  }

  lemma Words512_3(p: Parameters, block: seq<Word>)
    requires Is512(p) && block == BLOCK_512
    ensures W(p, block, 24) == 0x7760dd475a538797
    ensures W(p, block, 25) == 0xf1554b711c1c0003
    ensures W(p, block, 26) == 0xca2993a4345d9ff2
    ensures W(p, block, 27) == 0x5e0e66b5c783dd32
    ensures W(p, block, 28) == 0xe25a625d00494b62
    ensures W(p, block, 29) == 0x9f44486fb1e4fbd2
    ensures W(p, block, 30) == 0xb31b8c2b06085f2f
    ensures W(p, block, 31) == 0x0e987660934142f6
  {
    hide W;
    Words512_1(p, block);
    Words512_2(p, block);
    WordAt(p, block, 24, 0x7760dd475a538797);
    WordAt(p, block, 25, 0xf1554b711c1c0003);
    WordAt(p, block, 26, 0xca2993a4345d9ff2);
    WordAt(p, block, 27, 0x5e0e66b5c783dd32);
    WordAt(p, block, 28, 0xe25a625d00494b62);
    WordAt(p, block, 29, 0x9f44486fb1e4fbd2);
    WordAt(p, block, 30, 0xb31b8c2b06085f2f);
    WordAt(p, block, 31, 0x0e987660934142f6);
  }

  lemma Words512_4(p: Parameters, block: seq<Word>)
    requires Is512(p) && block == BLOCK_512
    ensures W(p, block, 32) == 0xa4af2cfd09fbb924
    ensures W(p, block, 33) == 0xad289e2e0bd53186
    ensures W(p, block, 34) == 0x3c74563aa2f9673e
    ensures W(p, block, 35) == 0x6ccdcd14cc14b53f
    ensures W(p, block, 36) == 0xc3f925b337f22bde
    ensures W(p, block, 37) == 0x5bcc77a75ad95b54
    ensures W(p, block, 38) == 0x3ec2257adca09a52
    ensures W(p, block, 39) == 0x28246960001fc5eb
  {
    hide W;
    Words512_2(p, block);
    Words512_3(p, block);
    WordAt(p, block, 32, 0xa4af2cfd09fbb924);
    WordAt(p, block, 33, 0xad289e2e0bd53186);
    WordAt(p, block, 34, 0x3c74563aa2f9673e);
    WordAt(p, block, 35, 0x6ccdcd14cc14b53f);
    WordAt(p, block, 36, 0xc3f925b337f22bde);
    WordAt(p, block, 37, 0x5bcc77a75ad95b54);
    WordAt(p, block, 38, 0x3ec2257adca09a52);
    WordAt(p, block, 39, 0x28246960001fc5eb);
  }

  lemma Words512_5(p: Parameters, block: seq<Word>)
    requires Is512(p) && block == BLOCK_512
    ensures W(p, block, 40) == 0x04e33a75ce2be88a
    ensures W(p, block, 41) == 0x7d5314b3c359e0e7
    ensures W(p, block, 42) == 0xaef7a285ff251266
    ensures W(p, block, 43) == 0x0b8472581deea04f
    ensures W(p, block, 44) == 0xb174e26eddc7b033
    ensures W(p, block, 45) == 0x5d63bae58ddd88de
    ensures W(p, block, 46) == 0x4c044007b744ccbb
    ensures W(p, block, 47) == 0xe6a9aa4d74dc7d43
  {
    hide W;
    Words512_3(p, block);
    Words512_4(p, block);
    WordAt(p, block, 40, 0x04e33a75ce2be88a);
    WordAt(p, block, 41, 0x7d5314b3c359e0e7);
    WordAt(p, block, 42, 0xaef7a285ff251266);
    WordAt(p, block, 43, 0x0b8472581deea04f);
    WordAt(p, block, 44, 0xb174e26eddc7b033);
    WordAt(p, block, 45, 0x5d63bae58ddd88de);
    WordAt(p, block, 46, 0x4c044007b744ccbb);
    WordAt(p, block, 47, 0xe6a9aa4d74dc7d43);
  }

  lemma Words512_6(p: Parameters, block: seq<Word>)
    requires Is512(p) && block == BLOCK_512
    ensures W(p, block, 48) == 0xebeaf1237248019c
    ensures W(p, block, 49) == 0x361e80b2d00f3193
    ensures W(p, block, 50) == 0x2e9839125df3b175
    ensures W(p, block, 51) == 0x3319629293ad5363
    ensures W(p, block, 52) == 0x9cbc5d89ac1b89d5
    ensures W(p, block, 53) == 0x275e23ffeeca50b7
    ensures W(p, block, 54) == 0x3b80d680bf69ef58
    ensures W(p, block, 55) == 0x0d0696933945a125
  {
    hide W;
    Words512_4(p, block);
    Words512_5(p, block);
    WordAt(p, block, 48, 0xebeaf1237248019c);
    WordAt(p, block, 49, 0x361e80b2d00f3193);
    WordAt(p, block, 50, 0x2e9839125df3b175);
    WordAt(p, block, 51, 0x3319629293ad5363);
    WordAt(p, block, 52, 0x9cbc5d89ac1b89d5);
    WordAt(p, block, 53, 0x275e23ffeeca50b7);
    WordAt(p, block, 54, 0x3b80d680bf69ef58);
    WordAt(p, block, 55, 0x0d0696933945a125);
  }

  lemma Words512_7(p: Parameters, block: seq<Word>)
    requires Is512(p) && block == BLOCK_512
    ensures W(p, block, 56) == 0x7533eabcb786ff00
    ensures W(p, block, 57) == 0xb89826cee6fbf0e5
    ensures W(p, block, 58) == 0x249b4fbcad623e9f
    ensures W(p, block, 59) == 0x4aea9df2b02d6f1e
    ensures W(p, block, 60) == 0x2cc57475a55e8d8f
    ensures W(p, block, 61) == 0xb2574ae938d8be89
    ensures W(p, block, 62) == 0xc1b35a57b16d6aea
    ensures W(p, block, 63) == 0xcc4918b5949206bb
  {
    hide W;
    Words512_5(p, block);
    Words512_6(p, block);
    WordAt(p, block, 56, 0x7533eabcb786ff00);
    WordAt(p, block, 57, 0xb89826cee6fbf0e5);
    WordAt(p, block, 58, 0x249b4fbcad623e9f);
    WordAt(p, block, 59, 0x4aea9df2b02d6f1e);
    WordAt(p, block, 60, 0x2cc57475a55e8d8f);
    WordAt(p, block, 61, 0xb2574ae938d8be89);
    WordAt(p, block, 62, 0xc1b35a57b16d6aea);
    WordAt(p, block, 63, 0xcc4918b5949206bb);
  }

  lemma Words512_8(p: Parameters, block: seq<Word>)
    requires Is512(p) && block == BLOCK_512
    ensures W(p, block, 64) == 0x5099c3add79f90ec
    ensures W(p, block, 65) == 0x5ea81d78e7660bf1
    ensures W(p, block, 66) == 0xebee6267405ac2a9
    ensures W(p, block, 67) == 0xb01f21926108a4ab
    ensures W(p, block, 68) == 0x786433dd2fe65556
    ensures W(p, block, 69) == 0xc54a6eaa24a0552c
    ensures W(p, block, 70) == 0xb3c8f1530bdbaa9e
    ensures W(p, block, 71) == 0xbb8abfe56f469338
  {
    hide W;
    Words512_6(p, block);
    Words512_7(p, block);
    WordAt(p, block, 64, 0x5099c3add79f90ec);
    WordAt(p, block, 65, 0x5ea81d78e7660bf1);
    WordAt(p, block, 66, 0xebee6267405ac2a9);
    WordAt(p, block, 67, 0xb01f21926108a4ab);
    WordAt(p, block, 68, 0x786433dd2fe65556);
    WordAt(p, block, 69, 0xc54a6eaa24a0552c);
    WordAt(p, block, 70, 0xb3c8f1530bdbaa9e);
    WordAt(p, block, 71, 0xbb8abfe56f469338);
  }

  lemma Words512_9(p: Parameters, block: seq<Word>)
    requires Is512(p) && block == BLOCK_512
    ensures W(p, block, 72) == 0xf63d4265cc1c5a78
    ensures W(p, block, 73) == 0xbe8355ea73129afb
    ensures W(p, block, 74) == 0x49e2db8ebdcfbeb5
    ensures W(p, block, 75) == 0x82269d4a883a3d99
    ensures W(p, block, 76) == 0xfdf53df3011f362b
    ensures W(p, block, 77) == 0x464af5671d71c12e
    ensures W(p, block, 78) == 0xe449b68198ec611c
    ensures W(p, block, 79) == 0x92aeeed1a7bcf7d2
  {
    hide W;
    Words512_7(p, block);
    Words512_8(p, block);
    WordAt(p, block, 72, 0xf63d4265cc1c5a78);
    WordAt(p, block, 73, 0xbe8355ea73129afb);
    WordAt(p, block, 74, 0x49e2db8ebdcfbeb5);
    WordAt(p, block, 75, 0x82269d4a883a3d99);
    WordAt(p, block, 76, 0xfdf53df3011f362b);
    WordAt(p, block, 77, 0x464af5671d71c12e);
    WordAt(p, block, 78, 0xe449b68198ec611c);
    WordAt(p, block, 79, 0x92aeeed1a7bcf7d2);
  }

  lemma States512_0(p: Parameters, start: Registers, block: seq<Word>)
    requires Is512(p) && block == BLOCK_512
    requires p.constants == K512_0 + K512_1 + K512_2 + K512_3 + K512_4 + K512_5 + K512_6 + K512_7 + K512_8 + K512_9
    requires Rounds(p, start, block, 0) == Registers(0x6a09e667f3bcc908, 0xbb67ae8584caa73b, 0x3c6ef372fe94f82b,
        0xa54ff53a5f1d36f1, 0x510e527fade682d1, 0x9b05688c2b3e6c1f, 0x1f83d9abfb41bd6b, 0x5be0cd19137e2179)
    ensures Rounds(p, start, block, 8) == Registers(0x8093d195e0054fa3, 0xc4875b0c7abc076b, 0xaf573b02403e89cd,
        0xb680953951604860, 0x86f67263a0f0ec0a, 0x5a6c781f54dcc00c, 0x96f60209b6dc35ba, 0x745aca4a342ed2e2)
  {
    hide W, Rounds;
    Words512_0(p, block);
    Row512_0(p);
    StateAt(p, start, block, 0, Registers(0xf6afceb8bcfcddf5, 0x6a09e667f3bcc908, 0xbb67ae8584caa73b,
        0x3c6ef372fe94f82b, 0x58cb02347ab51f91, 0x510e527fade682d1, 0x9b05688c2b3e6c1f, 0x1f83d9abfb41bd6b));
    StateAt(p, start, block, 1, Registers(0x1320f8c9fb872cc0, 0xf6afceb8bcfcddf5, 0x6a09e667f3bcc908,
        0xbb67ae8584caa73b, 0xc3d4ebfd48650ffa, 0x58cb02347ab51f91, 0x510e527fade682d1, 0x9b05688c2b3e6c1f));
    StateAt(p, start, block, 2, Registers(0xebcffc07203d91f3, 0x1320f8c9fb872cc0, 0xf6afceb8bcfcddf5,
        0x6a09e667f3bcc908, 0xdfa9b239f2697812, 0xc3d4ebfd48650ffa, 0x58cb02347ab51f91, 0x510e527fade682d1));
    StateAt(p, start, block, 3, Registers(0x5a83cb3e80050e82, 0xebcffc07203d91f3, 0x1320f8c9fb872cc0,
        0xf6afceb8bcfcddf5, 0x0b47b4bb1928990e, 0xdfa9b239f2697812, 0xc3d4ebfd48650ffa, 0x58cb02347ab51f91));
    StateAt(p, start, block, 4, Registers(0xb680953951604860, 0x5a83cb3e80050e82, 0xebcffc07203d91f3,
        0x1320f8c9fb872cc0, 0x745aca4a342ed2e2, 0x0b47b4bb1928990e, 0xdfa9b239f2697812, 0xc3d4ebfd48650ffa));
    StateAt(p, start, block, 5, Registers(0xaf573b02403e89cd, 0xb680953951604860, 0x5a83cb3e80050e82,
        0xebcffc07203d91f3, 0x96f60209b6dc35ba, 0x745aca4a342ed2e2, 0x0b47b4bb1928990e, 0xdfa9b239f2697812));
    StateAt(p, start, block, 6, Registers(0xc4875b0c7abc076b, 0xaf573b02403e89cd, 0xb680953951604860,
        0x5a83cb3e80050e82, 0x5a6c781f54dcc00c, 0x96f60209b6dc35ba, 0x745aca4a342ed2e2, 0x0b47b4bb1928990e));
    StateAt(p, start, block, 7, Registers(0x8093d195e0054fa3, 0xc4875b0c7abc076b, 0xaf573b02403e89cd,
        0xb680953951604860, 0x86f67263a0f0ec0a, 0x5a6c781f54dcc00c, 0x96f60209b6dc35ba, 0x745aca4a342ed2e2));
  }

  lemma States512_1(p: Parameters, start: Registers, block: seq<Word>)
    requires Is512(p) && block == BLOCK_512
    requires p.constants == K512_0 + K512_1 + K512_2 + K512_3 + K512_4 + K512_5 + K512_6 + K512_7 + K512_8 + K512_9
    requires Rounds(p, start, block, 8) == Registers(0x8093d195e0054fa3, 0xc4875b0c7abc076b, 0xaf573b02403e89cd,
        0xb680953951604860, 0x86f67263a0f0ec0a, 0x5a6c781f54dcc00c, 0x96f60209b6dc35ba, 0x745aca4a342ed2e2)
    ensures Rounds(p, start, block, 16) == Registers(0x0ae07c86b1181c75, 0xfa967eed85a08028, 0x44249631255d2ca0,
        0x5e41214388186c14, 0xa77b7c035dd4c161, 0x874bfe5f6aae9f2f, 0x860acf9effba6f61, 0xcdf3bff2883fc9d9)
  {
    hide W, Rounds;
    Words512_1(p, block);
    Row512_1(p);
    StateAt(p, start, block, 8, Registers(0xf1eca5544cb89225, 0x8093d195e0054fa3, 0xc4875b0c7abc076b,
        0xaf573b02403e89cd, 0xd0403c398fc40002, 0x86f67263a0f0ec0a, 0x5a6c781f54dcc00c, 0x96f60209b6dc35ba));
    StateAt(p, start, block, 9, Registers(0x81782d4a5db48f03, 0xf1eca5544cb89225, 0x8093d195e0054fa3,
        0xc4875b0c7abc076b, 0x00091f460be46c52, 0xd0403c398fc40002, 0x86f67263a0f0ec0a, 0x5a6c781f54dcc00c));
    StateAt(p, start, block, 10, Registers(0x69854c4aa0f25b59, 0x81782d4a5db48f03, 0xf1eca5544cb89225,
        0x8093d195e0054fa3, 0xd375471bde1ba3f4, 0x00091f460be46c52, 0xd0403c398fc40002, 0x86f67263a0f0ec0a));
    StateAt(p, start, block, 11, Registers(0xdb0a9963f80c2eaa, 0x69854c4aa0f25b59, 0x81782d4a5db48f03,
        0xf1eca5544cb89225, 0x475975b91a7a462c, 0xd375471bde1ba3f4, 0x00091f460be46c52, 0xd0403c398fc40002));
    StateAt(p, start, block, 12, Registers(0x5e41214388186c14, 0xdb0a9963f80c2eaa, 0x69854c4aa0f25b59,
        0x81782d4a5db48f03, 0xcdf3bff2883fc9d9, 0x475975b91a7a462c, 0xd375471bde1ba3f4, 0x00091f460be46c52));
    StateAt(p, start, block, 13, Registers(0x44249631255d2ca0, 0x5e41214388186c14, 0xdb0a9963f80c2eaa,
        0x69854c4aa0f25b59, 0x860acf9effba6f61, 0xcdf3bff2883fc9d9, 0x475975b91a7a462c, 0xd375471bde1ba3f4));
    StateAt(p, start, block, 14, Registers(0xfa967eed85a08028, 0x44249631255d2ca0, 0x5e41214388186c14,
        0xdb0a9963f80c2eaa, 0x874bfe5f6aae9f2f, 0x860acf9effba6f61, 0xcdf3bff2883fc9d9, 0x475975b91a7a462c));
    StateAt(p, start, block, 15, Registers(0x0ae07c86b1181c75, 0xfa967eed85a08028, 0x44249631255d2ca0,
        0x5e41214388186c14, 0xa77b7c035dd4c161, 0x874bfe5f6aae9f2f, 0x860acf9effba6f61, 0xcdf3bff2883fc9d9));
  }

  lemma States512_2(p: Parameters, start: Registers, block: seq<Word>)
    requires Is512(p) && block == BLOCK_512
    requires p.constants == K512_0 + K512_1 + K512_2 + K512_3 + K512_4 + K512_5 + K512_6 + K512_7 + K512_8 + K512_9
    requires Rounds(p, start, block, 16) == Registers(0x0ae07c86b1181c75, 0xfa967eed85a08028, 0x44249631255d2ca0,
        0x5e41214388186c14, 0xa77b7c035dd4c161, 0x874bfe5f6aae9f2f, 0x860acf9effba6f61, 0xcdf3bff2883fc9d9)
    ensures Rounds(p, start, block, 24) == Registers(0x4f6877b58fe55484, 0x3e2644567b709a78, 0xda34d6673d452dcf,
        0x8dc5ae65569d3855, 0xc66005f87db55233, 0x0ac2b11da8f571c6, 0x8e30ff09ad488753, 0x4bb9e66d1145bfdc)
  {
    hide W, Rounds;
    Words512_2(p, block);
    Row512_2(p);
    StateAt(p, start, block, 16, Registers(0xcaf81a425d800537, 0x0ae07c86b1181c75, 0xfa967eed85a08028,
        0x44249631255d2ca0, 0x2deecc6b39d64d78, 0xa77b7c035dd4c161, 0x874bfe5f6aae9f2f, 0x860acf9effba6f61));
    StateAt(p, start, block, 17, Registers(0x4725be249ad19e6b, 0xcaf81a425d800537, 0x0ae07c86b1181c75,
        0xfa967eed85a08028, 0xf47e8353f8047455, 0x2deecc6b39d64d78, 0xa77b7c035dd4c161, 0x874bfe5f6aae9f2f));
    StateAt(p, start, block, 18, Registers(0x3c4b4104168e3edb, 0x4725be249ad19e6b, 0xcaf81a425d800537,
        0x0ae07c86b1181c75, 0x29695fd88d81dbd0, 0xf47e8353f8047455, 0x2deecc6b39d64d78, 0xa77b7c035dd4c161));
    StateAt(p, start, block, 19, Registers(0x9a3fb4d38ab6cf06, 0x3c4b4104168e3edb, 0x4725be249ad19e6b,
        0xcaf81a425d800537, 0xf14998dd5f70767e, 0x29695fd88d81dbd0, 0xf47e8353f8047455, 0x2deecc6b39d64d78));
    StateAt(p, start, block, 20, Registers(0x8dc5ae65569d3855, 0x9a3fb4d38ab6cf06, 0x3c4b4104168e3edb,
        0x4725be249ad19e6b, 0x4bb9e66d1145bfdc, 0xf14998dd5f70767e, 0x29695fd88d81dbd0, 0xf47e8353f8047455));
    StateAt(p, start, block, 21, Registers(0xda34d6673d452dcf, 0x8dc5ae65569d3855, 0x9a3fb4d38ab6cf06,
        0x3c4b4104168e3edb, 0x8e30ff09ad488753, 0x4bb9e66d1145bfdc, 0xf14998dd5f70767e, 0x29695fd88d81dbd0));
    StateAt(p, start, block, 22, Registers(0x3e2644567b709a78, 0xda34d6673d452dcf, 0x8dc5ae65569d3855,
        0x9a3fb4d38ab6cf06, 0x0ac2b11da8f571c6, 0x8e30ff09ad488753, 0x4bb9e66d1145bfdc, 0xf14998dd5f70767e));
    StateAt(p, start, block, 23, Registers(0x4f6877b58fe55484, 0x3e2644567b709a78, 0xda34d6673d452dcf,
        0x8dc5ae65569d3855, 0xc66005f87db55233, 0x0ac2b11da8f571c6, 0x8e30ff09ad488753, 0x4bb9e66d1145bfdc));
  }

  lemma States512_3(p: Parameters, start: Registers, block: seq<Word>)
    requires Is512(p) && block == BLOCK_512
    requires p.constants == K512_0 + K512_1 + K512_2 + K512_3 + K512_4 + K512_5 + K512_6 + K512_7 + K512_8 + K512_9
    requires Rounds(p, start, block, 24) == Registers(0x4f6877b58fe55484, 0x3e2644567b709a78, 0xda34d6673d452dcf,
        0x8dc5ae65569d3855, 0xc66005f87db55233, 0x0ac2b11da8f571c6, 0x8e30ff09ad488753, 0x4bb9e66d1145bfdc)
    ensures Rounds(p, start, block, 32) == Registers(0xff4d3f1f0d46a736, 0x4c4fbbb75f1873a6, 0x74bf40f869094c63,
        0xe62349090f47d30a, 0x3cd388e119e8162e, 0x73e025d91b9efea3, 0xf0aec2fe1437f085, 0x0fcdf99710f21584)
  {
    hide W, Rounds;
    Words512_3(p, block);
    Row512_3(p);
    StateAt(p, start, block, 24, Registers(0x9aff71163fa3a940, 0x4f6877b58fe55484, 0x3e2644567b709a78,
        0xda34d6673d452dcf, 0xd3ecf13769180e6f, 0xc66005f87db55233, 0x0ac2b11da8f571c6, 0x8e30ff09ad488753));
    StateAt(p, start, block, 25, Registers(0x0bc5f791f8e6816b, 0x9aff71163fa3a940, 0x4f6877b58fe55484,
        0x3e2644567b709a78, 0x6ddf1fd7edcce336, 0xd3ecf13769180e6f, 0xc66005f87db55233, 0x0ac2b11da8f571c6));
    StateAt(p, start, block, 26, Registers(0x884c3bc27bc4f941, 0x0bc5f791f8e6816b, 0x9aff71163fa3a940,
        0x4f6877b58fe55484, 0xe6e48c9a8e948365, 0x6ddf1fd7edcce336, 0xd3ecf13769180e6f, 0xc66005f87db55233));
    StateAt(p, start, block, 27, Registers(0xeab4a9e5771b8d09, 0x884c3bc27bc4f941, 0x0bc5f791f8e6816b,
        0x9aff71163fa3a940, 0x09068a4e255a0dac, 0xe6e48c9a8e948365, 0x6ddf1fd7edcce336, 0xd3ecf13769180e6f));
    StateAt(p, start, block, 28, Registers(0xe62349090f47d30a, 0xeab4a9e5771b8d09, 0x884c3bc27bc4f941,
        0x0bc5f791f8e6816b, 0x0fcdf99710f21584, 0x09068a4e255a0dac, 0xe6e48c9a8e948365, 0x6ddf1fd7edcce336));
    StateAt(p, start, block, 29, Registers(0x74bf40f869094c63, 0xe62349090f47d30a, 0xeab4a9e5771b8d09,
        0x884c3bc27bc4f941, 0xf0aec2fe1437f085, 0x0fcdf99710f21584, 0x09068a4e255a0dac, 0xe6e48c9a8e948365));
    StateAt(p, start, block, 30, Registers(0x4c4fbbb75f1873a6, 0x74bf40f869094c63, 0xe62349090f47d30a,
        0xeab4a9e5771b8d09, 0x73e025d91b9efea3, 0xf0aec2fe1437f085, 0x0fcdf99710f21584, 0x09068a4e255a0dac));
    StateAt(p, start, block, 31, Registers(0xff4d3f1f0d46a736, 0x4c4fbbb75f1873a6, 0x74bf40f869094c63,
        0xe62349090f47d30a, 0x3cd388e119e8162e, 0x73e025d91b9efea3, 0xf0aec2fe1437f085, 0x0fcdf99710f21584));
  }

  lemma States512_4(p: Parameters, start: Registers, block: seq<Word>)
    requires Is512(p) && block == BLOCK_512
    requires p.constants == K512_0 + K512_1 + K512_2 + K512_3 + K512_4 + K512_5 + K512_6 + K512_7 + K512_8 + K512_9
    requires Rounds(p, start, block, 32) == Registers(0xff4d3f1f0d46a736, 0x4c4fbbb75f1873a6, 0x74bf40f869094c63,
        0xe62349090f47d30a, 0x3cd388e119e8162e, 0x73e025d91b9efea3, 0xf0aec2fe1437f085, 0x0fcdf99710f21584)
    ensures Rounds(p, start, block, 40) == Registers(0x8e01e125b855d225, 0xb3bb8542b3376de5, 0x002bb8e4cd989567,
        0x88df85b0bbe77514, 0x0c710a47ba6a567b, 0xb49596c20feba7de, 0x66adcfa249ac7bbd, 0x8fbfd0162bbf4675)
  {
    hide W, Rounds;
    Words512_4(p, block);
    Row512_4(p);
    StateAt(p, start, block, 32, Registers(0xa0509015ca08c8d4, 0xff4d3f1f0d46a736, 0x4c4fbbb75f1873a6,
        0x74bf40f869094c63, 0xe1034573654a106f, 0x3cd388e119e8162e, 0x73e025d91b9efea3, 0xf0aec2fe1437f085));
    StateAt(p, start, block, 33, Registers(0x60d4e6995ed91fe6, 0xa0509015ca08c8d4, 0xff4d3f1f0d46a736,
        0x4c4fbbb75f1873a6, 0xefabbd8bf47c041a, 0xe1034573654a106f, 0x3cd388e119e8162e, 0x73e025d91b9efea3));
    StateAt(p, start, block, 34, Registers(0x2c59ec7743632621, 0x60d4e6995ed91fe6, 0xa0509015ca08c8d4,
        0xff4d3f1f0d46a736, 0x0fbae670fa780fd3, 0xefabbd8bf47c041a, 0xe1034573654a106f, 0x3cd388e119e8162e));
    StateAt(p, start, block, 35, Registers(0x1a081afc59fdbc2c, 0x2c59ec7743632621, 0x60d4e6995ed91fe6,
        0xa0509015ca08c8d4, 0xf098082f502b44cd, 0x0fbae670fa780fd3, 0xefabbd8bf47c041a, 0xe1034573654a106f));
    StateAt(p, start, block, 36, Registers(0x88df85b0bbe77514, 0x1a081afc59fdbc2c, 0x2c59ec7743632621,
        0x60d4e6995ed91fe6, 0x8fbfd0162bbf4675, 0xf098082f502b44cd, 0x0fbae670fa780fd3, 0xefabbd8bf47c041a));
    StateAt(p, start, block, 37, Registers(0x002bb8e4cd989567, 0x88df85b0bbe77514, 0x1a081afc59fdbc2c,
        0x2c59ec7743632621, 0x66adcfa249ac7bbd, 0x8fbfd0162bbf4675, 0xf098082f502b44cd, 0x0fbae670fa780fd3));
    StateAt(p, start, block, 38, Registers(0xb3bb8542b3376de5, 0x002bb8e4cd989567, 0x88df85b0bbe77514,
        0x1a081afc59fdbc2c, 0xb49596c20feba7de, 0x66adcfa249ac7bbd, 0x8fbfd0162bbf4675, 0xf098082f502b44cd));
    StateAt(p, start, block, 39, Registers(0x8e01e125b855d225, 0xb3bb8542b3376de5, 0x002bb8e4cd989567,
        0x88df85b0bbe77514, 0x0c710a47ba6a567b, 0xb49596c20feba7de, 0x66adcfa249ac7bbd, 0x8fbfd0162bbf4675));
  }

  lemma States512_5(p: Parameters, start: Registers, block: seq<Word>)
    requires Is512(p) && block == BLOCK_512
    requires p.constants == K512_0 + K512_1 + K512_2 + K512_3 + K512_4 + K512_5 + K512_6 + K512_7 + K512_8 + K512_9
    requires Rounds(p, start, block, 40) == Registers(0x8e01e125b855d225, 0xb3bb8542b3376de5, 0x002bb8e4cd989567,
        0x88df85b0bbe77514, 0x0c710a47ba6a567b, 0xb49596c20feba7de, 0x66adcfa249ac7bbd, 0x8fbfd0162bbf4675)
    ensures Rounds(p, start, block, 48) == Registers(0x6b69fc1bb482feac, 0xf61e672694de2d67, 0x021fbadbabab5ac6,
        0xc47c9d5c7ea8a234, 0x35264334c03ac8ad, 0xc6bc35740d8daa9a, 0xe95c2a57572d64d9, 0x858d832ae0e8911c)
  {
    hide W, Rounds;
    Words512_5(p, block);
    Row512_5(p);
    StateAt(p, start, block, 40, Registers(0xb01521dd6a6be12c, 0x8e01e125b855d225, 0xb3bb8542b3376de5,
        0x002bb8e4cd989567, 0x169008b3a4bb170b, 0x0c710a47ba6a567b, 0xb49596c20feba7de, 0x66adcfa249ac7bbd));
    StateAt(p, start, block, 41, Registers(0xe96f89dd48cbd851, 0xb01521dd6a6be12c, 0x8e01e125b855d225,
        0xb3bb8542b3376de5, 0xf0996439e7b50cb1, 0x169008b3a4bb170b, 0x0c710a47ba6a567b, 0xb49596c20feba7de));
    StateAt(p, start, block, 42, Registers(0xbc05ba8de5d3c480, 0xe96f89dd48cbd851, 0xb01521dd6a6be12c,
        0x8e01e125b855d225, 0x639cb938e14dc190, 0xf0996439e7b50cb1, 0x169008b3a4bb170b, 0x0c710a47ba6a567b));
    StateAt(p, start, block, 43, Registers(0x35d7e7f41defcbd5, 0xbc05ba8de5d3c480, 0xe96f89dd48cbd851,
        0xb01521dd6a6be12c, 0xcc5100997f5710f2, 0x639cb938e14dc190, 0xf0996439e7b50cb1, 0x169008b3a4bb170b));
    StateAt(p, start, block, 44, Registers(0xc47c9d5c7ea8a234, 0x35d7e7f41defcbd5, 0xbc05ba8de5d3c480,
        0xe96f89dd48cbd851, 0x858d832ae0e8911c, 0xcc5100997f5710f2, 0x639cb938e14dc190, 0xf0996439e7b50cb1));
    StateAt(p, start, block, 45, Registers(0x021fbadbabab5ac6, 0xc47c9d5c7ea8a234, 0x35d7e7f41defcbd5,
        0xbc05ba8de5d3c480, 0xe95c2a57572d64d9, 0x858d832ae0e8911c, 0xcc5100997f5710f2, 0x639cb938e14dc190));
    StateAt(p, start, block, 46, Registers(0xf61e672694de2d67, 0x021fbadbabab5ac6, 0xc47c9d5c7ea8a234,
        0x35d7e7f41defcbd5, 0xc6bc35740d8daa9a, 0xe95c2a57572d64d9, 0x858d832ae0e8911c, 0xcc5100997f5710f2));
    StateAt(p, start, block, 47, Registers(0x6b69fc1bb482feac, 0xf61e672694de2d67, 0x021fbadbabab5ac6,
        0xc47c9d5c7ea8a234, 0x35264334c03ac8ad, 0xc6bc35740d8daa9a, 0xe95c2a57572d64d9, 0x858d832ae0e8911c));
  }

  lemma States512_6(p: Parameters, start: Registers, block: seq<Word>)
    requires Is512(p) && block == BLOCK_512
    requires p.constants == K512_0 + K512_1 + K512_2 + K512_3 + K512_4 + K512_5 + K512_6 + K512_7 + K512_8 + K512_9
    requires Rounds(p, start, block, 48) == Registers(0x6b69fc1bb482feac, 0xf61e672694de2d67, 0x021fbadbabab5ac6,
        0xc47c9d5c7ea8a234, 0x35264334c03ac8ad, 0xc6bc35740d8daa9a, 0xe95c2a57572d64d9, 0x858d832ae0e8911c)
    ensures Rounds(p, start, block, 56) == Registers(0x63b460e42748817e, 0xf650857b5babda4d, 0xd63f68037ddf06aa,
        0x03df11b32d42e203, 0xc6b4dd2a9931c509, 0x9ccfb31a86df0f86, 0xa6781efe1aa1ce02, 0x504f94e40591cffa)
  {
    hide W, Rounds;
    Words512_6(p, block);
    Row512_6(p);
    StateAt(p, start, block, 48, Registers(0x571f323d96b3a047, 0x6b69fc1bb482feac, 0xf61e672694de2d67,
        0x021fbadbabab5ac6, 0x271580ed6c3e5650, 0x35264334c03ac8ad, 0xc6bc35740d8daa9a, 0xe95c2a57572d64d9));
    StateAt(p, start, block, 49, Registers(0xca9bd862c5050918, 0x571f323d96b3a047, 0x6b69fc1bb482feac,
        0xf61e672694de2d67, 0xdfe091dab182e645, 0x271580ed6c3e5650, 0x35264334c03ac8ad, 0xc6bc35740d8daa9a));
    StateAt(p, start, block, 50, Registers(0x813a43dd2c502043, 0xca9bd862c5050918, 0x571f323d96b3a047,
        0x6b69fc1bb482feac, 0x07a0d8ef821c5e1a, 0xdfe091dab182e645, 0x271580ed6c3e5650, 0x35264334c03ac8ad));
    StateAt(p, start, block, 51, Registers(0xd43f83727325dd77, 0x813a43dd2c502043, 0xca9bd862c5050918,
        0x571f323d96b3a047, 0x483f80a82eaee23e, 0x07a0d8ef821c5e1a, 0xdfe091dab182e645, 0x271580ed6c3e5650));
    StateAt(p, start, block, 52, Registers(0x03df11b32d42e203, 0xd43f83727325dd77, 0x813a43dd2c502043,
        0xca9bd862c5050918, 0x504f94e40591cffa, 0x483f80a82eaee23e, 0x07a0d8ef821c5e1a, 0xdfe091dab182e645));
    StateAt(p, start, block, 53, Registers(0xd63f68037ddf06aa, 0x03df11b32d42e203, 0xd43f83727325dd77,
        0x813a43dd2c502043, 0xa6781efe1aa1ce02, 0x504f94e40591cffa, 0x483f80a82eaee23e, 0x07a0d8ef821c5e1a));
    StateAt(p, start, block, 54, Registers(0xf650857b5babda4d, 0xd63f68037ddf06aa, 0x03df11b32d42e203,
        0xd43f83727325dd77, 0x9ccfb31a86df0f86, 0xa6781efe1aa1ce02, 0x504f94e40591cffa, 0x483f80a82eaee23e));
    StateAt(p, start, block, 55, Registers(0x63b460e42748817e, 0xf650857b5babda4d, 0xd63f68037ddf06aa,
        0x03df11b32d42e203, 0xc6b4dd2a9931c509, 0x9ccfb31a86df0f86, 0xa6781efe1aa1ce02, 0x504f94e40591cffa));
  }

  lemma States512_7(p: Parameters, start: Registers, block: seq<Word>)
    requires Is512(p) && block == BLOCK_512
    requires p.constants == K512_0 + K512_1 + K512_2 + K512_3 + K512_4 + K512_5 + K512_6 + K512_7 + K512_8 + K512_9
    requires Rounds(p, start, block, 56) == Registers(0x63b460e42748817e, 0xf650857b5babda4d, 0xd63f68037ddf06aa,
        0x03df11b32d42e203, 0xc6b4dd2a9931c509, 0x9ccfb31a86df0f86, 0xa6781efe1aa1ce02, 0x504f94e40591cffa)
    ensures Rounds(p, start, block, 64) == Registers(0xab44e86276478d85, 0xa81dedbb9f19e643, 0xcfcd928c5424e2b6,
        0x3857dfd2fc37d3ba, 0xcd881ee59ca6bc53, 0x84058865d60a05fa, 0x09aee5bda1644de5, 0xa6af4e9c9f807e51)
  {
    hide W, Rounds;
    Words512_7(p, block);
    Row512_7(p);
    StateAt(p, start, block, 56, Registers(0x7a52912943d52b05, 0x63b460e42748817e, 0xf650857b5babda4d,
        0xd63f68037ddf06aa, 0xd2e89bbd91e00be0, 0xc6b4dd2a9931c509, 0x9ccfb31a86df0f86, 0xa6781efe1aa1ce02));
    StateAt(p, start, block, 57, Registers(0x4b81c3aec976ea4b, 0x7a52912943d52b05, 0x63b460e42748817e,
        0xf650857b5babda4d, 0x70505988124351ac, 0xd2e89bbd91e00be0, 0xc6b4dd2a9931c509, 0x9ccfb31a86df0f86));
    StateAt(p, start, block, 58, Registers(0x581ecb3355dcd9b8, 0x4b81c3aec976ea4b, 0x7a52912943d52b05,
        0x63b460e42748817e, 0x6a3c9b0f71c8bf36, 0x70505988124351ac, 0xd2e89bbd91e00be0, 0xc6b4dd2a9931c509));
    StateAt(p, start, block, 59, Registers(0x2c074484ef1eac8c, 0x581ecb3355dcd9b8, 0x4b81c3aec976ea4b,
        0x7a52912943d52b05, 0x4797cde4ed370692, 0x6a3c9b0f71c8bf36, 0x70505988124351ac, 0xd2e89bbd91e00be0));
    StateAt(p, start, block, 60, Registers(0x3857dfd2fc37d3ba, 0x2c074484ef1eac8c, 0x581ecb3355dcd9b8,
        0x4b81c3aec976ea4b, 0xa6af4e9c9f807e51, 0x4797cde4ed370692, 0x6a3c9b0f71c8bf36, 0x70505988124351ac));
    StateAt(p, start, block, 61, Registers(0xcfcd928c5424e2b6, 0x3857dfd2fc37d3ba, 0x2c074484ef1eac8c,
        0x581ecb3355dcd9b8, 0x09aee5bda1644de5, 0xa6af4e9c9f807e51, 0x4797cde4ed370692, 0x6a3c9b0f71c8bf36));
    StateAt(p, start, block, 62, Registers(0xa81dedbb9f19e643, 0xcfcd928c5424e2b6, 0x3857dfd2fc37d3ba,
        0x2c074484ef1eac8c, 0x84058865d60a05fa, 0x09aee5bda1644de5, 0xa6af4e9c9f807e51, 0x4797cde4ed370692));
    StateAt(p, start, block, 63, Registers(0xab44e86276478d85, 0xa81dedbb9f19e643, 0xcfcd928c5424e2b6,
        0x3857dfd2fc37d3ba, 0xcd881ee59ca6bc53, 0x84058865d60a05fa, 0x09aee5bda1644de5, 0xa6af4e9c9f807e51));
  }

  lemma States512_8(p: Parameters, start: Registers, block: seq<Word>)
    requires Is512(p) && block == BLOCK_512
    requires p.constants == K512_0 + K512_1 + K512_2 + K512_3 + K512_4 + K512_5 + K512_6 + K512_7 + K512_8 + K512_9
    requires Rounds(p, start, block, 64) == Registers(0xab44e86276478d85, 0xa81dedbb9f19e643, 0xcfcd928c5424e2b6,
        0x3857dfd2fc37d3ba, 0xcd881ee59ca6bc53, 0x84058865d60a05fa, 0x09aee5bda1644de5, 0xa6af4e9c9f807e51)
    ensures Rounds(p, start, block, 72) == Registers(0xf15e9664b2803575, 0x7652c579cb60f19c, 0xfb6aaae5d0b6a447,
        0x181839d609c79748, 0x947c3dfafee570ef, 0xaff62c9665ff80fa, 0xe3711cb6564d112d, 0x0ada78ba2d446140)
  {
    hide W, Rounds;
    Words512_8(p, block);
    Row512_8(p);
    StateAt(p, start, block, 64, Registers(0x5a806d7e9821a501, 0xab44e86276478d85, 0xa81dedbb9f19e643,
        0xcfcd928c5424e2b6, 0xaa84b086688a5c45, 0xcd881ee59ca6bc53, 0x84058865d60a05fa, 0x09aee5bda1644de5));
    StateAt(p, start, block, 65, Registers(0xeeb9c21bb0102598, 0x5a806d7e9821a501, 0xab44e86276478d85,
        0xa81dedbb9f19e643, 0x3b5fed0d6a1f96e1, 0xaa84b086688a5c45, 0xcd881ee59ca6bc53, 0x84058865d60a05fa));
    StateAt(p, start, block, 66, Registers(0x46c4210ab2cc155d, 0xeeb9c21bb0102598, 0x5a806d7e9821a501,
        0xab44e86276478d85, 0x29fab5a7bff53366, 0x3b5fed0d6a1f96e1, 0xaa84b086688a5c45, 0xcd881ee59ca6bc53));
    StateAt(p, start, block, 67, Registers(0x54ba35cf56a0340e, 0x46c4210ab2cc155d, 0xeeb9c21bb0102598,
        0x5a806d7e9821a501, 0x1c66f46d95690bcf, 0x29fab5a7bff53366, 0x3b5fed0d6a1f96e1, 0xaa84b086688a5c45));
    StateAt(p, start, block, 68, Registers(0x181839d609c79748, 0x54ba35cf56a0340e, 0x46c4210ab2cc155d,
        0xeeb9c21bb0102598, 0x0ada78ba2d446140, 0x1c66f46d95690bcf, 0x29fab5a7bff53366, 0x3b5fed0d6a1f96e1));
    StateAt(p, start, block, 69, Registers(0xfb6aaae5d0b6a447, 0x181839d609c79748, 0x54ba35cf56a0340e,
        0x46c4210ab2cc155d, 0xe3711cb6564d112d, 0x0ada78ba2d446140, 0x1c66f46d95690bcf, 0x29fab5a7bff53366));
    StateAt(p, start, block, 70, Registers(0x7652c579cb60f19c, 0xfb6aaae5d0b6a447, 0x181839d609c79748,
        0x54ba35cf56a0340e, 0xaff62c9665ff80fa, 0xe3711cb6564d112d, 0x0ada78ba2d446140, 0x1c66f46d95690bcf));
    StateAt(p, start, block, 71, Registers(0xf15e9664b2803575, 0x7652c579cb60f19c, 0xfb6aaae5d0b6a447,
        0x181839d609c79748, 0x947c3dfafee570ef, 0xaff62c9665ff80fa, 0xe3711cb6564d112d, 0x0ada78ba2d446140));
  }

  lemma States512_9(p: Parameters, start: Registers, block: seq<Word>)
    requires Is512(p) && block == BLOCK_512
    requires p.constants == K512_0 + K512_1 + K512_2 + K512_3 + K512_4 + K512_5 + K512_6 + K512_7 + K512_8 + K512_9
    requires Rounds(p, start, block, 72) == Registers(0xf15e9664b2803575, 0x7652c579cb60f19c, 0xfb6aaae5d0b6a447,
        0x181839d609c79748, 0x947c3dfafee570ef, 0xaff62c9665ff80fa, 0xe3711cb6564d112d, 0x0ada78ba2d446140)
    ensures Rounds(p, start, block, 80) == Registers(0x73a54f399fa4b1b2, 0x10d9c4c4295599f6, 0xd67806db8b148677,
        0x654ef9abec389ca9, 0xd08446aa79693ed7, 0x9bb4d39778c07f9e, 0x25c96a7768fb2aa3, 0xceb9fc3691ce8326)
  {
    hide W, Rounds;
    Words512_9(p, block);
    Row512_9(p);
    StateAt(p, start, block, 72, Registers(0x358406d165aee9ab, 0xf15e9664b2803575, 0x7652c579cb60f19c,
        0xfb6aaae5d0b6a447, 0x8c7b5fd91a794ca0, 0x947c3dfafee570ef, 0xaff62c9665ff80fa, 0xe3711cb6564d112d));
    StateAt(p, start, block, 73, Registers(0x20878dcd29cdfaf5, 0x358406d165aee9ab, 0xf15e9664b2803575,
        0x7652c579cb60f19c, 0x054d3536539948d0, 0x8c7b5fd91a794ca0, 0x947c3dfafee570ef, 0xaff62c9665ff80fa));
    StateAt(p, start, block, 74, Registers(0x33d48dabb5521de2, 0x20878dcd29cdfaf5, 0x358406d165aee9ab,
        0xf15e9664b2803575, 0x2ba18245b50de4cf, 0x054d3536539948d0, 0x8c7b5fd91a794ca0, 0x947c3dfafee570ef));
    StateAt(p, start, block, 75, Registers(0xc8960e6be864b916, 0x33d48dabb5521de2, 0x20878dcd29cdfaf5,
        0x358406d165aee9ab, 0x995019a6ff3ba3de, 0x2ba18245b50de4cf, 0x054d3536539948d0, 0x8c7b5fd91a794ca0));
    StateAt(p, start, block, 76, Registers(0x654ef9abec389ca9, 0xc8960e6be864b916, 0x33d48dabb5521de2,
        0x20878dcd29cdfaf5, 0xceb9fc3691ce8326, 0x995019a6ff3ba3de, 0x2ba18245b50de4cf, 0x054d3536539948d0));
    StateAt(p, start, block, 77, Registers(0xd67806db8b148677, 0x654ef9abec389ca9, 0xc8960e6be864b916,
        0x33d48dabb5521de2, 0x25c96a7768fb2aa3, 0xceb9fc3691ce8326, 0x995019a6ff3ba3de, 0x2ba18245b50de4cf));
    StateAt(p, start, block, 78, Registers(0x10d9c4c4295599f6, 0xd67806db8b148677, 0x654ef9abec389ca9,
        0xc8960e6be864b916, 0x9bb4d39778c07f9e, 0x25c96a7768fb2aa3, 0xceb9fc3691ce8326, 0x995019a6ff3ba3de));
    StateAt(p, start, block, 79, Registers(0x73a54f399fa4b1b2, 0x10d9c4c4295599f6, 0xd67806db8b148677,
        0x654ef9abec389ca9, 0xd08446aa79693ed7, 0x9bb4d39778c07f9e, 0x25c96a7768fb2aa3, 0xceb9fc3691ce8326));
  }

  lemma Block512(p: Parameters)
    requires Is512(p)
    ensures |Pad(ABC, 128, 16)| == 128
    ensures BlockWords(p, Pad(ABC, 128, 16)) == BLOCK_512
  {
    hide Pad, WordsOf, WordOf;
    var s: seq<byte> := [0x61, 0x62, 0x63, 0x80];
    PadWholeBlocks(ABC, 128, 16);
    AbcPadded(128, 16, 8);
    AbcWords(128, 16, 8);
    FourBytes(0x61, 0x62, 0x63, 0x80);
    ZerosAppended(s, 0);
    ZerosAppended(s, 1);
    ZerosAppended(s, 2);
    ZerosAppended(s, 3);
    ZerosAppended(s, 4);
    assert AppendByte(0x0000000000000000, 0x61) == 0x0000000000000061;
    assert AppendByte(0x0000000000000061, 0x62) == 0x0000000000006162;
    assert AppendByte(0x0000000000006162, 0x63) == 0x0000000000616263;
    assert AppendByte(0x0000000000616263, 0x80) == 0x0000000061626380;
    assert AppendByte(0x0000000061626380, 0x00) == 0x0000006162638000;
    assert AppendByte(0x0000006162638000, 0x00) == 0x0000616263800000;
    assert AppendByte(0x0000616263800000, 0x00) == 0x0061626380000000;
    assert AppendByte(0x0061626380000000, 0x00) == 0x6162638000000000;
    assert [0x6162638000000000] + (seq(14, _ => 0 as Word) + [24]) == BLOCK_512;
  }

  lemma End512()
    ensures Rounds(SHA512, SHA512.initial, BLOCK_512, 80) == Registers(0x73a54f399fa4b1b2, 0x10d9c4c4295599f6,
        0xd67806db8b148677, 0x654ef9abec389ca9, 0xd08446aa79693ed7, 0x9bb4d39778c07f9e, 0x25c96a7768fb2aa3,
        0xceb9fc3691ce8326)
  {
    hide W, Round;
    var p, start := SHA512, SHA512.initial;
    assert Rounds(p, start, BLOCK_512, 0) == start;
    States512_0(p, start, BLOCK_512);
    States512_1(p, start, BLOCK_512);
    States512_2(p, start, BLOCK_512);
    States512_3(p, start, BLOCK_512);
    States512_4(p, start, BLOCK_512);
    States512_5(p, start, BLOCK_512);
    States512_6(p, start, BLOCK_512);
    States512_7(p, start, BLOCK_512);
    States512_8(p, start, BLOCK_512);
    States512_9(p, start, BLOCK_512);
  }

  lemma DigestWord512_0()
    ensures BytesOf(0xddaf35a193617aba, 8) == [0xdd, 0xaf, 0x35, 0xa1, 0x93, 0x61, 0x7a, 0xba]
  {
    hide BytesOf;
    EightOf(0xddaf35a193617aba, 0xddaf35a193617a, 0xddaf35a19361, 0xddaf35a193, 0xddaf35a1, 0xddaf35, 0xddaf, 0xdd);
  }

  lemma DigestWord512_1()
    ensures BytesOf(0xcc417349ae204131, 8) == [0xcc, 0x41, 0x73, 0x49, 0xae, 0x20, 0x41, 0x31]
  {
    hide BytesOf;
    EightOf(0xcc417349ae204131, 0xcc417349ae2041, 0xcc417349ae20, 0xcc417349ae, 0xcc417349, 0xcc4173, 0xcc41, 0xcc);
  }

  lemma DigestWord512_2()
    ensures BytesOf(0x12e6fa4e89a97ea2, 8) == [0x12, 0xe6, 0xfa, 0x4e, 0x89, 0xa9, 0x7e, 0xa2]
  {
    hide BytesOf;
    EightOf(0x12e6fa4e89a97ea2, 0x12e6fa4e89a97e, 0x12e6fa4e89a9, 0x12e6fa4e89, 0x12e6fa4e, 0x12e6fa, 0x12e6, 0x12);
  }

  lemma DigestWord512_3()
    ensures BytesOf(0x0a9eeee64b55d39a, 8) == [0x0a, 0x9e, 0xee, 0xe6, 0x4b, 0x55, 0xd3, 0x9a]
  {
    hide BytesOf;
    EightOf(0xa9eeee64b55d39a, 0xa9eeee64b55d3, 0xa9eeee64b55, 0xa9eeee64b, 0xa9eeee6, 0xa9eee, 0xa9e, 0xa);
  }

  lemma DigestWord512_4()
    ensures BytesOf(0x2192992a274fc1a8, 8) == [0x21, 0x92, 0x99, 0x2a, 0x27, 0x4f, 0xc1, 0xa8]
  {
    hide BytesOf;
    EightOf(0x2192992a274fc1a8, 0x2192992a274fc1, 0x2192992a274f, 0x2192992a27, 0x2192992a, 0x219299, 0x2192, 0x21);
  }

  lemma DigestWord512_5()
    ensures BytesOf(0x36ba3c23a3feebbd, 8) == [0x36, 0xba, 0x3c, 0x23, 0xa3, 0xfe, 0xeb, 0xbd]
  {
    hide BytesOf;
    EightOf(0x36ba3c23a3feebbd, 0x36ba3c23a3feeb, 0x36ba3c23a3fe, 0x36ba3c23a3, 0x36ba3c23, 0x36ba3c, 0x36ba, 0x36);
  }

  lemma DigestWord512_6()
    ensures BytesOf(0x454d4423643ce80e, 8) == [0x45, 0x4d, 0x44, 0x23, 0x64, 0x3c, 0xe8, 0x0e]
  {
    hide BytesOf;
    EightOf(0x454d4423643ce80e, 0x454d4423643ce8, 0x454d4423643c, 0x454d442364, 0x454d4423, 0x454d44, 0x454d, 0x45);
  }

  lemma DigestWord512_7()
    ensures BytesOf(0x2a9ac94fa54ca49f, 8) == [0x2a, 0x9a, 0xc9, 0x4f, 0xa5, 0x4c, 0xa4, 0x9f]
  {
    hide BytesOf;
    EightOf(0x2a9ac94fa54ca49f, 0x2a9ac94fa54ca4, 0x2a9ac94fa54c, 0x2a9ac94fa5, 0x2a9ac94f, 0x2a9ac9, 0x2a9a, 0x2a);
  }

  lemma EndSum512()
    ensures Plus(SHA512, SHA512.initial, Registers(0x73a54f399fa4b1b2, 0x10d9c4c4295599f6, 0xd67806db8b148677,
        0x654ef9abec389ca9, 0xd08446aa79693ed7, 0x9bb4d39778c07f9e, 0x25c96a7768fb2aa3,
        0xceb9fc3691ce8326)) == Registers(0xddaf35a193617aba, 0xcc417349ae204131, 0x12e6fa4e89a97ea2,
        0x0a9eeee64b55d39a, 0x2192992a274fc1a8, 0x36ba3c23a3feebbd, 0x454d4423643ce80e, 0x2a9ac94fa54ca49f)
  {
  }

  lemma Abc512()
    ensures Sha512(ABC) ==
      [0xdd, 0xaf, 0x35, 0xa1, 0x93, 0x61, 0x7a, 0xba] +
      [0xcc, 0x41, 0x73, 0x49, 0xae, 0x20, 0x41, 0x31] +
      [0x12, 0xe6, 0xfa, 0x4e, 0x89, 0xa9, 0x7e, 0xa2] +
      [0x0a, 0x9e, 0xee, 0xe6, 0x4b, 0x55, 0xd3, 0x9a] +
      [0x21, 0x92, 0x99, 0x2a, 0x27, 0x4f, 0xc1, 0xa8] +
      [0x36, 0xba, 0x3c, 0x23, 0xa3, 0xfe, 0xeb, 0xbd] +
      [0x45, 0x4d, 0x44, 0x23, 0x64, 0x3c, 0xe8, 0x0e] +
      [0x2a, 0x9a, 0xc9, 0x4f, 0xa5, 0x4c, 0xa4, 0x9f]
  {
    hide Pad, BlockWords, Rounds, Plus, Spelled, BytesOf, Digest;
    BothSound();
    Block512(SHA512);
    End512();
    OneBlock(SHA512, ABC, Registers(0x73a54f399fa4b1b2, 0x10d9c4c4295599f6, 0xd67806db8b148677, 0x654ef9abec389ca9,
        0xd08446aa79693ed7, 0x9bb4d39778c07f9e, 0x25c96a7768fb2aa3, 0xceb9fc3691ce8326));
    EndSum512();
    SpelledRegisters(Registers(0xddaf35a193617aba, 0xcc417349ae204131, 0x12e6fa4e89a97ea2, 0x0a9eeee64b55d39a,
        0x2192992a274fc1a8, 0x36ba3c23a3feebbd, 0x454d4423643ce80e, 0x2a9ac94fa54ca49f), 8);
    DigestWord512_0();
    DigestWord512_1();
    DigestWord512_2();
    DigestWord512_3();
    DigestWord512_4();
    DigestWord512_5();
    DigestWord512_6();
    DigestWord512_7();
  }
}

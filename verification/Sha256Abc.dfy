/** The known answer of FIPS 180-4 for the message "abc". */
module Sha256Abc {
  import opened Sha256
  import opened Sha256Computing

  const ABC: seq<bv8> := [0x61, 0x62, 0x63]

  function AbcBytes(): (r: seq<bv8>)
    ensures |r| == 64
  {
    [0x61, 0x62, 0x63, 0x80] + Zeros(52) + [0, 0, 0, 0, 0, 0, 0, 0x18]
  }

  lemma AbcPadded()
    ensures Padded(ABC) == AbcBytes()
  {
    ShortLength(24, 0, 0x18);
    assert ABC + [0x80] == [0x61, 0x62, 0x63, 0x80];
    hide ABC;
  }

  lemma AbcBlock0(block: seq<bv8>)
    requires block == AbcBytes()
    ensures Schedule(BlockWords(block), 0) == 0x61626380 && Schedule(BlockWords(block), 1) == 0x00000000
    ensures Schedule(BlockWords(block), 2) == 0x00000000 && Schedule(BlockWords(block), 3) == 0x00000000
  {
    hide Schedule, BlockWords;
    WordAt(block, 0, 0x61, 0x62, 0x63, 0x80, 0x61626380);
    WordAt(block, 1, 0x00, 0x00, 0x00, 0x00, 0x00000000);
    WordAt(block, 2, 0x00, 0x00, 0x00, 0x00, 0x00000000);
    WordAt(block, 3, 0x00, 0x00, 0x00, 0x00, 0x00000000);
  }

  lemma AbcBlock4(block: seq<bv8>)
    requires block == AbcBytes()
    ensures Schedule(BlockWords(block), 4) == 0x00000000 && Schedule(BlockWords(block), 5) == 0x00000000
    ensures Schedule(BlockWords(block), 6) == 0x00000000 && Schedule(BlockWords(block), 7) == 0x00000000
  {
    hide Schedule, BlockWords;
    WordAt(block, 4, 0x00, 0x00, 0x00, 0x00, 0x00000000);
    WordAt(block, 5, 0x00, 0x00, 0x00, 0x00, 0x00000000);
    WordAt(block, 6, 0x00, 0x00, 0x00, 0x00, 0x00000000);
    WordAt(block, 7, 0x00, 0x00, 0x00, 0x00, 0x00000000);
  }

  lemma AbcBlock8(block: seq<bv8>)
    requires block == AbcBytes()
    ensures Schedule(BlockWords(block), 8) == 0x00000000 && Schedule(BlockWords(block), 9) == 0x00000000
    ensures Schedule(BlockWords(block), 10) == 0x00000000 && Schedule(BlockWords(block), 11) == 0x00000000
  {
    hide Schedule, BlockWords;
    WordAt(block, 8, 0x00, 0x00, 0x00, 0x00, 0x00000000);
    WordAt(block, 9, 0x00, 0x00, 0x00, 0x00, 0x00000000);
    WordAt(block, 10, 0x00, 0x00, 0x00, 0x00, 0x00000000);
    WordAt(block, 11, 0x00, 0x00, 0x00, 0x00, 0x00000000);
  }

  lemma AbcBlock12(block: seq<bv8>)
    requires block == AbcBytes()
    ensures Schedule(BlockWords(block), 12) == 0x00000000 && Schedule(BlockWords(block), 13) == 0x00000000
    ensures Schedule(BlockWords(block), 14) == 0x00000000 && Schedule(BlockWords(block), 15) == 0x00000018
  {
    hide Schedule, BlockWords;
    WordAt(block, 12, 0x00, 0x00, 0x00, 0x00, 0x00000000);
    WordAt(block, 13, 0x00, 0x00, 0x00, 0x00, 0x00000000);
    WordAt(block, 14, 0x00, 0x00, 0x00, 0x00, 0x00000000);
    WordAt(block, 15, 0x00, 0x00, 0x00, 0x18, 0x00000018);
  }

  lemma AbcBlock(block: seq<bv8>)
    requires block == AbcBytes()
    ensures AbcWords0(BlockWords(block)) && AbcWords8(BlockWords(block))
  {
    hide Schedule, BlockWords;
    AbcBlock0(block);
    AbcBlock4(block);
    AbcBlock8(block);
    AbcBlock12(block);
  }

  predicate AbcWords0(words: seq<bv32>) {
    && |words| == 16
    && Schedule(words, 0) == 0x61626380 && Schedule(words, 1) == 0x00000000
    && Schedule(words, 2) == 0x00000000 && Schedule(words, 3) == 0x00000000
    && Schedule(words, 4) == 0x00000000 && Schedule(words, 5) == 0x00000000
    && Schedule(words, 6) == 0x00000000 && Schedule(words, 7) == 0x00000000
  }

  predicate AbcWords8(words: seq<bv32>) {
    && |words| == 16
    && Schedule(words, 8) == 0x00000000 && Schedule(words, 9) == 0x00000000
    && Schedule(words, 10) == 0x00000000 && Schedule(words, 11) == 0x00000000
    && Schedule(words, 12) == 0x00000000 && Schedule(words, 13) == 0x00000000
    && Schedule(words, 14) == 0x00000000 && Schedule(words, 15) == 0x00000018
  }

  predicate AbcWords16(words: seq<bv32>) {
    && |words| == 16
    && Schedule(words, 16) == 0x61626380 && Schedule(words, 17) == 0x000f0000
    && Schedule(words, 18) == 0x7da86405 && Schedule(words, 19) == 0x600003c6
    && Schedule(words, 20) == 0x3e9d7b78 && Schedule(words, 21) == 0x0183fc00
    && Schedule(words, 22) == 0x12dcbfdb && Schedule(words, 23) == 0xe2e2c38e
  }

  predicate AbcWords24(words: seq<bv32>) {
    && |words| == 16
    && Schedule(words, 24) == 0xc8215c1a && Schedule(words, 25) == 0xb73679a2
    && Schedule(words, 26) == 0xe5bc3909 && Schedule(words, 27) == 0x32663c5b
    && Schedule(words, 28) == 0x9d209d67 && Schedule(words, 29) == 0xec8726cb
    && Schedule(words, 30) == 0x702138a4 && Schedule(words, 31) == 0xd3b7973b
  }

  predicate AbcWords32(words: seq<bv32>) {
    && |words| == 16
    && Schedule(words, 32) == 0x93f5997f && Schedule(words, 33) == 0x3b68ba73
    && Schedule(words, 34) == 0xaff4ffc1 && Schedule(words, 35) == 0xf10a5c62
    && Schedule(words, 36) == 0x0a8b3996 && Schedule(words, 37) == 0x72af830a
    && Schedule(words, 38) == 0x9409e33e && Schedule(words, 39) == 0x24641522
  }

  predicate AbcWords40(words: seq<bv32>) {
    && |words| == 16
    && Schedule(words, 40) == 0x9f47bf94 && Schedule(words, 41) == 0xf0a64f5a
    && Schedule(words, 42) == 0x3e246a79 && Schedule(words, 43) == 0x27333ba3
    && Schedule(words, 44) == 0x0c4763f2 && Schedule(words, 45) == 0x840abf27
    && Schedule(words, 46) == 0x7a290d5d && Schedule(words, 47) == 0x065c43da
  }

  predicate AbcWords48(words: seq<bv32>) {
    && |words| == 16
    && Schedule(words, 48) == 0xfb3e89cb && Schedule(words, 49) == 0xcc7617db
    && Schedule(words, 50) == 0xb9e66c34 && Schedule(words, 51) == 0xa9993667
    && Schedule(words, 52) == 0x84badedd && Schedule(words, 53) == 0xc21462bc
    && Schedule(words, 54) == 0x1487472c && Schedule(words, 55) == 0xb20f7a99
  }

  predicate AbcWords56(words: seq<bv32>) {
    && |words| == 16
    && Schedule(words, 56) == 0xef57b9cd && Schedule(words, 57) == 0xebe6b238
    && Schedule(words, 58) == 0x9fe3095e && Schedule(words, 59) == 0x78bc8d4b
    && Schedule(words, 60) == 0xa43fcf15 && Schedule(words, 61) == 0x668b2ff8
    && Schedule(words, 62) == 0xeeaba2cc && Schedule(words, 63) == 0x12b1edeb
  }

  lemma AbcSchedule16(words: seq<bv32>)
    requires AbcWords0(words) && AbcWords8(words)
    ensures AbcWords16(words)
  {
    hide Schedule;
    NextSchedule(words, 16, 0x61626380, 0x00000000, 0x00000000, 0x00000000);
    NextSchedule(words, 17, 0x00000000, 0x00000000, 0x00000000, 0x00000018);
    NextSchedule(words, 18, 0x00000000, 0x00000000, 0x00000000, 0x61626380);
    NextSchedule(words, 19, 0x00000000, 0x00000000, 0x00000000, 0x000f0000);
    NextSchedule(words, 20, 0x00000000, 0x00000000, 0x00000000, 0x7da86405);
    NextSchedule(words, 21, 0x00000000, 0x00000000, 0x00000000, 0x600003c6);
    NextSchedule(words, 22, 0x00000000, 0x00000000, 0x00000018, 0x3e9d7b78);
    NextSchedule(words, 23, 0x00000000, 0x00000000, 0x61626380, 0x0183fc00);
  }

  lemma AbcSchedule24(words: seq<bv32>)
    requires AbcWords8(words) && AbcWords16(words)
    ensures AbcWords24(words)
  {
    hide Schedule;
    NextSchedule(words, 24, 0x00000000, 0x00000000, 0x000f0000, 0x12dcbfdb);
    NextSchedule(words, 25, 0x00000000, 0x00000000, 0x7da86405, 0xe2e2c38e);
    NextSchedule(words, 26, 0x00000000, 0x00000000, 0x600003c6, 0xc8215c1a);
    NextSchedule(words, 27, 0x00000000, 0x00000000, 0x3e9d7b78, 0xb73679a2);
    NextSchedule(words, 28, 0x00000000, 0x00000000, 0x0183fc00, 0xe5bc3909);
    NextSchedule(words, 29, 0x00000000, 0x00000000, 0x12dcbfdb, 0x32663c5b);
    NextSchedule(words, 30, 0x00000000, 0x00000018, 0xe2e2c38e, 0x9d209d67);
    NextSchedule(words, 31, 0x00000018, 0x61626380, 0xc8215c1a, 0xec8726cb);
  }

  lemma AbcSchedule32(words: seq<bv32>)
    requires AbcWords16(words) && AbcWords24(words)
    ensures AbcWords32(words)
  {
    hide Schedule;
    NextSchedule(words, 32, 0x61626380, 0x000f0000, 0xb73679a2, 0x702138a4);
    NextSchedule(words, 33, 0x000f0000, 0x7da86405, 0xe5bc3909, 0xd3b7973b);
    NextSchedule(words, 34, 0x7da86405, 0x600003c6, 0x32663c5b, 0x93f5997f);
    NextSchedule(words, 35, 0x600003c6, 0x3e9d7b78, 0x9d209d67, 0x3b68ba73);
    NextSchedule(words, 36, 0x3e9d7b78, 0x0183fc00, 0xec8726cb, 0xaff4ffc1);
    NextSchedule(words, 37, 0x0183fc00, 0x12dcbfdb, 0x702138a4, 0xf10a5c62);
    NextSchedule(words, 38, 0x12dcbfdb, 0xe2e2c38e, 0xd3b7973b, 0x0a8b3996);
    NextSchedule(words, 39, 0xe2e2c38e, 0xc8215c1a, 0x93f5997f, 0x72af830a);
  }

  lemma AbcSchedule40(words: seq<bv32>)
    requires AbcWords24(words) && AbcWords32(words)
    ensures AbcWords40(words)
  {
    hide Schedule;
    NextSchedule(words, 40, 0xc8215c1a, 0xb73679a2, 0x3b68ba73, 0x9409e33e);
    NextSchedule(words, 41, 0xb73679a2, 0xe5bc3909, 0xaff4ffc1, 0x24641522);
    NextSchedule(words, 42, 0xe5bc3909, 0x32663c5b, 0xf10a5c62, 0x9f47bf94);
    NextSchedule(words, 43, 0x32663c5b, 0x9d209d67, 0x0a8b3996, 0xf0a64f5a);
    NextSchedule(words, 44, 0x9d209d67, 0xec8726cb, 0x72af830a, 0x3e246a79);
    NextSchedule(words, 45, 0xec8726cb, 0x702138a4, 0x9409e33e, 0x27333ba3);
    NextSchedule(words, 46, 0x702138a4, 0xd3b7973b, 0x24641522, 0x0c4763f2);
    NextSchedule(words, 47, 0xd3b7973b, 0x93f5997f, 0x9f47bf94, 0x840abf27);
  }

  lemma AbcSchedule48(words: seq<bv32>)
    requires AbcWords32(words) && AbcWords40(words)
    ensures AbcWords48(words)
  {
    hide Schedule;
    NextSchedule(words, 48, 0x93f5997f, 0x3b68ba73, 0xf0a64f5a, 0x7a290d5d);
    NextSchedule(words, 49, 0x3b68ba73, 0xaff4ffc1, 0x3e246a79, 0x065c43da);
    NextSchedule(words, 50, 0xaff4ffc1, 0xf10a5c62, 0x27333ba3, 0xfb3e89cb);
    NextSchedule(words, 51, 0xf10a5c62, 0x0a8b3996, 0x0c4763f2, 0xcc7617db);
    NextSchedule(words, 52, 0x0a8b3996, 0x72af830a, 0x840abf27, 0xb9e66c34);
    NextSchedule(words, 53, 0x72af830a, 0x9409e33e, 0x7a290d5d, 0xa9993667);
    NextSchedule(words, 54, 0x9409e33e, 0x24641522, 0x065c43da, 0x84badedd);
    NextSchedule(words, 55, 0x24641522, 0x9f47bf94, 0xfb3e89cb, 0xc21462bc);
  }

  lemma AbcSchedule56(words: seq<bv32>)
    requires AbcWords40(words) && AbcWords48(words)
    ensures AbcWords56(words)
  {
    hide Schedule;
    NextSchedule(words, 56, 0x9f47bf94, 0xf0a64f5a, 0xcc7617db, 0x1487472c);
    NextSchedule(words, 57, 0xf0a64f5a, 0x3e246a79, 0xb9e66c34, 0xb20f7a99);
    NextSchedule(words, 58, 0x3e246a79, 0x27333ba3, 0xa9993667, 0xef57b9cd);
    NextSchedule(words, 59, 0x27333ba3, 0x0c4763f2, 0x84badedd, 0xebe6b238);
    NextSchedule(words, 60, 0x0c4763f2, 0x840abf27, 0xc21462bc, 0x9fe3095e);
    NextSchedule(words, 61, 0x840abf27, 0x7a290d5d, 0x1487472c, 0x78bc8d4b);
    NextSchedule(words, 62, 0x7a290d5d, 0x065c43da, 0xb20f7a99, 0xa43fcf15);
    NextSchedule(words, 63, 0x065c43da, 0xfb3e89cb, 0xef57b9cd, 0x668b2ff8);
  }

  lemma AbcRounds0(v: Working, words: seq<bv32>)
    requires AbcWords0(words)
    requires Rounds(v, words, 0) == Working(0x6a09e667, 0xbb67ae85, 0x3c6ef372, 0xa54ff53a, 0x510e527f, 0x9b05688c,
                      0x1f83d9ab, 0x5be0cd19)
    ensures |K| == 64 && Rounds(v, words, 8) == Working(0x85a07b5f, 0xe5030380, 0x2b4209f5, 0x04409a6a, 0x0c657a79,
                      0x9b27a401, 0x714260ad, 0x43ada245)
  {
    Constants0();
    hide Round, Rounds, Schedule, K;
    Step(v, words, 0, 0x6a09e667, 0xbb67ae85, 0x3c6ef372, 0xa54ff53a, 0x510e527f, 0x9b05688c, 0x1f83d9ab, 0x5be0cd19,
         0x428a2f98, 0x61626380);
    Step(v, words, 1, 0x5d6aebcd, 0x6a09e667, 0xbb67ae85, 0x3c6ef372, 0xfa2a4622, 0x510e527f, 0x9b05688c, 0x1f83d9ab,
         0x71374491, 0x00000000);
    Step(v, words, 2, 0x5a6ad9ad, 0x5d6aebcd, 0x6a09e667, 0xbb67ae85, 0x78ce7989, 0xfa2a4622, 0x510e527f, 0x9b05688c,
         0xb5c0fbcf, 0x00000000);
    Step(v, words, 3, 0xc8c347a7, 0x5a6ad9ad, 0x5d6aebcd, 0x6a09e667, 0xf92939eb, 0x78ce7989, 0xfa2a4622, 0x510e527f,
         0xe9b5dba5, 0x00000000);
    Step(v, words, 4, 0xd550f666, 0xc8c347a7, 0x5a6ad9ad, 0x5d6aebcd, 0x24e00850, 0xf92939eb, 0x78ce7989, 0xfa2a4622,
         0x3956c25b, 0x00000000);
    Step(v, words, 5, 0x04409a6a, 0xd550f666, 0xc8c347a7, 0x5a6ad9ad, 0x43ada245, 0x24e00850, 0xf92939eb, 0x78ce7989,
         0x59f111f1, 0x00000000);
    Step(v, words, 6, 0x2b4209f5, 0x04409a6a, 0xd550f666, 0xc8c347a7, 0x714260ad, 0x43ada245, 0x24e00850, 0xf92939eb,
         0x923f82a4, 0x00000000);
    Step(v, words, 7, 0xe5030380, 0x2b4209f5, 0x04409a6a, 0xd550f666, 0x9b27a401, 0x714260ad, 0x43ada245, 0x24e00850,
         0xab1c5ed5, 0x00000000);
  }

  lemma AbcRounds8(v: Working, words: seq<bv32>)
    requires AbcWords8(words)
    requires Rounds(v, words, 8) == Working(0x85a07b5f, 0xe5030380, 0x2b4209f5, 0x04409a6a, 0x0c657a79, 0x9b27a401,
                      0x714260ad, 0x43ada245)
    ensures |K| == 64 && Rounds(v, words, 16) == Working(0xb0fa238e, 0xc0645fde, 0xd932eb16, 0x87912990, 0x07590dcd,
                      0x0b92f20c, 0x745a48de, 0x1e578218)
  {
    Constants8();
    hide Round, Rounds, Schedule, K;
    Step(v, words, 8, 0x85a07b5f, 0xe5030380, 0x2b4209f5, 0x04409a6a, 0x0c657a79, 0x9b27a401, 0x714260ad, 0x43ada245,
         0xd807aa98, 0x00000000);
    Step(v, words, 9, 0x8e04ecb9, 0x85a07b5f, 0xe5030380, 0x2b4209f5, 0x32ca2d8c, 0x0c657a79, 0x9b27a401, 0x714260ad,
         0x12835b01, 0x00000000);
    Step(v, words, 10, 0x8c87346b, 0x8e04ecb9, 0x85a07b5f, 0xe5030380, 0x1cc92596, 0x32ca2d8c, 0x0c657a79, 0x9b27a401,
         0x243185be, 0x00000000);
    Step(v, words, 11, 0x4798a3f4, 0x8c87346b, 0x8e04ecb9, 0x85a07b5f, 0x436b23e8, 0x1cc92596, 0x32ca2d8c, 0x0c657a79,
         0x550c7dc3, 0x00000000);
    Step(v, words, 12, 0xf71fc5a9, 0x4798a3f4, 0x8c87346b, 0x8e04ecb9, 0x816fd6e9, 0x436b23e8, 0x1cc92596, 0x32ca2d8c,
         0x72be5d74, 0x00000000);
    Step(v, words, 13, 0x87912990, 0xf71fc5a9, 0x4798a3f4, 0x8c87346b, 0x1e578218, 0x816fd6e9, 0x436b23e8, 0x1cc92596,
         0x80deb1fe, 0x00000000);
    Step(v, words, 14, 0xd932eb16, 0x87912990, 0xf71fc5a9, 0x4798a3f4, 0x745a48de, 0x1e578218, 0x816fd6e9, 0x436b23e8,
         0x9bdc06a7, 0x00000000);
    Step(v, words, 15, 0xc0645fde, 0xd932eb16, 0x87912990, 0xf71fc5a9, 0x0b92f20c, 0x745a48de, 0x1e578218, 0x816fd6e9,
         0xc19bf174, 0x00000018);
  }

  lemma AbcRounds16(v: Working, words: seq<bv32>)
    requires AbcWords16(words)
    requires Rounds(v, words, 16) == Working(0xb0fa238e, 0xc0645fde, 0xd932eb16, 0x87912990, 0x07590dcd, 0x0b92f20c,
                      0x745a48de, 0x1e578218)
    ensures |K| == 64 && Rounds(v, words, 24) == Working(0xc5d53d8d, 0xa7a3623f, 0xc2606d6d, 0x9dc68b63, 0xaa47c347,
                      0x49f5114a, 0xe1257970, 0x8ada8930)
  {
    Constants16();
    hide Round, Rounds, Schedule, K;
    Step(v, words, 16, 0xb0fa238e, 0xc0645fde, 0xd932eb16, 0x87912990, 0x07590dcd, 0x0b92f20c, 0x745a48de, 0x1e578218,
         0xe49b69c1, 0x61626380);
    Step(v, words, 17, 0x21da9a9b, 0xb0fa238e, 0xc0645fde, 0xd932eb16, 0x8034229c, 0x07590dcd, 0x0b92f20c, 0x745a48de,
         0xefbe4786, 0x000f0000);
    Step(v, words, 18, 0xc2fbd9d1, 0x21da9a9b, 0xb0fa238e, 0xc0645fde, 0x846ee454, 0x8034229c, 0x07590dcd, 0x0b92f20c,
         0x0fc19dc6, 0x7da86405);
    Step(v, words, 19, 0xfe777bbf, 0xc2fbd9d1, 0x21da9a9b, 0xb0fa238e, 0xcc899961, 0x846ee454, 0x8034229c, 0x07590dcd,
         0x240ca1cc, 0x600003c6);
    Step(v, words, 20, 0xe1f20c33, 0xfe777bbf, 0xc2fbd9d1, 0x21da9a9b, 0xb0638179, 0xcc899961, 0x846ee454, 0x8034229c,
         0x2de92c6f, 0x3e9d7b78);
    Step(v, words, 21, 0x9dc68b63, 0xe1f20c33, 0xfe777bbf, 0xc2fbd9d1, 0x8ada8930, 0xb0638179, 0xcc899961, 0x846ee454,
         0x4a7484aa, 0x0183fc00);
    Step(v, words, 22, 0xc2606d6d, 0x9dc68b63, 0xe1f20c33, 0xfe777bbf, 0xe1257970, 0x8ada8930, 0xb0638179, 0xcc899961,
         0x5cb0a9dc, 0x12dcbfdb);
    Step(v, words, 23, 0xa7a3623f, 0xc2606d6d, 0x9dc68b63, 0xe1f20c33, 0x49f5114a, 0xe1257970, 0x8ada8930, 0xb0638179,
         0x76f988da, 0xe2e2c38e);
  }

  lemma AbcRounds24(v: Working, words: seq<bv32>)
    requires AbcWords24(words)
    requires Rounds(v, words, 24) == Working(0xc5d53d8d, 0xa7a3623f, 0xc2606d6d, 0x9dc68b63, 0xaa47c347, 0x49f5114a,
                      0xe1257970, 0x8ada8930)
    ensures |K| == 64 && Rounds(v, words, 32) == Working(0x73b33bf5, 0xea992a22, 0xa0060b30, 0x363482c9, 0xba591112,
                      0x0109ab3a, 0xade79437, 0x6112a3b7)
  {
    Constants24();
    hide Round, Rounds, Schedule, K;
    Step(v, words, 24, 0xc5d53d8d, 0xa7a3623f, 0xc2606d6d, 0x9dc68b63, 0xaa47c347, 0x49f5114a, 0xe1257970, 0x8ada8930,
         0x983e5152, 0xc8215c1a);
    Step(v, words, 25, 0x1c2c2838, 0xc5d53d8d, 0xa7a3623f, 0xc2606d6d, 0x2823ef91, 0xaa47c347, 0x49f5114a, 0xe1257970,
         0xa831c66d, 0xb73679a2);
    Step(v, words, 26, 0xcde8037d, 0x1c2c2838, 0xc5d53d8d, 0xa7a3623f, 0x14383d8e, 0x2823ef91, 0xaa47c347, 0x49f5114a,
         0xb00327c8, 0xe5bc3909);
    Step(v, words, 27, 0xb62ec4bc, 0xcde8037d, 0x1c2c2838, 0xc5d53d8d, 0xc74c6516, 0x14383d8e, 0x2823ef91, 0xaa47c347,
         0xbf597fc7, 0x32663c5b);
    Step(v, words, 28, 0x77d37528, 0xb62ec4bc, 0xcde8037d, 0x1c2c2838, 0xedffbff8, 0xc74c6516, 0x14383d8e, 0x2823ef91,
         0xc6e00bf3, 0x9d209d67);
    Step(v, words, 29, 0x363482c9, 0x77d37528, 0xb62ec4bc, 0xcde8037d, 0x6112a3b7, 0xedffbff8, 0xc74c6516, 0x14383d8e,
         0xd5a79147, 0xec8726cb);
    Step(v, words, 30, 0xa0060b30, 0x363482c9, 0x77d37528, 0xb62ec4bc, 0xade79437, 0x6112a3b7, 0xedffbff8, 0xc74c6516,
         0x06ca6351, 0x702138a4);
    Step(v, words, 31, 0xea992a22, 0xa0060b30, 0x363482c9, 0x77d37528, 0x0109ab3a, 0xade79437, 0x6112a3b7, 0xedffbff8,
         0x14292967, 0xd3b7973b);
  }

  lemma AbcRounds32(v: Working, words: seq<bv32>)
    requires AbcWords32(words)
    requires Rounds(v, words, 32) == Working(0x73b33bf5, 0xea992a22, 0xa0060b30, 0x363482c9, 0xba591112, 0x0109ab3a,
                      0xade79437, 0x6112a3b7)
    ensures |K| == 64 && Rounds(v, words, 40) == Working(0x79ea687a, 0x6dc57a8a, 0x34df1604, 0x41a65cb1, 0x1efbc0a0,
                      0xf0781bc8, 0xa507a53d, 0x0772a26b)
  {
    Constants32();
    hide Round, Rounds, Schedule, K;
    Step(v, words, 32, 0x73b33bf5, 0xea992a22, 0xa0060b30, 0x363482c9, 0xba591112, 0x0109ab3a, 0xade79437, 0x6112a3b7,
         0x27b70a85, 0x93f5997f);
    Step(v, words, 33, 0x98e12507, 0x73b33bf5, 0xea992a22, 0xa0060b30, 0x9cd9f5f6, 0xba591112, 0x0109ab3a, 0xade79437,
         0x2e1b2138, 0x3b68ba73);
    Step(v, words, 34, 0xfe604df5, 0x98e12507, 0x73b33bf5, 0xea992a22, 0x59249dd3, 0x9cd9f5f6, 0xba591112, 0x0109ab3a,
         0x4d2c6dfc, 0xaff4ffc1);
    Step(v, words, 35, 0xa9a7738c, 0xfe604df5, 0x98e12507, 0x73b33bf5, 0x085f3833, 0x59249dd3, 0x9cd9f5f6, 0xba591112,
         0x53380d13, 0xf10a5c62);
    Step(v, words, 36, 0x65a0cfe4, 0xa9a7738c, 0xfe604df5, 0x98e12507, 0xf4b002d6, 0x085f3833, 0x59249dd3, 0x9cd9f5f6,
         0x650a7354, 0x0a8b3996);
    Step(v, words, 37, 0x41a65cb1, 0x65a0cfe4, 0xa9a7738c, 0xfe604df5, 0x0772a26b, 0xf4b002d6, 0x085f3833, 0x59249dd3,
         0x766a0abb, 0x72af830a);
    Step(v, words, 38, 0x34df1604, 0x41a65cb1, 0x65a0cfe4, 0xa9a7738c, 0xa507a53d, 0x0772a26b, 0xf4b002d6, 0x085f3833,
         0x81c2c92e, 0x9409e33e);
    Step(v, words, 39, 0x6dc57a8a, 0x34df1604, 0x41a65cb1, 0x65a0cfe4, 0xf0781bc8, 0xa507a53d, 0x0772a26b, 0xf4b002d6,
         0x92722c85, 0x24641522);
  }

  lemma AbcRounds40(v: Working, words: seq<bv32>)
    requires AbcWords40(words)
    requires Rounds(v, words, 40) == Working(0x79ea687a, 0x6dc57a8a, 0x34df1604, 0x41a65cb1, 0x1efbc0a0, 0xf0781bc8,
                      0xa507a53d, 0x0772a26b)
    ensures |K| == 64 && Rounds(v, words, 48) == Working(0x4172328d, 0xa14c14b0, 0x72ab4b91, 0x26628815, 0xfecf0bc6,
                      0xd57b94a9, 0xb7755da1, 0xa80f11f0)
  {
    Constants40();
    hide Round, Rounds, Schedule, K;
    Step(v, words, 40, 0x79ea687a, 0x6dc57a8a, 0x34df1604, 0x41a65cb1, 0x1efbc0a0, 0xf0781bc8, 0xa507a53d, 0x0772a26b,
         0xa2bfe8a1, 0x9f47bf94);
    Step(v, words, 41, 0xd6670766, 0x79ea687a, 0x6dc57a8a, 0x34df1604, 0x26352d63, 0x1efbc0a0, 0xf0781bc8, 0xa507a53d,
         0xa81a664b, 0xf0a64f5a);
    Step(v, words, 42, 0xdf46652f, 0xd6670766, 0x79ea687a, 0x6dc57a8a, 0x838b2711, 0x26352d63, 0x1efbc0a0, 0xf0781bc8,
         0xc24b8b70, 0x3e246a79);
    Step(v, words, 43, 0x17aa0dfe, 0xdf46652f, 0xd6670766, 0x79ea687a, 0xdecd4715, 0x838b2711, 0x26352d63, 0x1efbc0a0,
         0xc76c51a3, 0x27333ba3);
    Step(v, words, 44, 0x9d4baf93, 0x17aa0dfe, 0xdf46652f, 0xd6670766, 0xfda24c2e, 0xdecd4715, 0x838b2711, 0x26352d63,
         0xd192e819, 0x0c4763f2);
    Step(v, words, 45, 0x26628815, 0x9d4baf93, 0x17aa0dfe, 0xdf46652f, 0xa80f11f0, 0xfda24c2e, 0xdecd4715, 0x838b2711,
         0xd6990624, 0x840abf27);
    Step(v, words, 46, 0x72ab4b91, 0x26628815, 0x9d4baf93, 0x17aa0dfe, 0xb7755da1, 0xa80f11f0, 0xfda24c2e, 0xdecd4715,
         0xf40e3585, 0x7a290d5d);
    Step(v, words, 47, 0xa14c14b0, 0x72ab4b91, 0x26628815, 0x9d4baf93, 0xd57b94a9, 0xb7755da1, 0xa80f11f0, 0xfda24c2e,
         0x106aa070, 0x065c43da);
  }

  lemma AbcRounds48(v: Working, words: seq<bv32>)
    requires AbcWords48(words)
    requires Rounds(v, words, 48) == Working(0x4172328d, 0xa14c14b0, 0x72ab4b91, 0x26628815, 0xfecf0bc6, 0xd57b94a9,
                      0xb7755da1, 0xa80f11f0)
    ensures |K| == 64 && Rounds(v, words, 56) == Working(0x38cc9913, 0x3ec45cdb, 0xf5702fdb, 0x101fd28f, 0x54cb266b,
                      0xe50e1b4f, 0x9f4787c3, 0x529e7d00)
  {
    Constants48();
    hide Round, Rounds, Schedule, K;
    Step(v, words, 48, 0x4172328d, 0xa14c14b0, 0x72ab4b91, 0x26628815, 0xfecf0bc6, 0xd57b94a9, 0xb7755da1, 0xa80f11f0,
         0x19a4c116, 0xfb3e89cb);
    Step(v, words, 49, 0x05757ceb, 0x4172328d, 0xa14c14b0, 0x72ab4b91, 0xbd714038, 0xfecf0bc6, 0xd57b94a9, 0xb7755da1,
         0x1e376c08, 0xcc7617db);
    Step(v, words, 50, 0xf11bfaa8, 0x05757ceb, 0x4172328d, 0xa14c14b0, 0x6e5c390c, 0xbd714038, 0xfecf0bc6, 0xd57b94a9,
         0x2748774c, 0xb9e66c34);
    Step(v, words, 51, 0x7a0508a1, 0xf11bfaa8, 0x05757ceb, 0x4172328d, 0x52f1ccf7, 0x6e5c390c, 0xbd714038, 0xfecf0bc6,
         0x34b0bcb5, 0xa9993667);
    Step(v, words, 52, 0x886e7a22, 0x7a0508a1, 0xf11bfaa8, 0x05757ceb, 0x49231c1e, 0x52f1ccf7, 0x6e5c390c, 0xbd714038,
         0x391c0cb3, 0x84badedd);
    Step(v, words, 53, 0x101fd28f, 0x886e7a22, 0x7a0508a1, 0xf11bfaa8, 0x529e7d00, 0x49231c1e, 0x52f1ccf7, 0x6e5c390c,
         0x4ed8aa4a, 0xc21462bc);
    Step(v, words, 54, 0xf5702fdb, 0x101fd28f, 0x886e7a22, 0x7a0508a1, 0x9f4787c3, 0x529e7d00, 0x49231c1e, 0x52f1ccf7,
         0x5b9cca4f, 0x1487472c);
    Step(v, words, 55, 0x3ec45cdb, 0xf5702fdb, 0x101fd28f, 0x886e7a22, 0xe50e1b4f, 0x9f4787c3, 0x529e7d00, 0x49231c1e,
         0x682e6ff3, 0xb20f7a99);
  }

  lemma AbcRounds56(v: Working, words: seq<bv32>)
    requires AbcWords56(words)
    requires Rounds(v, words, 56) == Working(0x38cc9913, 0x3ec45cdb, 0xf5702fdb, 0x101fd28f, 0x54cb266b, 0xe50e1b4f,
                      0x9f4787c3, 0x529e7d00)
    ensures |K| == 64 && Rounds(v, words, 64) == Working(0x506e3058, 0xd39a2165, 0x04d24d6c, 0xb85e2ce9, 0x5ef50f24,
                      0xfb121210, 0x948d25b6, 0x961f4894)
  {
    Constants56();
    hide Round, Rounds, Schedule, K;
    Step(v, words, 56, 0x38cc9913, 0x3ec45cdb, 0xf5702fdb, 0x101fd28f, 0x54cb266b, 0xe50e1b4f, 0x9f4787c3, 0x529e7d00,
         0x748f82ee, 0xef57b9cd);
    Step(v, words, 57, 0xfcd1887b, 0x38cc9913, 0x3ec45cdb, 0xf5702fdb, 0x9b5e906c, 0x54cb266b, 0xe50e1b4f, 0x9f4787c3,
         0x78a5636f, 0xebe6b238);
    Step(v, words, 58, 0xc062d46f, 0xfcd1887b, 0x38cc9913, 0x3ec45cdb, 0x7e44008e, 0x9b5e906c, 0x54cb266b, 0xe50e1b4f,
         0x84c87814, 0x9fe3095e);
    Step(v, words, 59, 0xffb70472, 0xc062d46f, 0xfcd1887b, 0x38cc9913, 0x6d83bfc6, 0x7e44008e, 0x9b5e906c, 0x54cb266b,
         0x8cc70208, 0x78bc8d4b);
    Step(v, words, 60, 0xb6ae8fff, 0xffb70472, 0xc062d46f, 0xfcd1887b, 0xb21bad3d, 0x6d83bfc6, 0x7e44008e, 0x9b5e906c,
         0x90befffa, 0xa43fcf15);
    Step(v, words, 61, 0xb85e2ce9, 0xb6ae8fff, 0xffb70472, 0xc062d46f, 0x961f4894, 0xb21bad3d, 0x6d83bfc6, 0x7e44008e,
         0xa4506ceb, 0x668b2ff8);
    Step(v, words, 62, 0x04d24d6c, 0xb85e2ce9, 0xb6ae8fff, 0xffb70472, 0x948d25b6, 0x961f4894, 0xb21bad3d, 0x6d83bfc6,
         0xbef9a3f7, 0xeeaba2cc);
    Step(v, words, 63, 0xd39a2165, 0x04d24d6c, 0xb85e2ce9, 0xb6ae8fff, 0xfb121210, 0x948d25b6, 0x961f4894, 0xb21bad3d,
         0xc67178f2, 0x12b1edeb);
  }

  lemma AbcAllRounds(v: Working, words: seq<bv32>)
    requires AbcWords0(words) && AbcWords8(words)
    requires v == Working(0x6a09e667, 0xbb67ae85, 0x3c6ef372, 0xa54ff53a, 0x510e527f, 0x9b05688c, 0x1f83d9ab,
                      0x5be0cd19)
    ensures |K| == 64 && Rounds(v, words, 64) == Working(0x506e3058, 0xd39a2165, 0x04d24d6c, 0xb85e2ce9, 0x5ef50f24,
                      0xfb121210, 0x948d25b6, 0x961f4894)
  {
    assert Rounds(v, words, 0) == v;
    hide Rounds;
    hide AbcWords0, AbcWords8, AbcWords16, AbcWords24, AbcWords32, AbcWords40, AbcWords48, AbcWords56;
    AbcSchedule16(words);
    AbcSchedule24(words);
    AbcSchedule32(words);
    AbcSchedule40(words);
    AbcSchedule48(words);
    AbcSchedule56(words);
    AbcRounds0(v, words);
    AbcRounds8(v, words);
    AbcRounds16(v, words);
    AbcRounds24(v, words);
    AbcRounds32(v, words);
    AbcRounds40(v, words);
    AbcRounds48(v, words);
    AbcRounds56(v, words);
  }

  lemma AbcCompress(block: seq<bv8>)
    requires |block| == 64 && AbcWords0(BlockWords(block)) && AbcWords8(BlockWords(block))
    ensures Compress(INITIAL, block) == [0xba7816bf, 0x8f01cfea, 0x414140de, 0x5dae2223, 0xb00361a3, 0x96177a9c,
          0xb410ff61, 0xf20015ad]
  {
    assert WorkingOf(INITIAL) == Working(0x6a09e667, 0xbb67ae85, 0x3c6ef372, 0xa54ff53a, 0x510e527f, 0x9b05688c,
           0x1f83d9ab, 0x5be0cd19);
    AbcAllRounds(WorkingOf(INITIAL), BlockWords(block));
    hide Rounds, BlockWords, AbcWords0, AbcWords8;
    CompressIs(INITIAL, block, Rounds(WorkingOf(INITIAL), BlockWords(block), 64),
               [0xba7816bf, 0x8f01cfea, 0x414140de, 0x5dae2223, 0xb00361a3, 0x96177a9c, 0xb410ff61, 0xf20015ad]);
  }

  lemma AbcHash()
    ensures HashBlocks(Padded(ABC)) == [0xba7816bf, 0x8f01cfea, 0x414140de, 0x5dae2223, 0xb00361a3, 0x96177a9c,
          0xb410ff61, 0xf20015ad]
  {
    hide Compress, HashBlocks, Padded, BlockWords, AbcWords0, AbcWords8, ABC, INITIAL;
    AbcPadded();
    AbcBlock(AbcBytes());
    AbcCompress(AbcBytes());
    HashOne(AbcBytes());
  }

  /** The digest of "abc". */
  lemma AbcDigest()
    ensures Digest(ABC) ==
            [0xba, 0x78, 0x16, 0xbf, 0x8f, 0x01, 0xcf, 0xea] +
            [0x41, 0x41, 0x40, 0xde, 0x5d, 0xae, 0x22, 0x23] +
            [0xb0, 0x03, 0x61, 0xa3, 0x96, 0x17, 0x7a, 0x9c] +
            [0xb4, 0x10, 0xff, 0x61, 0xf2, 0x00, 0x15, 0xad]
  {
    hide HashBlocks, Padded, DigestBytes;
    AbcHash();
    TwoWords(0xba7816bf, 0x8f01cfea, 0xba, 0x78, 0x16, 0xbf, 0x8f, 0x01, 0xcf, 0xea);
    TwoWords(0x414140de, 0x5dae2223, 0x41, 0x41, 0x40, 0xde, 0x5d, 0xae, 0x22, 0x23);
    TwoWords(0xb00361a3, 0x96177a9c, 0xb0, 0x03, 0x61, 0xa3, 0x96, 0x17, 0x7a, 0x9c);
    TwoWords(0xb410ff61, 0xf20015ad, 0xb4, 0x10, 0xff, 0x61, 0xf2, 0x00, 0x15, 0xad);
    var h0: seq<bv32> := [0xba7816bf, 0x8f01cfea];
    var h1: seq<bv32> := [0x414140de, 0x5dae2223];
    var h2: seq<bv32> := [0xb00361a3, 0x96177a9c];
    var h3: seq<bv32> := [0xb410ff61, 0xf20015ad];
    DigestConcat(h0, h1);
    DigestConcat(h0 + h1, h2);
    DigestConcat(h0 + h1 + h2, h3);
    assert HashBlocks(Padded(ABC)) == h0 + h1 + h2 + h3;
  }
}

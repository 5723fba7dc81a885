/** The known answer of FIPS 180-4 for a message of 56 bytes, which takes two blocks. */
module Sha256TwoBlocks {
  import opened Sha256
  import opened Sha256Computing

  /** abcdbcdecdefdefgefghfghighijhijkijkljklmklmnlmnomnopnopq */
  const LONG: seq<bv8> :=
    [0x61, 0x62, 0x63, 0x64, 0x62, 0x63, 0x64, 0x65] +
    [0x63, 0x64, 0x65, 0x66, 0x64, 0x65, 0x66, 0x67] +
    [0x65, 0x66, 0x67, 0x68, 0x66, 0x67, 0x68, 0x69] +
    [0x67, 0x68, 0x69, 0x6a, 0x68, 0x69, 0x6a, 0x6b] +
    [0x69, 0x6a, 0x6b, 0x6c, 0x6a, 0x6b, 0x6c, 0x6d] +
    [0x6b, 0x6c, 0x6d, 0x6e, 0x6c, 0x6d, 0x6e, 0x6f] +
    [0x6d, 0x6e, 0x6f, 0x70, 0x6e, 0x6f, 0x70, 0x71]

  /** The hash value between the blocks. */
  const BETWEEN: seq<bv32> := [0x85e655d6, 0x417a1795, 0x3363376a, 0x624cde5c,
                               0x76e09589, 0xcac5f811, 0xcc4b32c1, 0xf20e533a]

  function FirstBytes(): (r: seq<bv8>)
    ensures |r| == 64
  {
    LONG + [0x80] + Zeros(7)
  }

  function LastBytes(): (r: seq<bv8>)
    ensures |r| == 64
  {
    Zeros(56) + [0, 0, 0, 0, 0, 0, 1, 0xc0]
  }

  lemma PaddedLong(m: seq<bv8>)
    requires |m| == 56
    ensures Padded(m) == (m + [0x80] + Zeros(7)) + (Zeros(56) + [0, 0, 0, 0, 0, 0, 1, 0xc0])
  {
    hide LengthBytes;
    ShortLength(448, 1, 0xc0);
    assert Zeros(PaddingLength(56)) == Zeros(7) + Zeros(56);
  }

  lemma LongPadded()
    ensures Padded(LONG) == FirstBytes() + LastBytes()
  {
    assert |LONG| == 56;
    PaddedLong(LONG);
    hide *;
  }

  lemma FirstBlock0(block: seq<bv8>)
    requires block == FirstBytes()
    ensures Schedule(BlockWords(block), 0) == 0x61626364 && Schedule(BlockWords(block), 1) == 0x62636465
    ensures Schedule(BlockWords(block), 2) == 0x63646566 && Schedule(BlockWords(block), 3) == 0x64656667
  {
    hide Schedule, BlockWords;
    WordAt(block, 0, 0x61, 0x62, 0x63, 0x64, 0x61626364);
    WordAt(block, 1, 0x62, 0x63, 0x64, 0x65, 0x62636465);
    WordAt(block, 2, 0x63, 0x64, 0x65, 0x66, 0x63646566);
    WordAt(block, 3, 0x64, 0x65, 0x66, 0x67, 0x64656667);
  }

  lemma FirstBlock4(block: seq<bv8>)
    requires block == FirstBytes()
    ensures Schedule(BlockWords(block), 4) == 0x65666768 && Schedule(BlockWords(block), 5) == 0x66676869
    ensures Schedule(BlockWords(block), 6) == 0x6768696a && Schedule(BlockWords(block), 7) == 0x68696a6b
  {
    hide Schedule, BlockWords;
    WordAt(block, 4, 0x65, 0x66, 0x67, 0x68, 0x65666768);
    WordAt(block, 5, 0x66, 0x67, 0x68, 0x69, 0x66676869);
    WordAt(block, 6, 0x67, 0x68, 0x69, 0x6a, 0x6768696a);
    WordAt(block, 7, 0x68, 0x69, 0x6a, 0x6b, 0x68696a6b);
  }

  lemma FirstBlock8(block: seq<bv8>)
    requires block == FirstBytes()
    ensures Schedule(BlockWords(block), 8) == 0x696a6b6c && Schedule(BlockWords(block), 9) == 0x6a6b6c6d
    ensures Schedule(BlockWords(block), 10) == 0x6b6c6d6e && Schedule(BlockWords(block), 11) == 0x6c6d6e6f
  {
    hide Schedule, BlockWords;
    WordAt(block, 8, 0x69, 0x6a, 0x6b, 0x6c, 0x696a6b6c);
    WordAt(block, 9, 0x6a, 0x6b, 0x6c, 0x6d, 0x6a6b6c6d);
    WordAt(block, 10, 0x6b, 0x6c, 0x6d, 0x6e, 0x6b6c6d6e);
    WordAt(block, 11, 0x6c, 0x6d, 0x6e, 0x6f, 0x6c6d6e6f);
  }

  lemma FirstBlock12(block: seq<bv8>)
    requires block == FirstBytes()
    ensures Schedule(BlockWords(block), 12) == 0x6d6e6f70 && Schedule(BlockWords(block), 13) == 0x6e6f7071
    ensures Schedule(BlockWords(block), 14) == 0x80000000 && Schedule(BlockWords(block), 15) == 0x00000000
  {
    hide Schedule, BlockWords;
    WordAt(block, 12, 0x6d, 0x6e, 0x6f, 0x70, 0x6d6e6f70);
    WordAt(block, 13, 0x6e, 0x6f, 0x70, 0x71, 0x6e6f7071);
    WordAt(block, 14, 0x80, 0x00, 0x00, 0x00, 0x80000000);
    WordAt(block, 15, 0x00, 0x00, 0x00, 0x00, 0x00000000);
  }

  lemma FirstBlock(block: seq<bv8>)
    requires block == FirstBytes()
    ensures FirstWords0(BlockWords(block)) && FirstWords8(BlockWords(block))
  {
    hide Schedule, BlockWords;
    FirstBlock0(block);
    FirstBlock4(block);
    FirstBlock8(block);
    FirstBlock12(block);
  }

  predicate FirstWords0(words: seq<bv32>) {
    && |words| == 16
    && Schedule(words, 0) == 0x61626364 && Schedule(words, 1) == 0x62636465
    && Schedule(words, 2) == 0x63646566 && Schedule(words, 3) == 0x64656667
    && Schedule(words, 4) == 0x65666768 && Schedule(words, 5) == 0x66676869
    && Schedule(words, 6) == 0x6768696a && Schedule(words, 7) == 0x68696a6b
  }

  predicate FirstWords8(words: seq<bv32>) {
    && |words| == 16
    && Schedule(words, 8) == 0x696a6b6c && Schedule(words, 9) == 0x6a6b6c6d
    && Schedule(words, 10) == 0x6b6c6d6e && Schedule(words, 11) == 0x6c6d6e6f
    && Schedule(words, 12) == 0x6d6e6f70 && Schedule(words, 13) == 0x6e6f7071
    && Schedule(words, 14) == 0x80000000 && Schedule(words, 15) == 0x00000000
  }

  predicate FirstWords16(words: seq<bv32>) {
    && |words| == 16
    && Schedule(words, 16) == 0xeb8012ad && Schedule(words, 17) == 0xa7c3ae92
    && Schedule(words, 18) == 0x76e93ba2 && Schedule(words, 19) == 0xba42e743
    && Schedule(words, 20) == 0x92a92204 && Schedule(words, 21) == 0xd847e75e
    && Schedule(words, 22) == 0x9e160036 && Schedule(words, 23) == 0xb280a7cb
  }

  predicate FirstWords24(words: seq<bv32>) {
    && |words| == 16
    && Schedule(words, 24) == 0xddeb1516 && Schedule(words, 25) == 0xf36586f4
    && Schedule(words, 26) == 0x969cd048 && Schedule(words, 27) == 0xe959d99d
    && Schedule(words, 28) == 0x6accc0ec && Schedule(words, 29) == 0xf54cb098
    && Schedule(words, 30) == 0x2af1b2da && Schedule(words, 31) == 0xee59c4c9
  }

  predicate FirstWords32(words: seq<bv32>) {
    && |words| == 16
    && Schedule(words, 32) == 0xa835e16a && Schedule(words, 33) == 0x1dff4429
    && Schedule(words, 34) == 0xd6e15959 && Schedule(words, 35) == 0xc397cd6e
    && Schedule(words, 36) == 0x6f1801ca && Schedule(words, 37) == 0x21574205
    && Schedule(words, 38) == 0x35ff7a84 && Schedule(words, 39) == 0x9743ee78
  }

  predicate FirstWords40(words: seq<bv32>) {
    && |words| == 16
    && Schedule(words, 40) == 0xe44183e7 && Schedule(words, 41) == 0x0d09f00d
    && Schedule(words, 42) == 0x9c89af54 && Schedule(words, 43) == 0x042d5bef
    && Schedule(words, 44) == 0x71f134d0 && Schedule(words, 45) == 0x0f94f463
    && Schedule(words, 46) == 0x7e49dc63 && Schedule(words, 47) == 0x6f65c997
  }

  predicate FirstWords48(words: seq<bv32>) {
    && |words| == 16
    && Schedule(words, 48) == 0x0b706583 && Schedule(words, 49) == 0x179312ca
    && Schedule(words, 50) == 0x503054e9 && Schedule(words, 51) == 0xba125c39
    && Schedule(words, 52) == 0x7e9392c9 && Schedule(words, 53) == 0xd5cbaa1e
    && Schedule(words, 54) == 0x78e0585d && Schedule(words, 55) == 0xf6e7611c
  }

  predicate FirstWords56(words: seq<bv32>) {
    && |words| == 16
    && Schedule(words, 56) == 0x8ac830ce && Schedule(words, 57) == 0x8b47a303
    && Schedule(words, 58) == 0xfd6e627f && Schedule(words, 59) == 0x8c6e2c6a
    && Schedule(words, 60) == 0x4001adf1 && Schedule(words, 61) == 0x1a3dd097
    && Schedule(words, 62) == 0xa9df6f62 && Schedule(words, 63) == 0x6aa60a39
  }

  lemma FirstSchedule16(words: seq<bv32>)
    requires FirstWords0(words) && FirstWords8(words)
    ensures FirstWords16(words)
  {
    hide Schedule;
    NextSchedule(words, 16, 0x61626364, 0x62636465, 0x6a6b6c6d, 0x80000000);
    NextSchedule(words, 17, 0x62636465, 0x63646566, 0x6b6c6d6e, 0x00000000);
    NextSchedule(words, 18, 0x63646566, 0x64656667, 0x6c6d6e6f, 0xeb8012ad);
    NextSchedule(words, 19, 0x64656667, 0x65666768, 0x6d6e6f70, 0xa7c3ae92);
    NextSchedule(words, 20, 0x65666768, 0x66676869, 0x6e6f7071, 0x76e93ba2);
    NextSchedule(words, 21, 0x66676869, 0x6768696a, 0x80000000, 0xba42e743);
    NextSchedule(words, 22, 0x6768696a, 0x68696a6b, 0x00000000, 0x92a92204);
    NextSchedule(words, 23, 0x68696a6b, 0x696a6b6c, 0xeb8012ad, 0xd847e75e);
  }

  lemma FirstSchedule24(words: seq<bv32>)
    requires FirstWords8(words) && FirstWords16(words)
    ensures FirstWords24(words)
  {
    hide Schedule;
    NextSchedule(words, 24, 0x696a6b6c, 0x6a6b6c6d, 0xa7c3ae92, 0x9e160036);
    NextSchedule(words, 25, 0x6a6b6c6d, 0x6b6c6d6e, 0x76e93ba2, 0xb280a7cb);
    NextSchedule(words, 26, 0x6b6c6d6e, 0x6c6d6e6f, 0xba42e743, 0xddeb1516);
    NextSchedule(words, 27, 0x6c6d6e6f, 0x6d6e6f70, 0x92a92204, 0xf36586f4);
    NextSchedule(words, 28, 0x6d6e6f70, 0x6e6f7071, 0xd847e75e, 0x969cd048);
    NextSchedule(words, 29, 0x6e6f7071, 0x80000000, 0x9e160036, 0xe959d99d);
    NextSchedule(words, 30, 0x80000000, 0x00000000, 0xb280a7cb, 0x6accc0ec);
    NextSchedule(words, 31, 0x00000000, 0xeb8012ad, 0xddeb1516, 0xf54cb098);
  }

  lemma FirstSchedule32(words: seq<bv32>)
    requires FirstWords16(words) && FirstWords24(words)
    ensures FirstWords32(words)
  {
    hide Schedule;
    NextSchedule(words, 32, 0xeb8012ad, 0xa7c3ae92, 0xf36586f4, 0x2af1b2da);
    NextSchedule(words, 33, 0xa7c3ae92, 0x76e93ba2, 0x969cd048, 0xee59c4c9);
    NextSchedule(words, 34, 0x76e93ba2, 0xba42e743, 0xe959d99d, 0xa835e16a);
    NextSchedule(words, 35, 0xba42e743, 0x92a92204, 0x6accc0ec, 0x1dff4429);
    NextSchedule(words, 36, 0x92a92204, 0xd847e75e, 0xf54cb098, 0xd6e15959);
    NextSchedule(words, 37, 0xd847e75e, 0x9e160036, 0x2af1b2da, 0xc397cd6e);
    NextSchedule(words, 38, 0x9e160036, 0xb280a7cb, 0xee59c4c9, 0x6f1801ca);
    NextSchedule(words, 39, 0xb280a7cb, 0xddeb1516, 0xa835e16a, 0x21574205);
  }

  lemma FirstSchedule40(words: seq<bv32>)
    requires FirstWords24(words) && FirstWords32(words)
    ensures FirstWords40(words)
  {
    hide Schedule;
    NextSchedule(words, 40, 0xddeb1516, 0xf36586f4, 0x1dff4429, 0x35ff7a84);
    NextSchedule(words, 41, 0xf36586f4, 0x969cd048, 0xd6e15959, 0x9743ee78);
    NextSchedule(words, 42, 0x969cd048, 0xe959d99d, 0xc397cd6e, 0xe44183e7);
    NextSchedule(words, 43, 0xe959d99d, 0x6accc0ec, 0x6f1801ca, 0x0d09f00d);
    NextSchedule(words, 44, 0x6accc0ec, 0xf54cb098, 0x21574205, 0x9c89af54);
    NextSchedule(words, 45, 0xf54cb098, 0x2af1b2da, 0x35ff7a84, 0x042d5bef);
    NextSchedule(words, 46, 0x2af1b2da, 0xee59c4c9, 0x9743ee78, 0x71f134d0);
    NextSchedule(words, 47, 0xee59c4c9, 0xa835e16a, 0xe44183e7, 0x0f94f463);
  }

  lemma FirstSchedule48(words: seq<bv32>)
    requires FirstWords32(words) && FirstWords40(words)
    ensures FirstWords48(words)
  {
    hide Schedule;
    NextSchedule(words, 48, 0xa835e16a, 0x1dff4429, 0x0d09f00d, 0x7e49dc63);
    NextSchedule(words, 49, 0x1dff4429, 0xd6e15959, 0x9c89af54, 0x6f65c997);
    NextSchedule(words, 50, 0xd6e15959, 0xc397cd6e, 0x042d5bef, 0x0b706583);
    NextSchedule(words, 51, 0xc397cd6e, 0x6f1801ca, 0x71f134d0, 0x179312ca);
    NextSchedule(words, 52, 0x6f1801ca, 0x21574205, 0x0f94f463, 0x503054e9);
    NextSchedule(words, 53, 0x21574205, 0x35ff7a84, 0x7e49dc63, 0xba125c39);
    NextSchedule(words, 54, 0x35ff7a84, 0x9743ee78, 0x6f65c997, 0x7e9392c9);
    NextSchedule(words, 55, 0x9743ee78, 0xe44183e7, 0x0b706583, 0xd5cbaa1e);
  }

  lemma FirstSchedule56(words: seq<bv32>)
    requires FirstWords40(words) && FirstWords48(words)
    ensures FirstWords56(words)
  {
    hide Schedule;
    NextSchedule(words, 56, 0xe44183e7, 0x0d09f00d, 0x179312ca, 0x78e0585d);
    NextSchedule(words, 57, 0x0d09f00d, 0x9c89af54, 0x503054e9, 0xf6e7611c);
    NextSchedule(words, 58, 0x9c89af54, 0x042d5bef, 0xba125c39, 0x8ac830ce);
    NextSchedule(words, 59, 0x042d5bef, 0x71f134d0, 0x7e9392c9, 0x8b47a303);
    NextSchedule(words, 60, 0x71f134d0, 0x0f94f463, 0xd5cbaa1e, 0xfd6e627f);
    NextSchedule(words, 61, 0x0f94f463, 0x7e49dc63, 0x78e0585d, 0x8c6e2c6a);
    NextSchedule(words, 62, 0x7e49dc63, 0x6f65c997, 0xf6e7611c, 0x4001adf1);
    NextSchedule(words, 63, 0x6f65c997, 0x0b706583, 0x8ac830ce, 0x1a3dd097);
  }

  lemma FirstRounds0(v: Working, words: seq<bv32>)
    requires FirstWords0(words)
    requires Rounds(v, words, 0) == Working(0x6a09e667, 0xbb67ae85, 0x3c6ef372, 0xa54ff53a, 0x510e527f, 0x9b05688c,
                      0x1f83d9ab, 0x5be0cd19)
    ensures |K| == 64 && Rounds(v, words, 8) == Working(0xd237e6db, 0x485835b7, 0x55c8ef48, 0xf921c212, 0xa401d211,
                      0x39a5b2ca, 0x7ff91c94, 0x05c4f88a)
  {
    Constants0();
    hide Round, Rounds, Schedule, K;
    Step(v, words, 0, 0x6a09e667, 0xbb67ae85, 0x3c6ef372, 0xa54ff53a, 0x510e527f, 0x9b05688c, 0x1f83d9ab, 0x5be0cd19,
         0x428a2f98, 0x61626364);
    Step(v, words, 1, 0x5d6aebb1, 0x6a09e667, 0xbb67ae85, 0x3c6ef372, 0xfa2a4606, 0x510e527f, 0x9b05688c, 0x1f83d9ab,
         0x71374491, 0x62636465);
    Step(v, words, 2, 0x2f2d5fcf, 0x5d6aebb1, 0x6a09e667, 0xbb67ae85, 0x4eb1cfce, 0xfa2a4606, 0x510e527f, 0x9b05688c,
         0xb5c0fbcf, 0x63646566);
    Step(v, words, 3, 0x97651825, 0x2f2d5fcf, 0x5d6aebb1, 0x6a09e667, 0x62d5c49e, 0x4eb1cfce, 0xfa2a4606, 0x510e527f,
         0xe9b5dba5, 0x64656667);
    Step(v, words, 4, 0x4a8d64d5, 0x97651825, 0x2f2d5fcf, 0x5d6aebb1, 0x6494841b, 0x62d5c49e, 0x4eb1cfce, 0xfa2a4606,
         0x3956c25b, 0x65666768);
    Step(v, words, 5, 0xf921c212, 0x4a8d64d5, 0x97651825, 0x2f2d5fcf, 0x05c4f88a, 0x6494841b, 0x62d5c49e, 0x4eb1cfce,
         0x59f111f1, 0x66676869);
    Step(v, words, 6, 0x55c8ef48, 0xf921c212, 0x4a8d64d5, 0x97651825, 0x7ff91c94, 0x05c4f88a, 0x6494841b, 0x62d5c49e,
         0x923f82a4, 0x6768696a);
    Step(v, words, 7, 0x485835b7, 0x55c8ef48, 0xf921c212, 0x4a8d64d5, 0x39a5b2ca, 0x7ff91c94, 0x05c4f88a, 0x6494841b,
         0xab1c5ed5, 0x68696a6b);
  }

  lemma FirstRounds8(v: Working, words: seq<bv32>)
    requires FirstWords8(words)
    requires Rounds(v, words, 8) == Working(0xd237e6db, 0x485835b7, 0x55c8ef48, 0xf921c212, 0xa401d211, 0x39a5b2ca,
                      0x7ff91c94, 0x05c4f88a)
    ensures |K| == 64 && Rounds(v, words, 16) == Working(0xc3486194, 0xdd16cbb3, 0xd68e6457, 0x101a4861, 0x1496a54f,
                      0x9162aded, 0x9243f8af, 0x839a0fc9)
  {
    Constants8();
    hide Round, Rounds, Schedule, K;
    Step(v, words, 8, 0xd237e6db, 0x485835b7, 0x55c8ef48, 0xf921c212, 0xa401d211, 0x39a5b2ca, 0x7ff91c94, 0x05c4f88a,
         0xd807aa98, 0x696a6b6c);
    Step(v, words, 9, 0x359f2bce, 0xd237e6db, 0x485835b7, 0x55c8ef48, 0xc09ffec4, 0xa401d211, 0x39a5b2ca, 0x7ff91c94,
         0x12835b01, 0x6a6b6c6d);
    Step(v, words, 10, 0x3a474b2b, 0x359f2bce, 0xd237e6db, 0x485835b7, 0x9037b3b8, 0xc09ffec4, 0xa401d211, 0x39a5b2ca,
         0x243185be, 0x6b6c6d6e);
    Step(v, words, 11, 0xb8e2b4cb, 0x3a474b2b, 0x359f2bce, 0xd237e6db, 0x443ed29e, 0x9037b3b8, 0xc09ffec4, 0xa401d211,
         0x550c7dc3, 0x6c6d6e6f);
    Step(v, words, 12, 0x1762215c, 0xb8e2b4cb, 0x3a474b2b, 0x359f2bce, 0xee1c97a8, 0x443ed29e, 0x9037b3b8, 0xc09ffec4,
         0x72be5d74, 0x6d6e6f70);
    Step(v, words, 13, 0x101a4861, 0x1762215c, 0xb8e2b4cb, 0x3a474b2b, 0x839a0fc9, 0xee1c97a8, 0x443ed29e, 0x9037b3b8,
         0x80deb1fe, 0x6e6f7071);
    Step(v, words, 14, 0xd68e6457, 0x101a4861, 0x1762215c, 0xb8e2b4cb, 0x9243f8af, 0x839a0fc9, 0xee1c97a8, 0x443ed29e,
         0x9bdc06a7, 0x80000000);
    Step(v, words, 15, 0xdd16cbb3, 0xd68e6457, 0x101a4861, 0x1762215c, 0x9162aded, 0x9243f8af, 0x839a0fc9, 0xee1c97a8,
         0xc19bf174, 0x00000000);
  }

  lemma FirstRounds16(v: Working, words: seq<bv32>)
    requires FirstWords16(words)
    requires Rounds(v, words, 16) == Working(0xc3486194, 0xdd16cbb3, 0xd68e6457, 0x101a4861, 0x1496a54f, 0x9162aded,
                      0x9243f8af, 0x839a0fc9)
    ensures |K| == 64 && Rounds(v, words, 24) == Working(0x59fce6b9, 0xae2e2d4f, 0x1b2b66b8, 0xd70ac17d, 0xa2c7d51d,
                      0xf074fc95, 0xd560b028, 0x7cc6b262)
  {
    Constants16();
    hide Round, Rounds, Schedule, K;
    Step(v, words, 16, 0xc3486194, 0xdd16cbb3, 0xd68e6457, 0x101a4861, 0x1496a54f, 0x9162aded, 0x9243f8af, 0x839a0fc9,
         0xe49b69c1, 0xeb8012ad);
    Step(v, words, 17, 0xb9dcacb1, 0xc3486194, 0xdd16cbb3, 0xd68e6457, 0xd4f64250, 0x1496a54f, 0x9162aded, 0x9243f8af,
         0xefbe4786, 0xa7c3ae92);
    Step(v, words, 18, 0x046a193e, 0xb9dcacb1, 0xc3486194, 0xdd16cbb3, 0x885370b6, 0xd4f64250, 0x1496a54f, 0x9162aded,
         0x0fc19dc6, 0x76e93ba2);
    Step(v, words, 19, 0xf402f058, 0x046a193e, 0xb9dcacb1, 0xc3486194, 0x6f433549, 0x885370b6, 0xd4f64250, 0x1496a54f,
         0x240ca1cc, 0xba42e743);
    Step(v, words, 20, 0x2139187b, 0xf402f058, 0x046a193e, 0xb9dcacb1, 0x7c304206, 0x6f433549, 0x885370b6, 0xd4f64250,
         0x2de92c6f, 0x92a92204);
    Step(v, words, 21, 0xd70ac17d, 0x2139187b, 0xf402f058, 0x046a193e, 0x7cc6b262, 0x7c304206, 0x6f433549, 0x885370b6,
         0x4a7484aa, 0xd847e75e);
    Step(v, words, 22, 0x1b2b66b8, 0xd70ac17d, 0x2139187b, 0xf402f058, 0xd560b028, 0x7cc6b262, 0x7c304206, 0x6f433549,
         0x5cb0a9dc, 0x9e160036);
    Step(v, words, 23, 0xae2e2d4f, 0x1b2b66b8, 0xd70ac17d, 0x2139187b, 0xf074fc95, 0xd560b028, 0x7cc6b262, 0x7c304206,
         0x76f988da, 0xb280a7cb);
  }

  lemma FirstRounds24(v: Working, words: seq<bv32>)
    requires FirstWords24(words)
    requires Rounds(v, words, 24) == Working(0x59fce6b9, 0xae2e2d4f, 0x1b2b66b8, 0xd70ac17d, 0xa2c7d51d, 0xf074fc95,
                      0xd560b028, 0x7cc6b262)
    ensures |K| == 64 && Rounds(v, words, 32) == Working(0x5581ab07, 0xeb43f3ed, 0xdf7151a0, 0x74bcf468, 0xdf980085,
                      0x0635d880, 0x7629c961, 0x72abaecd)
  {
    Constants24();
    hide Round, Rounds, Schedule, K;
    Step(v, words, 24, 0x59fce6b9, 0xae2e2d4f, 0x1b2b66b8, 0xd70ac17d, 0xa2c7d51d, 0xf074fc95, 0xd560b028, 0x7cc6b262,
         0x983e5152, 0xddeb1516);
    Step(v, words, 25, 0x4a885065, 0x59fce6b9, 0xae2e2d4f, 0x1b2b66b8, 0x763597fb, 0xa2c7d51d, 0xf074fc95, 0xd560b028,
         0xa831c66d, 0xf36586f4);
    Step(v, words, 26, 0x573221da, 0x4a885065, 0x59fce6b9, 0xae2e2d4f, 0x36e74eb4, 0x763597fb, 0xa2c7d51d, 0xf074fc95,
         0xb00327c8, 0x969cd048);
    Step(v, words, 27, 0x128661da, 0x573221da, 0x4a885065, 0x59fce6b9, 0x1162d575, 0x36e74eb4, 0x763597fb, 0xa2c7d51d,
         0xbf597fc7, 0xe959d99d);
    Step(v, words, 28, 0x73f858af, 0x128661da, 0x573221da, 0x4a885065, 0xe77c797f, 0x1162d575, 0x36e74eb4, 0x763597fb,
         0xc6e00bf3, 0x6accc0ec);
    Step(v, words, 29, 0x74bcf468, 0x73f858af, 0x128661da, 0x573221da, 0x72abaecd, 0xe77c797f, 0x1162d575, 0x36e74eb4,
         0xd5a79147, 0xf54cb098);
    Step(v, words, 30, 0xdf7151a0, 0x74bcf468, 0x73f858af, 0x128661da, 0x7629c961, 0x72abaecd, 0xe77c797f, 0x1162d575,
         0x06ca6351, 0x2af1b2da);
    Step(v, words, 31, 0xeb43f3ed, 0xdf7151a0, 0x74bcf468, 0x73f858af, 0x0635d880, 0x7629c961, 0x72abaecd, 0xe77c797f,
         0x14292967, 0xee59c4c9);
  }

  lemma FirstRounds32(v: Working, words: seq<bv32>)
    requires FirstWords32(words)
    requires Rounds(v, words, 32) == Working(0x5581ab07, 0xeb43f3ed, 0xdf7151a0, 0x74bcf468, 0xdf980085, 0x0635d880,
                      0x7629c961, 0x72abaecd)
    ensures |K| == 64 && Rounds(v, words, 40) == Working(0x7e4d30b8, 0x91ac9d5d, 0xa985b4be, 0x2c55d3a6, 0x9f5b9b6d,
                      0x68d8d590, 0xf72bf353, 0xb067c1af)
  {
    Constants32();
    hide Round, Rounds, Schedule, K;
    Step(v, words, 32, 0x5581ab07, 0xeb43f3ed, 0xdf7151a0, 0x74bcf468, 0xdf980085, 0x0635d880, 0x7629c961, 0x72abaecd,
         0x27b70a85, 0xa835e16a);
    Step(v, words, 33, 0x9fc905c8, 0x5581ab07, 0xeb43f3ed, 0xdf7151a0, 0xa94d2af1, 0xdf980085, 0x0635d880, 0x7629c961,
         0x2e1b2138, 0x1dff4429);
    Step(v, words, 34, 0x9ce5a62f, 0x9fc905c8, 0x5581ab07, 0xeb43f3ed, 0x6ef3b6bd, 0xa94d2af1, 0xdf980085, 0x0635d880,
         0x4d2c6dfc, 0xd6e15959);
    Step(v, words, 35, 0x1df8e885, 0x9ce5a62f, 0x9fc905c8, 0x5581ab07, 0x2a9e048e, 0x6ef3b6bd, 0xa94d2af1, 0xdf980085,
         0x53380d13, 0xc397cd6e);
    Step(v, words, 36, 0x0786dce8, 0x1df8e885, 0x9ce5a62f, 0x9fc905c8, 0xde2a21d1, 0x2a9e048e, 0x6ef3b6bd, 0xa94d2af1,
         0x650a7354, 0x6f1801ca);
    Step(v, words, 37, 0x2c55d3a6, 0x0786dce8, 0x1df8e885, 0x9ce5a62f, 0xb067c1af, 0xde2a21d1, 0x2a9e048e, 0x6ef3b6bd,
         0x766a0abb, 0x21574205);
    Step(v, words, 38, 0xa985b4be, 0x2c55d3a6, 0x0786dce8, 0x1df8e885, 0xf72bf353, 0xb067c1af, 0xde2a21d1, 0x2a9e048e,
         0x81c2c92e, 0x35ff7a84);
    Step(v, words, 39, 0x91ac9d5d, 0xa985b4be, 0x2c55d3a6, 0x0786dce8, 0x68d8d590, 0xf72bf353, 0xb067c1af, 0xde2a21d1,
         0x92722c85, 0x9743ee78);
  }

  lemma FirstRounds40(v: Working, words: seq<bv32>)
    requires FirstWords40(words)
    requires Rounds(v, words, 40) == Working(0x7e4d30b8, 0x91ac9d5d, 0xa985b4be, 0x2c55d3a6, 0x9f5b9b6d, 0x68d8d590,
                      0xf72bf353, 0xb067c1af)
    ensures |K| == 64 && Rounds(v, words, 48) == Working(0x13d82741, 0x165be9cd, 0x18f0d19d, 0xde71e2f2, 0xa7802a4d,
                      0xa483f080, 0x6b88472c, 0xff61c636)
  {
    Constants40();
    hide Round, Rounds, Schedule, K;
    Step(v, words, 40, 0x7e4d30b8, 0x91ac9d5d, 0xa985b4be, 0x2c55d3a6, 0x9f5b9b6d, 0x68d8d590, 0xf72bf353, 0xb067c1af,
         0xa2bfe8a1, 0xe44183e7);
    Step(v, words, 41, 0x7e056794, 0x7e4d30b8, 0x91ac9d5d, 0xa985b4be, 0x423b26c0, 0x9f5b9b6d, 0x68d8d590, 0xf72bf353,
         0xa81a664b, 0x0d09f00d);
    Step(v, words, 42, 0x508a16ab, 0x7e056794, 0x7e4d30b8, 0x91ac9d5d, 0x45459d97, 0x423b26c0, 0x9f5b9b6d, 0x68d8d590,
         0xc24b8b70, 0x9c89af54);
    Step(v, words, 43, 0xb62c7013, 0x508a16ab, 0x7e056794, 0x7e4d30b8, 0x80a92a00, 0x45459d97, 0x423b26c0, 0x9f5b9b6d,
         0xc76c51a3, 0x042d5bef);
    Step(v, words, 44, 0x167361de, 0xb62c7013, 0x508a16ab, 0x7e056794, 0x41dd3844, 0x80a92a00, 0x45459d97, 0x423b26c0,
         0xd192e819, 0x71f134d0);
    Step(v, words, 45, 0xde71e2f2, 0x167361de, 0xb62c7013, 0x508a16ab, 0xff61c636, 0x41dd3844, 0x80a92a00, 0x45459d97,
         0xd6990624, 0x0f94f463);
    Step(v, words, 46, 0x18f0d19d, 0xde71e2f2, 0x167361de, 0xb62c7013, 0x6b88472c, 0xff61c636, 0x41dd3844, 0x80a92a00,
         0xf40e3585, 0x7e49dc63);
    Step(v, words, 47, 0x165be9cd, 0x18f0d19d, 0xde71e2f2, 0x167361de, 0xa483f080, 0x6b88472c, 0xff61c636, 0x41dd3844,
         0x106aa070, 0x6f65c997);
  }

  lemma FirstRounds48(v: Working, words: seq<bv32>)
    requires FirstWords48(words)
    requires Rounds(v, words, 48) == Working(0x13d82741, 0x165be9cd, 0x18f0d19d, 0xde71e2f2, 0xa7802a4d, 0xa483f080,
                      0x6b88472c, 0xff61c636)
    ensures |K| == 64 && Rounds(v, words, 56) == Working(0x9e57c4a0, 0xf907b313, 0x1d6de87a, 0xb8d55619, 0xeec13548,
                      0x61a41711, 0x3443bed4, 0x1c806a61)
  {
    Constants48();
    hide Round, Rounds, Schedule, K;
    Step(v, words, 48, 0x13d82741, 0x165be9cd, 0x18f0d19d, 0xde71e2f2, 0xa7802a4d, 0xa483f080, 0x6b88472c, 0xff61c636,
         0x19a4c116, 0x0b706583);
    Step(v, words, 49, 0x017b9d99, 0x13d82741, 0x165be9cd, 0x18f0d19d, 0xaeb10b60, 0xa7802a4d, 0xa483f080, 0x6b88472c,
         0x1e376c08, 0x179312ca);
    Step(v, words, 50, 0x543c99a1, 0x017b9d99, 0x13d82741, 0x165be9cd, 0x16f134b6, 0xaeb10b60, 0xa7802a4d, 0xa483f080,
         0x2748774c, 0x503054e9);
    Step(v, words, 51, 0x758ca97a, 0x543c99a1, 0x017b9d99, 0x13d82741, 0x100cf2ea, 0x16f134b6, 0xaeb10b60, 0xa7802a4d,
         0x34b0bcb5, 0xba125c39);
    Step(v, words, 52, 0x81c1cde0, 0x758ca97a, 0x543c99a1, 0x017b9d99, 0x5c47eb7b, 0x100cf2ea, 0x16f134b6, 0xaeb10b60,
         0x391c0cb3, 0x7e9392c9);
    Step(v, words, 53, 0xb8d55619, 0x81c1cde0, 0x758ca97a, 0x543c99a1, 0x1c806a61, 0x5c47eb7b, 0x100cf2ea, 0x16f134b6,
         0x4ed8aa4a, 0xd5cbaa1e);
    Step(v, words, 54, 0x1d6de87a, 0xb8d55619, 0x81c1cde0, 0x758ca97a, 0x3443bed4, 0x1c806a61, 0x5c47eb7b, 0x100cf2ea,
         0x5b9cca4f, 0x78e0585d);
    Step(v, words, 55, 0xf907b313, 0x1d6de87a, 0xb8d55619, 0x81c1cde0, 0x61a41711, 0x3443bed4, 0x1c806a61, 0x5c47eb7b,
         0x682e6ff3, 0xf6e7611c);
  }

  lemma FirstRounds56(v: Working, words: seq<bv32>)
    requires FirstWords56(words)
    requires Rounds(v, words, 56) == Working(0x9e57c4a0, 0xf907b313, 0x1d6de87a, 0xb8d55619, 0xeec13548, 0x61a41711,
                      0x3443bed4, 0x1c806a61)
    ensures |K| == 64 && Rounds(v, words, 64) == Working(0x1bdc6f6f, 0x86126910, 0xf6f443f8, 0xbcfce922, 0x25d2430a,
                      0x2fc08f85, 0xacc75916, 0x962d8621)
  {
    Constants56();
    hide Round, Rounds, Schedule, K;
    Step(v, words, 56, 0x9e57c4a0, 0xf907b313, 0x1d6de87a, 0xb8d55619, 0xeec13548, 0x61a41711, 0x3443bed4, 0x1c806a61,
         0x748f82ee, 0x8ac830ce);
    Step(v, words, 57, 0x71629856, 0x9e57c4a0, 0xf907b313, 0x1d6de87a, 0x2f6c8c4e, 0xeec13548, 0x61a41711, 0x3443bed4,
         0x78a5636f, 0x8b47a303);
    Step(v, words, 58, 0x7c015a2c, 0x71629856, 0x9e57c4a0, 0xf907b313, 0xcb9d3dd0, 0x2f6c8c4e, 0xeec13548, 0x61a41711,
         0x84c87814, 0xfd6e627f);
    Step(v, words, 59, 0x921fccb6, 0x7c015a2c, 0x71629856, 0x9e57c4a0, 0x43d8a034, 0xcb9d3dd0, 0x2f6c8c4e, 0xeec13548,
         0x8cc70208, 0x8c6e2c6a);
    Step(v, words, 60, 0xe18f259a, 0x921fccb6, 0x7c015a2c, 0x71629856, 0x51e15869, 0x43d8a034, 0xcb9d3dd0, 0x2f6c8c4e,
         0x90befffa, 0x4001adf1);
    Step(v, words, 61, 0xbcfce922, 0xe18f259a, 0x921fccb6, 0x7c015a2c, 0x962d8621, 0x51e15869, 0x43d8a034, 0xcb9d3dd0,
         0xa4506ceb, 0x1a3dd097);
    Step(v, words, 62, 0xf6f443f8, 0xbcfce922, 0xe18f259a, 0x921fccb6, 0xacc75916, 0x962d8621, 0x51e15869, 0x43d8a034,
         0xbef9a3f7, 0xa9df6f62);
    Step(v, words, 63, 0x86126910, 0xf6f443f8, 0xbcfce922, 0xe18f259a, 0x2fc08f85, 0xacc75916, 0x962d8621, 0x51e15869,
         0xc67178f2, 0x6aa60a39);
  }

  lemma FirstAllRounds(v: Working, words: seq<bv32>)
    requires FirstWords0(words) && FirstWords8(words)
    requires v == Working(0x6a09e667, 0xbb67ae85, 0x3c6ef372, 0xa54ff53a, 0x510e527f, 0x9b05688c, 0x1f83d9ab,
                      0x5be0cd19)
    ensures |K| == 64 && Rounds(v, words, 64) == Working(0x1bdc6f6f, 0x86126910, 0xf6f443f8, 0xbcfce922, 0x25d2430a,
                      0x2fc08f85, 0xacc75916, 0x962d8621)
  {
    assert Rounds(v, words, 0) == v;
    hide Rounds;
    hide FirstWords0, FirstWords8, FirstWords16, FirstWords24, FirstWords32, FirstWords40, FirstWords48, FirstWords56;
    FirstSchedule16(words);
    FirstSchedule24(words);
    FirstSchedule32(words);
    FirstSchedule40(words);
    FirstSchedule48(words);
    FirstSchedule56(words);
    FirstRounds0(v, words);
    FirstRounds8(v, words);
    FirstRounds16(v, words);
    FirstRounds24(v, words);
    FirstRounds32(v, words);
    FirstRounds40(v, words);
    FirstRounds48(v, words);
    FirstRounds56(v, words);
  }

  lemma FirstCompress(block: seq<bv8>)
    requires |block| == 64 && FirstWords0(BlockWords(block)) && FirstWords8(BlockWords(block))
    ensures Compress(INITIAL, block) == BETWEEN
  {
    assert WorkingOf(INITIAL) == Working(0x6a09e667, 0xbb67ae85, 0x3c6ef372, 0xa54ff53a, 0x510e527f, 0x9b05688c,
           0x1f83d9ab, 0x5be0cd19);
    FirstAllRounds(WorkingOf(INITIAL), BlockWords(block));
    hide Rounds, BlockWords, FirstWords0, FirstWords8;
    CompressIs(INITIAL, block, Rounds(WorkingOf(INITIAL), BlockWords(block), 64),
               [0x85e655d6, 0x417a1795, 0x3363376a, 0x624cde5c, 0x76e09589, 0xcac5f811, 0xcc4b32c1, 0xf20e533a]);
  }

  lemma LastBlock0(block: seq<bv8>)
    requires block == LastBytes()
    ensures Schedule(BlockWords(block), 0) == 0x00000000 && Schedule(BlockWords(block), 1) == 0x00000000
    ensures Schedule(BlockWords(block), 2) == 0x00000000 && Schedule(BlockWords(block), 3) == 0x00000000
  {
    hide Schedule, BlockWords;
    WordAt(block, 0, 0x00, 0x00, 0x00, 0x00, 0x00000000);
    WordAt(block, 1, 0x00, 0x00, 0x00, 0x00, 0x00000000);
    WordAt(block, 2, 0x00, 0x00, 0x00, 0x00, 0x00000000);
    WordAt(block, 3, 0x00, 0x00, 0x00, 0x00, 0x00000000);
  }

  lemma LastBlock4(block: seq<bv8>)
    requires block == LastBytes()
    ensures Schedule(BlockWords(block), 4) == 0x00000000 && Schedule(BlockWords(block), 5) == 0x00000000
    ensures Schedule(BlockWords(block), 6) == 0x00000000 && Schedule(BlockWords(block), 7) == 0x00000000
  {
    hide Schedule, BlockWords;
    WordAt(block, 4, 0x00, 0x00, 0x00, 0x00, 0x00000000);
    WordAt(block, 5, 0x00, 0x00, 0x00, 0x00, 0x00000000);
    WordAt(block, 6, 0x00, 0x00, 0x00, 0x00, 0x00000000);
    WordAt(block, 7, 0x00, 0x00, 0x00, 0x00, 0x00000000);
  }

  lemma LastBlock8(block: seq<bv8>)
    requires block == LastBytes()
    ensures Schedule(BlockWords(block), 8) == 0x00000000 && Schedule(BlockWords(block), 9) == 0x00000000
    ensures Schedule(BlockWords(block), 10) == 0x00000000 && Schedule(BlockWords(block), 11) == 0x00000000
  {
    hide Schedule, BlockWords;
    WordAt(block, 8, 0x00, 0x00, 0x00, 0x00, 0x00000000);
    WordAt(block, 9, 0x00, 0x00, 0x00, 0x00, 0x00000000);
    WordAt(block, 10, 0x00, 0x00, 0x00, 0x00, 0x00000000);
    WordAt(block, 11, 0x00, 0x00, 0x00, 0x00, 0x00000000);
  }

  lemma LastBlock12(block: seq<bv8>)
    requires block == LastBytes()
    ensures Schedule(BlockWords(block), 12) == 0x00000000 && Schedule(BlockWords(block), 13) == 0x00000000
    ensures Schedule(BlockWords(block), 14) == 0x00000000 && Schedule(BlockWords(block), 15) == 0x000001c0
  {
    hide Schedule, BlockWords;
    WordAt(block, 12, 0x00, 0x00, 0x00, 0x00, 0x00000000);
    WordAt(block, 13, 0x00, 0x00, 0x00, 0x00, 0x00000000);
    WordAt(block, 14, 0x00, 0x00, 0x00, 0x00, 0x00000000);
    WordAt(block, 15, 0x00, 0x00, 0x01, 0xc0, 0x000001c0);
  }

  lemma LastBlock(block: seq<bv8>)
    requires block == LastBytes()
    ensures LastWords0(BlockWords(block)) && LastWords8(BlockWords(block))
  {
    hide Schedule, BlockWords;
    LastBlock0(block);
    LastBlock4(block);
    LastBlock8(block);
    LastBlock12(block);
  }

  predicate LastWords0(words: seq<bv32>) {
    && |words| == 16
    && Schedule(words, 0) == 0x00000000 && Schedule(words, 1) == 0x00000000
    && Schedule(words, 2) == 0x00000000 && Schedule(words, 3) == 0x00000000
    && Schedule(words, 4) == 0x00000000 && Schedule(words, 5) == 0x00000000
    && Schedule(words, 6) == 0x00000000 && Schedule(words, 7) == 0x00000000
  }

  predicate LastWords8(words: seq<bv32>) {
    && |words| == 16
    && Schedule(words, 8) == 0x00000000 && Schedule(words, 9) == 0x00000000
    && Schedule(words, 10) == 0x00000000 && Schedule(words, 11) == 0x00000000
    && Schedule(words, 12) == 0x00000000 && Schedule(words, 13) == 0x00000000
    && Schedule(words, 14) == 0x00000000 && Schedule(words, 15) == 0x000001c0
  }

  predicate LastWords16(words: seq<bv32>) {
    && |words| == 16
    && Schedule(words, 16) == 0x00000000 && Schedule(words, 17) == 0x00d80000
    && Schedule(words, 18) == 0x00000000 && Schedule(words, 19) == 0x00003677
    && Schedule(words, 20) == 0x00000000 && Schedule(words, 21) == 0x1df5600d
    && Schedule(words, 22) == 0x000001c0 && Schedule(words, 23) == 0x1c00501c
  }

  predicate LastWords24(words: seq<bv32>) {
    && |words| == 16
    && Schedule(words, 24) == 0x01b00000 && Schedule(words, 25) == 0x220a8d94
    && Schedule(words, 26) == 0x0000a365 && Schedule(words, 27) == 0x177017e7
    && Schedule(words, 28) == 0x63d38035 && Schedule(words, 29) == 0x090ab713
    && Schedule(words, 30) == 0x4c7539ca && Schedule(words, 31) == 0x0f19a8c9
  }

  predicate LastWords32(words: seq<bv32>) {
    && |words| == 16
    && Schedule(words, 32) == 0x5df4b0c4 && Schedule(words, 33) == 0xe257036a
    && Schedule(words, 34) == 0xc97bb6f1 && Schedule(words, 35) == 0xc5b46f4d
    && Schedule(words, 36) == 0xf8253c4e && Schedule(words, 37) == 0xa558d189
    && Schedule(words, 38) == 0x78696285 && Schedule(words, 39) == 0xed07117f
  }

  predicate LastWords40(words: seq<bv32>) {
    && |words| == 16
    && Schedule(words, 40) == 0x107358f6 && Schedule(words, 41) == 0x390ae496
    && Schedule(words, 42) == 0x565010a2 && Schedule(words, 43) == 0xc51d7d44
    && Schedule(words, 44) == 0x9e74c972 && Schedule(words, 45) == 0x6614b561
    && Schedule(words, 46) == 0x30fc129d && Schedule(words, 47) == 0x9ac684a8
  }

  predicate LastWords48(words: seq<bv32>) {
    && |words| == 16
    && Schedule(words, 48) == 0x2b658dbd && Schedule(words, 49) == 0xe290f793
    && Schedule(words, 50) == 0x9eebb24c && Schedule(words, 51) == 0x9713b5de
    && Schedule(words, 52) == 0x41061ab7 && Schedule(words, 53) == 0xe022e23b
    && Schedule(words, 54) == 0x0772079e && Schedule(words, 55) == 0x7de22d9c
  }

  predicate LastWords56(words: seq<bv32>) {
    && |words| == 16
    && Schedule(words, 56) == 0xc8b83778 && Schedule(words, 57) == 0x75a79849
    && Schedule(words, 58) == 0xd93dbddb && Schedule(words, 59) == 0x0a036c9d
    && Schedule(words, 60) == 0xcb4f6ac6 && Schedule(words, 61) == 0x823f97e2
    && Schedule(words, 62) == 0xea2f2a7a && Schedule(words, 63) == 0xb9018b52
  }

  lemma LastSchedule16(words: seq<bv32>)
    requires LastWords0(words) && LastWords8(words)
    ensures LastWords16(words)
  {
    hide Schedule;
    NextSchedule(words, 16, 0x00000000, 0x00000000, 0x00000000, 0x00000000);
    NextSchedule(words, 17, 0x00000000, 0x00000000, 0x00000000, 0x000001c0);
    NextSchedule(words, 18, 0x00000000, 0x00000000, 0x00000000, 0x00000000);
    NextSchedule(words, 19, 0x00000000, 0x00000000, 0x00000000, 0x00d80000);
    NextSchedule(words, 20, 0x00000000, 0x00000000, 0x00000000, 0x00000000);
    NextSchedule(words, 21, 0x00000000, 0x00000000, 0x00000000, 0x00003677);
    NextSchedule(words, 22, 0x00000000, 0x00000000, 0x000001c0, 0x00000000);
    NextSchedule(words, 23, 0x00000000, 0x00000000, 0x00000000, 0x1df5600d);
  }

  lemma LastSchedule24(words: seq<bv32>)
    requires LastWords8(words) && LastWords16(words)
    ensures LastWords24(words)
  {
    hide Schedule;
    NextSchedule(words, 24, 0x00000000, 0x00000000, 0x00d80000, 0x000001c0);
    NextSchedule(words, 25, 0x00000000, 0x00000000, 0x00000000, 0x1c00501c);
    NextSchedule(words, 26, 0x00000000, 0x00000000, 0x00003677, 0x01b00000);
    NextSchedule(words, 27, 0x00000000, 0x00000000, 0x00000000, 0x220a8d94);
    NextSchedule(words, 28, 0x00000000, 0x00000000, 0x1df5600d, 0x0000a365);
    NextSchedule(words, 29, 0x00000000, 0x00000000, 0x000001c0, 0x177017e7);
    NextSchedule(words, 30, 0x00000000, 0x000001c0, 0x1c00501c, 0x63d38035);
    NextSchedule(words, 31, 0x000001c0, 0x00000000, 0x01b00000, 0x090ab713);
  }

  lemma LastSchedule32(words: seq<bv32>)
    requires LastWords16(words) && LastWords24(words)
    ensures LastWords32(words)
  {
    hide Schedule;
    NextSchedule(words, 32, 0x00000000, 0x00d80000, 0x220a8d94, 0x4c7539ca);
    NextSchedule(words, 33, 0x00d80000, 0x00000000, 0x0000a365, 0x0f19a8c9);
    NextSchedule(words, 34, 0x00000000, 0x00003677, 0x177017e7, 0x5df4b0c4);
    NextSchedule(words, 35, 0x00003677, 0x00000000, 0x63d38035, 0xe257036a);
    NextSchedule(words, 36, 0x00000000, 0x1df5600d, 0x090ab713, 0xc97bb6f1);
    NextSchedule(words, 37, 0x1df5600d, 0x000001c0, 0x4c7539ca, 0xc5b46f4d);
    NextSchedule(words, 38, 0x000001c0, 0x1c00501c, 0x0f19a8c9, 0xf8253c4e);
    NextSchedule(words, 39, 0x1c00501c, 0x01b00000, 0x5df4b0c4, 0xa558d189);
  }

  lemma LastSchedule40(words: seq<bv32>)
    requires LastWords24(words) && LastWords32(words)
    ensures LastWords40(words)
  {
    hide Schedule;
    NextSchedule(words, 40, 0x01b00000, 0x220a8d94, 0xe257036a, 0x78696285);
    NextSchedule(words, 41, 0x220a8d94, 0x0000a365, 0xc97bb6f1, 0xed07117f);
    NextSchedule(words, 42, 0x0000a365, 0x177017e7, 0xc5b46f4d, 0x107358f6);
    NextSchedule(words, 43, 0x177017e7, 0x63d38035, 0xf8253c4e, 0x390ae496);
    NextSchedule(words, 44, 0x63d38035, 0x090ab713, 0xa558d189, 0x565010a2);
    NextSchedule(words, 45, 0x090ab713, 0x4c7539ca, 0x78696285, 0xc51d7d44);
    NextSchedule(words, 46, 0x4c7539ca, 0x0f19a8c9, 0xed07117f, 0x9e74c972);
    NextSchedule(words, 47, 0x0f19a8c9, 0x5df4b0c4, 0x107358f6, 0x6614b561);
  }

  lemma LastSchedule48(words: seq<bv32>)
    requires LastWords32(words) && LastWords40(words)
    ensures LastWords48(words)
  {
    hide Schedule;
    NextSchedule(words, 48, 0x5df4b0c4, 0xe257036a, 0x390ae496, 0x30fc129d);
    NextSchedule(words, 49, 0xe257036a, 0xc97bb6f1, 0x565010a2, 0x9ac684a8);
    NextSchedule(words, 50, 0xc97bb6f1, 0xc5b46f4d, 0xc51d7d44, 0x2b658dbd);
    NextSchedule(words, 51, 0xc5b46f4d, 0xf8253c4e, 0x9e74c972, 0xe290f793);
    NextSchedule(words, 52, 0xf8253c4e, 0xa558d189, 0x6614b561, 0x9eebb24c);
    NextSchedule(words, 53, 0xa558d189, 0x78696285, 0x30fc129d, 0x9713b5de);
    NextSchedule(words, 54, 0x78696285, 0xed07117f, 0x9ac684a8, 0x41061ab7);
    NextSchedule(words, 55, 0xed07117f, 0x107358f6, 0x2b658dbd, 0xe022e23b);
  }

  lemma LastSchedule56(words: seq<bv32>)
    requires LastWords40(words) && LastWords48(words)
    ensures LastWords56(words)
  {
    hide Schedule;
    NextSchedule(words, 56, 0x107358f6, 0x390ae496, 0xe290f793, 0x0772079e);
    NextSchedule(words, 57, 0x390ae496, 0x565010a2, 0x9eebb24c, 0x7de22d9c);
    NextSchedule(words, 58, 0x565010a2, 0xc51d7d44, 0x9713b5de, 0xc8b83778);
    NextSchedule(words, 59, 0xc51d7d44, 0x9e74c972, 0x41061ab7, 0x75a79849);
    NextSchedule(words, 60, 0x9e74c972, 0x6614b561, 0xe022e23b, 0xd93dbddb);
    NextSchedule(words, 61, 0x6614b561, 0x30fc129d, 0x0772079e, 0x0a036c9d);
    NextSchedule(words, 62, 0x30fc129d, 0x9ac684a8, 0x7de22d9c, 0xcb4f6ac6);
    NextSchedule(words, 63, 0x9ac684a8, 0x2b658dbd, 0xc8b83778, 0x823f97e2);
  }

  lemma LastRounds0(v: Working, words: seq<bv32>)
    requires LastWords0(words)
    requires Rounds(v, words, 0) == Working(0x85e655d6, 0x417a1795, 0x3363376a, 0x624cde5c, 0x76e09589, 0xcac5f811,
                      0xcc4b32c1, 0xf20e533a)
    ensures |K| == 64 && Rounds(v, words, 8) == Working(0xbf9a93a0, 0x89bba3f1, 0x3eeb6c06, 0x185a5d79, 0x059abdd1,
                      0x0a34df03, 0xfe20cda6, 0x8dff3001)
  {
    Constants0();
    hide Round, Rounds, Schedule, K;
    Step(v, words, 0, 0x85e655d6, 0x417a1795, 0x3363376a, 0x624cde5c, 0x76e09589, 0xcac5f811, 0xcc4b32c1, 0xf20e533a,
         0x428a2f98, 0x00000000);
    Step(v, words, 1, 0x7c20c838, 0x85e655d6, 0x417a1795, 0x3363376a, 0x4670ae6e, 0x76e09589, 0xcac5f811, 0xcc4b32c1,
         0x71374491, 0x00000000);
    Step(v, words, 2, 0x7c3c0f86, 0x7c20c838, 0x85e655d6, 0x417a1795, 0x8c51be64, 0x4670ae6e, 0x76e09589, 0xcac5f811,
         0xb5c0fbcf, 0x00000000);
    Step(v, words, 3, 0xfd1eebdc, 0x7c3c0f86, 0x7c20c838, 0x85e655d6, 0xaf71b9ea, 0x8c51be64, 0x4670ae6e, 0x76e09589,
         0xe9b5dba5, 0x00000000);
    Step(v, words, 4, 0xf268faa9, 0xfd1eebdc, 0x7c3c0f86, 0x7c20c838, 0xe20362ef, 0xaf71b9ea, 0x8c51be64, 0x4670ae6e,
         0x3956c25b, 0x00000000);
    Step(v, words, 5, 0x185a5d79, 0xf268faa9, 0xfd1eebdc, 0x7c3c0f86, 0x8dff3001, 0xe20362ef, 0xaf71b9ea, 0x8c51be64,
         0x59f111f1, 0x00000000);
    Step(v, words, 6, 0x3eeb6c06, 0x185a5d79, 0xf268faa9, 0xfd1eebdc, 0xfe20cda6, 0x8dff3001, 0xe20362ef, 0xaf71b9ea,
         0x923f82a4, 0x00000000);
    Step(v, words, 7, 0x89bba3f1, 0x3eeb6c06, 0x185a5d79, 0xf268faa9, 0x0a34df03, 0xfe20cda6, 0x8dff3001, 0xe20362ef,
         0xab1c5ed5, 0x00000000);
  }

  lemma LastRounds8(v: Working, words: seq<bv32>)
    requires LastWords8(words)
    requires Rounds(v, words, 8) == Working(0xbf9a93a0, 0x89bba3f1, 0x3eeb6c06, 0x185a5d79, 0x059abdd1, 0x0a34df03,
                      0xfe20cda6, 0x8dff3001)
    ensures |K| == 64 && Rounds(v, words, 16) == Working(0x16a8cc79, 0x0cea5cbc, 0xd74080fa, 0x35ee996d, 0x0fcb1f6f,
                      0x60356548, 0x68aa893f, 0x5c24e2a2)
  {
    Constants8();
    hide Round, Rounds, Schedule, K;
    Step(v, words, 8, 0xbf9a93a0, 0x89bba3f1, 0x3eeb6c06, 0x185a5d79, 0x059abdd1, 0x0a34df03, 0xfe20cda6, 0x8dff3001,
         0xd807aa98, 0x00000000);
    Step(v, words, 9, 0x2c096744, 0xbf9a93a0, 0x89bba3f1, 0x3eeb6c06, 0xabfa465b, 0x059abdd1, 0x0a34df03, 0xfe20cda6,
         0x12835b01, 0x00000000);
    Step(v, words, 10, 0x2d964e86, 0x2c096744, 0xbf9a93a0, 0x89bba3f1, 0xaa27ed82, 0xabfa465b, 0x059abdd1, 0x0a34df03,
         0x243185be, 0x00000000);
    Step(v, words, 11, 0x5b35025b, 0x2d964e86, 0x2c096744, 0xbf9a93a0, 0x10e77723, 0xaa27ed82, 0xabfa465b, 0x059abdd1,
         0x550c7dc3, 0x00000000);
    Step(v, words, 12, 0x5eb4ec40, 0x5b35025b, 0x2d964e86, 0x2c096744, 0xe11b4548, 0x10e77723, 0xaa27ed82, 0xabfa465b,
         0x72be5d74, 0x00000000);
    Step(v, words, 13, 0x35ee996d, 0x5eb4ec40, 0x5b35025b, 0x2d964e86, 0x5c24e2a2, 0xe11b4548, 0x10e77723, 0xaa27ed82,
         0x80deb1fe, 0x00000000);
    Step(v, words, 14, 0xd74080fa, 0x35ee996d, 0x5eb4ec40, 0x5b35025b, 0x68aa893f, 0x5c24e2a2, 0xe11b4548, 0x10e77723,
         0x9bdc06a7, 0x00000000);
    Step(v, words, 15, 0x0cea5cbc, 0xd74080fa, 0x35ee996d, 0x5eb4ec40, 0x60356548, 0x68aa893f, 0x5c24e2a2, 0xe11b4548,
         0xc19bf174, 0x000001c0);
  }

  lemma LastRounds16(v: Working, words: seq<bv32>)
    requires LastWords16(words)
    requires Rounds(v, words, 16) == Working(0x16a8cc79, 0x0cea5cbc, 0xd74080fa, 0x35ee996d, 0x0fcb1f6f, 0x60356548,
                      0x68aa893f, 0x5c24e2a2)
    ensures |K| == 64 && Rounds(v, words, 24) == Working(0xa4195b91, 0xf13ae55b, 0xd44dc81a, 0x20aad899, 0xeddbd6ed,
                      0x966aa287, 0x5bace62d, 0xcc4769f2)
  {
    Constants16();
    hide Round, Rounds, Schedule, K;
    Step(v, words, 16, 0x16a8cc79, 0x0cea5cbc, 0xd74080fa, 0x35ee996d, 0x0fcb1f6f, 0x60356548, 0x68aa893f, 0x5c24e2a2,
         0xe49b69c1, 0x00000000);
    Step(v, words, 17, 0xf16f634e, 0x16a8cc79, 0x0cea5cbc, 0xd74080fa, 0x8b21cdc1, 0x0fcb1f6f, 0x60356548, 0x68aa893f,
         0xefbe4786, 0x00d80000);
    Step(v, words, 18, 0x23dcb6c2, 0xf16f634e, 0x16a8cc79, 0x0cea5cbc, 0xca9182d3, 0x8b21cdc1, 0x0fcb1f6f, 0x60356548,
         0x0fc19dc6, 0x00000000);
    Step(v, words, 19, 0xdcff40fd, 0x23dcb6c2, 0xf16f634e, 0x16a8cc79, 0x69bf7b95, 0xca9182d3, 0x8b21cdc1, 0x0fcb1f6f,
         0x240ca1cc, 0x00003677);
    Step(v, words, 20, 0x76f1a2bc, 0xdcff40fd, 0x23dcb6c2, 0xf16f634e, 0x0dc84bb1, 0x69bf7b95, 0xca9182d3, 0x8b21cdc1,
         0x2de92c6f, 0x00000000);
    Step(v, words, 21, 0x20aad899, 0x76f1a2bc, 0xdcff40fd, 0x23dcb6c2, 0xcc4769f2, 0x0dc84bb1, 0x69bf7b95, 0xca9182d3,
         0x4a7484aa, 0x1df5600d);
    Step(v, words, 22, 0xd44dc81a, 0x20aad899, 0x76f1a2bc, 0xdcff40fd, 0x5bace62d, 0xcc4769f2, 0x0dc84bb1, 0x69bf7b95,
         0x5cb0a9dc, 0x000001c0);
    Step(v, words, 23, 0xf13ae55b, 0xd44dc81a, 0x20aad899, 0x76f1a2bc, 0x966aa287, 0x5bace62d, 0xcc4769f2, 0x0dc84bb1,
         0x76f988da, 0x1c00501c);
  }

  lemma LastRounds24(v: Working, words: seq<bv32>)
    requires LastWords24(words)
    requires Rounds(v, words, 24) == Working(0xa4195b91, 0xf13ae55b, 0xd44dc81a, 0x20aad899, 0xeddbd6ed, 0x966aa287,
                      0x5bace62d, 0xcc4769f2)
    ensures |K| == 64 && Rounds(v, words, 32) == Working(0xb0eab1c5, 0x02ef3a5f, 0x1cfa5eb0, 0xd958b529, 0xf6d93952,
                      0x5da10665, 0x6c49db9f, 0xc2fa99b1)
  {
    Constants24();
    hide Round, Rounds, Schedule, K;
    Step(v, words, 24, 0xa4195b91, 0xf13ae55b, 0xd44dc81a, 0x20aad899, 0xeddbd6ed, 0x966aa287, 0x5bace62d, 0xcc4769f2,
         0x983e5152, 0x01b00000);
    Step(v, words, 25, 0x4984fa79, 0xa4195b91, 0xf13ae55b, 0xd44dc81a, 0xa530d939, 0xeddbd6ed, 0x966aa287, 0x5bace62d,
         0xa831c66d, 0x220a8d94);
    Step(v, words, 26, 0xaa6cb982, 0x4984fa79, 0xa4195b91, 0xf13ae55b, 0x0b5eeea4, 0xa530d939, 0xeddbd6ed, 0x966aa287,
         0xb00327c8, 0x0000a365);
    Step(v, words, 27, 0x9450fbbc, 0xaa6cb982, 0x4984fa79, 0xa4195b91, 0x09166dda, 0x0b5eeea4, 0xa530d939, 0xeddbd6ed,
         0xbf597fc7, 0x177017e7);
    Step(v, words, 28, 0x0d936bab, 0x9450fbbc, 0xaa6cb982, 0x4984fa79, 0x6e495d4b, 0x09166dda, 0x0b5eeea4, 0xa530d939,
         0xc6e00bf3, 0x63d38035);
    Step(v, words, 29, 0xd958b529, 0x0d936bab, 0x9450fbbc, 0xaa6cb982, 0xc2fa99b1, 0x6e495d4b, 0x09166dda, 0x0b5eeea4,
         0xd5a79147, 0x090ab713);
    Step(v, words, 30, 0x1cfa5eb0, 0xd958b529, 0x0d936bab, 0x9450fbbc, 0x6c49db9f, 0xc2fa99b1, 0x6e495d4b, 0x09166dda,
         0x06ca6351, 0x4c7539ca);
    Step(v, words, 31, 0x02ef3a5f, 0x1cfa5eb0, 0xd958b529, 0x0d936bab, 0x5da10665, 0x6c49db9f, 0xc2fa99b1, 0x6e495d4b,
         0x14292967, 0x0f19a8c9);
  }

  lemma LastRounds32(v: Working, words: seq<bv32>)
    requires LastWords32(words)
    requires Rounds(v, words, 32) == Working(0xb0eab1c5, 0x02ef3a5f, 0x1cfa5eb0, 0xd958b529, 0xf6d93952, 0x5da10665,
                      0x6c49db9f, 0xc2fa99b1)
    ensures |K| == 64 && Rounds(v, words, 40) == Working(0x221b8a5a, 0xadca7a96, 0xd949682b, 0x2f11c939, 0x0b82c5eb,
                      0xc6cce4ff, 0x32d99008, 0xfed4ce1d)
  {
    Constants32();
    hide Round, Rounds, Schedule, K;
    Step(v, words, 32, 0xb0eab1c5, 0x02ef3a5f, 0x1cfa5eb0, 0xd958b529, 0xf6d93952, 0x5da10665, 0x6c49db9f, 0xc2fa99b1,
         0x27b70a85, 0x5df4b0c4);
    Step(v, words, 33, 0x0bfba73c, 0xb0eab1c5, 0x02ef3a5f, 0x1cfa5eb0, 0x8b99e3a9, 0xf6d93952, 0x5da10665, 0x6c49db9f,
         0x2e1b2138, 0xe257036a);
    Step(v, words, 34, 0x4bd1df96, 0x0bfba73c, 0xb0eab1c5, 0x02ef3a5f, 0x905e44ac, 0x8b99e3a9, 0xf6d93952, 0x5da10665,
         0x4d2c6dfc, 0xc97bb6f1);
    Step(v, words, 35, 0x9907f1b6, 0x4bd1df96, 0x0bfba73c, 0xb0eab1c5, 0x66c3043d, 0x905e44ac, 0x8b99e3a9, 0xf6d93952,
         0x53380d13, 0xc5b46f4d);
    Step(v, words, 36, 0xecde4e0d, 0x9907f1b6, 0x4bd1df96, 0x0bfba73c, 0x5dc119e6, 0x66c3043d, 0x905e44ac, 0x8b99e3a9,
         0x650a7354, 0xf8253c4e);
    Step(v, words, 37, 0x2f11c939, 0xecde4e0d, 0x9907f1b6, 0x4bd1df96, 0xfed4ce1d, 0x5dc119e6, 0x66c3043d, 0x905e44ac,
         0x766a0abb, 0xa558d189);
    Step(v, words, 38, 0xd949682b, 0x2f11c939, 0xecde4e0d, 0x9907f1b6, 0x32d99008, 0xfed4ce1d, 0x5dc119e6, 0x66c3043d,
         0x81c2c92e, 0x78696285);
    Step(v, words, 39, 0xadca7a96, 0xd949682b, 0x2f11c939, 0xecde4e0d, 0xc6cce4ff, 0x32d99008, 0xfed4ce1d, 0x5dc119e6,
         0x92722c85, 0xed07117f);
  }

  lemma LastRounds40(v: Working, words: seq<bv32>)
    requires LastWords40(words)
    requires Rounds(v, words, 40) == Working(0x221b8a5a, 0xadca7a96, 0xd949682b, 0x2f11c939, 0x0b82c5eb, 0xc6cce4ff,
                      0x32d99008, 0xfed4ce1d)
    ensures |K| == 64 && Rounds(v, words, 48) == Working(0xd7354d5b, 0x0b3303a7, 0x104a7db4, 0x0f154e11, 0xaad55b6b,
                      0xbbe1c39a, 0x5348e8f6, 0x6f9517cb)
  {
    Constants40();
    hide Round, Rounds, Schedule, K;
    Step(v, words, 40, 0x221b8a5a, 0xadca7a96, 0xd949682b, 0x2f11c939, 0x0b82c5eb, 0xc6cce4ff, 0x32d99008, 0xfed4ce1d,
         0xa2bfe8a1, 0x107358f6);
    Step(v, words, 41, 0x12d97845, 0x221b8a5a, 0xadca7a96, 0xd949682b, 0xe4213ca2, 0x0b82c5eb, 0xc6cce4ff, 0x32d99008,
         0xa81a664b, 0x390ae496);
    Step(v, words, 42, 0x2c794876, 0x12d97845, 0x221b8a5a, 0xadca7a96, 0xff6759ba, 0xe4213ca2, 0x0b82c5eb, 0xc6cce4ff,
         0xc24b8b70, 0x565010a2);
    Step(v, words, 43, 0x8300fca2, 0x2c794876, 0x12d97845, 0x221b8a5a, 0xe0e3457c, 0xff6759ba, 0xe4213ca2, 0x0b82c5eb,
         0xc76c51a3, 0xc51d7d44);
    Step(v, words, 44, 0xf2ad6322, 0x8300fca2, 0x2c794876, 0x12d97845, 0xcc48c7f3, 0xe0e3457c, 0xff6759ba, 0xe4213ca2,
         0xd192e819, 0x9e74c972);
    Step(v, words, 45, 0x0f154e11, 0xf2ad6322, 0x8300fca2, 0x2c794876, 0x6f9517cb, 0xcc48c7f3, 0xe0e3457c, 0xff6759ba,
         0xd6990624, 0x6614b561);
    Step(v, words, 46, 0x104a7db4, 0x0f154e11, 0xf2ad6322, 0x8300fca2, 0x5348e8f6, 0x6f9517cb, 0xcc48c7f3, 0xe0e3457c,
         0xf40e3585, 0x30fc129d);
    Step(v, words, 47, 0x0b3303a7, 0x104a7db4, 0x0f154e11, 0xf2ad6322, 0xbbe1c39a, 0x5348e8f6, 0x6f9517cb, 0xcc48c7f3,
         0x106aa070, 0x9ac684a8);
  }

  lemma LastRounds48(v: Working, words: seq<bv32>)
    requires LastWords48(words)
    requires Rounds(v, words, 48) == Working(0xd7354d5b, 0x0b3303a7, 0x104a7db4, 0x0f154e11, 0xaad55b6b, 0xbbe1c39a,
                      0x5348e8f6, 0x6f9517cb)
    ensures |K| == 64 && Rounds(v, words, 56) == Working(0x92952710, 0xd9f0c115, 0xec02560a, 0x4eca6fa0, 0x226806d6,
                      0x624150c4, 0x7151df8e, 0x989ed071)
  {
    Constants48();
    hide Round, Rounds, Schedule, K;
    Step(v, words, 48, 0xd7354d5b, 0x0b3303a7, 0x104a7db4, 0x0f154e11, 0xaad55b6b, 0xbbe1c39a, 0x5348e8f6, 0x6f9517cb,
         0x19a4c116, 0x2b658dbd);
    Step(v, words, 49, 0xb736d7a6, 0xd7354d5b, 0x0b3303a7, 0x104a7db4, 0x68f25260, 0xaad55b6b, 0xbbe1c39a, 0x5348e8f6,
         0x1e376c08, 0xe290f793);
    Step(v, words, 50, 0x2748e5ec, 0xb736d7a6, 0xd7354d5b, 0x0b3303a7, 0xd4b58576, 0x68f25260, 0xaad55b6b, 0xbbe1c39a,
         0x2748774c, 0x9eebb24c);
    Step(v, words, 51, 0xd8aabcf9, 0x2748e5ec, 0xb736d7a6, 0xd7354d5b, 0x27844711, 0xd4b58576, 0x68f25260, 0xaad55b6b,
         0x34b0bcb5, 0x9713b5de);
    Step(v, words, 52, 0x1a6bcf6a, 0xd8aabcf9, 0x2748e5ec, 0xb736d7a6, 0xff5e99d0, 0x27844711, 0xd4b58576, 0x68f25260,
         0x391c0cb3, 0x41061ab7);
    Step(v, words, 53, 0x4eca6fa0, 0x1a6bcf6a, 0xd8aabcf9, 0x2748e5ec, 0x989ed071, 0xff5e99d0, 0x27844711, 0xd4b58576,
         0x4ed8aa4a, 0xe022e23b);
    Step(v, words, 54, 0xec02560a, 0x4eca6fa0, 0x1a6bcf6a, 0xd8aabcf9, 0x7151df8e, 0x989ed071, 0xff5e99d0, 0x27844711,
         0x5b9cca4f, 0x0772079e);
    Step(v, words, 55, 0xd9f0c115, 0xec02560a, 0x4eca6fa0, 0x1a6bcf6a, 0x624150c4, 0x7151df8e, 0x989ed071, 0xff5e99d0,
         0x682e6ff3, 0x7de22d9c);
  }

  lemma LastRounds56(v: Working, words: seq<bv32>)
    requires LastWords56(words)
    requires Rounds(v, words, 56) == Working(0x92952710, 0xd9f0c115, 0xec02560a, 0x4eca6fa0, 0x226806d6, 0x624150c4,
                      0x7151df8e, 0x989ed071)
    ensures |K| == 64 && Rounds(v, words, 64) == Working(0x9ea7148b, 0x908c2123, 0xb25cef29, 0xa9f181dd, 0x2c5c4ed0,
                      0x9a392956, 0x2aa1bb13, 0x27ccb387)
  {
    Constants56();
    hide Round, Rounds, Schedule, K;
    Step(v, words, 56, 0x92952710, 0xd9f0c115, 0xec02560a, 0x4eca6fa0, 0x226806d6, 0x624150c4, 0x7151df8e, 0x989ed071,
         0x748f82ee, 0xc8b83778);
    Step(v, words, 57, 0x20d4d0e4, 0x92952710, 0xd9f0c115, 0xec02560a, 0x4e515a4d, 0x226806d6, 0x624150c4, 0x7151df8e,
         0x78a5636f, 0x75a79849);
    Step(v, words, 58, 0x4348eb1f, 0x20d4d0e4, 0x92952710, 0xd9f0c115, 0xc21eddf9, 0x4e515a4d, 0x226806d6, 0x624150c4,
         0x84c87814, 0xd93dbddb);
    Step(v, words, 59, 0x286fe5f0, 0x4348eb1f, 0x20d4d0e4, 0x92952710, 0x54076664, 0xc21eddf9, 0x4e515a4d, 0x226806d6,
         0x8cc70208, 0x0a036c9d);
    Step(v, words, 60, 0x1c4cddd9, 0x286fe5f0, 0x4348eb1f, 0x20d4d0e4, 0xf487a853, 0x54076664, 0xc21eddf9, 0x4e515a4d,
         0x90befffa, 0xcb4f6ac6);
    Step(v, words, 61, 0xa9f181dd, 0x1c4cddd9, 0x286fe5f0, 0x4348eb1f, 0x27ccb387, 0xf487a853, 0x54076664, 0xc21eddf9,
         0xa4506ceb, 0x823f97e2);
    Step(v, words, 62, 0xb25cef29, 0xa9f181dd, 0x1c4cddd9, 0x286fe5f0, 0x2aa1bb13, 0x27ccb387, 0xf487a853, 0x54076664,
         0xbef9a3f7, 0xea2f2a7a);
    Step(v, words, 63, 0x908c2123, 0xb25cef29, 0xa9f181dd, 0x1c4cddd9, 0x9a392956, 0x2aa1bb13, 0x27ccb387, 0xf487a853,
         0xc67178f2, 0xb9018b52);
  }

  lemma LastAllRounds(v: Working, words: seq<bv32>)
    requires LastWords0(words) && LastWords8(words)
    requires v == Working(0x85e655d6, 0x417a1795, 0x3363376a, 0x624cde5c, 0x76e09589, 0xcac5f811, 0xcc4b32c1,
                      0xf20e533a)
    ensures |K| == 64 && Rounds(v, words, 64) == Working(0x9ea7148b, 0x908c2123, 0xb25cef29, 0xa9f181dd, 0x2c5c4ed0,
                      0x9a392956, 0x2aa1bb13, 0x27ccb387)
  {
    assert Rounds(v, words, 0) == v;
    hide Rounds;
    hide LastWords0, LastWords8, LastWords16, LastWords24, LastWords32, LastWords40, LastWords48, LastWords56;
    LastSchedule16(words);
    LastSchedule24(words);
    LastSchedule32(words);
    LastSchedule40(words);
    LastSchedule48(words);
    LastSchedule56(words);
    LastRounds0(v, words);
    LastRounds8(v, words);
    LastRounds16(v, words);
    LastRounds24(v, words);
    LastRounds32(v, words);
    LastRounds40(v, words);
    LastRounds48(v, words);
    LastRounds56(v, words);
  }

  lemma LastCompress(block: seq<bv8>)
    requires |block| == 64 && LastWords0(BlockWords(block)) && LastWords8(BlockWords(block))
    ensures Compress(BETWEEN, block) == [0x248d6a61, 0xd20638b8, 0xe5c02693, 0x0c3e6039, 0xa33ce459, 0x64ff2167,
          0xf6ecedd4, 0x19db06c1]
  {
    assert WorkingOf(BETWEEN) == Working(0x85e655d6, 0x417a1795, 0x3363376a, 0x624cde5c, 0x76e09589, 0xcac5f811,
           0xcc4b32c1, 0xf20e533a);
    LastAllRounds(WorkingOf(BETWEEN), BlockWords(block));
    hide Rounds, BlockWords, LastWords0, LastWords8;
    CompressIs(BETWEEN, block, Rounds(WorkingOf(BETWEEN), BlockWords(block), 64),
               [0x248d6a61, 0xd20638b8, 0xe5c02693, 0x0c3e6039, 0xa33ce459, 0x64ff2167, 0xf6ecedd4, 0x19db06c1]);
  }

  lemma LongHash()
    ensures HashBlocks(Padded(LONG)) == [0x248d6a61, 0xd20638b8, 0xe5c02693, 0x0c3e6039, 0xa33ce459, 0x64ff2167,
          0xf6ecedd4, 0x19db06c1]
  {
    hide Compress, HashBlocks, Padded, BlockWords, FirstWords0, FirstWords8, LastWords0, LastWords8;
    hide LONG, BETWEEN, INITIAL;
    LongPadded();
    FirstBlock(FirstBytes());
    FirstCompress(FirstBytes());
    LastBlock(LastBytes());
    LastCompress(LastBytes());
    HashTwo(FirstBytes(), LastBytes());
  }

  /** The digest of that message. */
  lemma LongDigest()
    ensures Digest(LONG) ==
            [0x24, 0x8d, 0x6a, 0x61, 0xd2, 0x06, 0x38, 0xb8] +
            [0xe5, 0xc0, 0x26, 0x93, 0x0c, 0x3e, 0x60, 0x39] +
            [0xa3, 0x3c, 0xe4, 0x59, 0x64, 0xff, 0x21, 0x67] +
            [0xf6, 0xec, 0xed, 0xd4, 0x19, 0xdb, 0x06, 0xc1]
  {
    hide HashBlocks, Padded, DigestBytes;
    LongHash();
    TwoWords(0x248d6a61, 0xd20638b8, 0x24, 0x8d, 0x6a, 0x61, 0xd2, 0x06, 0x38, 0xb8);
    TwoWords(0xe5c02693, 0x0c3e6039, 0xe5, 0xc0, 0x26, 0x93, 0x0c, 0x3e, 0x60, 0x39);
    TwoWords(0xa33ce459, 0x64ff2167, 0xa3, 0x3c, 0xe4, 0x59, 0x64, 0xff, 0x21, 0x67);
    TwoWords(0xf6ecedd4, 0x19db06c1, 0xf6, 0xec, 0xed, 0xd4, 0x19, 0xdb, 0x06, 0xc1);
    var h0: seq<bv32> := [0x248d6a61, 0xd20638b8];
    var h1: seq<bv32> := [0xe5c02693, 0x0c3e6039];
    var h2: seq<bv32> := [0xa33ce459, 0x64ff2167];
    var h3: seq<bv32> := [0xf6ecedd4, 0x19db06c1];
    DigestConcat(h0, h1);
    DigestConcat(h0 + h1, h2);
    DigestConcat(h0 + h1 + h2, h3);
    assert HashBlocks(Padded(LONG)) == h0 + h1 + h2 + h3;
  }
}

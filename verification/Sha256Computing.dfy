/**
 Computing with the operations of SHA-256 on literal words. Each lemma takes the intermediate results
 as parameters that default to the operation itself, so that a call on literals is decided one
 operation at a time.
 */
module Sha256Computing {
  import opened Sha256

  predicate IsRotr(x: bv32, n: bv6, r: bv32)
    requires 0 < n < 32
  {
    (x >> n) | (x << (32 - n)) == r
  }

  predicate IsXor3(x: bv32, y: bv32, z: bv32, r: bv32) {
    x ^ y ^ z == r
  }

  predicate IsSum(x: bv32, y: bv32, r: bv32) {
    x + y == r
  }

  predicate IsCh(x: bv32, y: bv32, z: bv32, r: bv32) {
    (x & y) ^ (!x & z) == r
  }

  predicate IsMaj(x: bv32, y: bv32, z: bv32, r: bv32) {
    (x & y) ^ (x & z) ^ (y & z) == r
  }

  lemma Sums(x: bv32, y: bv32, r: bv32)
    requires IsSum(x, y, r)
    ensures Plus(x, y) == r
  {
  }

  lemma Rotated(x: bv32, n: bv6, r: bv32)
    requires 0 < n < 32 && IsRotr(x, n, r)
    ensures Rotr(x, n) == r
  {
  }

  lemma Mixed(x: bv32, y: bv32, z: bv32, r: bv32)
    requires IsXor3(x, y, z, r)
    ensures Xor3(x, y, z) == r
  {
  }

  lemma Chosen(x: bv32, y: bv32, z: bv32, r: bv32)
    requires IsCh(x, y, z, r)
    ensures Ch(x, y, z) == r
  {
  }

  lemma Voted(x: bv32, y: bv32, z: bv32, r: bv32)
    requires IsMaj(x, y, z, r)
    ensures Maj(x, y, z) == r
  {
  }

  lemma RoundIs(a: bv32, b: bv32, c: bv32, d: bv32, e: bv32, f: bv32, g: bv32, h: bv32, k: bv32, w: bv32,
                r1: bv32 := (e >> 6) | (e << 26), r2: bv32 := (e >> 11) | (e << 21), r3: bv32 := (e >> 25) | (e << 7),
                s1: bv32 := r1 ^ r2 ^ r3, ch: bv32 := (e & f) ^ (!e & g),
                x1: bv32 := h + s1, x2: bv32 := x1 + ch, x3: bv32 := x2 + k, t1: bv32 := x3 + w,
                r4: bv32 := (a >> 2) | (a << 30), r5: bv32 := (a >> 13) | (a << 19), r6: bv32 := (a >> 22) | (a << 10),
                s0: bv32 := r4 ^ r5 ^ r6, mj: bv32 := (a & b) ^ (a & c) ^ (b & c),
                t2: bv32 := s0 + mj, a': bv32 := t1 + t2, e': bv32 := d + t1)
    requires IsRotr(e, 6, r1) && IsRotr(e, 11, r2) && IsRotr(e, 25, r3) && IsXor3(r1, r2, r3, s1) && IsCh(e, f, g, ch)
    requires IsSum(h, s1, x1) && IsSum(x1, ch, x2) && IsSum(x2, k, x3) && IsSum(x3, w, t1)
    requires IsRotr(a, 2, r4) && IsRotr(a, 13, r5) && IsRotr(a, 22, r6) && IsXor3(r4, r5, r6, s0) && IsMaj(a, b, c, mj)
    requires IsSum(s0, mj, t2) && IsSum(t1, t2, a') && IsSum(d, t1, e')
    ensures Round(Working(a, b, c, d, e, f, g, h), k, w) == Working(a', a, b, c, e', e, f, g)
  {
    hide Plus, Rotr, Xor3, Ch, Maj, IsRotr, IsXor3, IsSum, IsCh, IsMaj;
    Rotated(e, 6, r1);
    Rotated(e, 11, r2);
    Rotated(e, 25, r3);
    Mixed(r1, r2, r3, s1);
    Chosen(e, f, g, ch);
    Sums(h, s1, x1);
    Sums(x1, ch, x2);
    Sums(x2, k, x3);
    Sums(x3, w, t1);
    Rotated(a, 2, r4);
    Rotated(a, 13, r5);
    Rotated(a, 22, r6);
    Mixed(r4, r5, r6, s0);
    Voted(a, b, c, mj);
    Sums(s0, mj, t2);
    Sums(t1, t2, a');
    Sums(d, t1, e');
  }

  /** One more round on literal operands. */
  lemma Step(v: Working, words: seq<bv32>, t: nat,
             a: bv32, b: bv32, c: bv32, d: bv32, e: bv32, f: bv32, g: bv32, h: bv32, k: bv32, w: bv32,
             r1: bv32 := (e >> 6) | (e << 26), r2: bv32 := (e >> 11) | (e << 21), r3: bv32 := (e >> 25) | (e << 7),
             s1: bv32 := r1 ^ r2 ^ r3, ch: bv32 := (e & f) ^ (!e & g),
             x1: bv32 := h + s1, x2: bv32 := x1 + ch, x3: bv32 := x2 + k, t1: bv32 := x3 + w,
             r4: bv32 := (a >> 2) | (a << 30), r5: bv32 := (a >> 13) | (a << 19), r6: bv32 := (a >> 22) | (a << 10),
             s0: bv32 := r4 ^ r5 ^ r6, mj: bv32 := (a & b) ^ (a & c) ^ (b & c),
             t2: bv32 := s0 + mj, a': bv32 := t1 + t2, e': bv32 := d + t1)
    requires |words| == 16 && t < |K| == 64 && Rounds(v, words, t) == Working(a, b, c, d, e, f, g, h)
    requires K[t] == k && Schedule(words, t) == w
    requires IsRotr(e, 6, r1) && IsRotr(e, 11, r2) && IsRotr(e, 25, r3) && IsXor3(r1, r2, r3, s1) && IsCh(e, f, g, ch)
    requires IsSum(h, s1, x1) && IsSum(x1, ch, x2) && IsSum(x2, k, x3) && IsSum(x3, w, t1)
    requires IsRotr(a, 2, r4) && IsRotr(a, 13, r5) && IsRotr(a, 22, r6) && IsXor3(r4, r5, r6, s0) && IsMaj(a, b, c, mj)
    requires IsSum(s0, mj, t2) && IsSum(t1, t2, a') && IsSum(d, t1, e')
    ensures Rounds(v, words, t + 1) == Working(a', a, b, c, e', e, f, g)
  {
    hide K, Schedule, Round;
    RoundIs(a, b, c, d, e, f, g, h, k, w, r1, r2, r3, s1, ch, x1, x2, x3, t1, r4, r5, r6, s0, mj, t2, a', e');
  }

  predicate IsShift(x: bv32, n: bv6, r: bv32)
    requires n < 32
  {
    x >> n == r
  }

  lemma SmallSigma0Is(x: bv32, r1: bv32, r2: bv32, r3: bv32, s: bv32)
    requires IsRotr(x, 7, r1) && IsRotr(x, 18, r2) && IsShift(x, 3, r3) && IsXor3(r1, r2, r3, s)
    ensures SmallSigma0(x) == s
  {
    Rotated(x, 7, r1);
    Rotated(x, 18, r2);
    Mixed(r1, r2, r3, s);
    hide Rotr, Xor3, IsRotr, IsXor3;
  }

  lemma SmallSigma1Is(x: bv32, r1: bv32, r2: bv32, r3: bv32, s: bv32)
    requires IsRotr(x, 17, r1) && IsRotr(x, 19, r2) && IsShift(x, 10, r3) && IsXor3(r1, r2, r3, s)
    ensures SmallSigma1(x) == s
  {
    Rotated(x, 17, r1);
    Rotated(x, 19, r2);
    Mixed(r1, r2, r3, s);
    hide Rotr, Xor3, IsRotr, IsXor3;
  }

  /** One more schedule word on literal operands. */
  lemma NextSchedule(words: seq<bv32>, t: nat, w16: bv32, w15: bv32, w7: bv32, w2: bv32,
                     r1: bv32 := (w15 >> 7) | (w15 << 25), r2: bv32 := (w15 >> 18) | (w15 << 14), r3: bv32 := w15 >> 3,
                     s0: bv32 := r1 ^ r2 ^ r3,
                     r4: bv32 := (w2 >> 17) | (w2 << 15), r5: bv32 := (w2 >> 19) | (w2 << 13), r6: bv32 := w2 >> 10,
                     s1: bv32 := r4 ^ r5 ^ r6,
                     x1: bv32 := w16 + s0, x2: bv32 := x1 + w7, w: bv32 := x2 + s1)
    requires |words| == 16 && t >= 16
    requires Schedule(words, t - 16) == w16 && Schedule(words, t - 15) == w15
    requires Schedule(words, t - 7) == w7 && Schedule(words, t - 2) == w2
    requires IsRotr(w15, 7, r1) && IsRotr(w15, 18, r2) && IsShift(w15, 3, r3) && IsXor3(r1, r2, r3, s0)
    requires IsRotr(w2, 17, r4) && IsRotr(w2, 19, r5) && IsShift(w2, 10, r6) && IsXor3(r4, r5, r6, s1)
    requires IsSum(w16, s0, x1) && IsSum(x1, w7, x2) && IsSum(x2, s1, w)
    ensures Schedule(words, t) == w
  {
    hide Plus, SmallSigma0, SmallSigma1, IsRotr, IsShift, IsXor3, IsSum;
    SmallSigma0Is(w15, r1, r2, r3, s0);
    SmallSigma1Is(w2, r4, r5, r6, s1);
    Sums(w16, s0, x1);
    Sums(x1, w7, x2);
    Sums(x2, s1, w);
  }

  // ---------- The round constants, eight at a time ----------

  lemma Constants0()
    ensures |K| == 64
    ensures K[0] == 0x428a2f98 && K[1] == 0x71374491 && K[2] == 0xb5c0fbcf && K[3] == 0xe9b5dba5
    ensures K[4] == 0x3956c25b && K[5] == 0x59f111f1 && K[6] == 0x923f82a4 && K[7] == 0xab1c5ed5
  {
  }

  lemma Constants8()
    ensures |K| == 64
    ensures K[8] == 0xd807aa98 && K[9] == 0x12835b01 && K[10] == 0x243185be && K[11] == 0x550c7dc3
    ensures K[12] == 0x72be5d74 && K[13] == 0x80deb1fe && K[14] == 0x9bdc06a7 && K[15] == 0xc19bf174
  {
  }

  lemma Constants16()
    ensures |K| == 64
    ensures K[16] == 0xe49b69c1 && K[17] == 0xefbe4786 && K[18] == 0x0fc19dc6 && K[19] == 0x240ca1cc
    ensures K[20] == 0x2de92c6f && K[21] == 0x4a7484aa && K[22] == 0x5cb0a9dc && K[23] == 0x76f988da
  {
  }

  lemma Constants24()
    ensures |K| == 64
    ensures K[24] == 0x983e5152 && K[25] == 0xa831c66d && K[26] == 0xb00327c8 && K[27] == 0xbf597fc7
    ensures K[28] == 0xc6e00bf3 && K[29] == 0xd5a79147 && K[30] == 0x06ca6351 && K[31] == 0x14292967
  {
  }

  lemma Constants32()
    ensures |K| == 64
    ensures K[32] == 0x27b70a85 && K[33] == 0x2e1b2138 && K[34] == 0x4d2c6dfc && K[35] == 0x53380d13
    ensures K[36] == 0x650a7354 && K[37] == 0x766a0abb && K[38] == 0x81c2c92e && K[39] == 0x92722c85
  {
  }

  lemma Constants40()
    ensures |K| == 64
    ensures K[40] == 0xa2bfe8a1 && K[41] == 0xa81a664b && K[42] == 0xc24b8b70 && K[43] == 0xc76c51a3
    ensures K[44] == 0xd192e819 && K[45] == 0xd6990624 && K[46] == 0xf40e3585 && K[47] == 0x106aa070
  {
  }

  lemma Constants48()
    ensures |K| == 64
    ensures K[48] == 0x19a4c116 && K[49] == 0x1e376c08 && K[50] == 0x2748774c && K[51] == 0x34b0bcb5
    ensures K[52] == 0x391c0cb3 && K[53] == 0x4ed8aa4a && K[54] == 0x5b9cca4f && K[55] == 0x682e6ff3
  {
  }

  lemma Constants56()
    ensures |K| == 64
    ensures K[56] == 0x748f82ee && K[57] == 0x78a5636f && K[58] == 0x84c87814 && K[59] == 0x8cc70208
    ensures K[60] == 0x90befffa && K[61] == 0xa4506ceb && K[62] == 0xbef9a3f7 && K[63] == 0xc67178f2
  {
  }

  // ---------- Between bytes and words ----------

  predicate IsWord(b0: bv8, b1: bv8, b2: bv8, b3: bv8, w: bv32) {
    ((b0 as bv32) << 24) | ((b1 as bv32) << 16) | ((b2 as bv32) << 8) | (b3 as bv32) == w
  }

  /** Word i of a block. */
  lemma WordAt(block: seq<bv8>, i: nat, b0: bv8, b1: bv8, b2: bv8, b3: bv8, w: bv32)
    requires |block| == 64 && i < 16 && IsWord(b0, b1, b2, b3, w)
    requires block[i * 4] == b0 && block[i * 4 + 1] == b1 && block[i * 4 + 2] == b2 && block[i * 4 + 3] == b3
    ensures Schedule(BlockWords(block), i) == w
  {
  }

  predicate AreBytes(x: bv32, b0: bv8, b1: bv8, b2: bv8, b3: bv8) {
    x >> 24 == b0 as bv32 && (x >> 16) & 0xFF == b1 as bv32 && (x >> 8) & 0xFF == b2 as bv32 && x & 0xFF == b3 as bv32
  }

  lemma BytesOfWord(x: bv32, b0: bv8, b1: bv8, b2: bv8, b3: bv8)
    requires AreBytes(x, b0, b1, b2, b3)
    ensures WordBytes(x) == [b0, b1, b2, b3]
  {
  }

  lemma {:induction false} DigestConcat(a: seq<bv32>, b: seq<bv32>)
    ensures DigestBytes(a + b) == DigestBytes(a) + DigestBytes(b)
  {
    hide WordBytes;
    if |b| == 0 {
      assert a + b == a;
    } else {
      DigestConcat(a, b[..|b| - 1]);
      assert (a + b)[..|a + b| - 1] == a + b[..|b| - 1];
    }
  }

  /** The bytes of two words of a hash value. */
  lemma TwoWords(x: bv32, y: bv32, b0: bv8, b1: bv8, b2: bv8, b3: bv8, b4: bv8, b5: bv8, b6: bv8, b7: bv8)
    requires AreBytes(x, b0, b1, b2, b3) && AreBytes(y, b4, b5, b6, b7)
    ensures DigestBytes([x, y]) == [b0, b1, b2, b3, b4, b5, b6, b7]
  {
    BytesOfWord(x, b0, b1, b2, b3);
    BytesOfWord(y, b4, b5, b6, b7);
    hide WordBytes, AreBytes;
    assert [x, y][..1] == [x] && [x][..0] == [];
    assert DigestBytes([x]) == WordBytes(x);
  }

  lemma ByteOfInt(n: nat, b: bv8)
    requires n % 256 == b as int
    ensures ByteOf(n, 0) == b
  {
  }

  /** The length field of a message of at most 8191 bytes. */
  lemma ShortLength(bits: nat, high: bv8, low: bv8)
    requires bits == 256 * (high as int) + low as int
    ensures LengthBytes(bits) == [0, 0, 0, 0, 0, 0, high, low]
  {
    hide ByteOf;
    LowBytes(bits, high, low);
    HighBytes(bits, 2);
    HighBytes(bits, 3);
    HighBytes(bits, 4);
    HighBytes(bits, 5);
    HighBytes(bits, 6);
    HighBytes(bits, 7);
  }

  lemma LowBytes(bits: nat, high: bv8, low: bv8)
    requires bits == 256 * (high as int) + low as int
    ensures ByteOf(bits, 0) == low && ByteOf(bits, 1) == high && bits < 65536
  {
    hide ByteOf;
    TwoDigits(bits, high as int, low as int);
    ByteOfInt(bits, low);
    ByteOfInt(bits / 256, high);
    NextByte(bits, 0);
  }

  lemma TwoDigits(n: nat, high: nat, low: nat)
    requires n == 256 * high + low && high < 256 && low < 256
    ensures n % 256 == low && n / 256 == high && n / 256 % 256 == high && n < 65536
  {
  }

  lemma NextByte(n: nat, i: nat)
    ensures ByteOf(n, i + 1) == ByteOf(n / 256, i)
  {
  }

  lemma {:induction false} ZeroBytes(i: nat)
    ensures ByteOf(0, i) == 0
  {
    if i == 0 { ByteOfInt(0, 0); } else { ZeroBytes(i - 1); }
  }

  lemma HighBytes(n: nat, i: nat)
    requires n < 65536 && i >= 2
    ensures ByteOf(n, i) == 0
  {
    NextByte(n, i - 1);
    NextByte(n / 256, i - 2);
    ZeroBytes(i - 2);
  }

  lemma HashOne(block: seq<bv8>)
    requires |block| == 64
    ensures HashBlocks(block) == Compress(INITIAL, block)
  {
    hide Compress;
    assert block[..0] == [] && block[0..] == block;
  }

  lemma HashTwo(first: seq<bv8>, last: seq<bv8>)
    requires |first| == |last| == 64
    ensures HashBlocks(first + last) == Compress(Compress(INITIAL, first), last)
  {
    HashOne(first);
    hide Compress;
    assert (first + last)[..64] == first && (first + last)[64..] == last;
  }

  /** The hash value after a block, from the working variables after its rounds. */
  lemma CompressIs(h: seq<bv32>, block: seq<bv8>, v: Working, r: seq<bv32>)
    requires |h| == 8 && |block| == 64 && |r| == 8 && v == Rounds(WorkingOf(h), BlockWords(block), |K|)
    requires IsSum(h[0], v.a, r[0]) && IsSum(h[1], v.b, r[1]) && IsSum(h[2], v.c, r[2]) && IsSum(h[3], v.d, r[3])
    requires IsSum(h[4], v.e, r[4]) && IsSum(h[5], v.f, r[5]) && IsSum(h[6], v.g, r[6]) && IsSum(h[7], v.h, r[7])
    ensures Compress(h, block) == r
  {
    hide Plus, Rounds, BlockWords, IsSum;
    Sums(h[0], v.a, r[0]);
    Sums(h[1], v.b, r[1]);
    Sums(h[2], v.c, r[2]);
    Sums(h[3], v.d, r[3]);
    Sums(h[4], v.e, r[4]);
    Sums(h[5], v.f, r[5]);
    Sums(h[6], v.g, r[6]);
    Sums(h[7], v.h, r[7]);
  }
}

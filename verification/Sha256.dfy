/**
 The hash function of FIPS 180-4, sections 4.1.2, 4.2.2, 5.1.1, 5.2.1, 5.3.3 and 6.2.2, on whole messages.
 Words are 32-bit vectors; a message is a sequence of bytes.
 */
module Sha256 {
  const K: seq<bv32> :=
    [0x428a2f98, 0x71374491, 0xb5c0fbcf, 0xe9b5dba5, 0x3956c25b, 0x59f111f1, 0x923f82a4, 0xab1c5ed5] +
    [0xd807aa98, 0x12835b01, 0x243185be, 0x550c7dc3, 0x72be5d74, 0x80deb1fe, 0x9bdc06a7, 0xc19bf174] +
    [0xe49b69c1, 0xefbe4786, 0x0fc19dc6, 0x240ca1cc, 0x2de92c6f, 0x4a7484aa, 0x5cb0a9dc, 0x76f988da] +
    [0x983e5152, 0xa831c66d, 0xb00327c8, 0xbf597fc7, 0xc6e00bf3, 0xd5a79147, 0x06ca6351, 0x14292967] +
    [0x27b70a85, 0x2e1b2138, 0x4d2c6dfc, 0x53380d13, 0x650a7354, 0x766a0abb, 0x81c2c92e, 0x92722c85] +
    [0xa2bfe8a1, 0xa81a664b, 0xc24b8b70, 0xc76c51a3, 0xd192e819, 0xd6990624, 0xf40e3585, 0x106aa070] +
    [0x19a4c116, 0x1e376c08, 0x2748774c, 0x34b0bcb5, 0x391c0cb3, 0x4ed8aa4a, 0x5b9cca4f, 0x682e6ff3] +
    [0x748f82ee, 0x78a5636f, 0x84c87814, 0x8cc70208, 0x90befffa, 0xa4506ceb, 0xbef9a3f7, 0xc67178f2]

  const INITIAL: seq<bv32> := [0x6a09e667, 0xbb67ae85, 0x3c6ef372, 0xa54ff53a,
                               0x510e527f, 0x9b05688c, 0x1f83d9ab, 0x5be0cd19]

  /** Addition modulo 2^32. */
  function Plus(x: bv32, y: bv32): bv32 {
    x + y
  }

  function Rotr(x: bv32, n: bv6): bv32
    requires 0 < n < 32
  {
    (x >> n) | (x << (32 - n))
  }

  function Ch(x: bv32, y: bv32, z: bv32): bv32 {
    (x & y) ^ (!x & z)
  }

  function Maj(x: bv32, y: bv32, z: bv32): bv32 {
    (x & y) ^ (x & z) ^ (y & z)
  }

  /** The exclusive or of three words. */
  function Xor3(x: bv32, y: bv32, z: bv32): bv32 {
    x ^ y ^ z
  }

  function BigSigma0(x: bv32): bv32 {
    Xor3(Rotr(x, 2), Rotr(x, 13), Rotr(x, 22))
  }

  function BigSigma1(x: bv32): bv32 {
    Xor3(Rotr(x, 6), Rotr(x, 11), Rotr(x, 25))
  }

  function SmallSigma0(x: bv32): bv32 {
    Xor3(Rotr(x, 7), Rotr(x, 18), x >> 3)
  }

  function SmallSigma1(x: bv32): bv32 {
    Xor3(Rotr(x, 17), Rotr(x, 19), x >> 10)
  }

  /** Four bytes, big-endian. */
  function WordOfBytes(b0: bv8, b1: bv8, b2: bv8, b3: bv8): bv32 {
    ((b0 as bv32) << 24) | ((b1 as bv32) << 16) | ((b2 as bv32) << 8) | (b3 as bv32)
  }

  /** The sixteen words of a 64-byte block. */
  function BlockWords(block: seq<bv8>): (r: seq<bv32>)
    requires |block| == 64
    ensures |r| == 16
  {
    seq(16, i requires 0 <= i < 16 => WordOfBytes(block[i * 4], block[i * 4 + 1], block[i * 4 + 2], block[i * 4 + 3]))
  }

  /** A schedule word from the words 16, 15, 7 and 2 places before it. */
  function NextWord(w16: bv32, w15: bv32, w7: bv32, w2: bv32): bv32 {
    Plus(Plus(Plus(w16, SmallSigma0(w15)), w7), SmallSigma1(w2))
  }

  /** Word t of the message schedule. */
  function Schedule(words: seq<bv32>, t: nat): bv32
    requires |words| == 16
  {
    if t < 16 then words[t]
    else NextWord(Schedule(words, t - 16), Schedule(words, t - 15), Schedule(words, t - 7), Schedule(words, t - 2))
  }

  /** The eight working variables. */
  datatype Working = Working(a: bv32, b: bv32, c: bv32, d: bv32, e: bv32, f: bv32, g: bv32, h: bv32)

  function Round(v: Working, k: bv32, w: bv32): Working {
    var t1 := Plus(Plus(Plus(Plus(v.h, BigSigma1(v.e)), Ch(v.e, v.f, v.g)), k), w);
    var t2 := Plus(BigSigma0(v.a), Maj(v.a, v.b, v.c));
    Working(Plus(t1, t2), v.a, v.b, v.c, Plus(v.d, t1), v.e, v.f, v.g)
  }

  function Rounds(v: Working, words: seq<bv32>, t: nat): Working
    requires |words| == 16 && t <= |K|
  {
    if t == 0 then v else Round(Rounds(v, words, t - 1), K[t - 1], Schedule(words, t - 1))
  }

  function WorkingOf(h: seq<bv32>): Working
    requires |h| == 8
  {
    Working(h[0], h[1], h[2], h[3], h[4], h[5], h[6], h[7])
  }

  /** The next hash value after one block. */
  function Compress(h: seq<bv32>, block: seq<bv8>): (r: seq<bv32>)
    requires |h| == 8 && |block| == 64
    ensures |r| == 8
  {
    var v := Rounds(WorkingOf(h), BlockWords(block), |K|);
    [Plus(h[0], v.a), Plus(h[1], v.b), Plus(h[2], v.c), Plus(h[3], v.d),
     Plus(h[4], v.e), Plus(h[5], v.f), Plus(h[6], v.g), Plus(h[7], v.h)]
  }

  /** The hash value after all whole blocks of a byte string. */
  function HashBlocks(bytes: seq<bv8>): (r: seq<bv32>)
    ensures |r| == 8
  {
    if |bytes| < 64 then INITIAL
    else Compress(HashBlocks(bytes[..|bytes| - 64]), bytes[|bytes| - 64..])
  }

  function Zeros(n: nat): (r: seq<bv8>)
    ensures |r| == n
  {
    seq(n, _ => 0)
  }

  /** Byte i, from the low end, of an integer. */
  function ByteOf(x: nat, i: nat): bv8 {
    if i == 0 then (x % 256) as bv8 else ByteOf(x / 256, i - 1)
  }

  /** The low 64 bits of an integer, big-endian. */
  function LengthBytes(x: nat): (r: seq<bv8>)
    ensures |r| == 8
  {
    [ByteOf(x, 7), ByteOf(x, 6), ByteOf(x, 5), ByteOf(x, 4), ByteOf(x, 3), ByteOf(x, 2), ByteOf(x, 1), ByteOf(x, 0)]
  }

  /** n message bytes, the marker byte and k zeros leave room for the length in a last block. */
  predicate LeavesEight(n: nat, k: nat) {
    (n + 1 + k) % 64 == 56
  }

  /** The least number of zero bytes that does so. */
  function PaddingLength(n: nat): (k: nat)
    ensures LeavesEight(n, k)
    ensures forall j: nat :: LeavesEight(n, j) ==> k <= j
  {
    (119 - n % 64) % 64
  }

  /** The padded message. */
  function Padded(m: seq<bv8>): (r: seq<bv8>) {
    m + [0x80] + Zeros(PaddingLength(|m|)) + LengthBytes(8 * |m|)
  }

  function WordBytes(x: bv32): (r: seq<bv8>)
    ensures |r| == 4
  {
    [(x >> 24) as bv8, ((x >> 16) & 0xFF) as bv8, ((x >> 8) & 0xFF) as bv8, (x & 0xFF) as bv8]
  }

  function DigestBytes(h: seq<bv32>): (r: seq<bv8>) {
    if |h| == 0 then [] else DigestBytes(h[..|h| - 1]) + WordBytes(h[|h| - 1])
  }

  /** The digest of a message; the standard defines it for messages shorter than 2^64 bits. */
  function Digest(m: seq<bv8>): seq<bv8> {
    DigestBytes(HashBlocks(Padded(m)))
  }
}

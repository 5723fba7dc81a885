/** The incremental hash context: sha256_transform, sha256_init, sha256_update, sha256_final and sha256_verify. */
module Sha256Stream {
  import opened Indexing
  import opened Sha256

  /** The context after hashing the whole blocks of m, with the remaining bytes waiting in the block buffer. */
  ghost predicate Absorbed(m: seq<bv8>, h: seq<bv32>, waiting: seq<bv8>) {
    |waiting| < 64 && |waiting| <= |m| && |waiting| == |m| % 64
    && waiting == m[|m| - |waiting|..] && h == HashBlocks(m[..|m| - |waiting|])
  }

  lemma BlockAppended(m: seq<bv8>, block: seq<bv8>)
    requires |block| == 64
    ensures HashBlocks(m + block) == Compress(HashBlocks(m), block)
  {
    var all := m + block;
    assert all[..|all| - 64] == m && all[|all| - 64..] == block;
  }

  /** One more byte, and a compression when it fills the block. */
  lemma AbsorbByte(m: seq<bv8>, h: seq<bv32>, waiting: seq<bv8>, b: bv8)
    requires Absorbed(m, h, waiting)
    ensures |waiting| + 1 < 64 ==> Absorbed(m + [b], h, waiting + [b])
    ensures |waiting| + 1 == 64 ==> |h| == 8 && Absorbed(m + [b], Compress(h, waiting + [b]), [])
  {
    hide HashBlocks;
    hide Compress;
    var whole := m[..|m| - |waiting|];
    assert m == whole + waiting;
    if |waiting| + 1 == 64 {
      BlockAppended(whole, waiting + [b]);
      assert m + [b] == whole + (waiting + [b]);
      assert (m + [b])[..|m| + 1] == m + [b];
    } else {
      assert (m + [b])[..|m| - |waiting|] == whole;
    }
  }

  // ---------- One block ----------

  lemma ScheduleStep(words: seq<bv32>, t: nat)
    requires |words| == 16
    ensures t < 16 ==> Schedule(words, t) == words[t]
    ensures t >= 16 ==> Schedule(words, t) == NextWord(Schedule(words, t - 16), Schedule(words, t - 15),
                                                       Schedule(words, t - 7), Schedule(words, t - 2))
  {
  }

  /** The message schedule w[0..64]. */
  method ExpandBlock(block: seq<bv8>) returns (w: array<bv32>)
    requires |block| == 64
    ensures fresh(w) && w.Length == 64 && forall t :: 0 <= t < 64 ==> w[t] == Schedule(BlockWords(block), t)
  {
    hide NextWord;
    hide WordOfBytes;
    hide Schedule;
    ghost var words := BlockWords(block);
    w := new bv32[64](_ => 0);
    for i := 0 to 16
      invariant forall t :: 0 <= t < i ==> w[t] == Schedule(words, t)
    {
      w[i] := WordOfBytes(block[i * 4], block[i * 4 + 1], block[i * 4 + 2], block[i * 4 + 3]);
      ScheduleStep(words, i);
    }
    for i := 16 to 64
      invariant forall t :: 0 <= t < i ==> w[t] == Schedule(words, t)
    {
      w[i] := NextWord(w[i - 16], w[i - 15], w[i - 7], w[i - 2]);
      ScheduleStep(words, i);
    }
  }

  lemma RoundsStep(v: Working, words: seq<bv32>, t: nat)
    requires |words| == 16 && t < |K|
    ensures Rounds(v, words, t + 1) == Round(Rounds(v, words, t), K[t], Schedule(words, t))
    ensures Rounds(v, words, 0) == v
  {
    hide Round;
    hide K;
  }

  lemma CompressOfRounds(h: seq<bv32>, block: seq<bv8>, v: Working)
    requires |h| == 8 && |block| == 64 && v == Rounds(WorkingOf(h), BlockWords(block), |K|)
    ensures Compress(h, block) == [Plus(h[0], v.a), Plus(h[1], v.b), Plus(h[2], v.c), Plus(h[3], v.d),
                                   Plus(h[4], v.e), Plus(h[5], v.f), Plus(h[6], v.g), Plus(h[7], v.h)]
  {
    hide Rounds;
    hide Plus;
    hide K;
  }

  lemma Constants()
    ensures |K| == 64
  {
  }

  /** The 64 rounds. */
  method RunRounds(v: Working, block: seq<bv8>) returns (r: Working)
    requires |block| == 64
    ensures r == Rounds(v, BlockWords(block), |K|)
  {
    Constants();
    hide Schedule;
    hide BlockWords;
    hide K;
    hide Plus;
    hide BigSigma0;
    hide BigSigma1;
    hide Ch;
    hide Maj;
    hide Rounds;
    var w := ExpandBlock(block);
    ghost var words := BlockWords(block);
    var Working(a, b, c, d, e, f, g, h) := v;
    RoundsStep(v, words, 0);
    for i := 0 to 64
      modifies {}
      invariant Working(a, b, c, d, e, f, g, h) == Rounds(v, words, i)
    {
      RoundsStep(v, words, i);
      var t1 := Plus(Plus(Plus(Plus(h, BigSigma1(e)), Ch(e, f, g)), K[i]), w[i]);
      var t2 := Plus(BigSigma0(a), Maj(a, b, c));
      h, g, f, e, d, c, b, a := g, f, e, Plus(d, t1), c, b, a, Plus(t1, t2);
    }
    r := Working(a, b, c, d, e, f, g, h);
  }

  /** sha256_transform: the state array is replaced by the next hash value. */
  method Transform(state: array<bv32>, block: seq<bv8>)
    requires state.Length == 8 && |block| == 64
    modifies state
    ensures state[..] == Compress(old(state[..]), block)
  {
    hide Plus;
    hide Rounds;
    hide Compress;
    hide BlockWords;
    hide K;
    ghost var h0 := state[..];
    var v := RunRounds(Working(state[0], state[1], state[2], state[3], state[4], state[5], state[6], state[7]), block);
    CompressOfRounds(h0, block, v);
    state[0], state[1], state[2], state[3] :=
      Plus(state[0], v.a), Plus(state[1], v.b), Plus(state[2], v.c), Plus(state[3], v.d);
    state[4], state[5], state[6], state[7] :=
      Plus(state[4], v.e), Plus(state[5], v.f), Plus(state[6], v.g), Plus(state[7], v.h);
  }

  // ---------- The context ----------

  class SHA256Ctx {
    const state: array<bv32>
    const block: array<bv8>
    const digest: array<bv8>
    var blockIdx: int
    /** uint64_t */
    var bitlen: int
    var finalized: bool
    /** Everything hashed since the context was initialised. */
    ghost var message: seq<bv8>

    ghost predicate Valid()
      reads this, state, block, digest
    {
      && state.Length == 8 && block.Length == 64 && digest.Length == 32 && block != digest
      && bitlen == 8 * |message| % 0x1_0000_0000_0000_0000
      && (!finalized ==> 0 <= blockIdx < 64 && Absorbed(message, state[..], block[..blockIdx]))
      && (finalized ==> digest[..] == Digest(message))
    }

    constructor ()
      ensures Valid() && !finalized && message == [] && fresh(state) && fresh(block) && fresh(digest)
    {
      state := new bv32[8];
      block := new bv8[64](_ => 0);
      digest := new bv8[32](_ => 0);
      new;
      Init();
    }

    /** sha256_init: any context can be started afresh. */
    method Init()
      requires state.Length == 8 && block.Length == 64 && digest.Length == 32 && block != digest
      modifies this, state
      ensures Valid() && !finalized && message == []
    {
      state[0], state[1], state[2], state[3] := 0x6a09e667, 0xbb67ae85, 0x3c6ef372, 0xa54ff53a;
      state[4], state[5], state[6], state[7] := 0x510e527f, 0x9b05688c, 0x1f83d9ab, 0x5be0cd19;
      bitlen, blockIdx, finalized := 0, 0, false;
      message := [];
      assert state[..] == INITIAL;
    }

    /** sha256_update: appends to the message, unless the context is finalized. */
    method Update(data: seq<bv8>)
      requires Valid()
      modifies this, state, block
      ensures Valid() && finalized == old(finalized)
      ensures message == if finalized then old(message) else old(message) + data
    {
      if finalized {
        return;
      }
      for i := 0 to |data|
        invariant Valid() && !finalized && message == old(message) + data[..i]
      {
        hide Absorbed;
        PushByte(data[i]);
        assert data[..i] + [data[i]] == data[..i + 1];
      }
      assert data[..|data|] == data;
    }

    /** The body of the update loop. */
    method PushByte(b: bv8)
      requires Valid() && !finalized
      modifies this, state, block
      ensures Valid() && !finalized && message == old(message) + [b]
    {
      hide Absorbed;
      hide Compress;
      hide HashBlocks;
      hide Digest;
      ghost var h, waiting := state[..], block[..blockIdx] + [b];
      AbsorbByte(message, h, block[..blockIdx], b);
      block[blockIdx] := b;
      blockIdx := blockIdx + 1;
      assert block[..blockIdx] == waiting && state[..] == h;
      bitlen := (bitlen + 8) % 0x1_0000_0000_0000_0000;
      message := message + [b];
      if blockIdx == 64 {
        assert block[..] == waiting;
        Transform(state, block[..]);
        blockIdx := 0;
        assert block[..0] == [];
      }
    }

    /** Zeros from the block index up to the given end. */
    method ZeroFill(end: int)
      requires block.Length == 64 && 0 <= blockIdx <= end <= 64
      modifies this`blockIdx, block
      ensures blockIdx == end && block[..end] == old(block[..blockIdx]) + Zeros(end - old(blockIdx))
    {
      while blockIdx < end
        invariant old(blockIdx) <= blockIdx <= end
        invariant block[..blockIdx] == old(block[..blockIdx]) + Zeros(blockIdx - old(blockIdx))
      {
        block[blockIdx] := 0;
        blockIdx := blockIdx + 1;
      }
    }

    /** The length, big-endian, in the last eight bytes of the block. */
    method PutLength()
      requires block.Length == 64 && 0 <= bitlen
      modifies block
      ensures block[..] == old(block[..56]) + LengthBytes(bitlen)
    {
      for i := 0 to 8
        invariant block[..56 + i] == old(block[..56]) + LengthBytes(bitlen)[..i]
      {
        block[56 + i] := ByteOf(bitlen, 7 - i);
        LengthByte(bitlen, i);
      }
      assert block[..64] == block[..];
    }

    /** The digest: the state words, big-endian. */
    method PutDigest()
      requires state.Length == 8 && digest.Length == 32
      modifies digest
      ensures digest[..] == DigestBytes(state[..])
    {
      hide WordBytes;
      for i := 0 to 8
        invariant digest[..4 * i] == DigestBytes(state[..i])
      {
        var bytes := WordBytes(state[i]);
        digest[i * 4], digest[i * 4 + 1], digest[i * 4 + 2], digest[i * 4 + 3] :=
          bytes[0], bytes[1], bytes[2], bytes[3];
        assert state[..i + 1][..i] == state[..i];
        assert digest[..4 * (i + 1)] == DigestBytes(state[..i]) + bytes;
      }
      assert state[..8] == state[..] && digest[..32] == digest[..];
    }

    /** The marker byte, and zeros up to the block's end if the length no longer fits behind it. */
    method PutMarker()
      requires state.Length == 8 && block.Length == 64 && 0 <= blockIdx < 64
      modifies this`blockIdx, state, block
      ensures 0 <= blockIdx <= 56
      ensures old(blockIdx) < 56 ==> block[..blockIdx] == old(block[..blockIdx]) + [0x80] && state[..] == old(state[..])
      ensures old(blockIdx) >= 56 ==>
                blockIdx == 0 &&
                state[..] == Compress(old(state[..]), old(block[..blockIdx]) + [0x80] + Zeros(63 - old(blockIdx)))
    {
      hide Compress;
      hide Zeros;
      ghost var waiting := block[..blockIdx];
      block[blockIdx] := 0x80;
      blockIdx := blockIdx + 1;
      assert block[..blockIdx] == waiting + [0x80];
      if blockIdx > 56 {
        ZeroFill(64);
        assert block[..] == block[..64];
        Transform(state, block[..]);
        blockIdx := 0;
      }
    }

    /** Zeros, the length and the last compression. */
    method PutTail()
      requires state.Length == 8 && block.Length == 64 && 0 <= blockIdx <= 56 && 0 <= bitlen
      modifies this`blockIdx, state, block
      ensures state[..]
           == Compress(old(state[..]), old(block[..blockIdx]) + Zeros(56 - old(blockIdx)) + LengthBytes(bitlen))
    {
      hide Compress;
      hide LengthBytes;
      hide Zeros;
      ZeroFill(56);
      PutLength();
      Transform(state, block[..]);
    }

    /** Everything up to the digest: the state becomes the hash of the padded message. */
    method PutPadding(ghost m: seq<bv8>)
      requires state.Length == 8 && block.Length == 64 && 0 <= blockIdx < 64
      requires bitlen == 8 * |m| % 0x1_0000_0000_0000_0000
      requires Absorbed(m, state[..], block[..blockIdx])
      modifies this`blockIdx, state, block
      ensures state[..] == HashBlocks(Padded(m))
    {
      hide Compress;
      hide LengthBytes;
      hide HashBlocks;
      hide Padded;
      hide Zeros;
      ghost var h, waiting := state[..], block[..blockIdx];
      PutMarker();
      TwoPaddings(m, h, waiting, state[..], block[..blockIdx]);
      LengthBytesModulo(8 * |m|);
      PutTail();
    }

    /** sha256_final: the digest of everything hashed; a second call changes nothing. */
    method Final()
      requires Valid()
      modifies this, state, block, digest
      ensures Valid() && finalized && message == old(message)
    {
      if finalized {
        return;
      }
      assert Digest(message) == DigestBytes(HashBlocks(Padded(message)));
      hide Absorbed, HashBlocks, Padded, DigestBytes, Digest;
      PutPadding(message);
      PutDigest();
      finalized := true;
    }
  }

  /** Only the low 64 bits of a length are written, so the counter may wrap around. */
  lemma LengthBytesModulo(x: nat)
    ensures LengthBytes(x % 0x1_0000_0000_0000_0000) == LengthBytes(x)
  {
    assert Pow256(8) == 0x1_0000_0000_0000_0000 by {
      assert Pow256(2) == 0x1_0000 && Pow256(4) == 0x1_0000_0000 && Pow256(6) == 0x1_0000_0000_0000;
    }
    forall i: nat | i < 8
      ensures ByteOf(x % Pow256(8), i) == ByteOf(x, i)
    {
      ByteOfModulo(x, 8, i);
    }
    hide ByteOf;
  }

  function Pow256(n: nat): (r: nat)
    ensures r > 0
  {
    if n == 0 then 1 else 256 * Pow256(n - 1)
  }

  lemma {:induction false} ByteOfModulo(x: nat, n: nat, i: nat)
    requires i < n
    ensures ByteOf(x % Pow256(n), i) == ByteOf(x, i)
  {
    var p := Pow256(n - 1);
    LowDigit(x, p);
    if i > 0 {
      ByteOfModulo(x / 256, n - 1, i - 1);
    }
  }

  lemma LowDigit(x: nat, p: nat)
    requires p > 0
    ensures (x % (256 * p)) / 256 == (x / 256) % p && (x % (256 * p)) % 256 == x % 256
  {
    LowDigitOf(x, p, x / (256 * p), x % (256 * p));
  }

  lemma LowDigitOf(x: nat, p: nat, q: nat, r: nat)
    requires x == q * (256 * p) + r && r < 256 * p
    ensures r / 256 == (x / 256) % p && r % 256 == x % 256
  {
    Regrouped(q, p);
    var t := q * p;
    FloorUnique(x, 256, t + r / 256, r % 256);
    DivideInRange(r, p);
    FloorUnique(x / 256, p, q, r / 256);
  }

  lemma Regrouped(q: nat, p: nat)
    ensures q * (256 * p) == (q * p) * 256
  {
  }

  lemma DivideInRange(r: nat, p: nat)
    requires r < 256 * p
    ensures 0 <= r / 256 < p
  {
  }

  lemma LengthByte(x: nat, i: nat)
    requires i < 8
    ensures LengthBytes(x)[i] == ByteOf(x, 7 - i)
  {
  }

  /** The two ways of padding give the hash of the padded message. */
  lemma TwoPaddings(m: seq<bv8>, h: seq<bv32>, waiting: seq<bv8>, h': seq<bv32>, marked: seq<bv8>)
    requires Absorbed(m, h, waiting) && |h| == |h'| == 8
    requires |waiting| < 56 ==> marked == waiting + [0x80] && h' == h
    requires |waiting| >= 56 ==> marked == [] && h' == Compress(h, waiting + [0x80] + Zeros(63 - |waiting|))
    ensures |marked| <= 56
    ensures HashBlocks(Padded(m)) == Compress(h', marked + Zeros(56 - |marked|) + LengthBytes(8 * |m|))
  {
    hide HashBlocks;
    hide Compress;
    hide LengthBytes;
    var n, whole, tail := |waiting|, m[..|m| - |waiting|], LengthBytes(8 * |m|);
    assert m == whole + waiting;
    var last := marked + Zeros(56 - |marked|) + tail;
    if n < 56 {
      assert [0x80] + Zeros(55 - n) + tail == [0x80] + (Zeros(PaddingLength(|m|)) + tail);
      assert Padded(m) == whole + last;
      BlockAppended(whole, last);
    } else {
      var first := waiting + [0x80] + Zeros(63 - n);
      assert Zeros(PaddingLength(|m|)) == Zeros(63 - n) + Zeros(56);
      assert Padded(m) == whole + first + last;
      BlockAppended(whole, first);
      BlockAppended(whole + first, last);
    }
  }

  /** sha256_verify: the digest of the data is the expected one. */
  method Verify(data: seq<bv8>, expected: seq<bv8>) returns (ok: bool)
    requires |expected| == 32
    ensures ok <==> Digest(data) == expected
  {
    hide Digest;
    var ctx := new SHA256Ctx();
    ctx.Update(data);
    assert [] + data == data;
    ctx.Final();
    ok := SameBytes(ctx.digest, expected);
  }

  /** The comparison loop of sha256_verify. */
  method SameBytes(digest: array<bv8>, expected: seq<bv8>) returns (ok: bool)
    requires digest.Length == |expected| == 32
    ensures ok <==> digest[..] == expected
  {
    for i := 0 to 32
      invariant digest[..i] == expected[..i]
    {
      if digest[i] != expected[i] {
        assert digest[..][i] != expected[i];
        return false;
      }
    }
    assert digest[..32] == digest[..] && expected[..32] == expected;
    return true;
  }

  function Concat(chunks: seq<seq<bv8>>): seq<bv8> {
    if |chunks| == 0 then [] else Concat(chunks[..|chunks| - 1]) + chunks[|chunks| - 1]
  }

  /** However a message is cut into chunks, the context ends with the digest of the whole. */
  method HashChunks(chunks: seq<seq<bv8>>) returns (digest: seq<bv8>)
    ensures digest == Digest(Concat(chunks))
  {
    hide Digest;
    hide Absorbed;
    var ctx := new SHA256Ctx();
    for i := 0 to |chunks|
      invariant ctx.Valid() && !ctx.finalized && ctx.message == Concat(chunks[..i])
      invariant fresh(ctx) && fresh(ctx.state) && fresh(ctx.block) && fresh(ctx.digest)
    {
      ctx.Update(chunks[i]);
      assert chunks[..i + 1][..i] == chunks[..i];
    }
    assert chunks[..|chunks|] == chunks;
    ctx.Final();
    digest := ctx.digest[..];
  }
}

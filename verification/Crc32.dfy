/**
 sec_storage_crc32: the table-driven CRC against the bit-serial one, and the bursts it detects.
 A byte is fed least significant bit first (reflected CRC, section 8 of RFC 1952).
 */
module Crc32 {
  const POLY: bv32 := 0xEDB8_8320
  const START: bv32 := 0xFFFF_FFFF

  function Xor(x: bv32, y: bv32): bv32 {
    x ^ y
  }

  function BitWord(b: bool): bv32 {
    if b then 1 else 0
  }

  /** One shift of the register. */
  function BitStep(crc: bv32): bv32 {
    if crc & 1 == 1 then POLY ^ (crc >> 1) else crc >> 1
  }

  function BitSteps(crc: bv32, n: nat): bv32 {
    if n == 0 then crc else BitStep(BitSteps(crc, n - 1))
  }

  /** The bit-serial CRC register: each bit is added to the low end before a shift. */
  function FeedBits(crc: bv32, bits: seq<bool>): bv32 {
    if |bits| == 0 then crc
    else BitStep(Xor(FeedBits(crc, bits[..|bits| - 1]), BitWord(bits[|bits| - 1])))
  }

  /** The bits of a byte, least significant first. */
  function ByteBits(b: bv8): (r: seq<bool>)
    ensures |r| == 8
  {
    [b & 1 == 1, (b >> 1) & 1 == 1, (b >> 2) & 1 == 1, (b >> 3) & 1 == 1,
     (b >> 4) & 1 == 1, (b >> 5) & 1 == 1, (b >> 6) & 1 == 1, (b >> 7) & 1 == 1]
  }

  function MessageBits(m: seq<bv8>): (r: seq<bool>)
    ensures |r| == 8 * |m|
  {
    if |m| == 0 then [] else MessageBits(m[..|m| - 1]) + ByteBits(m[|m| - 1])
  }

  /** The CRC-32 of a message, one bit at a time. */
  function SerialCrc(m: seq<bv8>): bv32 {
    Xor(FeedBits(START, MessageBits(m)), START)
  }

  // ---------- Laws of exclusive or ----------

  lemma XorAssociates(x: bv32, y: bv32, z: bv32)
    ensures Xor(Xor(x, y), z) == Xor(x, Xor(y, z))
  {
  }

  lemma XorCancels(x: bv32, y: bv32, c: bv32)
    requires Xor(x, c) == Xor(y, c) || Xor(c, x) == Xor(c, y)
    ensures x == y
  {
  }

  lemma XorZero(x: bv32)
    ensures Xor(x, 0) == x
  {
  }

  // ---------- The register is linear and reversible ----------

  lemma XorParts(x: bv32, y: bv32)
    ensures (x ^ y) >> 1 == (x >> 1) ^ (y >> 1)
    ensures (x ^ y) & 1 == 1 <==> (x & 1 == 1) != (y & 1 == 1)
  {
  }

  lemma XorTwice(p: bv32, a: bv32, b: bv32)
    ensures (p ^ a) ^ (p ^ b) == a ^ b
  {
  }

  lemma XorOnce(p: bv32, a: bv32, b: bv32)
    ensures (p ^ a) ^ b == p ^ (a ^ b) && b ^ (p ^ a) == p ^ (a ^ b) && a ^ b == b ^ a
  {
  }

  lemma StepOfXor(x: bv32, y: bv32)
    ensures BitStep(x ^ y) == BitStep(x) ^ BitStep(y)
  {
    XorParts(x, y);
    if x & 1 == 1 && y & 1 == 1 {
      XorTwice(POLY, x >> 1, y >> 1);
    } else if x & 1 == 1 {
      XorOnce(POLY, x >> 1, y >> 1);
    } else if y & 1 == 1 {
      XorOnce(POLY, y >> 1, x >> 1);
    }
  }

  lemma StepLinear(x: bv32, y: bv32)
    ensures BitStep(Xor(x, y)) == Xor(BitStep(x), BitStep(y))
  {
    StepOfXor(x, y);
    hide BitStep;
  }

  lemma {:induction false} StepsLinear(x: bv32, y: bv32, n: nat)
    ensures BitSteps(Xor(x, y), n) == Xor(BitSteps(x, n), BitSteps(y, n))
  {
    hide BitStep;
    hide Xor;
    if n > 0 {
      StepsLinear(x, y, n - 1);
      StepLinear(BitSteps(x, n - 1), BitSteps(y, n - 1));
    }
  }

  /** The polynomial's top bit is set, so no shift merges two states. */
  lemma StepInjective(x: bv32, y: bv32)
    requires BitStep(x) == BitStep(y)
    ensures x == y
  {
  }

  lemma {:induction false} StepsInjective(x: bv32, y: bv32, n: nat)
    requires BitSteps(x, n) == BitSteps(y, n)
    ensures x == y
  {
    hide BitStep;
    if n > 0 {
      StepInjective(BitSteps(x, n - 1), BitSteps(y, n - 1));
      StepsInjective(x, y, n - 1);
    }
  }

  lemma {:induction false} StepsOfZero(n: nat)
    ensures BitSteps(0, n) == 0
  {
    if n > 0 { StepsOfZero(n - 1); }
  }

  /** Different register states stay different under the same bits. */
  lemma {:induction false} FeedInjective(x: bv32, y: bv32, bits: seq<bool>)
    requires FeedBits(x, bits) == FeedBits(y, bits)
    ensures x == y
  {
    hide BitStep;
    hide Xor;
    if |bits| > 0 {
      var n := |bits| - 1;
      var bit, x', y' := BitWord(bits[n]), FeedBits(x, bits[..n]), FeedBits(y, bits[..n]);
      StepInjective(Xor(x', bit), Xor(y', bit));
      XorCancels(x', y', bit);
      FeedInjective(x, y, bits[..n]);
    }
  }

  lemma {:induction false} FeedConcat(crc: bv32, a: seq<bool>, b: seq<bool>)
    ensures FeedBits(crc, a + b) == FeedBits(FeedBits(crc, a), b)
  {
    hide BitStep;
    hide Xor;
    if |b| == 0 {
      assert a + b == a;
    } else {
      FeedConcat(crc, a, b[..|b| - 1]);
      assert (a + b)[..|a + b| - 1] == a + b[..|b| - 1];
    }
  }

  // ---------- Up to 32 bits at once ----------

  function Power(k: nat): bv32
    requires k < 32
  {
    1 << k
  }

  predicate BitAt(x: bv32, k: nat)
    requires k < 32
  {
    x & Power(k) != 0
  }

  /** Up to 32 bits as a word, first bit lowest. */
  function Pack(bits: seq<bool>): bv32
    requires |bits| <= 32
  {
    if |bits| == 0 then 0
    else Xor(Pack(bits[..|bits| - 1]), if bits[|bits| - 1] then Power(|bits| - 1) else 0)
  }

  lemma PowerStep(k: nat)
    requires 0 < k < 32
    ensures BitStep(Power(k)) == Power(k - 1)
  {
    var y: bv32 := k as bv32;
    assert 0 < y < 32;
    assert Power(k) == (1 as bv32) << y && Power(k - 1) == (1 as bv32) << (y - 1);
  }

  /** A bit that has not reached the low end is only shifted. */
  lemma {:induction false} StepsShift(k: nat, n: nat)
    requires n <= k < 32
    ensures BitSteps(Power(k), n) == Power(k - n)
  {
    hide BitStep;
    hide Power;
    if n > 0 {
      StepsShift(k, n - 1);
      PowerStep(k - (n - 1));
    }
  }

  lemma HighBitArrives(b: bool, n: nat)
    requires n < 32
    ensures BitSteps(if b then Power(n) else 0, n) == BitWord(b)
  {
    if b {
      StepsShift(n, n);
      assert Power(0) == 1;
    } else {
      StepsOfZero(n);
    }
  }

  /** Feeding up to 32 bits is adding them to the register and shifting as often. */
  lemma {:induction false} FeedPacked(crc: bv32, bits: seq<bool>)
    requires |bits| <= 32
    ensures FeedBits(crc, bits) == BitSteps(Xor(crc, Pack(bits)), |bits|)
  {
    hide BitStep;
    hide Xor;
    hide Power;
    hide BitWord;
    if |bits| > 0 {
      var n := |bits| - 1;
      var front, high := Pack(bits[..n]), if bits[n] then Power(n) else 0;
      FeedPacked(crc, bits[..n]);
      StepsLinear(Xor(crc, front), high, n);
      HighBitArrives(bits[n], n);
      XorAssociates(crc, front, high);
    } else {
      XorZero(crc);
    }
  }

  lemma MaskOfXor(x: bv32, y: bv32, p: bv32)
    requires p & (p - 1) == 0
    ensures (x ^ y) & p != 0 <==> (x & p != 0) != (y & p != 0)
  {
  }

  lemma PowersAreBits(a: bv32, b: bv32)
    requires a < 32 && b < 32
    ensures ((1 as bv32) << a) & (((1 as bv32) << a) - 1) == 0
    ensures ((1 as bv32) << a) & ((1 as bv32) << b) != 0 <==> a == b
  {
  }

  lemma BitOfXor(x: bv32, y: bv32, k: nat)
    requires k < 32
    ensures BitAt(Xor(x, y), k) == (BitAt(x, k) != BitAt(y, k))
  {
    PowersAreBits(k as bv32, k as bv32);
    var p := Power(k);
    assert p & (p - 1) == 0;
    hide Power;
    MaskOfXor(x, y, p);
  }

  lemma BitOfPower(j: nat, k: nat)
    requires j < 32 && k < 32
    ensures BitAt(Power(j), k) == (j == k) && !BitAt(0, k)
  {
    PowersAreBits(j as bv32, k as bv32);
  }

  lemma {:induction false} PackedBit(bits: seq<bool>, k: nat)
    requires |bits| <= 32 && k < 32
    ensures BitAt(Pack(bits), k) == (k < |bits| && bits[k])
  {
    hide BitAt;
    hide Xor;
    hide Power;
    if |bits| > 0 {
      var n := |bits| - 1;
      PackedBit(bits[..n], k);
      BitOfXor(Pack(bits[..n]), if bits[n] then Power(n) else 0, k);
      BitOfPower(n, k);
    } else {
      BitOfPower(0, k);
    }
  }

  lemma PackInjective(a: seq<bool>, b: seq<bool>)
    requires |a| == |b| <= 32 && Pack(a) == Pack(b)
    ensures a == b
  {
    hide BitAt;
    hide Pack;
    forall k: nat | k < |a|
      ensures a[k] == b[k]
    {
      PackedBit(a, k);
      PackedBit(b, k);
    }
  }

  // ---------- Bursts ----------

  /** Up to 32 bits fed to one state can be told apart by the state they leave. */
  lemma ShortFeedInjective(crc: bv32, a: seq<bool>, b: seq<bool>)
    requires |a| == |b| <= 32 && FeedBits(crc, a) == FeedBits(crc, b)
    ensures a == b
  {
    hide FeedBits;
    hide BitSteps;
    hide Pack;
    hide Xor;
    FeedPacked(crc, a);
    FeedPacked(crc, b);
    StepsInjective(Xor(crc, Pack(a)), Xor(crc, Pack(b)), |a|);
    XorCancels(Pack(a), Pack(b), crc);
    PackInjective(a, b);
  }

  /** Bit strings of the same length that differ only in 32 consecutive bits leave different registers. */
  lemma BurstChangesRegister(crc: bv32, a: seq<bool>, b: seq<bool>, k: nat)
    requires |a| == |b| && a != b
    requires forall i :: 0 <= i < |a| && !(k <= i < k + 32) ==> a[i] == b[i]
    ensures FeedBits(crc, a) != FeedBits(crc, b)
  {
    hide FeedBits;
    var lo := if k <= |a| then k else |a|;
    var hi := if k + 32 <= |a| then k + 32 else |a|;
    var common := FeedBits(crc, a[..lo]);
    assert a == a[..lo] + (a[lo..hi] + a[hi..]) && b == b[..lo] + (b[lo..hi] + b[hi..]);
    assert a[..lo] == b[..lo] && a[hi..] == b[hi..];
    FeedConcat(crc, a[..lo], a[lo..hi] + a[hi..]);
    FeedConcat(crc, b[..lo], b[lo..hi] + b[hi..]);
    FeedConcat(common, a[lo..hi], a[hi..]);
    FeedConcat(common, b[lo..hi], b[hi..]);
    if FeedBits(crc, a) == FeedBits(crc, b) {
      FeedInjective(FeedBits(common, a[lo..hi]), FeedBits(common, b[lo..hi]), a[hi..]);
      ShortFeedInjective(common, a[lo..hi], b[lo..hi]);
    }
  }

  lemma {:induction false} BitOfMessage(m: seq<bv8>, i: nat)
    requires i < 8 * |m|
    ensures MessageBits(m)[i] == ByteBits(m[i / 8])[i % 8]
  {
    hide ByteBits;
    if i < 8 * (|m| - 1) {
      BitOfMessage(m[..|m| - 1], i);
    }
  }

  lemma BytesFromBits(b: bv8, c: bv8)
    requires ByteBits(b) == ByteBits(c)
    ensures b == c
  {
    var x, y := ByteBits(b), ByteBits(c);
    assert x[0] == y[0] && x[1] == y[1] && x[2] == y[2] && x[3] == y[3];
    assert x[4] == y[4] && x[5] == y[5] && x[6] == y[6] && x[7] == y[7];
  }

  lemma MessageFromBits(m: seq<bv8>, m': seq<bv8>)
    requires |m| == |m'| && MessageBits(m) == MessageBits(m')
    ensures m == m'
  {
    hide ByteBits;
    hide MessageBits;
    forall j: nat | j < |m|
      ensures m[j] == m'[j]
    {
      forall i: nat | i < 8
        ensures ByteBits(m[j])[i] == ByteBits(m'[j])[i]
      {
        BitOfMessage(m, 8 * j + i);
        BitOfMessage(m', 8 * j + i);
      }
      assert ByteBits(m[j]) == ByteBits(m'[j]);
      BytesFromBits(m[j], m'[j]);
    }
  }

  /** Two different messages of one length whose bits differ only in a window of 32 never share a CRC. */
  lemma BitBurstDetected(m: seq<bv8>, m': seq<bv8>, k: nat)
    requires |m| == |m'| && m != m'
    requires forall i :: 0 <= i < 8 * |m| && !(k <= i < k + 32) ==> MessageBits(m)[i] == MessageBits(m')[i]
    ensures SerialCrc(m) != SerialCrc(m')
  {
    hide FeedBits;
    hide MessageBits;
    hide Xor;
    var a, b := MessageBits(m), MessageBits(m');
    if a == b {
      MessageFromBits(m, m');
    } else if SerialCrc(m) == SerialCrc(m') {
      XorCancels(FeedBits(START, a), FeedBits(START, b), START);
      BurstChangesRegister(START, a, b, k);
    }
  }

  /** In particular no change confined to four consecutive bytes goes unnoticed. */
  lemma ByteBurstDetected(m: seq<bv8>, m': seq<bv8>, j: nat)
    requires |m| == |m'| && m != m'
    requires forall i :: 0 <= i < |m| && !(j <= i < j + 4) ==> m[i] == m'[i]
    ensures SerialCrc(m) != SerialCrc(m')
  {
    hide SerialCrc;
    forall i: nat | i < 8 * |m| && !(8 * j <= i < 8 * j + 32)
      ensures MessageBits(m)[i] == MessageBits(m')[i]
    {
      BitOfMessage(m, i);
      BitOfMessage(m', i);
    }
    BitBurstDetected(m, m', 8 * j);
  }

  // ---------- The table ----------

  lemma LowByteSplit(x: bv32)
    ensures Xor(x & 0xFF, x & 0xFFFF_FF00) == x
    ensures (x & 0xFFFF_FF00) & 0xFF == 0 && (x & 0xFFFF_FF00) >> 8 == x >> 8
  {
  }

  function LowByte(x: bv32): bv32 {
    x & 0xFF
  }

  function DropByte(x: bv32): bv32 {
    x >> 8
  }

  /** Eight shifts at once: shift out the low byte and add the eight-fold shift of that byte. */
  lemma EightSteps(x: bv32)
    ensures BitSteps(x, 8) == Xor(BitSteps(LowByte(x), 8), DropByte(x))
  {
    LowByteSplit(x);
    EightStepsOfParts(x & 0xFF, x & 0xFFFF_FF00);
  }

  lemma EightStepsOfParts(low: bv32, high: bv32)
    requires high & 0xFF == 0
    ensures BitSteps(Xor(low, high), 8) == Xor(BitSteps(low, 8), high >> 8)
  {
    hide BitSteps;
    hide Xor;
    StepsLinear(low, high, 8);
    HighBytesShift(high);
  }

  lemma {:induction false} StepsAdd(x: bv32, a: nat, b: nat)
    ensures BitSteps(x, a + b) == BitSteps(BitSteps(x, a), b)
  {
    hide BitStep;
    if b > 0 { StepsAdd(x, a, b - 1); }
  }

  /** Zeros at the low end are shifted out without effect. */
  lemma OneZero(x: bv32)
    requires x & 1 == 0
    ensures BitSteps(x, 1) == x >> 1
  {
  }

  lemma TwoZeros(x: bv32)
    requires x & 3 == 0
    ensures BitSteps(x, 2) == x >> 2
  {
    assert x & 1 == 0 && (x >> 1) & 1 == 0 && (x >> 1) >> 1 == x >> 2;
    hide BitSteps;
    OneZero(x);
    OneZero(x >> 1);
    StepsAdd(x, 1, 1);
  }

  lemma FourZeros(x: bv32)
    requires x & 0xF == 0
    ensures BitSteps(x, 4) == x >> 4
  {
    assert x & 3 == 0 && (x >> 2) & 3 == 0 && (x >> 2) >> 2 == x >> 4;
    hide BitSteps;
    TwoZeros(x);
    TwoZeros(x >> 2);
    StepsAdd(x, 2, 2);
  }

  lemma HighBytesShift(x: bv32)
    requires x & 0xFF == 0
    ensures BitSteps(x, 8) == x >> 8
  {
    assert x & 0xF == 0 && (x >> 4) & 0xF == 0 && (x >> 4) >> 4 == x >> 8;
    hide BitSteps;
    FourZeros(x);
    FourZeros(x >> 4);
    StepsAdd(x, 4, 4);
  }

  lemma ByteBelowShift(crc: bv32, b: bv32)
    requires b < 256
    ensures DropByte(Xor(crc, b)) == DropByte(crc)
  {
  }

  /** Feeding a byte is a table lookup and a shift by eight. */
  lemma ByteIsFed(crc: bv32, b: bv8, w: bv32)
    requires w == b as bv32
    ensures FeedBits(crc, ByteBits(b)) == Xor(BitSteps(LowByte(Xor(crc, w)), 8), DropByte(crc))
  {
    ByteBelowShift(crc, w);
    PackedByte(b);
    hide *;
    FeedPacked(crc, ByteBits(b));
    EightSteps(Xor(crc, w));
  }

  lemma PackNext(bits: seq<bool>, n: nat)
    requires n < |bits| <= 32
    ensures Pack(bits[..n + 1]) == Xor(Pack(bits[..n]), PowerIf(bits[n], Power(n)))
  {
    hide Xor;
    assert bits[..n + 1][..n] == bits[..n];
  }

  lemma PowersOfByte()
    ensures Power(0) == 1 && Power(1) == 2 && Power(2) == 4 && Power(3) == 8
    ensures Power(4) == 16 && Power(5) == 32 && Power(6) == 64 && Power(7) == 128
  {
  }

  function PowerIf(b: bool, p: bv32): bv32 {
    if b then p else 0
  }

  lemma ByteOfPowers(b: bv8)
    ensures Xor(Xor(Xor(Xor(Xor(Xor(Xor(Xor(0, PowerIf(b & 1 == 1, 1)), PowerIf((b >> 1) & 1 == 1, 2)),
            PowerIf((b >> 2) & 1 == 1, 4)), PowerIf((b >> 3) & 1 == 1, 8)), PowerIf((b >> 4) & 1 == 1, 16)),
            PowerIf((b >> 5) & 1 == 1, 32)), PowerIf((b >> 6) & 1 == 1, 64)), PowerIf((b >> 7) & 1 == 1, 128))
              == b as bv32
  {
  }

  lemma PackedByte(b: bv8)
    ensures Pack(ByteBits(b)) == b as bv32
  {
    var bits := ByteBits(b);
    ByteOfPowers(b);
    PowersOfByte();
    assert bits[..0] == [] && bits[..8] == bits;
    assert Pack([]) == 0;
    hide Pack;
    hide Power;
    hide PowerIf;
    hide Xor;
    PackNext(bits, 0);
    PackNext(bits, 1);
    PackNext(bits, 2);
    PackNext(bits, 3);
    PackNext(bits, 4);
    PackNext(bits, 5);
    PackNext(bits, 6);
    PackNext(bits, 7);
  }

  /** The operations of the table form, by name. */
  lemma EntryParts(crc: bv32, w: bv32, index: bv32, entry: bv32, r: bv32)
    requires index == (crc ^ w) & 0xFF && r == entry ^ (crc >> 8)
    ensures index == LowByte(Xor(crc, w)) && r == Xor(entry, DropByte(crc))
  {
  }

  lemma CombineEntry(crc: bv32, b: bv8, w: bv32, index: bv32, entry: bv32, r: bv32)
    requires w == b as bv32
    requires index == (crc ^ w) & 0xFF && entry == BitSteps(index, 8) && r == entry ^ (crc >> 8)
    ensures r == FeedBits(crc, ByteBits(b))
  {
    hide FeedBits, BitSteps, ByteBits;
    ByteIsFed(crc, b, w);
    EntryParts(crc, w, index, entry, r);
    hide *;
  }

  /** crc32_table and its once-only initialisation. */
  class Crc32Table {
    const table: array<bv32>
    var ready: bool

    /** Once ready, entry i is the register after shifting i out of the low byte. */
    ghost predicate Valid()
      reads this, table
    {
      table.Length == 256 && (ready ==> forall i :: 0 <= i < 256 ==> table[i] == BitSteps(i as bv32, 8))
    }

    constructor ()
      ensures Valid() && !ready && fresh(table)
    {
      table := new bv32[256](_ => 0);
      ready := false;
    }

    method InitTable()
      requires Valid()
      modifies this, table
      ensures Valid() && ready
    {
      for i := 0 to 256
        invariant Valid() && ready == old(ready)
        invariant forall k :: 0 <= k < i ==> table[k] == BitSteps(k as bv32, 8)
      {
        var crc := i as bv32;
        for j := 0 to 8
          invariant crc == BitSteps(i as bv32, j)
        {
          crc := if crc & 1 == 1 then POLY ^ (crc >> 1) else crc >> 1;
        }
        table[i] := crc;
      }
      ready := true;
    }

    method Lookup(index: bv32) returns (entry: bv32)
      requires Valid() && ready && index < 256
      ensures entry == BitSteps(index, 8)
    {
      hide BitSteps;
      IndexInTable(index);
      entry := table[index as int];
    }

    /** One byte by table lookup is eight serial steps. */
    method Update(crc: bv32, b: bv8) returns (r: bv32)
      requires Valid() && ready
      ensures r == FeedBits(crc, ByteBits(b))
    {
      hide FeedBits;
      hide BitSteps;
      hide ByteBits;
      var index := (crc ^ (b as bv32)) & 0xFF;
      MaskedByte(crc ^ (b as bv32));
      var entry := Lookup(index);
      r := entry ^ (crc >> 8);
      CombineEntry(crc, b, b as bv32, index, entry, r);
    }

    /** The table-driven CRC is the bit-serial one, on every byte sequence; a length of zero or less hashes nothing. */
    method Crc(data: seq<bv8>, len: int) returns (r: bv32)
      requires Valid() && len <= |data|
      modifies this, table
      ensures Valid() && ready
      ensures r == SerialCrc(if len > 0 then data[..len] else [])
    {
      if !ready {
        InitTable();
      }
      var crc := START;
      var i := 0;
      EmptyMessage(data);
      hide FeedBits;
      hide MessageBits;
      hide BitSteps;
      while i < len
        invariant Valid() && ready && 0 <= i <= |data| && (len > 0 ==> i <= len)
        invariant len <= 0 ==> i == 0
        invariant crc == FeedBits(START, MessageBits(data[..i]))
      {
        FeedByte(START, data, i);
        crc := Update(crc, data[i]);
        i := i + 1;
      }
      assert data[..i] == if len > 0 then data[..len] else [];
      r := crc ^ 0xFFFF_FFFF;
    }
  }

  lemma EmptyMessage(data: seq<bv8>)
    ensures FeedBits(START, MessageBits(data[..0])) == START
  {
    assert data[..0] == [];
  }

  lemma FeedByte(crc: bv32, data: seq<bv8>, i: nat)
    requires i < |data|
    ensures FeedBits(crc, MessageBits(data[..i + 1]))
              == FeedBits(FeedBits(crc, MessageBits(data[..i])), ByteBits(data[i]))
  {
    assert data[..i + 1][..i] == data[..i];
    FeedConcat(crc, MessageBits(data[..i]), ByteBits(data[i]));
  }

  lemma IndexInTable(y: bv32)
    requires y < 256
    ensures 0 <= y as int < 256 && (y as int) as bv32 == y
  {
  }

  lemma MaskedByte(x: bv32)
    ensures x & 0xFF < 256
  {
  }
}

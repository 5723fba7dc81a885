/** Known values of the CRC-32: the check value of nine digits, and the residue of every message with its own CRC. */
module CrcKnownAnswers {
  import opened Crc32

  /** One step of the register, on literals decided by computation. */
  predicate IsStep(x: bv32, r: bv32) {
    (if x & 1 == 1 then 0xEDB8_8320 ^ (x >> 1) else x >> 1) == r
  }

  lemma Stepped(x: bv32, r: bv32)
    requires IsStep(x, r)
    ensures BitStep(x) == r
  {
  }

  lemma OneMore(x: bv32, n: nat, y: bv32, r: bv32)
    requires BitSteps(x, n) == y && IsStep(y, r)
    ensures BitSteps(x, n + 1) == r
  {
    hide IsStep, BitStep;
    Stepped(y, r);
  }

  /** A table entry. */
  lemma EntryIs(x: bv32, x1: bv32, x2: bv32, x3: bv32, x4: bv32, x5: bv32, x6: bv32, x7: bv32, x8: bv32)
    requires IsStep(x, x1) && IsStep(x1, x2) && IsStep(x2, x3) && IsStep(x3, x4)
    requires IsStep(x4, x5) && IsStep(x5, x6) && IsStep(x6, x7) && IsStep(x7, x8)
    ensures BitSteps(x, 8) == x8
  {
    assert BitSteps(x, 0) == x;
    hide IsStep, BitSteps;
    OneMore(x, 0, x, x1);
    OneMore(x, 1, x1, x2);
    OneMore(x, 2, x2, x3);
    OneMore(x, 3, x3, x4);
    OneMore(x, 4, x4, x5);
    OneMore(x, 5, x5, x6);
    OneMore(x, 6, x6, x7);
    OneMore(x, 7, x7, x8);
  }

  predicate IsFed(crc: bv32, w: bv32, index: bv32, entry: bv32, r: bv32) {
    (crc ^ w) & 0xFF == index && entry ^ (crc >> 8) == r
  }

  /** A byte fed to the register, from the table entry. */
  lemma Fed(data: seq<bv8>, i: nat, crc: bv32, b: bv8, w: bv32, index: bv32, entry: bv32, r: bv32)
    requires i < |data| && data[i] == b && w == b as bv32
    requires FeedBits(START, MessageBits(data[..i])) == crc && BitSteps(index, 8) == entry
    requires IsFed(crc, w, index, entry, r)
    ensures FeedBits(START, MessageBits(data[..i + 1])) == r
  {
    hide FeedBits, MessageBits, BitSteps, ByteBits;
    FeedByte(START, data, i);
    CombineEntry(crc, b, w, index, entry, r);
  }

  /** The characters 1 to 9. */
  const DIGITS: seq<bv8> := [0x31, 0x32, 0x33, 0x34, 0x35, 0x36, 0x37, 0x38, 0x39]

  lemma FirstDigits()
    requires FeedBits(START, MessageBits(DIGITS[..0])) == 0xFFFF_FFFF
    ensures FeedBits(START, MessageBits(DIGITS[..3])) == 0x77B7_9C2D
  {
    hide FeedBits, MessageBits, BitSteps;
    EntryIs(0xCE, 0x0000_0067, 0xEDB8_8313, 0x9B64_C2A9, 0xA00A_E274,
            0x5005_713A, 0x2802_B89D, 0xF9B9_DF6E, 0x7CDC_EFB7);
    Fed(DIGITS, 0, 0xFFFF_FFFF, 0x31, 0x31, 0xCE, 0x7CDC_EFB7, 0x7C23_1048);
    EntryIs(0x7A, 0x0000_003D, 0xEDB8_833E, 0x76DC_419F, 0xD6D6_A3EF,
            0x86D3_D2D7, 0xAED1_6A4B, 0xBAD0_3605, 0xB0D0_9822);
    Fed(DIGITS, 1, 0x7C23_1048, 0x32, 0x32, 0x7A, 0xB0D0_9822, 0xB0AC_BB32);
    EntryIs(0x01, 0xEDB8_8320, 0x76DC_4190, 0x3B6E_20C8, 0x1DB7_1064,
            0x0EDB_8832, 0x076D_C419, 0xEE0E_612C, 0x7707_3096);
    Fed(DIGITS, 2, 0xB0AC_BB32, 0x33, 0x33, 0x01, 0x7707_3096, 0x77B7_9C2D);
  }

  lemma NextDigits()
    requires FeedBits(START, MessageBits(DIGITS[..3])) == 0x77B7_9C2D
    ensures FeedBits(START, MessageBits(DIGITS[..6])) == 0xF68D_2C9E
  {
    hide FeedBits, MessageBits, BitSteps;
    EntryIs(0x19, 0xEDB8_832C, 0x76DC_4196, 0x3B6E_20CB, 0xF00F_9345,
            0x95BF_4A82, 0x4ADF_A541, 0xC8D7_5180, 0x646B_A8C0);
    Fed(DIGITS, 3, 0x77B7_9C2D, 0x34, 0x34, 0x19, 0x646B_A8C0, 0x641C_1F5C);
    EntryIs(0x69, 0xEDB8_8314, 0x76DC_418A, 0x3B6E_20C5, 0xF00F_9342,
            0x7807_C9A1, 0xD1BB_67F0, 0x68DD_B3F8, 0x346E_D9FC);
    Fed(DIGITS, 4, 0x641C_1F5C, 0x35, 0x35, 0x69, 0x346E_D9FC, 0x340A_C5E3);
    EntryIs(0xD5, 0xEDB8_834A, 0x76DC_41A5, 0xD6D6_A3F2, 0x6B6B_51F9,
            0xD80D_2BDC, 0x6C06_95EE, 0x3603_4AF7, 0xF6B9_265B);
    Fed(DIGITS, 5, 0x340A_C5E3, 0x36, 0x36, 0xD5, 0xF6B9_265B, 0xF68D_2C9E);
  }

  lemma LastDigits()
    requires FeedBits(START, MessageBits(DIGITS[..6])) == 0xF68D_2C9E
    ensures FeedBits(START, MessageBits(DIGITS[..9])) == 0x340B_C6D9
  {
    hide FeedBits, MessageBits, BitSteps;
    EntryIs(0xA9, 0xEDB8_8374, 0x76DC_41BA, 0x3B6E_20DD, 0xF00F_934E,
            0x7807_C9A7, 0xD1BB_67F3, 0x8565_30D9, 0xAF0A_1B4C);
    Fed(DIGITS, 6, 0xF68D_2C9E, 0x37, 0x37, 0xA9, 0xAF0A_1B4C, 0xAFFC_9660);
    EntryIs(0x58, 0x0000_002C, 0x0000_0016, 0x0000_000B, 0xEDB8_8325,
            0x9B64_C2B2, 0x4DB2_6159, 0xCB61_B38C, 0x65B0_D9C6);
    Fed(DIGITS, 7, 0xAFFC_9660, 0x38, 0x38, 0x58, 0x65B0_D9C6, 0x651F_2550);
    EntryIs(0x69, 0xEDB8_8314, 0x76DC_418A, 0x3B6E_20C5, 0xF00F_9342,
            0x7807_C9A1, 0xD1BB_67F0, 0x68DD_B3F8, 0x346E_D9FC);
    Fed(DIGITS, 8, 0x651F_2550, 0x39, 0x39, 0x69, 0x346E_D9FC, 0x340B_C6D9);
  }

  /** The check value of the CRC-32 of RFC 1952. */
  lemma CheckValue()
    ensures SerialCrc(DIGITS) == 0xCBF4_3926
  {
    hide FeedBits, MessageBits;
    EmptyMessage(DIGITS);
    FirstDigits();
    NextDigits();
    LastDigits();
    assert DIGITS[..9] == DIGITS;
  }

  // ---------- The residue ----------

  /** The four bytes of a word, low byte first. */
  function LittleEndian(x: bv32): (r: seq<bv8>) {
    [(x & 0xFF) as bv8, ((x >> 8) & 0xFF) as bv8, ((x >> 16) & 0xFF) as bv8, (x >> 24) as bv8]
  }

  /** Byte k of the complement of a word. */
  function Part(r: bv32, k: nat): bv32 {
    if k == 0 then (r ^ 0xFFFF_FFFF) & 0xFF
    else if k == 1 then ((r ^ 0xFFFF_FFFF) >> 8) & 0xFF
    else if k == 2 then ((r ^ 0xFFFF_FFFF) >> 16) & 0xFF
    else ((r ^ 0xFFFF_FFFF) >> 24) & 0xFF
  }

  /** The register r after k bytes of its own complement: r drops out of it byte by byte. */
  function After(r: bv32, k: nat): bv32 {
    if k == 0 then r
    else if k == 1 then 0x2D02_EF8D ^ (r >> 8)
    else if k == 2 then 0xBE26_12FF ^ (r >> 16)
    else if k == 3 then 0x00BE_2612 ^ (r >> 24)
    else 0xDEBB_20E3
  }

  lemma FirstByte(r: bv32)
    ensures IsFed(After(r, 0), Part(r, 0), 0xFF, 0x2D02_EF8D, After(r, 1))
  {
  }

  lemma SecondByte(r: bv32)
    ensures IsFed(After(r, 1), Part(r, 1), 0x72, 0xBE0B_1010, After(r, 2))
  {
  }

  lemma ThirdByte(r: bv32)
    ensures IsFed(After(r, 2), Part(r, 2), 0x00, 0x0000_0000, After(r, 3))
  {
  }

  lemma FourthByte(r: bv32)
    ensures IsFed(After(r, 3), Part(r, 3), 0xED, 0xDEBB_9EC5, After(r, 4))
  {
  }

  function Index(k: nat): bv32 {
    if k == 0 then 0xFF else if k == 1 then 0x72 else if k == 2 then 0x00 else 0xED
  }

  lemma ByteIsFed4(r: bv32, k: nat) returns (entry: bv32)
    requires k < 4
    ensures BitSteps(Index(k), 8) == entry && IsFed(After(r, k), Part(r, k), Index(k), entry, After(r, k + 1))
  {
    hide BitSteps, IsFed, After, Part;
    FirstByte(r);
    SecondByte(r);
    ThirdByte(r);
    FourthByte(r);
    EntryIs(0xFF, 0xEDB8_835F, 0x9B64_C28F, 0xA00A_E267, 0xBDBD_F213,
            0xB366_7A29, 0xB40B_BE34, 0x5A05_DF1A, 0x2D02_EF8D);
    EntryIs(0x72, 0x0000_0039, 0xEDB8_833C, 0x76DC_419E, 0x3B6E_20CF,
            0xF00F_9347, 0x95BF_4A83, 0xA767_2661, 0xBE0B_1010);
    EntryIs(0x00, 0x0000_0000, 0x0000_0000, 0x0000_0000, 0x0000_0000,
            0x0000_0000, 0x0000_0000, 0x0000_0000, 0x0000_0000);
    EntryIs(0xED, 0xEDB8_8356, 0x76DC_41AB, 0xD6D6_A3F5, 0x86D3_D2DA,
            0x4369_E96D, 0xCC0C_7796, 0x6606_3BCB, 0xDEBB_9EC5);
    entry := BitSteps(Index(k), 8);
  }

  lemma {:induction false} FeedComplement(data: seq<bv8>, n: nat, r: bv32, k: nat)
    requires k <= 4 && n + 4 == |data| && FeedBits(START, MessageBits(data[..n])) == r
    requires forall i :: 0 <= i < 4 ==> Part(r, i) == data[n + i] as bv32
    ensures FeedBits(START, MessageBits(data[..n + k])) == After(r, k)
  {
    hide FeedBits, MessageBits, BitSteps, IsFed, Part, Index;
    if k == 0 {
      assert After(r, 0) == r;
    } else {
      FeedComplement(data, n, r, k - 1);
      var entry := ByteIsFed4(r, k - 1);
      hide After;
      Fed(data, n + (k - 1), After(r, k - 1), data[n + (k - 1)], Part(r, k - 1), Index(k - 1), entry, After(r, k));
    }
  }

  lemma PartsOfComplement(r: bv32)
    ensures var b := LittleEndian(r ^ 0xFFFF_FFFF);
            && |b| == 4 && b[0] as bv32 == Part(r, 0) && b[1] as bv32 == Part(r, 1)
            && b[2] as bv32 == Part(r, 2) && b[3] as bv32 == Part(r, 3)
  {
  }

  /** The four bytes that complement the register. */
  ghost predicate IsTail(r: bv32, tail: seq<bv8>) {
    |tail| == 4 && forall i :: 0 <= i < 4 ==> Part(r, i) == tail[i] as bv32
  }

  lemma Parts(r: bv32)
    ensures IsTail(r, LittleEndian(Xor(r, START)))
  {
    assert Xor(r, START) == r ^ 0xFFFF_FFFF;
    PartsOfComplement(r);
    hide Part, LittleEndian;
  }

  lemma AfterFour(r: bv32)
    ensures After(r, 4) == 0xDEBB_20E3
  {
  }

  lemma ResidueRegister(m: seq<bv8>, tail: seq<bv8>, r: bv32)
    requires r == FeedBits(START, MessageBits(m)) && IsTail(r, tail)
    ensures FeedBits(START, MessageBits(m + tail)) == After(r, 4)
  {
    hide FeedBits, MessageBits, Part, After, START;
    var data, n := m + tail, |m|;
    assert data[..n] == m && data[..n + 4] == data;
    assert forall i :: 0 <= i < 4 ==> data[n + i] == tail[i];
    FeedComplement(data, n, r, 4);
  }

  lemma ResidueIs()
    ensures Xor(0xDEBB_20E3, START) == 0x2144_DF1C
  {
  }

  lemma CrcIs(m: seq<bv8>, r: bv32)
    requires r == FeedBits(START, MessageBits(m))
    ensures SerialCrc(m) == Xor(r, START)
  {
    hide Xor, START, FeedBits, MessageBits;
  }

  /** A message followed by its own CRC, low byte first, always has the same CRC. */
  lemma Residue(m: seq<bv8>)
    ensures SerialCrc(m + LittleEndian(SerialCrc(m))) == 0x2144_DF1C
  {
    ResidueIs();
    hide *;
    var r := FeedBits(START, MessageBits(m));
    CrcIs(m, r);
    var tail := LittleEndian(Xor(r, START));
    Parts(r);
    AfterFour(r);
    ResidueRegister(m, tail, r);
    CrcIs(m + tail, After(r, 4));
  }
}

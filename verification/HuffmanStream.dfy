/** huffman_encode and huffman_decode over byte buffers; bit 0 of the stream is the high bit of byte 0. */
module HuffmanStream {
  import opened Sums
  import opened Bits
  import opened Indexing
  import opened HuffmanCodeTable
  import opened HuffmanCodec

  predicate BitOfByte(b: bv8, off: nat)
    requires off < 8
  {
    (b >> off) & 1 == 1
  }

  predicate StreamBit(stream: seq<bv8>, k: nat)
    requires k < 8 * |stream|
  {
    BitOfByte(stream[k / 8], 7 - k % 8)
  }

  /** The first n bits of a byte buffer. */
  function StreamBits(stream: seq<bv8>, n: nat): (r: seq<bool>)
    requires n <= 8 * |stream|
    ensures |r| == n
  {
    seq(n, k requires 0 <= k < n => StreamBit(stream, k))
  }

  /** The number a byte buffer denotes, first byte highest. */
  function BufferValue(stream: seq<bv8>): nat {
    if |stream| == 0 then 0 else 256 * BufferValue(stream[..|stream| - 1]) + stream[|stream| - 1] as int
  }

  /** A byte shifted right. */
  function Shifted(b: bv8, off: nat): bv8
    requires off <= 8
  {
    b >> off
  }

  lemma ShiftByOne(x: bv8)
    ensures x as int == 2 * (Shifted(x, 1) as int) + (if BitOfByte(x, 0) then 1 else 0)
  {
  }

  lemma ShiftOnce(b: bv8, off: nat)
    requires off < 8
    ensures Shifted(Shifted(b, off), 1) == Shifted(b, off + 1)
    ensures BitOfByte(Shifted(b, off), 0) == BitOfByte(b, off)
  {
    var y: bv8 := off as bv8;
    assert (b >> y) >> 1 == b >> (y + 1);
    assert (b >> y) >> 0 == b >> y;
  }

  lemma ShiftEnds(b: bv8)
    ensures Shifted(b, 0) == b && Shifted(b, 8) == 0
  {
  }

  /** The number the highest k bits of a byte denote. */
  function HighBits(b: bv8, k: nat): nat
    requires k <= 8
  {
    Shifted(b, 8 - k) as int
  }

  lemma HighBitsStep(b: bv8, k: nat)
    requires 0 < k <= 8
    ensures HighBits(b, k) == 2 * HighBits(b, k - 1) + (if BitOfByte(b, 8 - k) then 1 else 0)
  {
    hide Shifted, BitOfByte;
    ShiftOnce(b, 8 - k);
    ShiftByOne(Shifted(b, 8 - k));
  }

  lemma HighBitsEnds(b: bv8)
    ensures HighBits(b, 0) == 0 && HighBits(b, 8) == b as int
  {
    ShiftEnds(b);
    hide Shifted;
  }

  lemma OneMoreBit(b: bv8, k: nat)
    requires 0 < k <= 8
    ensures StreamBits([b], k) == StreamBits([b], k - 1) + [BitOfByte(b, 8 - k)]
  {
    hide BitOfByte;
  }

  lemma {:induction false} ByteFront(b: bv8, k: nat)
    requires k <= 8
    ensures Value(StreamBits([b], k)) == HighBits(b, k)
  {
    hide BitOfByte, StreamBits, HighBits, Value;
    if k == 0 {
      HighBitsEnds(b);
      ValueOfZeros(StreamBits([b], 0));
    } else {
      ByteFront(b, k - 1);
      HighBitsStep(b, k);
      OneMoreBit(b, k);
      ValueAppend(StreamBits([b], k - 1), BitOfByte(b, 8 - k));
    }
  }

  /** Read as a number, the bits of a buffer are its bytes in order, each with its high bit first. */
  lemma {:induction false} StreamIsNumber(stream: seq<bv8>)
    ensures Value(StreamBits(stream, 8 * |stream|)) == BufferValue(stream)
  {
    if |stream| == 0 {
      ValueOfZeros(StreamBits(stream, 0));
    } else {
      var n := |stream| - 1;
      var front, last := stream[..n], stream[n];
      StreamIsNumber(front);
      ByteFront(last, 8);
      HighBitsEnds(last);
      ValueSplit(StreamBits(front, 8 * n), StreamBits([last], 8));
      assert Pow2(8) == 256;
      StreamSplit(stream);
      hide HighBits, Value, StreamBits, Pow2;
    }
  }

  lemma StreamSplit(stream: seq<bv8>)
    requires |stream| > 0
    ensures var n := |stream| - 1;
            StreamBits(stream, 8 * |stream|) == StreamBits(stream[..n], 8 * n) + StreamBits([stream[n]], 8)
  {
    hide BitOfByte;
    var n := |stream| - 1;
    forall k: nat | k < 8 * |stream|
      ensures StreamBit(stream, k) == if k < 8 * n then StreamBit(stream[..n], k) else StreamBit([stream[n]], k - 8 * n)
    {
      if k >= 8 * n { assert k / 8 == n && k % 8 == k - 8 * n; }
    }
  }

  /** ORing one bit into a byte sets that bit and keeps the other seven. */
  lemma OrSetsOneBit(b: bv8, off: nat, other: nat)
    requires off < 8 && other < 8
    ensures BitOfByte(b | (1 << off), other) == (other == off || BitOfByte(b, other))
  {
    var x: bv8, y: bv8 := off as bv8, other as bv8;
    assert (b >> other) & 1 == (b >> y) & 1;
    assert ((b | (1 << x)) >> y) & 1 == if x == y then 1 else (b >> y) & 1;
  }

  /** after is before with the given bits ORed into its front. */
  ghost predicate Written(before: seq<bv8>, after: seq<bv8>, bits: seq<bool>) {
    && |before| == |after| && |bits| <= 8 * |after|
    && forall k: nat :: k < 8 * |after| ==> StreamBit(after, k) == (StreamBit(before, k) || (k < |bits| && bits[k]))
  }

  method PutBit(stream: array<bv8>, pos: nat, bit: bool, ghost before: seq<bv8>, ghost bits: seq<bool>)
    requires pos == |bits| < 8 * stream.Length && Written(before, stream[..], bits)
    modifies stream
    ensures Written(before, stream[..], bits + [bit])
  {
    if bit {
      var i, off := pos / 8, 7 - pos % 8;
      ghost var was := stream[..];
      stream[i] := stream[i] | (1 << off);
      forall k: nat | k < 8 * stream.Length
        ensures StreamBit(stream[..], k) == (k == pos || StreamBit(was, k))
      {
        OrSetsOneBit(was[i], off, 7 - k % 8);
      }
    }
  }

  /** The codes huffman_encode may use: no shift reaches past a 32-bit word. */
  ghost predicate Shiftable(codes: seq<HuffmanCode>) {
    forall i :: 0 <= i < |codes| ==> codes[i].codeLen <= 32
  }

  method PutWord(stream: array<bv8>, pos: nat, c: HuffmanCode, ghost before: seq<bv8>, ghost bits: seq<bool>)
    returns (next: nat)
    requires pos == |bits| && |bits| + c.codeLen <= 8 * stream.Length && Written(before, stream[..], bits)
    modifies stream
    ensures next == |bits + WordOf(c)| && Written(before, stream[..], bits + WordOf(c))
  {
    next := pos;
    var b := c.codeLen;
    assert bits + WordOf(c)[..0] == bits;
    while b > 0
      invariant 0 <= b <= c.codeLen && next == pos + c.codeLen - b
      invariant Written(before, stream[..], bits + WordOf(c)[..c.codeLen - b])
    {
      b := b - 1;
      var bit := c.code / Pow2(b) % 2 == 1;
      ghost var k := c.codeLen - 1 - b;
      PutBit(stream, next, bit, before, bits + WordOf(c)[..k]);
      assert bits + WordOf(c)[..k] + [bit] == bits + WordOf(c)[..k + 1];
      next := next + 1;
    }
    assert WordOf(c)[..c.codeLen] == WordOf(c);
  }

  method Encode(codes: seq<HuffmanCode>, symbols: seq<int>, n: int, stream: array<bv8>)
    returns (status: int, bytes: nat)
    requires Shiftable(codes)
    requires n > 0 ==> n <= |symbols| && |EncodeBits(codes, symbols[..n])| <= 8 * stream.Length
    modifies stream
    ensures n <= 0 ==> status == -1 && unchanged(stream)
    ensures n > 0 ==> status == 0
    ensures n > 0 ==> var bits := EncodeBits(codes, symbols[..n]);
                      Written(old(stream[..]), stream[..], bits) && bytes == (|bits| + 7) / 8
  {
    if n <= 0 {
      return -1, 0;
    }
    hide Written;
    hide WordOf;
    hide EncodeBits;
    ghost var before := stream[..];
    var bitPos := 0;
    NothingWritten(before);
    EncodeNothing(codes);
    for i := 0 to n
      invariant bitPos == |EncodeBits(codes, symbols[..i])|
      invariant Written(before, stream[..], EncodeBits(codes, symbols[..i]))
    {
      var s := symbols[i];
      EncodeStep(codes, symbols, i, n);
      if 0 <= s < |codes| {
        bitPos := PutWord(stream, bitPos, codes[s], before, EncodeBits(codes, symbols[..i]));
      }
    }
    status, bytes := 0, (bitPos + 7) / 8;
  }

  lemma EncodeStep(codes: seq<HuffmanCode>, symbols: seq<int>, i: nat, n: nat)
    requires i < n <= |symbols|
    ensures EncodeBits(codes, symbols[..i + 1])
         == EncodeBits(codes, symbols[..i]) + (if Known(codes, symbols[i]) then WordOf(codes[symbols[i]]) else [])
    ensures |EncodeBits(codes, symbols[..i + 1])| <= |EncodeBits(codes, symbols[..n])|
  {
    EncodePrefix(codes, symbols[..n], i + 1);
    assert symbols[..n][..i + 1] == symbols[..i + 1] && symbols[..i + 1][..i] == symbols[..i];
  }

  lemma EncodeNothing(codes: seq<HuffmanCode>)
    ensures EncodeBits(codes, []) == []
  {
  }

  lemma NothingWritten(stream: seq<bv8>)
    ensures Written(stream, stream, [])
  {
  }

  /** On a buffer of zeros the encoder leaves exactly the encoded bits, followed by zeros. */
  lemma WrittenOnZeros(before: seq<bv8>, after: seq<bv8>, bits: seq<bool>)
    requires Written(before, after, bits) && forall i :: 0 <= i < |before| ==> before[i] == 0
    ensures StreamBits(after, |bits|) == bits
    ensures forall k: nat :: |bits| <= k < 8 * |after| ==> !StreamBit(after, k)
  {
  }

  /** The buffer holds the bits read but not consumed. */
  ghost predicate Buffered(bits: seq<bool>, buffer: uint32, inBuffer: nat, read: nat, longest: nat, pos: nat) {
    pos + inBuffer == read <= |bits| && inBuffer <= longest && buffer == Value(bits[pos..read])
  }

  /** The refill loop: afterwards the buffer is the whole window, and its bits have been read. */
  method FillWindow(stream: seq<bv8>, nbits: nat, buffer: uint32, inBuffer: nat, read: nat, longest: nat,
                    ghost pos: nat)
    returns (buffer': uint32, inBuffer': nat, read': nat)
    requires nbits <= 8 * |stream| && longest <= 32
    requires Buffered(StreamBits(stream, nbits), buffer, inBuffer, read, longest, pos)
    ensures Buffered(StreamBits(stream, nbits), buffer', inBuffer', read', longest, pos)
    ensures StreamBits(stream, nbits)[pos..read'] == Window(StreamBits(stream, nbits), pos, longest)
  {
    ghost var bits := StreamBits(stream, nbits);
    buffer', inBuffer', read' := buffer, inBuffer, read;
    hide Value, Buffered;
    BufferedFields(bits, buffer, inBuffer, read, longest, pos);
    while inBuffer' < longest && read' < nbits
      invariant pos + inBuffer' == read' <= nbits && inBuffer' <= longest
      invariant Buffered(bits, buffer', inBuffer', read', longest, pos)
    {
      var bit := BitOfByte(stream[read' / 8], 7 - read' % 8);
      ShiftIn(bits, buffer', inBuffer', read', longest, pos, bit);
      buffer' := (2 * buffer' + (if bit then 1 else 0)) % WORD_SIZE;
      inBuffer' := inBuffer' + 1;
      read' := read' + 1;
    }
    WindowSlice(bits, pos, longest, read');
  }

  lemma BufferedFields(bits: seq<bool>, buffer: uint32, inBuffer: nat, read: nat, longest: nat, pos: nat)
    requires Buffered(bits, buffer, inBuffer, read, longest, pos)
    ensures pos + inBuffer == read <= |bits| && inBuffer <= longest && buffer == Value(bits[pos..read])
  {
  }

  lemma ShiftIn(bits: seq<bool>, buffer: uint32, inBuffer: nat, read: nat, longest: nat, pos: nat, bit: bool)
    requires Buffered(bits, buffer, inBuffer, read, longest, pos) && inBuffer < longest <= 32
    requires read < |bits| && bit == bits[read]
    ensures Buffered(bits, (2 * buffer + (if bit then 1 else 0)) % WORD_SIZE, inBuffer + 1, read + 1, longest, pos)
  {
    hide Value;
    ShiftInExact(bits, pos, read);
  }

  lemma WindowSlice(bits: seq<bool>, pos: nat, longest: nat, read: nat)
    requires pos <= read <= |bits| && read - pos <= longest && (read - pos == longest || read == |bits|)
    ensures Window(bits, pos, longest) == bits[pos..read]
  {
  }

  /** Up to 32 bits are shifted into the buffer without loss. */
  lemma ShiftInExact(bits: seq<bool>, pos: nat, read: nat)
    requires pos <= read < |bits| && read - pos < 32
    ensures (2 * Value(bits[pos..read]) + (if bits[read] then 1 else 0)) % WORD_SIZE == Value(bits[pos..read + 1])
  {
    var upto, next := bits[pos..read], bits[pos..read + 1];
    assert upto + [bits[read]] == next;
    hide Value;
    hide Pow2;
    ValueAppend(upto, bits[read]);
    ValueBound(next);
    Pow2Monotone(|next|, 32);
    Pow2Of32();
  }

  /** The first table entry whose code the buffered bits start with, or -1. */
  method FindMatch(codes: seq<HuffmanCode>, buffer: uint32, inBuffer: nat, ghost window: seq<bool>)
    returns (i: int)
    requires inBuffer == |window| && buffer == Value(window)
    ensures i == FirstMatch(codes, window, 0)
    ensures i == -1 || (0 <= i < |codes| && 0 < codes[i].codeLen <= inBuffer)
  {
    i := 0;
    while i < |codes|
      invariant 0 <= i <= |codes|
      invariant FirstMatch(codes, window, 0) == FirstMatch(codes, window, i)
    {
      var c := codes[i];
      if c.codeLen != 0 {
        if c.codeLen <= inBuffer {
          var shift := inBuffer - c.codeLen;
          var prefix := (buffer / Pow2(shift)) % Pow2(c.codeLen);
          PrefixBits(window, c.codeLen);
          if prefix == c.code {
            return i;
          }
        }
      }
      i := i + 1;
    }
    i := -1;
  }

  /** Shifting out the rest and masking leaves the value of the first n bits. */
  lemma PrefixBits(window: seq<bool>, n: nat)
    requires n <= |window|
    ensures (Value(window) / Pow2(|window| - n)) % Pow2(n) == Value(window[..n])
  {
    ValuePrefix(window, n);
    ValueBound(window[..n]);
    FloorUnique(Value(window[..n]), Pow2(n), 0, Value(window[..n]));
  }

  method LongestCodeLength(codes: seq<HuffmanCode>) returns (longest: nat)
    ensures longest == LongestCode(codes)
  {
    longest := 0;
    for i := 0 to |codes|
      invariant longest == LongestFrom(codes, i)
    {
      if codes[i].codeLen > longest {
        longest := codes[i].codeLen;
      }
    }
  }

  /** Masking the buffer drops the n bits at its front. */
  lemma DropFront(bits: seq<bool>, pos: nat, read: nat, n: nat)
    requires pos + n <= read <= |bits|
    ensures Value(bits[pos..read]) % Pow2(read - pos - n) == Value(bits[pos + n..read])
  {
    ValueSuffix(bits[pos..read], n);
    assert bits[pos..read][n..] == bits[pos + n..read];
  }

  lemma DropMatch(bits: seq<bool>, buffer: uint32, inBuffer: nat, read: nat, longest: nat, pos: nat, n: nat)
    requires Buffered(bits, buffer, inBuffer, read, longest, pos) && n <= inBuffer
    ensures 0 <= buffer % Pow2(inBuffer - n) < WORD_SIZE
    ensures Buffered(bits, buffer % Pow2(inBuffer - n), inBuffer - n, read, longest, pos + n)
  {
    hide Value, Pow2;
    DropFront(bits, pos, read, n);
    MaskedWord(buffer, Pow2(inBuffer - n));
  }

  lemma MaskedWord(x: nat, d: nat)
    requires d > 0
    ensures 0 <= x % d <= x
  {
  }

  /** What was returned so far and what decoding from pos will still return make up the whole result. */
  ghost predicate Progress(codes: seq<HuffmanCode>, bits: seq<bool>, pos: nat, read: nat, out: seq<int>, limit: nat) {
    && pos <= read <= |bits| && |out| <= limit
    && out + (if read < |bits| then DecodeFrom(codes, bits, pos, limit - |out|) else []) == Decode(codes, bits, limit)
  }

  lemma ProgressInit(codes: seq<HuffmanCode>, bits: seq<bool>, limit: nat)
    ensures Progress(codes, bits, 0, 0, [], limit)
  {
  }

  lemma ProgressStep(codes: seq<HuffmanCode>, bits: seq<bool>, pos: nat, read: nat, out: seq<int>,
                     limit: nat, i: int)
    requires Progress(codes, bits, pos, read, out, limit) && read < |bits|
    requires |out| < limit && i == FirstMatch(codes, Window(bits, pos, LongestCode(codes)), 0)
    ensures i < 0 ==> out == Decode(codes, bits, limit)
    ensures i >= 0 ==> Progress(codes, bits, pos + codes[i].codeLen, pos + |Window(bits, pos, LongestCode(codes))|,
                                out + [codes[i].symbol], limit)
  {
    hide Decode, DecodeFrom, FirstMatch, LongestCode, Matches, Window;
    if i >= 0 {
      var rest := AfterMatch(codes, bits, pos, limit - |out|, i);
      assert out + ([codes[i].symbol] + rest) == out + [codes[i].symbol] + rest;
    } else {
      NoMatch(codes, bits, pos, limit - |out|);
      assert out + [] == out;
    }
  }

  lemma AfterMatch(codes: seq<HuffmanCode>, bits: seq<bool>, pos: nat, limit: nat, i: nat) returns (rest: seq<int>)
    requires pos <= |bits| && limit > 0 && i < |codes|
    requires FirstMatch(codes, Window(bits, pos, LongestCode(codes)), 0) == i
    ensures pos + codes[i].codeLen <= pos + |Window(bits, pos, LongestCode(codes))| <= |bits|
    ensures DecodeFrom(codes, bits, pos, limit) == [codes[i].symbol] + rest
    ensures rest == if pos + |Window(bits, pos, LongestCode(codes))| >= |bits| then []
                    else DecodeFrom(codes, bits, pos + codes[i].codeLen, limit - 1)
  {
    hide DecodeFrom;
    hide FirstMatch;
    hide LongestCode;
    assert codes[i].codeLen <= |Window(bits, pos, LongestCode(codes))|;
    hide Matches;
    MatchedStep(codes, bits, pos, limit, i);
    rest := if pos + LongestCode(codes) >= |bits| then []
            else DecodeFrom(codes, bits, pos + codes[i].codeLen, limit - 1);
  }

  lemma NoMatch(codes: seq<HuffmanCode>, bits: seq<bool>, pos: nat, limit: nat)
    requires pos <= |bits| && FirstMatch(codes, Window(bits, pos, LongestCode(codes)), 0) < 0
    ensures DecodeFrom(codes, bits, pos, limit) == []
  {
    hide FirstMatch;
    hide LongestCode;
    hide Window;
  }

  lemma ProgressEnd(codes: seq<HuffmanCode>, bits: seq<bool>, pos: nat, read: nat, out: seq<int>, limit: nat)
    requires Progress(codes, bits, pos, read, out, limit) && (read >= |bits| || |out| >= limit)
    ensures out == Decode(codes, bits, limit)
  {
  }

  /** One turn of the decoder loop up to the store: fill the window, match, drop the matched bits. */
  method DecodeOne(codes: seq<HuffmanCode>, stream: seq<bv8>, nbits: nat, buffer: uint32, inBuffer: nat, read: nat,
                   longest: nat, ghost pos: nat, ghost out: seq<int>, ghost limit: nat)
    returns (i: int, buffer': uint32, inBuffer': nat, read': nat, ghost pos': nat)
    requires nbits <= 8 * |stream| && longest == LongestCode(codes) <= 32
    requires Buffered(StreamBits(stream, nbits), buffer, inBuffer, read, longest, pos)
    requires Progress(codes, StreamBits(stream, nbits), pos, read, out, limit) && read < nbits && |out| < limit
    ensures i < 0 ==> out == Decode(codes, StreamBits(stream, nbits), limit)
    ensures i >= 0 ==> i < |codes|
                       && Buffered(StreamBits(stream, nbits), buffer', inBuffer', read', longest, pos')
                       && Progress(codes, StreamBits(stream, nbits), pos', read', out + [codes[i].symbol], limit)
  {
    hide Value, StreamBits, LongestCode, FirstMatch, Matches, Decode, Progress, Window, Pow2, Buffered;
    ghost var bits := StreamBits(stream, nbits);
    buffer', inBuffer', read' := FillWindow(stream, nbits, buffer, inBuffer, read, longest, pos);
    BufferedFields(bits, buffer', inBuffer', read', longest, pos);
    i := FindMatch(codes, buffer', inBuffer', bits[pos..read']);
    ProgressStep(codes, bits, pos, read, out, limit, i);
    pos' := pos;
    if i >= 0 {
      var n := codes[i].codeLen;
      DropMatch(bits, buffer', inBuffer', read', longest, pos, n);
      inBuffer' := inBuffer' - n;
      buffer' := buffer' % Pow2(inBuffer');
      pos' := pos + n;
    }
  }

  method DecodeStream(codes: seq<HuffmanCode>, stream: seq<bv8>, nbits: nat, symbols: array<int>, limit: int)
    returns (count: int)
    requires Shiftable(codes) && nbits <= 8 * |stream| && limit <= symbols.Length
    modifies symbols
    ensures limit <= 0 ==> count == -1 && unchanged(symbols)
    ensures limit > 0 ==> 0 <= count <= limit
    ensures limit > 0 ==> forall k :: count <= k < symbols.Length ==> symbols[k] == old(symbols[k])
    ensures limit > 0 ==> symbols[..count] == Decode(codes, StreamBits(stream, nbits), limit)
  {
    if limit <= 0 {
      return -1;
    }
    ghost var bits := StreamBits(stream, nbits);
    var longest := LongestCodeLength(codes);
    var buffer: uint32, inBuffer: nat, read: nat := 0, 0, 0;
    ghost var pos: nat := 0;
    count := 0;
    ProgressInit(codes, bits, limit);
    assert longest <= 32 && Buffered(bits, buffer, inBuffer, read, longest, pos);
    hide StreamBits;
    hide LongestCode;
    hide Decode;
    hide Progress;
    hide Buffered;
    hide Shiftable;
    hide Value;
    hide Word;
    ghost var out: seq<int> := [];
    while read < nbits && count < limit
      invariant 0 <= count <= limit && symbols[..count] == out
      invariant forall k :: count <= k < symbols.Length ==> symbols[k] == old(symbols[k])
      invariant Buffered(bits, buffer, inBuffer, read, longest, pos)
      invariant Progress(codes, bits, pos, read, out, limit)
      decreases limit - count
    {
      var i;
      i, buffer, inBuffer, read, pos :=
        DecodeOne(codes, stream, nbits, buffer, inBuffer, read, longest, pos, out, limit);
      if i < 0 {
        return;
      }
      symbols[count] := codes[i].symbol;
      count := count + 1;
      out := out + [codes[i].symbol];
    }
    ProgressEnd(codes, bits, pos, read, out, limit);
  }

  /** Symbols written to a zeroed buffer, with LongestCode - 1 bits after the last code word, come back. */
  lemma WrittenThenDecoded(codes: seq<HuffmanCode>, symbols: seq<int>, before: seq<bv8>, after: seq<bv8>, nbits: nat)
    requires Decodable(codes) && AllKnown(codes, symbols)
    requires Written(before, after, EncodeBits(codes, symbols)) && forall i :: 0 <= i < |before| ==> before[i] == 0
    requires |EncodeBits(codes, symbols)| + LongestCode(codes) <= nbits + 1
    requires |EncodeBits(codes, symbols)| <= nbits <= 8 * |after|
    ensures Decode(codes, StreamBits(after, nbits), |symbols|) == symbols
  {
    hide Decodable, EncodeBits, LongestCode, Decode;
    var bits := EncodeBits(codes, symbols);
    WrittenOnZeros(before, after, bits);
    var padding := StreamBits(after, nbits)[|bits|..];
    assert StreamBits(after, nbits)[..|bits|] == StreamBits(after, |bits|);
    assert StreamBits(after, nbits) == bits + padding;
    hide *;
    DecodePadded(codes, symbols, padding);
  }

  /**
   The whole pipeline: for a table built for a total weight of at most 11405772, whatever is written to
   a zeroed buffer is decoded from a bit count that leaves LongestCode - 1 bits after the last code word.
   */
  lemma EncodeThenDecode(codes: seq<HuffmanCode>, w: seq<nat>, symbols: seq<int>,
                         before: seq<bv8>, after: seq<bv8>, nbits: nat)
    requires BuilderTable(codes, w) && Sum(w) <= 11405772 && AllKnown(codes, symbols)
    requires Written(before, after, EncodeBits(codes, symbols)) && forall i :: 0 <= i < |before| ==> before[i] == 0
    requires |EncodeBits(codes, symbols)| + LongestCode(codes) <= nbits + 1
    requires |EncodeBits(codes, symbols)| <= nbits <= 8 * |after|
    ensures Decode(codes, StreamBits(after, nbits), |symbols|) == symbols
  {
    hide *;
    DepthFitsWord(codes, w);
    TableIsDecodable(codes, w);
    WrittenThenDecoded(codes, symbols, before, after, nbits);
  }
}

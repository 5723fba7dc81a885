/**
 What huffman_encode and huffman_decode compute, on bit strings.

 The decoder keeps a window of up to MaxLength bits and stops once every bit has been read into the
 window, even if whole code words are still waiting there. Decode follows it exactly, so what it
 returns on the exact encoding is in general only a prefix of the symbols.
 */
module HuffmanCodec {
  import opened Bits
  import opened Indexing
  import opened HuffmanCodeTable

  predicate Known(codes: seq<HuffmanCode>, s: int) {
    0 <= s < |codes|
  }

  /** The code words of the known symbols in order; unknown symbols are skipped. */
  function EncodeBits(codes: seq<HuffmanCode>, symbols: seq<int>): seq<bool> {
    if |symbols| == 0 then []
    else
      var s := symbols[|symbols| - 1];
      EncodeBits(codes, symbols[..|symbols| - 1]) + (if Known(codes, s) then WordOf(codes[s]) else [])
  }

  function LongestFrom(codes: seq<HuffmanCode>, n: nat): (r: nat)
    requires n <= |codes|
    ensures forall i :: 0 <= i < n ==> codes[i].codeLen <= r
    ensures r == 0 || exists i :: 0 <= i < n && codes[i].codeLen == r
  {
    if n == 0 then 0
    else
      var rest := LongestFrom(codes, n - 1);
      if codes[n - 1].codeLen > rest then codes[n - 1].codeLen else rest
  }

  function LongestCode(codes: seq<HuffmanCode>): (r: nat)
    ensures forall i :: 0 <= i < |codes| ==> codes[i].codeLen <= r
  {
    LongestFrom(codes, |codes|)
  }

  predicate Matches(c: HuffmanCode, window: seq<bool>) {
    0 < c.codeLen <= |window| && Value(window[..c.codeLen]) == c.code
  }

  /** The first table entry at or after i that the window starts with, or -1. */
  function FirstMatch(codes: seq<HuffmanCode>, window: seq<bool>, i: nat): (r: int)
    requires i <= |codes|
    ensures r == -1 || (i <= r < |codes| && Matches(codes[r], window))
    ensures forall j :: i <= j < |codes| && Matches(codes[j], window) ==> 0 <= r <= j
    decreases |codes| - i
  {
    if i == |codes| then -1
    else if Matches(codes[i], window) then i
    else FirstMatch(codes, window, i + 1)
  }

  /** The bits in the window once pos bits are consumed. */
  function Window(bits: seq<bool>, pos: nat, longest: nat): (r: seq<bool>)
    requires pos <= |bits|
  {
    if pos + longest <= |bits| then bits[pos..pos + longest] else bits[pos..]
  }

  /** The symbols returned once pos bits are consumed and some are still unread. */
  function DecodeFrom(codes: seq<HuffmanCode>, bits: seq<bool>, pos: nat, limit: nat): (r: seq<int>)
    requires pos <= |bits|
    decreases limit
  {
    if limit == 0 then []
    else
      var longest := LongestCode(codes);
      var i := FirstMatch(codes, Window(bits, pos, longest), 0);
      if i < 0 then []
      else [codes[i].symbol]
           + (if pos + longest >= |bits| then [] else DecodeFrom(codes, bits, pos + codes[i].codeLen, limit - 1))
  }

  function Decode(codes: seq<HuffmanCode>, bits: seq<bool>, limit: nat): (r: seq<int>) {
    if |bits| == 0 then [] else DecodeFrom(codes, bits, 0, limit)
  }

  // ---------- Encode, then decode ----------

  ghost predicate AllKnown(codes: seq<HuffmanCode>, symbols: seq<int>) {
    forall k :: 0 <= k < |symbols| ==> Known(codes, symbols[k])
  }

  /** The number of bits the first k symbols take. */
  function Consumed(codes: seq<HuffmanCode>, symbols: seq<int>, k: nat): nat
    requires k <= |symbols|
  {
    |EncodeBits(codes, symbols[..k])|
  }

  lemma ConsumedStep(codes: seq<HuffmanCode>, symbols: seq<int>, k: nat)
    requires k < |symbols| && AllKnown(codes, symbols)
    ensures Consumed(codes, symbols, k + 1) == Consumed(codes, symbols, k) + codes[symbols[k]].codeLen
    ensures EncodeBits(codes, symbols[..k + 1]) == EncodeBits(codes, symbols[..k]) + WordOf(codes[symbols[k]])
  {
    assert symbols[..k + 1][..k] == symbols[..k];
  }

  lemma {:induction false} EncodePrefix(codes: seq<HuffmanCode>, symbols: seq<int>, k: nat)
    requires k <= |symbols|
    ensures EncodeBits(codes, symbols[..k]) <= EncodeBits(codes, symbols)
    decreases |symbols|
  {
    if k < |symbols| {
      var front := symbols[..|symbols| - 1];
      EncodePrefix(codes, front, k);
      assert front[..k] == symbols[..k];
    } else {
      assert symbols[..k] == symbols;
    }
  }

  /** At the start of a symbol's code word the bits spell that word. */
  lemma WordAt(codes: seq<HuffmanCode>, symbols: seq<int>, padding: seq<bool>, k: nat)
    requires AllKnown(codes, symbols) && k < |symbols|
    ensures var bits := EncodeBits(codes, symbols) + padding;
            var c := codes[symbols[k]];
            var pos := Consumed(codes, symbols, k);
            pos + c.codeLen <= |EncodeBits(codes, symbols)| && bits[pos..pos + c.codeLen] == WordOf(c)
  {
    ConsumedStep(codes, symbols, k);
    EncodePrefix(codes, symbols, k + 1);
    var all, upto := EncodeBits(codes, symbols), EncodeBits(codes, symbols[..k + 1]);
    var pos, end := Consumed(codes, symbols, k), Consumed(codes, symbols, k + 1);
    assert (all + padding)[..end] == all[..end] == upto;
    assert (all + padding)[pos..end] == (all + padding)[..end][pos..];
  }

  /** In a decodable table, a window that starts with the word of s matches s and nothing else. */
  lemma MatchIsUnique(codes: seq<HuffmanCode>, window: seq<bool>, s: nat)
    requires Decodable(codes) && s < |codes|
    requires WordOf(codes[s]) <= window
    ensures FirstMatch(codes, window, 0) == s
  {
    var words := Words(codes);
    assert window[..codes[s].codeLen] == words[s];
    assert Matches(codes[s], window);
    var i := FirstMatch(codes, window, 0);
    assert words[i] == window[..codes[i].codeLen] by {
      ValueInjective(words[i], window[..codes[i].codeLen]);
    }
    PrefixesOfOne(words[i], words[s], window);
  }

  lemma PrefixesOfOne(a: seq<bool>, b: seq<bool>, c: seq<bool>)
    requires a <= c && b <= c
    ensures a <= b || b <= a
  {
  }

  /** One decoder step at a symbol boundary yields that symbol. */
  lemma DecodeStep(codes: seq<HuffmanCode>, symbols: seq<int>, padding: seq<bool>, bits: seq<bool>, k: nat, limit: nat)
    requires Decodable(codes) && AllKnown(codes, symbols) && k < |symbols| && limit > 0
    requires bits == EncodeBits(codes, symbols) + padding
    ensures Consumed(codes, symbols, k) < Consumed(codes, symbols, k + 1) <= |bits|
    ensures DecodeFrom(codes, bits, Consumed(codes, symbols, k), limit)
         == [symbols[k]] + (if Consumed(codes, symbols, k) + LongestCode(codes) >= |bits| then []
                            else DecodeFrom(codes, bits, Consumed(codes, symbols, k + 1), limit - 1))
  {
    hide EncodeBits;
    hide WordOf;
    hide LongestCode;
    hide FirstMatch;
    hide DecodeFrom;
    hide Window;
    var pos, s := Consumed(codes, symbols, k), symbols[k];
    ConsumedStep(codes, symbols, k);
    WindowStarts(codes, symbols, padding, bits, k);
    MatchIsUnique(codes, Window(bits, pos, LongestCode(codes)), s);
    hide Matches;
    MatchedStep(codes, bits, pos, limit, s);
  }

  lemma WindowStarts(codes: seq<HuffmanCode>, symbols: seq<int>, padding: seq<bool>, bits: seq<bool>, k: nat)
    requires AllKnown(codes, symbols) && k < |symbols|
    requires bits == EncodeBits(codes, symbols) + padding
    ensures Consumed(codes, symbols, k) <= |bits|
    ensures WordOf(codes[symbols[k]]) <= Window(bits, Consumed(codes, symbols, k), LongestCode(codes))
  {
    hide EncodeBits;
    hide WordOf;
    hide LongestCode;
    WordAt(codes, symbols, padding, k);
    var pos, n := Consumed(codes, symbols, k), codes[symbols[k]].codeLen;
    assert Window(bits, pos, LongestCode(codes))[..n] == bits[pos..pos + n];
  }

  lemma MatchFits(codes: seq<HuffmanCode>, bits: seq<bool>, pos: nat, s: nat)
    requires pos <= |bits| && s < |codes| && Matches(codes[s], Window(bits, pos, LongestCode(codes)))
    ensures pos + codes[s].codeLen <= |bits|
  {
    hide LongestCode, Value;
  }

  lemma MatchedStep(codes: seq<HuffmanCode>, bits: seq<bool>, pos: nat, limit: nat, s: nat)
    requires pos <= |bits| && limit > 0 && s < |codes|
    requires FirstMatch(codes, Window(bits, pos, LongestCode(codes)), 0) == s
    ensures pos + codes[s].codeLen <= |bits|
    ensures DecodeFrom(codes, bits, pos, limit)
         == [codes[s].symbol] + (if pos + LongestCode(codes) >= |bits| then []
                                 else DecodeFrom(codes, bits, pos + codes[s].codeLen, limit - 1))
  {
    hide FirstMatch, LongestCode, Matches, Window;
    MatchFits(codes, bits, pos, s);
  }

  /** How many symbols are returned from symbol k on before the reading position reaches the end. */
  function Returned(codes: seq<HuffmanCode>, symbols: seq<int>, total: nat, k: nat): (r: nat)
    requires k <= |symbols|
    ensures r <= |symbols| - k
    decreases |symbols| - k
  {
    if k == |symbols| then 0
    else if Consumed(codes, symbols, k) + LongestCode(codes) >= total then 1
    else 1 + Returned(codes, symbols, total, k + 1)
  }

  /** As long as real symbols are left, the decoder returns them one by one. */
  lemma {:induction false} DecodeRun(codes: seq<HuffmanCode>, symbols: seq<int>, padding: seq<bool>, bits: seq<bool>,
                                     k: nat, limit: nat)
    requires Decodable(codes) && AllKnown(codes, symbols) && k < |symbols|
    requires bits == EncodeBits(codes, symbols) + padding
    requires padding == [] || limit <= |symbols| - k
    ensures Consumed(codes, symbols, k) <= |bits|
    ensures DecodeFrom(codes, bits, Consumed(codes, symbols, k), limit)
         == symbols[k..k + Min(limit, Returned(codes, symbols, |bits|, k))]
    decreases |symbols| - k
  {
    hide EncodeBits;
    hide LongestCode;
    hide Decodable;
    hide DecodeFrom;
    WordAt(codes, symbols, padding, k);
    if limit == 0 {
      DecodeNothing(codes, bits, Consumed(codes, symbols, k));
    } else {
      DecodeStep(codes, symbols, padding, bits, k, limit);
      var pos := Consumed(codes, symbols, k);
      if pos + LongestCode(codes) >= |bits| {
        assert [symbols[k]] + [] == symbols[k..k + 1];
      } else if k + 1 < |symbols| {
        DecodeRun(codes, symbols, padding, bits, k + 1, limit - 1);
        var m := Min(limit - 1, Returned(codes, symbols, |bits|, k + 1));
        assert [symbols[k]] + symbols[k + 1..k + 1 + m] == symbols[k..k + 1 + m];
      } else if padding == [] {
        assert symbols[..|symbols|] == symbols;
        ConsumedStep(codes, symbols, k);
        assert false;
      } else {
        DecodeNothing(codes, bits, Consumed(codes, symbols, k + 1));
        assert [symbols[k]] + [] == symbols[k..k + 1];
      }
    }
  }

  lemma DecodeNothing(codes: seq<HuffmanCode>, bits: seq<bool>, pos: nat)
    requires pos <= |bits|
    ensures DecodeFrom(codes, bits, pos, 0) == []
  {
  }

  /** On exactly the encoded bits the decoder returns a prefix of the symbols. */
  lemma DecodeReturnsPrefix(codes: seq<HuffmanCode>, symbols: seq<int>, limit: nat)
    requires Decodable(codes) && AllKnown(codes, symbols)
    ensures var bits := EncodeBits(codes, symbols);
            Decode(codes, bits, limit) == symbols[..Min(limit, Returned(codes, symbols, |bits|, 0))]
  {
    hide DecodeFrom;
    var bits := EncodeBits(codes, symbols);
    if |symbols| > 0 {
      assert bits + [] == bits;
      DecodeRun(codes, symbols, [], bits, 0, limit);
      WordAt(codes, symbols, [], 0);
    }
  }

  /** What is not returned takes fewer bits than the longest code word. */
  lemma {:induction false} LostTail(codes: seq<HuffmanCode>, symbols: seq<int>, k: nat)
    requires Decodable(codes) && AllKnown(codes, symbols) && k < |symbols|
    ensures var total := |EncodeBits(codes, symbols)|;
            var stop := k + Returned(codes, symbols, total, k);
            stop <= |symbols| && total - Consumed(codes, symbols, stop) < LongestCode(codes)
    decreases |symbols| - k
  {
    hide EncodeBits;
    hide LongestCode;
    hide WordOf;
    ConsumedStep(codes, symbols, k);
    assert symbols[..|symbols|] == symbols;
    if k + 1 < |symbols| {
      LostTail(codes, symbols, k + 1);
    }
  }

  lemma {:induction false} EncodeConcat(codes: seq<HuffmanCode>, a: seq<int>, b: seq<int>)
    ensures EncodeBits(codes, a + b) == EncodeBits(codes, a) + EncodeBits(codes, b)
  {
    if |b| == 0 {
      assert a + b == a;
    } else {
      EncodeConcat(codes, a, b[..|b| - 1]);
      assert (a + b)[..|a + b| - 1] == a + b[..|b| - 1];
    }
  }

  /** The symbols that have a code. */
  function KnownSymbols(codes: seq<HuffmanCode>, symbols: seq<int>): seq<int> {
    if |symbols| == 0 then []
    else
      var s := symbols[|symbols| - 1];
      KnownSymbols(codes, symbols[..|symbols| - 1]) + (if 0 <= s < |codes| then [s] else [])
  }

  lemma EncodeOne(codes: seq<HuffmanCode>, s: int)
    ensures EncodeBits(codes, [s]) == if 0 <= s < |codes| then WordOf(codes[s]) else []
  {
    assert [s][..0] == [];
  }

  /** Symbols without a code leave no trace in the encoding. */
  lemma {:induction false} UnknownAreSkipped(codes: seq<HuffmanCode>, symbols: seq<int>)
    ensures EncodeBits(codes, symbols) == EncodeBits(codes, KnownSymbols(codes, symbols))
  {
    if |symbols| > 0 {
      var n := |symbols| - 1;
      UnknownAreSkipped(codes, symbols[..n]);
      EncodeOne(codes, symbols[n]);
      EncodeConcat(codes, KnownSymbols(codes, symbols[..n]), [symbols[n]]);
      assert KnownSymbols(codes, symbols[..n]) + [] == KnownSymbols(codes, symbols[..n]);
    }
  }

  /**
   Decoding the exact bits returns a prefix of the symbols, and the rest has fewer bits than the longest
   code word.
   */
  lemma BoundedLoss(codes: seq<HuffmanCode>, symbols: seq<int>, limit: nat)
    requires Decodable(codes) && AllKnown(codes, symbols) && 0 < |symbols| <= limit
    ensures var out := Decode(codes, EncodeBits(codes, symbols), limit);
            out <= symbols && |EncodeBits(codes, symbols[|out|..])| < LongestCode(codes)
  {
    hide Decode, EncodeBits, LongestCode, Decodable;
    var stop := Returned(codes, symbols, |EncodeBits(codes, symbols)|, 0);
    DecodeReturnsPrefix(codes, symbols, limit);
    LostTail(codes, symbols, 0);
    EncodeConcat(codes, symbols[..stop], symbols[stop..]);
    assert symbols == symbols[..stop] + symbols[stop..];
    hide Returned;
  }

  /** The whole message comes back iff it has at most one symbol or its last two words outgrow the window. */
  lemma DecodeExactIff(codes: seq<HuffmanCode>, symbols: seq<int>, limit: nat)
    requires Decodable(codes) && AllKnown(codes, symbols) && limit >= |symbols|
    ensures var n := |symbols|;
            Decode(codes, EncodeBits(codes, symbols), limit) == symbols <==>
            n <= 1 || codes[symbols[n - 2]].codeLen + codes[symbols[n - 1]].codeLen > LongestCode(codes)
  {
    hide EncodeBits;
    hide Decode;
    hide LongestCode;
    var n, total := |symbols|, |EncodeBits(codes, symbols)|;
    DecodeReturnsPrefix(codes, symbols, limit);
    if n >= 2 {
      ConsumedStep(codes, symbols, n - 2);
      ConsumedStep(codes, symbols, n - 1);
      assert symbols[..n] == symbols;
      ReturnedAll(codes, symbols, total, 0);
    } else if n == 1 {
      assert Returned(codes, symbols, total, 0) == 1;
    }
  }

  /** Everything from k on is returned iff the window does not reach the end before the last symbol. */
  lemma {:induction false} ReturnedAll(codes: seq<HuffmanCode>, symbols: seq<int>, total: nat, k: nat)
    requires Decodable(codes) && AllKnown(codes, symbols) && k + 2 <= |symbols|
    ensures Returned(codes, symbols, total, k) == |symbols| - k <==>
            Consumed(codes, symbols, |symbols| - 2) + LongestCode(codes) < total
    ensures Consumed(codes, symbols, k) <= Consumed(codes, symbols, |symbols| - 2)
    decreases |symbols| - k
  {
    ConsumedStep(codes, symbols, k);
    if k + 2 < |symbols| {
      ReturnedAll(codes, symbols, total, k + 1);
    } else {
      assert Returned(codes, symbols, total, k + 1) == 1;
    }
  }

  /** With at least LongestCode - 1 bits of any padding and room for n symbols, decoding inverts encoding. */
  lemma DecodePadded(codes: seq<HuffmanCode>, symbols: seq<int>, padding: seq<bool>)
    requires Decodable(codes) && AllKnown(codes, symbols)
    requires |padding| + 1 >= LongestCode(codes)
    ensures Decode(codes, EncodeBits(codes, symbols) + padding, |symbols|) == symbols
  {
    hide DecodeFrom, LongestCode, Decodable, EncodeBits, Returned;
    var n, bits := |symbols|, EncodeBits(codes, symbols) + padding;
    NothingConsumed(codes, symbols);
    if n > 0 {
      DecodeRun(codes, symbols, padding, bits, 0, n);
      DecodeStep(codes, symbols, padding, bits, 0, n);
      PaddedReturnsAll(codes, symbols, |bits|);
      assert Min(n, Returned(codes, symbols, |bits|, 0)) == n;
      assert symbols[0..n] == symbols;
      assert Decode(codes, bits, n) == symbols;
    } else {
      DecodeNothing(codes, bits, 0);
    }
  }

  lemma NothingConsumed(codes: seq<HuffmanCode>, symbols: seq<int>)
    ensures Consumed(codes, symbols, 0) == 0
  {
  }

  lemma PaddedReturnsAll(codes: seq<HuffmanCode>, symbols: seq<int>, total: nat)
    requires Decodable(codes) && AllKnown(codes, symbols) && |symbols| > 0
    requires total + 1 >= |EncodeBits(codes, symbols)| + LongestCode(codes)
    ensures Returned(codes, symbols, total, 0) == |symbols|
  {
    hide EncodeBits;
    var n := |symbols|;
    if n >= 2 {
      ConsumedStep(codes, symbols, n - 2);
      ConsumedStep(codes, symbols, n - 1);
      assert symbols[..n] == symbols;
      ReturnedAll(codes, symbols, total, 0);
    } else {
      assert Returned(codes, symbols, total, 1) == 0;
    }
  }
}

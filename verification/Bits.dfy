/** Bit strings and the 32-bit words that hold them, most significant bit first. */
module Bits {
  import opened Indexing
  import opened Sums

  const WORD_SIZE: nat := 0x1_0000_0000

  /** uint8_t, uint16_t and uint32_t */
  type byte = x: int | 0 <= x < 256
  type uint16 = x: int | 0 <= x < 0x1_0000
  type uint32 = x: int | 0 <= x < 0x1_0000_0000

  /** The number a bit string denotes. */
  function Value(bits: seq<bool>): nat {
    if |bits| == 0 then 0 else 2 * Value(bits[..|bits| - 1]) + (if bits[|bits| - 1] then 1 else 0)
  }

  /** The lowest length bits of a word, as the loop over (code >> b) & 1 reads them. */
  function Word(code: nat, length: nat): (r: seq<bool>) {
    seq(length, k requires 0 <= k < length => (code / Pow2(length - 1 - k)) % 2 == 1)
  }

  lemma ValueAppend(bits: seq<bool>, b: bool)
    ensures Value(bits + [b]) == 2 * Value(bits) + (if b then 1 else 0)
  {
    assert (bits + [b])[..|bits|] == bits;
  }

  lemma {:induction false} ValueBound(bits: seq<bool>)
    ensures Value(bits) < Pow2(|bits|)
  {
    if |bits| > 0 { ValueBound(bits[..|bits| - 1]); }
  }

  /** Shifting out the low end of a bit string leaves its front. */
  lemma {:induction false} ValuePrefix(bits: seq<bool>, n: nat)
    requires n <= |bits|
    ensures Value(bits) / Pow2(|bits| - n) == Value(bits[..n])
    decreases |bits|
  {
    if n < |bits| {
      var front := bits[..|bits| - 1];
      ValuePrefix(front, n);
      assert front[..n] == bits[..n];
      HalveThenDivide(Value(bits), Pow2(|front| - n));
    } else {
      assert bits[..n] == bits;
    }
  }

  lemma HalveThenDivide(x: nat, d: nat)
    requires d > 0
    ensures x / (2 * d) == x / 2 / d
  {
    var q := x / 2 / d;
    assert x / 2 == q * d + (x / 2) % d;
    var r := x - q * (2 * d);
    assert 0 <= r < 2 * d;
    FloorUnique(x, 2 * d, q, r);
  }

  /** Dropping the front of a bit string keeps the low bits of its value. */
  lemma {:induction false} ValueSuffix(bits: seq<bool>, n: nat)
    requires n <= |bits|
    ensures Value(bits) % Pow2(|bits| - n) == Value(bits[n..])
    decreases |bits|
  {
    ValueSplit(bits[..n], bits[n..]);
    assert bits[..n] + bits[n..] == bits;
    ValueBound(bits[n..]);
    FloorUnique(Value(bits), Pow2(|bits| - n), Value(bits[..n]), Value(bits[n..]));
  }

  lemma DoubleProduct(x: int, y: int)
    ensures x * (2 * y) == 2 * (x * y)
  {
  }

  lemma {:induction false} ValueSplit(a: seq<bool>, b: seq<bool>)
    ensures Value(a + b) == Value(a) * Pow2(|b|) + Value(b)
  {
    if |b| == 0 {
      assert a + b == a;
    } else {
      var front := b[..|b| - 1];
      ValueSplit(a, front);
      assert (a + b)[..|a + b| - 1] == a + front;
      DoubleProduct(Value(a), Pow2(|front|));
    }
  }

  lemma LowBit(x: nat, b: bool)
    ensures (2 * x + (if b then 1 else 0)) % 2 == 1 <==> b
  {
  }

  /** Reading back a stored bit string gives that bit string. */
  lemma {:induction false} WordOfValue(bits: seq<bool>)
    ensures Word(Value(bits), |bits|) == bits
  {
    forall k: nat | k < |bits|
      ensures Word(Value(bits), |bits|)[k] == bits[k]
    {
      ValuePrefix(bits, k + 1);
      ValueAppend(bits[..k], bits[k]);
      assert bits[..k] + [bits[k]] == bits[..k + 1];
      LowBit(Value(bits[..k]), bits[k]);
    }
  }

  lemma {:induction false} ValueInjective(a: seq<bool>, b: seq<bool>)
    requires |a| == |b| && Value(a) == Value(b)
    ensures a == b
  {
    WordOfValue(a);
    WordOfValue(b);
  }

  lemma {:induction false} ValueOfZeros(bits: seq<bool>)
    requires forall k :: 0 <= k < |bits| ==> !bits[k]
    ensures Value(bits) == 0
  {
    if |bits| > 0 { ValueOfZeros(bits[..|bits| - 1]); }
  }
}

/**
 What the CRC register is: the remainder of a polynomial over the two-element field modulo the
 generator of CRC-32. A polynomial is the set of the exponents that occur in it, so that adding is
 taking the symmetric difference and multiplying by a power of x is shifting.
 */
module CrcPolynomial {
  import opened Crc32

  function Add(p: set<nat>, q: set<nat>): set<nat> {
    (p - q) + (q - p)
  }

  /** p times x^n. */
  function Shifted(p: set<nat>, n: nat): set<nat> {
    set e | e in p :: e + n
  }

  /** x^32 + x^26 + x^23 + x^22 + x^16 + x^12 + x^11 + x^10 + x^8 + x^7 + x^5 + x^4 + x^2 + x + 1 */
  const GENERATOR: set<nat> := {32, 26, 23, 22, 16, 12, 11, 10, 8, 7, 5, 4, 2, 1, 0}

  /** A coefficient times x^n. */
  function Term(b: bool, n: nat): set<nat> {
    if b then {n} else {}
  }

  /** The generator times the sum of the powers of x with the exponents in q. */
  function Multiple(q: seq<nat>): set<nat> {
    if |q| == 0 then {} else Add(Multiple(q[..|q| - 1]), Shifted(GENERATOR, q[|q| - 1]))
  }

  /** The low bit of a word is the coefficient of x^31, its high bit that of x^0. */
  predicate Coefficient(r: bv32, e: nat) {
    e < 32 && BitAt(r, 31 - e)
  }

  function Register(r: bv32): set<nat> {
    set e: nat | e < 32 && Coefficient(r, e)
  }

  /** A bit string read with its first bit as the highest coefficient. */
  function Polynomial(bits: seq<bool>): set<nat> {
    set i: nat | i < |bits| && bits[i] :: |bits| - 1 - i
  }

  // ---------- Laws of polynomials ----------

  lemma InShifted(p: set<nat>, n: nat, e: nat)
    ensures e in Shifted(p, n) <==> e >= n && e - n in p
  {
    if e >= n && e - n in p { assert (e - n) + n in Shifted(p, n); }
  }

  lemma ShiftedSum(p: set<nat>, q: set<nat>, n: nat)
    ensures Shifted(Add(p, q), n) == Add(Shifted(p, n), Shifted(q, n))
  {
    hide Shifted;
    forall e: nat ensures e in Shifted(Add(p, q), n) <==> e in Add(Shifted(p, n), Shifted(q, n)) {
      InShifted(Add(p, q), n, e);
      InShifted(p, n, e);
      InShifted(q, n, e);
    }
  }

  lemma ShiftedTwice(p: set<nat>, n: nat, m: nat)
    ensures Shifted(Shifted(p, n), m) == Shifted(p, n + m)
  {
    hide Shifted;
    forall e: nat ensures e in Shifted(Shifted(p, n), m) <==> e in Shifted(p, n + m) {
      InShifted(Shifted(p, n), m, e);
      if e >= m { InShifted(p, n, e - m); }
      InShifted(p, n + m, e);
    }
  }

  function Raised(q: seq<nat>): (r: seq<nat>)
    ensures |r| == |q|
  {
    seq(|q|, i requires 0 <= i < |q| => q[i] + 1)
  }

  lemma {:induction false} RaisedMultiple(q: seq<nat>)
    ensures Multiple(Raised(q)) == Shifted(Multiple(q), 1)
  {
    if |q| > 0 {
      var n := |q| - 1;
      RaisedMultiple(q[..n]);
      assert Raised(q)[..n] == Raised(q[..n]);
      ShiftedTwice(GENERATOR, q[n], 1);
      ShiftedSum(Multiple(q[..n]), Shifted(GENERATOR, q[n]), 1);
      hide GENERATOR, Shifted, Add;
    }
  }

  lemma MultipleAppend(q: seq<nat>, k: nat)
    ensures Multiple(q + [k]) == Add(Multiple(q), Shifted(GENERATOR, k))
  {
    assert (q + [k])[..|q|] == q;
    hide GENERATOR, Shifted, Add;
  }

  // ---------- One step of the register ----------

  lemma HalfRaw(x: bv32, y: bv32)
    requires 0 < y < 32
    ensures (x >> 1) & ((1 as bv32) << (y - 1)) != 0 <==> x & ((1 as bv32) << y) != 0
  {
  }

  lemma BitOfHalf(x: bv32, k: nat)
    requires 0 < k < 32
    ensures BitAt(x >> 1, k - 1) == BitAt(x, k)
  {
    var y: bv32 := k as bv32;
    assert 0 < y < 32;
    assert Power(k) == (1 as bv32) << y && Power(k - 1) == (1 as bv32) << (y - 1);
    HalfRaw(x, y);
    hide Power;
  }

  lemma TopOfHalf(x: bv32)
    ensures !BitAt(x >> 1, 31)
  {
    assert Power(31) == 0x8000_0000;
    hide Power;
  }

  lemma LowBit(x: bv32)
    ensures BitAt(x, 0) == (x & 1 == 1)
  {
    PowersOfByte();
    hide Power;
  }

  lemma GeneratorBits(e: nat)
    requires e < 32
    ensures Coefficient(POLY, e) <==> e in GENERATOR
  {
    assert Power(31 - e) == (1 as bv32) << ((31 - e) as bv32);
  }

  lemma InRegister(r: bv32, e: nat)
    ensures e in Register(r) <==> Coefficient(r, e)
  {
  }

  lemma RegisterSum(x: bv32, y: bv32)
    ensures Register(Xor(x, y)) == Add(Register(x), Register(y))
  {
    hide Xor, BitAt;
    forall e: nat ensures e in Register(Xor(x, y)) <==> e in Add(Register(x), Register(y)) {
      if e < 32 { BitOfXor(x, y, 31 - e); }
    }
  }

  /** Shifting a word moves its coefficients up and drops that of x^31. */
  lemma RegisterHalf(x: bv32)
    ensures Shifted(Register(x), 1) == Register(x >> 1) + if x & 1 == 1 then {32} else {}
  {
    LowBit(x);
    TopOfHalf(x);
    hide BitAt;
    forall e: nat ensures e in Shifted(Register(x), 1) <==> e in Register(x >> 1) + if x & 1 == 1 then {32} else {} {
      InShifted(Register(x), 1, e);
      hide Shifted;
      if 0 < e < 32 { BitOfHalf(x, 32 - e); }
    }
  }

  lemma GeneratorIsPoly()
    ensures GENERATOR == Register(POLY) + {32}
  {
    forall e: nat ensures e in GENERATOR <==> e in Register(POLY) + {32} {
      if e < 32 { GeneratorBits(e); }
    }
  }

  /** A step multiplies by x, and subtracts the generator if that gives a coefficient of x^32. */
  lemma StepIsReduction(x: bv32)
    ensures Shifted(Register(x), 1) == if x & 1 == 1 then Add(GENERATOR, Register(BitStep(x))) else Register(BitStep(x))
  {
    RegisterHalf(x);
    hide Xor, Register, GENERATOR, Shifted, POLY;
    if x & 1 == 1 {
      OddStep(x);
      Reduced(x >> 1);
    } else {
      EvenStep(x);
    }
    hide BitStep;
  }

  lemma OddStep(x: bv32)
    requires x & 1 == 1
    ensures BitStep(x) == Xor(POLY, x >> 1)
  {
  }

  lemma EvenStep(x: bv32)
    requires x & 1 != 1
    ensures BitStep(x) == x >> 1
  {
  }

  lemma Reduced(h: bv32)
    ensures Register(h) + {32} == Add(GENERATOR, Register(Xor(POLY, h)))
  {
    GeneratorIsPoly();
    RegisterSum(POLY, h);
    RegisterBelow(POLY);
    RegisterBelow(h);
    hide Register, GENERATOR, Xor, POLY;
  }

  lemma RegisterBelow(r: bv32)
    ensures 32 !in Register(r)
  {
  }

  lemma RegisterOfBit(b: bool)
    ensures Register(BitWord(b)) == Term(b, 31)
  {
    assert Power(0) == 1;
    forall e: nat ensures e in Register(BitWord(b)) <==> b && e == 31 {
      if e < 32 { BitOfPower(0, 31 - e); }
    }
  }

  lemma PolynomialAppend(bits: seq<bool>, b: bool)
    ensures Polynomial(bits + [b]) == Add(Shifted(Polynomial(bits), 1), Term(b, 0))
  {
    var more := bits + [b];
    hide Shifted;
    forall e: nat ensures e in Polynomial(more) <==> e in Add(Shifted(Polynomial(bits), 1), Term(b, 0)) {
      InPolynomial(more, e);
      InPolynomial(bits, e - 1);
      InShifted(Polynomial(bits), 1, e);
    }
  }

  lemma InPolynomial(bits: seq<bool>, e: int)
    ensures e in Polynomial(bits) <==> 0 <= e < |bits| && bits[|bits| - 1 - e]
  {
    if 0 <= e < |bits| && bits[|bits| - 1 - e] {
      var i := |bits| - 1 - e;
      assert |bits| - 1 - i in Polynomial(bits);
    }
  }

  // ---------- The whole message ----------

  /** The register after the bits is the remainder of register * x^n + message * x^32. */
  ghost predicate Remainder(crc: bv32, bits: seq<bool>, r: set<nat>, q: seq<nat>) {
    Add(Shifted(Register(crc), |bits|), Shifted(Polynomial(bits), 32)) == Add(Multiple(q), r)
  }

  lemma {:induction false} FeedIsRemainder(crc: bv32, bits: seq<bool>) returns (q: seq<nat>)
    ensures Remainder(crc, bits, Register(FeedBits(crc, bits)), q)
  {
    if |bits| == 0 {
      q := [];
      assert Shifted(Register(crc), 0) == Register(crc);
    } else {
      var n := |bits| - 1;
      var r := FeedBits(crc, bits[..n]);
      q := FeedIsRemainder(crc, bits[..n]);
      assert bits[..n] + [bits[n]] == bits;
      var fed := Xor(r, BitWord(bits[n]));
      NextRemainder(crc, bits[..n], bits[n], r, q);
      StepIsReduction(fed);
      hide Register, Shifted, GENERATOR, BitStep, Xor, BitWord;
      if fed & 1 == 1 {
        MultipleAppend(Raised(q), 0);
        ShiftedNone(GENERATOR);
        Regroup(Multiple(Raised(q)), GENERATOR, Register(BitStep(fed)));
        q := Raised(q) + [0];
      } else {
        q := Raised(q);
      }
    }
  }

  lemma ShiftedNone(p: set<nat>)
    ensures Shifted(p, 0) == p
  {
    hide Shifted;
    forall e: nat ensures e in Shifted(p, 0) <==> e in p { InShifted(p, 0, e); }
  }

  lemma Regroup(a: set<nat>, b: set<nat>, c: set<nat>)
    ensures Add(a, Add(b, c)) == Add(Add(a, b), c)
  {
  }

  /** Multiplying by x and adding the next bit. */
  lemma NextRemainder(crc: bv32, bits: seq<bool>, b: bool, r: bv32, q: seq<nat>)
    requires Remainder(crc, bits, Register(r), q)
    ensures Remainder(crc, bits + [b], Shifted(Register(Xor(r, BitWord(b))), 1), Raised(q))
  {
    NextLeft(crc, bits, b);
    NextRight(r, b, q);
    ShiftedSum(Multiple(q), Register(r), 1);
    hide *;
  }

  lemma NextLeft(crc: bv32, bits: seq<bool>, b: bool)
    ensures Add(Shifted(Register(crc), |bits| + 1), Shifted(Polynomial(bits + [b]), 32))
         == Add(Shifted(Add(Shifted(Register(crc), |bits|), Shifted(Polynomial(bits), 32)), 1), Term(b, 32))
  {
    var c, p, n := Register(crc), Polynomial(bits), |bits|;
    PolynomialAppend(bits, b);
    ShiftedSum(Shifted(p, 1), Term(b, 0), 32);
    ShiftedTerm(b, 0, 32);
    ShiftedTwice(p, 1, 32);
    ShiftedTwice(p, 32, 1);
    ShiftedTwice(c, n, 1);
    ShiftedSum(Shifted(c, n), Shifted(p, 32), 1);
    Regroup(Shifted(c, n + 1), Shifted(p, 33), Term(b, 32));
    hide *;
  }

  lemma NextRight(r: bv32, b: bool, q: seq<nat>)
    ensures Add(Multiple(Raised(q)), Shifted(Register(Xor(r, BitWord(b))), 1))
         == Add(Add(Shifted(Multiple(q), 1), Shifted(Register(r), 1)), Term(b, 32))
  {
    RegisterSum(r, BitWord(b));
    RegisterOfBit(b);
    ShiftedSum(Register(r), Term(b, 31), 1);
    ShiftedTerm(b, 31, 1);
    RaisedMultiple(q);
    Regroup(Shifted(Multiple(q), 1), Shifted(Register(r), 1), Term(b, 32));
    hide *;
  }

  lemma ShiftedTerm(b: bool, n: nat, k: nat)
    ensures Shifted(Term(b, n), k) == Term(b, n + k)
  {
    hide Shifted;
    forall e: nat ensures e in Shifted(Term(b, n), k) <==> e in Term(b, n + k) { InShifted(Term(b, n), k, e); }
  }

  /** x^31 + ... + x + 1, what the register starts with and what is added to it at the end. */
  const ONES: set<nat> := set e: nat | e < 32

  lemma StartIsOnes()
    ensures Register(START) == ONES
  {
    forall e: nat ensures e in Register(START) <==> e in ONES {
      if e < 32 { AllBitsSet(31 - e); }
    }
  }

  lemma AllBitsSet(k: nat)
    requires k < 32
    ensures BitAt(START, k)
  {
    assert Power(k) == (1 as bv32) << (k as bv32);
  }

  /** CRC-32: the register's ones times x^(8n), and the message times x^32, modulo the generator, plus the ones. */
  lemma CrcIsRemainder(m: seq<bv8>) returns (q: seq<nat>)
    ensures Add(Shifted(ONES, 8 * |m|), Shifted(Polynomial(MessageBits(m)), 32))
         == Add(Multiple(q), Add(Register(SerialCrc(m)), ONES))
  {
    q := FeedIsRemainder(START, MessageBits(m));
    StartIsOnes();
    hide Register, Polynomial, Shifted, MessageBits, FeedBits, Xor, START, ONES, GENERATOR;
    RegisterSum(FeedBits(START, MessageBits(m)), START);
    AddTwice(Register(FeedBits(START, MessageBits(m))), ONES);
  }

  lemma AddTwice(p: set<nat>, q: set<nat>)
    ensures Add(Add(p, q), q) == p
  {
  }
}

/**
 Where the constants and the bitwise functions of SHA-256 come from: sections 4.1.2, 4.2.2 and 5.3.3
 of FIPS 180-4 define them by bits and by the fractional parts of roots of the first primes.
 */
module Sha256Constants {
  import opened Sha256
  import opened Indexing

  // ---------- Bits, by masks that select positions ----------

  /** Where x has ones, the choice takes the bits of y. */
  lemma ChooseFirst(x: bv32, y: bv32, z: bv32, m: bv32)
    requires x & m == m
    ensures Ch(x, y, z) & m == y & m
  {
  }

  /** Where x has zeros, it takes those of z. */
  lemma ChooseSecond(x: bv32, y: bv32, z: bv32, m: bv32)
    requires x & m == 0
    ensures Ch(x, y, z) & m == z & m
  {
  }

  /** Where two of the words have ones, so has the majority. */
  lemma MajorityOnes(x: bv32, y: bv32, z: bv32, m: bv32)
    requires (x & m == m && y & m == m) || (x & m == m && z & m == m) || (y & m == m && z & m == m)
    ensures Maj(x, y, z) & m == m
  {
  }

  /** Where two of them have zeros, so has the majority. */
  lemma MajorityZeros(x: bv32, y: bv32, z: bv32, m: bv32)
    requires (x & m == 0 && y & m == 0) || (x & m == 0 && z & m == 0) || (y & m == 0 && z & m == 0)
    ensures Maj(x, y, z) & m == 0
  {
  }

  // ---------- The first primes ----------

  const PRIMES: seq<nat> :=
    [2, 3, 5, 7, 11, 13, 17, 19] +
    [23, 29, 31, 37, 41, 43, 47, 53] +
    [59, 61, 67, 71, 73, 79, 83, 89] +
    [97, 101, 103, 107, 109, 113, 127, 131] +
    [137, 139, 149, 151, 157, 163, 167, 173] +
    [179, 181, 191, 193, 197, 199, 211, 223] +
    [227, 229, 233, 239, 241, 251, 257, 263] +
    [269, 271, 277, 281, 283, 293, 307, 311]

  ghost predicate IsPrime(n: nat) {
    n >= 2 && forall d :: 2 <= d < n ==> n % d != 0
  }

  /** Below 19 * 19, a number is prime if none of the primes up to 17 divides it properly. */
  predicate Undivided(n: nat) {
    && n >= 2 && (n % 2 != 0 || n == 2) && (n % 3 != 0 || n == 3) && (n % 5 != 0 || n == 5) && (n % 7 != 0 || n == 7)
    && (n % 11 != 0 || n == 11) && (n % 13 != 0 || n == 13) && (n % 17 != 0 || n == 17)
  }

  /** A factor of a factor divides. */
  lemma Divides(n: nat, m: nat, d: nat, p: nat)
    requires p > 0 && n == m * d && d % p == 0
    ensures n % p == 0
  {
    var e := d / p;
    assert n == (m * e) * p by { assert d == e * p; }
    FloorUnique(n, p, m * e, 0);
  }

  /** Every number from 2 to 18 has one of the primes up to 17 as a factor. */
  lemma SmallFactor(e: nat) returns (p: nat)
    requires 2 <= e <= 18
    ensures p in {2, 3, 5, 7, 11, 13, 17} && e % p == 0
  {
    p := if e % 2 == 0 then 2 else if e % 3 == 0 then 3 else if e % 5 == 0 then 5 else if e % 7 == 0 then 7
         else e;
  }

  lemma ProperFactor(n: nat, m: nat, d: nat)
    requires n < 361 && n == m * d && 2 <= d && 2 <= m && d <= 18
    ensures !Undivided(n)
  {
    var p := SmallFactor(d);
    Divides(n, m, d, p);
    assert n >= 2 * d && p <= d;
  }

  lemma NoSquare(m: nat, d: nat)
    requires m > 18 && d > 18
    ensures m * d >= 361
  {
    MulMonotone(19, m, d);
  }

  lemma UndividedIsPrime(n: nat)
    requires n < 361
    ensures Undivided(n) <==> IsPrime(n)
  {
    if Undivided(n) {
      forall d | 2 <= d < n ensures n % d != 0 {
        if n % d == 0 {
          var m := n / d;
          assert n == m * d;
          assert m != 1;
          if d <= 18 {
            ProperFactor(n, m, d);
          } else if m <= 18 {
            ProperFactor(n, d, m);
          } else {
            NoSquare(m, d);
          }
        }
      }
    } else if n >= 2 {
      var p := if n % 2 == 0 && n != 2 then 2 else if n % 3 == 0 && n != 3 then 3 else if n % 5 == 0 && n != 5 then 5
               else if n % 7 == 0 && n != 7 then 7 else if n % 11 == 0 && n != 11 then 11
               else if n % 13 == 0 && n != 13 then 13 else 17;
      assert n % p == 0 && 2 <= p < n;
    }
  }

  /** p and q are neighbours among the primes. */
  ghost predicate Neighbours(p: nat, q: nat) {
    IsPrime(p) && IsPrime(q) && p < q && forall n :: p < n < q ==> !IsPrime(n)
  }

  lemma NextPrime(p: nat, q: nat)
    requires p < q < 361 && Undivided(p) && Undivided(q) && forall n :: p < n < q ==> !Undivided(n)
    ensures Neighbours(p, q)
  {
    UndividedIsPrime(p);
    UndividedIsPrime(q);
    forall n | p < n < q ensures !IsPrime(n) { UndividedIsPrime(n); }
  }

  lemma Primes0()
    ensures |PRIMES| == 64 && forall i :: 0 <= i < 2 ==> Neighbours(PRIMES[i], PRIMES[i + 1])
  {
    hide Neighbours, IsPrime;
    NextPrime(2, 3);
    NextPrime(3, 5);
  }

  lemma Primes2()
    ensures |PRIMES| == 64 && forall i :: 2 <= i < 4 ==> Neighbours(PRIMES[i], PRIMES[i + 1])
  {
    hide Neighbours, IsPrime;
    NextPrime(5, 7);
    NextPrime(7, 11);
  }

  lemma Primes4()
    ensures |PRIMES| == 64 && forall i :: 4 <= i < 6 ==> Neighbours(PRIMES[i], PRIMES[i + 1])
  {
    hide Neighbours, IsPrime;
    NextPrime(11, 13);
    NextPrime(13, 17);
  }

  lemma Primes6()
    ensures |PRIMES| == 64 && forall i :: 6 <= i < 8 ==> Neighbours(PRIMES[i], PRIMES[i + 1])
  {
    hide Neighbours, IsPrime;
    NextPrime(17, 19);
    NextPrime(19, 23);
  }

  lemma Primes8()
    ensures |PRIMES| == 64 && forall i :: 8 <= i < 10 ==> Neighbours(PRIMES[i], PRIMES[i + 1])
  {
    hide Neighbours, IsPrime;
    NextPrime(23, 29);
    NextPrime(29, 31);
  }

  lemma Primes10()
    ensures |PRIMES| == 64 && forall i :: 10 <= i < 12 ==> Neighbours(PRIMES[i], PRIMES[i + 1])
  {
    hide Neighbours, IsPrime;
    NextPrime(31, 37);
    NextPrime(37, 41);
  }

  lemma Primes12()
    ensures |PRIMES| == 64 && forall i :: 12 <= i < 14 ==> Neighbours(PRIMES[i], PRIMES[i + 1])
  {
    hide Neighbours, IsPrime;
    NextPrime(41, 43);
    NextPrime(43, 47);
  }

  lemma Primes14()
    ensures |PRIMES| == 64 && forall i :: 14 <= i < 16 ==> Neighbours(PRIMES[i], PRIMES[i + 1])
  {
    hide Neighbours, IsPrime;
    NextPrime(47, 53);
    NextPrime(53, 59);
  }

  lemma Primes16()
    ensures |PRIMES| == 64 && forall i :: 16 <= i < 18 ==> Neighbours(PRIMES[i], PRIMES[i + 1])
  {
    hide Neighbours, IsPrime;
    NextPrime(59, 61);
    NextPrime(61, 67);
  }

  lemma Primes18()
    ensures |PRIMES| == 64 && forall i :: 18 <= i < 20 ==> Neighbours(PRIMES[i], PRIMES[i + 1])
  {
    hide Neighbours, IsPrime;
    NextPrime(67, 71);
    NextPrime(71, 73);
  }

  lemma Primes20()
    ensures |PRIMES| == 64 && forall i :: 20 <= i < 22 ==> Neighbours(PRIMES[i], PRIMES[i + 1])
  {
    hide Neighbours, IsPrime;
    NextPrime(73, 79);
    NextPrime(79, 83);
  }

  lemma Primes22()
    ensures |PRIMES| == 64 && forall i :: 22 <= i < 24 ==> Neighbours(PRIMES[i], PRIMES[i + 1])
  {
    hide Neighbours, IsPrime;
    NextPrime(83, 89);
    NextPrime(89, 97);
  }

  lemma Primes24()
    ensures |PRIMES| == 64 && forall i :: 24 <= i < 26 ==> Neighbours(PRIMES[i], PRIMES[i + 1])
  {
    hide Neighbours, IsPrime;
    NextPrime(97, 101);
    NextPrime(101, 103);
  }

  lemma Primes26()
    ensures |PRIMES| == 64 && forall i :: 26 <= i < 28 ==> Neighbours(PRIMES[i], PRIMES[i + 1])
  {
    hide Neighbours, IsPrime;
    NextPrime(103, 107);
    NextPrime(107, 109);
  }

  lemma Primes28()
    ensures |PRIMES| == 64 && forall i :: 28 <= i < 30 ==> Neighbours(PRIMES[i], PRIMES[i + 1])
  {
    hide Neighbours, IsPrime;
    NextPrime(109, 113);
    NextPrime(113, 127);
  }

  lemma Primes30()
    ensures |PRIMES| == 64 && forall i :: 30 <= i < 32 ==> Neighbours(PRIMES[i], PRIMES[i + 1])
  {
    hide Neighbours, IsPrime;
    NextPrime(127, 131);
    NextPrime(131, 137);
  }

  lemma Primes32()
    ensures |PRIMES| == 64 && forall i :: 32 <= i < 34 ==> Neighbours(PRIMES[i], PRIMES[i + 1])
  {
    hide Neighbours, IsPrime;
    NextPrime(137, 139);
    NextPrime(139, 149);
  }

  lemma Primes34()
    ensures |PRIMES| == 64 && forall i :: 34 <= i < 36 ==> Neighbours(PRIMES[i], PRIMES[i + 1])
  {
    hide Neighbours, IsPrime;
    NextPrime(149, 151);
    NextPrime(151, 157);
  }

  lemma Primes36()
    ensures |PRIMES| == 64 && forall i :: 36 <= i < 38 ==> Neighbours(PRIMES[i], PRIMES[i + 1])
  {
    hide Neighbours, IsPrime;
    NextPrime(157, 163);
    NextPrime(163, 167);
  }

  lemma Primes38()
    ensures |PRIMES| == 64 && forall i :: 38 <= i < 40 ==> Neighbours(PRIMES[i], PRIMES[i + 1])
  {
    hide Neighbours, IsPrime;
    NextPrime(167, 173);
    NextPrime(173, 179);
  }

  lemma Primes40()
    ensures |PRIMES| == 64 && forall i :: 40 <= i < 42 ==> Neighbours(PRIMES[i], PRIMES[i + 1])
  {
    hide Neighbours, IsPrime;
    NextPrime(179, 181);
    NextPrime(181, 191);
  }

  lemma Primes42()
    ensures |PRIMES| == 64 && forall i :: 42 <= i < 44 ==> Neighbours(PRIMES[i], PRIMES[i + 1])
  {
    hide Neighbours, IsPrime;
    NextPrime(191, 193);
    NextPrime(193, 197);
  }

  lemma Primes44()
    ensures |PRIMES| == 64 && forall i :: 44 <= i < 46 ==> Neighbours(PRIMES[i], PRIMES[i + 1])
  {
    hide Neighbours, IsPrime;
    NextPrime(197, 199);
    NextPrime(199, 211);
  }

  lemma Primes46()
    ensures |PRIMES| == 64 && forall i :: 46 <= i < 48 ==> Neighbours(PRIMES[i], PRIMES[i + 1])
  {
    hide Neighbours, IsPrime;
    NextPrime(211, 223);
    NextPrime(223, 227);
  }

  lemma Primes48()
    ensures |PRIMES| == 64 && forall i :: 48 <= i < 50 ==> Neighbours(PRIMES[i], PRIMES[i + 1])
  {
    hide Neighbours, IsPrime;
    NextPrime(227, 229);
    NextPrime(229, 233);
  }

  lemma Primes50()
    ensures |PRIMES| == 64 && forall i :: 50 <= i < 52 ==> Neighbours(PRIMES[i], PRIMES[i + 1])
  {
    hide Neighbours, IsPrime;
    NextPrime(233, 239);
    NextPrime(239, 241);
  }

  lemma Primes52()
    ensures |PRIMES| == 64 && forall i :: 52 <= i < 54 ==> Neighbours(PRIMES[i], PRIMES[i + 1])
  {
    hide Neighbours, IsPrime;
    NextPrime(241, 251);
    NextPrime(251, 257);
  }

  lemma Primes54()
    ensures |PRIMES| == 64 && forall i :: 54 <= i < 56 ==> Neighbours(PRIMES[i], PRIMES[i + 1])
  {
    hide Neighbours, IsPrime;
    NextPrime(257, 263);
    NextPrime(263, 269);
  }

  lemma Primes56()
    ensures |PRIMES| == 64 && forall i :: 56 <= i < 58 ==> Neighbours(PRIMES[i], PRIMES[i + 1])
  {
    hide Neighbours, IsPrime;
    NextPrime(269, 271);
    NextPrime(271, 277);
  }

  lemma Primes58()
    ensures |PRIMES| == 64 && forall i :: 58 <= i < 60 ==> Neighbours(PRIMES[i], PRIMES[i + 1])
  {
    hide Neighbours, IsPrime;
    NextPrime(277, 281);
    NextPrime(281, 283);
  }

  lemma Primes60()
    ensures |PRIMES| == 64 && forall i :: 60 <= i < 62 ==> Neighbours(PRIMES[i], PRIMES[i + 1])
  {
    hide Neighbours, IsPrime;
    NextPrime(283, 293);
    NextPrime(293, 307);
  }

  lemma Primes62()
    ensures |PRIMES| == 64 && forall i :: 62 <= i < 63 ==> Neighbours(PRIMES[i], PRIMES[i + 1])
  {
    hide Neighbours, IsPrime;
    NextPrime(307, 311);
  }

  /** The table lists the first 64 primes. */
  lemma FirstPrimes()
    ensures |PRIMES| == 64 && PRIMES[0] == 2 && forall i :: 0 <= i < 63 ==> Neighbours(PRIMES[i], PRIMES[i + 1])
  {
    Primes0();
    Primes2();
    Primes4();
    Primes6();
    Primes8();
    Primes10();
    Primes12();
    Primes14();
    Primes16();
    Primes18();
    Primes20();
    Primes22();
    Primes24();
    Primes26();
    Primes28();
    Primes30();
    Primes32();
    Primes34();
    Primes36();
    Primes38();
    Primes40();
    Primes42();
    Primes44();
    Primes46();
    Primes48();
    Primes50();
    Primes52();
    Primes54();
    Primes56();
    Primes58();
    Primes60();
    Primes62();
    hide Neighbours;
  }

  // ---------- Roots ----------

  const WORD: nat := 0x1_0000_0000

  function Cube(c: nat): nat {
    c * c * c
  }

  function Square(c: nat): nat {
    c * c
  }

  /** k is the first 32 bits of the fractional part of the cube root of p. */
  ghost predicate CubeRootBits(k: bv32, p: nat) {
    exists c: nat :: c % WORD == k as int && Cube(c) <= p * 0x1_0000_0000_0000_0000_0000_0000 < Cube(c + 1)
  }

  ghost predicate SquareRootBits(k: bv32, p: nat) {
    exists c: nat :: c % WORD == k as int && Square(c) <= p * 0x1_0000_0000_0000_0000 < Square(c + 1)
  }

  lemma CubeRoot(k: bv32, p: nat, whole: nat)
    requires var c := whole * 0x1_0000_0000 + k as int;
             c * c * c <= p * 0x1_0000_0000_0000_0000_0000_0000 < (c + 1) * (c + 1) * (c + 1)
    ensures CubeRootBits(k, p)
  {
    var c: nat := whole * 0x1_0000_0000 + k as int;
    FloorUnique(c, WORD, whole, k as int);
    assert Cube(c) == c * c * c && Cube(c + 1) == (c + 1) * (c + 1) * (c + 1);
  }

  lemma SquareRoot(k: bv32, p: nat, whole: nat)
    requires var c := whole * 0x1_0000_0000 + k as int;
             c * c <= p * 0x1_0000_0000_0000_0000 < (c + 1) * (c + 1)
    ensures SquareRootBits(k, p)
  {
    var c: nat := whole * 0x1_0000_0000 + k as int;
    FloorUnique(c, WORD, whole, k as int);
    assert Square(c) == c * c && Square(c + 1) == (c + 1) * (c + 1);
  }

  lemma Constants0()
    ensures |K| == |PRIMES| == 64 && forall i :: 0 <= i < 8 ==> CubeRootBits(K[i], PRIMES[i])
  {
    hide CubeRootBits;
    CubeRoot(0x428a2f98, 2, 1);
    CubeRoot(0x71374491, 3, 1);
    CubeRoot(0xb5c0fbcf, 5, 1);
    CubeRoot(0xe9b5dba5, 7, 1);
    CubeRoot(0x3956c25b, 11, 2);
    CubeRoot(0x59f111f1, 13, 2);
    CubeRoot(0x923f82a4, 17, 2);
    CubeRoot(0xab1c5ed5, 19, 2);
  }

  lemma Constants8()
    ensures |K| == |PRIMES| == 64 && forall i :: 8 <= i < 16 ==> CubeRootBits(K[i], PRIMES[i])
  {
    hide CubeRootBits;
    CubeRoot(0xd807aa98, 23, 2);
    CubeRoot(0x12835b01, 29, 3);
    CubeRoot(0x243185be, 31, 3);
    CubeRoot(0x550c7dc3, 37, 3);
    CubeRoot(0x72be5d74, 41, 3);
    CubeRoot(0x80deb1fe, 43, 3);
    CubeRoot(0x9bdc06a7, 47, 3);
    CubeRoot(0xc19bf174, 53, 3);
  }

  lemma Constants16()
    ensures |K| == |PRIMES| == 64 && forall i :: 16 <= i < 24 ==> CubeRootBits(K[i], PRIMES[i])
  {
    hide CubeRootBits;
    CubeRoot(0xe49b69c1, 59, 3);
    CubeRoot(0xefbe4786, 61, 3);
    CubeRoot(0x0fc19dc6, 67, 4);
    CubeRoot(0x240ca1cc, 71, 4);
    CubeRoot(0x2de92c6f, 73, 4);
    CubeRoot(0x4a7484aa, 79, 4);
    CubeRoot(0x5cb0a9dc, 83, 4);
    CubeRoot(0x76f988da, 89, 4);
  }

  lemma Constants24()
    ensures |K| == |PRIMES| == 64 && forall i :: 24 <= i < 32 ==> CubeRootBits(K[i], PRIMES[i])
  {
    hide CubeRootBits;
    CubeRoot(0x983e5152, 97, 4);
    CubeRoot(0xa831c66d, 101, 4);
    CubeRoot(0xb00327c8, 103, 4);
    CubeRoot(0xbf597fc7, 107, 4);
    CubeRoot(0xc6e00bf3, 109, 4);
    CubeRoot(0xd5a79147, 113, 4);
    CubeRoot(0x06ca6351, 127, 5);
    CubeRoot(0x14292967, 131, 5);
  }

  lemma Constants32()
    ensures |K| == |PRIMES| == 64 && forall i :: 32 <= i < 40 ==> CubeRootBits(K[i], PRIMES[i])
  {
    hide CubeRootBits;
    CubeRoot(0x27b70a85, 137, 5);
    CubeRoot(0x2e1b2138, 139, 5);
    CubeRoot(0x4d2c6dfc, 149, 5);
    CubeRoot(0x53380d13, 151, 5);
    CubeRoot(0x650a7354, 157, 5);
    CubeRoot(0x766a0abb, 163, 5);
    CubeRoot(0x81c2c92e, 167, 5);
    CubeRoot(0x92722c85, 173, 5);
  }

  lemma Constants40()
    ensures |K| == |PRIMES| == 64 && forall i :: 40 <= i < 48 ==> CubeRootBits(K[i], PRIMES[i])
  {
    hide CubeRootBits;
    CubeRoot(0xa2bfe8a1, 179, 5);
    CubeRoot(0xa81a664b, 181, 5);
    CubeRoot(0xc24b8b70, 191, 5);
    CubeRoot(0xc76c51a3, 193, 5);
    CubeRoot(0xd192e819, 197, 5);
    CubeRoot(0xd6990624, 199, 5);
    CubeRoot(0xf40e3585, 211, 5);
    CubeRoot(0x106aa070, 223, 6);
  }

  lemma Constants48()
    ensures |K| == |PRIMES| == 64 && forall i :: 48 <= i < 56 ==> CubeRootBits(K[i], PRIMES[i])
  {
    hide CubeRootBits;
    CubeRoot(0x19a4c116, 227, 6);
    CubeRoot(0x1e376c08, 229, 6);
    CubeRoot(0x2748774c, 233, 6);
    CubeRoot(0x34b0bcb5, 239, 6);
    CubeRoot(0x391c0cb3, 241, 6);
    CubeRoot(0x4ed8aa4a, 251, 6);
    CubeRoot(0x5b9cca4f, 257, 6);
    CubeRoot(0x682e6ff3, 263, 6);
  }

  lemma Constants56()
    ensures |K| == |PRIMES| == 64 && forall i :: 56 <= i < 64 ==> CubeRootBits(K[i], PRIMES[i])
  {
    hide CubeRootBits;
    CubeRoot(0x748f82ee, 269, 6);
    CubeRoot(0x78a5636f, 271, 6);
    CubeRoot(0x84c87814, 277, 6);
    CubeRoot(0x8cc70208, 281, 6);
    CubeRoot(0x90befffa, 283, 6);
    CubeRoot(0xa4506ceb, 293, 6);
    CubeRoot(0xbef9a3f7, 307, 6);
    CubeRoot(0xc67178f2, 311, 6);
  }

  /** The round constants are the first 32 bits of the fractional parts of the cube roots of the first 64 primes. */
  lemma RoundConstants()
    ensures |K| == |PRIMES| == 64 && forall i :: 0 <= i < 64 ==> CubeRootBits(K[i], PRIMES[i])
  {
    Constants0();
    Constants8();
    Constants16();
    Constants24();
    Constants32();
    Constants40();
    Constants48();
    Constants56();
    hide CubeRootBits, K, PRIMES;
  }

  /** The initial hash value is made of those of the square roots of the first eight. */
  lemma InitialValue()
    ensures |INITIAL| == 8 && |PRIMES| == 64 && forall i :: 0 <= i < 8 ==> SquareRootBits(INITIAL[i], PRIMES[i])
  {
    hide SquareRootBits;
    SquareRoot(0x6a09e667, 2, 1);
    SquareRoot(0xbb67ae85, 3, 1);
    SquareRoot(0x3c6ef372, 5, 2);
    SquareRoot(0xa54ff53a, 7, 2);
    SquareRoot(0x510e527f, 11, 3);
    SquareRoot(0x9b05688c, 13, 3);
    SquareRoot(0x1f83d9ab, 17, 4);
    SquareRoot(0x5be0cd19, 19, 4);
  }
}

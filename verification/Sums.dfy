/** Finite sums over sequences and powers of two, shared by the other modules. */
module Sums {

  function Sum(s: seq<int>): int {
    if |s| == 0 then 0 else Sum(s[..|s| - 1]) + s[|s| - 1]
  }

  lemma SumAppend(s: seq<int>, x: int)
    ensures Sum(s + [x]) == Sum(s) + x
  {
    assert (s + [x])[..|s|] == s;
  }

  lemma {:induction false} SumConcat(s: seq<int>, t: seq<int>)
    ensures Sum(s + t) == Sum(s) + Sum(t)
  {
    if |t| == 0 {
      assert s + t == s;
    } else {
      SumConcat(s, t[..|t| - 1]);
      assert (s + t)[..|s + t| - 1] == s + t[..|t| - 1];
    }
  }

  lemma {:induction false} SumUpdate(s: seq<int>, i: nat, v: int)
    requires i < |s|
    ensures Sum(s[i := v]) == Sum(s) - s[i] + v
  {
    var m := |s| - 1;
    if i == m {
      assert s[i := v][..m] == s[..m];
    } else {
      SumUpdate(s[..m], i, v);
      assert s[i := v][..m] == s[..m][i := v];
    }
  }

  lemma {:induction false} SumPointwise(a: seq<int>, b: seq<int>, c: seq<int>)
    requires |a| == |b| == |c|
    requires forall i :: 0 <= i < |c| ==> c[i] == a[i] + b[i]
    ensures Sum(c) == Sum(a) + Sum(b)
  {
    if |a| > 0 {
      var m := |a| - 1;
      SumPointwise(a[..m], b[..m], c[..m]);
    }
  }

  lemma {:induction false} SumMonotone(a: seq<int>, b: seq<int>)
    requires |a| == |b|
    requires forall i :: 0 <= i < |a| ==> a[i] <= b[i]
    ensures Sum(a) <= Sum(b)
  {
    if |a| > 0 {
      var m := |a| - 1;
      SumMonotone(a[..m], b[..m]);
    }
  }

  lemma {:induction false} SumScale(a: seq<int>, b: seq<int>, k: int)
    requires |a| == |b|
    requires forall i :: 0 <= i < |a| ==> b[i] == k * a[i]
    ensures Sum(b) == k * Sum(a)
  {
    if |a| > 0 {
      var m := |a| - 1;
      SumScale(a[..m], b[..m], k);
      assert k * Sum(a) == k * Sum(a[..m]) + k * a[m];
    }
  }

  lemma {:induction false} SumOfZeros(s: seq<int>)
    requires forall i :: 0 <= i < |s| ==> s[i] == 0
    ensures Sum(s) == 0
  {
    if |s| > 0 { SumOfZeros(s[..|s| - 1]); }
  }

  /** A sum with a single non-zero term is that term. */
  lemma SumOfOne(s: seq<int>, i: nat)
    requires i < |s|
    requires forall j :: 0 <= j < |s| && j != i ==> s[j] == 0
    ensures Sum(s) == s[i]
  {
    SumUpdate(s, i, 0);
    SumOfZeros(s[i := 0]);
  }

  lemma SumNonNegative(s: seq<int>)
    requires forall i :: 0 <= i < |s| ==> 0 <= s[i]
    ensures 0 <= Sum(s)
  {
    var z := seq(|s|, _ => 0);
    SumOfZeros(z);
    SumMonotone(z, s);
  }

  /** One term of a sum of non-negative terms is at most the sum. */
  lemma SumAtLeastTerm(s: seq<int>, i: nat)
    requires i < |s|
    requires forall j :: 0 <= j < |s| ==> 0 <= s[j]
    ensures s[i] <= Sum(s)
  {
    SumUpdate(s, i, 0);
    SumNonNegative(s[i := 0]);
  }

  /** Two terms of a sum of non-negative terms are at most the sum. */
  lemma SumAtLeastTwo(s: seq<int>, i: nat, j: nat)
    requires i < |s| && j < |s| && i != j
    requires forall k :: 0 <= k < |s| ==> 0 <= s[k]
    ensures s[i] + s[j] <= Sum(s)
  {
    SumUpdate(s, i, 0);
    SumAtLeastTerm(s[i := 0], j);
  }

  /** The values at live positions; dead positions count as zero. */
  function Masked(live: seq<bool>, v: seq<int>): (r: seq<int>)
    requires |live| == |v|
  {
    seq(|v|, j requires 0 <= j < |v| => if live[j] then v[j] else 0)
  }

  function LiveSum(live: seq<bool>, v: seq<int>): int
    requires |live| == |v|
  {
    Sum(Masked(live, v))
  }

  /** Retiring two live positions and appending a live one changes a live sum by exactly those terms. */
  lemma LiveSumMerge(live: seq<bool>, v: seq<int>, p: nat, q: nat, x: int)
    requires |live| == |v|
    requires p < |v| && q < |v| && p != q && live[p] && live[q]
    ensures LiveSum(live[p := false][q := false] + [true], v + [x]) == LiveSum(live, v) - v[p] - v[q] + x
  {
    var s := Masked(live, v);
    SumUpdate(s, p, 0);
    SumUpdate(s[p := 0], q, 0);
    SumAppend(s[p := 0][q := 0], x);
    assert Masked(live[p := false][q := false] + [true], v + [x]) == s[p := 0][q := 0] + [x];
  }

  function Pow2(n: nat): (r: nat)
    ensures r > 0
  {
    if n == 0 then 1 else 2 * Pow2(n - 1)
  }

  lemma {:induction false} Pow2Sum(a: nat, b: nat)
    ensures Pow2(a + b) == Pow2(a) * Pow2(b)
  {
    if a > 0 {
      Pow2Sum(a - 1, b);
    }
  }

  lemma {:induction false} Pow2Monotone(a: nat, b: nat)
    requires a <= b
    ensures Pow2(a) <= Pow2(b)
  {
    if a < b { Pow2Monotone(a, b - 1); }
  }

  lemma Pow2Of32()
    ensures Pow2(32) == 0x1_0000_0000
  {
    assert Pow2(8) == 256;
    Pow2Sum(8, 8);
    Pow2Sum(16, 16);
  }
}

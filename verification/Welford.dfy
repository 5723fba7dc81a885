/** Welford's online mean and variance, over exact real numbers, against the two-pass definitions. */
module Welford {
  import opened Permutations

  function Sum(s: seq<real>): real {
    if |s| == 0 then 0.0 else Sum(s[..|s| - 1]) + s[|s| - 1]
  }

  function Square(x: real): real {
    x * x
  }

  function Times(x: real, y: real): real {
    x * y
  }

  /** The sum of squared deviations from m. */
  function SquaredDeviations(s: seq<real>, m: real): real {
    if |s| == 0 then 0.0 else SquaredDeviations(s[..|s| - 1], m) + Square(s[|s| - 1] - m)
  }

  /** The arithmetic mean, zero for no samples. */
  function Mean(s: seq<real>): real {
    if |s| == 0 then 0.0 else Sum(s) / (|s| as real)
  }

  /** The sample variance by two passes, zero for fewer than two samples. */
  function Variance(s: seq<real>): real {
    if |s| < 2 then 0.0 else SquaredDeviations(s, Mean(s)) / ((|s| - 1) as real)
  }

  /** The mean, and the squared deviations from it. */
  ghost predicate Moments(s: seq<real>, mean: real, m2: real) {
    mean == Mean(s) && m2 == SquaredDeviations(s, mean)
  }

  /** A bound that no sample falls below (or rises above) and that is a sample or the initial sentinel. */
  ghost predicate IsMinimum(s: seq<real>, sentinel: real, m: real) {
    m <= sentinel && (forall i :: 0 <= i < |s| ==> m <= s[i]) && (m == sentinel || m in s)
  }

  ghost predicate IsMaximum(s: seq<real>, sentinel: real, m: real) {
    m >= sentinel && (forall i :: 0 <= i < |s| ==> m >= s[i]) && (m == sentinel || m in s)
  }

  const SENTINEL: real := 1000000000000000000000000000000.0

  class OnlineStats {
    var count: int
    var mean: real
    var m2: real
    var minVal: real
    var maxVal: real
    /** Every sample pushed since initialisation. */
    ghost var samples: seq<real>

    ghost predicate Valid()
      reads this
    {
      && count == |samples|
      && Moments(samples, mean, m2)
      && IsMinimum(samples, SENTINEL, minVal) && IsMaximum(samples, -SENTINEL, maxVal)
    }

    constructor ()
      ensures Valid() && samples == []
    {
      count, mean, m2 := 0, 0.0, 0.0;
      minVal, maxVal := SENTINEL, -SENTINEL;
      samples := [];
    }

    method Push(value: real)
      requires Valid()
      modifies this
      ensures Valid() && samples == old(samples) + [value]
    {
      hide Moments, IsMinimum, IsMaximum;
      Extremes(samples, value, minVal, maxVal);
      ghost var mean0, m20 := mean, m2;
      count := count + 1;
      var delta := value - mean;
      mean := mean + delta / (count as real);
      var delta2 := value - mean;
      m2 := m2 + delta * delta2;
      PushKeepsMoments(samples, value, count as real, mean0, m20, mean, m2);
      if value < minVal { minVal := value; }
      if value > maxVal { maxVal := value; }
      samples := samples + [value];
    }

    method GetVariance() returns (r: real)
      requires Valid()
      ensures r == Variance(samples)
    {
      if count < 2 {
        return 0.0;
      }
      r := m2 / ((count - 1) as real);
    }
  }

  lemma Extremes(s: seq<real>, x: real, low: real, high: real)
    requires IsMinimum(s, SENTINEL, low) && IsMaximum(s, -SENTINEL, high)
    ensures IsMinimum(s + [x], SENTINEL, if x < low then x else low)
    ensures IsMaximum(s + [x], -SENTINEL, if x > high then x else high)
  {
    assert (s + [x])[|s|] == x;
    assert forall y :: y in s ==> y in s + [x];
  }

  /** What moving the reference point from m to m' adds to the squared deviations of n samples. */
  function Shift(total: real, n: real, m: real, m': real): real {
    2.0 * (m - m') * (total - n * m) + n * Square(m - m')
  }

  lemma {:induction false} DeviationsElsewhere(s: seq<real>, m: real, m': real)
    ensures SquaredDeviations(s, m') == SquaredDeviations(s, m) + Shift(Sum(s), |s| as real, m, m')
  {
    if |s| > 0 {
      hide Shift, Square;
      var n := |s| - 1;
      DeviationsElsewhere(s[..n], m, m');
      OneDeviation(s[n], m, m', Sum(s[..n]), n as real);
      assert n as real + 1.0 == |s| as real;
    }
  }

  lemma OneDeviation(x: real, m: real, m': real, total: real, n: real)
    ensures Shift(total, n, m, m') + Square(x - m') == Square(x - m) + Shift(total + x, n + 1.0, m, m')
  {
    var d := m - m';
    assert Square(x - m') == Square((x - m) + d) == Square(x - m) + 2.0 * d * (x - m) + Square(d);
    Distribute(2.0 * d, total - n * m, x - m);
    assert total - n * m + (x - m) == total + x - (n + 1.0) * m;
  }

  lemma Distribute(a: real, b: real, c: real)
    ensures a * (b + c) == a * b + a * c
  {
  }

  /** One Welford step turns the mean and squared deviations of s into those of s + [x]. */
  lemma PushKeepsMoments(s: seq<real>, x: real, c: real, m: real, m2: real, m': real, m2': real)
    requires Moments(s, m, m2)
    requires c == (|s| + 1) as real && m' == m + (x - m) / c && m2' == m2 + (x - m) * (x - m')
    ensures Moments(s + [x], m', m2')
  {
    Divided(x - m, c);
    PushMovesMean(s, x, c, m, m');
    PushMovesDeviations(s, x, c, m, m');
  }

  lemma PushMovesMean(s: seq<real>, x: real, c: real, m: real, m': real)
    requires m == Mean(s) && c == (|s| + 1) as real && Times(m' - m, c) == x - m
    ensures Mean(s + [x]) == m'
  {
    SumOfPush(s, x, m');
    MeanTimesCount(s);
    NextMean(|s| as real, c, m, m' - m, x);
    hide *;
  }

  lemma PushMovesDeviations(s: seq<real>, x: real, c: real, m: real, m': real)
    requires m == Mean(s) && c == (|s| + 1) as real && Times(m' - m, c) == x - m
    ensures SquaredDeviations(s + [x], m') == SquaredDeviations(s, m) + Times(x - m, x - m')
  {
    ShiftAndStep(|s| as real, c, m, m', x);
    MeanTimesCount(s);
    DeviationsElsewhere(s, m, m');
    SumOfPush(s, x, m');
    hide *;
  }

  lemma SumOfPush(s: seq<real>, x: real, m: real)
    ensures Sum(s + [x]) == Sum(s) + x
    ensures Mean(s + [x]) == (Sum(s) + x) / ((|s| + 1) as real)
    ensures SquaredDeviations(s + [x], m) == SquaredDeviations(s, m) + Square(x - m)
  {
    hide Square;
    assert (s + [x])[..|s|] == s;
  }

  lemma Divided(a: real, c: real)
    requires c != 0.0
    ensures (a / c) * c == a
  {
  }

  lemma MeanTimesCount(s: seq<real>)
    ensures Sum(s) == Times(|s| as real, Mean(s))
  {
    if |s| > 0 {
      Divided(Sum(s), |s| as real);
    }
  }

  lemma ShiftAndStep(n: real, c: real, m: real, m': real, x: real)
    requires c == n + 1.0 && Times(m' - m, c) == x - m
    ensures Shift(Times(n, m), n, m, m') + Square(x - m') == Times(x - m, x - m')
  {
    NextDeviations(n, c, m, m', m' - m, x);
    hide Square;
    assert n * m - n * m == 0.0;
  }

  lemma NextMean(n: real, c: real, m: real, e: real, x: real)
    requires n >= 0.0 && c == n + 1.0 && Times(e, c) == x - m
    ensures (Times(n, m) + x) / c == m + e
  {
    assert n * m + x == c * m + (x - m) == c * (m + e);
  }

  lemma NextDeviations(n: real, c: real, m: real, m': real, e: real, x: real)
    requires c == n + 1.0 && e * c == x - m && m' == m + e
    ensures n * Square(m - m') + Square(x - m') == (x - m) * (x - m')
  {
    assert m - m' == -e;
    assert x - m' == e * c - e == e * n;
    assert Square(e * n) == (e * n) * (e * n);
    assert n * Square(-e) == e * (e * n);
    assert e * (e * n) + (e * n) * (e * n) == (e * c) * (e * n);
  }

  // ---------- Arrival order ----------

  lemma {:induction false} SumConcat(s: seq<real>, t: seq<real>, m: real)
    ensures Sum(s + t) == Sum(s) + Sum(t)
    ensures SquaredDeviations(s + t, m) == SquaredDeviations(s, m) + SquaredDeviations(t, m)
  {
    if |t| == 0 {
      assert s + t == s;
    } else {
      SumConcat(s, t[..|t| - 1], m);
      assert (s + t)[..|s + t| - 1] == s + t[..|t| - 1];
    }
  }

  lemma SumInserted(u: seq<real>, x: real, v: seq<real>, m: real)
    ensures Sum(u + [x] + v) == Sum(u + v) + x
    ensures SquaredDeviations(u + [x] + v, m) == SquaredDeviations(u + v, m) + Square(x - m)
  {
    hide Sum, SquaredDeviations, Square;
    SumConcat(u, v, m);
    SumConcat(u + [x], v, m);
    SumOfPush(u, x, m);
  }

  lemma {:induction false} SumsIgnoreOrder(s: seq<real>, t: seq<real>, m: real)
    requires multiset(s) == multiset(t)
    ensures Sum(s) == Sum(t) && SquaredDeviations(s, m) == SquaredDeviations(t, m) && |s| == |t|
  {
    hide Square;
    SameLength(s, t);
    if |s| > 0 {
      var n := |s| - 1;
      var i := MatchLast(s, t);
      SumsIgnoreOrder(s[..n], t[..i] + t[i + 1..], m);
      SumInserted(t[..i], t[i], t[i + 1..], m);
      assert t == t[..i] + [t[i]] + t[i + 1..];
    }
  }

  /** The reported variance and mean depend only on which samples arrived, not on their order. */
  lemma VarianceIgnoresOrder(s: seq<real>, t: seq<real>)
    requires multiset(s) == multiset(t)
    ensures Mean(s) == Mean(t) && Variance(s) == Variance(t)
  {
    SumsIgnoreOrder(s, t, Mean(s));
  }

  // ---------- All pairs ----------

  /** The squares of the differences between x and every sample. */
  function DifferencesFrom(s: seq<real>, x: real): real {
    if |s| == 0 then 0.0 else DifferencesFrom(s[..|s| - 1], x) + (s[|s| - 1] - x) * (s[|s| - 1] - x)
  }

  /** The squares of the differences between every sample of s and every sample of t. */
  function Differences(s: seq<real>, t: seq<real>): real {
    if |t| == 0 then 0.0 else Differences(s, t[..|t| - 1]) + DifferencesFrom(s, t[|t| - 1])
  }

  lemma {:induction false} DifferencesAreDeviations(s: seq<real>, x: real)
    ensures DifferencesFrom(s, x) == SquaredDeviations(s, x)
  {
    if |s| > 0 { DifferencesAreDeviations(s[..|s| - 1], x); }
  }

  lemma ShiftFromMean(n: real, m: real, x: real)
    ensures Shift(Times(n, m), n, m, x) == Times(n, Square(x - m))
  {
    assert n * m - n * m == 0.0;
    assert (m - x) * (m - x) == (x - m) * (x - m);
  }

  /** Away from the mean every sample adds the square of the distance. */
  lemma AwayFromMean(s: seq<real>, x: real)
    ensures SquaredDeviations(s, x) == SquaredDeviations(s, Mean(s)) + Times(|s| as real, Square(x - Mean(s)))
  {
    DeviationsElsewhere(s, Mean(s), x);
    MeanTimesCount(s);
    ShiftFromMean(|s| as real, Mean(s), x);
    hide *;
  }

  lemma OneMoreRow(k: real, n: real, a: real, b: real, q: real)
    ensures Times(k, a) + Times(n, b) + (a + Times(n, q)) == Times(k + 1.0, a) + Times(n, b + q)
  {
    Distribute(n, b, q);
    assert (k + 1.0) * a == k * a + a;
  }

  lemma LastRow(s: seq<real>, t: seq<real>, m: real)
    requires |t| > 0
    ensures var n := |t| - 1;
            && Differences(s, t) == Differences(s, t[..n]) + DifferencesFrom(s, t[n])
            && SquaredDeviations(t, m) == SquaredDeviations(t[..n], m) + Square(t[n] - m)
            && |t| as real == n as real + 1.0
  {
  }

  lemma {:induction false} DifferencesFromMean(s: seq<real>, t: seq<real>)
    ensures Differences(s, t) == Times(|t| as real, SquaredDeviations(s, Mean(s)))
                                 + Times(|s| as real, SquaredDeviations(t, Mean(s)))
  {
    if |t| > 0 {
      var n, m := |t| - 1, Mean(s);
      DifferencesFromMean(s, t[..n]);
      DifferencesAreDeviations(s, t[n]);
      AwayFromMean(s, t[n]);
      OneMoreRow(n as real, |s| as real, SquaredDeviations(s, m), SquaredDeviations(t[..n], m), Square(t[n] - m));
      LastRow(s, t, m);
      hide *;
    } else {
      assert SquaredDeviations(t, Mean(s)) == 0.0;
      hide SquaredDeviations, Mean;
    }
  }

  /** The variance is the sum of the squared differences of all pairs over twice the number of pairs. */
  lemma VarianceOfPairs(s: seq<real>)
    requires |s| >= 2
    ensures 2.0 * (|s| as real) * ((|s| - 1) as real) * Variance(s) == Differences(s, s)
  {
    var d := SquaredDeviations(s, Mean(s));
    DifferencesFromMean(s, s);
    VarianceTimesCount(s);
    MultiplyThrough(|s| as real, (|s| - 1) as real, Variance(s), d);
    hide *;
  }

  lemma VarianceTimesCount(s: seq<real>)
    requires |s| >= 2
    ensures Times(Variance(s), (|s| - 1) as real) == SquaredDeviations(s, Mean(s))
  {
    Divided(SquaredDeviations(s, Mean(s)), (|s| - 1) as real);
    hide SquaredDeviations, Mean;
  }

  lemma MultiplyThrough(n: real, k: real, v: real, d: real)
    requires Times(v, k) == d
    ensures 2.0 * n * k * v == Times(n, d) + Times(n, d)
  {
    assert n * k * v == n * (v * k);
  }

  /** The extremes are samples unless every sample lies beyond 10^30, and then they are that bound. */
  lemma ExtremesAreSamples(s: seq<real>, low: real, high: real)
    requires IsMinimum(s, SENTINEL, low) && IsMaximum(s, -SENTINEL, high)
    ensures var bound := 1000000000000000000000000000000.0;
            && (low in s || (low == bound && forall i :: 0 <= i < |s| ==> s[i] > bound))
            && (high in s || (high == -bound && forall i :: 0 <= i < |s| ==> s[i] < -bound))
            && (forall i :: 0 <= i < |s| ==> low <= s[i] <= high)
  {
    assert forall i :: 0 <= i < |s| ==> s[i] in s;
  }
}

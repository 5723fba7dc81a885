/** Index arithmetic with symbolic dimensions, and buffers filled from the front. */
module Indexing {
  function Min(a: int, b: int): int {
    if a < b then a else b
  }

  function Max(a: int, b: int): int {
    if a > b then a else b
  }

  lemma AtLeastOnce(k: int, d: nat)
    requires k >= 1
    ensures k * d >= d
  {
  }

  lemma Regroup(q: int, q': int, d: int)
    ensures (q - q') * d == q * d - q' * d
  {
  }

  lemma QuotientsAgree(d: nat, q: int, r: int, q': int, r': int)
    requires q * d + r == q' * d + r' && 0 <= r < d && 0 <= r' < d
    ensures q == q' && r == r'
  {
    Regroup(q, q', d);
    Regroup(q', q, d);
    if q > q' {
      AtLeastOnce(q - q', d);
    } else if q < q' {
      AtLeastOnce(q' - q, d);
    }
  }

  /** Quotient and remainder are determined by their defining equation. */
  lemma FloorUnique(x: int, d: nat, q: int, r: int)
    requires d > 0 && x == q * d + r && 0 <= r < d
    ensures x / d == q && x % d == r
  {
    assert x == (x / d) * d + x % d;
    QuotientsAgree(d, q, r, x / d, x % d);
  }

  lemma MulMonotone(r: int, s: int, d: nat)
    requires r <= s
    ensures r * d <= s * d
  {
  }

  lemma SplitSum(r: int, s: int, d: int)
    ensures (r + s) * d == r * d + s * d
  {
  }

  lemma MulNonNegative(a: int, b: int)
    requires a >= 0 && b >= 0
    ensures a * b >= 0
  {
  }

  lemma MulAssociates(a: int, b: int, c: int)
    ensures a * b * c == a * (b * c)
  {
  }

  lemma AtLeastOne(a: int, b: int)
    requires a > 0 && b > 0
    ensures a * b > 0
  {
  }

  /** a * k + d with d < k has the digits a and d. */
  lemma Digit(a: int, n: int, d: int, k: nat)
    requires 0 <= a < n && 0 <= d < k
    ensures 0 <= a * k + d < n * k && (a * k + d) / k == a && (a * k + d) % k == d
  {
    MulMonotone(0, a, k);
    MulMonotone(a + 1, n, k);
    SplitSum(a, 1, k);
    FloorUnique(a * k + d, k, a, d);
  }

  lemma QuotientInRange(idx: int, n: int, k: int)
    requires 0 <= idx < n * k && k > 0
    ensures 0 <= idx / k < n
  {
    assert idx == (idx / k) * k + idx % k;
    if idx / k >= n { MulMonotone(n, idx / k, k); }
  }

  // ---------- Buffers filled from the front ----------

  /** The first n entries are those of the result, the rest are as before. */
  ghost predicate Filled<T>(result: seq<T>, before: seq<T>, now: seq<T>, n: int) {
    0 <= n <= |result| <= |before| && now == result[..n] + before[n..]
  }

  lemma FillOne<T>(result: seq<T>, before: seq<T>, now: seq<T>, n: int, x: T)
    requires Filled(result, before, now, n) && n < |result| && x == result[n]
    ensures Filled(result, before, now[n := x], n + 1)
  {
  }

  lemma FilledLength<T>(result: seq<T>, before: seq<T>, now: seq<T>, n: int)
    requires Filled(result, before, now, n)
    ensures 0 <= n <= |result| <= |now|
  {
  }

  lemma FilledAll<T>(result: seq<T>, before: seq<T>, now: seq<T>)
    requires Filled(result, before, now, |result|)
    ensures now == result + before[|result|..]
  {
  }
}

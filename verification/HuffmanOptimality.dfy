/**
 The exchange argument behind Huffman's algorithm, on code lengths instead of trees.

 A state of the merging loop is a row of weights of which some are still live. A length assignment
 fits when the live lengths satisfy the Kraft inequality; every prefix-free code gives one.
 Merging the two lightest live weights p and q never loses optimality: any fitting assignment yields a
 fitting one for the merged row that is cheaper by at least weight p + weight q.
 */
module HuffmanOptimality {
  import opened Sums

  /** 2^(cap - l) for every length l, the Kraft terms scaled by 2^cap. */
  function KraftTerms(ls: seq<nat>, cap: nat): (r: seq<int>)
  {
    seq(|ls|, j requires 0 <= j < |ls| => if ls[j] <= cap then Pow2(cap - ls[j]) else 0)
  }

  function Costs(f: seq<nat>, ls: seq<nat>): (r: seq<int>)
    requires |f| == |ls|
  {
    seq(|f|, j requires 0 <= j < |f| => f[j] * ls[j])
  }

  /** The weighted total length of the live entries. */
  function Cost(live: seq<bool>, f: seq<nat>, ls: seq<nat>): int
    requires |live| == |f| == |ls|
  {
    LiveSum(live, Costs(f, ls))
  }

  ghost predicate Bounded(live: seq<bool>, ls: seq<nat>, cap: nat)
    requires |live| == |ls|
  {
    forall j :: 0 <= j < |ls| && live[j] ==> ls[j] <= cap
  }

  function Kraft(live: seq<bool>, ls: seq<nat>, cap: nat): int
    requires |live| == |ls|
  {
    LiveSum(live, KraftTerms(ls, cap))
  }

  /** The live lengths are at most cap and satisfy the Kraft inequality. */
  ghost predicate Fits(live: seq<bool>, ls: seq<nat>, cap: nat)
  {
    |live| == |ls| && Bounded(live, ls, cap) && Kraft(live, ls, cap) <= Pow2(cap)
  }

  lemma Reassign(live: seq<bool>, f: seq<nat>, ls: seq<nat>, cap: nat, p: nat, l: nat)
    requires |live| == |f| == |ls|
    requires p < |ls| && live[p] && ls[p] <= cap && l <= cap
    ensures Cost(live, f, ls[p := l]) == Cost(live, f, ls) - f[p] * ls[p] + f[p] * l
    ensures Kraft(live, ls[p := l], cap) == Kraft(live, ls, cap) - Pow2(cap - ls[p]) + Pow2(cap - l)
  {
    SumUpdate(Masked(live, Costs(f, ls)), p, f[p] * l);
    assert Masked(live, Costs(f, ls[p := l])) == Masked(live, Costs(f, ls))[p := f[p] * l];
    SumUpdate(Masked(live, KraftTerms(ls, cap)), p, Pow2(cap - l));
    assert Masked(live, KraftTerms(ls[p := l], cap)) == Masked(live, KraftTerms(ls, cap))[p := Pow2(cap - l)];
  }

  lemma Rescale(live: seq<bool>, ls: seq<nat>, cap: nat)
    requires |live| == |ls| && cap > 0 && Bounded(live, ls, cap - 1)
    ensures Kraft(live, ls, cap) == 2 * Kraft(live, ls, cap - 1)
  {
    SumScale(Masked(live, KraftTerms(ls, cap - 1)), Masked(live, KraftTerms(ls, cap)), 2);
  }

  /** An assignment whose Kraft sum fits 2^0 has at most one live entry. */
  lemma OneEntryAtCapZero(live: seq<bool>, ls: seq<nat>, p: nat, q: nat)
    requires |live| == |ls| && p < |ls| && q < |ls| && p != q && live[p] && live[q]
    requires Bounded(live, ls, 0)
    ensures Kraft(live, ls, 0) > 1
  {
    SumAtLeastTwo(Masked(live, KraftTerms(ls, 0)), p, q);
  }

  /** Shortening a unique longest live length keeps the Kraft inequality and never costs more. */
  lemma ShortenUniqueLongest(live: seq<bool>, f: seq<nat>, ls: seq<nat>, cap: nat, p: nat)
    requires |f| == |ls| && Fits(live, ls, cap) && cap > 0
    requires p < |ls| && live[p] && ls[p] == cap
    requires forall j :: 0 <= j < |ls| && live[j] && j != p ==> ls[j] < cap
    ensures Fits(live, ls[p := cap - 1], cap - 1)
    ensures Cost(live, f, ls[p := cap - 1]) <= Cost(live, f, ls)
  {
    Reassign(live, f, ls, cap, p, cap - 1);
    Rescale(live, ls[p := cap - 1], cap);
    assert f[p] * (cap - 1) <= f[p] * cap;
  }

  /** Every fitting assignment can be turned, at no extra cost, into one with two live entries at the cap. */
  lemma {:induction false} TwoAtCap(live: seq<bool>, f: seq<nat>, ls: seq<nat>, cap: nat, p: nat, q: nat)
    returns (ls': seq<nat>, cap': nat, x: nat, y: nat)
    requires |f| == |ls| && Fits(live, ls, cap)
    requires p < |ls| && q < |ls| && p != q && live[p] && live[q]
    ensures |ls'| == |ls| && Fits(live, ls', cap') && Cost(live, f, ls') <= Cost(live, f, ls)
    ensures cap' > 0 && x < |ls| && y < |ls| && x != y && live[x] && live[y] && ls'[x] == ls'[y] == cap'
    decreases cap
  {
    if cap == 0 {
      OneEntryAtCapZero(live, ls, p, q);
    } else if z :| 0 <= z < |ls| && live[z] && ls[z] == cap {
      if t :| 0 <= t < |ls| && live[t] && ls[t] == cap && t != z {
        ls', cap', x, y := ls, cap, z, t;
      } else {
        ShortenUniqueLongest(live, f, ls, cap, z);
        ls', cap', x, y := TwoAtCap(live, f, ls[z := cap - 1], cap - 1, p, q);
      }
    } else {
      Rescale(live, ls, cap);
      ls', cap', x, y := TwoAtCap(live, f, ls, cap - 1, p, q);
    }
  }

  /** The rearrangement inequality on two terms. */
  lemma RearrangementSaves(a: nat, b: nat, l: nat, cap: nat)
    requires a <= b && l <= cap
    ensures a * cap + b * l <= a * l + b * cap
  {
    assert (b - a) * (cap - l) == b * cap - b * l - a * cap + a * l;
  }

  /** Swapping the lengths of a light entry and a heavier one at the cap never costs more. */
  lemma SwapToCap(live: seq<bool>, f: seq<nat>, ls: seq<nat>, cap: nat, light: nat, heavy: nat)
    requires |f| == |ls| && Fits(live, ls, cap)
    requires light < |ls| && heavy < |ls| && light != heavy && live[light] && live[heavy]
    requires f[light] <= f[heavy] && ls[heavy] == cap
    ensures Fits(live, ls[light := cap][heavy := ls[light]], cap)
    ensures Cost(live, f, ls[light := cap][heavy := ls[light]]) <= Cost(live, f, ls)
  {
    Reassign(live, f, ls, cap, light, cap);
    Reassign(live, f, ls[light := cap], cap, heavy, ls[light]);
    RearrangementSaves(f[light], f[heavy], ls[light], cap);
  }

  /** p is a lightest live entry and q a lightest live entry other than p. */
  ghost predicate TwoLightest(live: seq<bool>, f: seq<nat>, p: nat, q: nat)
    requires |live| == |f|
  {
    && p < |f| && q < |f| && p != q && live[p] && live[q]
    && (forall j :: 0 <= j < |f| && live[j] ==> f[p] <= f[j])
    && (forall j :: 0 <= j < |f| && live[j] && j != p ==> f[q] <= f[j])
  }

  /** The two lightest entries can be given the longest length at no extra cost. */
  lemma LightestAtCap(live: seq<bool>, f: seq<nat>, ls: seq<nat>, cap: nat, p: nat, q: nat)
    returns (ls': seq<nat>, cap': nat)
    requires |live| == |f| == |ls| && Fits(live, ls, cap) && TwoLightest(live, f, p, q)
    ensures |ls'| == |ls| && Fits(live, ls', cap') && Cost(live, f, ls') <= Cost(live, f, ls)
    ensures cap' > 0 && ls'[p] == ls'[q] == cap'
  {
    var x, y;
    ls', cap', x, y := TwoAtCap(live, f, ls, cap, p, q);
    // o: an entry at the cap other than p
    var o := if x != p then x else y;
    if ls'[p] != cap' {
      var z := if x != q then x else y;
      o := if z == x then y else x;
      SwapToCap(live, f, ls', cap', p, z);
      ls' := ls'[p := cap'][z := ls'[p]];
    }
    if ls'[q] != cap' {
      SwapToCap(live, f, ls', cap', q, o);
      ls' := ls'[q := cap'][o := ls'[q]];
    }
  }

  /** The row after p and q are merged into a new last entry. */
  function MergedLive(live: seq<bool>, p: nat, q: nat): seq<bool>
    requires p < |live| && q < |live|
  {
    live[p := false][q := false] + [true]
  }

  /** One merge step: a fitting assignment yields one for the merged row, cheaper by f[p] + f[q] at least. */
  lemma MergeStep(live: seq<bool>, f: seq<nat>, ls: seq<nat>, cap: nat, p: nat, q: nat)
    returns (ls': seq<nat>, cap': nat)
    requires |live| == |f| == |ls| && Fits(live, ls, cap) && TwoLightest(live, f, p, q)
    ensures |ls'| == |ls| + 1 && Fits(MergedLive(live, p, q), ls', cap')
    ensures Cost(MergedLive(live, p, q), f + [f[p] + f[q]], ls') + f[p] + f[q] <= Cost(live, f, ls)
  {
    var deep;
    deep, cap' := LightestAtCap(live, f, ls, cap, p, q);
    ls' := deep + [cap' - 1];
    LiveSumMerge(live, KraftTerms(deep, cap'), p, q, 2);
    assert Pow2(1) == 2;
    assert KraftTerms(ls', cap') == KraftTerms(deep, cap') + [2];
    var merged := (f[p] + f[q]) * (cap' - 1);
    LiveSumMerge(live, Costs(f, deep), p, q, merged);
    assert Costs(f + [f[p] + f[q]], ls') == Costs(f, deep) + [merged];
    assert merged == f[p] * cap' + f[q] * cap' - f[p] - f[q];
  }

  /** Every assignment fitting the n initial weights costs at least acc plus one fitting the current row. */
  ghost predicate LowerBound(w: seq<nat>, live: seq<bool>, f: seq<nat>, acc: int)
    requires |live| == |f|
  {
    forall ls: seq<nat>, cap: nat :: |ls| == |w| && Fits(AllLive(|w|), ls, cap) ==> Continues(w, live, f, acc, ls)
  }

  ghost predicate Continues(w: seq<nat>, live: seq<bool>, f: seq<nat>, acc: int, ls: seq<nat>)
    requires |live| == |f| && |ls| == |w|
  {
    exists ls': seq<nat>, cap': nat ::
      |ls'| == |f| && Fits(live, ls', cap') && acc + Cost(live, f, ls') <= Cost(AllLive(|w|), w, ls)
  }

  function AllLive(n: nat): (r: seq<bool>)
    ensures |r| == n && forall i :: 0 <= i < n ==> r[i]
  {
    seq(n, _ => true)
  }

  lemma LowerBoundInit(w: seq<nat>)
    ensures LowerBound(w, AllLive(|w|), w, 0)
  {
    forall ls: seq<nat>, cap: nat | |ls| == |w| && Fits(AllLive(|w|), ls, cap)
      ensures Continues(w, AllLive(|w|), w, 0, ls)
    {
      assert Fits(AllLive(|w|), ls, cap) && 0 + Cost(AllLive(|w|), w, ls) <= Cost(AllLive(|w|), w, ls);
    }
  }

  lemma LowerBoundMerge(w: seq<nat>, live: seq<bool>, f: seq<nat>, acc: int, p: nat, q: nat)
    requires |live| == |f| && LowerBound(w, live, f, acc) && TwoLightest(live, f, p, q)
    ensures LowerBound(w, MergedLive(live, p, q), f + [f[p] + f[q]], acc + f[p] + f[q])
  {
    forall ls: seq<nat>, cap: nat | |ls| == |w| && Fits(AllLive(|w|), ls, cap)
      ensures Continues(w, MergedLive(live, p, q), f + [f[p] + f[q]], acc + f[p] + f[q], ls)
    {
      assert Continues(w, live, f, acc, ls);
      var mid: seq<nat>, cap': nat :|
        |mid| == |f| && Fits(live, mid, cap') && acc + Cost(live, f, mid) <= Cost(AllLive(|w|), w, ls);
      var ls', cap'' := MergeStep(live, f, mid, cap', p, q);
    }
  }

  /** What remains costs nothing less than zero, so acc itself is a lower bound. */
  lemma LowerBoundFinal(w: seq<nat>, live: seq<bool>, f: seq<nat>, acc: int, ls: seq<nat>, cap: nat)
    requires |live| == |f| && LowerBound(w, live, f, acc)
    requires |ls| == |w| && Fits(AllLive(|w|), ls, cap)
    ensures acc <= Cost(AllLive(|w|), w, ls)
  {
    assert Continues(w, live, f, acc, ls);
    var ls': seq<nat>, cap': nat :|
      |ls'| == |f| && Fits(live, ls', cap') && acc + Cost(live, f, ls') <= Cost(AllLive(|w|), w, ls);
    SumNonNegative(Masked(live, Costs(f, ls')));
  }
}

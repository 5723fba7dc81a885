/**
 Binary code trees: the code word a tree gives to each symbol, why these words form a complete
 prefix-free code, what they cost, and how heavy a tree built by merging lightest trees must be.
 */
module HuffmanTree {
  import opened Sums
  import opened HuffmanOptimality

  datatype Tree = Leaf(symbol: int) | Node(left: Tree, right: Tree)

  /** How often symbol s labels a leaf. */
  function Occurs(t: Tree, s: int): nat {
    match t
    case Leaf(x) => if x == s then 1 else 0
    case Node(l, r) => Occurs(l, s) + Occurs(r, s)
  }

  function LeafCount(t: Tree): (r: nat)
    ensures r >= 1
  {
    match t
    case Leaf(_) => 1
    case Node(l, r) => LeafCount(l) + LeafCount(r)
  }

  function Height(t: Tree): nat {
    match t
    case Leaf(_) => 0
    case Node(l, r) => 1 + (if Height(l) < Height(r) then Height(r) else Height(l))
  }

  /** The path from the root to symbol s: false is left, true is right. */
  function CodeOf(t: Tree, s: int): seq<bool> {
    match t
    case Leaf(_) => []
    case Node(l, r) => if Occurs(l, s) > 0 then [false] + CodeOf(l, s) else [true] + CodeOf(r, s)
  }

  /** Every one of the symbols 0..n-1 labels exactly one leaf, and nothing else labels any. */
  ghost predicate CodesExactly(t: Tree, n: nat) {
    forall s :: Occurs(t, s) == if 0 <= s < n then 1 else 0
  }

  /** No symbol labels two leaves and only 0..n-1 label any. */
  ghost predicate AtMostOnce(t: Tree, n: nat) {
    forall s :: Occurs(t, s) <= if 0 <= s < n then 1 else 0
  }

  lemma {:induction false} CodeLength(t: Tree, s: int)
    ensures |CodeOf(t, s)| <= Height(t)
    ensures t.Node? ==> |CodeOf(t, s)| >= 1
  {
    match t
    case Leaf(_) =>
    case Node(l, r) => CodeLength(l, s); CodeLength(r, s);
  }

  /** Two different symbols of a tree never have one code word as a prefix of the other. */
  lemma {:induction false} CodesPrefixFree(t: Tree, s: int, u: int)
    requires Occurs(t, s) > 0 && Occurs(t, u) > 0 && s != u
    ensures !(CodeOf(t, s) <= CodeOf(t, u))
  {
    match t
    case Leaf(_) =>
    case Node(l, r) =>
      var cs, cu := CodeOf(t, s), CodeOf(t, u);
      if Occurs(l, s) > 0 && Occurs(l, u) > 0 {
        CodesPrefixFree(l, s, u);
        assert cs[1..] == CodeOf(l, s) && cu[1..] == CodeOf(l, u);
      } else if Occurs(l, s) == 0 && Occurs(l, u) == 0 {
        CodesPrefixFree(r, s, u);
        assert cs[1..] == CodeOf(r, s) && cu[1..] == CodeOf(r, u);
      } else {
        assert cs[0] != cu[0];
      }
  }

  // ---------- Sums over the symbols of a tree ----------

  /** 2^(cap - code length) for every symbol of t, zero for the others. */
  function KraftRow(t: Tree, n: nat, cap: int): (r: seq<int>)
    ensures |r| == n
  {
    seq(n, s => if Occurs(t, s) > 0 && |CodeOf(t, s)| <= cap then Pow2(cap - |CodeOf(t, s)|) else 0)
  }

  lemma KraftRowSplits(t: Tree, n: nat, cap: nat, s: nat)
    requires t.Node? && s < n && cap > 0 && Occurs(t, s) <= 1
    ensures KraftRow(t, n, cap)[s] == KraftRow(t.left, n, cap - 1)[s] + KraftRow(t.right, n, cap - 1)[s]
  {
    if Occurs(t.left, s) > 0 {
      assert |CodeOf(t, s)| == 1 + |CodeOf(t.left, s)|;
    } else if Occurs(t.right, s) > 0 {
      assert |CodeOf(t, s)| == 1 + |CodeOf(t.right, s)|;
    }
  }

  lemma KraftOfLeaf(x: int, n: nat, cap: nat)
    requires AtMostOnce(Leaf(x), n)
    ensures Sum(KraftRow(Leaf(x), n, cap)) == Pow2(cap)
  {
    assert Occurs(Leaf(x), x) == 1;
    SumOfOne(KraftRow(Leaf(x), n, cap), x);
  }

  lemma {:induction false} KraftEquality(t: Tree, n: nat, cap: nat)
    requires AtMostOnce(t, n) && Height(t) <= cap
    ensures Sum(KraftRow(t, n, cap)) == Pow2(cap)
    decreases t
  {
    hide KraftRow, Sum;
    match t
    case Leaf(x) =>
      KraftOfLeaf(x, n, cap);
    case Node(l, r) =>
      NodeSplits(t, n);
      KraftEquality(l, n, cap - 1);
      KraftEquality(r, n, cap - 1);
      KraftOfNode(t, n, cap);
  }

  lemma KraftOfNode(t: Tree, n: nat, cap: nat)
    requires t.Node? && AtMostOnce(t, n) && cap > 0
    ensures Sum(KraftRow(t, n, cap)) == Sum(KraftRow(t.left, n, cap - 1)) + Sum(KraftRow(t.right, n, cap - 1))
  {
    hide KraftRow, Sum, CodeOf;
    forall s: nat | s < n
      ensures KraftRow(t, n, cap)[s] == KraftRow(t.left, n, cap - 1)[s] + KraftRow(t.right, n, cap - 1)[s]
    {
      assert Occurs(t, s) <= 1;
      KraftRowSplits(t, n, cap, s);
    }
    SumPointwise(KraftRow(t.left, n, cap - 1), KraftRow(t.right, n, cap - 1), KraftRow(t, n, cap));
  }

  lemma NodeSplits(t: Tree, n: nat)
    requires t.Node? && AtMostOnce(t, n)
    ensures AtMostOnce(t.left, n) && AtMostOnce(t.right, n)
  {
    forall s
      ensures Occurs(t.left, s) <= (if 0 <= s < n then 1 else 0)
      ensures Occurs(t.right, s) <= (if 0 <= s < n then 1 else 0)
    {
      assert Occurs(t, s) <= if 0 <= s < n then 1 else 0;
    }
  }

  function At(w: seq<nat>, s: int): nat {
    if 0 <= s < |w| then w[s] else 0
  }

  function Weight(t: Tree, w: seq<nat>): nat {
    match t
    case Leaf(s) => At(w, s)
    case Node(l, r) => Weight(l, w) + Weight(r, w)
  }

  /** The sum of the weights of all inner nodes. */
  function MergeCost(t: Tree, w: seq<nat>): nat {
    match t
    case Leaf(_) => 0
    case Node(l, r) => MergeCost(l, w) + MergeCost(r, w) + Weight(l, w) + Weight(r, w)
  }

  function WeightRow(t: Tree, w: seq<nat>): (r: seq<int>) {
    seq(|w|, s requires 0 <= s < |w| => if Occurs(t, s) > 0 then w[s] else 0)
  }

  /** weight * code length for every symbol of t, zero for the others. */
  function CostRow(t: Tree, w: seq<nat>): (r: seq<int>) {
    seq(|w|, s requires 0 <= s < |w| => if Occurs(t, s) > 0 then w[s] * |CodeOf(t, s)| else 0)
  }

  lemma RowsSplit(t: Tree, w: seq<nat>, s: nat)
    requires t.Node? && s < |w| && Occurs(t, s) <= 1
    ensures WeightRow(t, w)[s] == WeightRow(t.left, w)[s] + WeightRow(t.right, w)[s]
    ensures CostRow(t, w)[s] == CostRow(t.left, w)[s] + CostRow(t.right, w)[s] + WeightRow(t, w)[s]
  {
    if Occurs(t.left, s) > 0 {
      Distribute(w[s], |CodeOf(t.left, s)|, |CodeOf(t, s)|);
    } else if Occurs(t.right, s) > 0 {
      Distribute(w[s], |CodeOf(t.right, s)|, |CodeOf(t, s)|);
    }
  }

  lemma Distribute(a: nat, b: nat, c: nat)
    requires c == 1 + b
    ensures a * c == a + a * b
  {
  }

  /** The inner-node weights add up to the total weighted code length. */
  lemma {:induction false} MergeCostIsWeightedLength(t: Tree, w: seq<nat>)
    requires AtMostOnce(t, |w|)
    ensures Weight(t, w) == Sum(WeightRow(t, w))
    ensures MergeCost(t, w) == Sum(CostRow(t, w))
  {
    match t
    case Leaf(x) =>
      assert Occurs(t, x) == 1;
      SumOfOne(WeightRow(t, w), x);
      SumOfZeros(CostRow(t, w));
    case Node(l, r) =>
      NodeSplits(t, |w|);
      MergeCostIsWeightedLength(l, w);
      MergeCostIsWeightedLength(r, w);
      var below := seq(|w|, s requires 0 <= s < |w| => CostRow(l, w)[s] + CostRow(r, w)[s]);
      forall s: nat | s < |w|
        ensures WeightRow(t, w)[s] == WeightRow(l, w)[s] + WeightRow(r, w)[s]
        ensures CostRow(t, w)[s] == below[s] + WeightRow(t, w)[s]
      {
        RowsSplit(t, w, s);
      }
      SumPointwise(WeightRow(l, w), WeightRow(r, w), WeightRow(t, w));
      SumPointwise(CostRow(l, w), CostRow(r, w), below);
      SumPointwise(below, WeightRow(t, w), CostRow(t, w));
  }

  // ---------- The Kraft inequality for arbitrary prefix-free codes ----------

  ghost predicate PrefixFree(code: seq<seq<bool>>) {
    forall i, j :: 0 <= i < |code| && 0 <= j < |code| && i != j ==> !(code[i] <= code[j])
  }

  function Lengths(code: seq<seq<bool>>): (r: seq<nat>) {
    seq(|code|, i requires 0 <= i < |code| => |code[i]|)
  }

  /** The live code words all extend p. */
  ghost predicate Extend(live: seq<bool>, code: seq<seq<bool>>, p: seq<bool>, cap: nat)
    requires |live| == |code|
  {
    forall i :: 0 <= i < |code| && live[i] ==> p <= code[i] && |code[i]| <= cap
  }

  /** A proper extension of p continues with exactly one of the two bits. */
  lemma Branches(c: seq<bool>, p: seq<bool>)
    requires p <= c && c != p
    ensures (p + [false] <= c) != (p + [true] <= c)
  {
    assert c[..|p|] == p;
    if c[|p|] {
      assert c[..|p| + 1] == p + [true];
    } else {
      assert c[..|p| + 1] == p + [false];
    }
  }

  lemma {:induction false} KraftBelow(live: seq<bool>, code: seq<seq<bool>>, p: seq<bool>, cap: nat)
    requires |live| == |code| && PrefixFree(code) && |p| <= cap && Extend(live, code, p, cap)
    ensures Kraft(live, Lengths(code), cap) <= Pow2(cap - |p|)
    decreases cap - |p|
  {
    var terms := KraftTerms(Lengths(code), cap);
    hide Sum;
    if i :| 0 <= i < |code| && live[i] && code[i] == p {
      forall j | 0 <= j < |code| && j != i
        ensures !live[j]
      {
        assert !(code[i] <= code[j]);
      }
      SumOfOne(Masked(live, terms), i);
    } else if |p| == cap {
      SumOfZeros(Masked(live, terms));
    } else {
      var zero := seq(|code|, i requires 0 <= i < |code| => live[i] && p + [false] <= code[i]);
      var one := seq(|code|, i requires 0 <= i < |code| => live[i] && p + [true] <= code[i]);
      KraftBelow(zero, code, p + [false], cap);
      KraftBelow(one, code, p + [true], cap);
      forall i | 0 <= i < |code| && live[i]
        ensures zero[i] != one[i]
      {
        Branches(code[i], p);
      }
      SumPointwise(Masked(zero, terms), Masked(one, terms), Masked(live, terms));
    }
  }

  function MaxLength(code: seq<seq<bool>>): (r: nat)
    ensures forall i :: 0 <= i < |code| ==> |code[i]| <= r
  {
    if |code| == 0 then 0
    else
      var rest := MaxLength(code[..|code| - 1]);
      if rest < |code[|code| - 1]| then |code[|code| - 1]| else rest
  }

  /** Kraft's inequality: the lengths of every prefix-free code fit. */
  lemma KraftInequality(code: seq<seq<bool>>)
    requires PrefixFree(code)
    ensures Fits(AllLive(|code|), Lengths(code), MaxLength(code))
  {
    hide Kraft, PrefixFree;
    var cap := MaxLength(code);
    var live, root := AllLive(|code|), [];
    assert Extend(live, code, root, cap);
    KraftBelow(live, code, root, cap);
    assert Bounded(live, Lengths(code), cap);
    hide *;
  }

  // ---------- Depth ----------

  /** Fib(1) = Fib(2) = 1. */
  function Fib(n: nat): nat {
    if n == 0 then 0 else if n == 1 then 1 else Fib(n - 1) + Fib(n - 2)
  }

  /** Each child of a weighs at most as much as each child of b. */
  ghost predicate ChildrenBelow(a: Tree, b: Tree, w: seq<nat>)
    requires a.Node? && b.Node?
  {
    && Weight(a.left, w) <= Weight(b.left, w) && Weight(a.left, w) <= Weight(b.right, w)
    && Weight(a.right, w) <= Weight(b.left, w) && Weight(a.right, w) <= Weight(b.right, w)
  }

  /** Tree a was picked for a merge while b was live or yet to come: among equals, older nodes go first. */
  ghost predicate PickedBefore(a: Tree, b: Tree, w: seq<nat>) {
    && Weight(a, w) <= Weight(b, w)
    && (a.Node? && Weight(a, w) == Weight(b, w) ==> b.Node? && ChildrenBelow(a, b, w))
  }

  /** Whoever is merged with an inner node comes after each child of that inner node. */
  ghost predicate Dominated(x: Tree, other: Tree, w: seq<nat>) {
    x.Node? ==> PickedBefore(x.left, other, w) && PickedBefore(x.right, other, w)
  }

  /** What merging lightest trees first, older ones first among equals, leaves in every inner node. */
  ghost predicate LightestFirst(t: Tree, w: seq<nat>) {
    match t
    case Leaf(_) => Weight(t, w) >= 1
    case Node(l, r) => LightestFirst(l, w) && LightestFirst(r, w) && Dominated(l, r, w) && Dominated(r, l, w)
  }

  lemma {:induction false} FibMonotone(a: nat, b: nat)
    requires a <= b
    ensures Fib(a) <= Fib(b)
  {
    if a < b { FibMonotone(a, b - 1); }
  }

  /** Counting up from a known pair of neighbours. */
  lemma {:induction false} FibStep5(n: nat)
    ensures Fib(n + 5) == 3 * Fib(n) + 5 * Fib(n + 1)
    ensures Fib(n + 6) == 5 * Fib(n) + 8 * Fib(n + 1)
  {
    assert Fib(n + 3) == Fib(n) + 2 * Fib(n + 1);
    assert Fib(n + 5) == Fib(n + 4) + Fib(n + 3);
  }

  /** The least weight of a tree of height h: 1, 2, 3, 5, 9, 15, 25, 41, ... */
  function Least(h: nat): int {
    if h == 0 then 1 else if h == 1 then 2 else 2 * Fib(h + 1) - 1
  }

  lemma LeastSum(h: nat)
    ensures Least(h + 1) + Least(h) + 1 >= Least(h + 2)
    ensures Least(h) <= Least(h + 1)
  {
    assert Fib(h + 3) == Fib(h + 2) + Fib(h + 1);
  }

  lemma LeastTimes5(h: nat)
    ensures 5 * Least(h) >= Least(h + 3)
  {
    assert Fib(h + 4) == 3 * Fib(h + 1) + 2 * Fib(h) by {
      assert Fib(h + 3) == 2 * Fib(h + 1) + Fib(h);
    }
    if h >= 2 {
      FibMonotone(1, h - 1);
      assert Fib(h + 1) == Fib(h) + Fib(h - 1);
    }
  }

  lemma {:induction false} LeastMonotone(a: nat, b: nat)
    requires a <= b
    ensures Least(a) <= Least(b)
  {
    if a < b {
      LeastMonotone(a, b - 1);
      LeastSum(b - 1);
    }
  }

  /** With ties resolved as the merging loop does, a tree of height h weighs at least Least(h). */
  lemma {:induction false} HeightBound(t: Tree, w: seq<nat>)
    requires LightestFirst(t, w)
    ensures Weight(t, w) >= Least(Height(t))
    decreases t, 1
  {
    match t
    case Leaf(_) =>
    case Node(l, r) =>
      HeightBound(l, w);
      HeightBound(r, w);
      if Height(l) < Height(r) {
        PairBound(r, l, w);
      } else {
        PairBound(l, r, w);
      }
  }

  lemma {:induction false} PairBound(deep: Tree, other: Tree, w: seq<nat>)
    requires LightestFirst(deep, w) && LightestFirst(other, w) && Dominated(deep, other, w)
    requires Height(deep) >= Height(other)
    requires Weight(deep, w) >= Least(Height(deep)) && Weight(other, w) >= Least(Height(other))
    ensures Weight(deep, w) + Weight(other, w) >= Least(Height(deep) + 1)
    decreases deep, 0
  {
    match deep
    case Leaf(_) =>
    case Node(l, r) =>
      var p, q := if Height(l) < Height(r) then r else l, if Height(l) < Height(r) then l else r;
      HeightBound(p, w);
      if Weight(p, w) < Weight(other, w) {
        LeastSum(Height(p));
      } else if p.Node? {
        TieBound(p, q, other, w);
      }
  }

  /**
   A tie with an inner node p: all children are equally heavy, so p's sibling and the other tree add three
   times as much.
   */
  lemma {:induction false} TieBound(p: Tree, q: Tree, other: Tree, w: seq<nat>)
    requires p.Node? && LightestFirst(p, w) && Dominated(p, q, w)
    requires PickedBefore(p, other, w) && Weight(p, w) == Weight(other, w)
    ensures Weight(p, w) + Weight(q, w) + Weight(other, w) >= Least(Height(p) + 2)
    decreases p, 1
  {
    var c := if Height(p.left) < Height(p.right) then p.right else p.left;
    HeightBound(c, w);
    LeastTimes5(Height(c));
  }

  lemma FibOf3()
    ensures Fib(3) == 2
  {
  }

  lemma LeastOf33()
    ensures Fib(34) == 5702887 && Least(33) == 11405773
  {
    FibStep5(0);
    FibStep5(5);
    FibStep5(10);
    FibStep5(15);
    FibStep5(20);
    FibStep5(25);
    assert Fib(30) == 832040 && Fib(31) == 1346269;
    assert Fib(34) == 2 * Fib(30) + 3 * Fib(31);
  }

  lemma LeastAboveFib(h: nat)
    ensures Least(h) >= Fib(h + 2)
  {
    if h >= 2 { FibMonotone(1, h - 1); }
  }

  /** So a tree of height h built lightest first weighs at least Fib(h + 2). */
  lemma FibonacciBound(t: Tree, w: seq<nat>)
    requires LightestFirst(t, w)
    ensures Weight(t, w) >= Fib(Height(t) + 2)
  {
    HeightBound(t, w);
    LeastAboveFib(Height(t));
  }
}

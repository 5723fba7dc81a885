/**
 The state of the merging loop as values: the frequency column of the node array, the tree each node
 roots, and which nodes are still live. Two invariants are kept by every merge: Merging, which holds
 even if frequencies wrap around, and Minimal, which needs the weights below the root to stay clear of that.
 */
module HuffmanMerging {
  import opened Sums
  import opened Bits
  import opened HuffmanOptimality
  import opened HuffmanTree

  function Weights(trees: seq<Tree>, w: seq<nat>): (r: seq<nat>) {
    seq(|trees|, j requires 0 <= j < |trees| => Weight(trees[j], w))
  }

  function MergeCosts(trees: seq<Tree>, w: seq<nat>): (r: seq<int>) {
    seq(|trees|, j requires 0 <= j < |trees| => MergeCost(trees[j], w))
  }

  function Leaves(trees: seq<Tree>): (r: seq<int>) {
    seq(|trees|, j requires 0 <= j < |trees| => LeafCount(trees[j]))
  }

  function Occurrences(trees: seq<Tree>, s: int): (r: seq<int>) {
    seq(|trees|, j requires 0 <= j < |trees| => Occurs(trees[j], s))
  }

  function Ones(n: nat): (r: seq<int>) {
    seq(n, _ => 1)
  }

  /** The leaves 0..n-1. */
  function Singletons(n: nat): (r: seq<Tree>) {
    seq(n, i => Leaf(i))
  }

  /** The frequency column holds each live tree's weight modulo 2^32, and zero for dead nodes. */
  ghost predicate FrequencyColumn(w: seq<nat>, f: seq<nat>, trees: seq<Tree>, live: seq<bool>)
    requires |f| == |trees| == |live|
  {
    forall j :: 0 <= j < |f| ==> f[j] == if live[j] then Weight(trees[j], w) % WORD_SIZE else 0
  }

  /** The live trees together hold every symbol once. */
  ghost predicate Partition(n: nat, trees: seq<Tree>, live: seq<bool>)
    requires |trees| == |live|
  {
    && (forall s :: LiveSum(live, Occurrences(trees, s)) == if 0 <= s < n then 1 else 0)
    && LiveSum(live, Leaves(trees)) == n
  }

  ghost predicate Merging(w: seq<nat>, f: seq<nat>, trees: seq<Tree>, live: seq<bool>) {
    && |f| == |trees| == |live|
    && 1 <= |w| <= |f| < 2 * |w|
    && FrequencyColumn(w, f, trees, live)
    && LiveSum(live, Ones(|f|)) == 2 * |w| - |f|
    && Partition(|w|, trees, live)
    && LiveSum(live, Weights(trees, w)) == Sum(w)
  }

  /** Inner nodes come after leaves, and the children of later ones are at least as heavy as those of earlier ones. */
  ghost predicate LaterHeavier(w: seq<nat>, trees: seq<Tree>, live: seq<bool>)
    requires |trees| == |live|
  {
    forall j, k :: 0 <= j < k < |trees| && live[j] && live[k] && trees[j].Node? ==>
      trees[k].Node? && ChildrenBelow(trees[j], trees[k], w)
  }

  /** Any two live trees could be merged next without breaking LightestFirst. */
  ghost predicate Ordered(w: seq<nat>, trees: seq<Tree>, live: seq<bool>)
    requires |trees| == |live|
  {
    && (forall j :: 0 <= j < |trees| ==> LightestFirst(trees[j], w))
    && (forall j, k :: 0 <= j < |trees| && 0 <= k < |trees| && j != k && live[j] && live[k] ==>
          Dominated(trees[j], trees[k], w))
    && LaterHeavier(w, trees, live)
  }

  /** A lighter entry, or the earlier of two equally light ones, goes first. */
  predicate Precedes(f: seq<nat>, p: nat, j: nat)
    requires p < |f| && j < |f|
  {
    f[p] < f[j] || (f[p] == f[j] && p < j)
  }

  /** p and then q are the first of the live entries. */
  ghost predicate TwoFirst(live: seq<bool>, f: seq<nat>, p: nat, q: nat)
    requires |live| == |f|
  {
    && TwoLightest(live, f, p, q)
    && (forall j :: 0 <= j < |f| && live[j] && j != p ==> Precedes(f, p, j))
    && (forall j :: 0 <= j < |f| && live[j] && j != p && j != q ==> Precedes(f, q, j))
  }

  /** No code for the initial weights is cheaper than what the merges so far must cost. */
  ghost predicate Minimal(w: seq<nat>, trees: seq<Tree>, live: seq<bool>)
    requires |trees| == |live|
  {
    Ordered(w, trees, live) && LowerBound(w, live, Weights(trees, w), LiveSum(live, MergeCosts(trees, w)))
  }

  // ---------- Start ----------

  lemma AllLiveSum(v: seq<int>)
    ensures LiveSum(AllLive(|v|), v) == Sum(v)
  {
    assert Masked(AllLive(|v|), v) == v;
  }

  lemma {:induction false} SumOfOnes(n: nat)
    ensures Sum(Ones(n)) == n
  {
    if n > 0 {
      SumOfOnes(n - 1);
      SumAppend(Ones(n - 1), 1);
      assert Ones(n) == Ones(n - 1) + [1];
    }
  }

  lemma MergingInit(w: seq<nat>)
    requires |w| >= 1 && forall i :: 0 <= i < |w| ==> w[i] < WORD_SIZE
    ensures Merging(w, w, Singletons(|w|), AllLive(|w|))
  {
    var n := |w|;
    var trees, live := Singletons(n), AllLive(n);
    assert Weights(trees, w) == w;
    AllLiveSum(w);
    SumOfOnes(n);
    AllLiveSum(Ones(n));
    assert Leaves(trees) == Ones(n);
    forall s
      ensures LiveSum(live, Occurrences(trees, s)) == if 0 <= s < n then 1 else 0
    {
      AllLiveSum(Occurrences(trees, s));
      if 0 <= s < n {
        SumOfOne(Occurrences(trees, s), s);
      } else {
        SumOfZeros(Occurrences(trees, s));
      }
    }
  }

  lemma MinimalInit(w: seq<nat>)
    requires forall i :: 0 <= i < |w| ==> w[i] >= 1
    ensures Minimal(w, Singletons(|w|), AllLive(|w|))
  {
    var trees, live := Singletons(|w|), AllLive(|w|);
    assert Weights(trees, w) == w;
    SumOfZeros(Masked(live, MergeCosts(trees, w)));
    LowerBoundInit(w);
  }

  // ---------- One merge ----------

  lemma MergingStep(w: seq<nat>, f: seq<nat>, trees: seq<Tree>, live: seq<bool>, p: nat, q: nat)
    requires Merging(w, f, trees, live) && |f| < 2 * |w| - 1
    requires p < |f| && q < |f| && p != q && live[p] && live[q]
    ensures Merging(w, f[p := 0][q := 0] + [(f[p] + f[q]) % WORD_SIZE],
                    trees + [Node(trees[p], trees[q])], MergedLive(live, p, q))
  {
    var t := Node(trees[p], trees[q]);
    var trees', live' := trees + [t], MergedLive(live, p, q);
    var f' := f[p := 0][q := 0] + [(f[p] + f[q]) % WORD_SIZE];
    assert FrequencyColumn(w, f', trees', live') by {
      ModSum(Weight(trees[p], w), Weight(trees[q], w));
    }
    LiveSumMerge(live, Ones(|f|), p, q, 1);
    assert Ones(|f| + 1) == Ones(|f|) + [1];
    LiveSumMerge(live, Weights(trees, w), p, q, Weight(t, w));
    assert Weights(trees', w) == Weights(trees, w) + [Weight(t, w)];
    LiveSumMerge(live, Leaves(trees), p, q, LeafCount(t));
    assert Leaves(trees') == Leaves(trees) + [LeafCount(t)];
    forall s
      ensures LiveSum(live', Occurrences(trees', s)) == if 0 <= s < |w| then 1 else 0
    {
      LiveSumMerge(live, Occurrences(trees, s), p, q, Occurs(t, s));
      assert Occurrences(trees', s) == Occurrences(trees, s) + [Occurs(t, s)];
    }
  }

  lemma ModSum(a: nat, b: nat)
    ensures (a % WORD_SIZE + b % WORD_SIZE) % WORD_SIZE == (a + b) % WORD_SIZE
  {
  }

  lemma MinimalStep(w: seq<nat>, trees: seq<Tree>, live: seq<bool>, p: nat, q: nat)
    requires |trees| == |live| && Minimal(w, trees, live)
    requires TwoFirst(live, Weights(trees, w), p, q)
    ensures Minimal(w, trees + [Node(trees[p], trees[q])], MergedLive(live, p, q))
  {
    hide Ordered;
    var t := Node(trees[p], trees[q]);
    LowerBoundMerge(w, live, Weights(trees, w), LiveSum(live, MergeCosts(trees, w)), p, q);
    assert Weights(trees + [t], w) == Weights(trees, w) + [Weight(t, w)];
    LiveSumMerge(live, MergeCosts(trees, w), p, q, MergeCost(t, w));
    assert MergeCosts(trees + [t], w) == MergeCosts(trees, w) + [MergeCost(t, w)];
    OrderedStep(w, trees, live, p, q);
  }

  /** A picked tree comes before every other live one. */
  lemma PickedFirst(w: seq<nat>, trees: seq<Tree>, live: seq<bool>, p: nat, k: nat)
    requires |trees| == |live| && LaterHeavier(w, trees, live)
    requires p < |trees| && k < |trees| && p != k && live[p] && live[k]
    requires Weight(trees[p], w) < Weight(trees[k], w) || (Weight(trees[p], w) == Weight(trees[k], w) && p < k)
    ensures PickedBefore(trees[p], trees[k], w)
  {
  }

  /** A new tree is heavier than what it is compared with, since both its parts are. */
  lemma NewIsHeavier(x: Tree, p: Tree, q: Tree, w: seq<nat>)
    requires LightestFirst(p, w) && LightestFirst(q, w) && Dominated(x, p, w) && Dominated(x, q, w)
    ensures Dominated(x, Node(p, q), w)
  {
    PositiveWeight(p, w);
    PositiveWeight(q, w);
  }

  lemma OrderedStep(w: seq<nat>, trees: seq<Tree>, live: seq<bool>, p: nat, q: nat)
    requires |trees| == |live| && Ordered(w, trees, live)
    requires TwoFirst(live, Weights(trees, w), p, q)
    ensures Ordered(w, trees + [Node(trees[p], trees[q])], MergedLive(live, p, q))
  {
    var t := Node(trees[p], trees[q]);
    var trees', live' := trees + [t], MergedLive(live, p, q);
    var n := |trees|;
    assert Dominated(trees[p], trees[q], w) && Dominated(trees[q], trees[p], w);
    assert LightestFirst(t, w);
    assert LaterHeavier(w, trees', live') by {
      forall j | 0 <= j < n && live'[j] && trees'[j].Node? ensures ChildrenBelow(trees'[j], t, w) {
        assert Dominated(trees[j], trees[p], w) && Dominated(trees[j], trees[q], w);
      }
    }
    hide LightestFirst;
    forall j, k | 0 <= j <= n && 0 <= k <= n && j != k && live'[j] && live'[k]
      ensures Dominated(trees'[j], trees'[k], w)
    {
      if j == n {
        assert Weights(trees, w)[p] <= Weights(trees, w)[k] && Weights(trees, w)[q] <= Weights(trees, w)[k];
        PickedFirst(w, trees, live, p, k);
        PickedFirst(w, trees, live, q, k);
      } else if k == n {
        assert Dominated(trees[j], trees[p], w) && Dominated(trees[j], trees[q], w);
        NewIsHeavier(trees[j], trees[p], trees[q], w);
      } else {
        assert Dominated(trees[j], trees[k], w);
      }
    }
  }

  // ---------- While nothing below the root reaches the largest word ----------

  const UINT32_MAX: uint32 := 0xFFFF_FFFF

  /** The weights of positive frequencies that fit a word. */
  ghost predicate Frequencies(w: seq<nat>) {
    |w| >= 1 && forall i :: 0 <= i < |w| ==> 1 <= w[i] < WORD_SIZE
  }

  /** All weights but any one add up to less than the largest word. */
  ghost predicate StaysBelow(w: seq<nat>) {
    forall i :: 0 <= i < |w| ==> Sum(w) - w[i] < UINT32_MAX
  }

  lemma {:induction false} SomeLeaf(t: Tree, w: seq<nat>) returns (s: nat)
    requires LightestFirst(t, w)
    ensures s < |w| && w[s] <= Weight(t, w)
  {
    match t
    case Leaf(x) => s := x;
    case Node(l, r) => s := SomeLeaf(l, w);
  }

  /** With another tree still live, a live tree's frequency is its weight and less than the largest word. */
  lemma BelowRoot(w: seq<nat>, trees: seq<Tree>, live: seq<bool>, j: nat, k: nat)
    requires |trees| == |live| && Ordered(w, trees, live) && LiveSum(live, Weights(trees, w)) == Sum(w)
    requires StaysBelow(w) && j < |trees| && k < |trees| && j != k && live[j] && live[k]
    ensures 1 <= Weight(trees[j], w) < UINT32_MAX
  {
    SumAtLeastTwo(Masked(live, Weights(trees, w)), j, k);
    PositiveWeight(trees[j], w);
    var s := SomeLeaf(trees[k], w);
  }

  lemma {:induction false} PositiveWeight(t: Tree, w: seq<nat>)
    requires LightestFirst(t, w)
    ensures Weight(t, w) >= 1
  {
    match t
    case Leaf(_) =>
    case Node(l, r) => PositiveWeight(l, w);
  }

  /** Before the last merge two live positions exist. */
  lemma TwoLive(live: seq<bool>) returns (j: nat, k: nat)
    requires LiveSum(live, Ones(|live|)) >= 2
    ensures j < |live| && k < |live| && j != k && live[j] && live[k]
  {
    var ones := Masked(live, Ones(|live|));
    if j' :| 0 <= j' < |live| && live[j'] {
      j := j';
      if k' :| 0 <= k' < |live| && k' != j && live[k'] {
        k := k';
      } else {
        SumOfOne(ones, j);
      }
    } else {
      SumOfZeros(ones);
    }
  }

  // ---------- End ----------

  /** After the last merge the newest node is the only live one. */
  lemma OnlyRootLive(live: seq<bool>)
    requires |live| > 0 && live[|live| - 1] && LiveSum(live, Ones(|live|)) == 1
    ensures forall j :: 0 <= j < |live| - 1 ==> !live[j]
  {
    forall j | 0 <= j < |live| - 1
      ensures !live[j]
    {
      if live[j] { SumAtLeastTwo(Masked(live, Ones(|live|)), j, |live| - 1); }
    }
  }

  lemma RootSum(live: seq<bool>, v: seq<int>)
    requires |live| == |v| > 0 && live[|v| - 1]
    requires forall j :: 0 <= j < |v| - 1 ==> !live[j]
    ensures LiveSum(live, v) == v[|v| - 1]
  {
    SumOfOne(Masked(live, v), |v| - 1);
  }

  /** The root then holds every symbol once. */
  lemma RootIsComplete(w: seq<nat>, f: seq<nat>, trees: seq<Tree>, live: seq<bool>)
    requires Merging(w, f, trees, live) && |f| == 2 * |w| - 1 && live[|f| - 1]
    ensures CodesExactly(trees[|f| - 1], |w|) && LeafCount(trees[|f| - 1]) == |w|
  {
    OnlyRootLive(live);
    RootSum(live, Leaves(trees));
    var t := trees[|f| - 1];
    forall s
      ensures Occurs(t, s) == if 0 <= s < |w| then 1 else 0
    {
      RootSum(live, Occurrences(trees, s));
    }
  }

  /** No fitting length assignment is cheaper than the root. */
  lemma RootIsOptimal(w: seq<nat>, trees: seq<Tree>, live: seq<bool>)
    requires |trees| == |live| > 0 && Minimal(w, trees, live) && live[|live| - 1]
    requires LiveSum(live, Ones(|live|)) == 1
    ensures Optimal(trees[|trees| - 1], w)
  {
    var root := trees[|trees| - 1];
    OnlyRootLive(live);
    RootSum(live, MergeCosts(trees, w));
    forall ls: seq<nat>, cap: nat | |ls| == |w| && Fits(AllLive(|w|), ls, cap)
      ensures MergeCost(root, w) <= Cost(AllLive(|w|), w, ls)
    {
      LowerBoundFinal(w, live, Weights(trees, w), MergeCost(root, w), ls, cap);
    }
  }

  /** No lengths satisfying the Kraft inequality give a smaller weighted total. */
  ghost predicate Optimal(t: Tree, w: seq<nat>) {
    forall ls: seq<nat>, cap: nat :: |ls| == |w| && Fits(AllLive(|w|), ls, cap) ==>
      MergeCost(t, w) <= Cost(AllLive(|w|), w, ls)
  }
}

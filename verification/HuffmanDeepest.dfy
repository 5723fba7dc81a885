/**
 The lightest weights for which the builder makes a code longer than a 32-bit word: the bound on the
 weight of a high tree is met exactly.
 */
module HuffmanDeepest {
  import opened Sums
  import opened Bits
  import opened Indexing
  import opened Wrappers
  import opened HuffmanOptimality
  import opened HuffmanTree
  import opened HuffmanMerging
  import opened HuffmanNodes
  import opened HuffmanCodeTable

  /** Five ones, then twice the Fibonacci numbers from the third on. */
  function DeepWeights(): (w: seq<nat>)
    ensures |w| == 35
  {
    seq(35, i => if i < 5 then 1 else 2 * Fib(i - 2))
  }

  lemma DeepWeight(i: nat)
    requires i < 35
    ensures 1 <= DeepWeights()[i] < WORD_SIZE
    ensures i < 5 ==> DeepWeights()[i] == 1
    ensures i >= 5 ==> DeepWeights()[i] == 2 * Fib(i - 2) >= 4
  {
    hide Fib, Least;
    if i >= 5 {
      FibMonotone(3, i - 2);
      FibMonotone(i - 2, 34);
      FibOf3();
      LeastOf33();
    }
  }

  lemma {:induction false} DeepSum(n: nat)
    requires 5 <= n <= 35
    ensures Sum(DeepWeights()[..n]) == 2 * Fib(n - 1) - 1
  {
    var w := DeepWeights();
    if n == 5 {
      assert w[..5] == Ones(5);
      SumOfOnes(5);
    } else {
      DeepSum(n - 1);
      assert w[..n] == w[..n - 1] + [w[n - 1]];
      SumAppend(w[..n - 1], w[n - 1]);
    }
  }

  lemma DeepTotal()
    ensures Frequencies(DeepWeights()) && StaysBelow(DeepWeights()) && Sum(DeepWeights()) == Least(33)
  {
    var w := DeepWeights();
    hide Fib, Least, DeepWeights, StaysBelow;
    forall i | 0 <= i < |w| ensures 1 <= w[i] < WORD_SIZE { DeepWeight(i); }
    assert Sum(w) == Least(33) == 11405773 by {
      DeepSum(35);
      assert w[..35] == w;
      LeastOf33();
    }
    FittingTotal(w);
  }

  /** What goes first is unique. */
  lemma TwoFirstUnique(live: seq<bool>, f: seq<nat>, p: nat, q: nat, p': nat, q': nat)
    requires |live| == |f| && TwoFirst(live, f, p', q')
    requires p < |f| && q < |f| && p != q && live[p] && live[q] && Precedes(f, p, q)
    requires forall j :: 0 <= j < |f| && live[j] && j != p && j != q ==> Precedes(f, q, j)
    ensures p' == p && q' == q
  {
  }

  /** The merge of p and q is the next one if they are the two first of the live entries. */
  lemma ForcedMerge(nodes: seq<HuffmanNode>, w: seq<nat>, trees: seq<Tree>, live: seq<bool>, p: nat, q: nat)
    requires MergeState(nodes, w, trees, live) && StaysBelow(w) && |nodes| < 2 * |w| - 1
    requires p < |nodes| && q < |nodes| && p != q && live[p] && live[q] && Precedes(Weights(trees, w), p, q)
    requires forall j :: 0 <= j < |nodes| && live[j] && j != p && j != q ==> Precedes(Weights(trees, w), q, j)
    ensures MergeAll(nodes, 2 * |w| - 1) == MergeAll(Joined(nodes, p, q), 2 * |w| - 1)
    ensures MergeState(Joined(nodes, p, q), w, trees + [Node(trees[p], trees[q])], MergedLive(live, p, q))
  {
    hide MergeState;
    assert |trees| == |nodes| == |live| by { MergeStateSizes(nodes, w, trees, live); }
    var (p', q') := Search(nodes);
    SearchFindsLive(nodes, w, trees, live, p', q');
    TwoFirstUnique(live, Weights(trees, w), p, q, p', q');
    NextMerge(nodes, 2 * |w| - 1, p, q);
    MergeStateStep(nodes, w, trees, live, p, q);
  }

  lemma MergeStateSizes(nodes: seq<HuffmanNode>, w: seq<nat>, trees: seq<Tree>, live: seq<bool>)
    requires MergeState(nodes, w, trees, live)
    ensures |trees| == |nodes| == |live|
  {
  }

  // ---------- The run, stage by stage ----------

  /** The two entries merged next: first the five ones, then always the lightest leaf and the only other tree. */
  function First(merges: nat): nat {
    if merges <= 2 then 2 * merges else if merges == 3 then 36 else merges + 1
  }

  function Second(merges: nat): nat {
    if merges <= 1 then 2 * merges + 1 else if merges == 2 then 35 else 34 + merges
  }

  ghost predicate LiveAt(merges: nat, live: seq<bool>) {
    && |live| == 35 + merges
    && forall j :: 0 <= j < |live| ==>
         (live[j] <==>
          if merges <= 2 then 2 * merges <= j
          else if merges == 3 then 5 <= j < 35 || 36 <= j
          else merges < j < 35 || j == 34 + merges)
  }

  ghost predicate WeightsAt(merges: nat, f: seq<nat>) {
    && |f| == 35 + merges
    && f[..35] == DeepWeights()
    && (1 <= merges <= 3 ==> f[35] == 2) && (2 <= merges <= 3 ==> f[36] == 2) && (merges == 3 ==> f[37] == 3)
    && (merges >= 4 ==> f[34 + merges] == Least(merges - 1))
  }

  ghost predicate HeightsAt(merges: nat, h: seq<nat>) {
    && |h| == 35 + merges
    && (forall j :: 0 <= j < 35 ==> h[j] == 0)
    && (1 <= merges <= 3 ==> h[35] == 1) && (2 <= merges <= 3 ==> h[36] == 1) && (merges == 3 ==> h[37] == 2)
    && (merges >= 4 ==> h[34 + merges] == merges - 1)
  }

  /** The leaf merged next weighs a little less than the tree, and all other leaves weigh more. */
  lemma LateOrder(merges: nat, f: seq<nat>, j: nat)
    requires WeightsAt(merges, f) && 4 <= merges < 34
    ensures f[merges + 1] < f[34 + merges] && f[merges + 1] + f[34 + merges] == Least(merges)
    ensures merges + 1 < j < 35 ==> f[34 + merges] < f[j]
  {
    var w := DeepWeights();
    assert f[merges + 1] == f[..35][merges + 1];
    DeepWeight(merges + 1);
    hide DeepWeights;
    assert Fib(merges) == Fib(merges - 1) + Fib(merges - 2);
    assert Least(merges - 1) == 2 * Fib(merges) - 1 && Least(merges) == 2 * Fib(merges + 1) - 1;
    assert Fib(merges + 1) == Fib(merges) + Fib(merges - 1);
    FibMonotone(1, merges - 2);
    if merges + 1 < j < 35 {
      assert f[j] == f[..35][j];
      DeepWeight(j);
      FibMonotone(merges, j - 2);
    }
    hide Fib, Least;
  }

  lemma EarlyOrder(merges: nat, f: seq<nat>, j: nat)
    requires WeightsAt(merges, f) && merges < 4 && j < 35
    ensures if j < 5 then f[j] == 1 else f[j] >= 4
  {
    assert f[j] == f[..35][j];
    hide Fib, DeepWeights;
    DeepWeight(j);
  }

  lemma NextInOrder(merges: nat, live: seq<bool>, f: seq<nat>)
    requires LiveAt(merges, live) && WeightsAt(merges, f) && merges < 34
    ensures var p, q := First(merges), Second(merges);
            && live[p] && live[q] && Precedes(f, p, q)
            && forall j :: 0 <= j < |f| && live[j] && j != p && j != q ==> Precedes(f, q, j)
  {
    var p, q := First(merges), Second(merges);
    hide DeepWeights, Least;
    forall j: nat | j < |f|
      ensures merges < 4 && j < 35 ==> if j < 5 then f[j] == 1 else f[j] >= 4
      ensures merges >= 4 ==> f[p] < f[q] && (merges + 1 < j < 35 ==> f[q] < f[j])
    {
      if merges >= 4 { LateOrder(merges, f, j); } else if j < 35 { EarlyOrder(merges, f, j); }
    }
  }

  lemma NextLive(merges: nat, live: seq<bool>)
    requires LiveAt(merges, live) && merges < 34
    ensures LiveAt(merges + 1, MergedLive(live, First(merges), Second(merges)))
  {
  }

  lemma NextWeights(merges: nat, f: seq<nat>)
    requires WeightsAt(merges, f) && merges < 34
    ensures WeightsAt(merges + 1, f + [f[First(merges)] + f[Second(merges)]])
  {
    hide DeepWeights;
    if merges >= 4 {
      hide Least;
      LateOrder(merges, f, 0);
    } else {
      EarlyOrder(merges, f, if First(merges) < 5 then First(merges) else 0);
      EarlyOrder(merges, f, if Second(merges) < 5 then Second(merges) else 0);
      assert Least(3) == 5;
      hide Least;
    }
  }

  lemma NextHeights(merges: nat, h: seq<nat>)
    requires HeightsAt(merges, h) && merges < 34
    ensures HeightsAt(merges + 1, h + [1 + Max(h[First(merges)], h[Second(merges)])])
  {
  }

  function Heights(trees: seq<Tree>): (r: seq<nat>) {
    seq(|trees|, j requires 0 <= j < |trees| => Height(trees[j]))
  }

  /** The state before each merge. */
  ghost predicate DeepState(merges: nat, nodes: seq<HuffmanNode>, trees: seq<Tree>, live: seq<bool>) {
    && merges <= 34 && |nodes| == |trees| == |live| == 35 + merges
    && MergeState(nodes, DeepWeights(), trees, live)
    && LiveAt(merges, live) && WeightsAt(merges, Weights(trees, DeepWeights())) && HeightsAt(merges, Heights(trees))
  }

  lemma RowsGrow(trees: seq<Tree>, w: seq<nat>, p: nat, q: nat)
    requires p < |trees| && q < |trees|
    ensures var t := Node(trees[p], trees[q]);
            && Weights(trees + [t], w) == Weights(trees, w) + [Weights(trees, w)[p] + Weights(trees, w)[q]]
            && Heights(trees + [t]) == Heights(trees) + [1 + Max(Heights(trees)[p], Heights(trees)[q])]
  {
  }

  lemma DeepStep(merges: nat, nodes: seq<HuffmanNode>, trees: seq<Tree>, live: seq<bool>)
    requires DeepState(merges, nodes, trees, live) && merges < 34
    ensures var p, q := First(merges), Second(merges);
            && p < |nodes| && q < |nodes|
            && MergeAll(nodes, 69) == MergeAll(Joined(nodes, p, q), 69)
            && DeepState(merges + 1, Joined(nodes, p, q), trees + [Node(trees[p], trees[q])], MergedLive(live, p, q))
  {
    var p, q := First(merges), Second(merges);
    NextInOrder(merges, live, Weights(trees, DeepWeights()));
    NextRows(merges, trees, live);
    assert p < |nodes| && q < |nodes| && p != q;
    hide MergeState, DeepWeights, LiveAt, WeightsAt, HeightsAt, Heights, Weights, First, Second, Precedes, MergeAll;
    DeepMerge(nodes, trees, live, p, q);
    hide Joined, MergedLive;
  }

  lemma NextRows(merges: nat, trees: seq<Tree>, live: seq<bool>)
    requires |trees| == 35 + merges && merges < 34
    requires LiveAt(merges, live)
    requires WeightsAt(merges, Weights(trees, DeepWeights())) && HeightsAt(merges, Heights(trees))
    ensures var trees' := trees + [Node(trees[First(merges)], trees[Second(merges)])];
            && LiveAt(merges + 1, MergedLive(live, First(merges), Second(merges)))
            && WeightsAt(merges + 1, Weights(trees', DeepWeights())) && HeightsAt(merges + 1, Heights(trees'))
  {
    NextLive(merges, live);
    NextWeights(merges, Weights(trees, DeepWeights()));
    NextHeights(merges, Heights(trees));
    RowsGrow(trees, DeepWeights(), First(merges), Second(merges));
    hide *;
  }

  lemma DeepMerge(nodes: seq<HuffmanNode>, trees: seq<Tree>, live: seq<bool>, p: nat, q: nat)
    requires |nodes| == |trees| == |live| < 69 && MergeState(nodes, DeepWeights(), trees, live)
    requires p < |nodes| && q < |nodes| && p != q && live[p] && live[q] && Precedes(Weights(trees, DeepWeights()), p, q)
    requires forall j :: 0 <= j < |nodes| && live[j] && j != p && j != q ==>
               Precedes(Weights(trees, DeepWeights()), q, j)
    ensures MergeAll(nodes, 69) == MergeAll(Joined(nodes, p, q), 69)
    ensures MergeState(Joined(nodes, p, q), DeepWeights(), trees + [Node(trees[p], trees[q])], MergedLive(live, p, q))
  {
    DeepTotal();
    hide MergeState, MergeAll, StaysBelow, Frequencies, DeepWeights, Weights, Precedes, Joined, MergedLive;
    ForcedMerge(nodes, DeepWeights(), trees, live, p, q);
  }

  lemma {:induction false} DeepRun(merges: nat, nodes: seq<HuffmanNode>, trees: seq<Tree>, live: seq<bool>)
    returns (nodes': seq<HuffmanNode>, trees': seq<Tree>, live': seq<bool>)
    requires DeepState(merges, nodes, trees, live)
    ensures MergeAll(nodes, 69) == Some(nodes') && DeepState(34, nodes', trees', live')
    decreases 34 - merges
  {
    hide Search, Joined, MergeState, LiveAt, WeightsAt, HeightsAt;
    if merges == 34 {
      nodes', trees', live' := nodes, trees, live;
    } else {
      var p, q := First(merges), Second(merges);
      DeepStep(merges, nodes, trees, live);
      nodes', trees', live' :=
        DeepRun(merges + 1, Joined(nodes, p, q), trees + [Node(trees[p], trees[q])], MergedLive(live, p, q));
    }
  }

  lemma DeepStart()
    requires Frequencies(DeepWeights())
    ensures DeepState(0, InitialNodes(DeepWeights()), Singletons(35), AllLive(35))
  {
    var w := DeepWeights();
    MergeStateInit(w);
    assert Weights(Singletons(35), w) == w;
    assert w[..35] == w;
    hide MergeState, DeepWeights;
  }

  /** The whole run on these weights ends in a tree of height 33. */
  lemma DeepTree()
    ensures Frequencies(DeepWeights()) && Built(DeepWeights()).Some? && Height(BuiltTree(DeepWeights())) == 33
  {
    DeepTotal();
    hide MergeAll, DeepWeights, StaysBelow, Frequencies, Least;
    DeepStart();
    var nodes, trees, live := DeepRun(0, InitialNodes(DeepWeights()), Singletons(35), AllLive(35));
    assert Built(DeepWeights()) == Some(nodes);
    assert Height(trees[68]) == Heights(trees)[68] == 33;
    assert Forest(nodes, trees);
    hide DeepState, Forest;
    ForestAt(nodes, trees, 68);
  }

  /** In every table of these weights some code has length 33. */
  lemma DeepCode(codes: seq<HuffmanCode>) returns (i: nat)
    requires BuilderTable(codes, DeepWeights())
    ensures i < |codes| && codes[i].codeLen == 33
  {
    var w := DeepWeights();
    DeepTree();
    hide Built, DeepWeights, BuiltTree, Height, CodesExactly;
    BuiltIsComplete(w);
    AtMostOnceOf(BuiltTree(w), |w|);
    i := HeightAttained(BuiltTree(w), |w|);
    LengthIsDepth(codes, BuiltTree(w), i);
  }

  /** A table exists for whatever the builder builds. */
  lemma TableExists(w: seq<nat>) returns (codes: seq<HuffmanCode>)
    requires Frequencies(w) && Built(w).Some?
    ensures BuilderTable(codes, w)
  {
    codes := seq(|w|, i => TableEntry(BuiltTree(w), i));
  }

  /** Every table of a total weight up to this one fits 32-bit codes. */
  ghost predicate AlwaysFits(total: int) {
    forall codes, w: seq<nat> :: BuilderTable(codes, w) && Sum(w) <= total ==> FitsWord(codes)
  }

  /** The builder's codes always fit a word exactly up to a total weight of 11405772. */
  lemma AlwaysFitsIff(total: int)
    ensures AlwaysFits(total) <==> total < 11405773
  {
    hide Built, Least, Fib, DeepWeights, FitsWord;
    LeastOf33();
    if total < 11405773 {
      forall codes, w: seq<nat> | BuilderTable(codes, w) && Sum(w) <= total ensures FitsWord(codes) {
        DepthFitsWord(codes, w);
      }
    } else {
      DeepTotal();
      DeepTree();
      var codes := TableExists(DeepWeights());
      var i := DeepCode(codes);
      assert !FitsWord(codes) by { LongCode(codes, i); }
    }
  }

  lemma LongCode(codes: seq<HuffmanCode>, i: nat)
    requires i < |codes| && codes[i].codeLen == 33
    ensures !FitsWord(codes)
  {
  }
}

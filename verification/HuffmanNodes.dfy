/**
 The node array of the builder as a value: which two nodes the search picks, what one merge makes of
 the array, and the array all merges together leave, if none of the searches fails.
 */
module HuffmanNodes {
  import opened Sums
  import opened Bits
  import opened Wrappers
  import opened HuffmanOptimality
  import opened HuffmanTree
  import opened HuffmanMerging

  datatype HuffmanNode = HuffmanNode(left: int, right: int, freq: uint32, symbol: int)

  function FreqColumn(nodes: seq<HuffmanNode>): (r: seq<nat>) {
    seq(|nodes|, j requires 0 <= j < |nodes| => nodes[j].freq)
  }

  /** Node j of the array roots trees[j]; children come before their parent. */
  ghost predicate Forest(nodes: seq<HuffmanNode>, trees: seq<Tree>) {
    && |trees| <= |nodes|
    && forall j :: 0 <= j < |trees| ==> Roots(nodes[j], trees, j)
  }

  ghost predicate Roots(node: HuffmanNode, trees: seq<Tree>, j: nat)
    requires j < |trees|
  {
    if node.left < 0 then trees[j] == Leaf(node.symbol)
    else node.left < j && 0 <= node.right < j && trees[j] == Node(trees[node.left], trees[node.right])
  }

  // ---------- The search ----------

  predicate Candidate(nodes: seq<HuffmanNode>, j: int) {
    0 <= j < |nodes| && 0 < nodes[j].freq < UINT32_MAX
  }

  /** A lighter node, or the earlier of two equally light ones, goes first. */
  predicate GoesFirst(nodes: seq<HuffmanNode>, i: int, j: int)
    requires 0 <= i < |nodes| && 0 <= j < |nodes|
  {
    nodes[i].freq < nodes[j].freq || (nodes[i].freq == nodes[j].freq && i <= j)
  }

  /** The search result: -1 stands for "none". */
  ghost predicate TwoSmallest(nodes: seq<HuffmanNode>, min1: int, min2: int) {
    && -1 <= min1 < |nodes| && -1 <= min2 < |nodes|
    && (min1 >= 0 ==> Candidate(nodes, min1))
    && (min1 >= 0 ==> forall j :: Candidate(nodes, j) ==> GoesFirst(nodes, min1, j))
    && (min1 < 0 ==> min2 < 0 && forall j :: !Candidate(nodes, j))
    && (min2 >= 0 ==> Candidate(nodes, min2) && min1 != min2)
    && (min2 >= 0 ==> forall j :: Candidate(nodes, j) && j != min1 ==> GoesFirst(nodes, min2, j))
    && (min2 < 0 ==> forall j :: Candidate(nodes, j) ==> j == min1)
  }

  /** The search has one result only. */
  lemma TwoSmallestUnique(nodes: seq<HuffmanNode>, p: int, q: int, p': int, q': int)
    requires TwoSmallest(nodes, p, q) && TwoSmallest(nodes, p', q')
    ensures p == p' && q == q'
  {
  }

  /** The frequency a search position stands for. */
  function FreqAt(nodes: seq<HuffmanNode>, i: int): uint32
    requires i < |nodes|
  {
    if i < 0 then UINT32_MAX else nodes[i].freq
  }

  /** The search goes once through the array. */
  function Search(nodes: seq<HuffmanNode>): (r: (int, int))
    ensures TwoSmallest(nodes, r.0, r.1)
  {
    if |nodes| == 0 then (-1, -1)
    else
      var n := |nodes| - 1;
      var (min1, min2) := Search(nodes[..n]);
      SearchNext(nodes, min1, min2);
      NextMinima(nodes, min1, min2)
  }

  /** One round of the search: the last node against the two smallest before it. */
  function NextMinima(nodes: seq<HuffmanNode>, min1: int, min2: int): (int, int)
    requires |nodes| > 0 && min1 < |nodes| && min2 < |nodes|
  {
    var j := |nodes| - 1;
    if nodes[j].freq == 0 then (min1, min2)
    else if nodes[j].freq < FreqAt(nodes, min1) then (j, min1)
    else if nodes[j].freq < FreqAt(nodes, min2) then (min1, j)
    else (min1, min2)
  }

  lemma SearchNext(nodes: seq<HuffmanNode>, min1: int, min2: int)
    requires |nodes| > 0 && TwoSmallest(nodes[..|nodes| - 1], min1, min2)
    ensures var r := NextMinima(nodes, min1, min2); TwoSmallest(nodes, r.0, r.1)
  {
    var before := nodes[..|nodes| - 1];
    assert forall k :: 0 <= k < |before| ==> before[k] == nodes[k];
    assert forall k :: Candidate(nodes, k) ==> k == |nodes| - 1 || Candidate(before, k);
    assert forall k :: Candidate(before, k) ==> Candidate(nodes, k);
  }

  // ---------- One merge ----------

  /**
   The nodes after the first |before| ones are extended by the parent of p and q, whose own frequencies
   become zero.
   */
  function Joined(before: seq<HuffmanNode>, p: nat, q: nat): seq<HuffmanNode>
    requires p < |before| && q < |before|
  {
    before[p := before[p].(freq := 0)][q := before[q].(freq := 0)]
    + [HuffmanNode(p, q, (before[p].freq + before[q].freq) % WORD_SIZE, -1)]
  }

  lemma JoinedForest(before: seq<HuffmanNode>, after: seq<HuffmanNode>, trees: seq<Tree>, p: nat, q: nat)
    requires |trees| == |before| && p < |before| && q < |before| && p != q
    requires Forest(before, trees) && after == Joined(before, p, q)
    ensures Forest(after, trees + [Node(trees[p], trees[q])])
    ensures FreqColumn(after) == FreqColumn(before)[p := 0][q := 0]
              + [(FreqColumn(before)[p] + FreqColumn(before)[q]) % WORD_SIZE]
  {
    var trees' := trees + [Node(trees[p], trees[q])];
    forall j | 0 <= j < |trees'|
      ensures Roots(after[j], trees', j)
    {
      if j < |trees| { assert Roots(before[j], trees, j); }
    }
  }

  /** While nothing below the root gets too heavy, the search finds the two lightest live trees. */
  lemma SearchSucceeds(w: seq<nat>, nodes: seq<HuffmanNode>, trees: seq<Tree>, live: seq<bool>, min1: int, min2: int)
    requires Merging(w, FreqColumn(nodes), trees, live) && |nodes| < 2 * |w| - 1
    requires StaysBelow(w) && Ordered(w, trees, live)
    requires TwoSmallest(nodes, min1, min2)
    ensures min1 >= 0 && min2 >= 0 && TwoFirst(live, Weights(trees, w), min1, min2)
  {
    var f := Weights(trees, w);
    assert |nodes| == |trees| == |live| && LiveSum(live, Ones(|live|)) >= 2;
    hide Merging, Ordered, StaysBelow, Weights, Candidate, FreqColumn;
    var a, b := TwoLive(live);
    forall j | 0 <= j < |live|
      ensures live[j] ==> Candidate(nodes, j) && nodes[j].freq == f[j]
      ensures !live[j] ==> !Candidate(nodes, j)
    {
      FrequencyOfNode(w, nodes, trees, live, j, if j == a then b else a);
    }
    SearchPicksFirst(nodes, live, f, a, b, min1, min2);
    hide *;
  }

  lemma FrequencyOfNode(w: seq<nat>, nodes: seq<HuffmanNode>, trees: seq<Tree>, live: seq<bool>, j: nat, k: nat)
    requires Merging(w, FreqColumn(nodes), trees, live) && StaysBelow(w) && Ordered(w, trees, live)
    requires j < |nodes| && k < |nodes| && j != k && live[k]
    ensures live[j] ==> Candidate(nodes, j) && nodes[j].freq == Weights(trees, w)[j]
    ensures !live[j] ==> !Candidate(nodes, j)
  {
    assert FreqColumn(nodes)[j] == nodes[j].freq;
    if live[j] { BelowRoot(w, trees, live, j, k); }
    hide Ordered, StaysBelow, Partition;
  }

  lemma SearchPicksFirst(nodes: seq<HuffmanNode>, live: seq<bool>, f: seq<nat>, a: nat, b: nat, min1: int, min2: int)
    requires |nodes| == |live| == |f| && TwoSmallest(nodes, min1, min2)
    requires a < |live| && b < |live| && a != b && live[a] && live[b]
    requires forall j :: 0 <= j < |live| && live[j] ==> Candidate(nodes, j) && nodes[j].freq == f[j]
    requires forall j :: 0 <= j < |live| && !live[j] ==> !Candidate(nodes, j)
    ensures min1 >= 0 && min2 >= 0 && TwoFirst(live, f, min1, min2)
  {
    assert Candidate(nodes, a) && Candidate(nodes, b);
  }

  /** What holds before every merge; the initial nodes are those of w. */
  ghost predicate MergeState(nodes: seq<HuffmanNode>, w: seq<nat>, trees: seq<Tree>, live: seq<bool>) {
    && |nodes| == |trees| == |live| > 0 && live[|live| - 1]
    && Forest(nodes, trees)
    && Merging(w, FreqColumn(nodes), trees, live)
    && (StaysBelow(w) ==> Minimal(w, trees, live))
  }

  /** The leaves the builder starts from. */
  function InitialNodes(w: seq<nat>): (r: seq<HuffmanNode>)
    requires Frequencies(w)
    ensures |r| == |w|
  {
    seq(|w|, i requires 0 <= i < |w| => HuffmanNode(-1, -1, w[i], i))
  }

  lemma MergeStateInit(w: seq<nat>)
    requires Frequencies(w)
    ensures MergeState(InitialNodes(w), w, Singletons(|w|), AllLive(|w|))
  {
    assert FreqColumn(InitialNodes(w)) == w;
    MergingInit(w);
    MinimalInit(w);
  }

  /** What the search finds is live; while nothing below the root gets too heavy, it is what the merge needs. */
  lemma SearchFindsLive(nodes: seq<HuffmanNode>, w: seq<nat>, trees: seq<Tree>, live: seq<bool>, min1: int, min2: int)
    requires MergeState(nodes, w, trees, live) && |nodes| < 2 * |w| - 1 && TwoSmallest(nodes, min1, min2)
    ensures StaysBelow(w) ==> min1 >= 0 && min2 >= 0 && TwoFirst(live, Weights(trees, w), min1, min2)
    ensures min1 >= 0 && min2 >= 0 ==> min1 < |nodes| && min2 < |nodes| && min1 != min2 && live[min1] && live[min2]
  {
    if StaysBelow(w) {
      SearchSucceeds(w, nodes, trees, live, min1, min2);
    } else if min1 >= 0 && min2 >= 0 {
      var f := FreqColumn(nodes);
      assert f[min1] == nodes[min1].freq && f[min2] == nodes[min2].freq;
    }
  }

  lemma MergeStateStep(nodes: seq<HuffmanNode>, w: seq<nat>, trees: seq<Tree>, live: seq<bool>, p: nat, q: nat)
    requires MergeState(nodes, w, trees, live) && |nodes| < 2 * |w| - 1
    requires p < |nodes| && q < |nodes| && p != q && live[p] && live[q]
    requires StaysBelow(w) ==> TwoFirst(live, Weights(trees, w), p, q)
    ensures MergeState(Joined(nodes, p, q), w, trees + [Node(trees[p], trees[q])], MergedLive(live, p, q))
  {
    hide Merging;
    JoinedForest(nodes, Joined(nodes, p, q), trees, p, q);
    MergingStep(w, FreqColumn(nodes), trees, live, p, q);
    if StaysBelow(w) {
      MinimalStep(w, trees, live, p, q);
    }
  }

  // ---------- All merges ----------

  /** A tree over all symbols, built lightest first and of least weighted length. */
  ghost predicate HuffmanTreeFor(t: Tree, w: seq<nat>) {
    CodesExactly(t, |w|) && LightestFirst(t, w) && Optimal(t, w)
  }

  /** The last node roots a tree over all symbols, a Huffman tree if nothing below the root gets too heavy. */
  ghost predicate MergeResult(nodes: seq<HuffmanNode>, w: seq<nat>, trees: seq<Tree>) {
    && |nodes| == |trees| == 2 * |w| - 1 > 0
    && Forest(nodes, trees)
    && CodesExactly(trees[|trees| - 1], |w|) && LeafCount(trees[|trees| - 1]) == |w|
    && (StaysBelow(w) ==> HuffmanTreeFor(trees[|trees| - 1], w))
  }

  lemma MergeStateEnd(nodes: seq<HuffmanNode>, w: seq<nat>, trees: seq<Tree>, live: seq<bool>)
    requires MergeState(nodes, w, trees, live) && |nodes| == 2 * |w| - 1
    ensures MergeResult(nodes, w, trees)
  {
    RootIsComplete(w, FreqColumn(nodes), trees, live);
    if StaysBelow(w) {
      RootIsOptimal(w, trees, live);
    }
  }

  /** Merging until the array holds total nodes, or until a search finds fewer than two. */
  function MergeAll(nodes: seq<HuffmanNode>, total: nat): Option<seq<HuffmanNode>>
    decreases total - |nodes|
  {
    if |nodes| >= total then Some(nodes)
    else
      var (p, q) := Search(nodes);
      if p < 0 || q < 0 then None else MergeAll(Joined(nodes, p, q), total)
  }

  /** The search result decides the next merge. */
  lemma NextMerge(nodes: seq<HuffmanNode>, total: nat, p: int, q: int)
    requires |nodes| < total && TwoSmallest(nodes, p, q)
    ensures p < 0 || q < 0 ==> MergeAll(nodes, total) == None
    ensures p >= 0 && q >= 0 ==> MergeAll(nodes, total) == MergeAll(Joined(nodes, p, q), total)
  {
    var r := Search(nodes);
    TwoSmallestUnique(nodes, p, q, r.0, r.1);
  }

  /** All merges keep the state, and none fails while nothing below the root gets too heavy. */
  lemma {:induction false} MergeAllResult(nodes: seq<HuffmanNode>, w: seq<nat>, trees: seq<Tree>, live: seq<bool>)
    returns (built: seq<Tree>)
    requires MergeState(nodes, w, trees, live)
    ensures StaysBelow(w) ==> MergeAll(nodes, 2 * |w| - 1).Some?
    ensures var r := MergeAll(nodes, 2 * |w| - 1); r.Some? ==> MergeResult(r.value, w, built)
    decreases 2 * |w| - |nodes|
  {
    assert |w| <= |nodes| < 2 * |w|;
    hide Merging, Minimal, Forest, StaysBelow;
    built := trees;
    if |nodes| == 2 * |w| - 1 {
      MergeStateEnd(nodes, w, trees, live);
    } else {
      var (p, q) := Search(nodes);
      NextMerge(nodes, 2 * |w| - 1, p, q);
      SearchFindsLive(nodes, w, trees, live, p, q);
      if p >= 0 && q >= 0 {
        MergeStateStep(nodes, w, trees, live, p, q);
        built := MergeAllResult(Joined(nodes, p, q), w, trees + [Node(trees[p], trees[q])], MergedLive(live, p, q));
      }
    }
  }

  /** The finished node array for the weights w. */
  function Built(w: seq<nat>): Option<seq<HuffmanNode>>
    requires Frequencies(w)
  {
    MergeAll(InitialNodes(w), 2 * |w| - 1)
  }

  /** The tree below node j. */
  function TreeAt(nodes: seq<HuffmanNode>, j: nat): Tree
    requires j < |nodes|
    decreases j
  {
    var node := nodes[j];
    if node.left < 0 then Leaf(node.symbol)
    else if node.left < j && 0 <= node.right < j then Node(TreeAt(nodes, node.left), TreeAt(nodes, node.right))
    else Leaf(node.symbol)
  }

  lemma {:induction false} ForestAt(nodes: seq<HuffmanNode>, trees: seq<Tree>, j: nat)
    requires Forest(nodes, trees) && j < |trees|
    ensures TreeAt(nodes, j) == trees[j]
    decreases j
  {
    assert Roots(nodes[j], trees, j);
    if nodes[j].left >= 0 {
      ForestAt(nodes, trees, nodes[j].left);
      ForestAt(nodes, trees, nodes[j].right);
    }
  }

  /** The root of the finished array. */
  function BuiltTree(w: seq<nat>): Tree
    requires Frequencies(w) && Built(w).Some?
  {
    var nodes := Built(w).value;
    if |nodes| > 0 then TreeAt(nodes, |nodes| - 1) else Leaf(0)
  }

  lemma BuiltForest(w: seq<nat>) returns (trees: seq<Tree>)
    requires Frequencies(w)
    ensures StaysBelow(w) ==> Built(w).Some?
    ensures Built(w).Some? ==> MergeResult(Built(w).value, w, trees) && trees[|trees| - 1] == BuiltTree(w)
  {
    hide MergeState, StaysBelow;
    MergeStateInit(w);
    trees := MergeAllResult(InitialNodes(w), w, Singletons(|w|), AllLive(|w|));
    if Built(w).Some? { ForestAt(Built(w).value, trees, |trees| - 1); }
  }

  /**
   The builder never fails while all weights but any one add up to less than the largest word, and then
   builds a Huffman tree.
   */
  lemma BuiltIsHuffman(w: seq<nat>)
    requires Frequencies(w) && StaysBelow(w)
    ensures Built(w).Some? && HuffmanTreeFor(BuiltTree(w), w)
  {
    hide HuffmanTreeFor;
    var trees := BuiltForest(w);
  }

  /** Whatever the weights, a finished tree holds every symbol once. */
  lemma BuiltIsComplete(w: seq<nat>)
    requires Frequencies(w) && Built(w).Some?
    ensures CodesExactly(BuiltTree(w), |w|) && LeafCount(BuiltTree(w)) == |w|
  {
    var trees := BuiltForest(w);
  }
}

/**
 Where the promises of the builder end: frequencies that make it fail or lose optimality because sums
 of them do not fit a word.
 */
module HuffmanLimits {
  import opened Sums
  import opened Bits
  import opened Wrappers
  import opened HuffmanOptimality
  import opened HuffmanTree
  import opened HuffmanMerging
  import opened HuffmanNodes
  import opened HuffmanCodeTable

  // ---------- Weights that do not fit ----------

  /** A node of the largest frequency is never found by the search, so it stays as it is. */
  ghost predicate NeverMerged(nodes: seq<HuffmanNode>, w: seq<nat>, live: seq<bool>) {
    && |w| <= |nodes| == |live|
    && forall s :: 0 <= s < |w| && w[s] == UINT32_MAX ==> live[s] && nodes[s].freq == UINT32_MAX
  }

  lemma NeverMergedStep(nodes: seq<HuffmanNode>, w: seq<nat>, live: seq<bool>, p: nat, q: nat)
    requires NeverMerged(nodes, w, live) && TwoSmallest(nodes, p, q)
    ensures p < |nodes| && q < |nodes| && p != q && NeverMerged(Joined(nodes, p, q), w, MergedLive(live, p, q))
  {
  }

  lemma {:induction false} NeverMergedRun(nodes: seq<HuffmanNode>, w: seq<nat>, trees: seq<Tree>, live: seq<bool>)
    requires MergeState(nodes, w, trees, live) && NeverMerged(nodes, w, live) && |w| >= 2 && UINT32_MAX in w
    ensures MergeAll(nodes, 2 * |w| - 1) == None
    decreases 2 * |w| - |nodes|
  {
    assert |w| <= |nodes| < 2 * |w|;
    if |nodes| == 2 * |w| - 1 {
      OnlyRootLive(live);
      assert false;
    } else {
      hide MergeState, NeverMerged;
      var (p, q) := Search(nodes);
      NextMerge(nodes, 2 * |w| - 1, p, q);
      SearchFindsLive(nodes, w, trees, live, p, q);
      if p >= 0 && q >= 0 {
        MergeStateStep(nodes, w, trees, live, p, q);
        NeverMergedStep(nodes, w, live, p, q);
        NeverMergedRun(Joined(nodes, p, q), w, trees + [Node(trees[p], trees[q])], MergedLive(live, p, q));
      }
    }
  }

  /** Among two or more symbols, a frequency of 2^32 - 1 makes the builder fail. */
  lemma LargestFails(w: seq<nat>)
    requires Frequencies(w) && |w| >= 2 && 4294967295 in w
    ensures Built(w) == None
  {
    MergeStateInit(w);
    NeverMergedRun(InitialNodes(w), w, Singletons(|w|), AllLive(|w|));
  }

  /** For two symbols the condition of BuiltIsHuffman is exact. */
  lemma TwoSymbolsIff(w: seq<nat>)
    requires Frequencies(w) && |w| == 2
    ensures Built(w).Some? <==> w[0] < 4294967295 && w[1] < 4294967295
  {
    assert w == [w[0]] + [w[1]];
    SumAppend([w[0]], w[1]);
    SumAppend([], w[0]);
    assert Sum(w) == w[0] + w[1];
    if StaysBelow(w) {
      BuiltIsHuffman(w);
    } else {
      assert w[0] == UINT32_MAX || w[1] == UINT32_MAX;
      LargestFails(w);
    }
  }

  const HALF: nat := 0x8000_0000

  function LeafNode(freq: uint32, symbol: int): HuffmanNode {
    HuffmanNode(-1, -1, freq, symbol)
  }

  /** A sum that wraps to zero takes its node out of the search. */
  lemma WrapToZeroFails()
    ensures Frequencies([HALF, HALF, HALF]) && Built([HALF, HALF, HALF]) == None
  {
    hide Search, MergeAll;
    var nodes := [LeafNode(HALF, 0), LeafNode(HALF, 1), LeafNode(HALF, 2)];
    var joined := [LeafNode(0, 0), LeafNode(0, 1), LeafNode(HALF, 2), HuffmanNode(0, 1, 0, -1)];
    assert InitialNodes([HALF, HALF, HALF]) == nodes;
    NextMerge(nodes, 5, 0, 1);
    assert Joined(nodes, 0, 1) == joined;
    hide Joined;
    NextMerge(joined, 5, 2, -1);
  }

  /** Four almost equal weights, the first two of which wrap to a very light node. */
  const WRAPPING: seq<nat> := [HALF, HALF + 1, HALF + 2, HALF + 3]

  /** The node array before each merge of these weights, and after the last. */
  function Wrapping(merges: nat): seq<HuffmanNode> {
    if merges == 0 then [LeafNode(HALF, 0), LeafNode(HALF + 1, 1), LeafNode(HALF + 2, 2), LeafNode(HALF + 3, 3)]
    else if merges == 1 then
      [LeafNode(0, 0), LeafNode(0, 1), LeafNode(HALF + 2, 2), LeafNode(HALF + 3, 3), HuffmanNode(0, 1, 1, -1)]
    else if merges == 2 then
      [LeafNode(0, 0), LeafNode(0, 1), LeafNode(0, 2), LeafNode(HALF + 3, 3), HuffmanNode(0, 1, 0, -1),
       HuffmanNode(4, 2, HALF + 3, -1)]
    else
      [LeafNode(0, 0), LeafNode(0, 1), LeafNode(0, 2), LeafNode(0, 3), HuffmanNode(0, 1, 0, -1),
       HuffmanNode(4, 2, 0, -1), HuffmanNode(3, 5, 6, -1)]
  }

  lemma WrappingMerge(merges: nat)
    requires merges < 3
    ensures MergeAll(Wrapping(merges), 7) == MergeAll(Wrapping(merges + 1), 7)
  {
    hide Search, MergeAll;
    var p := if merges == 0 then 0 else if merges == 1 then 4 else 3;
    var q := if merges == 0 then 1 else if merges == 1 then 2 else 5;
    assert TwoSmallest(Wrapping(merges), p, q);
    NextMerge(Wrapping(merges), 7, p, q);
    assert Joined(Wrapping(merges), p, q) == Wrapping(merges + 1);
  }

  lemma WrappingRun()
    ensures MergeAll(Wrapping(0), 7) == Some(Wrapping(3)) && |Wrapping(3)| == 7
  {
    WrappingMerge(0);
    WrappingMerge(1);
    WrappingMerge(2);
    hide Search;
    assert |Wrapping(3)| == 7;
    hide Wrapping;
  }

  lemma WrappingTree()
    ensures TreeAt(Wrapping(3), 6) == Node(Leaf(3), Node(Node(Leaf(0), Leaf(1)), Leaf(2)))
  {
    var d := Wrapping(3);
    assert TreeAt(d, 4) == Node(Leaf(0), Leaf(1));
    assert TreeAt(d, 5) == Node(TreeAt(d, 4), Leaf(2));
    assert TreeAt(d, 6) == Node(Leaf(3), TreeAt(d, 5));
  }

  /** A sum that wraps to something small is merged far too early. */
  lemma WrapMisleads()
    ensures Frequencies(WRAPPING) && Built(WRAPPING).Some?
    ensures BuiltTree(WRAPPING) == Node(Leaf(3), Node(Node(Leaf(0), Leaf(1)), Leaf(2)))
  {
    hide MergeAll, TreeAt;
    assert InitialNodes(WRAPPING) == Wrapping(0);
    hide Wrapping;
    WrappingRun();
    WrappingTree();
  }

  /** So the builder succeeds with lengths 3, 3, 2, 1, and two bits for each symbol would cost less. */
  lemma WrapLosesOptimality(codes: seq<HuffmanCode>)
    requires BuilderTable(codes, WRAPPING)
    ensures CodeLengths(codes) == [3, 3, 2, 1]
    ensures PrefixFree(TWO_BITS) && Sum(CodeCost(TWO_BITS, WRAPPING)) < Sum(TableCosts(codes, WRAPPING))
  {
    WrapMisleads();
    WrappingLengths(codes);
    TwoBitsPrefixFree();
    CostsOfFour(codes, WRAPPING);
    hide Sum, CodeCost, TableCosts, BuilderTable, BuiltTree;
  }

  lemma CostsOfFour(codes: seq<HuffmanCode>, w: seq<nat>)
    requires |codes| == |w| == 4 && CodeLengths(codes) == [3, 3, 2, 1]
    ensures Sum(CodeCost(TWO_BITS, w)) == 2 * (w[0] + w[1] + w[2] + w[3])
    ensures Sum(TableCosts(codes, w)) == 3 * w[0] + 3 * w[1] + 2 * w[2] + w[3]
  {
    hide Sum;
    assert CodeCost(TWO_BITS, w) == [2 * w[0], 2 * w[1], 2 * w[2], 2 * w[3]];
    assert forall i :: 0 <= i < 4 ==> codes[i].codeLen == CodeLengths(codes)[i];
    assert TableCosts(codes, w) == [3 * w[0], 3 * w[1], 2 * w[2], w[3]];
    SumOfFour(2 * w[0], 2 * w[1], 2 * w[2], 2 * w[3]);
    SumOfFour(3 * w[0], 3 * w[1], 2 * w[2], w[3]);
  }

  const TWO_BITS: seq<seq<bool>> := [[false, false], [false, true], [true, false], [true, true]]

  lemma TwoBitsPrefixFree()
    ensures PrefixFree(TWO_BITS)
  {
    var c := TWO_BITS;
    assert !c[0][0] && !c[0][1] && !c[1][0] && c[1][1] && c[2][0] && !c[2][1] && c[3][0] && c[3][1];
  }

  lemma WrappingDepths()
    ensures var t := Node(Leaf(3), Node(Node(Leaf(0), Leaf(1)), Leaf(2)));
            |CodeOf(t, 0)| == 3 && |CodeOf(t, 1)| == 3 && |CodeOf(t, 2)| == 2 && |CodeOf(t, 3)| == 1
  {
    assert |CodeOf(Node(Leaf(0), Leaf(1)), 0)| == 1 && |CodeOf(Node(Leaf(0), Leaf(1)), 1)| == 1;
  }

  lemma WrappingLengths(codes: seq<HuffmanCode>)
    requires |codes| == 4 && TableOf(codes, Node(Leaf(3), Node(Node(Leaf(0), Leaf(1)), Leaf(2))))
    ensures CodeLengths(codes) == [3, 3, 2, 1]
  {
    hide CodeOf, Value;
    WrappingDepths();
    var t := Node(Leaf(3), Node(Node(Leaf(0), Leaf(1)), Leaf(2)));
    assert codes[0] == TableEntry(t, 0) && codes[1] == TableEntry(t, 1);
    assert codes[2] == TableEntry(t, 2) && codes[3] == TableEntry(t, 3);
    hide TableOf;
  }

  lemma SumOfFour(a: int, b: int, c: int, d: int)
    ensures Sum([a, b, c, d]) == a + b + c + d
  {
    assert [a, b, c, d] == [a] + [b] + [c] + [d];
    SumAppend([], a);
    SumAppend([a], b);
    SumAppend([a] + [b], c);
    SumAppend([a] + [b] + [c], d);
    assert [] + [a] == [a];
  }
}

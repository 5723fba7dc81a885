/**
 huffman_build_tree: merging the two lightest nodes of an array until one root is left, then reading
 off every symbol's code by a depth-first search with an explicit stack. Codes are 32-bit words.
 */
module HuffmanBuilder {
  import opened Sums
  import opened Bits
  import opened HuffmanTree
  import opened HuffmanMerging
  import opened HuffmanNodes
  import opened HuffmanSearch
  import opened HuffmanCodeTable

  const MAX_SYMBOLS: nat := 256
  const STACK_SIZE: nat := 512

  class HuffmanEncoder {
    const codes: array<HuffmanCode>
    var numSymbols: int
    var totalBits: nat

    constructor ()
      ensures fresh(codes) && codes.Length == MAX_SYMBOLS
    {
      codes := new HuffmanCode[MAX_SYMBOLS](_ => HuffmanCode(0, 0, 0));
      numSymbols := 0;
      totalBits := 0;
    }
  }

  // ---------- Merging ----------

  method FindTwoSmallest(nodes: array<HuffmanNode>, i: nat) returns (min1: int, min2: int)
    requires i <= nodes.Length
    ensures (min1, min2) == Search(nodes[..i]) && TwoSmallest(nodes[..i], min1, min2)
  {
    min1, min2 := -1, -1;
    var f1, f2 := UINT32_MAX, UINT32_MAX;
    for j := 0 to i
      invariant (min1, min2) == Search(nodes[..j])
      invariant f1 == FreqAt(nodes[..j], min1) && f2 == FreqAt(nodes[..j], min2)
    {
      assert nodes[..j + 1][..j] == nodes[..j];
      if nodes[j].freq != 0 {
        if nodes[j].freq < f1 {
          f2, min2 := f1, min1;
          f1, min1 := nodes[j].freq, j;
        } else if nodes[j].freq < f2 {
          f2, min2 := nodes[j].freq, j;
        }
      }
    }
  }

  method JoinNodes(nodes: array<HuffmanNode>, i: nat, p: nat, q: nat)
    requires p < i && q < i < nodes.Length && p != q
    modifies nodes
    ensures nodes[..i + 1] == Joined(old(nodes[..i]), p, q)
  {
    nodes[i] := HuffmanNode(p, q, (nodes[p].freq + nodes[q].freq) % WORD_SIZE, -1);
    nodes[p] := nodes[p].(freq := 0);
    nodes[q] := nodes[q].(freq := 0);
  }

  /** Merging nodes until one root is left. */
  method MergeLightest(nodes: array<HuffmanNode>, n: nat) returns (ok: bool)
    requires n <= nodes.Length
    modifies nodes
    ensures ok == MergeAll(old(nodes[..n]), nodes.Length).Some?
    ensures ok ==> nodes[..] == MergeAll(old(nodes[..n]), nodes.Length).value
  {
    for i := n to nodes.Length
      invariant MergeAll(nodes[..i], nodes.Length) == MergeAll(old(nodes[..n]), nodes.Length)
    {
      var min1, min2 := FindTwoSmallest(nodes, i);
      NextMerge(nodes[..i], nodes.Length, min1, min2);
      if min1 < 0 || min2 < 0 {
        return false;
      }
      JoinNodes(nodes, i, min1, min2);
    }
    assert nodes[..nodes.Length] == nodes[..];
    ok := true;
  }

  // ---------- Reading off the codes ----------

  lemma ShiftIn(bits: seq<bool>, b: bool)
    ensures Value(bits + [b]) % WORD_SIZE == (2 * (Value(bits) % WORD_SIZE) + (if b then 1 else 0)) % WORD_SIZE
  {
    ValueAppend(bits, b);
  }

  /** One slot of the parallel arrays stack_nodes, stack_depth and stack_code. */
  datatype StackEntry = StackEntry(node: int, depth: nat, code: uint32)

  /** The stack entries name the pending subtrees, with path length and path bits. */
  ghost predicate StackHolds(stack: seq<StackEntry>, trees: seq<Tree>, pending: seq<Tree>, paths: seq<seq<bool>>) {
    && |pending| == |paths| == |stack|
    && forall k :: 0 <= k < |stack| ==> EntryHolds(stack[k], trees, pending[k], paths[k])
  }

  ghost predicate EntryHolds(e: StackEntry, trees: seq<Tree>, pending: Tree, path: seq<bool>) {
    0 <= e.node < |trees| && trees[e.node] == pending && e.depth == |path| && e.code == Value(path) % WORD_SIZE
  }

  /** Pushing the right child and then the left child of a popped entry. */
  lemma PushChildren(stack: seq<StackEntry>, trees: seq<Tree>, pending: seq<Tree>, paths: seq<seq<bool>>,
                     e: StackEntry, top: Tree, path: seq<bool>, left: nat, right: nat)
    requires StackHolds(stack, trees, pending, paths) && EntryHolds(e, trees, top, path)
    requires left < |trees| && right < |trees| && top == Node(trees[left], trees[right])
    ensures StackHolds(stack + Children(HuffmanNode(left, right, 0, -1), e), trees,
                       pending + [top.right] + [top.left], paths + [path + [true]] + [path + [false]])
  {
    ShiftIn(path, true);
    ShiftIn(path, false);
  }

  /** The whole search state. */
  ghost predicate Searching(stack: seq<StackEntry>, trees: seq<Tree>, t: Tree,
                            pending: seq<Tree>, paths: seq<seq<bool>>, s: int) {
    Frontier(t, pending, paths, s) && StackHolds(stack, trees, pending, paths)
  }

  /** What the search pushes for an inner node: the right child, then the left one. */
  function Children(node: HuffmanNode, e: StackEntry): (r: seq<StackEntry>)
    ensures |r| == 2
  {
    [StackEntry(node.right, e.depth + 1, (2 * e.code + 1) % WORD_SIZE),
     StackEntry(node.left, e.depth + 1, (2 * e.code) % WORD_SIZE)]
  }

  method Push(stack: array<StackEntry>, height: nat, node: HuffmanNode, e: StackEntry) returns (height': nat)
    requires height + 2 <= stack.Length
    modifies stack
    ensures height' == height + 2 && stack[..height'] == old(stack[..height]) + Children(node, e)
  {
    height' := height;
    stack[height'] := StackEntry(node.right, e.depth + 1, (2 * e.code + 1) % WORD_SIZE);
    height' := height' + 1;
    stack[height'] := StackEntry(node.left, e.depth + 1, (2 * e.code) % WORD_SIZE);
    height' := height' + 1;
  }

  lemma SearchStep(stack: seq<StackEntry>, e: StackEntry, nodes: seq<HuffmanNode>, trees: seq<Tree>, t: Tree,
                   pending: seq<Tree>, paths: seq<seq<bool>>, s: int)
    returns (pending': seq<Tree>, paths': seq<seq<bool>>)
    requires Forest(nodes, trees) && |nodes| == |trees|
    requires Searching(stack + [e], trees, t, pending, paths, s)
    ensures 0 <= e.node < |nodes| && 0 <= Work(pending)
    ensures nodes[e.node].left < 0 && nodes[e.node].symbol == s ==>
              e.depth == |CodeOf(t, s)| && e.code == Value(CodeOf(t, s)) % WORD_SIZE
    ensures nodes[e.node].left < 0 && nodes[e.node].symbol != s ==>
              Searching(stack, trees, t, pending', paths', s) && Work(pending') < Work(pending)
    ensures nodes[e.node].left >= 0 ==>
              && Searching(stack + Children(nodes[e.node], e), trees, t, pending', paths', s)
              && Work(pending') < Work(pending)
  {
    StackBound(pending);
    var n := |stack|;
    var top, path, rest, restPaths := pending[n], paths[n], pending[..n], paths[..n];
    assert pending == rest + [top] && paths == restPaths + [path];
    assert (stack + [e])[n] == e && EntryHolds(e, trees, top, path);
    assert StackHolds(stack, trees, rest, restPaths) by {
      assert forall k :: 0 <= k < n ==> (stack + [e])[k] == stack[k];
    }
    assert Roots(nodes[e.node], trees, e.node);
    if nodes[e.node].left >= 0 {
      Expand(t, rest, top, restPaths, path, s);
      PushChildren(stack, trees, rest, restPaths, e, top, path, nodes[e.node].left, nodes[e.node].right);
      pending', paths' := rest + [top.right] + [top.left], restPaths + [path + [true]] + [path + [false]];
    } else if nodes[e.node].symbol == s {
      FoundLeaf(t, rest, top, restPaths, path, s);
      pending', paths' := rest, restPaths;
    } else {
      PopLeaf(t, rest, top, restPaths, path, s);
      pending', paths' := rest, restPaths;
    }
  }

  /** The stack is never empty before the symbol is found and never holds more entries than t has leaves. */
  lemma StackHeight(stack: seq<StackEntry>, trees: seq<Tree>, t: Tree,
                    pending: seq<Tree>, paths: seq<seq<bool>>, s: int)
    requires Searching(stack, trees, t, pending, paths, s) && Occurs(t, s) > 0
    ensures 0 < |stack| <= LeafCount(t)
  {
    StackBound(pending);
  }

  lemma SearchInit(trees: seq<Tree>, root: nat, s: int)
    requires root < |trees| && CodesExactly(trees[root], LeafCount(trees[root]))
    ensures Searching([StackEntry(root, 0, 0)], trees, trees[root], [trees[root]], [[]], s)
  {
    FrontierInit(trees[root], LeafCount(trees[root]), s);
  }

  method FindCode(nodes: array<HuffmanNode>, root: nat, s: int, ghost trees: seq<Tree>)
    returns (code: uint32, depth: nat)
    requires Forest(nodes[..], trees) && |trees| == nodes.Length && root < nodes.Length
    requires LeafCount(trees[root]) <= MAX_SYMBOLS && CodesExactly(trees[root], LeafCount(trees[root]))
    requires 0 <= s < LeafCount(trees[root])
    ensures depth == |CodeOf(trees[root], s)| && code == Value(CodeOf(trees[root], s)) % WORD_SIZE
  {
    code, depth := 0, 0;
    var stack := new StackEntry[STACK_SIZE](_ => StackEntry(0, 0, 0));
    stack[0] := StackEntry(root, 0, 0);
    var height := 1;
    ghost var t, pending, paths := trees[root], [trees[root]], [[]];
    SearchInit(trees, root, s);
    assert Occurs(t, s) > 0;
    hide Searching, Forest, CodesExactly, LeafCount, CodeOf, Occurs, Value, Work;
    assert stack[..1] == [stack[0]];
    while height > 0
      modifies stack
      invariant height <= STACK_SIZE && Searching(stack[..height], trees, t, pending, paths, s)
      decreases Work(pending)
    {
      StackHeight(stack[..height], trees, t, pending, paths, s);
      height := height - 1;
      var e := stack[height];
      assert stack[..height + 1] == stack[..height] + [e];
      pending, paths := SearchStep(stack[..height], e, nodes[..], trees, t, pending, paths, s);
      if nodes[e.node].left < 0 {
        if nodes[e.node].symbol == s {
          code, depth := e.code, e.depth;
          return;
        }
      } else {
        ghost var above := Children(nodes[e.node], e);
        StackHeight(stack[..height] + above, trees, t, pending, paths, s);
        height := Push(stack, height, nodes[e.node], e);
      }
    }
    StackHeight(stack[..0], trees, t, pending, paths, s);
    assert false;
  }

  method InitLeaves(nodes: array<HuffmanNode>, freqs: seq<uint32>)
    requires |freqs| <= nodes.Length
    modifies nodes
    ensures forall k :: 0 <= k < |freqs| ==> nodes[k] == HuffmanNode(-1, -1, EffectiveWeights(freqs)[k], k)
  {
    for i := 0 to |freqs|
      invariant forall k :: 0 <= k < i ==> nodes[k] == HuffmanNode(-1, -1, EffectiveWeights(freqs)[k], k)
    {
      nodes[i] := HuffmanNode(-1, -1, if freqs[i] > 0 then freqs[i] else 1, i);
    }
  }

  /** Reading off the code of every symbol and totalling the bits the frequencies ask for. */
  method AssignCodes(nodes: array<HuffmanNode>, freqs: seq<uint32>, enc: HuffmanEncoder,
                     ghost w: seq<nat>, ghost trees: seq<Tree>)
    requires 0 < |freqs| == |w| <= MAX_SYMBOLS == enc.codes.Length
    requires MergeResult(nodes[..], w, trees)
    modifies enc, enc.codes
    ensures enc.numSymbols == |freqs| && enc.codes[|freqs|..] == old(enc.codes[|freqs|..])
    ensures TableOf(enc.codes[..|freqs|], trees[|trees| - 1])
    ensures enc.totalBits == Sum(TableCosts(enc.codes[..|freqs|], freqs))
  {
    ghost var t := trees[|trees| - 1];
    enc.numSymbols := |freqs|;
    enc.totalBits := 0;
    assert enc.codes[..0] == [];
    for i := 0 to |freqs|
      modifies enc, enc.codes
      invariant enc.numSymbols == |freqs|
      invariant enc.codes[|freqs|..] == old(enc.codes[|freqs|..])
      invariant TableOf(enc.codes[..i], t)
      invariant enc.totalBits == Sum(TableCosts(enc.codes[..i], freqs))
    {
      ghost var codes := enc.codes[..i];
      AssignCode(nodes, i, freqs[i], enc, trees);
      AddEntry(codes, TableEntry(t, i), t, freqs);
      hide *;
      assert enc.codes[..i + 1] == codes + [TableEntry(t, i)];
    }
  }

  /** The body of the loop over the symbols. */
  method AssignCode(nodes: array<HuffmanNode>, i: nat, freq: uint32, enc: HuffmanEncoder, ghost trees: seq<Tree>)
    requires nodes.Length == |trees| > 0 && Forest(nodes[..], trees) && i < enc.codes.Length
    requires var t := trees[|trees| - 1]; i < LeafCount(t) <= MAX_SYMBOLS && CodesExactly(t, LeafCount(t))
    modifies enc`totalBits, enc.codes
    ensures var entry := TableEntry(trees[|trees| - 1], i);
            && enc.codes[..] == old(enc.codes[..])[i := entry]
            && enc.totalBits == old(enc.totalBits) + entry.codeLen * freq
  {
    var code, depth := FindCode(nodes, nodes.Length - 1, i, trees);
    hide Forest, CodesExactly, LeafCount, Value, CodeOf;
    enc.codes[i] := HuffmanCode(i, code, if depth > 0 then depth else 8);
    enc.totalBits := enc.totalBits + enc.codes[i].codeLen * freq;
  }

  lemma AddEntry(codes: seq<HuffmanCode>, entry: HuffmanCode, t: Tree, freqs: seq<nat>)
    requires |codes| < |freqs| && TableOf(codes, t) && entry == TableEntry(t, |codes|)
    ensures TableOf(codes + [entry], t)
    ensures Sum(TableCosts(codes + [entry], freqs)) == Sum(TableCosts(codes, freqs)) + entry.codeLen * freqs[|codes|]
  {
    hide TableEntry;
    var bits := entry.codeLen * freqs[|codes|];
    SumAppend(TableCosts(codes, freqs), bits);
    assert TableCosts(codes + [entry], freqs) == TableCosts(codes, freqs) + [bits] by { hide Sum; }
  }

  /** Fails exactly when one of the searches fails, and otherwise leaves the table of the built tree. */
  method BuildTree(freqs: seq<uint32>, n: int, enc: HuffmanEncoder) returns (status: int)
    requires 1 <= n <= MAX_SYMBOLS ==> n <= |freqs|
    requires enc.codes.Length == MAX_SYMBOLS
    modifies enc, enc.codes
    ensures 1 <= n <= MAX_SYMBOLS ==> Frequencies(EffectiveWeights(freqs[..n]))
    ensures status == if 1 <= n <= MAX_SYMBOLS && Built(EffectiveWeights(freqs[..n])).Some? then 0 else -1
    ensures status == -1 ==> unchanged(enc) && unchanged(enc.codes)
    ensures status == 0 ==> enc.numSymbols == n && BuilderTable(enc.codes[..n], EffectiveWeights(freqs[..n]))
    ensures status == 0 ==> enc.codes[n..] == old(enc.codes[n..])
    ensures status == 0 ==> enc.totalBits == Sum(TableCosts(enc.codes[..n], freqs[..n]))
    ensures 1 <= n <= MAX_SYMBOLS && StaysBelow(EffectiveWeights(freqs[..n])) ==>
              status == 0 && HuffmanTable(enc.codes[..n], EffectiveWeights(freqs[..n]))
    ensures 1 <= n <= 256 && OccurrencesFit(freqs[..n]) ==> status == 0
    ensures 2 <= n <= 256 && OccurrencesFit(freqs[..n]) ==>
              NeedsFewestBits(enc.codes[..n], enc.totalBits, freqs[..n])
  {
    if n <= 0 || n > MAX_SYMBOLS {
      return -1;
    }
    ghost var w := EffectiveWeights(freqs[..n]);
    ghost var trees := BuiltForest(w);
    EffectiveTotal(freqs[..n]);
    hide MergeAll, Forest, StaysBelow, OccurrencesFit, NeedsFewestBits;
    var nodes := new HuffmanNode[2 * n - 1](_ => HuffmanNode(0, 0, 0, 0));
    InitLeaves(nodes, freqs[..n]);
    assert nodes[..n] == InitialNodes(w);
    var ok := MergeLightest(nodes, n);
    if !ok {
      return -1;
    }
    AssignCodes(nodes, freqs[..n], enc, w, trees);
    if n >= 2 && OccurrencesFit(freqs[..n]) { FewestBits(enc.codes[..n], freqs[..n]); }
    status := 0;
  }
}

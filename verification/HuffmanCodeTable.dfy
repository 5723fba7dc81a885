/** The code table of a tree, and what it promises: optimality, depth, prefix-freedom and completeness. */
module HuffmanCodeTable {
  import opened Sums
  import opened Bits
  import opened HuffmanOptimality
  import opened HuffmanTree
  import opened HuffmanMerging
  import opened HuffmanNodes

  datatype HuffmanCode = HuffmanCode(symbol: int, code: uint32, codeLen: nat)

  /** A zero frequency counts as one. */
  function EffectiveWeights(freqs: seq<uint32>): (w: seq<nat>) {
    seq(|freqs|, i requires 0 <= i < |freqs| => if freqs[i] > 0 then freqs[i] else 1)
  }

  /** The code table a tree gives; a lone symbol, at depth zero, is given length 8. */
  function TableEntry(t: Tree, i: int): HuffmanCode {
    var path := CodeOf(t, i);
    HuffmanCode(i, Value(path) % WORD_SIZE, if |path| > 0 then |path| else 8)
  }

  ghost predicate TableOf(codes: seq<HuffmanCode>, t: Tree) {
    forall i :: 0 <= i < |codes| ==> codes[i] == TableEntry(t, i)
  }

  /** The codes are those of the tree the builder makes of the weights w. */
  ghost predicate BuilderTable(codes: seq<HuffmanCode>, w: seq<nat>) {
    |codes| == |w| && Frequencies(w) && Built(w).Some? && TableOf(codes, BuiltTree(w))
  }

  /** And all weights but any one add up to less than the largest word, which makes it a Huffman tree. */
  ghost predicate HuffmanTable(codes: seq<HuffmanCode>, w: seq<nat>) {
    BuilderTable(codes, w) && StaysBelow(w)
  }

  function TableCosts(codes: seq<HuffmanCode>, freqs: seq<nat>): (r: seq<int>)
    requires |codes| <= |freqs|
  {
    seq(|codes|, i requires 0 <= i < |codes| => codes[i].codeLen * freqs[i])
  }

  /** The code word stored in a table entry. */
  function WordOf(c: HuffmanCode): seq<bool> {
    Word(c.code, c.codeLen)
  }

  function Words(codes: seq<HuffmanCode>): (r: seq<seq<bool>>) {
    seq(|codes|, i requires 0 <= i < |codes| => WordOf(codes[i]))
  }

  function CodeLengths(codes: seq<HuffmanCode>): (r: seq<nat>) {
    seq(|codes|, i requires 0 <= i < |codes| => codes[i].codeLen)
  }

  /** The weighted length of an arbitrary code. */
  function CodeCost(code: seq<seq<bool>>, w: seq<nat>): (r: seq<int>)
    requires |code| == |w|
  {
    seq(|w|, i requires 0 <= i < |w| => |code[i]| * w[i])
  }

  ghost predicate FitsWord(codes: seq<HuffmanCode>) {
    forall i :: 0 <= i < |codes| ==> 1 <= codes[i].codeLen <= 32
  }

  lemma TwoSymbolsNode(t: Tree, n: nat)
    requires CodesExactly(t, n) && n >= 2
    ensures t.Node?
  {
    assert Occurs(t, 0) == 1 && Occurs(t, 1) == 1;
  }

  /** With two symbols or more, every stored length is the depth of its leaf. */
  lemma LengthIsDepth(codes: seq<HuffmanCode>, t: Tree, i: nat)
    requires TableOf(codes, t) && CodesExactly(t, |codes|) && i < |codes|
    ensures |codes| >= 2 ==> codes[i].codeLen == |CodeOf(t, i)| >= 1
    ensures codes[i].codeLen >= 1
  {
    assert codes[i] == TableEntry(t, i);
    if |codes| >= 2 {
      TwoSymbolsNode(t, |codes|);
      CodeLength(t, i);
    }
  }

  /** No prefix-free code has a smaller weighted length than the table. */
  lemma TableIsOptimal(codes: seq<HuffmanCode>, w: seq<nat>, code: seq<seq<bool>>)
    requires HuffmanTable(codes, w) && |w| >= 2
    requires PrefixFree(code) && |code| == |w|
    ensures Sum(TableCosts(codes, w)) <= Sum(CodeCost(code, w))
  {
    hide LightestFirst, Built;
    BuiltIsHuffman(w);
    var t := BuiltTree(w);
    KraftInequality(code);
    assert MergeCost(t, w) <= Cost(AllLive(|w|), w, Lengths(code));
    CostOfCode(code, w);
    TableCost(codes, t, w);
  }

  lemma CostOfCode(code: seq<seq<bool>>, w: seq<nat>)
    requires |code| == |w|
    ensures Cost(AllLive(|w|), w, Lengths(code)) == Sum(CodeCost(code, w))
  {
    hide Sum;
    assert Masked(AllLive(|w|), HuffmanOptimality.Costs(w, Lengths(code))) == CodeCost(code, w);
  }

  /** The weighted length of the table is the sum of the inner weights of its tree. */
  lemma TableCost(codes: seq<HuffmanCode>, t: Tree, w: seq<nat>)
    requires TableOf(codes, t) && CodesExactly(t, |w|) && |codes| == |w| >= 2
    ensures Sum(TableCosts(codes, w)) == MergeCost(t, w)
    ensures Sum(w) == Weight(t, w)
  {
    hide Sum;
    hide MergeCost;
    AtMostOnceOf(t, |w|);
    MergeCostIsWeightedLength(t, w);
    forall i: nat | i < |w|
      ensures CostRow(t, w)[i] == TableCosts(codes, w)[i]
      ensures WeightRow(t, w)[i] == w[i]
    {
      LengthIsDepth(codes, t, i);
      assert Occurs(t, i) == 1;
    }
    assert CostRow(t, w) == TableCosts(codes, w);
    assert WeightRow(t, w) == w;
  }

  lemma AtMostOnceOf(t: Tree, n: nat)
    requires CodesExactly(t, n)
    ensures AtMostOnce(t, n)
  {
    forall s
      ensures Occurs(t, s) <= if 0 <= s < n then 1 else 0
    {
      assert Occurs(t, s) == if 0 <= s < n then 1 else 0;
    }
  }

  // ---------- The promise in terms of the frequencies ----------

  /** Each value where the frequency is zero, and nothing elsewhere. */
  function AtZeros(values: seq<nat>, freqs: seq<nat>): (r: seq<int>)
    requires |values| == |freqs|
  {
    seq(|freqs|, i requires 0 <= i < |freqs| => if freqs[i] == 0 then values[i] else 0)
  }

  /** Each symbol counted as often as it occurs, and once if it never occurs. */
  function Occurrences(freqs: seq<nat>): int {
    Sum(freqs) + Sum(AtZeros(seq(|freqs|, _ => 1), freqs))
  }

  /** All occurrences but those of any one symbol are fewer than 2^32 - 1. */
  ghost predicate OccurrencesFit(freqs: seq<nat>) {
    forall i :: 0 <= i < |freqs| ==> Occurrences(freqs) - (if freqs[i] == 0 then 1 else freqs[i]) < 4294967295
  }

  /** A row of values times the effective weights: the values times the frequencies, and the values at the zeros. */
  lemma EffectiveSum(freqs: seq<uint32>, values: seq<nat>, products: seq<int>, weighted: seq<int>)
    requires |freqs| == |values| == |products| == |weighted|
    requires forall i :: 0 <= i < |freqs| ==> products[i] == values[i] * freqs[i]
    requires forall i :: 0 <= i < |freqs| ==> weighted[i] == values[i] * EffectiveWeights(freqs)[i]
    ensures Sum(weighted) == Sum(products) + Sum(AtZeros(values, freqs))
  {
    hide Sum;
    SumPointwise(products, AtZeros(values, freqs), weighted);
  }

  lemma EffectiveTotal(freqs: seq<uint32>)
    ensures Sum(EffectiveWeights(freqs)) == Occurrences(freqs)
    ensures OccurrencesFit(freqs) ==> StaysBelow(EffectiveWeights(freqs))
  {
    hide Sum;
    EffectiveSum(freqs, seq(|freqs|, _ => 1), freqs, EffectiveWeights(freqs));
  }

  /**
   The total, and the lengths of the symbols that never occur, are at most what any prefix-free code needs
   for the frequencies and for one of each symbol that never occurs.
   */
  ghost predicate NeedsFewestBits(codes: seq<HuffmanCode>, total: nat, freqs: seq<nat>)
    requires |codes| == |freqs|
  {
    forall code :: PrefixFree(code) && |code| == |freqs| ==>
      total + Sum(AtZeros(CodeLengths(codes), freqs)) <= Sum(CodeCost(code, freqs)) + Sum(AtZeros(Lengths(code), freqs))
  }

  lemma TotalBitsIsMinimal(codes: seq<HuffmanCode>, freqs: seq<uint32>, code: seq<seq<bool>>)
    requires HuffmanTable(codes, EffectiveWeights(freqs)) && |freqs| >= 2
    requires PrefixFree(code) && |code| == |freqs|
    ensures Sum(TableCosts(codes, freqs)) + Sum(AtZeros(CodeLengths(codes), freqs))
         <= Sum(CodeCost(code, freqs)) + Sum(AtZeros(Lengths(code), freqs))
  {
    var w := EffectiveWeights(freqs);
    TableIsOptimal(codes, w, code);
    hide HuffmanTable, PrefixFree, Sum;
    EffectiveSum(freqs, CodeLengths(codes), TableCosts(codes, freqs), TableCosts(codes, w));
    EffectiveSum(freqs, Lengths(code), CodeCost(code, freqs), CodeCost(code, w));
  }

  lemma FewestBits(codes: seq<HuffmanCode>, freqs: seq<uint32>)
    requires BuilderTable(codes, EffectiveWeights(freqs)) && |freqs| >= 2 && OccurrencesFit(freqs)
    ensures Sum(TableCosts(codes, freqs)) >= 0 && NeedsFewestBits(codes, Sum(TableCosts(codes, freqs)), freqs)
  {
    EffectiveTotal(freqs);
    SumNonNegative(TableCosts(codes, freqs));
    hide Sum, StaysBelow, OccurrencesFit, BuilderTable;
    forall code | PrefixFree(code) && |code| == |freqs|
      ensures Sum(TableCosts(codes, freqs)) + Sum(AtZeros(CodeLengths(codes), freqs))
           <= Sum(CodeCost(code, freqs)) + Sum(AtZeros(Lengths(code), freqs))
    {
      TotalBitsIsMinimal(codes, freqs, code);
    }
  }

  /** The height of the built tree is the length of the longest code. */
  lemma LengthAtMostHeight(codes: seq<HuffmanCode>, w: seq<nat>, i: nat)
    requires HuffmanTable(codes, w) && |w| >= 2 && i < |w|
    ensures codes[i].codeLen <= Height(BuiltTree(w))
    ensures Sum(w) == Weight(BuiltTree(w), w) && LightestFirst(BuiltTree(w), w)
  {
    hide Built, Sum, Height, CodesExactly, LightestFirst;
    BuiltIsHuffman(w);
    var t := BuiltTree(w);
    LengthIsDepth(codes, t, i);
    CodeLength(t, i);
    TableCost(codes, t, w);
  }

  /** The height a total weight allows bounds every code length. */
  lemma HeightNeedsWeight(t: Tree, w: seq<nat>, d: nat)
    requires LightestFirst(t, w) && d <= Height(t)
    ensures Weight(t, w) >= Fib(d + 2) && Weight(t, w) >= Least(d)
  {
    FibonacciBound(t, w);
    HeightBound(t, w);
    hide LightestFirst;
    FibMonotone(d + 2, Height(t) + 2);
    LeastMonotone(d, Height(t));
    hide Fib, Least, Height, Weight;
  }

  /** A code word of length d needs a total weight of at least Fib(d + 2), and indeed of Least(d). */
  lemma DepthNeedsWeight(codes: seq<HuffmanCode>, w: seq<nat>, i: nat)
    requires HuffmanTable(codes, w) && |w| >= 2 && i < |w|
    ensures Sum(w) >= Fib(codes[i].codeLen + 2)
    ensures Sum(w) >= Least(codes[i].codeLen)
  {
    hide Built, Sum, Fib, Least, TableOf, StaysBelow, LightestFirst, Frequencies, Height, Weight;
    LengthAtMostHeight(codes, w, i);
    HeightNeedsWeight(BuiltTree(w), w, codes[i].codeLen);
  }

  /** A total that fits a word never wraps. */
  lemma FittingTotal(w: seq<nat>)
    requires Frequencies(w) && Sum(w) <= UINT32_MAX
    ensures StaysBelow(w)
  {
  }

  /** No code outgrows a 32-bit word while the total weight is less than Least(33). */
  lemma DepthFitsWord(codes: seq<HuffmanCode>, w: seq<nat>)
    requires BuilderTable(codes, w) && Sum(w) <= 11405772
    ensures HuffmanTable(codes, w) && FitsWord(codes)
  {
    hide Built, Sum, Least, Fib;
    LeastOf33();
    FittingTotal(w);
    hide StaysBelow, HuffmanTreeFor, TableOf;
    BuiltIsHuffman(w);
    forall i: nat | i < |codes|
      ensures 1 <= codes[i].codeLen <= 32
    {
      LengthIsDepth(codes, BuiltTree(w), i);
      if |w| >= 2 && codes[i].codeLen > 32 {
        DepthNeedsWeight(codes, w, i);
        LeastMonotone(33, codes[i].codeLen);
      } else if |w| == 1 {
        LoneSymbol(codes, BuiltTree(w));
      }
    }
  }

  /** A lone symbol gets eight zero bits. */
  lemma LoneSymbol(codes: seq<HuffmanCode>, t: Tree)
    requires TableOf(codes, t) && CodesExactly(t, 1) && |codes| == 1
    ensures codes[0] == HuffmanCode(0, 0, 8)
  {
    match t
    case Leaf(x) => assert codes[0] == TableEntry(t, 0);
    case Node(l, r) => TwoLeavesTwoSymbols(l, r);
  }

  lemma {:induction false} SomeSymbol(t: Tree) returns (s: int)
    ensures Occurs(t, s) > 0
  {
    match t
    case Leaf(x) => s := x;
    case Node(l, r) => s := SomeSymbol(l);
  }

  lemma TwoLeavesTwoSymbols(l: Tree, r: Tree)
    ensures !CodesExactly(Node(l, r), 1)
  {
    var a := SomeSymbol(l);
    var b := SomeSymbol(r);
    var t := Node(l, r);
    assert Occurs(t, a) >= 1 && Occurs(t, b) >= 1 && (a == b ==> Occurs(t, a) >= 2);
  }

  /**
   What a decoder needs of a table: words of 1 to 32 bits, none a prefix of another, each stored with its
   own index.
   */
  ghost predicate Decodable(codes: seq<HuffmanCode>) {
    && FitsWord(codes)
    && PrefixFree(Words(codes))
    && forall i :: 0 <= i < |codes| ==> codes[i].symbol == i && codes[i].code == Value(WordOf(codes[i]))
  }

  /** The stored words are the paths of the tree, as long as they fit a 32-bit word. */
  lemma WordIsPath(codes: seq<HuffmanCode>, t: Tree, i: nat)
    requires TableOf(codes, t) && CodesExactly(t, |codes|) && |codes| >= 2 && i < |codes| && codes[i].codeLen <= 32
    ensures WordOf(codes[i]) == CodeOf(t, i) && codes[i].code == Value(CodeOf(t, i))
  {
    hide CodesExactly;
    hide CodeOf;
    hide Pow2;
    hide Word;
    hide Value;
    var path := CodeOf(t, i);
    LengthIsDepth(codes, t, i);
    assert codes[i] == TableEntry(t, i);
    ValueBound(path);
    Pow2Monotone(|path|, 32);
    Pow2Of32();
    WordOfValue(path);
  }

  /** As long as every length fits a word, the table is prefix-free and decodable. */
  lemma TableIsDecodable(codes: seq<HuffmanCode>, w: seq<nat>)
    requires BuilderTable(codes, w) && FitsWord(codes)
    ensures Decodable(codes)
  {
    hide Built;
    BuiltIsComplete(w);
    var t := BuiltTree(w);
    if |codes| >= 2 {
      forall i: nat | i < |codes|
        ensures codes[i].symbol == i && WordOf(codes[i]) == CodeOf(t, i) && codes[i].code == Value(WordOf(codes[i]))
      {
        WordIsPath(codes, t, i);
        assert codes[i] == TableEntry(t, i);
      }
      forall i: nat, j: nat | i < |codes| && j < |codes| && i != j
        ensures !(Words(codes)[i] <= Words(codes)[j])
      {
        assert Occurs(t, i) == 1 && Occurs(t, j) == 1;
        CodesPrefixFree(t, i, j);
      }
    } else if |codes| == 1 {
      LoneSymbol(codes, t);
      ValueOfZeros(WordOf(codes[0]));
    }
  }

  /** The Kraft sum of the table is exactly one: no code word could be added or shortened. */
  lemma TableIsComplete(codes: seq<HuffmanCode>, w: seq<nat>, cap: nat)
    requires BuilderTable(codes, w) && |w| >= 2
    requires forall i :: 0 <= i < |codes| ==> codes[i].codeLen <= cap
    ensures Sum(KraftTerms(CodeLengths(codes), cap)) == Pow2(cap)
  {
    BuiltIsComplete(w);
    KraftOfTable(codes, BuiltTree(w), cap);
    hide *;
  }

  lemma KraftOfTable(codes: seq<HuffmanCode>, t: Tree, cap: nat)
    requires TableOf(codes, t) && CodesExactly(t, |codes|) && |codes| >= 2
    requires forall i :: 0 <= i < |codes| ==> codes[i].codeLen <= cap
    ensures Sum(KraftTerms(CodeLengths(codes), cap)) == Pow2(cap)
  {
    hide Sum, Pow2, Height, CodeOf, TableOf;
    var n := |codes|;
    AtMostOnceOf(t, n);
    var deepest := HeightAttained(t, n);
    LengthIsDepth(codes, t, deepest);
    KraftEquality(t, n, cap);
    forall i: nat | i < n
      ensures KraftRow(t, n, cap)[i] == KraftTerms(CodeLengths(codes), cap)[i]
    {
      assert Occurs(t, i) == 1;
      LengthIsDepth(codes, t, i);
    }
    assert KraftRow(t, n, cap) == KraftTerms(CodeLengths(codes), cap);
  }

  /** Some symbol sits at the full height of the tree. */
  lemma {:induction false} HeightAttained(t: Tree, n: nat) returns (s: nat)
    requires AtMostOnce(t, n)
    ensures s < n && Occurs(t, s) == 1 && |CodeOf(t, s)| == Height(t)
    decreases t
  {
    match t
    case Leaf(x) =>
      assert Occurs(t, x) == 1;
      s := x;
    case Node(l, r) =>
      NodeSplits(t, n);
      s := HeightAttained(if Height(l) < Height(r) then r else l, n);
      assert Occurs(t, s) <= 1;
  }
}

/** A table of the builder for which decoding exactly the encoded bits does not give the symbols back. */
module HuffmanExample {
  import opened Sums
  import opened Bits
  import opened HuffmanTree
  import opened HuffmanMerging
  import opened HuffmanNodes
  import opened HuffmanCodeTable
  import opened HuffmanCodec

  /** The words 0, 10, 11. */
  const EXAMPLE := [HuffmanCode(0, 0, 1), HuffmanCode(1, 2, 2), HuffmanCode(2, 3, 2)]

  lemma ExampleDecodable()
    ensures Decodable(EXAMPLE)
  {
    var words := [[false], [true, false], [true, true]];
    assert words[0][..0] == [] && words[1][..1] == [true] && words[2][..1] == [true] && [true][..0] == [];
    StoredWord(EXAMPLE[0], words[0]);
    StoredWord(EXAMPLE[1], words[1]);
    StoredWord(EXAMPLE[2], words[2]);
    hide WordOf;
    hide Value;
    assert Words(EXAMPLE) == words;
    assert !words[0][0] && words[1][0] && words[2][0] && !words[1][1] && words[2][1];
  }

  lemma StoredWord(c: HuffmanCode, word: seq<bool>)
    requires c.codeLen == |word| && c.code == Value(word)
    ensures WordOf(c) == word
  {
    WordOfValue(word);
  }

  const WEIGHTS: seq<nat> := [2, 1, 1]

  /** The node array before each merge of these weights, and after the last. */
  function Nodes(merges: nat): seq<HuffmanNode> {
    if merges == 0 then [HuffmanNode(-1, -1, 2, 0), HuffmanNode(-1, -1, 1, 1), HuffmanNode(-1, -1, 1, 2)]
    else if merges == 1 then
      [HuffmanNode(-1, -1, 2, 0), HuffmanNode(-1, -1, 0, 1), HuffmanNode(-1, -1, 0, 2), HuffmanNode(1, 2, 2, -1)]
    else
      [HuffmanNode(-1, -1, 0, 0), HuffmanNode(-1, -1, 0, 1), HuffmanNode(-1, -1, 0, 2), HuffmanNode(1, 2, 0, -1),
       HuffmanNode(0, 3, 4, -1)]
  }

  lemma ExampleMerge(merges: nat)
    requires merges < 2
    ensures MergeAll(Nodes(merges), 5) == MergeAll(Nodes(merges + 1), 5)
  {
    hide Search, MergeAll;
    var p, q := if merges == 0 then 1 else 0, if merges == 0 then 2 else 3;
    assert TwoSmallest(Nodes(merges), p, q);
    NextMerge(Nodes(merges), 5, p, q);
    assert Joined(Nodes(merges), p, q) == Nodes(merges + 1);
  }

  lemma ExampleTree()
    ensures Frequencies(WEIGHTS) && Built(WEIGHTS).Some? && BuiltTree(WEIGHTS) == Node(Leaf(0), Node(Leaf(1), Leaf(2)))
  {
    assert InitialNodes(WEIGHTS) == Nodes(0);
    ExampleMerge(0);
    ExampleMerge(1);
    hide Search;
    assert TreeAt(Nodes(2), 3) == Node(Leaf(1), Leaf(2));
    assert TreeAt(Nodes(2), 4) == Node(Leaf(0), TreeAt(Nodes(2), 3));
  }

  lemma ExampleValues()
    ensures Value([false]) == 0 && Value([true, false]) == 2 && Value([true, true]) == 3
  {
    assert [true, false][..1] == [true] && [true, true][..1] == [true];
    assert Value([true]) == 1;
  }

  lemma ExamplePaths()
    ensures var t := Node(Leaf(0), Node(Leaf(1), Leaf(2)));
            CodeOf(t, 0) == [false] && CodeOf(t, 1) == [true, false] && CodeOf(t, 2) == [true, true]
  {
    var r := Node(Leaf(1), Leaf(2));
    assert CodeOf(r, 1) == [false] && CodeOf(r, 2) == [true];
  }

  lemma ExampleCodes()
    ensures TableOf(EXAMPLE, Node(Leaf(0), Node(Leaf(1), Leaf(2))))
  {
    hide CodeOf, Value;
    ExamplePaths();
    ExampleValues();
  }

  /** The builder makes this table of the frequencies 2, 1, 1. */
  lemma ExampleIsBuilt()
    ensures HuffmanTable(EXAMPLE, WEIGHTS)
  {
    ExampleTree();
    ExampleCodes();
    hide Built, BuiltTree, TableOf;
    assert WEIGHTS == [2] + [1] + [1] && [2] == [] + [2];
    SumAppend([], 2);
    SumAppend([2], 1);
    SumAppend([2] + [1], 1);
    hide Sum;
  }

  /** The plain round trip fails: every bit of two words 0 is read before the second one is decoded. */
  lemma RoundTripFails()
    ensures Decodable(EXAMPLE)
    ensures Decode(EXAMPLE, EncodeBits(EXAMPLE, [0, 0]), 2) != [0, 0]
  {
    ExampleDecodable();
    hide Decode;
    hide EncodeBits;
    hide LongestCode;
    hide Decodable;
    assert EXAMPLE[1].codeLen <= LongestCode(EXAMPLE);
    DecodeExactIff(EXAMPLE, [0, 0], 2);
  }

  /** One more bit of any value brings the second word back. */
  lemma PaddingRepairs(bit: bool)
    ensures Decode(EXAMPLE, EncodeBits(EXAMPLE, [0, 0]) + [bit], 2) == [0, 0]
  {
    ExampleDecodable();
    hide Decode, EncodeBits, Decodable;
    ExampleLongest();
    DecodePadded(EXAMPLE, [0, 0], [bit]);
  }

  lemma ExampleLongest()
    ensures LongestCode(EXAMPLE) == 2
  {
    assert EXAMPLE[1].codeLen == 2;
  }
}

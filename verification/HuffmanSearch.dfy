/**
 The depth-first search with an explicit stack that finds the code of one symbol: what is on the stack
 after any number of steps, as the pending subtrees and the paths that lead to them.
 */
module HuffmanSearch {
  import opened Sums
  import opened HuffmanTree
  import opened HuffmanMerging

  /** The pending subtrees hold everything of t not yet ruled out for symbol s, each with its path from the root. */
  ghost predicate Frontier(t: Tree, pending: seq<Tree>, paths: seq<seq<bool>>, s: int) {
    && |pending| == |paths|
    && (forall k, u :: 0 <= k < |pending| && Occurs(pending[k], u) > 0 ==>
          CodeOf(t, u) == paths[k] + CodeOf(pending[k], u))
    && (forall u :: Sum(Occurrences(pending, u)) <= 1)
    && Sum(Leaves(pending)) <= LeafCount(t)
    && Sum(Occurrences(pending, s)) == Occurs(t, s)
  }

  /** Twice the leaves less one per pending subtree: the work left to do. */
  function Work(pending: seq<Tree>): int {
    2 * Sum(Leaves(pending)) - |pending|
  }

  lemma FrontierInit(t: Tree, n: nat, s: int)
    requires AtMostOnce(t, n)
    ensures Frontier(t, [t], [[]], s)
  {
    assert Leaves([t]) == [] + [LeafCount(t)];
    SumAppend([], LeafCount(t));
    forall u
      ensures Sum(Occurrences([t], u)) == Occurs(t, u) <= 1
    {
      assert Occurrences([t], u) == [] + [Occurs(t, u)];
      SumAppend([], Occurs(t, u));
      assert Occurs(t, u) <= if 0 <= u < n then 1 else 0;
    }
  }

  /** Every pending subtree has a leaf, so the stack never holds more entries than there are leaves. */
  lemma {:induction false} StackBound(pending: seq<Tree>)
    ensures |pending| <= Sum(Leaves(pending))
  {
    if |pending| > 0 {
      var rest := pending[..|pending| - 1];
      StackBound(rest);
      assert Leaves(pending)[..|rest|] == Leaves(rest);
    }
  }

  lemma PushSums(rest: seq<Tree>, t: Tree, u: int)
    ensures Sum(Leaves(rest + [t])) == Sum(Leaves(rest)) + LeafCount(t)
    ensures Sum(Occurrences(rest + [t], u)) == Sum(Occurrences(rest, u)) + Occurs(t, u)
  {
    assert Leaves(rest + [t]) == Leaves(rest) + [LeafCount(t)];
    SumAppend(Leaves(rest), LeafCount(t));
    assert Occurrences(rest + [t], u) == Occurrences(rest, u) + [Occurs(t, u)];
    SumAppend(Occurrences(rest, u), Occurs(t, u));
  }

  /** Popping the leaf of another symbol. */
  lemma PopLeaf(t: Tree, rest: seq<Tree>, top: Tree, paths: seq<seq<bool>>, path: seq<bool>, s: int)
    requires Frontier(t, rest + [top], paths + [path], s) && |rest| == |paths|
    requires top.Leaf? && top.symbol != s
    ensures Frontier(t, rest, paths, s) && Work(rest) < Work(rest + [top])
  {
    var pending := rest + [top];
    PushSums(rest, top, s);
    forall u
      ensures Sum(Occurrences(rest, u)) <= 1
    {
      PushSums(rest, top, u);
      assert Sum(Occurrences(pending, u)) <= 1;
    }
    forall k, u | 0 <= k < |rest| && Occurs(rest[k], u) > 0
      ensures CodeOf(t, u) == paths[k] + CodeOf(rest[k], u)
    {
      assert pending[k] == rest[k] && (paths + [path])[k] == paths[k];
    }
  }

  /** Replacing an inner node by its right child and, on top of it, its left child. */
  lemma Expand(t: Tree, rest: seq<Tree>, top: Tree, paths: seq<seq<bool>>, path: seq<bool>, s: int)
    requires Frontier(t, rest + [top], paths + [path], s) && |rest| == |paths|
    requires top.Node?
    ensures Frontier(t, rest + [top.right] + [top.left], paths + [path + [true]] + [path + [false]], s)
    ensures Work(rest + [top.right] + [top.left]) < Work(rest + [top])
  {
    var pending, pending' := rest + [top], rest + [top.right] + [top.left];
    var paths' := paths + [path + [true]] + [path + [false]];
    forall u
      ensures Sum(Occurrences(pending', u)) == Sum(Occurrences(pending, u)) <= 1
      ensures Sum(Leaves(pending')) == Sum(Leaves(pending))
      ensures Occurs(top, u) <= 1
    {
      PushSums(rest, top, u);
      PushSums(rest, top.right, u);
      PushSums(rest + [top.right], top.left, u);
      SumNonNegative(Occurrences(rest, u));
      assert Sum(Occurrences(pending, u)) <= 1;
    }
    assert Sum(Occurrences(pending', s)) == Sum(Occurrences(pending, s));
    forall k, u | 0 <= k < |pending'| && Occurs(pending'[k], u) > 0
      ensures CodeOf(t, u) == paths'[k] + CodeOf(pending'[k], u)
    {
      assert Occurs(top, u) <= 1;
      if k < |rest| {
        assert pending[k] == rest[k] && (paths + [path])[k] == paths[k];
      } else {
        assert pending[|rest|] == top && (paths + [path])[|rest|] == path;
        assert CodeOf(t, u) == path + CodeOf(top, u);
      }
    }
  }

  /** A popped leaf of symbol s sits at the end of the path of s. */
  lemma FoundLeaf(t: Tree, rest: seq<Tree>, top: Tree, paths: seq<seq<bool>>, path: seq<bool>, s: int)
    requires Frontier(t, rest + [top], paths + [path], s) && |rest| == |paths|
    requires top == Leaf(s)
    ensures CodeOf(t, s) == path
  {
    assert (rest + [top])[|rest|] == top && (paths + [path])[|rest|] == path;
    assert Occurs(top, s) > 0;
  }
}

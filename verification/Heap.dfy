/** Binary min-heaps laid out in a sequence of keys: what one sift step keeps, and when sifting is finished. */
module Heap {

  function Parent(i: int): int {
    (i - 1) / 2
  }

  ghost predicate IsHeap(k: seq<real>) {
    forall i :: 1 <= i < |k| ==> k[Parent(i)] <= k[i]
  }

  function Swapped<T>(s: seq<T>, i: nat, j: nat): (r: seq<T>)
    requires i < |s| && j < |s|
    ensures |r| == |s|
  {
    s[i := s[j]][j := s[i]]
  }

  lemma SwapKeepsContents<T>(s: seq<T>, i: nat, j: nat)
    requires i < |s| && j < |s|
    ensures multiset(Swapped(s, i, j)) == multiset(s)
  {
  }

  /** Everything is in order except that the key at i may be too small for its parent. */
  ghost predicate SiftingUp(k: seq<real>, i: nat) {
    && i < |k|
    && (forall j :: 1 <= j < |k| && j != i ==> k[Parent(j)] <= k[j])
    && (forall j :: 1 <= j < |k| && Parent(j) == i && i >= 1 ==> k[Parent(i)] <= k[j])
  }

  lemma SiftUpStep(k: seq<real>, i: nat)
    requires SiftingUp(k, i) && i >= 1 && k[Parent(i)] > k[i]
    ensures SiftingUp(Swapped(k, i, Parent(i)), Parent(i))
  {
    var p, k' := Parent(i), Swapped(k, i, Parent(i));
    forall j | 1 <= j < |k| && j != p
      ensures k'[Parent(j)] <= k'[j]
    {
      if j != i && Parent(j) != i && Parent(j) != p {
        assert k[Parent(j)] <= k[j];
      } else if Parent(j) == p && j != i {
        assert k[p] <= k[j];
      }
    }
    forall j | 1 <= j < |k| && Parent(j) == p && p >= 1
      ensures k'[Parent(p)] <= k'[j]
    {
      assert k[Parent(p)] <= k[p];
      if j != i { assert k[p] <= k[j]; }
    }
  }

  lemma SiftUpDone(k: seq<real>, i: nat)
    requires SiftingUp(k, i) && (i == 0 || k[Parent(i)] <= k[i])
    ensures IsHeap(k)
  {
  }

  /** Everything is in order except that the key at i may be too large for its children. */
  ghost predicate SiftingDown(k: seq<real>, i: nat) {
    && (forall j :: 1 <= j < |k| && Parent(j) != i ==> k[Parent(j)] <= k[j])
    && (forall j :: 1 <= j < |k| && Parent(j) == i && 1 <= i < |k| ==> k[Parent(i)] <= k[j])
  }

  /** c is a child of i, smaller than i and no larger than any other child. */
  ghost predicate SmallestChild(k: seq<real>, i: nat, c: nat) {
    && i < c < |k| && Parent(c) == i && k[c] < k[i]
    && forall j :: 1 <= j < |k| && Parent(j) == i ==> k[c] <= k[j]
  }

  /** What comparing i with its left and then its right child leaves. */
  predicate Chosen(k: seq<real>, i: nat, smallest: nat)
    requires i < |k|
  {
    var l, r := 2 * i + 1, 2 * i + 2;
    var first := if l < |k| && k[l] < k[i] then l else i;
    smallest == if r < |k| && k[r] < k[first] then r else first
  }

  lemma ChosenIsSmallest(k: seq<real>, i: nat, smallest: nat)
    requires i < |k| && Chosen(k, i, smallest)
    ensures smallest < |k|
    ensures smallest != i ==> SmallestChild(k, i, smallest)
    ensures smallest == i ==> forall j :: 1 <= j < |k| && Parent(j) == i ==> k[i] <= k[j]
  {
    forall j | 1 <= j < |k| && Parent(j) == i
      ensures j == 2 * i + 1 || j == 2 * i + 2
    {
    }
  }

  lemma SiftDownStep(k: seq<real>, i: nat, c: nat)
    requires SiftingDown(k, i) && SmallestChild(k, i, c)
    ensures SiftingDown(Swapped(k, i, c), c)
  {
    var k' := Swapped(k, i, c);
    forall j | 1 <= j < |k| && Parent(j) != c
      ensures k'[Parent(j)] <= k'[j]
    {
      if Parent(j) == i {
        assert k[c] <= k[j];
      } else if j == i {
        assert k[Parent(i)] <= k[c];
      } else {
        assert k[Parent(j)] <= k[j];
      }
    }
    forall j | 1 <= j < |k| && Parent(j) == c
      ensures k'[Parent(c)] <= k'[j]
    {
      assert k[Parent(j)] <= k[j];
    }
  }

  lemma SiftDownDone(k: seq<real>, i: nat)
    requires SiftingDown(k, i) && i < |k|
    requires forall j :: 1 <= j < |k| && Parent(j) == i ==> k[i] <= k[j]
    ensures IsHeap(k)
  {
  }

  /** The root of a heap is a smallest key. */
  lemma {:induction false} RootIsSmallest(k: seq<real>, i: nat)
    requires IsHeap(k) && i < |k|
    ensures k[0] <= k[i]
    decreases i
  {
    if i > 0 { RootIsSmallest(k, Parent(i)); }
  }
}

/**
 Streaming top-k: a min-heap of the k best entries seen so far. Scores are totally ordered numbers (no NaN),
 kept in one array with their indices in a second one.
 */
module TopKModel {
  import opened Heap
  import opened Permutations

  const TOPK_MAX_K: nat := 100

  datatype Entry = Entry(score: real, index: int)

  function Keys(entries: seq<Entry>): (r: seq<real>)
    ensures |r| == |entries|
  {
    seq(|entries|, i requires 0 <= i < |entries| => entries[i].score)
  }

  /** The two arrays read as one sequence of entries. */
  function Zip(scores: seq<real>, indices: seq<int>): (r: seq<Entry>)
    requires |scores| == |indices|
    ensures |r| == |scores|
  {
    seq(|scores|, i requires 0 <= i < |scores| => Entry(scores[i], indices[i]))
  }

  /** kept is k of the entries ever pushed, or all if there are fewer, and nothing left out beats anything kept. */
  ghost predicate KeepsTop(history: multiset<Entry>, kept: multiset<Entry>, k: nat) {
    && kept <= history
    && |kept| == (if |history| < k then |history| else k)
    && forall a, b :: a in kept && b in history - kept ==> b.score <= a.score
  }

  /**
   A push that takes a free place, takes that of a kept entry of least score, which must be lower, or changes
   nothing: among equal scores the earlier entry stays.
   */
  ghost predicate Taken(before: multiset<Entry>, e: Entry, after: multiset<Entry>, k: int) {
    if |before| < k then after == before + multiset{e}
    else if k > 0 && exists a :: a in before && a.score < e.score then
      exists worst :: worst in before && (forall a :: a in before ==> worst.score <= a.score)
                      && after == before - multiset{worst} + multiset{e}
    else after == before
  }

  class TopKHeap {
    const scores: array<real>
    const indices: array<int>
    var k: int
    var size: int
    /** Everything pushed since the heap was initialised. */
    ghost var history: multiset<Entry>

    ghost predicate Shape()
      reads this
    {
      scores.Length == TOPK_MAX_K == indices.Length && k <= TOPK_MAX_K && 0 <= size <= TOPK_MAX_K
    }

    ghost function Entries(): seq<Entry>
      requires Shape()
      reads this, scores, indices
    {
      Zip(scores[..size], indices[..size])
    }

    ghost predicate Valid()
      reads this, scores, indices
    {
      Shape() && IsHeap(Keys(Entries())) && KeepsTop(history, multiset(Entries()), if k > 0 then k else 0)
    }

    constructor (k: int)
      ensures Valid() && history == multiset{} && fresh(scores) && fresh(indices)
      ensures this.k == if k < 100 then k else 100
    {
      scores := new real[TOPK_MAX_K](_ => 0.0);
      indices := new int[TOPK_MAX_K](_ => 0);
      this.k := if k < TOPK_MAX_K then k else TOPK_MAX_K;
      size := 0;
      history := multiset{};
    }

    /** Exchanging two entries: score with score, index with index. */
    method Swap(i: nat, j: nat)
      requires Shape() && i < size && j < size && i != j
      modifies scores, indices
      ensures Entries() == Swapped(old(Entries()), i, j)
    {
      var ts := scores[i];
      scores[i] := scores[j];
      scores[j] := ts;
      var ti := indices[i];
      indices[i] := indices[j];
      indices[j] := ti;
    }

    /** The smallest of an entry and its children. */
    method SmallestOf(i: nat) returns (smallest: nat)
      requires Shape() && i < size
      ensures Chosen(Keys(Entries()), i, smallest)
    {
      smallest := i;
      var l, r := 2 * i + 1, 2 * i + 2;
      if l < size && scores[l] < scores[smallest] {
        smallest := l;
      }
      if r < size && scores[r] < scores[smallest] {
        smallest := r;
      }
    }

    method SiftDown(i: nat)
      requires Shape() && i < size && SiftingDown(Keys(Entries()), i)
      modifies scores, indices
      ensures IsHeap(Keys(Entries())) && multiset(Entries()) == multiset(old(Entries()))
      decreases size - i
    {
      hide SiftingDown;
      hide IsHeap;
      hide Keys;
      hide Chosen;
      hide Zip;
      var smallest := SmallestOf(i);
      LowerEntry(Entries(), i, smallest);
      if smallest != i {
        Swap(i, smallest);
        SiftDown(smallest);
      }
    }

    /** The loop of topk_push: a new last entry moves up while its parent is larger. */
    method SiftUp()
      requires Shape() && size > 0 && SiftingUp(Keys(Entries()), size - 1)
      modifies scores, indices
      ensures IsHeap(Keys(Entries())) && multiset(Entries()) == multiset(old(Entries()))
    {
      hide SiftingUp;
      hide IsHeap;
      hide Keys;
      var i := size - 1;
      while i > 0 && scores[(i - 1) / 2] > scores[i]
        invariant 0 <= i < size && SiftingUp(Keys(Entries()), i)
        invariant multiset(Entries()) == multiset(old(Entries()))
      {
        ghost var before := Entries();
        RaiseEntry(before, i);
        Swap(i, (i - 1) / 2);
        i := (i - 1) / 2;
      }
      UpFinished(Entries(), i);
    }

    /** A new last entry, moved up into place. */
    method Append(score: real, idx: int)
      requires Shape() && size < TOPK_MAX_K && IsHeap(Keys(Entries()))
      modifies this`size, scores, indices
      ensures Shape() && IsHeap(Keys(Entries()))
      ensures multiset(Entries()) == old(multiset(Entries())) + multiset{Entry(score, idx)}
    {
      hide SiftingUp;
      hide IsHeap;
      hide Keys;
      ghost var before := Entries();
      LastIsLoose(before, Entry(score, idx));
      scores[size] := score;
      indices[size] := idx;
      size := size + 1;
      assert Entries() == before + [Entry(score, idx)];
      SiftUp();
    }

    /** A new root, moved down into place. */
    method ReplaceRoot(score: real, idx: int)
      requires Shape() && 0 < size && IsHeap(Keys(Entries()))
      modifies scores, indices
      ensures IsHeap(Keys(Entries()))
      ensures multiset(Entries()) == multiset(old(Entries())[0 := Entry(score, idx)])
    {
      hide SiftingDown;
      hide IsHeap;
      hide Keys;
      ghost var before := Entries();
      RootIsLoose(before, Entry(score, idx));
      scores[0] := score;
      indices[0] := idx;
      assert Entries() == before[0 := Entry(score, idx)];
      SiftDown(0);
    }

    method Push(score: real, idx: int)
      requires Valid()
      modifies this, scores, indices
      ensures Valid() && k == old(k)
      ensures history == old(history) + multiset{Entry(score, idx)}
      ensures Taken(old(multiset(Entries())), Entry(score, idx), multiset(Entries()), k)
    {
      hide IsHeap, Keys, KeepsTop, Taken;
      ghost var e, before := Entry(score, idx), Entries();
      PushCases(history, before, e, k);
      assert |before| == size && (size > 0 ==> before[0].score == scores[0]);
      ghost var pushed := history + multiset{e};
      if k > 0 {
        if size < k {
          Append(score, idx);
        } else if score > scores[0] {
          ReplaceRoot(score, idx);
        }
      }
      assert PushesTo(history, multiset(before), e, multiset(Entries()), k);
      history := pushed;
    }

    /** The first loop of topk_get_sorted. */
    method CopyOut(outScores: array<real>, outIndices: array?<int>)
      requires Shape() && size <= outScores.Length && outScores != scores
      requires outIndices != null ==> size <= outIndices.Length && outIndices != indices
      modifies outScores
      modifies if outIndices != null then {outIndices} else {}
      ensures Display(Entries(), outScores, outIndices, size)
    {
      for i := 0 to size
        invariant forall j :: 0 <= j < i ==> outScores[j] == scores[j]
        invariant outIndices != null ==> forall j :: 0 <= j < i ==> outIndices[j] == indices[j]
      {
        outScores[i] := scores[i];
        if outIndices != null {
          outIndices[i] := indices[i];
        }
      }
    }

    /** The kept entries in descending order of score; the index array may be missing. The heap is not touched. */
    method GetSorted(outScores: array<real>, outIndices: array?<int>) returns (count: int)
      requires Valid() && size <= outScores.Length && outScores != scores
      requires outIndices != null ==> size <= outIndices.Length && outIndices != indices
      modifies outScores
      modifies if outIndices != null then {outIndices} else {}
      ensures Valid() && Entries() == old(Entries()) && count == size
      ensures forall i, j :: 0 <= i < j < count ==> outScores[i] >= outScores[j]
      ensures multiset(outScores[..count]) == multiset(Keys(Entries()))
      ensures outIndices != null ==> multiset(Zip(outScores[..count], outIndices[..count])) == multiset(Entries())
    {
      hide IsHeap;
      hide KeepsTop;
      count := size;
      ghost var e0 := Entries();
      CopyOut(outScores, outIndices);
      assert Entries() == e0;
      ghost var e := SortDescending(outScores, outIndices, count, e0);
      assert Entries() == e0;
      KeysOfSame(e, e0);
      assert Keys(e) == outScores[..count];
      assert outIndices != null ==> Zip(outScores[..count], outIndices[..count]) == e;
    }
  }

  /** after is what the heap may hold once e has been pushed on before. */
  ghost predicate PushesTo(history: multiset<Entry>, before: multiset<Entry>, e: Entry, after: multiset<Entry>,
                           k: int) {
    KeepsTop(history + multiset{e}, after, if k > 0 then k else 0) && Taken(before, e, after, k)
  }

  lemma PushTakes(before: seq<Entry>, e: Entry, k: int)
    requires IsHeap(Keys(before)) && |multiset(before)| <= if k > 0 then k else 0
    ensures |before| < k ==> Taken(multiset(before), e, multiset(before) + multiset{e}, k)
    ensures |before| == k > 0 && e.score > before[0].score ==>
              Taken(multiset(before), e, multiset(before[0 := e]), k)
    ensures k <= 0 || (|before| == k && e.score <= before[0].score) ==>
              Taken(multiset(before), e, multiset(before), k)
  {
    EntryCount(before);
    if |before| > 0 {
      RootIsLeast(before);
      assert before[0] in multiset(before);
    }
    hide IsHeap;
  }

  lemma PushCases(history: multiset<Entry>, before: seq<Entry>, e: Entry, k: int)
    requires KeepsTop(history, multiset(before), if k > 0 then k else 0) && IsHeap(Keys(before))
    ensures |before| <= if k > 0 then k else 0
    ensures |before| < k ==> PushesTo(history, multiset(before), e, multiset(before) + multiset{e}, k)
    ensures |before| == k > 0 && e.score > before[0].score ==>
              PushesTo(history, multiset(before), e, multiset(before[0 := e]), k)
    ensures k <= 0 || (|before| == k && e.score <= before[0].score) ==>
              PushesTo(history, multiset(before), e, multiset(before), k)
  {
    EntryCount(before);
    assert |multiset(before)| <= if k > 0 then k else 0;
    PushTakes(before, e, k);
    hide KeepsTop, IsHeap, Taken;
    if k <= 0 {
      NothingKept(history, multiset(before), e);
    } else if |before| < k {
      KeepNew(history, multiset(before), e, k);
    } else if e.score > before[0].score {
      ReplaceLeast(history, before, e, k);
    } else {
      DropNew(history, before, e, k);
    }
  }

  ghost predicate Shown(e: seq<Entry>, scores: seq<real>) {
    |e| == |scores| && forall i :: 0 <= i < |e| ==> scores[i] == e[i].score
  }

  ghost predicate Indexed(e: seq<Entry>, indices: seq<int>) {
    |e| == |indices| && forall i :: 0 <= i < |e| ==> indices[i] == e[i].index
  }

  /** Positions before i are in their final order. */
  ghost predicate SortedUpTo(e: seq<Entry>, i: int) {
    forall a, b :: 0 <= a < i && a < b < |e| ==> e[a].score >= e[b].score
  }

  /** What the output arrays show; the index array may be missing. */
  ghost predicate Display(e: seq<Entry>, scores: array<real>, indices: array?<int>, n: nat)
    requires n <= scores.Length && (indices != null ==> n <= indices.Length)
    reads scores
    reads if indices != null then {indices} else {}
  {
    Shown(e, scores[..n]) && (indices != null ==> Indexed(e, indices[..n]))
  }

  method SwapShown(scores: array<real>, indices: array?<int>, n: nat, ghost e: seq<Entry>, i: nat, j: nat)
    requires n <= scores.Length && (indices != null ==> n <= indices.Length)
    requires i < j < n && |e| == n && Display(e, scores, indices, n)
    modifies scores
    modifies if indices != null then {indices} else {}
    ensures Display(Swapped(e, i, j), scores, indices, n)
  {
    var ts := scores[i];
    scores[i] := scores[j];
    scores[j] := ts;
    if indices != null {
      var ti := indices[i];
      indices[i] := indices[j];
      indices[j] := ti;
    }
  }

  /** Position i holds the largest of positions i up to j. */
  ghost predicate LargestUpTo(e: seq<Entry>, i: nat, j: nat) {
    SortedUpTo(e, i) && i < j <= |e| && forall b :: i < b < j ==> e[i].score >= e[b].score
  }

  lemma LargestStep(e: seq<Entry>, i: nat, j: nat)
    requires LargestUpTo(e, i, j) && j < |e|
    ensures e[j].score <= e[i].score ==> LargestUpTo(e, i, j + 1)
    ensures e[j].score > e[i].score ==> LargestUpTo(Swapped(e, i, j), i, j + 1)
  {
  }

  /** The two nested loops of topk_get_sorted; e is what the arrays show at the end. */
  method SortDescending(scores: array<real>, indices: array?<int>, n: nat, ghost e0: seq<Entry>)
    returns (ghost e: seq<Entry>)
    requires n <= scores.Length && (indices != null ==> n <= indices.Length) && |e0| == n
    requires Display(e0, scores, indices, n)
    modifies scores
    modifies if indices != null then {indices} else {}
    ensures |e| == n && Display(e, scores, indices, n)
    ensures SortedUpTo(e, n) && multiset(e) == multiset(e0)
  {
    e := e0;
    var i := 0;
    while i < n - 1
      invariant 0 <= i && (n > 0 ==> i < n) && |e| == n && Display(e, scores, indices, n)
      invariant SortedUpTo(e, i) && multiset(e) == multiset(e0)
    {
      e := SelectLargest(scores, indices, n, i, e);
      i := i + 1;
    }
  }

  /** The inner loop. */
  method SelectLargest(scores: array<real>, indices: array?<int>, n: nat, i: nat, ghost e0: seq<Entry>)
    returns (ghost e: seq<Entry>)
    requires n <= scores.Length && (indices != null ==> n <= indices.Length) && |e0| == n && i < n
    requires Display(e0, scores, indices, n) && SortedUpTo(e0, i)
    modifies scores
    modifies if indices != null then {indices} else {}
    ensures |e| == n && Display(e, scores, indices, n)
    ensures SortedUpTo(e, i + 1) && multiset(e) == multiset(e0)
  {
    e := e0;
    var j := i + 1;
    while j < n
      invariant i < j <= n == |e| && Display(e, scores, indices, n)
      invariant LargestUpTo(e, i, j) && multiset(e) == multiset(e0)
    {
      LargestStep(e, i, j);
      assert scores[..n][i] == e[i].score && scores[..n][j] == e[j].score;
      if scores[j] > scores[i] {
        hide LargestUpTo;
        SwapKeepsContents(e, i, j);
        SwapShown(scores, indices, n, e, i, j);
        e := Swapped(e, i, j);
      }
      j := j + 1;
    }
  }

  lemma {:induction false} KeysOfSame(e: seq<Entry>, f: seq<Entry>)
    requires multiset(e) == multiset(f)
    ensures multiset(Keys(e)) == multiset(Keys(f))
  {
    SameLength(e, f);
    if |e| > 0 {
      var n := |e| - 1;
      var i := MatchLast(e, f);
      var rest := f[..i] + f[i + 1..];
      KeysOfSame(e[..n], rest);
      assert Keys(e)[..n] == Keys(e[..n]) && Keys(rest) == Keys(f)[..i] + Keys(f)[i + 1..];
      MultisetWithout(Keys(e), n);
      MultisetWithout(Keys(f), i);
      assert Keys(e)[..n] + Keys(e)[n + 1..] == Keys(e)[..n];
      AddBack(multiset(Keys(e)), multiset(Keys(f)), e[n].score);
    }
  }

  lemma AddBack(a: multiset<real>, b: multiset<real>, x: real)
    requires x in a && x in b && a - multiset{x} == b - multiset{x}
    ensures a == b
  {
    assert a == a - multiset{x} + multiset{x} && b == b - multiset{x} + multiset{x};
  }

  // ---------- Sifting entries ----------

  lemma KeysOfSwapped(e: seq<Entry>, i: nat, j: nat)
    requires i < |e| && j < |e|
    ensures Keys(Swapped(e, i, j)) == Swapped(Keys(e), i, j) && multiset(Swapped(e, i, j)) == multiset(e)
  {
    SwapKeepsContents(e, i, j);
  }

  lemma LowerEntry(e: seq<Entry>, i: nat, smallest: nat)
    requires i < |e| && SiftingDown(Keys(e), i) && Chosen(Keys(e), i, smallest)
    ensures smallest < |e| && multiset(Swapped(e, i, smallest)) == multiset(e)
    ensures smallest == i ==> IsHeap(Keys(e))
    ensures smallest != i ==> i < smallest && SiftingDown(Keys(Swapped(e, i, smallest)), smallest)
  {
    hide SiftingDown;
    ChosenIsSmallest(Keys(e), i, smallest);
    hide Chosen;
    KeysOfSwapped(e, i, smallest);
    if smallest == i {
      SiftDownDone(Keys(e), i);
    } else {
      SiftDownStep(Keys(e), i, smallest);
    }
  }

  lemma RaiseEntry(e: seq<Entry>, i: nat)
    requires 0 < i < |e| && SiftingUp(Keys(e), i) && e[Parent(i)].score > e[i].score
    ensures SiftingUp(Keys(Swapped(e, i, Parent(i))), Parent(i))
    ensures multiset(Swapped(e, i, Parent(i))) == multiset(e)
  {
    hide SiftingUp;
    SiftUpStep(Keys(e), i);
    KeysOfSwapped(e, i, Parent(i));
  }

  lemma UpFinished(e: seq<Entry>, i: nat)
    requires i < |e| && SiftingUp(Keys(e), i) && (i == 0 || e[Parent(i)].score <= e[i].score)
    ensures IsHeap(Keys(e))
  {
    hide SiftingUp;
    SiftUpDone(Keys(e), i);
  }

  lemma LastIsLoose(e: seq<Entry>, x: Entry)
    requires IsHeap(Keys(e))
    ensures SiftingUp(Keys(e + [x]), |e|) && multiset(e + [x]) == multiset(e) + multiset{x}
  {
    var k, k' := Keys(e), Keys(e + [x]);
    forall j | 1 <= j < |e|
      ensures k'[Parent(j)] <= k'[j]
    {
      assert k[Parent(j)] <= k[j];
    }
  }

  lemma RootIsLoose(e: seq<Entry>, x: Entry)
    requires IsHeap(Keys(e)) && |e| > 0
    ensures SiftingDown(Keys(e[0 := x]), 0)
  {
    var k, k' := Keys(e), Keys(e[0 := x]);
    forall j | 1 <= j < |e| && Parent(j) != 0
      ensures k'[Parent(j)] <= k'[j]
    {
      assert k[Parent(j)] <= k[j];
    }
  }

  // ---------- Keeping the top ----------

  lemma EntryCount(e: seq<Entry>)
    ensures |multiset(e)| == |e|
  {
  }

  lemma NothingKept(history: multiset<Entry>, kept: multiset<Entry>, e: Entry)
    requires KeepsTop(history, kept, 0)
    ensures KeepsTop(history + multiset{e}, kept, 0)
  {
    assert kept == multiset{};
  }

  /** Nothing was left out while the heap is not full. */
  lemma KeepNew(history: multiset<Entry>, kept: multiset<Entry>, e: Entry, k: nat)
    requires KeepsTop(history, kept, k) && |kept| < k
    ensures KeepsTop(history + multiset{e}, kept + multiset{e}, k)
  {
    AllOf(kept, history);
  }

  lemma AllOf(part: multiset<Entry>, whole: multiset<Entry>)
    requires part <= whole && |part| == |whole|
    ensures part == whole
  {
    assert whole == part + (whole - part);
    assert |whole| == |part| + |whole - part|;
    assert whole - part == multiset{};
  }

  /** The root is a lowest score of the heap. */
  lemma RootIsLeast(e: seq<Entry>)
    requires IsHeap(Keys(e)) && |e| > 0
    ensures e[0] in multiset(e) && forall a :: a in multiset(e) ==> e[0].score <= a.score
  {
    forall a | a in multiset(e)
      ensures e[0].score <= a.score
    {
      var i :| 0 <= i < |e| && e[i] == a;
      RootIsSmallest(Keys(e), i);
    }
  }

  lemma DropNew(history: multiset<Entry>, e: seq<Entry>, x: Entry, k: nat)
    requires KeepsTop(history, multiset(e), k) && IsHeap(Keys(e)) && |e| > 0
    requires |multiset(e)| >= k && x.score <= e[0].score
    ensures KeepsTop(history + multiset{x}, multiset(e), k)
  {
    RootIsLeast(e);
    var kept := multiset(e);
    forall a, b | a in kept && b in history + multiset{x} - kept
      ensures b.score <= a.score
    {
      if b != x { assert b in history - kept; }
    }
  }

  lemma ReplaceLeast(history: multiset<Entry>, e: seq<Entry>, x: Entry, k: nat)
    requires KeepsTop(history, multiset(e), k) && IsHeap(Keys(e)) && |e| > 0
    requires |multiset(e)| >= k && x.score > e[0].score
    ensures KeepsTop(history + multiset{x}, multiset(e[0 := x]), k)
  {
    RootIsLeast(e);
    var kept, kept' := multiset(e), multiset(e[0 := x]);
    assert kept' == kept - multiset{e[0]} + multiset{x};
    forall a, b | a in kept' && b in history + multiset{x} - kept'
      ensures b.score <= a.score
    {
      if b != e[0] { assert b in history - kept; }
    }
  }
}

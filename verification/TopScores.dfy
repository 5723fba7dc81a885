/** What holding the top k entries says about scores: how many lie above each threshold, and so which they are. */
module TopScores {
  import opened Permutations
  import opened TopKModel

  function CountAbove(e: seq<Entry>, v: real): nat {
    if |e| == 0 then 0 else CountAbove(e[..|e| - 1], v) + (if e[|e| - 1].score > v then 1 else 0)
  }

  lemma {:induction false} CountConcat(e: seq<Entry>, f: seq<Entry>, v: real)
    ensures CountAbove(e + f, v) == CountAbove(e, v) + CountAbove(f, v)
  {
    if |f| == 0 {
      assert e + f == e;
    } else {
      CountConcat(e, f[..|f| - 1], v);
      assert (e + f)[..|e + f| - 1] == e + f[..|f| - 1];
    }
  }

  lemma {:induction false} CountSame(e: seq<Entry>, f: seq<Entry>, v: real)
    requires multiset(e) == multiset(f)
    ensures CountAbove(e, v) == CountAbove(f, v)
  {
    SameLength(e, f);
    if |e| > 0 {
      var n := |e| - 1;
      var i := MatchLast(e, f);
      CountSame(e[..n], f[..i] + f[i + 1..], v);
      CountWithout(f, i, v);
    }
  }

  lemma CountWithout(f: seq<Entry>, i: nat, v: real)
    requires i < |f|
    ensures CountAbove(f, v) == CountAbove(f[..i] + f[i + 1..], v) + if f[i].score > v then 1 else 0
  {
    assert f == f[..i] + ([f[i]] + f[i + 1..]);
    CountConcat(f[..i], f[i + 1..], v);
    CountConcat(f[..i], [f[i]] + f[i + 1..], v);
    CountConcat([f[i]], f[i + 1..], v);
  }

  lemma {:induction false} CountBounds(e: seq<Entry>, v: real)
    ensures CountAbove(e, v) <= |e|
    ensures (forall i :: 0 <= i < |e| ==> e[i].score > v) ==> CountAbove(e, v) == |e|
    ensures (forall i :: 0 <= i < |e| ==> e[i].score <= v) ==> CountAbove(e, v) == 0
  {
    if |e| > 0 { CountBounds(e[..|e| - 1], v); }
  }

  /**
   The kept scores are the k largest of the stream: above every threshold the heap holds as many entries
   as the stream does, up to k.
   */
  lemma KeptScoresAreLargest(stream: seq<Entry>, kept: seq<Entry>, dropped: seq<Entry>, k: nat, v: real)
    requires KeepsTop(multiset(stream), multiset(kept), k)
    requires multiset(stream) == multiset(kept + dropped)
    ensures CountAbove(kept, v) == (if CountAbove(stream, v) < k then CountAbove(stream, v) else k)
  {
    CountSame(stream, kept + dropped, v);
    CountConcat(kept, dropped, v);
    CountBounds(kept, v);
    CountBounds(dropped, v);
    assert multiset(kept + dropped) == multiset(kept) + multiset(dropped);
    assert multiset(stream) - multiset(kept) == multiset(dropped);
    EntryCount(stream);
    EntryCount(kept);
    EntryCount(dropped);
    if i :| 0 <= i < |dropped| && dropped[i].score > v {
      assert dropped[i] in multiset(dropped);
      forall j | 0 <= j < |kept|
        ensures kept[j].score > v
      {
        assert kept[j] in multiset(kept);
      }
    }
  }

  // ---------- The counts determine the scores ----------

  /** A threshold below x with no score strictly between. */
  lemma {:induction false} JustBelow(e: seq<Entry>, x: real) returns (v: real)
    ensures v < x && forall i :: 0 <= i < |e| && e[i].score < x ==> e[i].score <= v
  {
    if |e| == 0 {
      v := x - 1.0;
    } else {
      var n := |e| - 1;
      v := JustBelow(e[..n], x);
      if v < e[n].score < x { v := e[n].score; }
    }
  }

  /** Between thresholds v < x that no score separates, only the score x itself counts. */
  lemma {:induction false} CountStep(e: seq<Entry>, v: real, x: real)
    requires v < x && forall i :: 0 <= i < |e| && e[i].score < x ==> e[i].score <= v
    ensures CountAbove(e, v) >= CountAbove(e, x)
    ensures CountAbove(e, v) > CountAbove(e, x) <==> exists i :: 0 <= i < |e| && e[i].score == x
  {
    if |e| > 0 {
      var n := |e| - 1;
      CountStep(e[..n], v, x);
      if i :| 0 <= i < n && e[i].score == x { assert e[..n][i].score == x; }
    }
  }

  ghost predicate SameCounts(e: seq<Entry>, f: seq<Entry>) {
    forall v :: CountAbove(e, v) == CountAbove(f, v)
  }

  /** If one sequence has a score, so has every other one with the same counts. */
  lemma ScoreOccurs(e: seq<Entry>, f: seq<Entry>, x: real) returns (i: nat)
    requires SameCounts(e, f) && exists j :: 0 <= j < |e| && e[j].score == x
    ensures i < |f| && f[i].score == x
  {
    var v := JustBelow(e + f, x);
    forall j | 0 <= j < |e| && e[j].score < x ensures e[j].score <= v { assert (e + f)[j] == e[j]; }
    forall j | 0 <= j < |f| && f[j].score < x ensures f[j].score <= v { assert (e + f)[|e| + j] == f[j]; }
    CountStep(e, v, x);
    CountStep(f, v, x);
    assert CountAbove(e, v) == CountAbove(f, v) && CountAbove(e, x) == CountAbove(f, x);
    i :| 0 <= i < |f| && f[i].score == x;
  }

  /** The counts above all thresholds determine the scores with their multiplicity. */
  lemma {:induction false} CountsDetermineScores(e: seq<Entry>, f: seq<Entry>)
    requires SameCounts(e, f)
    ensures multiset(Keys(e)) == multiset(Keys(f))
    decreases |e|
  {
    if |e| == 0 {
      if |f| > 0 {
        assert f[0].score == f[0].score;
        var i := ScoreOccurs(f, e, f[0].score);
        assert false;
      }
    } else {
      var n := |e| - 1;
      assert e[n].score == e[n].score;
      var i := ScoreOccurs(e, f, e[n].score);
      var rest := f[..i] + f[i + 1..];
      forall v ensures CountAbove(e[..n], v) == CountAbove(rest, v) {
        assert CountAbove(e, v) == CountAbove(f, v);
        CountWithout(f, i, v);
      }
      CountsDetermineScores(e[..n], rest);
      KeysWithout(e, n);
      KeysWithout(f, i);
      assert e[..n] + e[n + 1..] == e[..n];
      AddBack(multiset(Keys(e)), multiset(Keys(f)), e[n].score);
    }
  }

  lemma KeysWithout(e: seq<Entry>, i: nat)
    requires i < |e|
    ensures e[i].score in multiset(Keys(e))
    ensures multiset(Keys(e[..i] + e[i + 1..])) == multiset(Keys(e)) - multiset{e[i].score}
  {
    assert Keys(e[..i] + e[i + 1..]) == Keys(e)[..i] + Keys(e)[i + 1..];
    MultisetWithout(Keys(e), i);
    assert Keys(e)[i] == e[i].score;
  }

  /** So whatever the ties, the scores kept of a stream are determined. */
  lemma KeptScoresAreUnique(stream: seq<Entry>, kept: seq<Entry>, dropped: seq<Entry>, kept': seq<Entry>,
                            dropped': seq<Entry>, k: nat)
    requires KeepsTop(multiset(stream), multiset(kept), k) && multiset(stream) == multiset(kept + dropped)
    requires KeepsTop(multiset(stream), multiset(kept'), k) && multiset(stream) == multiset(kept' + dropped')
    ensures multiset(Keys(kept)) == multiset(Keys(kept'))
  {
    hide KeepsTop;
    forall v ensures CountAbove(kept, v) == CountAbove(kept', v) {
      KeptScoresAreLargest(stream, kept, dropped, k, v);
      KeptScoresAreLargest(stream, kept', dropped', k, v);
    }
    CountsDetermineScores(kept, kept');
  }
}

/** Removing one element from both sides of a permutation. */
module Permutations {

  lemma MultisetWithout<T>(s: seq<T>, i: nat)
    requires i < |s|
    ensures multiset(s[..i] + s[i + 1..]) == multiset(s) - multiset{s[i]}
  {
    assert s == s[..i] + ([s[i]] + s[i + 1..]);
    assert multiset(s) == multiset(s[..i]) + (multiset{s[i]} + multiset(s[i + 1..]));
  }

  /** The last element of one ordering occurs in the other, and without it the two still have the same elements. */
  lemma MatchLast<T>(e: seq<T>, f: seq<T>) returns (i: nat)
    requires |e| > 0 && multiset(e) == multiset(f)
    ensures i < |f| && f[i] == e[|e| - 1]
    ensures multiset(e[..|e| - 1]) == multiset(f[..i] + f[i + 1..])
  {
    var n := |e| - 1;
    assert e[n] in multiset(e);
    i :| 0 <= i < |f| && f[i] == e[n];
    MultisetWithout(f, i);
    MultisetWithout(e, n);
    assert e[..n] + e[n + 1..] == e[..n];
  }

  lemma SameLength<T>(e: seq<T>, f: seq<T>)
    requires multiset(e) == multiset(f)
    ensures |e| == |f|
  {
    assert |multiset(e)| == |e| && |multiset(f)| == |f|;
  }
}

/** Sizes of sets and sequences. */
module Collections {
  lemma SubsetSize<T>(small: set<T>, big: set<T>)
    requires small <= big
    ensures |small| <= |big|
    ensures |small| == |big| <==> small == big
  {
    assert big == small + (big - small);
  }

  lemma Longer<T>(s: seq<T>, x: T)
    ensures s + [x] != s
  {
    assert |s + [x]| != |s|;
  }
}

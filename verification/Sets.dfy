/** Sizes of finite sets. */
module Sets {

  lemma CardSplit<T>(s: set<T>, part: set<T>)
    requires part <= s
    ensures |s| == |part| + |s - part|
  {
    assert s == part + (s - part);
  }

  lemma CardMonotone<T>(s: set<T>, t: set<T>)
    requires s <= t
    ensures |s| <= |t|
  {
    CardSplit(t, s);
  }

  lemma SubsetSame<T>(a: set<T>, b: set<T>)
    requires a <= b && |a| >= |b|
    ensures a == b
  {
    CardSplit(b, a);
  }
}

/** Sizes of finite sets. */
module Sets {
  lemma SubsetSize<T>(a: set<T>, b: set<T>)
    requires a <= b
    ensures |a| <= |b|
  {
    assert b == a + (b - a);
  }

  lemma SameSize<T>(a: set<T>, b: set<T>)
    requires a <= b && |a| == |b|
    ensures a == b
  {
    assert b == a + (b - a);
  }

  lemma OneMore<T>(s: set<T>, x: T)
    ensures |s + {x}| == if x in s then |s| else |s| + 1
  {
    if x in s { assert s + {x} == s; }
  }

  /** Removing an element that `b` lacks leaves the intersection with `b` alone. */
  lemma Without<T>(a: set<T>, b: set<T>, x: T)
    requires x in a && x !in b
    ensures (a - {x}) * b == a * b && |a - {x}| == |a| - 1
  {}
}

// Facts about the sizes of finite sets, shared by both algorithms.

module Cardinality {

  /** A proper subset is strictly smaller. */
  lemma ProperSubsetSmaller<T>(a: set<T>, b: set<T>)
    requires a < b
    ensures |a| < |b|
  {
    var x :| x in b && x !in a;
    var d := b - a;
    assert x in d;
    assert b == a + d && a * d == {};
  }
}

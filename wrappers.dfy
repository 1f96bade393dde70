/** Small helper datatypes and facts shared by the other modules. */
module Wrappers {

  /** An optional value: the result of an operation that the source lets fail by raising. */
  datatype Option<+T> = None | Some(value: T)

  /** A proper subset of a finite set is strictly smaller. */
  lemma ProperSubsetSmaller<T>(a: set<T>, b: set<T>)
    requires a < b
    ensures |a| < |b|
  {
    assert b - a != {};
    var x :| x in b - a;
    assert a <= b - {x};
    assert |b - {x}| == |b| - 1;
    SubsetNoLarger(a, b - {x});
  }

  /** A subset of a finite set is no larger. */
  lemma SubsetNoLarger<T>(a: set<T>, b: set<T>)
    requires a <= b
    ensures |a| <= |b|
  {
    assert b == a + (b - a);
  }
}

/** Small facts about finite sets and real arithmetic that several modules use. */
module Basics {
  lemma SubsetSize<T>(a: set<T>, b: set<T>)
    requires a <= b
    ensures |a| <= |b|
  {
    assert b == (b - a) + a;
  }

  /** A set that leaves out a member of the other, and has nothing more, is smaller. */
  lemma SmallerWithout<T>(a: set<T>, b: set<T>, x: T)
    requires a <= b && x in b && x !in a
    ensures |a| < |b|
  {
    SubsetSize(a, b - {x});
  }

  function Abs(x: real): real { if x < 0.0 then -x else x }

  lemma MulLe(p: real, q: real, m: real)
    requires p <= q && m >= 0.0
    ensures p * m <= q * m
  {
  }

  lemma MulLt(p: real, q: real, m: real)
    requires p < q && m > 0.0
    ensures p * m < q * m
  {
    assert (q - p) * m > 0.0;
  }
}

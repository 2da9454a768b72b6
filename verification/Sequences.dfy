/** Rearrangements of concatenations, named so that proofs can say which one they use, and distinctness. */
module Sequences {
  lemma Assoc<T>(a: seq<T>, b: seq<T>, c: seq<T>)
    ensures (a + b) + c == a + (b + c)
  {}

  lemma MoveAcross<T>(a: seq<T>, x: T, b: seq<T>)
    ensures a + ([x] + b) == (a + [x]) + b
  {}

  lemma EmptyPlus<T>(a: seq<T>)
    ensures [] + a == a
  {}

  lemma PlusEmpty<T>(a: seq<T>)
    ensures a + [] == a
  {}

  lemma TailOfConcat<T>(a: seq<T>, b: seq<T>)
    requires |a| > 0
    ensures (a + b)[1..] == a[1..] + b
  {}

  lemma TailOfCons<T>(x: T, b: seq<T>)
    ensures ([x] + b)[1..] == b
  {}

  predicate NoRepeats<T(==)>(s: seq<T>) {
    forall i, j :: 0 <= i < j < |s| ==> s[i] != s[j]
  }

  lemma SubsetIsSmaller<T>(a: set<T>, b: set<T>)
    requires a <= b
    ensures |a| <= |b|
    ensures |a| == |b| ==> a == b
  {
    assert b == a + (b - a);
  }
}

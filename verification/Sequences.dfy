/** What several parts of the project say about sequences. */
module Sequences {

  ghost predicate Distinct<T>(s: seq<T>) {
    forall i, j | 0 <= i < j < |s| :: s[i] != s[j]
  }

  function Last<T>(s: seq<T>): T
    requires s != []
  {
    s[|s| - 1]
  }

  lemma FirstAndRest<T>(s: seq<T>)
    requires s != []
    ensures s == [s[0]] + s[1..]
  {
  }

  lemma AllButLast<T>(s: seq<T>)
    requires s != []
    ensures s == s[..|s| - 1] + [Last(s)]
  {
  }

  lemma Associative<T>(a: seq<T>, b: seq<T>, c: seq<T>)
    ensures (a + b) + c == a + (b + c)
  {
  }

  function Elements<T(==)>(s: seq<T>): (r: set<T>)
    ensures forall i | 0 <= i < |s| :: s[i] in r
    ensures forall e | e in r :: e in s
  {
    set e | e in s
  }

  lemma {:induction false} SizeOfElements<T>(s: seq<T>)
    requires Distinct(s)
    ensures |Elements(s)| == |s|
    decreases |s|
  {
    if s != [] {
      var n := |s| - 1;
      SizeOfElements(s[..n]);
      assert s == s[..n] + [s[n]];
      assert Elements(s) == Elements(s[..n]) + {s[n]};
    }
  }

  lemma SubsetSize<T>(a: set<T>, b: set<T>)
    requires a <= b
    ensures |a| <= |b|
    ensures |a| == |b| ==> a == b
  {
    assert b == a + (b - a) && |b| == |a| + |b - a|;
  }

  /** Distinct elements of a set are no more than the set has, and all of them when they are as many. */
  lemma Pigeonhole<T>(s: seq<T>, U: set<T>)
    requires Distinct(s) && forall i | 0 <= i < |s| :: s[i] in U
    ensures |s| <= |U|
    ensures |s| == |U| ==> Elements(s) == U
  {
    SizeOfElements(s);
    SubsetSize(Elements(s), U);
  }
}

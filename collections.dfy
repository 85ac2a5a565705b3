/** Sequence helpers shared by the graph store, the key-phrase counter and the country listing. */
module Collections {

  /** A value that may be absent (a node attribute that was never set). */
  datatype Option<+T> = None | Some(value: T)

  /** No element of `s` occurs twice. */
  predicate NoDuplicates<T(==)>(s: seq<T>) {
    forall i, j :: 0 <= i < j < |s| ==> s[i] != s[j]
  }

  /** The position of the first occurrence of `x` in `s`. */
  function FirstIndex<T(==)>(s: seq<T>, x: T): (k: nat)
    requires x in s
    ensures k < |s| && s[k] == x
    ensures forall j :: 0 <= j < k ==> s[j] != x
  {
    if s[0] == x then 0 else 1 + FirstIndex(s[1..], x)
  }

  /** The elements of `s` with every repeat dropped, kept at their first occurrence
      (pandas `Series.unique`, the key order of a `Counter`). */
  function Distinct<T(==)>(s: seq<T>): (r: seq<T>)
    ensures NoDuplicates(r)
    ensures forall i :: 0 <= i < |r| ==> r[i] in s
    ensures forall i :: 0 <= i < |s| ==> s[i] in r
    ensures |r| <= |s|
  {
    if s == [] then []
    else
      var d := Distinct(s[..|s| - 1]);
      var x := s[|s| - 1];
      assert forall i :: 0 <= i < |s| - 1 ==> s[i] == s[..|s| - 1][i];
      if x in d then d else d + [x]
  }

  /** A first occurrence inside a prefix is the first occurrence in the whole sequence. */
  lemma {:induction false} FirstIndexInPrefix<T>(s: seq<T>, n: nat, x: T)
    requires n <= |s| && x in s[..n]
    ensures x in s && FirstIndex(s[..n], x) == FirstIndex(s, x)
  {
    assert s[..n][0] == s[0];
    if s[0] != x {
      assert s[..n][1..] == s[1..][..n - 1];
      FirstIndexInPrefix(s[1..], n - 1, x);
    }
  }

  /** The elements of `r` occur in `s`, and their first occurrences come in the order of `r`. */
  predicate InFirstOrder<T(==)>(s: seq<T>, r: seq<T>) {
    (forall i :: 0 <= i < |r| ==> r[i] in s)
    && forall i, j :: 0 <= i < j < |r| ==> r[i] in s && r[j] in s && FirstIndex(s, r[i]) < FirstIndex(s, r[j])
  }

  /** Extending `s` keeps the first occurrences of elements already in it. */
  lemma InFirstOrderExtend<T>(s: seq<T>, n: nat, r: seq<T>)
    requires n <= |s| && InFirstOrder(s[..n], r)
    ensures InFirstOrder(s, r)
    ensures forall i :: 0 <= i < |r| ==> FirstIndex(s, r[i]) < n
  {
    forall i | 0 <= i < |r|
      ensures r[i] in s && FirstIndex(s, r[i]) == FirstIndex(s[..n], r[i]) < n
    {
      FirstIndexInPrefix(s, n, r[i]);
    }
  }

  /** An element whose first occurrence comes after those of all of `r` can be appended. */
  lemma InFirstOrderAppend<T>(s: seq<T>, r: seq<T>, x: T)
    requires InFirstOrder(s, r) && x in s
    requires forall i :: 0 <= i < |r| ==> FirstIndex(s, r[i]) < FirstIndex(s, x)
    ensures InFirstOrder(s, r + [x])
  {
    var t := r + [x];
    forall i, j | 0 <= i < j < |t|
      ensures t[i] in s && t[j] in s && FirstIndex(s, t[i]) < FirstIndex(s, t[j])
    {
      assert t[i] == r[i];
      if j < |r| {
        assert t[j] == r[j];
      }
    }
  }

  /** `Distinct` lists the elements in the order of their first occurrence. */
  lemma {:induction false} DistinctInOrder<T>(s: seq<T>)
    ensures forall i, j :: 0 <= i < j < |Distinct(s)| ==> FirstIndex(s, Distinct(s)[i]) < FirstIndex(s, Distinct(s)[j])
  {
    DistinctFirstOrder(s);
  }

  lemma {:induction false} DistinctFirstOrder<T>(s: seq<T>)
    ensures InFirstOrder(s, Distinct(s))
  {
    if s != [] {
      var n := |s| - 1;
      var p := s[..n];
      var x := s[n];
      var d := Distinct(p);
      DistinctFirstOrder(p);
      InFirstOrderExtend(s, n, d);
      if x in d {
        assert Distinct(s) == d;
      } else {
        assert x !in p;
        assert FirstIndex(s, x) == n;
        assert Distinct(s) == d + [x];
        InFirstOrderAppend(s, d, x);
      }
    }
  }

  /** A sequence without repeats has as many elements as its set of elements. */
  lemma {:induction false} NoDuplicatesCardinality<T>(s: seq<T>)
    requires NoDuplicates(s)
    ensures |set x | x in s| == |s|
  {
    if s != [] {
      var p := s[..|s| - 1];
      var x := s[|s| - 1];
      assert NoDuplicates(p);
      NoDuplicatesCardinality(p);
      assert (set y | y in s) == (set y | y in p) + {x};
      assert x !in (set y | y in p);
    }
  }

  /** Two sequences without repeats that have the same elements have the same length. */
  lemma SameElementsSameLength<T>(a: seq<T>, b: seq<T>)
    requires NoDuplicates(a) && NoDuplicates(b)
    requires forall x :: x in a <==> x in b
    ensures |a| == |b|
  {
    assert (set x | x in a) == (set x | x in b);
    NoDuplicatesCardinality(a);
    NoDuplicatesCardinality(b);
  }

  /** `a` is an order-preserving subsequence of `b`. */
  predicate IsSubsequence<T(==)>(a: seq<T>, b: seq<T>)
    decreases |b|
  {
    if b == [] then a == []
    else (a != [] && a[0] == b[0] && IsSubsequence(a[1..], b[1..])) || IsSubsequence(a, b[1..])
  }
}

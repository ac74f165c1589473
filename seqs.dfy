/** Order-preserving sequence operations: the filter, limit and reverse-sort shapes of the store queries. */
module Seqs {

  /** The elements of `s` that satisfy `f`, in their original order. */
  function Filter<T(==)>(s: seq<T>, f: T -> bool): (r: seq<T>)
    ensures |r| <= |s|
    ensures multiset(r) <= multiset(s)
    ensures forall i :: 0 <= i < |r| ==> r[i] in s && f(r[i])
    ensures forall i :: 0 <= i < |s| && f(s[i]) ==> s[i] in r
  {
    if s == [] then []
    else
      assert s == [s[0]] + s[1..];
      (if f(s[0]) then [s[0]] else []) + Filter(s[1..], f)
  }

  /** Filtering keeps the relative order: any relation that holds between
      every earlier and later element of `s` holds along the result. */
  lemma {:induction false} FilterKeepsPairwise<T>(s: seq<T>, f: T -> bool, rel: (T, T) -> bool)
    requires forall i, j :: 0 <= i < j < |s| ==> rel(s[i], s[j])
    ensures forall i, j :: 0 <= i < j < |Filter(s, f)| ==> rel(Filter(s, f)[i], Filter(s, f)[j])
  {
    if s != [] {
      var tail := s[1..];
      TailPairwise(s, rel);
      FilterKeepsPairwise(tail, f, rel);
      HeadPrecedes(s, f, rel);
      var rest := Filter(tail, f);
      if f(s[0]) {
        ConsPairwise(s[0], rest, rel);
      }
    }
  }

  /** A pairwise relation along `s` holds along its tail. */
  lemma TailPairwise<T>(s: seq<T>, rel: (T, T) -> bool)
    requires s != []
    requires forall i, j :: 0 <= i < j < |s| ==> rel(s[i], s[j])
    ensures forall i, j :: 0 <= i < j < |s[1..]| ==> rel(s[1..][i], s[1..][j])
  {
    forall i, j | 0 <= i < j < |s[1..]| ensures rel(s[1..][i], s[1..][j]) {
      assert s[1..][i] == s[i + 1] && s[1..][j] == s[j + 1];
    }
  }

  /** The head of `s` is related to everything kept from its tail. */
  lemma HeadPrecedes<T>(s: seq<T>, f: T -> bool, rel: (T, T) -> bool)
    requires s != []
    requires forall i, j :: 0 <= i < j < |s| ==> rel(s[i], s[j])
    ensures forall j :: 0 <= j < |Filter(s[1..], f)| ==> rel(s[0], Filter(s[1..], f)[j])
  {
    var rest := Filter(s[1..], f);
    forall j | 0 <= j < |rest| ensures rel(s[0], rest[j]) {
      var k :| 0 <= k < |s[1..]| && s[1..][k] == rest[j];
      assert s[1..][k] == s[k + 1];
    }
  }

  /** Prepending an element related to every later one keeps a pairwise relation. */
  lemma ConsPairwise<T>(x: T, rest: seq<T>, rel: (T, T) -> bool)
    requires forall i, j :: 0 <= i < j < |rest| ==> rel(rest[i], rest[j])
    requires forall j :: 0 <= j < |rest| ==> rel(x, rest[j])
    ensures forall i, j :: 0 <= i < j < |[x] + rest| ==> rel(([x] + rest)[i], ([x] + rest)[j])
  {
    var r := [x] + rest;
    forall i, j | 0 <= i < j < |r| ensures rel(r[i], r[j]) {
      assert r[j] == rest[j - 1];
      if i > 0 { assert r[i] == rest[i - 1]; }
    }
  }

  /** Filtering distributes over concatenation, so the kept elements of an
      earlier part come before those of a later one. */
  lemma {:induction false} FilterAppend<T>(a: seq<T>, b: seq<T>, f: T -> bool)
    ensures Filter(a + b, f) == Filter(a, f) + Filter(b, f)
  {
    if a != [] {
      assert (a + b)[0] == a[0];
      assert (a + b)[1..] == a[1..] + b;
      FilterAppend(a[1..], b, f);
    } else {
      assert a + b == b;
    }
  }

  /** A filter that keeps everything is the identity. */
  lemma {:induction false} FilterAll<T>(s: seq<T>, f: T -> bool)
    requires forall i :: 0 <= i < |s| ==> f(s[i])
    ensures Filter(s, f) == s
  {
    if s != [] {
      FilterAll(s[1..], f);
    }
  }

  /** The first `n` elements of `s`, or all of them when there are fewer (a query's `limit(n)`). */
  function Take<T>(s: seq<T>, n: nat): (r: seq<T>)
    ensures |r| == if |s| < n then |s| else n
    ensures r == s[..|r|]
  {
    if |s| <= n then s else s[..n]
  }

  /** `s` back to front: position `i` holds `s[|s| - 1 - i]`. */
  function Reversed<T>(s: seq<T>): (r: seq<T>)
    ensures |r| == |s|
  {
    seq(|s|, i requires 0 <= i < |s| => s[|s| - 1 - i])
  }

  /** Reversal is a permutation: it keeps every element with its multiplicity. */
  lemma {:induction false} ReversedPermutes<T>(s: seq<T>)
    ensures multiset(Reversed(s)) == multiset(s)
  {
    if s != [] {
      ReversedPermutes(s[1..]);
      assert s == [s[0]] + s[1..];
      assert Reversed(s) == Reversed(s[1..]) + [s[0]];
    }
  }

  /** Reversing twice gives the sequence back. */
  lemma ReversedTwice<T>(s: seq<T>)
    ensures Reversed(Reversed(s)) == s
  {
    var r := Reversed(s);
    assert forall i :: 0 <= i < |s| ==> Reversed(r)[i] == s[i];
  }
}

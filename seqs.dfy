/** Sequence facts shared by the store's list transformations. */
module Seqs {

  /** `a` is obtained from `b` by deleting some elements and keeping the rest in order. */
  ghost predicate IsSubsequence<T>(a: seq<T>, b: seq<T>)
    decreases |b|
  {
    a == [] ||
    (b != [] && ((a[0] == b[0] && IsSubsequence(a[1..], b[1..])) || IsSubsequence(a, b[1..])))
  }

  /** Every sequence is a subsequence of itself. */
  lemma {:induction false} SubsequenceReflexive<T>(s: seq<T>)
    ensures IsSubsequence(s, s)
    decreases |s|
  {
    if s != [] {
      SubsequenceReflexive(s[1..]);
    }
  }

  /** JavaScript's `Array.prototype.filter`: the elements satisfying `keep`, in their original order. */
  function Filter<T>(s: seq<T>, keep: T -> bool): (r: seq<T>)
    ensures IsSubsequence(r, s)
    ensures forall x | x in r :: x in s && keep(x)
    ensures forall x | x in s && keep(x) :: x in r
    ensures |r| <= |s|
    ensures |r| == |s| <==> forall x | x in s :: keep(x)
    ensures (forall x | x in s :: keep(x)) ==> r == s
  {
    if s == [] then []
    else
      var rest := Filter(s[1..], keep);
      assert s == [s[0]] + s[1..];
      if keep(s[0]) then
        assert ([s[0]] + rest)[1..] == rest;
        [s[0]] + rest
      else
        rest
  }

  /** `filter` keeps every copy of a kept element and no copy of a dropped one. */
  lemma {:induction false} FilterKeepsMultiplicity<T>(s: seq<T>, keep: T -> bool)
    ensures forall x | x in s :: multiset(Filter(s, keep))[x] == if keep(x) then multiset(s)[x] else 0
  {
    if s != [] {
      var rest := Filter(s[1..], keep);
      FilterKeepsMultiplicity(s[1..], keep);
      assert s == [s[0]] + s[1..];
      assert multiset(s) == multiset([s[0]]) + multiset(s[1..]);
      if keep(s[0]) {
        assert Filter(s, keep) == [s[0]] + rest;
        assert multiset(Filter(s, keep)) == multiset([s[0]]) + multiset(rest);
      }
    }
  }

  /** Filtering on two predicates that agree on the sequence gives the same result. */
  lemma {:induction false} FilterCongruent<T>(s: seq<T>, f: T -> bool, g: T -> bool)
    requires forall x | x in s :: f(x) == g(x)
    ensures Filter(s, f) == Filter(s, g)
  {
    if s != [] {
      assert forall x | x in s[1..] :: x in s;
      FilterCongruent(s[1..], f, g);
    }
  }

  /** Every element of a subsequence occurs in the sequence it was taken from. */
  lemma {:induction false} SubsequenceMember<T>(a: seq<T>, b: seq<T>, i: int)
    requires IsSubsequence(a, b) && 0 <= i < |a|
    ensures a[i] in b
    decreases |b|
  {
    assert b != [];
    if a[0] == b[0] && IsSubsequence(a[1..], b[1..]) {
      if i > 0 {
        SubsequenceMember(a[1..], b[1..], i - 1);
        assert a[1..][i - 1] == a[i];
      }
    } else {
      SubsequenceMember(a, b[1..], i);
    }
  }

  /** A subsequence keeps relative order: two positions of `a` come from two increasing positions of `b`. */
  lemma {:induction false} SubsequenceKeepsOrder<T>(a: seq<T>, b: seq<T>, i: int, j: int)
    requires IsSubsequence(a, b) && 0 <= i < j < |a|
    ensures exists k, l :: 0 <= k < l < |b| && b[k] == a[i] && b[l] == a[j]
    decreases |b|
  {
    assert b != [];
    if a[0] == b[0] && IsSubsequence(a[1..], b[1..]) {
      if i == 0 {
        SubsequenceMember(a[1..], b[1..], j - 1);
        assert a[1..][j - 1] == a[j];
        var m :| 0 <= m < |b[1..]| && b[1..][m] == a[j];
        assert b[0] == a[i] && b[m + 1] == a[j];
      } else {
        SubsequenceKeepsOrder(a[1..], b[1..], i - 1, j - 1);
        var k, l :| 0 <= k < l < |b[1..]| && b[1..][k] == a[1..][i - 1] && b[1..][l] == a[1..][j - 1];
        assert b[k + 1] == a[i] && b[l + 1] == a[j];
      }
    } else {
      SubsequenceKeepsOrder(a, b[1..], i, j);
      var k, l :| 0 <= k < l < |b[1..]| && b[1..][k] == a[i] && b[1..][l] == a[j];
      assert b[k + 1] == a[i] && b[l + 1] == a[j];
    }
  }
}

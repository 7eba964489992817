/** Sequences: repetition, membership and order of their elements. */
module Sequences {
  ghost predicate Distinct<T>(s: seq<T>) {
    forall i, j :: 0 <= i < j < |s| ==> s[i] != s[j]
  }

  ghost function Elements<T>(s: seq<T>): set<T> {
    set x | x in s
  }

  /** `u` stands before `v` in `s`. */
  ghost predicate Before<T>(s: seq<T>, u: T, v: T) {
    exists i, j :: 0 <= i < j < |s| && s[i] == u && s[j] == v
  }

  lemma BeforeTrans<T>(s: seq<T>, u: T, v: T, w: T)
    requires Distinct(s) && Before(s, u, v) && Before(s, v, w)
    ensures Before(s, u, w)
  {
    var i, j :| 0 <= i < j < |s| && s[i] == u && s[j] == v;
    var k, l :| 0 <= k < l < |s| && s[k] == v && s[l] == w;
    assert j == k;
  }

  lemma BeforeIrreflexive<T>(s: seq<T>, u: T)
    requires Distinct(s)
    ensures !Before(s, u, u)
  {
  }

  lemma BeforeAsymmetric<T>(s: seq<T>, u: T, v: T)
    requires Distinct(s) && Before(s, u, v)
    ensures !Before(s, v, u)
  {
  }

  lemma {:induction false} DistinctCardinality<T>(s: seq<T>)
    requires Distinct(s)
    ensures |Elements(s)| == |s|
  {
    if s == [] {
      assert Elements(s) == {};
    } else {
      var n := |s| - 1;
      DistinctCardinality(s[..n]);
      assert Elements(s) == Elements(s[..n]) + {s[n]};
      assert s[n] !in Elements(s[..n]);
    }
  }

  lemma SubsetCardinality<T>(a: set<T>, b: set<T>)
    requires a <= b
    ensures |a| <= |b|
    ensures |a| == |b| ==> a == b
  {
    assert b == a + (b - a);
  }

  lemma DistinctConcat<T>(s: seq<T>, t: seq<T>)
    requires Distinct(s) && Distinct(t) && forall x :: x in s ==> x !in t
    ensures Distinct(s + t)
  {
    forall i, j | 0 <= i < j < |s + t| ensures (s + t)[i] != (s + t)[j] {
      if i < |s| <= j {
        assert s[i] in s && t[j - |s|] in t;
      }
    }
  }

  lemma BeforeAcross<T>(s: seq<T>, t: seq<T>, u: T, v: T)
    requires u in s && v in t
    ensures Before(s + t, u, v)
  {
    var i :| 0 <= i < |s| && s[i] == u;
    var j :| 0 <= j < |t| && t[j] == v;
    assert (s + t)[i] == u && (s + t)[|s| + j] == v;
  }

  lemma BeforeLeft<T>(s: seq<T>, t: seq<T>, u: T, v: T)
    requires Before(s, u, v)
    ensures Before(s + t, u, v)
  {
    var i, j :| 0 <= i < j < |s| && s[i] == u && s[j] == v;
    assert (s + t)[i] == u && (s + t)[j] == v;
  }

  lemma BeforeRight<T>(s: seq<T>, t: seq<T>, u: T, v: T)
    requires Before(t, u, v)
    ensures Before(s + t, u, v)
  {
    var i, j :| 0 <= i < j < |t| && t[i] == u && t[j] == v;
    assert (s + t)[|s| + i] == u && (s + t)[|s| + j] == v;
  }

  lemma SplitLast<T>(p: seq<T>, q: seq<T>)
    ensures q == [] ==> p + q == p
    ensures q != [] ==> var n := |q| - 1; q == q[..n] + [q[n]] && p + q == (p + q[..n]) + [q[n]]
  {
  }

  lemma Associate<T>(p: seq<T>, q: seq<T>, r: seq<T>)
    ensures p + (q + r) == p + q + r
  {
  }
}

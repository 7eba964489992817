/** Walks, reachability and cycles in finite relations: the vocabulary in which the
    ordering properties of the SQL entity graph and of the node inheritance graph are
    stated. */
module Walks {
  import opened Sequences

  type Arcs = set<(nat, nat)>

  /** Consecutive elements of `p` are related by `r`. */
  ghost predicate Walk(r: Arcs, p: seq<nat>) {
    |p| > 0 && forall i :: 0 <= i < |p| - 1 ==> (p[i], p[i + 1]) in r
  }

  ghost predicate WalkBetween(r: Arcs, p: seq<nat>, u: nat, v: nat) {
    Walk(r, p) && p[0] == u && p[|p| - 1] == v
  }

  /** `v` can be reached from `u` in zero or more steps. */
  ghost predicate Reach(r: Arcs, u: nat, v: nat) {
    exists p :: WalkBetween(r, p, u, v)
  }

  /** No walk of one or more steps returns to where it started. */
  ghost predicate Acyclic(r: Arcs) {
    forall p :: Walk(r, p) && |p| >= 2 ==> p[0] != p[|p| - 1]
  }

  // ----- reachability

  lemma ReachRefl(r: Arcs, u: nat)
    ensures Reach(r, u, u)
  {
    assert WalkBetween(r, [u], u, u);
  }

  lemma ReachArc(r: Arcs, u: nat, v: nat)
    requires (u, v) in r
    ensures Reach(r, u, v)
  {
    assert WalkBetween(r, [u, v], u, v);
  }

  lemma JoinWalks(r: Arcs, p: seq<nat>, q: seq<nat>)
    requires Walk(r, p) && Walk(r, q) && p[|p| - 1] == q[0]
    ensures WalkBetween(r, p + q[1..], p[0], q[|q| - 1])
  {
    var w := p + q[1..];
    forall i | 0 <= i < |w| - 1 ensures (w[i], w[i + 1]) in r {
      if i < |p| - 1 {
        assert w[i] == p[i] && w[i + 1] == p[i + 1];
      } else {
        var k := i - (|p| - 1);
        assert w[i] == q[k] && w[i + 1] == q[k + 1];
      }
    }
  }

  lemma ReachTrans(r: Arcs, u: nat, v: nat, w: nat)
    requires Reach(r, u, v) && Reach(r, v, w)
    ensures Reach(r, u, w)
  {
    var p :| WalkBetween(r, p, u, v);
    var q :| WalkBetween(r, q, v, w);
    JoinWalks(r, p, q);
  }

  /** A non-empty walk splits off its first step. */
  lemma ReachFirstStep(r: Arcs, u: nat, v: nat) returns (x: nat)
    requires Reach(r, u, v) && u != v
    ensures (u, x) in r && Reach(r, x, v)
  {
    var p :| WalkBetween(r, p, u, v);
    x := p[1];
    assert (p[0], p[1]) in r;
    var q := p[1..];
    forall i | 0 <= i < |q| - 1 ensures (q[i], q[i + 1]) in r {
      assert q[i] == p[i + 1] && q[i + 1] == p[i + 2];
    }
    assert WalkBetween(r, q, x, v);
  }

  /** A non-empty walk splits off its last step. */
  lemma ReachLastStep(r: Arcs, u: nat, v: nat) returns (x: nat)
    requires Reach(r, u, v) && u != v
    ensures (x, v) in r && Reach(r, u, x)
  {
    var p :| WalkBetween(r, p, u, v);
    x := p[|p| - 2];
    assert (p[|p| - 2], p[|p| - 1]) in r;
    var q := p[..|p| - 1];
    assert WalkBetween(r, q, u, x);
  }

  /** A set that contains every predecessor of its members contains everything that
      reaches it. */
  lemma BackwardClosed(r: Arcs, s: set<nat>, u: nat, v: nat)
    requires forall a, b :: (a, b) in r && b in s ==> a in s
    requires Reach(r, u, v) && v in s
    ensures u in s
  {
    var p :| WalkBetween(r, p, u, v);
    var i := |p| - 1;
    while i > 0
      invariant 0 <= i < |p| && p[i] in s
    {
      i := i - 1;
      assert (p[i], p[i + 1]) in r;
    }
  }

  /** From a node without arcs to others, nothing else can be reached. */
  lemma ReachStays(r: Arcs, u: nat, v: nat)
    requires Reach(r, u, v) && forall w :: (u, w) in r ==> w == u
    ensures v == u
  {
    var p :| WalkBetween(r, p, u, v);
    var i := 0;
    while i < |p| - 1
      invariant 0 <= i < |p| && p[i] == u
    {
      assert (p[i], p[i + 1]) in r;
      i := i + 1;
    }
  }

  // ----- cycles

  /** A cycle is the same thing as an arc whose target reaches its source. */
  lemma CycleFromArc(r: Arcs, u: nat, v: nat)
    requires (u, v) in r && Reach(r, v, u)
    ensures !Acyclic(r)
  {
    var q :| WalkBetween(r, q, v, u);
    JoinWalks(r, [u, v], q);
    var p := [u, v] + q[1..];
    assert Walk(r, p) && |p| >= 2 && p[0] == p[|p| - 1];
  }

  /** Arcs that all go up cannot come back. */
  lemma RisingIsAcyclic(r: Arcs, height: nat -> int)
    requires forall u, v :: (u, v) in r ==> height(u) < height(v)
    ensures Acyclic(r)
  {
    forall p | Walk(r, p) && |p| >= 2 ensures p[0] != p[|p| - 1] {
      RisingWalk(r, height, p);
    }
  }

  lemma {:induction false} RisingWalk(r: Arcs, height: nat -> int, p: seq<nat>)
    requires forall u, v :: (u, v) in r ==> height(u) < height(v)
    requires Walk(r, p) && |p| >= 2
    ensures height(p[0]) < height(p[|p| - 1])
    decreases |p|
  {
    assert (p[0], p[1]) in r;
    if |p| > 2 {
      var rest := p[1..];
      assert forall i :: 0 <= i < |rest| - 1 ==> (rest[i], rest[i + 1]) == (p[i + 1], p[i + 2]);
      RisingWalk(r, height, rest);
    }
  }

  /** How many of the first `n` nodes lead to `u`. */
  ghost function Depth(r: Arcs, n: nat, u: nat): nat {
    |set v: nat | v < n && Reach(r, v, u)|
  }

  /** Without cycles every arc goes up in depth. */
  lemma DepthRises(r: Arcs, n: nat, u: nat, v: nat)
    requires Acyclic(r) && (u, v) in r && v < n
    ensures Depth(r, n, u) < Depth(r, n, v)
  {
    var before, after := set w: nat | w < n && Reach(r, w, u), set w: nat | w < n && Reach(r, w, v);
    ReachArc(r, u, v);
    forall w | w in before ensures w in after {
      ReachTrans(r, w, u, v);
    }
    ReachRefl(r, v);
    if v in before {
      CycleFromArc(r, u, v);
    }
    assert v in after && v !in before;
    SubsetCardinality(before, after);
  }

  lemma AcyclicSubset(r: Arcs, s: Arcs)
    requires r <= s && Acyclic(s)
    ensures Acyclic(r)
  {
    forall p | Walk(r, p) && |p| >= 2 ensures p[0] != p[|p| - 1] {
      assert Walk(s, p);
    }
  }

  /** If every member of a finite non-empty set has a predecessor inside the set, then
      walking backwards long enough must repeat a member: the relation has a cycle. */
  lemma BackwardTrapHasCycle(r: Arcs, s: set<nat>)
    requires s != {}
    requires forall v :: v in s ==> exists u :: u in s && (u, v) in r
    ensures !Acyclic(r)
  {
    var v0 :| v0 in s;
    var p := [v0];
    while |p| <= |s|
      invariant Walk(r, p) && forall x :: x in p ==> x in s
      decreases |s| + 1 - |p|
    {
      assert p[0] in p;
      var u :| u in s && (u, p[0]) in r;
      JoinWalks(r, [u, p[0]], p);
      assert [u, p[0]] + p[1..] == [u] + p;
      p := [u] + p;
    }
    if Distinct(p) {
      DistinctCardinality(p);
      assert Elements(p) <= s;
      SubsetCardinality(Elements(p), s);
      assert false;
    }
    var i, j :| 0 <= i < j < |p| && p[i] == p[j];
    var c := p[i..j + 1];
    forall k | 0 <= k < |c| - 1 ensures (c[k], c[k + 1]) in r {
      assert c[k] == p[i + k] && c[k + 1] == p[i + k + 1];
    }
    assert Walk(r, c) && |c| >= 2 && c[0] == c[|c| - 1];
  }

  /** `order` lists both ends of every arc of `r`, source first. */
  ghost predicate Topological(r: Arcs, order: seq<nat>) {
    forall u, v :: (u, v) in r ==> Before(order, u, v)
  }

  /** Only acyclic relations have topological orders. */
  lemma TopologicalIsAcyclic(r: Arcs, order: seq<nat>)
    requires Distinct(order) && Topological(r, order)
    ensures Acyclic(r)
  {
    forall p | Walk(r, p) && |p| >= 2 ensures p[0] != p[|p| - 1] {
      var i := 1;
      assert (p[0], p[1]) in r;
      while i < |p| - 1
        invariant 1 <= i < |p| && Before(order, p[0], p[i])
      {
        assert (p[i], p[i + 1]) in r;
        BeforeTrans(order, p[0], p[i], p[i + 1]);
        i := i + 1;
      }
      BeforeIrreflexive(order, p[0]);
    }
  }
}

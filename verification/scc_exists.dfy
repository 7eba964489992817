/** The contract assumed of `tarjan_scc` can be met on every graph: a decomposition into
    strongly connected components in reverse topological order always exists. */
module SccExists {
  import opened Walks
  import opened Sequences
  import opened ComponentOrder
  import opened Emission

  ghost function Ancestors(g: Graph, all: set<nat>, n: nat): set<nat> {
    set u | u in all && Reach(g.Deps(), u, n)
  }

  /** Among the nodes not yet placed there is one whose unplaced ancestors all lie in its own
      component: keep moving to a strict ancestor, which has strictly fewer ancestors. */
  lemma {:induction false} EarliestNode(g: Graph, all: set<nat>, done: set<nat>, start: nat) returns (n: nat)
    requires start in all && start !in done
    ensures n in all && n !in done
    ensures forall u :: u in all && u !in done && Reach(g.Deps(), u, n) ==> Mutual(g, u, n)
    decreases Ancestors(g, all, start)
  {
    if u :| u in all && u !in done && Reach(g.Deps(), u, start) && !Reach(g.Deps(), start, u) {
      forall w | w in Ancestors(g, all, u) ensures w in Ancestors(g, all, start) {
        ReachTrans(g.Deps(), w, u, start);
      }
      ReachRefl(g.Deps(), start);
      assert start in Ancestors(g, all, start) && start !in Ancestors(g, all, u);
      n := EarliestNode(g, all, done, u);
    } else {
      n := start;
    }
  }

  lemma {:induction false} ListSet(s: set<nat>) returns (l: seq<nat>)
    ensures Distinct(l) && forall x :: x in l <==> x in s
    decreases s
  {
    if s == {} {
      l := [];
    } else {
      var x :| x in s;
      var rest := ListSet(s - {x});
      l := rest + [x];
    }
  }

  /** `sccs` is right about the nodes in `done`, and `done` contains its own ancestors. */
  ghost predicate Placed(g: Graph, sccs: seq<seq<nat>>, done: set<nat>) {
    && (forall i :: 0 <= i < |sccs| ==> Distinct(sccs[i]))
    && (forall u :: Covered(sccs, u) <==> u in done)
    && (forall u, v, i: nat, j: nat :: InComponent(sccs, i, u) && InComponent(sccs, j, v) ==>
          (Mutual(g, u, v) <==> i == j))
    && (forall u, v, i: nat, j: nat :: (u, v) in g.Deps() && InComponent(sccs, i, u) && InComponent(sccs, j, v) ==>
          j <= i)
    && (forall u, v :: (u, v) in g.Deps() && v in done ==> u in done)
  }

  lemma MutualClass(g: Graph, n: nat, u: nat, v: nat)
    requires Mutual(g, u, n)
    ensures Mutual(g, v, n) <==> Mutual(g, u, v)
  {
    var r := g.Deps();
    if Mutual(g, v, n) {
      ReachTrans(r, u, n, v);
      ReachTrans(r, v, n, u);
    }
    if Mutual(g, u, v) {
      ReachTrans(r, v, u, n);
      ReachTrans(r, n, u, v);
    }
  }

  lemma PlaceComponent(g: Graph, all: set<nat>, sccs: seq<seq<nat>>, done: set<nat>, n: nat, c: seq<nat>)
    requires Placed(g, sccs, done)
    requires forall u, v :: (u, v) in g.Deps() ==> u in all
    requires n in all && n !in done
    requires forall u :: u in all && u !in done && Reach(g.Deps(), u, n) ==> Mutual(g, u, n)
    requires Distinct(c) && forall u :: u in c <==> u in all && Mutual(g, u, n)
    ensures Placed(g, [c] + sccs, done + Elements(c))
  {
    var sccs' := [c] + sccs;
    var done' := done + Elements(c);
    assert forall u, i: nat :: InComponent(sccs', i, u) <==> if i == 0 then u in c else InComponent(sccs, i - 1, u);
    forall u ensures Covered(sccs', u) <==> u in done' {
      if i: nat :| InComponent(sccs, i, u) {
        assert InComponent(sccs', i + 1, u);
      }
      if u in c {
        assert InComponent(sccs', 0, u);
      }
    }
    forall u | u in c ensures u !in done {
      if u in done {
        BackwardClosed(g.Deps(), done, n, u);
      }
    }
    forall u, v, i: nat, j: nat | InComponent(sccs', i, u) && InComponent(sccs', j, v)
      ensures Mutual(g, u, v) <==> i == j
    {
      assert i > 0 ==> InComponent(sccs, i - 1, u) && Covered(sccs, u);
      assert j > 0 ==> InComponent(sccs, j - 1, v) && Covered(sccs, v);
      if i == 0 {
        MutualClass(g, n, u, v);
        if j > 0 && Mutual(g, u, v) {
          BackwardClosed(g.Deps(), done, u, v);
        }
      } else if j == 0 {
        MutualClass(g, n, v, u);
        if Mutual(g, u, v) {
          BackwardClosed(g.Deps(), done, v, u);
        }
      }
    }
    forall u, v, i: nat, j: nat | (u, v) in g.Deps() && InComponent(sccs', i, u) && InComponent(sccs', j, v)
      ensures j <= i
    {
      assert i > 0 ==> InComponent(sccs, i - 1, u);
      assert j > 0 ==> InComponent(sccs, j - 1, v) && Covered(sccs, v);
    }
    forall u, v | (u, v) in g.Deps() && v in done' ensures u in done' {
      if v !in done && u !in done {
        ReachArc(g.Deps(), u, v);
        ReachTrans(g.Deps(), u, v, n);
      }
    }
  }

  lemma SccDecompositionExists(g: Graph)
    requires g.Valid()
    ensures exists sccs :: SccContract(g, sccs)
  {
    var nodes := seq(|g.ranks|, (i: nat) => i);
    var all := Elements(nodes);
    forall u: nat ensures u in all <==> u < |g.ranks| {
      if u < |g.ranks| {
        assert nodes[u] == u;
      }
    }
    var sccs: seq<seq<nat>>, done: set<nat> := [], {};
    while done != all
      invariant done <= all && Placed(g, sccs, done)
      decreases all - done
    {
      assert all == done + (all - done);
      var start :| start in all - done;
      var n := EarliestNode(g, all, done, start);
      var c := ListSet(set u | u in all && Mutual(g, u, n));
      PlaceComponent(g, all, sccs, done, n, c);
      ReachRefl(g.Deps(), n);
      assert n in c;
      sccs, done := [c] + sccs, done + Elements(c);
    }
    assert SccContract(g, sccs);
  }
}

/** Which explicit dependencies are honoured however `tarjan_scc` lists the members of a component:
    its contract leaves their order open, and a component with an explicit cycle keeps it. */
module ForcedOrder {
  import opened Walks
  import opened Sequences
  import opened ComponentOrder
  import opened Emission
  import opened SccExists

  /** `u` is emitted before `v` for every decomposition that meets the contract. */
  ghost predicate AlwaysBefore(g: Graph, u: nat, v: nat) {
    forall sccs :: SccContract(g, sccs) ==> Before(EmissionOrder(g, sccs), u, v)
  }

  ghost function Component(g: Graph, n: nat): set<nat> {
    set u: nat | u < |g.ranks| && Mutual(g, u, n)
  }

  lemma ComponentIs(g: Graph, sccs: seq<seq<nat>>, i: nat, u: nat)
    requires SccContract(g, sccs) && InComponent(sccs, i, u)
    ensures Elements(sccs[i]) == Component(g, u)
  {
    forall v ensures v in sccs[i] <==> v in Component(g, u) {
      if v in sccs[i] {
        assert InComponent(sccs, i, v) && Covered(sccs, v);
      }
      if v in Component(g, u) {
        assert Covered(sccs, v);
        var j: nat :| InComponent(sccs, j, v);
      }
    }
  }

  lemma ComponentSame(g: Graph, u: nat, v: nat)
    requires Mutual(g, u, v)
    ensures Component(g, u) == Component(g, v)
  {
    forall w: nat | w < |g.ranks| ensures Mutual(g, w, u) <==> Mutual(g, w, v) {
      MutualClass(g, v, u, w);
    }
  }

  /** Members of a component may be listed in any order. */
  lemma Relisted(g: Graph, sccs: seq<seq<nat>>, i: nat, c: seq<nat>)
    requires SccContract(g, sccs) && i < |sccs| && Distinct(c) && Elements(c) == Elements(sccs[i])
    ensures SccContract(g, sccs[i := c])
  {
    var sccs' := sccs[i := c];
    forall j: nat, u ensures InComponent(sccs', j, u) <==> InComponent(sccs, j, u) {
      assert u in c <==> u in Elements(c);
      assert u in sccs[i] <==> u in Elements(sccs[i]);
    }
    forall u: nat ensures Covered(sccs', u) <==> Covered(sccs, u) {
      if j: nat :| InComponent(sccs, j, u) {
        assert InComponent(sccs', j, u);
      }
    }
  }

  /** A list of a set that starts with two of its members. */
  lemma StartsWith(s: set<nat>, v: nat, u: nat) returns (c: seq<nat>)
    requires u in s && v in s && u != v
    ensures Distinct(c) && Elements(c) == s && Before(c, v, u)
  {
    var rest := ListSet(s - {u, v});
    c := [v, u] + rest;
    DistinctConcat([v, u], rest);
    assert c[0] == v && c[1] == u;
  }

  lemma CyclicReversed(g: Graph, u: nat, v: nat) returns (sccs: seq<seq<nat>>)
    requires g.Valid() && u < |g.ranks| && v < |g.ranks| && u != v && Mutual(g, u, v) && !Acyclic(g.Explicit(Component(g, u)))
    ensures SccContract(g, sccs) && Before(EmissionOrder(g, sccs), v, u)
  {
    SccDecompositionExists(g);
    var sccs0 :| SccContract(g, sccs0);
    assert Covered(sccs0, u);
    var i: nat :| InComponent(sccs0, i, u);
    ComponentIs(g, sccs0, i, u);
    ReachRefl(g.Deps(), u);
    var c := StartsWith(Component(g, u), v, u);
    Relisted(g, sccs0, i, c);
    sccs := sccs0[i := c];
    EmitOrderCorrect(g, c);
    ComponentOrderKept(g, sccs, i, v, u);
  }

  /** An explicit dependency between two nodes is honoured by every emission if and only if the two
      are in different components, or the explicit edges of their component form no cycle. */
  lemma AlwaysBeforeIff(g: Graph, u: nat, v: nat)
    requires g.Valid() && (u, v) in AllExplicit(g) && u != v
    ensures AlwaysBefore(g, u, v) <==> !Mutual(g, u, v) || Acyclic(g.Explicit(Component(g, u)))
  {
    assert (u, v) in g.Deps();
    if !Mutual(g, u, v) || Acyclic(g.Explicit(Component(g, u))) {
      forall sccs | SccContract(g, sccs) ensures Before(EmissionOrder(g, sccs), u, v) {
        HonouredIn(g, sccs, u, v);
      }
    } else {
      var sccs := CyclicReversed(g, u, v);
      EmitsEveryNodeOnce(g, sccs);
      BeforeAsymmetric(EmissionOrder(g, sccs), v, u);
    }
  }

  lemma HonouredIn(g: Graph, sccs: seq<seq<nat>>, u: nat, v: nat)
    requires g.Valid() && SccContract(g, sccs) && (u, v) in AllExplicit(g) && (u, v) in g.Deps()
    requires !Mutual(g, u, v) || Acyclic(g.Explicit(Component(g, u)))
    ensures Before(EmissionOrder(g, sccs), u, v)
  {
    if Mutual(g, u, v) {
      assert Covered(sccs, u) && Covered(sccs, v);
      var i: nat :| InComponent(sccs, i, u);
      ComponentIs(g, sccs, i, u);
      ComponentSame(g, u, v);
      ReachRefl(g.Deps(), u);
      ReachRefl(g.Deps(), v);
      ExplicitForwardInComponent(g, sccs, i, u, v);
    } else {
      CrossComponentForward(g, sccs, u, v);
    }
  }
}

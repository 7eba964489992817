/** The order in which `to_sql` emits the whole graph and in which `to_sql_for_items` emits a
    slice of it, given the contract of `petgraph::algo::tarjan_scc`. */
module Emission {
  import opened Walks
  import opened Sequences
  import opened ComponentOrder
  import opened EmitComponent

  // ----- the contract of tarjan_scc

  /** `u` and `v` are in one strongly connected component. */
  ghost predicate Mutual(g: Graph, u: nat, v: nat) {
    Reach(g.Deps(), u, v) && Reach(g.Deps(), v, u)
  }

  ghost predicate InComponent(sccs: seq<seq<nat>>, i: nat, u: nat) {
    i < |sccs| && u in sccs[i]
  }

  ghost predicate Covered(sccs: seq<seq<nat>>, u: nat) {
    exists i: nat :: InComponent(sccs, i, u)
  }

  /** What `tarjan_scc` promises: the components partition the nodes, a component is a class
      of mutually reachable nodes, and a dependency never leads to a later component
      (reverse topological order). */
  ghost predicate SccContract(g: Graph, sccs: seq<seq<nat>>) {
    && (forall i :: 0 <= i < |sccs| ==> Distinct(sccs[i]))
    && (forall u: nat :: Covered(sccs, u) <==> u < |g.ranks|)
    && (forall u, v, i: nat, j: nat :: InComponent(sccs, i, u) && InComponent(sccs, j, v) ==>
          (Mutual(g, u, v) <==> i == j))
    && (forall u, v, i: nat, j: nat :: (u, v) in g.Deps() && InComponent(sccs, i, u) && InComponent(sccs, j, v) ==>
          j <= i)
  }

  // ----- the full order

  /** Components in reverse of the order given, each in its own emit order. */
  ghost function EmissionOrder(g: Graph, sccs: seq<seq<nat>>): seq<nat>
    requires forall i :: 0 <= i < |sccs| ==> Distinct(sccs[i])
  {
    if sccs == [] then [] else EmissionOrder(g, sccs[1..]) + EmitOrder(g, sccs[0])
  }

  /** The loop of `to_sql`. */
  method ToSqlOrder(g: Graph, sccs: seq<seq<nat>>) returns (order: seq<nat>)
    requires forall i :: 0 <= i < |sccs| ==> Distinct(sccs[i])
    ensures order == EmissionOrder(g, sccs)
  {
    order := [];
    for i := |sccs| downto 0
      invariant order == EmissionOrder(g, sccs[i..])
    {
      var component := ConnectedComponentEmitOrder(g, sccs[i]);
      assert sccs[i..][1..] == sccs[i + 1..];
      order := order + component;
    }
  }

  /** The emission order of components `k..`, cut at each component: membership, no
      repetition, and components later in `sccs` come first. */
  lemma {:induction false} EmissionOrderParts(g: Graph, sccs: seq<seq<nat>>)
    requires forall i :: 0 <= i < |sccs| ==> Distinct(sccs[i])
    requires forall u, i: nat, j: nat :: InComponent(sccs, i, u) && InComponent(sccs, j, u) ==> i == j
    ensures var o := EmissionOrder(g, sccs);
      && Distinct(o)
      && (forall u :: u in o <==> Covered(sccs, u))
      && (forall u, v, i: nat, j: nat :: InComponent(sccs, i, u) && InComponent(sccs, j, v) && j < i ==> Before(o, u, v))
  {
    if sccs != [] {
      var rest := sccs[1..];
      var o := EmissionOrder(g, sccs);
      var first := EmissionOrder(g, rest);
      var last := EmitOrder(g, sccs[0]);
      assert forall u, i: nat :: InComponent(rest, i, u) <==> InComponent(sccs, i + 1, u);
      EmissionOrderParts(g, rest);
      EmitOrderCorrect(g, sccs[0]);
      assert Elements(last) == Elements(sccs[0]);
      forall u ensures u in last <==> InComponent(sccs, 0, u) {
        assert u in Elements(last) <==> u in Elements(sccs[0]);
      }
      forall u ensures u in o <==> Covered(sccs, u) {
        if i: nat :| InComponent(sccs, i, u) {
          if i > 0 {
            assert InComponent(rest, i - 1, u);
          }
        }
      }
      DistinctConcat(first, last);
      forall u, v, i: nat, j: nat | InComponent(sccs, i, u) && InComponent(sccs, j, v) && j < i
        ensures Before(o, u, v)
      {
        assert InComponent(rest, i - 1, u);
        if j == 0 {
          BeforeAcross(first, last, u, v);
        } else {
          assert InComponent(rest, j - 1, v);
          BeforeLeft(first, last, u, v);
        }
      }
    }
  }

  /** Inside the whole order, each component keeps its own order. */
  lemma {:induction false} ComponentOrderKept(g: Graph, sccs: seq<seq<nat>>, k: nat, u: nat, v: nat)
    requires forall i :: 0 <= i < |sccs| ==> Distinct(sccs[i])
    requires k < |sccs| && Before(EmitOrder(g, sccs[k]), u, v)
    ensures Before(EmissionOrder(g, sccs), u, v)
  {
    var rest := sccs[1..];
    EmissionOrderSplit(g, sccs);
    if k == 0 {
      BeforeRight(EmissionOrder(g, rest), EmitOrder(g, sccs[0]), u, v);
    } else {
      assert rest[k - 1] == sccs[k];
      ComponentOrderKept(g, rest, k - 1, u, v);
      BeforeLeft(EmissionOrder(g, rest), EmitOrder(g, sccs[0]), u, v);
    }
  }

  lemma EmissionOrderSplit(g: Graph, sccs: seq<seq<nat>>)
    requires sccs != [] && forall i :: 0 <= i < |sccs| ==> Distinct(sccs[i])
    ensures forall i :: 0 <= i < |sccs[1..]| ==> Distinct(sccs[1..][i])
    ensures EmissionOrder(g, sccs) == EmissionOrder(g, sccs[1..]) + EmitOrder(g, sccs[0])
  {
  }

  /** Every node is emitted exactly once. */
  lemma EmitsEveryNodeOnce(g: Graph, sccs: seq<seq<nat>>)
    requires SccContract(g, sccs)
    ensures var o := EmissionOrder(g, sccs);
      Distinct(o) && forall u: nat :: u in o <==> u < |g.ranks|
  {
    ComponentsDisjoint(g, sccs);
    EmissionOrderParts(g, sccs);
  }

  lemma ComponentsDisjoint(g: Graph, sccs: seq<seq<nat>>)
    requires SccContract(g, sccs)
    ensures forall u, i: nat, j: nat :: InComponent(sccs, i, u) && InComponent(sccs, j, u) ==> i == j
  {
    forall u, i: nat, j: nat | InComponent(sccs, i, u) && InComponent(sccs, j, u) ensures i == j {
      ReachRefl(g.Deps(), u);
      assert Mutual(g, u, u);
    }
  }

  /** A dependency between two components always points forward. */
  lemma CrossComponentForward(g: Graph, sccs: seq<seq<nat>>, u: nat, v: nat)
    requires g.Valid() && SccContract(g, sccs)
    requires (u, v) in g.Deps() && !Mutual(g, u, v)
    ensures Before(EmissionOrder(g, sccs), u, v)
  {
    ComponentsDisjoint(g, sccs);
    EmissionOrderParts(g, sccs);
    assert Covered(sccs, u) && Covered(sccs, v);
    var i: nat :| InComponent(sccs, i, u);
    var j: nat :| InComponent(sccs, j, v);
  }

  /** An explicit dependency inside component `k` points forward when the component's
      explicit dependencies are acyclic. */
  lemma ExplicitForwardInComponent(g: Graph, sccs: seq<seq<nat>>, k: nat, u: nat, v: nat)
    requires SccContract(g, sccs)
    requires k < |sccs| && Acyclic(g.Explicit(Elements(sccs[k]))) && (u, v) in g.Explicit(Elements(sccs[k]))
    ensures Before(EmissionOrder(g, sccs), u, v)
  {
    EmitOrderCorrect(g, sccs[k]);
    ComponentOrderKept(g, sccs, k, u, v);
  }

  /** All explicit dependencies of the graph. */
  ghost function AllExplicit(g: Graph): Arcs {
    set e | e in g.edges && e.weight.By? :: (e.source, e.target)
  }

  /** The emission honours every explicit `requires` of the extension if and only if the
      explicit dependencies have no cycle (and if they do, no order could). */
  lemma ExplicitHonouredIffAcyclic(g: Graph, sccs: seq<seq<nat>>)
    requires g.Valid() && SccContract(g, sccs)
    ensures Topological(AllExplicit(g), EmissionOrder(g, sccs)) <==> Acyclic(AllExplicit(g))
  {
    var o := EmissionOrder(g, sccs);
    EmitsEveryNodeOnce(g, sccs);
    if Topological(AllExplicit(g), o) {
      TopologicalIsAcyclic(AllExplicit(g), o);
    }
    if Acyclic(AllExplicit(g)) {
      forall u, v | (u, v) in AllExplicit(g) ensures Before(o, u, v) {
        ExplicitForward(g, sccs, u, v);
      }
    }
  }

  lemma ExplicitForward(g: Graph, sccs: seq<seq<nat>>, u: nat, v: nat)
    requires g.Valid() && SccContract(g, sccs)
    requires Acyclic(AllExplicit(g)) && (u, v) in AllExplicit(g)
    ensures Before(EmissionOrder(g, sccs), u, v)
  {
    assert (u, v) in g.Deps();
    if Mutual(g, u, v) {
      assert Covered(sccs, u) && Covered(sccs, v);
      var i: nat :| InComponent(sccs, i, u);
      var members := Elements(sccs[i]);
      assert v in members;
      AcyclicSubset(g.Explicit(members), AllExplicit(g));
      ExplicitForwardInComponent(g, sccs, i, u, v);
    } else {
      CrossComponentForward(g, sccs, u, v);
    }
  }

  /** On a graph without cycles every dependency, of any kind, precedes its dependent; on a
      graph with a cycle no order could achieve that. */
  lemma AllForwardIffAcyclic(g: Graph, sccs: seq<seq<nat>>)
    requires g.Valid() && SccContract(g, sccs)
    ensures Topological(g.Deps(), EmissionOrder(g, sccs)) <==> Acyclic(g.Deps())
  {
    var o := EmissionOrder(g, sccs);
    EmitsEveryNodeOnce(g, sccs);
    if Topological(g.Deps(), o) {
      TopologicalIsAcyclic(g.Deps(), o);
    }
    if Acyclic(g.Deps()) {
      forall u, v | (u, v) in g.Deps() ensures Before(o, u, v) {
        if Mutual(g, u, v) {
          CycleFromArc(g.Deps(), u, v);
        }
        CrossComponentForward(g, sccs, u, v);
      }
    }
  }

  // ----- slices

  /** Everything a target needs: the nodes with a path to some target. */
  ghost predicate Needed(g: Graph, targets: seq<nat>, n: nat) {
    exists t :: t in targets && Reach(g.Deps(), n, t)
  }

  /** Sources of the edges into `n`, one entry per edge. */
  function Incoming(es: seq<Edge>, n: nat): (preds: seq<nat>)
    ensures forall u :: u in preds <==> exists e :: e in es && e.source == u && e.target == n
  {
    if es == [] then [] else
      var last := es[|es| - 1];
      var rest := Incoming(es[..|es| - 1], n);
      assert forall e :: e in es <==> e == last || e in es[..|es| - 1];
      if last.target == n then [last.source] + rest else rest
  }

  /** For each of `ns`: `visited.insert(n)`, and `queue.push_back(n)` when it was new. */
  method VisitAll(visited0: set<nat>, queue0: seq<nat>, ns: seq<nat>, ghost processed: seq<nat>)
    returns (visited: set<nat>, queue: seq<nat>)
    requires Distinct(processed + queue0) && Elements(processed + queue0) == visited0
    ensures visited == visited0 + Elements(ns)
    ensures Distinct(processed + queue) && Elements(processed + queue) == visited
  {
    visited, queue := visited0, queue0;
    for i := 0 to |ns|
      invariant visited == visited0 + Elements(ns[..i])
      invariant Distinct(processed + queue) && Elements(processed + queue) == visited
    {
      if ns[i] !in visited {
        assert ns[i] !in Elements(processed + queue);
        assert processed + (queue + [ns[i]]) == (processed + queue) + [ns[i]];
        visited := visited + {ns[i]};
        queue := queue + [ns[i]];
      }
    }
    assert ns[..|ns|] == ns;
  }

  /** `collect_transitive_deps`. `enqueued` is everything that ever entered the queue, in
      order: each needed node enters exactly once. */
  method CollectTransitiveDeps(g: Graph, targets: seq<nat>) returns (visited: set<nat>, ghost enqueued: seq<nat>)
    ensures forall n :: n in visited <==> Needed(g, targets, n)
    ensures Distinct(enqueued) && Elements(enqueued) == visited
  {
    var queue;
    ghost var processed: seq<nat> := [];
    visited, queue := VisitAll({}, [], targets, processed);
    ghost var all := Elements(targets) + set e | e in g.edges :: e.source;
    forall t | t in visited ensures Needed(g, targets, t) {
      ReachRefl(g.Deps(), t);
    }
    while queue != []
      invariant Distinct(processed + queue) && Elements(processed + queue) == visited
      invariant Elements(targets) <= visited <= all
      invariant forall n :: n in visited ==> Needed(g, targets, n)
      invariant forall u, v :: (u, v) in g.Deps() && v in processed ==> u in visited
      decreases all - Elements(processed)
    {
      var node := queue[0];
      var preds := Incoming(g.edges, node);
      ghost var processed' := processed + [node];
      assert processed + queue == processed' + queue[1..];
      HeadFresh(processed, queue);
      assert node in Elements(processed + queue) && node in all - Elements(processed);
      assert Elements(processed') == Elements(processed) + {node};
      ghost var before := visited;
      visited, queue := VisitAll(visited, queue[1..], preds, processed');
      forall n | n in Elements(preds) ensures Needed(g, targets, n) && n in all {
        NeedsPredecessor(g, targets, n, node);
      }
      processed := processed';
    }
    enqueued := processed;
    assert processed + [] == processed;
    forall n | Needed(g, targets, n) ensures n in visited {
      var t :| t in targets && Reach(g.Deps(), n, t);
      BackwardClosed(g.Deps(), visited, n, t);
    }
  }

  lemma HeadFresh(processed: seq<nat>, queue: seq<nat>)
    requires Distinct(processed + queue) && queue != []
    ensures queue[0] !in processed
  {
    forall i | 0 <= i < |processed| ensures processed[i] != queue[0] {
      assert (processed + queue)[i] == processed[i] && (processed + queue)[|processed|] == queue[0];
    }
  }

  lemma NeedsPredecessor(g: Graph, targets: seq<nat>, u: nat, v: nat)
    requires Needed(g, targets, v) && u in Incoming(g.edges, v)
    ensures Needed(g, targets, u)
    ensures exists e :: e in g.edges && e.source == u && e.target == v
  {
    var t :| t in targets && Reach(g.Deps(), v, t);
    var e :| e in g.edges && e.source == u && e.target == v;
    assert (u, v) in g.Deps();
    ReachArc(g.Deps(), u, v);
    ReachTrans(g.Deps(), u, v, t);
  }

  /** A slice needs all of a strongly connected component or none of it. */
  lemma NeededWholeComponents(g: Graph, sccs: seq<seq<nat>>, targets: seq<nat>, i: nat, u: nat, v: nat)
    requires SccContract(g, sccs)
    requires InComponent(sccs, i, u) && InComponent(sccs, i, v)
    ensures Needed(g, targets, u) <==> Needed(g, targets, v)
  {
    assert Mutual(g, u, v);
    if t :| t in targets && Reach(g.Deps(), u, t) {
      ReachTrans(g.Deps(), v, u, t);
    }
    if t :| t in targets && Reach(g.Deps(), v, t) {
      ReachTrans(g.Deps(), u, v, t);
    }
  }

  /** The members of `s` that are in `keep` and are not extension roots, in order. */
  function Kept(g: Graph, s: seq<nat>, keep: set<nat>): seq<nat> {
    if s == [] then [] else
      var n := s[|s| - 1];
      Kept(g, s[..|s| - 1], keep) + (if n in keep && n !in g.roots then [n] else [])
  }

  lemma {:induction false} KeptMembers(g: Graph, s: seq<nat>, keep: set<nat>)
    ensures forall n :: n in Kept(g, s, keep) <==> n in s && n in keep && n !in g.roots
  {
    if s != [] {
      KeptMembers(g, s[..|s| - 1], keep);
      assert s == s[..|s| - 1] + [s[|s| - 1]];
    }
  }

  lemma {:induction false} KeptConcat(g: Graph, s: seq<nat>, t: seq<nat>, keep: set<nat>)
    ensures Kept(g, s + t, keep) == Kept(g, s, keep) + Kept(g, t, keep)
  {
    if t == [] {
      assert s + t == s;
    } else {
      var front, n := t[..|t| - 1], t[|t| - 1];
      var tail := if n in keep && n !in g.roots then [n] else [];
      assert (s + t)[..|s + t| - 1] == s + front && (s + t)[|s + t| - 1] == n;
      calc {
        Kept(g, s + t, keep);
        Kept(g, s + front, keep) + tail;
        { KeptConcat(g, s, front, keep); }
        Kept(g, s, keep) + Kept(g, front, keep) + tail;
        Kept(g, s, keep) + (Kept(g, front, keep) + tail);
      }
    }
  }

  /** `emit_slice_from_nodes_inner`: what a slice visits is the full emission order cut down
      to the needed nodes, extension roots left out. */
  method EmitSlice(g: Graph, sccs: seq<seq<nat>>, targets: seq<nat>) returns (slice: seq<nat>, keep: set<nat>)
    requires forall i :: 0 <= i < |sccs| ==> Distinct(sccs[i])
    ensures forall n :: n in keep <==> Needed(g, targets, n)
    ensures slice == Kept(g, EmissionOrder(g, sccs), keep)
  {
    ghost var enqueued;
    keep, enqueued := CollectTransitiveDeps(g, targets);
    slice := [];
    for i := |sccs| downto 0
      invariant slice == Kept(g, EmissionOrder(g, sccs[i..]), keep)
    {
      var ordered := ConnectedComponentEmitOrder(g, sccs[i]);
      assert sccs[i..][1..] == sccs[i + 1..];
      KeptConcat(g, EmissionOrder(g, sccs[i + 1..]), ordered, keep);
      var block := KeepOf(g, ordered, keep);
      slice := slice + block;
    }
  }

  method KeepOf(g: Graph, ordered: seq<nat>, keep: set<nat>) returns (block: seq<nat>)
    ensures block == Kept(g, ordered, keep)
  {
    block := [];
    for i := 0 to |ordered|
      invariant block == Kept(g, ordered[..i], keep)
    {
      assert ordered[..i + 1][..i] == ordered[..i];
      if ordered[i] in keep && ordered[i] !in g.roots {
        block := block + [ordered[i]];
      }
    }
    assert ordered[..|ordered|] == ordered;
  }

  lemma {:induction false} KeptDistinct(g: Graph, s: seq<nat>, keep: set<nat>)
    requires Distinct(s)
    ensures Distinct(Kept(g, s, keep))
  {
    if s != [] {
      KeptDistinct(g, s[..|s| - 1], keep);
      KeptMembers(g, s[..|s| - 1], keep);
    }
  }

  lemma {:induction false} KeptBefore(g: Graph, s: seq<nat>, keep: set<nat>, u: nat, v: nat)
    requires Before(s, u, v) && u in Kept(g, s, keep) && v in Kept(g, s, keep)
    ensures Before(Kept(g, s, keep), u, v)
  {
    var i, j :| 0 <= i < j < |s| && s[i] == u && s[j] == v;
    var a, b := s[..j], s[j..];
    assert s == a + b;
    KeptConcat(g, a, b, keep);
    KeptMembers(g, s, keep);
    KeptMembers(g, a, keep);
    KeptMembers(g, b, keep);
    assert a[i] == u && b[0] == v;
    BeforeAcross(Kept(g, a, keep), Kept(g, b, keep), u, v);
  }

  /** A slice visits each needed node other than an extension root exactly once; it is
      closed under dependencies; and every ordering promise of the full emission between two
      visited nodes also holds in the slice. */
  lemma SliceCorrect(g: Graph, sccs: seq<seq<nat>>, targets: seq<nat>, keep: set<nat>)
    requires g.Valid() && SccContract(g, sccs)
    requires forall t :: t in targets ==> t < |g.ranks|
    requires forall n :: n in keep <==> Needed(g, targets, n)
    ensures var slice := Kept(g, EmissionOrder(g, sccs), keep);
      && Distinct(slice)
      && (forall n :: n in slice <==> Needed(g, targets, n) && n !in g.roots)
      && (forall u, v :: (u, v) in g.Deps() && v in slice ==> u in slice || u in g.roots)
      && (forall u, v :: u in slice && v in slice && Before(EmissionOrder(g, sccs), u, v) ==> Before(slice, u, v))
  {
    var o := EmissionOrder(g, sccs);
    var slice := Kept(g, o, keep);
    EmitsEveryNodeOnce(g, sccs);
    KeptDistinct(g, o, keep);
    KeptMembers(g, o, keep);
    forall n | Needed(g, targets, n) ensures n in o {
      NeededIsNode(g, targets, n);
    }
    forall u, v | (u, v) in g.Deps() && v in slice ensures u in slice || u in g.roots {
      var e :| e in g.edges && e.source == u && e.target == v;
      assert u in Incoming(g.edges, v);
      NeedsPredecessor(g, targets, u, v);
    }
    forall u, v | u in slice && v in slice && Before(o, u, v) ensures Before(slice, u, v) {
      KeptBefore(g, o, keep, u, v);
    }
  }

  lemma NeededIsNode(g: Graph, targets: seq<nat>, n: nat)
    requires g.Valid() && Needed(g, targets, n) && forall t :: t in targets ==> t < |g.ranks|
    ensures n < |g.ranks|
  {
    var t :| t in targets && Reach(g.Deps(), n, t);
    if n != t {
      var x := ReachFirstStep(g.Deps(), n, t);
    }
  }
}

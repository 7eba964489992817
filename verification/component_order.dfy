/** The dependency multigraph of SQL entities and the order in which the members of one
    strongly connected component are emitted (`connected_component_emit_order`). */
module ComponentOrder {
  import opened Walks
  import opened Sequences

  datatype Requires = By | ByArg | ByReturn

  /** `target` depends on `source`. */
  datatype Edge = Edge(source: nat, target: nat, weight: Requires)

  /** What ordering looks at: `ranks[n]` is the place of node `n`'s entity in the derived
      order on entities (equal entities share a rank), `roots` are the extension-root
      nodes, and `edges` is the list of edges in the order they were added. Parallel edges
      and self-loops are allowed. */
  datatype Graph = Graph(ranks: seq<int>, roots: set<nat>, edges: seq<Edge>) {
    ghost predicate Valid() {
      && (forall e :: e in edges ==> e.source < |ranks| && e.target < |ranks|)
      && (forall n :: n in roots ==> n < |ranks|)
    }

    /** All dependencies, whatever their weight. */
    ghost function Deps(): Arcs {
      set e | e in edges :: (e.source, e.target)
    }

    /** The explicit (`By`) dependencies with both ends in `members`. */
    ghost function Explicit(members: set<nat>): Arcs {
      set e | e in edges && e.weight.By? && e.source in members && e.target in members
        :: (e.source, e.target)
    }

    function Rank(n: nat): int {
      if n < |ranks| then ranks[n] else 0
    }

    /** The comparison `ready` is sorted with: entity first, node index second. */
    predicate Less(u: nat, v: nat) {
      Rank(u) < Rank(v) || (Rank(u) == Rank(v) && u < v)
    }
  }

  // ----- the simple form: emit the least entity whose explicit dependencies are all out

  /** Members not yet emitted whose explicit dependencies inside the component are. */
  ghost function Ready(g: Graph, members: set<nat>, done: set<nat>): set<nat> {
    set v | v in members && v !in done
         && (forall u :: (u, v) in g.Explicit(members) ==> u in done)
  }

  ghost predicate IsLeast(g: Graph, s: set<nat>, v: nat)
  {
    v in s && forall w :: w in s && w != v ==> g.Less(v, w)
  }

  lemma {:induction false} LeastExists(g: Graph, s: set<nat>)
    requires s != {}
    ensures exists v :: IsLeast(g, s, v)
    decreases s
  {
    var x :| x in s;
    if s == {x} {
      assert IsLeast(g, s, x);
    } else {
      LeastExists(g, s - {x});
      var y :| IsLeast(g, s - {x}, y);
      forall w | w in s && w != x ensures w == y || g.Less(y, w) {
        assert w in s - {x};
      }
      assert IsLeast(g, s, if g.Less(x, y) then x else y);
    }
  }

  ghost function Least(g: Graph, s: set<nat>): (v: nat)
    requires s != {}
    ensures IsLeast(g, s, v)
  {
    LeastExists(g, s);
    var v :| IsLeast(g, s, v);
    v
  }

  /** Greedy emission from a state in which `done` is already out. */
  ghost function Greedy(g: Graph, members: set<nat>, done: set<nat>): seq<nat>
    decreases members - done
  {
    var ready := Ready(g, members, done);
    if ready == {} then [] else
      var next := Least(g, ready);
      assert next in members - done;
      [next] + Greedy(g, members, done + {next})
  }

  /** The order of one component: greedy if that covers the component, otherwise (and when
      there are no explicit edges to go by) the order given. */
  ghost function EmitOrder(g: Graph, nodes: seq<nat>): seq<nat>
    requires Distinct(nodes)
  {
    if |nodes| <= 1 || g.Explicit(Elements(nodes)) == {} then nodes else
      var order := Greedy(g, Elements(nodes), {});
      if |order| == |nodes| then order else nodes
  }

  // ----- properties of the greedy order

  lemma {:induction false} GreedyMembers(g: Graph, members: set<nat>, done: set<nat>)
    ensures var o := Greedy(g, members, done);
      Distinct(o) && forall v :: v in o ==> v in members && v !in done
    decreases members - done
  {
    var ready := Ready(g, members, done);
    if ready != {} {
      var next := Least(g, ready);
      GreedyMembers(g, members, done + {next});
    }
  }

  /** When the greedy order starts at `done` and emits `v`, every explicit dependency of
      `v` is in `done` or before `v`. */
  lemma {:induction false} GreedyRespects(g: Graph, members: set<nat>, done: set<nat>, u: nat, v: nat)
    requires (u, v) in g.Explicit(members)
    requires v in Greedy(g, members, done)
    ensures u in done || Before(Greedy(g, members, done), u, v)
    decreases members - done
  {
    var ready := Ready(g, members, done);
    var next := Least(g, ready);
    var rest := Greedy(g, members, done + {next});
    var o := Greedy(g, members, done);
    assert o == [next] + rest;
    if v != next {
      GreedyRespects(g, members, done + {next}, u, v);
      if u == next {
        var j :| 0 <= j < |rest| && rest[j] == v;
        assert o[0] == u && o[j + 1] == v;
      } else if u !in done {
        var i, j :| 0 <= i < j < |rest| && rest[i] == u && rest[j] == v;
        assert o[i + 1] == u && o[j + 1] == v;
      }
    }
  }

  /** Greedy emission stops only when nothing is ready. */
  lemma {:induction false} GreedyExhausts(g: Graph, members: set<nat>, done: set<nat>)
    ensures Ready(g, members, done + Elements(Greedy(g, members, done))) == {}
    decreases members - done
  {
    var ready := Ready(g, members, done);
    if ready == {} {
      assert done + Elements(Greedy(g, members, done)) == done;
    } else {
      var next := Least(g, ready);
      var rest := Greedy(g, members, done + {next});
      GreedyExhausts(g, members, done + {next});
      assert done + Elements([next] + rest) == (done + {next}) + Elements(rest);
    }
  }

  lemma GreedyCoversAcyclic(g: Graph, members: set<nat>)
    requires Acyclic(g.Explicit(members))
    ensures Elements(Greedy(g, members, {})) == members
  {
    var o := Greedy(g, members, {});
    GreedyMembers(g, members, {});
    GreedyExhausts(g, members, {});
    var left := members - Elements(o);
    assert {} + Elements(o) == Elements(o);
    if left != {} {
      forall v | v in left ensures exists u :: u in left && (u, v) in g.Explicit(members) {
        assert v !in Ready(g, members, Elements(o));
        var u :| (u, v) in g.Explicit(members) && u !in Elements(o);
        assert u in left;
      }
      BackwardTrapHasCycle(g.Explicit(members), left);
    }
  }

  lemma GreedyCoverIsTopological(g: Graph, members: set<nat>)
    requires Elements(Greedy(g, members, {})) == members
    ensures Topological(g.Explicit(members), Greedy(g, members, {}))
  {
    var o := Greedy(g, members, {});
    forall u, v | (u, v) in g.Explicit(members) ensures Before(o, u, v) {
      assert v in Elements(o);
      GreedyRespects(g, members, {}, u, v);
    }
  }

  /** Greedy emission covers the component exactly when its explicit edges are acyclic. */
  lemma GreedyCoversIffAcyclic(g: Graph, nodes: seq<nat>)
    requires Distinct(nodes)
    ensures var o := Greedy(g, Elements(nodes), {});
      && (|o| == |nodes| <==> Acyclic(g.Explicit(Elements(nodes))))
      && (|o| == |nodes| ==> Elements(o) == Elements(nodes))
  {
    var members := Elements(nodes);
    var o := Greedy(g, members, {});
    GreedyMembers(g, members, {});
    DistinctCardinality(nodes);
    DistinctCardinality(o);
    assert Elements(o) <= members;
    SubsetCardinality(Elements(o), members);
    if Acyclic(g.Explicit(members)) {
      GreedyCoversAcyclic(g, members);
    }
    if |o| == |nodes| {
      GreedyCoverIsTopological(g, members);
      TopologicalIsAcyclic(g.Explicit(members), o);
    }
  }

  lemma SameElementsPermute<T>(s: seq<T>, t: seq<T>)
    requires Distinct(s) && Distinct(t) && Elements(s) == Elements(t)
    ensures multiset(s) == multiset(t)
  {
    DistinctMultiset(s);
    DistinctMultiset(t);
    forall x ensures multiset(s)[x] == multiset(t)[x] {
      assert x in s <==> x in Elements(s);
      assert x in t <==> x in Elements(t);
    }
  }

  lemma {:induction false} DistinctMultiset<T>(s: seq<T>)
    requires Distinct(s)
    ensures forall x :: multiset(s)[x] == if x in s then 1 else 0
  {
    if s != [] {
      var n := |s| - 1;
      DistinctMultiset(s[..n]);
      assert s == s[..n] + [s[n]];
    }
  }

  /** For every multigraph and every list of distinct nodes: the emitted order is a
      permutation of the list; if the list has explicit edges and they are acyclic, every
      one of them points forward; if they are cyclic, the list comes back unchanged. */
  lemma EmitOrderCorrect(g: Graph, nodes: seq<nat>)
    requires Distinct(nodes)
    ensures var o := EmitOrder(g, nodes);
            var arcs := g.Explicit(Elements(nodes));
      && multiset(o) == multiset(nodes) && Distinct(o) && Elements(o) == Elements(nodes)
      && (Topological(arcs, o) <==> Acyclic(arcs))
      && (!Acyclic(arcs) || arcs == {} ==> o == nodes)
  {
    var members := Elements(nodes);
    var arcs := g.Explicit(members);
    var o := EmitOrder(g, nodes);
    GreedyCoversIffAcyclic(g, nodes);
    if |nodes| <= 1 {
      if arcs != {} {
        var u, v :| (u, v) in arcs;
        assert u in nodes && v in nodes;
        assert u == v == nodes[0];
        ReachRefl(arcs, u);
        CycleFromArc(arcs, u, v);
      }
    } else if arcs != {} && Acyclic(arcs) {
      GreedyMembers(g, members, {});
      GreedyCoverIsTopological(g, members);
    }
    SameElementsPermute(o, nodes);
    if Topological(arcs, o) {
      TopologicalIsAcyclic(arcs, o);
    }
  }

  // ----- the greedy order is the least topological order

  /** `s` is at most `t`, comparing node by node with the `ready` comparison. */
  ghost predicate LexAtMost(g: Graph, s: seq<nat>, t: seq<nat>)
    decreases |s|
  {
    s == [] || (t != [] && (g.Less(s[0], t[0]) || (s[0] == t[0] && LexAtMost(g, s[1..], t[1..]))))
  }

  ghost predicate CompletesFrom(g: Graph, members: set<nat>, done: set<nat>, t: seq<nat>) {
    && Distinct(t) && Elements(t) == members - done
    && forall u, v :: (u, v) in g.Explicit(members) && v in t ==> u in done || Before(t, u, v)
  }

  lemma {:induction false} GreedyIsLeastCompletion(g: Graph, members: set<nat>, done: set<nat>, t: seq<nat>)
    requires CompletesFrom(g, members, done, t)
    ensures LexAtMost(g, Greedy(g, members, done), t)
    decreases |t|
  {
    if t == [] {
      assert members - done == {};
      assert Ready(g, members, done) == {};
    } else {
      var first := t[0];
      assert first in Elements(t);
      assert first in Ready(g, members, done) by {
        forall u | (u, first) in g.Explicit(members) ensures u in done {
        }
      }
      var next := Least(g, Ready(g, members, done));
      if next == first {
        TailCompletes(g, members, done, t);
        GreedyIsLeastCompletion(g, members, done + {first}, t[1..]);
        assert Greedy(g, members, done)[1..] == Greedy(g, members, done + {first});
      }
    }
  }

  lemma TailCompletes(g: Graph, members: set<nat>, done: set<nat>, t: seq<nat>)
    requires t != [] && CompletesFrom(g, members, done, t)
    ensures CompletesFrom(g, members, done + {t[0]}, t[1..])
  {
    var rest := t[1..];
    forall x ensures x in rest <==> x in Elements(t) && x != t[0] {
      if x in rest {
        var i :| 0 <= i < |rest| && rest[i] == x;
        assert t[i + 1] == x;
      }
      if x in Elements(t) && x != t[0] {
        var i :| 0 <= i < |t| && t[i] == x;
        assert rest[i - 1] == x;
      }
    }
    assert Elements(rest) == members - (done + {t[0]});
    forall u, v | (u, v) in g.Explicit(members) && v in rest
      ensures u in done + {t[0]} || Before(rest, u, v)
    {
      assert v in Elements(t);
      if u !in done && u != t[0] {
        var i, j :| 0 <= i < j < |t| && t[i] == u && t[j] == v;
        assert rest[i - 1] == u && rest[j - 1] == v;
      }
    }
  }

  /** Among all orders of the component that respect its explicit edges, the emitted one is
      the least: the result is pinned down by the graph alone. */
  lemma EmitOrderIsLeast(g: Graph, nodes: seq<nat>, t: seq<nat>)
    requires Distinct(nodes) && |nodes| >= 2 && g.Explicit(Elements(nodes)) != {}
    requires Distinct(t) && Elements(t) == Elements(nodes) && Topological(g.Explicit(Elements(nodes)), t)
    ensures LexAtMost(g, EmitOrder(g, nodes), t)
  {
    var members := Elements(nodes);
    TopologicalIsAcyclic(g.Explicit(members), t);
    GreedyCoversIffAcyclic(g, nodes);
    assert CompletesFrom(g, members, {}, t);
    GreedyIsLeastCompletion(g, members, {}, t);
  }

  // ----- the order on the ranks themselves

  /** Every explicit dependency of `v` on another of `nodes` is in `out`. */
  ghost predicate Released(g: Graph, nodes: seq<nat>, out: seq<nat>, v: nat) {
    forall e :: e in g.edges && e.weight.By? && e.target == v && e.source in nodes ==> e.source in out
  }

  lemma {:induction false} GreedyTakesLeast(g: Graph, members: set<nat>, done: set<nat>, i: nat, j: nat)
    requires i < j < |Greedy(g, members, done)|
    requires var o := Greedy(g, members, done);
      forall u :: (u, o[j]) in g.Explicit(members) ==> u in done || u in o[..i]
    ensures var o := Greedy(g, members, done); g.Less(o[i], o[j])
    decreases members - done
  {
    var o, ready := Greedy(g, members, done), Ready(g, members, done);
    var rest := Greedy(g, members, done + {o[0]});
    assert o == [o[0]] + rest;
    GreedyMembers(g, members, done);
    if i == 0 {
      assert o[j] in o && o[0] != o[j];
      assert o[j] in ready;
    } else {
      assert o[..i] == [o[0]] + rest[..i - 1];
      GreedyTakesLeast(g, members, done + {o[0]}, i - 1, j - 1);
    }
  }

  /** Of two members, the later one waited for something or is the greater: if all explicit
      dependencies of `o[j]` were out before `o[i]`, then `o[i]` has the lower rank, or the same rank
      and the lower index. */
  lemma EmitOrderByRank(g: Graph, nodes: seq<nat>, i: nat, j: nat)
    requires Distinct(nodes) && |nodes| >= 2 && (forall n :: n in nodes ==> n < |g.ranks|)
    requires Acyclic(g.Explicit(Elements(nodes)))
    requires exists e :: e in g.edges && e.weight.By? && e.source in nodes && e.target in nodes
    requires i < j < |EmitOrder(g, nodes)|
    requires Released(g, nodes, EmitOrder(g, nodes)[..i], EmitOrder(g, nodes)[j])
    ensures var o := EmitOrder(g, nodes);
      && o[i] < |g.ranks| && o[j] < |g.ranks|
      && (g.ranks[o[i]] < g.ranks[o[j]] || (g.ranks[o[i]] == g.ranks[o[j]] && o[i] < o[j]))
  {
    var o, members := EmitOrder(g, nodes), Elements(nodes);
    EmitOrderCorrect(g, nodes);
    GreedyCoversIffAcyclic(g, nodes);
    assert o[i] in Elements(o) && o[j] in Elements(o);
    var e :| e in g.edges && e.weight.By? && e.source in nodes && e.target in nodes;
    assert (e.source, e.target) in g.Explicit(members);
    assert o == Greedy(g, members, {});
    GreedyTakesLeast(g, members, {}, i, j);
  }
}

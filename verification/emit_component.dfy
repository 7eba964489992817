/** The counter-based implementation of the component order, proved to compute the simple
    form of `ComponentOrder.EmitOrder` whatever order the hash maps are walked in. */
module EmitComponent {
  import opened Sequences
  import opened ComponentOrder

  // ----- counting explicit edges

  predicate Counts(e: Edge, sources: set<nat>, v: nat) {
    e.weight.By? && e.source in sources && e.target == v
  }

  /** How many explicit edges run from `sources` to `v`, parallel edges counted apart. */
  ghost function Count(es: seq<Edge>, sources: set<nat>, v: nat): nat {
    if es == [] then 0 else
      Count(es[..|es| - 1], sources, v) + (if Counts(es[|es| - 1], sources, v) then 1 else 0)
  }

  lemma {:induction false} CountZero(es: seq<Edge>, sources: set<nat>, v: nat)
    ensures Count(es, sources, v) == 0 <==> forall e :: e in es ==> !Counts(e, sources, v)
  {
    if es != [] {
      var n := |es| - 1;
      CountZero(es[..n], sources, v);
      assert es == es[..n] + [es[n]];
    }
  }

  lemma {:induction false} CountUnion(es: seq<Edge>, a: set<nat>, b: set<nat>, v: nat)
    requires a !! b
    ensures Count(es, a + b, v) == Count(es, a, v) + Count(es, b, v)
  {
    if es != [] {
      CountUnion(es[..|es| - 1], a, b, v);
    }
  }

  lemma {:induction false} CountConcat(es: seq<Edge>, fs: seq<Edge>, sources: set<nat>, v: nat)
    ensures Count(es + fs, sources, v) == Count(es, sources, v) + Count(fs, sources, v)
  {
    if fs == [] {
      assert es + fs == es;
    } else {
      var n := |fs| - 1;
      CountConcat(es, fs[..n], sources, v);
      assert (es + fs)[..|es + fs| - 1] == es + fs[..n];
    }
  }

  /** The edges leaving `n`, most recently added first. */
  function OutEdges(es: seq<Edge>, n: nat): (out: seq<Edge>)
    ensures forall e :: e in out <==> e in es && e.source == n
  {
    if es == [] then [] else
      var last := es[|es| - 1];
      (if last.source == n then [last] else []) + OutEdges(es[..|es| - 1], n)
  }

  lemma CountStep(es: seq<Edge>, i: nat, sources: set<nat>)
    requires i < |es|
    ensures forall v :: Count(es[..i + 1], sources, v)
                     == Count(es[..i], sources, v) + (if Counts(es[i], sources, v) then 1 else 0)
  {
    assert es[..i + 1][..i] == es[..i];
  }

  /** How often `v` occurs in `s`. */
  ghost function Occ(s: seq<nat>, v: nat): nat {
    if s == [] then 0 else Occ(s[..|s| - 1], v) + (if s[|s| - 1] == v then 1 else 0)
  }

  lemma {:induction false} OccConcat(s: seq<nat>, t: seq<nat>, v: nat)
    ensures Occ(s + t, v) == Occ(s, v) + Occ(t, v)
  {
    if t == [] {
      assert s + t == s;
    } else {
      OccConcat(s, t[..|t| - 1], v);
      assert (s + t)[..|s + t| - 1] == s + t[..|t| - 1];
    }
  }

  lemma OccTail(s: seq<nat>, i: nat)
    requires i < |s|
    ensures forall v :: Occ(s[i..], v) == (if s[i] == v then 1 else 0) + Occ(s[i + 1..], v)
  {
    forall v ensures Occ(s[i..], v) == (if s[i] == v then 1 else 0) + Occ(s[i + 1..], v) {
      assert s[i..] == [s[i]] + s[i + 1..];
      OccConcat([s[i]], s[i + 1..], v);
      assert [s[i]][..0] == [];
      assert Occ([s[i]], v) == Occ([s[i]][..0], v) + (if s[i] == v then 1 else 0);
    }
  }

  lemma OccAppend(s: seq<nat>, x: nat)
    ensures forall v :: Occ(s + [x], v) == Occ(s, v) + (if x == v then 1 else 0)
  {
    assert (s + [x])[..|s|] == s;
  }

  lemma {:induction false} CountOutEdges(es: seq<Edge>, n: nat, v: nat)
    ensures Count(OutEdges(es, n), {n}, v) == Count(es, {n}, v)
  {
    if es != [] {
      var last := es[|es| - 1];
      CountOutEdges(es[..|es| - 1], n, v);
      if last.source == n {
        CountConcat([last], OutEdges(es[..|es| - 1], n), {n}, v);
        assert [last][..0] == [];
        assert Count([last], {n}, v) == Count([last][..0], {n}, v) + (if Counts(last, {n}, v) then 1 else 0);
      } else {
        assert [] + OutEdges(es[..|es| - 1], n) == OutEdges(es[..|es| - 1], n);
      }
    }
  }

  /** The counters after the sources in `done` have been accounted for. */
  ghost predicate CountersAt(g: Graph, members: set<nat>, sources: set<nat>, remaining: map<nat, nat>) {
    remaining.Keys == members && forall v :: v in members ==> remaining[v] == Count(g.edges, sources, v)
  }

  /** `dependents[n]` lists the explicit dependents of `n` inside the component, one entry
      per edge, for every `n` in `sources`. */
  ghost predicate DependentsAt(g: Graph, members: set<nat>, sources: set<nat>, dependents: map<nat, seq<nat>>) {
    && dependents.Keys == members
    && forall n, v :: n in sources && n in members ==>
         Occ(dependents[n], v) == if v in members then Count(g.edges, {n}, v) else 0
  }

  /** Effect of the edges seen so far of one node. */
  ghost predicate Tallied(base: map<nat, nat>, seen: seq<Edge>, node: nat,
                          dependents: seq<nat>, remaining: map<nat, nat>) {
    && remaining.Keys == base.Keys
    && (forall v :: v in base ==> remaining[v] == base[v] + Count(seen, {node}, v))
    && (forall v :: Occ(dependents, v) == if v in base then Count(seen, {node}, v) else 0)
  }

  lemma TallyStep(base: map<nat, nat>, out: seq<Edge>, i: nat, node: nat,
                  dependents: seq<nat>, remaining: map<nat, nat>)
    requires i < |out| && out[i].source == node
    requires Tallied(base, out[..i], node, dependents, remaining)
    ensures out[i].weight.By? && out[i].target in base ==>
      Tallied(base, out[..i + 1], node, dependents + [out[i].target],
              remaining[out[i].target := remaining[out[i].target] + 1])
    ensures !(out[i].weight.By? && out[i].target in base) ==>
      Tallied(base, out[..i + 1], node, dependents, remaining)
  {
    CountStep(out, i, {node});
    OccAppend(dependents, out[i].target);
  }

  /** One node's turn in the loop that fills `dependents` and `remaining`. */
  method CountOutgoing(g: Graph, node: nat, base: map<nat, nat>)
    returns (dependents: seq<nat>, remaining: map<nat, nat>, found: bool)
    ensures Tallied(base, g.edges, node, dependents, remaining)
    ensures found <==> dependents != []
  {
    var out := OutEdges(g.edges, node);
    dependents, remaining, found := [], base, false;
    for i := 0 to |out|
      invariant Tallied(base, out[..i], node, dependents, remaining)
      invariant found <==> dependents != []
    {
      assert out[i] in out;
      TallyStep(base, out, i, node, dependents, remaining);
      if out[i].weight == By {
        var dependent := out[i].target;
        if dependent in remaining {
          found := true;
          dependents := dependents + [dependent];
          remaining := remaining[dependent := remaining[dependent] + 1];
        }
      }
    }
    assert out[..|out|] == out;
    forall v ensures Count(out, {node}, v) == Count(g.edges, {node}, v) {
      CountOutEdges(g.edges, node, v);
    }
  }

  /** Zero counters and no dependents for every member. */
  method InitialCounters(nodes: seq<nat>) returns (dependents: map<nat, seq<nat>>, remaining: map<nat, nat>)
    ensures remaining.Keys == dependents.Keys == Elements(nodes)
    ensures forall v :: v in nodes ==> remaining[v] == 0 && dependents[v] == []
  {
    dependents, remaining := map[], map[];
    for i := 0 to |nodes|
      invariant remaining.Keys == dependents.Keys == Elements(nodes[..i])
      invariant forall v :: v in remaining ==> remaining[v] == 0 && dependents[v] == []
    {
      dependents := dependents[nodes[i] := []];
      remaining := remaining[nodes[i] := 0];
    }
    assert nodes[..|nodes|] == nodes;
  }

  lemma CountersStep(g: Graph, members: set<nat>, sources: set<nat>, node: nat,
                     base: map<nat, nat>, deps: seq<nat>, remaining: map<nat, nat>)
    requires node in members && node !in sources
    requires CountersAt(g, members, sources, base)
    requires Tallied(base, g.edges, node, deps, remaining)
    ensures CountersAt(g, members, sources + {node}, remaining)
  {
    forall v | v in members ensures remaining[v] == Count(g.edges, sources + {node}, v) {
      CountUnion(g.edges, sources, {node}, v);
    }
  }

  /** The nodes that have a dependent. */
  ghost function Support(dependents: map<nat, seq<nat>>): set<nat> {
    set n | n in dependents && dependents[n] != []
  }

  lemma DependentsStep(g: Graph, members: set<nat>, sources: set<nat>, node: nat, base: map<nat, nat>,
                       dependents: map<nat, seq<nat>>, deps: seq<nat>, remaining: map<nat, nat>)
    requires node in members && node !in sources && base.Keys == members
    requires DependentsAt(g, members, sources, dependents) && dependents[node] == []
    requires Tallied(base, g.edges, node, deps, remaining)
    ensures DependentsAt(g, members, sources + {node}, dependents[node := deps])
    ensures Support(dependents[node := deps]) == Support(dependents) + (if deps == [] then {} else {node})
  {
  }

  /** The two counting loops over the component's nodes. */
  method CountExplicit(g: Graph, nodes: seq<nat>)
    returns (dependents: map<nat, seq<nat>>, remaining: map<nat, nat>, found: bool)
    requires Distinct(nodes)
    ensures CountersAt(g, Elements(nodes), Elements(nodes), remaining)
    ensures DependentsAt(g, Elements(nodes), Elements(nodes), dependents)
    ensures found <==> Support(dependents) != {}
  {
    dependents, remaining := InitialCounters(nodes);
    found := false;
    ghost var members := Elements(nodes);
    ghost var sources := {};
    forall v | v in members ensures Count(g.edges, {}, v) == 0 {
      CountZero(g.edges, {}, v);
    }
    for i := 0 to |nodes|
      invariant sources == Elements(nodes[..i])
      invariant CountersAt(g, members, sources, remaining)
      invariant DependentsAt(g, members, sources, dependents)
      invariant Support(dependents) <= sources
      invariant found <==> Support(dependents) != {}
    {
      var node := nodes[i];
      assert node in members && node !in sources;
      assert Elements(nodes[..i + 1]) == sources + {node};
      var deps, rem, any := CountOutgoing(g, node, remaining);
      CountersStep(g, members, sources, node, remaining, deps, rem);
      DependentsStep(g, members, sources, node, remaining, dependents, deps, rem);
      dependents, remaining, found := dependents[node := deps], rem, found || any;
      sources := sources + {node};
    }
    assert nodes[..|nodes|] == nodes;
  }

  /** The component has an explicit edge exactly when some member has a dependent. */
  lemma HasExplicitEdges(g: Graph, members: set<nat>, dependents: map<nat, seq<nat>>)
    requires DependentsAt(g, members, members, dependents)
    ensures g.Explicit(members) != {} <==> Support(dependents) != {}
  {
    if g.Explicit(members) != {} {
      var a :| a in g.Explicit(members);
      var e :| e in g.edges && e.weight.By? && e.source == a.0 && e.target == a.1;
      CountZero(g.edges, {a.0}, a.1);
      assert Counts(e, {a.0}, a.1);
      assert Occ(dependents[a.0], a.1) > 0;
      assert a.0 in Support(dependents);
    }
    if n :| n in Support(dependents) {
      var v := dependents[n][|dependents[n]| - 1];
      assert Occ(dependents[n], v) > 0;
      assert v in members && Count(g.edges, {n}, v) > 0;
      CountZero(g.edges, {n}, v);
      var e :| e in g.edges && Counts(e, {n}, v);
      assert (n, v) in g.Explicit(members);
    }
  }

  // ----- the ready list

  ghost predicate Sorted(g: Graph, s: seq<nat>)
  {
    forall i, j :: 0 <= i < j < |s| ==> s[i] == s[j] || g.Less(s[i], s[j])
  }

  lemma InsertPermutes(s: seq<nat>, k: nat, x: nat)
    requires k <= |s|
    ensures multiset(s[..k] + [x] + s[k..]) == multiset(s) + multiset{x}
  {
    assert s == s[..k] + s[k..];
  }

  lemma SortedInsert(g: Graph, s: seq<nat>, k: nat, x: nat)
    requires k <= |s| && Sorted(g, s)
    requires forall j :: 0 <= j < k ==> g.Less(s[j], x)
    requires k < |s| ==> !g.Less(s[k], x)
    ensures Sorted(g, s[..k] + [x] + s[k..])
  {
    var t := s[..k] + [x] + s[k..];
    forall i, j | 0 <= i < j < |t| ensures t[i] == t[j] || g.Less(t[i], t[j]) {
      if i < k && j < k {
        assert t[i] == s[i] && t[j] == s[j];
      } else if i < k && j == k {
        assert t[i] == s[i] && t[j] == x;
      } else if i < k {
        assert t[i] == s[i] && t[j] == s[j - 1];
      } else if i == k {
        assert t[i] == x && t[j] == s[j - 1];
        assert s[k] == s[j - 1] || g.Less(s[k], s[j - 1]);
      } else {
        assert t[i] == s[i - 1] && t[j] == s[j - 1];
      }
    }
  }

  /** `sort_unstable_by` entity, then node index. */
  method SortReady(g: Graph, ready: seq<nat>) returns (sorted: seq<nat>)
    ensures multiset(sorted) == multiset(ready)
    ensures Sorted(g, sorted)
    ensures forall i, j :: 0 <= i < j < |sorted| && sorted[i] < |g.ranks| && sorted[j] < |g.ranks| ==>
      || g.ranks[sorted[i]] < g.ranks[sorted[j]]
      || (g.ranks[sorted[i]] == g.ranks[sorted[j]] && sorted[i] <= sorted[j])
  {
    sorted := [];
    for i := 0 to |ready|
      invariant multiset(sorted) == multiset(ready[..i])
      invariant Sorted(g, sorted)
    {
      var k := 0;
      while k < |sorted| && g.Less(sorted[k], ready[i])
        invariant 0 <= k <= |sorted|
        invariant forall j :: 0 <= j < k ==> g.Less(sorted[j], ready[i])
      {
        k := k + 1;
      }
      SortedInsert(g, sorted, k, ready[i]);
      InsertPermutes(sorted, k, ready[i]);
      assert ready[..i + 1] == ready[..i] + [ready[i]];
      sorted := sorted[..k] + [ready[i]] + sorted[k..];
    }
    assert ready[..|ready|] == ready;
  }

  /** Seeding `ready` walks the hash map of counters: the keys come in any order. */
  method SeedReady(remaining: map<nat, nat>) returns (ready: seq<nat>)
    ensures Distinct(ready)
    ensures forall v :: v in ready <==> v in remaining && remaining[v] == 0
  {
    ready := [];
    var keys := remaining.Keys;
    while keys != {}
      invariant keys <= remaining.Keys
      invariant Distinct(ready)
      invariant forall v :: v in ready <==> v in remaining && v !in keys && remaining[v] == 0
      decreases keys
    {
      var v :| v in keys;
      keys := keys - {v};
      if remaining[v] == 0 {
        ready := ready + [v];
      }
    }
  }

  /** State between two rounds of the loop: counters count the edges from members that are
      not out yet, nothing that is out has such an edge, and `ready` holds the ready set. */
  ghost predicate RoundInvariant(g: Graph, members: set<nat>, done: set<nat>,
                                 remaining: map<nat, nat>, ready: seq<nat>) {
    && CountersAt(g, members, members - done, remaining)
    && done <= members
    && (forall v :: v in done ==> remaining[v] == 0)
    && Distinct(ready)
    && (forall v :: v in ready <==> v in members && v !in done && remaining[v] == 0)
  }

  lemma ReadyByCount(g: Graph, members: set<nat>, done: set<nat>, v: nat)
    requires done <= members && v in members && v !in done
    ensures v in Ready(g, members, done) <==> Count(g.edges, members - done, v) == 0
  {
    CountZero(g.edges, members - done, v);
    if v in Ready(g, members, done) {
      forall e | e in g.edges ensures !Counts(e, members - done, v) {
        assert Counts(e, members, v) ==> (e.source, v) in g.Explicit(members);
      }
    }
    if Count(g.edges, members - done, v) == 0 {
      forall u | (u, v) in g.Explicit(members) ensures u in done {
        var e :| e in g.edges && e.weight.By? && e.source == u && e.target == v;
        assert !Counts(e, members - done, v);
      }
    }
  }

  /** The counters still hold the edges of the node just emitted that are left in `deps`. */
  ghost predicate Releasing(g: Graph, members: set<nat>, left: set<nat>, deps: seq<nat>, remaining: map<nat, nat>) {
    && remaining.Keys == members
    && (forall v :: v in members ==> remaining[v] == Count(g.edges, left, v) + Occ(deps, v))
    && (forall v :: v !in members ==> Occ(deps, v) == 0)
  }

  /** Nothing that is out is counted, and `ready` holds what is not counted any more. */
  ghost predicate ReadyAre(members: set<nat>, out: set<nat>, remaining: map<nat, nat>, ready: seq<nat>) {
    && remaining.Keys == members && out <= members
    && (forall v :: v in out ==> remaining[v] == 0)
    && Distinct(ready)
    && (forall v :: v in ready <==> v in members && v !in out && remaining[v] == 0)
  }

  lemma ReleaseStep(g: Graph, members: set<nat>, left: set<nat>, deps: seq<nat>, i: nat, remaining: map<nat, nat>)
    requires i < |deps| && Releasing(g, members, left, deps[i..], remaining)
    ensures deps[i] in members && remaining[deps[i]] > 0
    ensures Releasing(g, members, left, deps[i + 1..], remaining[deps[i] := remaining[deps[i]] - 1])
  {
    OccTail(deps, i);
  }

  lemma ReadyStep(members: set<nat>, out: set<nat>, remaining: map<nat, nat>, ready: seq<nat>, v: nat)
    requires ReadyAre(members, out, remaining, ready) && v in members && remaining[v] > 0
    ensures var less := remaining[v := remaining[v] - 1];
      ReadyAre(members, out, less, if less[v] == 0 then ready + [v] else ready)
  {
    assert v !in ready && v !in out;
  }

  /** Releasing the dependents of a node just emitted. The counters are natural numbers, so
      the subtraction's proof is the proof that they never underflow. */
  method ReleaseDependents(g: Graph, ghost members: set<nat>, ghost done: set<nat>, ghost next: nat,
                           deps: seq<nat>, remaining0: map<nat, nat>, ready0: seq<nat>)
    returns (remaining: map<nat, nat>, ready: seq<nat>)
    requires next in members && next !in done && done <= members
    requires CountersAt(g, members, members - done, remaining0)
    requires forall v :: v in done + {next} ==> remaining0[v] == 0
    requires Distinct(ready0)
    requires forall v :: v in ready0 <==> v in members && v !in done + {next} && remaining0[v] == 0
    requires forall v :: Occ(deps, v) == if v in members then Count(g.edges, {next}, v) else 0
    ensures RoundInvariant(g, members, done + {next}, remaining, ready)
  {
    remaining, ready := remaining0, ready0;
    ghost var left := members - (done + {next});
    forall v ensures Count(g.edges, members - done, v) == Count(g.edges, left, v) + Count(g.edges, {next}, v) {
      assert members - done == left + {next};
      CountUnion(g.edges, left, {next}, v);
    }
    assert deps[0..] == deps;
    ghost var out := done + {next};
    for i := 0 to |deps|
      invariant Releasing(g, members, left, deps[i..], remaining)
      invariant ReadyAre(members, out, remaining, ready)
    {
      var dependent := deps[i];
      ReleaseStep(g, members, left, deps, i, remaining);
      ReadyStep(members, out, remaining, ready, dependent);
      remaining := remaining[dependent := remaining[dependent] - 1];
      if remaining[dependent] == 0 {
        ready := ready + [dependent];
      }
    }
    assert deps[|deps|..] == [];
  }

  lemma LeastIsUnique(g: Graph, s: set<nat>, u: nat, v: nat)
    requires IsLeast(g, s, u) && IsLeast(g, s, v)
    ensures u == v
  {
  }

  lemma ReadyListIsReadySet(g: Graph, members: set<nat>, done: set<nat>, remaining: map<nat, nat>, ready: seq<nat>)
    requires RoundInvariant(g, members, done, remaining, ready)
    ensures Elements(ready) == Ready(g, members, done)
  {
    forall v ensures v in ready <==> v in Ready(g, members, done) {
      if v in members && v !in done {
        ReadyByCount(g, members, done, v);
      }
    }
  }

  /** The head of the sorted ready list is the node the simple form picks. */
  lemma HeadIsLeast(g: Graph, ready: seq<nat>, sorted: seq<nat>)
    requires ready != [] && multiset(ready) == multiset(sorted) && Sorted(g, sorted)
    ensures sorted != [] && Elements(ready) != {} && sorted[0] == Least(g, Elements(ready))
  {
    assert |multiset(ready)| == |multiset(sorted)|;
    assert ready[0] in Elements(ready);
    var next := sorted[0];
    assert forall v :: v in ready <==> v in multiset(ready);
    assert forall v :: v in sorted <==> v in multiset(sorted);
    assert next in sorted && next in ready;
    forall w | w in Elements(ready) && w != next ensures g.Less(next, w) {
      assert w in sorted;
      var k :| 0 <= k < |sorted| && sorted[k] == w;
    }
    assert IsLeast(g, Elements(ready), next);
    LeastIsUnique(g, Elements(ready), next, Least(g, Elements(ready)));
  }

  /** `connected_component_emit_order`: the result is the simple form's, so it depends on
      the graph and the node list only, and not on how the hash maps were iterated. */
  method ConnectedComponentEmitOrder(g: Graph, nodes: seq<nat>) returns (order: seq<nat>)
    requires Distinct(nodes)
    ensures order == EmitOrder(g, nodes)
  {
    if |nodes| <= 1 {
      return nodes;
    }
    var dependents, remaining, hasExplicitEdges := CountExplicit(g, nodes);
    HasExplicitEdges(g, Elements(nodes), dependents);
    if !hasExplicitEdges {
      return nodes;
    }
    ghost var members := Elements(nodes);
    var ready := SeedReady(remaining);
    var ordered := [];
    ghost var done := {};
    assert members - {} == members;
    while ready != []
      invariant done == Elements(ordered)
      invariant RoundInvariant(g, members, done, remaining, ready)
      invariant Greedy(g, members, {}) == ordered + Greedy(g, members, done)
      decreases members - done
    {
      ReadyListIsReadySet(g, members, done, remaining, ready);
      var sorted := SortReady(g, ready);
      HeadIsLeast(g, ready, sorted);
      RemoveHead(ready, sorted);
      var next := sorted[0];
      GreedyRound(g, members, done, ordered, next);
      remaining, ready := ReleaseDependents(g, members, done, next, dependents[next], remaining, sorted[1..]);
      ordered := ordered + [next];
      done := done + {next};
    }
    ReadyListIsReadySet(g, members, done, remaining, ready);
    assert Greedy(g, members, {}) == ordered;
    order := if |ordered| == |nodes| then ordered else nodes;
  }

  lemma GreedyRound(g: Graph, members: set<nat>, done: set<nat>, ordered: seq<nat>, next: nat)
    requires Ready(g, members, done) != {} && next == Least(g, Ready(g, members, done))
    ensures ordered + Greedy(g, members, done) == (ordered + [next]) + Greedy(g, members, done + {next})
    ensures Elements(ordered + [next]) == Elements(ordered) + {next}
  {
  }

  lemma RemoveHead(ready: seq<nat>, sorted: seq<nat>)
    requires Distinct(ready) && multiset(ready) == multiset(sorted) && sorted != []
    ensures sorted[0] in ready && Distinct(sorted[1..])
    ensures forall v :: v in sorted[1..] <==> v in ready && v != sorted[0]
  {
    DistinctMultiset(ready);
    assert sorted == [sorted[0]] + sorted[1..];
    assert forall v :: v in ready <==> v in multiset(ready);
    assert forall v :: v in sorted <==> v in multiset(sorted);
    assert multiset(sorted) == multiset{sorted[0]} + multiset(sorted[1..]);
    assert forall v :: multiset(sorted[1..])[v] <= multiset(sorted)[v] <= 1;
    assert forall v :: v in sorted[1..] <==> v in multiset(sorted[1..]);
    MultisetDistinct(sorted[1..]);
  }

  lemma MultisetDistinct(s: seq<nat>)
    requires forall v :: multiset(s)[v] <= 1
    ensures Distinct(s)
  {
    forall i, j | 0 <= i < j < |s| ensures s[i] != s[j] {
      assert s == s[..i] + [s[i]] + s[i + 1..j] + [s[j]] + s[j + 1..];
      var x := s[i];
      assert multiset(s)[x] == multiset(s[..i])[x] + 1 + multiset(s[i + 1..j])[x]
                             + multiset([s[j]])[x] + multiset(s[j + 1..])[x];
    }
  }
}

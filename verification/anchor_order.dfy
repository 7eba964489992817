/** The place of the extension root, the bootstrap block and the finalize block, and of the
    functions that types and aggregates name, in the emitted SQL. */
module AnchorOrder {
  import opened Walks
  import opened Sequences
  import opened ComponentOrder
  import opened Connections
  import opened Emission
  import opened Drafts
  import opened Entities
  import opened TypeTargets
  import opened BuiltGraph
  import opened BuiltFacts
  import opened TiedNodes
  import opened BuiltView
  import opened ForcedOrder
  import opened ExplicitCycles
  import opened Wrappers
  import BuiltLookup

  // ----- if the explicit edges form no cycle

  lemma ForwardBy(g: Graph, sccs: seq<seq<nat>>, x: Edge)
    requires g.Valid() && SccContract(g, sccs) && Acyclic(AllExplicit(g)) && x in g.edges && x.weight.By?
    ensures Before(EmissionOrder(g, sccs), x.source, x.target)
  {
    assert (x.source, x.target) in AllExplicit(g);
    ExplicitForward(g, sccs, x.source, x.target);
  }

  /** If the explicit edges form no cycle, then in the emitted SQL the bootstrap block precedes every
      other tied node, the finalize block follows every other tied node, and the root precedes every
      live node. */
  lemma AnchorsInOrder(input: Input, b: Built, rank: Entity -> int, sccs: seq<seq<nat>>, i: nat)
    requires IsBuilt(input, b) && Tied(b, i)
    requires SccContract(View(b, rank), sccs) && Acyclic(AllExplicit(View(b, rank)))
    ensures var o := EmissionOrder(View(b, rank), sccs);
      && (Live(b, i) ==> Before(o, 0, i))
      && (b.anchors.bootstrap.Some? && b.anchors.bootstrap.value != i ==> Before(o, b.anchors.bootstrap.value, i))
      && (b.anchors.finalize.Some? && b.anchors.finalize.value != i ==> Before(o, i, b.anchors.finalize.value))
  {
    ViewValid(input, b, rank);
    TiedIsAnchored(input, b, i);
    if Live(b, i) {
      LiveHasRoot(input, b, i);
    }
    AnchoredInOrder(b, rank, sccs, i);
  }

  lemma AnchoredInOrder(b: Built, rank: Entity -> int, sccs: seq<seq<nat>>, i: nat)
    requires View(b, rank).Valid() && Anchored(b.anchors, b.d.edges, i)
    requires SccContract(View(b, rank), sccs) && Acyclic(AllExplicit(View(b, rank)))
    ensures var o := EmissionOrder(View(b, rank), sccs);
      && (Edge(0, i, By) in b.d.edges ==> Before(o, 0, i))
      && (b.anchors.bootstrap.Some? && b.anchors.bootstrap.value != i ==> Before(o, b.anchors.bootstrap.value, i))
      && (b.anchors.finalize.Some? && b.anchors.finalize.value != i ==> Before(o, i, b.anchors.finalize.value))
  {
    var g := View(b, rank);
    if Edge(0, i, By) in b.d.edges {
      ForwardBy(g, sccs, Edge(0, i, By));
    }
    if b.anchors.bootstrap.Some? && b.anchors.bootstrap.value != i {
      ForwardBy(g, sccs, Edge(b.anchors.bootstrap.value, i, By));
    }
    if b.anchors.finalize.Some? && b.anchors.finalize.value != i {
      ForwardBy(g, sccs, Edge(i, b.anchors.finalize.value, By));
    }
  }

  // ----- the functions that a type or an aggregate names

  /** `n` is emitted before `v` if and only if the two are in different components or the explicit
      edges of their component form no cycle; so it is if there are no explicit cycles. */
  ghost predicate FirstUnlessCyclic(g: Graph, n: nat, v: nat) {
    && (AlwaysBefore(g, n, v) <==> !Mutual(g, n, v) || Acyclic(g.Explicit(Component(g, n))))
    && (Acyclic(AllExplicit(g)) ==> AlwaysBefore(g, n, v))
  }

  lemma FirstUnlessCyclicBy(g: Graph, x: Edge)
    requires g.Valid() && x in g.edges && x.weight.By? && x.source != x.target
    ensures FirstUnlessCyclic(g, x.source, x.target)
  {
    assert (x.source, x.target) in AllExplicit(g);
    AlwaysBeforeIff(g, x.source, x.target);
    if Acyclic(AllExplicit(g)) {
      AcyclicSubset(g.Explicit(Component(g, x.source)), AllExplicit(g));
    }
  }

  lemma NamedFunctionFirst(input: Input, b: Built, rank: Entity -> int, e: Entity, index: nat, path: string) returns (n: nat)
    requires IsBuilt(input, b) && ItemAt(b, e, index) && Single(FunctionAt(path), true) in Wants(e)
    ensures n < |b.d.nodes| && b.d.nodes[n].Function? && b.d.nodes[n].fullPath == path
    ensures Edge(n, index, By) in b.d.edges && FirstUnlessCyclic(View(b, rank), n, index)
  {
    ViewValid(input, b, rank);
    n := RequiredConnected(input, b, e, index, FunctionAt(path));
    FunctionPathWanter(e, Single(FunctionAt(path), true));
    BuiltNodes(input, b);
    ItemNode(input, b, e, index);
    FirstUnlessCyclicBy(View(b, rank), Edge(n, index, By));
  }

  lemma FunctionWantsMember(paths: seq<string>, path: string)
    requires path in paths
    ensures Single(FunctionAt(path), true) in FunctionWants(paths)
  {
    var i :| 0 <= i < |paths| && paths[i] == path;
    assert FunctionWants(paths)[i] == Single(FunctionAt(path), true);
  }

  lemma TypeWantsFunction(e: Entity, path: string)
    requires e.Type? && path in TypeFunctions(e)
    ensures Single(FunctionAt(path), true) in Wants(e)
  {
    FunctionWantsMember(TypeFunctions(e), path);
  }

  lemma AggregateWantsFunction(e: Entity, path: string)
    requires e.Aggregate? && path in AggregateFunctions(e)
    ensures Single(FunctionAt(path), true) in Wants(e)
  {
    FunctionWantsMember(AggregateFunctions(e), path);
  }

  /** The input, output, receive and send functions of a type are connected to it, and come before it
      unless they share a component with an explicit cycle. */
  lemma TypeFunctionsFirst(input: Input, b: Built, rank: Entity -> int, e: Entity, index: nat, path: string) returns (n: nat)
    requires IsBuilt(input, b) && e.Type? && ItemAt(b, e, index) && path in TypeFunctions(e)
    ensures n < |b.d.nodes| && b.d.nodes[n].Function? && b.d.nodes[n].fullPath == path
    ensures Edge(n, index, By) in b.d.edges && FirstUnlessCyclic(View(b, rank), n, index)
  {
    TypeWantsFunction(e, path);
    n := NamedFunctionFirst(input, b, rank, e, index, path);
  }

  /** And so are the functions of an aggregate. */
  lemma AggregateFunctionsFirst(input: Input, b: Built, rank: Entity -> int, e: Entity, index: nat, path: string) returns (n: nat)
    requires IsBuilt(input, b) && e.Aggregate? && ItemAt(b, e, index) && path in AggregateFunctions(e)
    ensures n < |b.d.nodes| && b.d.nodes[n].Function? && b.d.nodes[n].fullPath == path
    ensures Edge(n, index, By) in b.d.edges && FirstUnlessCyclic(View(b, rank), n, index)
  {
    AggregateWantsFunction(e, path);
    n := NamedFunctionFirst(input, b, rank, e, index, path);
  }

  /** In terms of the input: if nothing comes before bootstrap, nothing names finalize and all
      references respect some layers, the functions of every type come before it. */
  lemma FunctionsPrecedeType(input: Input, b: Built, rank: Entity -> int, height: Entity -> int, e: Entity, index: nat, path: string)
    returns (n: nat)
    requires IsBuilt(input, b) && NothingBefore(input) && !FinalizeNamed(input) && Layered(input, height)
    requires e.Type? && ItemAt(b, e, index) && path in TypeFunctions(e)
    ensures n < |b.d.nodes| && b.d.nodes[n].Function? && b.d.nodes[n].fullPath == path
    ensures AlwaysBefore(View(b, rank), n, index)
  {
    AcyclicIfLayered(input, b, rank, height);
    n := TypeFunctionsFirst(input, b, rank, e, index, path);
  }

  /** Such a function usually takes or returns the type, and then the two depend on each other: they
      are in one component. */
  lemma TypeAndFunctionMutual(input: Input, b: Built, rank: Entity -> int, e: Entity, index: nat, n: nat, s: Slot)
    requires IsBuilt(input, b) && e.Type? && ItemAt(b, e, index) && Edge(n, index, By) in b.d.edges
    requires n < |b.d.nodes| && BuiltLookup.IsOwner(b, b.d.nodes[n], n) && s in Slots(b.d.nodes[n])
    requires s.origin.ThisExtension? && s.ident == e.typeIdent
    ensures Mutual(View(b, rank), n, index)
  {
    var g := View(b, rank);
    TypeIsTarget(b, e, index);
    SlotConnected(input, b, b.d.nodes[n], n, s, index);
    assert Edge(index, n, s.weight) in g.edges && Edge(n, index, By) in g.edges;
    assert (index, n) in g.Deps() && (n, index) in g.Deps();
    ReachArc(g.Deps(), index, n);
    ReachArc(g.Deps(), n, index);
  }

  lemma TypeIsTarget(b: Built, e: Entity, index: nat)
    requires e.Type? && ItemAt(b, e, index)
    ensures IsTarget(b.maps.decls, e.typeIdent, index)
  {
    assert IsPlace(b.maps.decls, InType(e), e.typeIdent) && NodeOf(b.maps.decls, InType(e)) == index;
  }

  // ----- first and last, whatever cycles there are

  /** Only the root and itself. */
  ghost predicate OnlyRootInto(b: Built, n: nat) {
    forall x :: x in b.d.edges && x.target == n ==> x.source == 0 || x.source == n
  }

  ghost predicate NothingOut(b: Built, n: nat) {
    forall x :: x in b.d.edges && x.source == n ==> x.target == n
  }

  /** No edge enters the root. */
  ghost predicate RootFirst(b: Built) {
    forall x :: x in b.d.edges ==> x.target != 0
  }

  lemma BuiltRootFirst(input: Input, b: Built)
    requires IsBuilt(input, b)
    ensures RootFirst(b)
  {
    forall x | x in b.d.edges ensures x.target != 0 {
      EdgeEnds(input, b, x);
    }
  }

  lemma AloneAndFirst(b: Built, rank: Entity -> int, n: nat, i: nat)
    requires View(b, rank).Valid() && RootFirst(b) && OnlyRootInto(b, n) && Edge(n, i, By) in b.d.edges && i != 0 && i != n
    ensures AlwaysBefore(View(b, rank), n, i)
  {
    var g := View(b, rank);
    assert Edge(n, i, By) in g.edges && (n, i) in AllExplicit(g);
    if Mutual(g, n, i) {
      BackwardClosed(g.Deps(), {0, n}, i, n);
    }
    AlwaysBeforeIff(g, n, i);
  }

  /** Explicit edges both ways leave the order open. */
  lemma BothWaysOpen(g: Graph, u: nat, v: nat)
    requires g.Valid() && Edge(u, v, By) in g.edges && Edge(v, u, By) in g.edges && u != v
    ensures !AlwaysBefore(g, u, v)
  {
    assert (u, v) in g.Deps() && (v, u) in g.Deps() && (u, v) in AllExplicit(g);
    ReachArc(g.Deps(), u, v);
    ReachArc(g.Deps(), v, u);
    ReachRefl(g.Deps(), u);
    var arcs := g.Explicit(Component(g, u));
    assert (u, v) in arcs && (v, u) in arcs;
    ReachArc(arcs, v, u);
    CycleFromArc(arcs, u, v);
    AlwaysBeforeIff(g, u, v);
  }

  /** `n` comes before every other tied node in every emission. */
  ghost predicate BeforeAllTied(b: Built, rank: Entity -> int, n: nat) {
    forall i: nat :: Tied(b, i) && i != n ==> AlwaysBefore(View(b, rank), n, i)
  }

  ghost predicate AfterAllTied(b: Built, rank: Entity -> int, n: nat) {
    forall i: nat :: Tied(b, i) && i != n ==> AlwaysBefore(View(b, rank), i, n)
  }

  lemma IntoBlock(input: Input, b: Built, x: Edge)
    requires IsBuilt(input, b) && x in b.d.edges && b.anchors.bootstrap == Some(x.target)
    ensures x.weight.By?
  {
    if !x.weight.By? {
      SlotOrigin(input, b, x);
      SlottedNotBy(b, x);
      BuiltAnchors(input, b);
    }
  }

  lemma FirstIfAlone(input: Input, b: Built, rank: Entity -> int, n: nat)
    requires IsBuilt(input, b) && b.anchors.bootstrap == Some(n) && OnlyRootInto(b, n)
    ensures BeforeAllTied(b, rank, n)
  {
    ViewValid(input, b, rank);
    BuiltRootFirst(input, b);
    forall i: nat | Tied(b, i) && i != n ensures AlwaysBefore(View(b, rank), n, i) {
      TiedIsAnchored(input, b, i);
      AloneAndFirst(b, rank, n, i);
    }
  }

  lemma EnteredNotFirst(input: Input, b: Built, rank: Entity -> int, x: Edge)
    requires IsBuilt(input, b) && x in b.d.edges && b.anchors.bootstrap == Some(x.target) && x.source != 0 && x.source != x.target
    ensures !BeforeAllTied(b, rank, x.target)
  {
    IntoBlock(input, b, x);
    ExplicitTied(input, b, x);
    TiedIsAnchored(input, b, x.source);
    ViewValid(input, b, rank);
    assert x == Edge(x.source, x.target, By);
    BothWaysOpen(View(b, rank), x.target, x.source);
  }

  /** Bootstrap comes before every other tied node in every emission if and only if nothing but the
      root and itself has an edge to it. */
  lemma BootstrapFirstIff(input: Input, b: Built, rank: Entity -> int, n: nat)
    requires IsBuilt(input, b) && b.anchors.bootstrap == Some(n)
    ensures BeforeAllTied(b, rank, n) <==> OnlyRootInto(b, n)
  {
    if OnlyRootInto(b, n) {
      FirstIfAlone(input, b, rank, n);
    } else {
      var x :| x in b.d.edges && x.target == n && x.source != 0 && x.source != n;
      EnteredNotFirst(input, b, rank, x);
    }
  }

  lemma ClearIsAlone(input: Input, b: Built, n: nat)
    requires IsBuilt(input, b) && b.anchors.bootstrap == Some(n) && BootstrapClear(b)
    ensures OnlyRootInto(b, n)
  {
    forall x | x in b.d.edges && x.target == n ensures x.source == 0 || x.source == n {
      IntoBlock(input, b, x);
    }
  }

  /** In terms of the input: so it does if it requires nothing, is in no schema's module and is not
      finalize too beside something else, whatever cycles there are. */
  lemma BootstrapFirst(input: Input, b: Built, rank: Entity -> int, n: nat)
    requires IsBuilt(input, b) && b.anchors.bootstrap == Some(n) && NothingBefore(input)
    ensures BeforeAllTied(b, rank, n)
  {
    BootstrapClearIff(input, b);
    ClearIsAlone(input, b, n);
    BootstrapFirstIff(input, b, rank, n);
  }

  lemma AloneAndLast(b: Built, rank: Entity -> int, n: nat, i: nat)
    requires View(b, rank).Valid() && Edge(i, n, By) in b.d.edges && i != n
    requires NothingOut(b, n) || Acyclic(View(b, rank).Explicit(Component(View(b, rank), n)))
    ensures AlwaysBefore(View(b, rank), i, n)
  {
    var g := View(b, rank);
    assert Edge(i, n, By) in g.edges && (i, n) in AllExplicit(g);
    if Mutual(g, i, n) {
      if NothingOut(b, n) {
        ReachStays(g.Deps(), n, i);
      } else {
        ComponentSame(g, i, n);
      }
    }
    AlwaysBeforeIff(g, i, n);
  }

  lemma CyclicNotLast(b: Built, rank: Entity -> int, x: Edge)
    requires View(b, rank).Valid() && x in b.d.edges && Edge(x.target, x.source, By) in b.d.edges && x.source != x.target
    requires !Acyclic(View(b, rank).Explicit(Component(View(b, rank), x.source)))
    ensures !AlwaysBefore(View(b, rank), x.target, x.source)
  {
    var g := View(b, rank);
    assert x in g.edges && Edge(x.target, x.source, By) in g.edges;
    assert (x.source, x.target) in g.Deps() && (x.target, x.source) in g.Deps() && (x.target, x.source) in AllExplicit(g);
    ReachArc(g.Deps(), x.source, x.target);
    ReachArc(g.Deps(), x.target, x.source);
    ComponentSame(g, x.source, x.target);
    AlwaysBeforeIff(g, x.target, x.source);
  }

  /** The target of any edge is tied. */
  lemma TargetTied(input: Input, b: Built, x: Edge)
    requires IsBuilt(input, b) && x in b.d.edges
    ensures Tied(b, x.target)
  {
    if x.weight.By? {
      ExplicitTied(input, b, x);
    } else {
      EdgeEnds(input, b, x);
      SlotOrigin(input, b, x);
      SlottedNotBy(b, x);
    }
  }

  lemma LastIfAlone(input: Input, b: Built, rank: Entity -> int, n: nat)
    requires IsBuilt(input, b) && b.anchors.finalize == Some(n)
    requires NothingOut(b, n) || Acyclic(View(b, rank).Explicit(Component(View(b, rank), n)))
    ensures AfterAllTied(b, rank, n)
  {
    ViewValid(input, b, rank);
    forall i: nat | Tied(b, i) && i != n ensures AlwaysBefore(View(b, rank), i, n) {
      TiedIsAnchored(input, b, i);
      AloneAndLast(b, rank, n, i);
    }
  }

  lemma LeftNotLast(input: Input, b: Built, rank: Entity -> int, x: Edge)
    requires IsBuilt(input, b) && x in b.d.edges && b.anchors.finalize == Some(x.source) && x.target != x.source
    requires !Acyclic(View(b, rank).Explicit(Component(View(b, rank), x.source)))
    ensures !AfterAllTied(b, rank, x.source)
  {
    TargetTied(input, b, x);
    TiedIsAnchored(input, b, x.target);
    ViewValid(input, b, rank);
    CyclicNotLast(b, rank, x);
  }

  /** Finalize comes after every other tied node in every emission if and only if nothing but itself
      has an edge from it, or the explicit edges of its component form no cycle. */
  lemma FinalizeLastIff(input: Input, b: Built, rank: Entity -> int, n: nat)
    requires IsBuilt(input, b) && b.anchors.finalize == Some(n)
    ensures AfterAllTied(b, rank, n) <==>
      NothingOut(b, n) || Acyclic(View(b, rank).Explicit(Component(View(b, rank), n)))
  {
    if NothingOut(b, n) || Acyclic(View(b, rank).Explicit(Component(View(b, rank), n))) {
      LastIfAlone(input, b, rank, n);
    } else {
      var x :| x in b.d.edges && x.source == n && x.target != n;
      LeftNotLast(input, b, rank, x);
    }
  }

  /** A function or an aggregate uses a type that the finalize block declares. */
  ghost predicate FinalizeUsed(input: Input) {
    exists u, s, f :: (u in input.externs || u in input.aggregates) && s in Slots(u) && s.origin.ThisExtension?
      && IsFinalize(input, f) && f.TypeIdentMatches(s.ident)
  }

  lemma UserListed(input: Input, nodes: seq<Entity>, i: nat)
    requires input.Valid() && NodesKnown(input, nodes) && i < |nodes| && (nodes[i].Function? || nodes[i].Aggregate?)
    ensures nodes[i] in input.externs || nodes[i] in input.aggregates
  {
    NodeListed(input, nodes, i);
  }

  lemma NoSlotFromFinalize(input: Input, b: Built, x: Edge)
    requires BuiltLookup.TypesIndexed(input, b) && Placeholders(b.d.nodes, b.d.builtins) && AnchorsKnown(input, b)
    requires b.anchors.finalize == Some(x.source) && Slotted(b, x)
    ensures FinalizeUsed(input)
  {
    MarksAre(input, b, x.source);
    NodeListed(input, b.d.nodes, x.source);
    SlottedNotBy(b, x);
    UserListed(input, b.d.nodes, x.target);
    var s :| s in Slots(b.d.nodes[x.target]) && s.weight == x.weight && SlotSource(b.maps.decls, b.d.builtins, s, x.source);
    BuiltLookup.SourceNode(input, b, s, x.source);
    assert IsFinalize(input, b.d.nodes[x.source]);
  }

  lemma OutOfFinalize(input: Input, b: Built, n: nat)
    requires IsBuilt(input, b) && b.anchors.finalize == Some(n) && FinalizeClear(b) && !FinalizeUsed(input)
    ensures NothingOut(b, n)
  {
    BuiltLookup.BuiltTypes(input, b);
    BuiltAnchors(input, b);
    forall x | x in b.d.edges ensures x.source != n {
      if x.source == n {
        SlotOrigin(input, b, x);
        NoSlotFromFinalize(input, b, x);
      }
    }
  }

  /** In terms of the input: so it does if nothing names it or uses its types and it is not bootstrap
      too beside something else, whatever cycles there are. */
  lemma FinalizeLast(input: Input, b: Built, rank: Entity -> int, n: nat)
    requires IsBuilt(input, b) && b.anchors.finalize == Some(n)
    requires !Torn(input) && !FinalizeNamed(input) && !FinalizeUsed(input)
    ensures AfterAllTied(b, rank, n)
  {
    FinalizeClearIf(input, b);
    OutOfFinalize(input, b, n);
    FinalizeLastIff(input, b, rank, n);
  }

  // ----- slices

  lemma NeededInSlice(g: Graph, sccs: seq<seq<nat>>, targets: seq<nat>, keep: set<nat>, n: nat, t: nat)
    requires g.Valid() && SccContract(g, sccs) && t in targets && (forall u :: u in targets ==> u < |g.ranks|)
    requires t !in g.roots && n !in g.roots && (n, t) in g.Deps()
    requires forall u :: u in keep <==> Needed(g, targets, u)
    ensures n in Kept(g, EmissionOrder(g, sccs), keep) && t in Kept(g, EmissionOrder(g, sccs), keep)
  {
    SliceCorrect(g, sccs, targets, keep);
    ReachRefl(g.Deps(), t);
    assert Needed(g, targets, t);
  }

  /** A slice of the extension for any tied target contains the bootstrap block. */
  lemma BootstrapInSlice(input: Input, b: Built, rank: Entity -> int, sccs: seq<seq<nat>>,
                         targets: seq<nat>, keep: set<nat>, t: nat)
    requires IsBuilt(input, b) && SccContract(View(b, rank), sccs)
    requires (forall u :: u in targets ==> u < |b.d.nodes|) && t in targets && Tied(b, t)
    requires forall n :: n in keep <==> Needed(View(b, rank), targets, n)
    requires b.anchors.bootstrap.Some? && b.anchors.bootstrap.value != t
    ensures b.anchors.bootstrap.value in Kept(View(b, rank), EmissionOrder(View(b, rank), sccs), keep)
  {
    ViewValid(input, b, rank);
    TiedIsAnchored(input, b, t);
    BootstrapNotRoot(input, b);
    EdgeInSlice(b, rank, sccs, targets, keep, Edge(b.anchors.bootstrap.value, t, By));
  }

  lemma BootstrapNotRoot(input: Input, b: Built)
    requires IsBuilt(input, b)
    ensures b.anchors.bootstrap != Some(0)
  {
    BuiltAnchors(input, b);
    AnchorEntitied(input, b);
  }

  lemma EdgeInSlice(b: Built, rank: Entity -> int, sccs: seq<seq<nat>>, targets: seq<nat>, keep: set<nat>, x: Edge)
    requires View(b, rank).Valid() && SccContract(View(b, rank), sccs) && x in b.d.edges && x.source != 0 && x.target != 0
    requires (forall u :: u in targets ==> u < |b.d.nodes|) && x.target in targets
    requires forall n :: n in keep <==> Needed(View(b, rank), targets, n)
    ensures x.source in Kept(View(b, rank), EmissionOrder(View(b, rank), sccs), keep)
  {
    var g := View(b, rank);
    assert x in g.edges && (x.source, x.target) in g.Deps();
    NeededInSlice(g, sccs, targets, keep, x.source, x.target);
  }
}

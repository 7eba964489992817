/** What holds of every built graph, edge by edge and connection by connection. */
module BuiltFacts {
  import opened ComponentOrder
  import opened Connections
  import opened Drafts
  import opened Entities
  import opened TypeTargets
  import opened Connect
  import opened BuiltGraph
  import opened Wrappers

  // ----- nodes

  lemma BuiltNodes(input: Input, b: Built)
    requires IsBuilt(input, b)
    ensures input.Valid() && NodesOk(input, b) && TypesResolve(input, b.maps.decls)
  {
    var run :| IsRun(input, b, run);
  }

  /** An entity is at its node. */
  ghost predicate ItemAt(b: Built, e: Entity, index: nat) {
    e in b.maps.Of(e) && b.maps.Of(e)[e] == index
  }

  lemma ItemNode(input: Input, b: Built, e: Entity, index: nat)
    requires MapsOk(input, b.d, b.maps) && ItemAt(b, e, index)
    ensures index < |b.d.nodes| && b.d.nodes[index] == e
  {
  }

  /** Entities of every kind in the input are at a node. */
  lemma ItemIndex(input: Input, b: Built, e: Entity)
    requires MapsOk(input, b.d, b.maps)
    ensures e in input.Of(e) <==> e in b.maps.Of(e)
  {
  }

  /** A hash map points at nodes that hold its keys. */
  ghost predicate PointsIn(nodes: seq<Entity>, mapped: Mapped) {
    forall e :: e in mapped ==> mapped[e] < |nodes| && nodes[mapped[e]] == e
  }

  lemma HitNode(nodes: seq<Entity>, mapped: Mapped, q: Query, n: nat)
    requires PointsIn(nodes, mapped) && n in HitsIn(mapped, q)
    ensures n < |nodes| && Hits(q, nodes[n])
  {
    var e :| e in mapped && Hits(q, e) && mapped[e] == n;
  }

  lemma {:induction false} FirstHitIn(stages: seq<Mapped>, q: Query, n: nat) returns (k: nat)
    requires n in FirstHits(stages, q)
    ensures k < |stages| && n in HitsIn(stages[k], q)
  {
    if HitsIn(stages[0], q) != {} {
      k := 0;
    } else {
      var j := FirstHitIn(stages[1..], q, n);
      k := j + 1;
    }
  }

  ghost predicate AllPointIn(nodes: seq<Entity>, stages: seq<Mapped>) {
    forall k :: 0 <= k < |stages| ==> PointsIn(nodes, stages[k])
  }

  lemma StagesPointIn(input: Input, b: Built, q: Query)
    requires MapsOk(input, b.d, b.maps)
    ensures AllPointIn(b.d.nodes, Stages(b.maps, q))
  {
    var m, nodes := b.maps, b.d.nodes;
    assert PointsIn(nodes, m.decls.sqls) && PointsIn(nodes, m.decls.types) && PointsIn(nodes, m.decls.enums);
    assert PointsIn(nodes, m.schemas) && PointsIn(nodes, m.externs) && PointsIn(nodes, m.hashes) && PointsIn(nodes, m.triggers);
  }

  /** What a search finds is a node that the query hits. */
  lemma FoundNode(nodes: seq<Entity>, m: Maps, q: Query, n: nat)
    requires AllPointIn(nodes, Stages(m, q)) && (n in Found(m, q) || n in AllHits(m, q))
    ensures n < |nodes| && Hits(q, nodes[n])
  {
    if n in AllHits(m, q) {
      HitNode(nodes, Stages(m, q)[0], q, n);
    } else {
      var k := FirstHitIn(Stages(m, q), q, n);
      HitNode(nodes, Stages(m, q)[k], q, n);
    }
  }

  // ----- where an edge comes from

  ghost predicate RootsSchema(b: Built, x: Edge) {
    exists e :: e in b.maps.schemas && x == Edge(0, b.maps.schemas[e], By)
  }

  ghost predicate Wanted(b: Built, x: Edge) {
    exists e, index, w :: ItemAt(b, e, index) && w in Wants(e) && Offers(b.maps, b.d.builtins, index, w, x)
  }

  lemma RootedMember(mapped: Mapped, es: seq<Edge>, x: Edge)
    requires Rooted(0, mapped, es)
    ensures x in es <==> exists e :: e in mapped && x == Edge(0, mapped[e], By)
  {
    var order :| Visits(order, mapped) && es == RootRun(0, mapped, order);
    RootRunMember(0, mapped, order, x);
  }

  lemma AddedMember(b: Built, added: seq<Edge>, x: Edge)
    requires AllConnected(b.maps, b.d.builtins, added) && x in added
    ensures Wanted(b, x)
  {
    var items :| ItemsBefore(b.maps, 8, items) && Connects(b.maps, b.d.builtins, items, added);
    CarriedOffered(b.maps, b.d.builtins, items, added, x);
    var e, index, w :| (e, index) in items && w in Wants(e) && Offers(b.maps, b.d.builtins, index, w, x);
    assert ItemAt(b, e, index);
  }

  lemma WantsPhase(e: Entity)
    ensures Wants(e) != [] ==> PhaseOf(e) < 8
  {
  }

  lemma AddedMet(b: Built, added: seq<Edge>, edges: seq<Edge>, e: Entity, index: nat, w: Want)
    requires AllConnected(b.maps, b.d.builtins, added) && (forall x :: x in added ==> x in edges)
    requires ItemAt(b, e, index) && w in Wants(e)
    ensures Met(b.maps, b.d.builtins, edges, index, w)
  {
    var items :| ItemsBefore(b.maps, 8, items) && Connects(b.maps, b.d.builtins, items, added);
    WantsPhase(e);
    assert (e, index) in items;
    CarriedMet(b.maps, b.d.builtins, items, added, edges, e, index, w);
  }

  ghost predicate FirstEdge(b: Built, x: Edge) {
    Brought(b.anchors, b.maps.decls.sqls, b.d.nodes, x)
  }

  /** Every edge is a base edge of its node, an edge from the root to a schema, or an edge that
      some entity wanted. */
  lemma EdgeOrigin(input: Input, b: Built, x: Edge)
    requires IsBuilt(input, b) && x in b.d.edges
    ensures FirstEdge(b, x) || RootsSchema(b, x) || Wanted(b, x)
  {
    var run :| IsRun(input, b, run);
    RootedMember(b.maps.schemas, run.roots, x);
    if x in run.added {
      AddedMember(b, run.added, x);
    }
  }

  /** The edges of the second phase are the last. */
  lemma EdgeTail(input: Input, b: Built) returns (first: seq<Edge>, roots: seq<Edge>, added: seq<Edge>)
    requires IsBuilt(input, b)
    ensures b.d.edges == first + (roots + added) && Rooted(0, b.maps.schemas, roots)
    ensures AllConnected(b.maps, b.d.builtins, added)
  {
    var run :| IsRun(input, b, run);
    first, roots, added := FirstDraft(input, b.anchors, b.maps.decls.sqls, run.sqlOrder).edges, run.roots, run.added;
  }

  lemma FirstEdgesStay(input: Input, b: Built, x: Edge)
    requires IsBuilt(input, b) && (FirstEdge(b, x) || RootsSchema(b, x))
    ensures x in b.d.edges
  {
    var run :| IsRun(input, b, run);
    RootedMember(b.maps.schemas, run.roots, x);
  }

  /** Every connection of every entity has been made. */
  lemma WantMet(input: Input, b: Built, e: Entity, index: nat, w: Want)
    requires IsBuilt(input, b) && ItemAt(b, e, index) && w in Wants(e)
    ensures Met(b.maps, b.d.builtins, b.d.edges, index, w)
  {
    var run :| IsRun(input, b, run);
    AddedMet(b, run.added, b.d.edges, e, index, w);
  }

  // ----- the shape of wanted edges, in terms of the nodes

  /** The target wants something that the source is. */
  ghost predicate Links(nodes: seq<Entity>, x: Edge) {
    && x.source < |nodes| && x.target < |nodes|
    && exists w :: w in Wants(nodes[x.target]) && (w.Single? || w.Every?) && Hits(w.query, nodes[x.source])
  }

  /** The source wants something after it that the target is. */
  ghost predicate LinksOut(nodes: seq<Entity>, x: Edge) {
    && x.source < |nodes| && x.target < |nodes|
    && exists w :: w in Wants(nodes[x.source]) && w.EveryOut? && Hits(w.query, nodes[x.target])
  }

  /** The target has a type slot for the source. */
  ghost predicate Slotted(b: Built, x: Edge) {
    && x.target < |b.d.nodes|
    && exists s :: s in Slots(b.d.nodes[x.target]) && s.weight == x.weight && SlotSource(b.maps.decls, b.d.builtins, s, x.source)
  }

  lemma OfferShape(input: Input, b: Built, e: Entity, index: nat, w: Want, x: Edge)
    requires MapsOk(input, b.d, b.maps) && ItemAt(b, e, index) && w in Wants(e)
    requires Offers(b.maps, b.d.builtins, index, w, x)
    ensures if w.Typed? then Slotted(b, x) else x.weight.By? && (Links(b.d.nodes, x) || LinksOut(b.d.nodes, x))
  {
    ItemNode(input, b, e, index);
    if w.Typed? {
      TypedIsSlot(e, w.slot);
    } else {
      StagesPointIn(input, b, w.query);
      FoundNode(b.d.nodes, b.maps, w.query, if w.EveryOut? then x.target else x.source);
    }
  }

  lemma WantedShape(input: Input, b: Built, x: Edge)
    requires MapsOk(input, b.d, b.maps) && Wanted(b, x)
    ensures Slotted(b, x) || (x.weight.By? && (Links(b.d.nodes, x) || LinksOut(b.d.nodes, x)))
  {
    var e, index, w :| ItemAt(b, e, index) && w in Wants(e) && Offers(b.maps, b.d.builtins, index, w, x);
    OfferShape(input, b, e, index, w, x);
  }

  // ----- type slots never carry explicit edges

  lemma {:induction false} SlotsOfWeight(uses: seq<TypeUse>, weight: Requires)
    ensures forall s :: s in SlotsOf(uses, weight) ==> s.weight == weight
  {
    if uses != [] {
      SlotsOfWeight(uses[..|uses| - 1], weight);
    }
  }

  lemma FunctionWeights(e: Entity)
    requires e.Function?
    ensures forall s :: s in Slots(e) ==> !s.weight.By?
  {
    SlotsOfWeight(Visible(e.args), ByArg);
    if e.ret.Iterated? {
      SlotsOfWeight(e.ret.tys, ByReturn);
    }
  }

  lemma AggregateWeights(e: Entity)
    requires e.Aggregate?
    ensures forall s :: s in Slots(e) ==> !s.weight.By?
  {
    SlotsOfWeight(e.aggArgs, ByArg);
    SlotsOfWeight(if e.directArgs.Some? then e.directArgs.value else [], ByArg);
  }

  lemma SlottedNotBy(b: Built, x: Edge)
    requires Slotted(b, x)
    ensures !x.weight.By? && (b.d.nodes[x.target].Function? || b.d.nodes[x.target].Aggregate?)
  {
    var e := b.d.nodes[x.target];
    if e.Function? {
      FunctionWeights(e);
    } else if e.Aggregate? {
      AggregateWeights(e);
    }
  }

  /** Where an explicit edge comes from. */
  lemma ExplicitOrigin(input: Input, b: Built, x: Edge)
    requires IsBuilt(input, b) && x in b.d.edges && x.weight.By?
    ensures FirstEdge(b, x) || RootsSchema(b, x) || Links(b.d.nodes, x) || LinksOut(b.d.nodes, x)
  {
    EdgeOrigin(input, b, x);
    if Wanted(b, x) {
      BuiltNodes(input, b);
      WantedShape(input, b, x);
      if Slotted(b, x) {
        SlottedNotBy(b, x);
      }
    }
  }

  /** Any other edge is that of a type slot. */
  lemma SlotOrigin(input: Input, b: Built, x: Edge)
    requires IsBuilt(input, b) && x in b.d.edges && !x.weight.By?
    ensures Slotted(b, x)
  {
    EdgeOrigin(input, b, x);
    FirstIsBy(b, x);
    BuiltNodes(input, b);
    WantedShape(input, b, x);
  }

  /** The first phase adds explicit edges only. */
  lemma FirstIsBy(b: Built, x: Edge)
    ensures FirstEdge(b, x) ==> x.weight.By?
  {
  }

  // ----- connections that are there

  /** Every slot has its edge. */
  lemma SlotConnected(input: Input, b: Built, e: Entity, index: nat, s: Slot, n: nat)
    requires IsBuilt(input, b) && ItemAt(b, e, index) && s in Slots(e) && SlotSource(b.maps.decls, b.d.builtins, s, n)
    ensures Edge(n, index, s.weight) in b.d.edges
  {
    TypedIsSlot(e, s);
    WantMet(input, b, e, index, Typed(s));
    BuiltNodes(input, b);
    SlotMet(b.maps, b.d.builtins, b.d.edges, index, s, n);
  }

  lemma SlotMet(m: Maps, builtins: map<string, nat>, edges: seq<Edge>, index: nat, s: Slot, n: nat)
    requires Met(m, builtins, edges, index, Typed(s)) && Unambiguous(m.decls) && SlotSource(m.decls, builtins, s, n)
    ensures Edge(n, index, s.weight) in edges
  {
    var es: seq<Edge> :| Fulfils(m, builtins, index, Typed(s), es) && forall x :: x in es ==> x in edges;
    SlotSourceUnique(m.decls, builtins, s, es[0].source, n);
    assert es[0] in es;
  }

  lemma SingleMet(m: Maps, builtins: map<string, nat>, edges: seq<Edge>, index: nat, q: Query, required: bool) returns (n: nat)
    requires Met(m, builtins, edges, index, Single(q, required)) && Found(m, q) != {}
    ensures n in Found(m, q) && Edge(n, index, By) in edges
  {
    var es: seq<Edge> :| Fulfils(m, builtins, index, Single(q, required), es) && forall x :: x in es ==> x in edges;
    n := es[0].source;
    assert es[0] in es;
  }

  lemma RequiredFound(input: Input, b: Built, e: Entity, q: Query)
    requires AllLinked(input) && MapsOk(input, b.d, b.maps) && e in b.maps.Of(e) && Single(q, true) in Wants(e)
    ensures Found(b.maps, q) != {}
  {
    ItemIndex(input, b, e);
    KeysAgree(input, b.d, b.maps);
    FindableByKeys(b.maps, Keys(input), e);
    assert Findable(b.maps, Single(q, true));
  }

  /** A required connection leads from a node that the query hits. */
  lemma RequiredConnected(input: Input, b: Built, e: Entity, index: nat, q: Query) returns (n: nat)
    requires IsBuilt(input, b) && ItemAt(b, e, index) && Single(q, true) in Wants(e)
    ensures n < |b.d.nodes| && Hits(q, b.d.nodes[n]) && Edge(n, index, By) in b.d.edges
  {
    BuiltNodes(input, b);
    RequiredFound(input, b, e, q);
    WantMet(input, b, e, index, Single(q, true));
    n := SingleMet(b.maps, b.d.builtins, b.d.edges, index, q, true);
    StagesPointIn(input, b, q);
    FoundNode(b.d.nodes, b.maps, q, n);
  }

  // ----- ends of edges

  /** The root, an anchor or an entity: nothing that is a placeholder. */
  ghost predicate Entitied(b: Built, n: nat) {
    n < |b.d.nodes| && !b.d.nodes[n].BuiltinType?
  }

  ghost predicate AnchorsKnown(input: Input, b: Built) {
    input.Valid() && NodesKnown(input, b.d.nodes) && AnchorsOk(b.d.nodes, b.maps.decls.sqls, b.anchors)
  }

  lemma BuiltAnchors(input: Input, b: Built)
    requires IsBuilt(input, b)
    ensures AnchorsKnown(input, b)
  {
    BuiltNodes(input, b);
  }

  /** The ends of an edge that node `k` brings. */
  lemma BringsEnds(a: Anchors, sqls: Mapped, e: Entity, k: nat, x: Edge)
    requires x in EdgesOf(a, sqls, e, k)
    ensures !e.ExtensionRoot? && !e.BuiltinType?
    ensures (x.target == k && (x.source == a.root || Some(x.source) == a.bootstrap)) || (x.source == k && Some(x.target) == a.finalize)
  {
  }

  lemma AnchorEntitied(input: Input, b: Built)
    requires AnchorsKnown(input, b)
    ensures b.anchors.root == 0 && Entitied(b, 0)
    ensures b.anchors.bootstrap.Some? ==> Entitied(b, b.anchors.bootstrap.value) && b.anchors.bootstrap.value != 0
    ensures b.anchors.finalize.Some? ==> Entitied(b, b.anchors.finalize.value) && b.anchors.finalize.value != 0
  {
  }

  lemma FirstEdgeEnds(input: Input, b: Built, x: Edge)
    requires AnchorsKnown(input, b) && FirstEdge(b, x)
    ensures Entitied(b, x.source) && Entitied(b, x.target) && x.target != 0
  {
    var k: nat :| Brings(b.anchors, b.maps.decls.sqls, b.d.nodes, k, x);
    BringsEnds(b.anchors, b.maps.decls.sqls, b.d.nodes[k], k, x);
    AnchorEntitied(input, b);
    assert k != 0;
  }

  lemma RootsSchemaEnds(input: Input, b: Built, x: Edge)
    requires NodesKnown(input, b.d.nodes) && input.Valid() && MappedIn(b.d.nodes, input.schemas, b.maps.schemas) && RootsSchema(b, x)
    ensures Entitied(b, x.source) && Entitied(b, x.target) && x.target != 0 && b.d.nodes[x.target].Schema?
  {
  }

  lemma HitKind(q: Query, e: Entity)
    requires Hits(q, e)
    ensures !e.BuiltinType? && !e.ExtensionRoot?
  {
  }

  lemma WanterKind(e: Entity)
    requires Wants(e) != []
    ensures !e.BuiltinType? && !e.ExtensionRoot?
  {
  }

  lemma LinkEnds(nodes: seq<Entity>, x: Edge)
    requires Links(nodes, x) || LinksOut(nodes, x)
    ensures !nodes[x.source].BuiltinType? && !nodes[x.target].BuiltinType?
    ensures !nodes[x.source].ExtensionRoot? && !nodes[x.target].ExtensionRoot?
  {
    if Links(nodes, x) {
      var w :| w in Wants(nodes[x.target]) && (w.Single? || w.Every?) && Hits(w.query, nodes[x.source]);
      HitKind(w.query, nodes[x.source]);
      WanterKind(nodes[x.target]);
    } else {
      var w :| w in Wants(nodes[x.source]) && w.EveryOut? && Hits(w.query, nodes[x.target]);
      HitKind(w.query, nodes[x.target]);
      WanterKind(nodes[x.source]);
    }
  }

  /** An explicit edge touches no placeholder and does not enter the root. */
  lemma ExplicitEnds(input: Input, b: Built, x: Edge)
    requires IsBuilt(input, b) && x in b.d.edges && x.weight.By?
    ensures Entitied(b, x.source) && Entitied(b, x.target) && x.target != 0
  {
    ExplicitOrigin(input, b, x);
    BuiltNodes(input, b);
    if FirstEdge(b, x) {
      FirstEdgeEnds(input, b, x);
    } else if RootsSchema(b, x) {
      RootsSchemaEnds(input, b, x);
    } else {
      LinkEnds(b.d.nodes, x);
    }
  }
}

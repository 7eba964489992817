/** When the explicit edges of a built graph form a cycle, so that no order can honour them all. */
module ExplicitCycles {
  import opened Walks
  import opened ComponentOrder
  import opened Connections
  import opened Emission
  import opened Drafts
  import opened Entities
  import opened Build
  import opened Connect
  import opened BuiltGraph
  import opened BuiltFacts
  import opened TiedNodes
  import opened BuiltView
  import opened Wrappers
  import AcceptedInputs

  // ----- what an input may say of its marked blocks

  /** A block is both bootstrap and finalize. */
  ghost predicate BothMarked(input: Input) {
    exists e :: e in input.sqls && e.CustomSql? && e.bootstrap && e.finalize
  }

  /** The bootstrap block is in the module of a schema. */
  ghost predicate BootstrapInSchema(input: Input) {
    exists e, s :: e in input.sqls && e.CustomSql? && e.bootstrap && s in input.schemas && s.Schema? && s.modulePath == e.modulePath
  }

  /** The bootstrap block requires something. */
  ghost predicate BootstrapRequires(input: Input) {
    exists e :: e in input.sqls && e.CustomSql? && e.bootstrap && e.needs != []
  }

  /** A block is both bootstrap and finalize, and there is something else. */
  ghost predicate Torn(input: Input) {
    BothMarked(input) && |input.All()| > 2
  }

  /** Nothing but the root is meant to come before the bootstrap block. */
  ghost predicate NothingBefore(input: Input) {
    !Torn(input) && !BootstrapInSchema(input) && !BootstrapRequires(input)
  }

  /** A `requires` or a support function names the finalize block. */
  ghost predicate FinalizeNamed(input: Input) {
    exists u, w, f :: u in input.Of(u) && w in Wants(u) && w.Single? && IsFinalize(input, f) && w.query == Positioned(Named(f.name))
  }

  ghost predicate IsFinalize(input: Input, f: Entity) {
    f in input.sqls && f.CustomSql? && f.finalize
  }

  /** No other block has the name of the finalize block. */
  ghost predicate OwnName(input: Input) {
    forall f, g :: IsFinalize(input, f) && g in input.sqls && g.CustomSql? && g.name == f.name ==> g == f
  }

  // ----- what the built graph has at its marked blocks

  /** Explicit edges into bootstrap come from the root. */
  ghost predicate BootstrapClear(b: Built) {
    forall x :: x in b.d.edges && x.weight.By? && b.anchors.bootstrap == Some(x.target) ==> x.source == 0
  }

  /** No explicit edge leaves finalize. */
  ghost predicate FinalizeClear(b: Built) {
    forall x :: x in b.d.edges && x.weight.By? ==> b.anchors.finalize != Some(x.source)
  }

  /** One end asked for the other. */
  ghost predicate Linked(b: Built, x: Edge) {
    Links(b.d.nodes, x) || LinksOut(b.d.nodes, x)
  }

  ghost function LinkArcs(b: Built): Arcs {
    set x | x in b.d.edges && x.weight.By? && Linked(b, x) :: (x.source, x.target)
  }

  // ----- a touched block is on a cycle

  lemma TwoArcs(g: Graph, u: nat, v: nat)
    requires Edge(u, v, By) in g.edges && Edge(v, u, By) in g.edges
    ensures !Acyclic(AllExplicit(g))
  {
    var arcs := AllExplicit(g);
    assert (u, v) in arcs && (v, u) in arcs;
    ReachArc(arcs, v, u);
    CycleFromArc(arcs, u, v);
  }

  lemma EnteredIsCycle(input: Input, b: Built, rank: Entity -> int, x: Edge)
    requires IsBuilt(input, b) && x in b.d.edges && x.weight.By? && b.anchors.bootstrap == Some(x.target) && x.source != 0
    ensures !Acyclic(AllExplicit(View(b, rank)))
  {
    ExplicitTied(input, b, x);
    TiedIsAnchored(input, b, x.source);
    assert x == Edge(x.source, x.target, By);
    TwoArcs(View(b, rank), x.source, x.target);
  }

  lemma LeftIsCycle(input: Input, b: Built, rank: Entity -> int, x: Edge)
    requires IsBuilt(input, b) && x in b.d.edges && x.weight.By? && b.anchors.finalize == Some(x.source)
    ensures !Acyclic(AllExplicit(View(b, rank)))
  {
    ExplicitTied(input, b, x);
    TiedIsAnchored(input, b, x.target);
    assert x == Edge(x.source, x.target, By);
    TwoArcs(View(b, rank), x.source, x.target);
  }

  lemma TouchedIsCycle(input: Input, b: Built, rank: Entity -> int)
    requires IsBuilt(input, b) && !(BootstrapClear(b) && FinalizeClear(b))
    ensures !Acyclic(AllExplicit(View(b, rank)))
  {
    if !BootstrapClear(b) {
      var x :| x in b.d.edges && x.weight.By? && b.anchors.bootstrap == Some(x.target) && x.source != 0;
      EnteredIsCycle(input, b, rank, x);
    } else {
      var x :| x in b.d.edges && x.weight.By? && b.anchors.finalize == Some(x.source);
      LeftIsCycle(input, b, rank, x);
    }
  }

  // ----- any other cycle consists of links

  /** Explicit edges that touch neither the root nor a marked block are links. */
  ghost predicate Shaped(b: Built) {
    forall x :: x in b.d.edges && x.weight.By? ==> ShapedAt(b, x)
  }

  ghost predicate ShapedAt(b: Built, x: Edge) {
    && x.target != 0
    && (x.source == 0 || b.anchors.bootstrap == Some(x.source) || b.anchors.finalize == Some(x.target) || Linked(b, x))
  }

  lemma FirstShape(input: Input, b: Built, x: Edge)
    requires AnchorsKnown(input, b) && FirstEdge(b, x)
    ensures x.source == 0 || b.anchors.bootstrap == Some(x.source) || b.anchors.finalize == Some(x.target)
  {
    var k: nat :| Brings(b.anchors, b.maps.decls.sqls, b.d.nodes, k, x);
    BringsEnds(b.anchors, b.maps.decls.sqls, b.d.nodes[k], k, x);
  }

  lemma EdgeShaped(input: Input, b: Built, x: Edge)
    requires IsBuilt(input, b) && x in b.d.edges && x.weight.By?
    ensures ShapedAt(b, x)
  {
    ExplicitEnds(input, b, x);
    ExplicitOrigin(input, b, x);
    if FirstEdge(b, x) {
      BuiltAnchors(input, b);
      FirstShape(input, b, x);
    }
  }

  lemma BuiltShaped(input: Input, b: Built)
    requires IsBuilt(input, b)
    ensures Shaped(b)
  {
    forall x | x in b.d.edges && x.weight.By? ensures ShapedAt(b, x) {
      EdgeShaped(input, b, x);
    }
  }

  ghost predicate ClosedWalk(r: Arcs, p: seq<nat>) {
    Walk(r, p) && |p| >= 2 && p[0] == p[|p| - 1]
  }

  /** A node on a closed walk has a step to it and a step from it there. */
  lemma OnClosedWalk(r: Arcs, p: seq<nat>, i: nat) returns (u: nat, v: nat)
    requires ClosedWalk(r, p) && i < |p|
    ensures u in p && (u, p[i]) in r && v in p && (p[i], v) in r
  {
    u := if i == 0 then p[|p| - 2] else p[i - 1];
    v := if i == |p| - 1 then p[1] else p[i + 1];
    assert (p[|p| - 2], p[|p| - 1]) in r && (p[0], p[1]) in r;
    assert i > 0 ==> (p[i - 1], p[i]) in r;
    assert i < |p| - 1 ==> (p[i], p[i + 1]) in r;
  }

  lemma ArcEdge(b: Built, rank: Entity -> int, u: nat, v: nat)
    requires (u, v) in AllExplicit(View(b, rank))
    ensures Edge(u, v, By) in b.d.edges
  {
    var x :| x in b.d.edges && x.weight.By? && (x.source, x.target) == (u, v);
    assert x == Edge(u, v, By);
  }

  lemma WalkAvoidsRoot(b: Built, rank: Entity -> int, p: seq<nat>)
    requires Shaped(b) && ClosedWalk(AllExplicit(View(b, rank)), p)
    ensures 0 !in p
  {
    forall i | 0 <= i < |p| ensures p[i] != 0 {
      var u, v := OnClosedWalk(AllExplicit(View(b, rank)), p, i);
      ArcEdge(b, rank, u, p[i]);
    }
  }

  lemma WalkAvoidsMarked(b: Built, rank: Entity -> int, p: seq<nat>, i: nat)
    requires Shaped(b) && BootstrapClear(b) && FinalizeClear(b) && ClosedWalk(AllExplicit(View(b, rank)), p) && i < |p|
    ensures b.anchors.bootstrap != Some(p[i]) && b.anchors.finalize != Some(p[i])
  {
    WalkAvoidsRoot(b, rank, p);
    var u, v := OnClosedWalk(AllExplicit(View(b, rank)), p, i);
    ArcEdge(b, rank, u, p[i]);
    ArcEdge(b, rank, p[i], v);
  }

  lemma WalkIsLinked(b: Built, rank: Entity -> int, p: seq<nat>)
    requires Shaped(b) && BootstrapClear(b) && FinalizeClear(b) && ClosedWalk(AllExplicit(View(b, rank)), p)
    ensures ClosedWalk(LinkArcs(b), p)
  {
    WalkAvoidsRoot(b, rank, p);
    forall i | 0 <= i < |p| - 1 ensures (p[i], p[i + 1]) in LinkArcs(b) {
      var x := Edge(p[i], p[i + 1], By);
      assert (p[i], p[i + 1]) in AllExplicit(View(b, rank));
      ArcEdge(b, rank, p[i], p[i + 1]);
      WalkAvoidsMarked(b, rank, p, i);
      WalkAvoidsMarked(b, rank, p, i + 1);
      assert ShapedAt(b, x) && p[i] in p;
    }
  }

  lemma LinksAreExplicit(b: Built, rank: Entity -> int)
    ensures LinkArcs(b) <= AllExplicit(View(b, rank))
  {
  }

  /** The explicit edges of a built graph can all be honoured if and only if those into bootstrap come
      from the root, none leaves finalize, and the links among the entities form no cycle. */
  lemma ExplicitAcyclicIff(input: Input, b: Built, rank: Entity -> int)
    requires IsBuilt(input, b)
    ensures Acyclic(AllExplicit(View(b, rank))) <==> BootstrapClear(b) && FinalizeClear(b) && Acyclic(LinkArcs(b))
  {
    LinksAreExplicit(b, rank);
    if Acyclic(AllExplicit(View(b, rank))) {
      AcyclicSubset(LinkArcs(b), AllExplicit(View(b, rank)));
    }
    if !(BootstrapClear(b) && FinalizeClear(b)) {
      TouchedIsCycle(input, b, rank);
    } else if Acyclic(LinkArcs(b)) {
      BuiltShaped(input, b);
      forall p | Walk(AllExplicit(View(b, rank)), p) && |p| >= 2 ensures p[0] != p[|p| - 1] {
        if p[0] == p[|p| - 1] {
          WalkIsLinked(b, rank, p);
        }
      }
    }
  }

  // ----- the bootstrap block, in terms of the input

  lemma AllListed(input: Input, k: nat)
    requires input.Valid() && 1 <= k < |input.All()|
    ensures input.All()[k] in input.Of(input.All()[k])
  {
    var front := [input.root] + input.sqls + input.schemas;
    var back := input.enums + input.types + input.externs + input.ords + input.hashes + input.aggregates + input.triggers;
    assert input.All() == front + back;
    AllPosition(input, k);
    if k >= |front| {
      assert input.All()[k] == back[k - |front|] && back[k - |front|] in back;
      BackListed(input, back[k - |front|]);
    }
  }

  lemma BackListed(input: Input, e: Entity)
    requires input.Valid()
    requires e in input.enums + input.types + input.externs + input.ords + input.hashes + input.aggregates + input.triggers
    ensures e in input.Of(e)
  {
    assert e in input.enums || e in input.types || e in input.externs || e in input.ords || e in input.hashes
      || e in input.aggregates || e in input.triggers;
  }

  lemma NotTwice(items: seq<Entity>, e: Entity)
    requires AtMostOne(items, false) && e.CustomSql? && e.bootstrap
    ensures !Twice(items, e)
  {
  }

  lemma OneOfTwo(input: Input, e: Entity) returns (other: Entity)
    requires input.Valid() && |input.All()| > 2 && AtMostOne(input.sqls, false)
    requires e in input.sqls && e.CustomSql? && e.bootstrap
    ensures other in input.Of(other) && other != e
  {
    AllListed(input, 1);
    AllListed(input, 2);
    TwiceListed(input, e);
    NotTwice(input.sqls, e);
    assert !Twice(input.All(), e);
    other := if input.All()[1] == e then input.All()[2] else input.All()[1];
  }

  lemma TornNodes(input: Input, b: Built) returns (n: nat, i: nat)
    requires IsBuilt(input, b) && Torn(input)
    ensures b.anchors.bootstrap == Some(n) && b.anchors.finalize == Some(n) && Tied(b, i) && i != n
  {
    BuiltMaps(input, b);
    var e :| e in input.sqls && e.CustomSql? && e.bootstrap && e.finalize;
    n := MarkedNode(input, b, e);
    var other := OneOfTwo(input, e);
    i := EntityTied(input, b, other);
  }

  /** A block that is both bootstrap and finalize has edges both ways to anything else. */
  lemma TornTouches(input: Input, b: Built)
    requires IsBuilt(input, b) && Torn(input)
    ensures !BootstrapClear(b) && !FinalizeClear(b)
  {
    var n, i := TornNodes(input, b);
    TiedIsAnchored(input, b, i);
    assert Edge(i, n, By).weight.By? && Edge(n, i, By).weight.By?;
  }

  lemma SchemaFound(input: Input, b: Built, s: Entity)
    requires MapsOk(input, b.d, b.maps) && s in input.schemas && s.Schema?
    ensures Found(b.maps, SchemaAt(s.modulePath)) != {}
  {
    assert b.maps.schemas[s] in HitsIn(b.maps.schemas, SchemaAt(s.modulePath));
  }

  lemma SchemaNode(input: Input, b: Built, modulePath: string, m: nat)
    requires AnchorsKnown(input, b) && MapsOk(input, b.d, b.maps) && m in Found(b.maps, SchemaAt(modulePath))
    ensures Tied(b, m) && b.d.nodes[m].Schema?
  {
    FoundTied(input, b, SchemaAt(modulePath), m);
  }

  lemma SchemaEdge(input: Input, b: Built, e: Entity, n: nat, s: Entity) returns (m: nat)
    requires IsBuilt(input, b) && ItemAt(b, e, n) && e.CustomSql? && s in input.schemas && s.Schema? && s.modulePath == e.modulePath
    ensures Edge(m, n, By) in b.d.edges && Tied(b, m) && b.d.nodes[m].Schema?
  {
    BuiltMaps(input, b);
    SchemaFound(input, b, s);
    assert Single(SchemaAt(e.modulePath), false) == Wants(e)[0];
    WantMet(input, b, e, n, Single(SchemaAt(e.modulePath), false));
    m := SingleMet(b.maps, b.d.builtins, b.d.edges, n, SchemaAt(e.modulePath), false);
    SchemaNode(input, b, e.modulePath, m);
  }

  lemma InSchemaTouches(input: Input, b: Built)
    requires IsBuilt(input, b) && BootstrapInSchema(input)
    ensures !BootstrapClear(b)
  {
    BuiltMaps(input, b);
    var e, s :| e in input.sqls && e.CustomSql? && e.bootstrap && s in input.schemas && s.Schema? && s.modulePath == e.modulePath;
    var n := MarkedNode(input, b, e);
    var m := SchemaEdge(input, b, e, n, s);
    assert Edge(m, n, By).weight.By?;
  }

  lemma NeedWanted(e: Entity)
    requires e.CustomSql? && e.needs != []
    ensures Single(Positioned(e.needs[0]), true) in Wants(e)
  {
    assert Wants(e)[1] == Single(Positioned(e.needs[0]), true);
  }

  lemma NeedEdge(input: Input, b: Built, e: Entity, n: nat) returns (m: nat)
    requires IsBuilt(input, b) && ItemAt(b, e, n) && e.CustomSql? && e.needs != []
    ensures Edge(m, n, By) in b.d.edges && m != 0
  {
    NeedWanted(e);
    m := RequiredConnected(input, b, e, n, Positioned(e.needs[0]));
    HitKind(Positioned(e.needs[0]), b.d.nodes[m]);
    BuiltAnchors(input, b);
  }

  lemma RequiresTouches(input: Input, b: Built)
    requires IsBuilt(input, b) && BootstrapRequires(input)
    ensures !BootstrapClear(b)
  {
    BuiltMaps(input, b);
    var e :| e in input.sqls && e.CustomSql? && e.bootstrap && e.needs != [];
    var n := MarkedNode(input, b, e);
    var m := NeedEdge(input, b, e, n);
    assert Edge(m, n, By).weight.By?;
  }

  /** No block is both bootstrap and finalize beside something else. */
  ghost predicate Separate(b: Built) {
    b.anchors.bootstrap.Some? && b.anchors.bootstrap == b.anchors.finalize ==> forall i: nat :: Tied(b, i) ==> b.anchors.bootstrap == Some(i)
  }

  lemma SeparateOk(input: Input, b: Built)
    requires AnchorsKnown(input, b) && Own(b.d.nodes) == input.All()
    requires !Torn(input)
    ensures Separate(b)
  {
    if b.anchors.bootstrap.Some? && b.anchors.bootstrap == b.anchors.finalize {
      var n := b.anchors.bootstrap.value;
      NodeListed(input, b.d.nodes, n);
      MarksAre(input, b, n);
      assert |input.All()| <= 2;
      forall i: nat | Tied(b, i) ensures i == n {
        AtMostTwo(b.d.nodes, i, n);
      }
    }
  }

  /** Two nodes beside the root are two entities. */
  lemma AtMostTwo(nodes: seq<Entity>, i: nat, n: nat)
    requires 1 <= i < |nodes| && 1 <= n < |nodes| && !nodes[0].BuiltinType? && !nodes[i].BuiltinType? && !nodes[n].BuiltinType?
    requires |Own(nodes)| <= 2
    ensures i == n
  {
    if i < n {
      ThreeNodes(nodes, i, n);
    } else if n < i {
      ThreeNodes(nodes, n, i);
    }
  }

  lemma ThreeNodes(nodes: seq<Entity>, i: nat, j: nat)
    requires 1 <= i < j < |nodes| && !nodes[0].BuiltinType? && !nodes[i].BuiltinType? && !nodes[j].BuiltinType?
    ensures |Own(nodes)| > 2
  {
    OwnGrows(nodes, 0, i);
    OwnGrows(nodes, i, j);
    OwnGrows(nodes, j, |nodes|);
  }

  /** An entity between two positions counts. */
  lemma {:induction false} OwnGrows(nodes: seq<Entity>, i: nat, j: nat)
    requires i < j <= |nodes| && !nodes[i].BuiltinType?
    ensures |Own(nodes[..i])| < |Own(nodes[..j])|
    decreases j
  {
    assert nodes[..j][..j - 1] == nodes[..j - 1];
    if i < j - 1 {
      OwnGrows(nodes, i, j - 1);
    }
    assert nodes[..|nodes|] == nodes;
  }

  lemma BuiltSeparate(input: Input, b: Built)
    requires IsBuilt(input, b) && !Torn(input)
    ensures Separate(b)
  {
    BuiltNodes(input, b);
    SeparateOk(input, b);
  }

  lemma FirstIntoBootstrap(input: Input, b: Built, x: Edge)
    requires AnchorsKnown(input, b) && Separate(b) && FirstEdge(b, x) && b.anchors.bootstrap == Some(x.target)
    ensures x.source == 0
  {
    var k: nat :| Brings(b.anchors, b.maps.decls.sqls, b.d.nodes, k, x);
    BringsEnds(b.anchors, b.maps.decls.sqls, b.d.nodes[k], k, x);
    BringerTied(input, b, k, x);
  }

  lemma LoneBlockWants(e: Entity, w: Want)
    requires e.CustomSql? && e.needs == [] && w in Wants(e)
    ensures w == Single(SchemaAt(e.modulePath), false)
  {
  }

  lemma NoBlockWantsOut(e: Entity, w: Want)
    requires e.CustomSql? && w in Wants(e)
    ensures !w.EveryOut?
  {
  }

  lemma OutQuery(e: Entity, w: Want)
    requires w in Wants(e) && w.EveryOut?
    ensures w.query.HashWith? && e.Function?
  {
    WantsOneStage(e);
    if e.CustomSql? {
      NoBlockWantsOut(e, w);
    }
  }

  lemma LinkOutKinds(nodes: seq<Entity>, x: Edge)
    requires LinksOut(nodes, x)
    ensures x.source < |nodes| && x.target < |nodes| && nodes[x.source].Function? && nodes[x.target].Hash?
  {
    var w :| w in Wants(nodes[x.source]) && w.EveryOut? && Hits(w.query, nodes[x.target]);
    OutQuery(nodes[x.source], w);
  }

  lemma NoLinkIntoBootstrap(input: Input, b: Built, x: Edge)
    requires AnchorsKnown(input, b) && !BootstrapInSchema(input) && !BootstrapRequires(input)
    requires b.anchors.bootstrap == Some(x.target)
    ensures !Linked(b, x)
  {
    MarksAre(input, b, x.target);
    NodeListed(input, b.d.nodes, x.target);
    if Links(b.d.nodes, x) {
      var w :| w in Wants(b.d.nodes[x.target]) && (w.Single? || w.Every?) && Hits(w.query, b.d.nodes[x.source]);
      LoneBlockWants(b.d.nodes[x.target], w);
      NodeListed(input, b.d.nodes, x.source);
    }
    if LinksOut(b.d.nodes, x) {
      LinkOutKinds(b.d.nodes, x);
    }
  }

  lemma IntoBootstrap(input: Input, b: Built, x: Edge)
    requires IsBuilt(input, b) && NothingBefore(input) && x in b.d.edges && x.weight.By? && b.anchors.bootstrap == Some(x.target)
    ensures x.source == 0
  {
    ExplicitOrigin(input, b, x);
    BuiltSeparate(input, b);
    BuiltAnchors(input, b);
    NoLinkIntoBootstrap(input, b, x);
    if FirstEdge(b, x) {
      FirstIntoBootstrap(input, b, x);
    }
  }

  lemma ClearIfNothingBefore(input: Input, b: Built)
    requires IsBuilt(input, b) && NothingBefore(input)
    ensures BootstrapClear(b)
  {
    forall x | x in b.d.edges && x.weight.By? && b.anchors.bootstrap == Some(x.target) ensures x.source == 0 {
      IntoBootstrap(input, b, x);
    }
  }

  /** Explicit edges into bootstrap come from the root if and only if the block requires nothing, is in
      no schema's module, and is not finalize too beside something else. */
  lemma BootstrapClearIff(input: Input, b: Built)
    requires IsBuilt(input, b)
    ensures BootstrapClear(b) <==> NothingBefore(input)
  {
    if Torn(input) {
      TornTouches(input, b);
    } else if BootstrapInSchema(input) {
      InSchemaTouches(input, b);
    } else if BootstrapRequires(input) {
      RequiresTouches(input, b);
    } else {
      ClearIfNothingBefore(input, b);
    }
  }

  // ----- the finalize block, in terms of the input

  lemma EveryQuery(e: Entity, w: Want)
    requires w in Wants(e) && w.Every?
    ensures !w.query.Positioned?
  {
    WantsOneStage(e);
  }

  lemma BlockHit(q: Query, e: Entity)
    requires e.CustomSql? && Hits(q, e)
    ensures q == Positioned(Named(e.name))
  {
  }

  lemma NoLinkFromFinalize(input: Input, b: Built, x: Edge)
    requires AnchorsKnown(input, b) && !FinalizeNamed(input) && b.anchors.finalize == Some(x.source)
    ensures !Linked(b, x)
  {
    MarksAre(input, b, x.source);
    NodeListed(input, b.d.nodes, x.source);
    if Links(b.d.nodes, x) {
      var w :| w in Wants(b.d.nodes[x.target]) && (w.Single? || w.Every?) && Hits(w.query, b.d.nodes[x.source]);
      BlockHit(w.query, b.d.nodes[x.source]);
      WanterKind(b.d.nodes[x.target]);
      NodeListed(input, b.d.nodes, x.target);
      if w.Every? {
        EveryQuery(b.d.nodes[x.target], w);
      }
    }
    if LinksOut(b.d.nodes, x) {
      LinkOutKinds(b.d.nodes, x);
    }
  }

  lemma FirstFromFinalize(input: Input, b: Built, x: Edge)
    requires AnchorsKnown(input, b) && Separate(b) && b.anchors.finalize == Some(x.source)
    ensures !FirstEdge(b, x) && !RootsSchema(b, x)
  {
    AnchorEntitied(input, b);
    if FirstEdge(b, x) {
      var k: nat :| Brings(b.anchors, b.maps.decls.sqls, b.d.nodes, k, x);
      BringsEnds(b.anchors, b.maps.decls.sqls, b.d.nodes[k], k, x);
      BringerTied(input, b, k, x);
    }
  }

  /** No explicit edge leaves finalize if nothing names it and it is not bootstrap too beside something
      else. */
  lemma FinalizeClearIf(input: Input, b: Built)
    requires IsBuilt(input, b) && !Torn(input) && !FinalizeNamed(input)
    ensures FinalizeClear(b)
  {
    BuiltSeparate(input, b);
    BuiltAnchors(input, b);
    forall x | x in b.d.edges && x.weight.By? ensures b.anchors.finalize != Some(x.source) {
      if b.anchors.finalize == Some(x.source) {
        ExplicitOrigin(input, b, x);
        NoLinkFromFinalize(input, b, x);
        FirstFromFinalize(input, b, x);
      }
    }
  }

  lemma OneStageHits(mapped: Mapped, q: Query)
    ensures FirstHits([mapped], q) == HitsIn(mapped, q)
  {
    assert FirstHits([mapped][1..], q) == {};
  }

  lemma OneHit(sqls: Mapped, f: Entity)
    requires f in sqls && f.CustomSql? && forall g :: g in sqls && g.CustomSql? && g.name == f.name ==> g == f
    ensures HitsIn(sqls, Positioned(Named(f.name))) == {sqls[f]}
  {
    assert Hits(Positioned(Named(f.name)), f);
  }

  lemma NamedFound(input: Input, b: Built, f: Entity) returns (n: nat)
    requires AnchorsKnown(input, b) && MapsOk(input, b.d, b.maps) && OwnName(input) && IsFinalize(input, f)
    ensures b.anchors.finalize == Some(n) && Found(b.maps, Positioned(Named(f.name))) == {n}
  {
    n := MarkedNode(input, b, f);
    OneStageHits(b.maps.decls.sqls, Positioned(Named(f.name)));
    OneHit(b.maps.decls.sqls, f);
  }

  /** A reference that leads to the finalize block is an edge out of it. */
  lemma NamedTouches(input: Input, b: Built)
    requires IsBuilt(input, b) && OwnName(input) && FinalizeNamed(input)
    ensures !FinalizeClear(b)
  {
    var u, w, f :| u in input.Of(u) && w in Wants(u) && w.Single? && IsFinalize(input, f) && w.query == Positioned(Named(f.name));
    var n, index := NamedEdge(input, b, u, w, f);
    assert Edge(n, index, By).weight.By?;
  }

  lemma NamedEdge(input: Input, b: Built, u: Entity, w: Want, f: Entity) returns (n: nat, index: nat)
    requires IsBuilt(input, b) && OwnName(input) && u in input.Of(u) && w in Wants(u) && w.Single?
    requires IsFinalize(input, f) && w.query == Positioned(Named(f.name))
    ensures b.anchors.finalize == Some(n) && Edge(n, index, By) in b.d.edges
  {
    BuiltMaps(input, b);
    n := NamedFound(input, b, f);
    index := EntityTied(input, b, u);
    WantMet(input, b, u, index, w);
    OnlyFound(b, w, index, n);
  }

  lemma OnlyFound(b: Built, w: Want, index: nat, n: nat)
    requires w.Single? && Found(b.maps, w.query) == {n} && Met(b.maps, b.d.builtins, b.d.edges, index, w)
    ensures Edge(n, index, By) in b.d.edges
  {
    var m := SingleMet(b.maps, b.d.builtins, b.d.edges, index, w.query, w.required);
  }

  /** If no other block shares its name, an explicit edge leaves finalize if and only if something names
      it, or it is bootstrap too beside something else. */
  lemma FinalizeClearIff(input: Input, b: Built)
    requires IsBuilt(input, b)
    ensures OwnName(input) ==> (FinalizeClear(b) <==> !Torn(input) && !FinalizeNamed(input))
  {
    if OwnName(input) {
      if Torn(input) {
        TornTouches(input, b);
      } else if FinalizeNamed(input) {
        NamedTouches(input, b);
      } else {
        FinalizeClearIf(input, b);
      }
    }
  }

  /** So every one of these makes a cycle: a bootstrap block that requires something, is in a schema's
      module or is finalize too beside something else, and a reference that can only lead to finalize. */
  lemma CycleIfTouched(input: Input, b: Built, rank: Entity -> int)
    requires IsBuilt(input, b) && (!NothingBefore(input) || (OwnName(input) && FinalizeNamed(input)))
    ensures !Acyclic(AllExplicit(View(b, rank)))
  {
    ExplicitAcyclicIff(input, b, rank);
    BootstrapClearIff(input, b);
    FinalizeClearIff(input, b);
  }

  // ----- the links, in terms of the input

  /** Everything that an entity asks for is lower than the entity. */
  ghost predicate Layered(input: Input, height: Entity -> int) {
    forall e, w, s :: e in input.Of(e) && s in input.Of(s) && w in Wants(e) && !w.Typed? && Hits(w.query, s) ==>
      if w.EveryOut? then height(e) < height(s) else height(s) < height(e)
  }

  lemma LinkClimbs(input: Input, b: Built, height: Entity -> int, x: Edge)
    requires AnchorsKnown(input, b) && Layered(input, height) && Linked(b, x)
    ensures x.source < |b.d.nodes| && x.target < |b.d.nodes| && height(b.d.nodes[x.source]) < height(b.d.nodes[x.target])
  {
    LinkEnds(b.d.nodes, x);
    NodeListed(input, b.d.nodes, x.source);
    NodeListed(input, b.d.nodes, x.target);
    if Links(b.d.nodes, x) {
      var w :| w in Wants(b.d.nodes[x.target]) && (w.Single? || w.Every?) && Hits(w.query, b.d.nodes[x.source]);
      LayersClimb(input, height, b.d.nodes[x.target], w, b.d.nodes[x.source]);
    } else {
      var w :| w in Wants(b.d.nodes[x.source]) && w.EveryOut? && Hits(w.query, b.d.nodes[x.target]);
      LayersClimb(input, height, b.d.nodes[x.source], w, b.d.nodes[x.target]);
    }
  }

  lemma LayersClimb(input: Input, height: Entity -> int, e: Entity, w: Want, s: Entity)
    requires Layered(input, height) && e in input.Of(e) && s in input.Of(s) && w in Wants(e) && !w.Typed? && Hits(w.query, s)
    ensures if w.EveryOut? then height(e) < height(s) else height(s) < height(e)
  {
  }

  /** Links between layers form no cycle. */
  lemma LayeredLinks(input: Input, b: Built, height: Entity -> int)
    requires AnchorsKnown(input, b) && Layered(input, height)
    ensures Acyclic(LinkArcs(b))
  {
    var nodes := b.d.nodes;
    var at := (i: nat) => if i < |nodes| then height(nodes[i]) else 0;
    forall u, v | (u, v) in LinkArcs(b) ensures at(u) < at(v) {
      var x :| x in b.d.edges && x.weight.By? && Linked(b, x) && (x.source, x.target) == (u, v);
      LinkClimbs(input, b, height, x);
    }
    RisingIsAcyclic(LinkArcs(b), at);
  }

  /** An extension whose references respect layers, with nothing before bootstrap and nothing after
      finalize, has no explicit cycle. */
  lemma AcyclicIfLayered(input: Input, b: Built, rank: Entity -> int, height: Entity -> int)
    requires IsBuilt(input, b) && NothingBefore(input) && !FinalizeNamed(input) && Layered(input, height)
    ensures Acyclic(AllExplicit(View(b, rank)))
  {
    BootstrapClearIff(input, b);
    FinalizeClearIf(input, b);
    BuiltAnchors(input, b);
    LayeredLinks(input, b, height);
    ExplicitAcyclicIff(input, b, rank);
  }

  /** Every search that ends at one entity has one entity to end at. */
  ghost predicate Settled(input: Input) {
    forall e, w, s, t :: e in input.Of(e) && w in Wants(e) && w.Single? && BothHit(input, w.query, s, t) ==> s == t
  }

  ghost predicate BothHit(input: Input, q: Query, s: Entity, t: Entity) {
    AcceptedInputs.IsHit(input, q, s) && AcceptedInputs.IsHit(input, q, t)
  }

  lemma FoundIsHit(input: Input, b: Built, e: Entity, w: Want, s: Entity, n: nat)
    requires input.Valid() && MapsOk(input, b.d, b.maps) && Settled(input)
    requires e in input.Of(e) && w in Wants(e) && w.Single? && AcceptedInputs.IsHit(input, w.query, s) && n in Found(b.maps, w.query)
    ensures ItemAt(b, s, n)
  {
    var t := FoundItem(input, b, w.query, n);
    ItemIndex(input, b, t);
    assert BothHit(input, w.query, s, t);
  }

  lemma HitStage(m: Maps, q: Query, s: Entity) returns (k: nat)
    requires Hits(q, s)
    ensures k < |Stages(m, q)| && Stages(m, q)[k] == m.Of(s)
  {
    k := if q.TypeOrEnum? || (q.Positioned? && q.ref.FullPath?) then
           if s.Type? then 0 else if s.Enum? then 1 else if s.Function? then 2 else if s.Schema? then 3 else 4
         else 0;
  }

  lemma HitIsFound(m: Maps, q: Query, s: Entity)
    requires s in m.Of(s) && Hits(q, s)
    ensures Found(m, q) != {}
    ensures |Stages(m, q)| == 1 ==> m.Of(s)[s] in AllHits(m, q)
  {
    var k := HitStage(m, q, s);
    assert Stages(m, q)[k][s] in HitsIn(Stages(m, q)[k], q);
    AcceptedInputs.FirstHitsIff(Stages(m, q), q);
  }

  lemma SingleLinked(input: Input, b: Built, e: Entity, index: nat, w: Want, s: Entity, n: nat)
    requires input.Valid() && MapsOk(input, b.d, b.maps) && Settled(input)
    requires e in input.Of(e) && w in Wants(e) && w.Single? && AcceptedInputs.IsHit(input, w.query, s) && ItemAt(b, s, n)
    requires Met(b.maps, b.d.builtins, b.d.edges, index, w) && Found(b.maps, w.query) != {}
    ensures Edge(n, index, By) in b.d.edges
  {
    var m := SingleMet(b.maps, b.d.builtins, b.d.edges, index, w.query, w.required);
    FoundIsHit(input, b, e, w, s, m);
  }

  ghost function LinkOf(index: nat, w: Want, n: nat): Edge {
    if w.EveryOut? then Edge(index, n, By) else Edge(n, index, By)
  }

  lemma OneStageIs(m: Maps, e: Entity, w: Want)
    requires w in Wants(e) && (w.Every? || w.EveryOut?)
    ensures |Stages(m, w.query)| == 1
  {
    WantsOneStage(e);
  }

  /** Every link that the input asks for is there. */
  lemma HitLinked(input: Input, b: Built, e: Entity, index: nat, w: Want, s: Entity, n: nat)
    requires IsBuilt(input, b) && Settled(input) && e in input.Of(e) && w in Wants(e) && !w.Typed? && AcceptedInputs.IsHit(input, w.query, s)
    requires ItemAt(b, e, index) && ItemAt(b, s, n)
    ensures LinkOf(index, w, n) in b.d.edges
  {
    BuiltMaps(input, b);
    WantMet(input, b, e, index, w);
    HitIsFound(b.maps, w.query, s);
    if w.Single? {
      SingleLinked(input, b, e, index, w, s, n);
    } else {
      OneStageIs(b.maps, e, w);
      EveryMet(b, index, w, n);
    }
  }

  lemma EveryMet(b: Built, index: nat, w: Want, n: nat)
    requires Met(b.maps, b.d.builtins, b.d.edges, index, w) && (w.Every? || w.EveryOut?) && n in AllHits(b.maps, w.query)
    ensures LinkOf(index, w, n) in b.d.edges
  {
    var es: seq<Edge> :| Fulfils(b.maps, b.d.builtins, index, w, es) && forall x :: x in es ==> x in b.d.edges;
    FulfilsOffers(b.maps, b.d.builtins, index, w, es, LinkOf(index, w, n));
  }

  /** The height of an entity is the depth of its node. */
  ghost function NodeDepth(b: Built, e: Entity): int {
    if e in b.maps.Of(e) then Depth(LinkArcs(b), |b.d.nodes|, b.maps.Of(e)[e]) else 0
  }

  lemma LinkDeepens(b: Built, index: nat, w: Want, n: nat)
    requires index < |b.d.nodes| && n < |b.d.nodes| && w in Wants(b.d.nodes[index]) && !w.Typed? && Hits(w.query, b.d.nodes[n])
    requires Acyclic(LinkArcs(b)) && LinkOf(index, w, n) in b.d.edges
    ensures var x := LinkOf(index, w, n); Depth(LinkArcs(b), |b.d.nodes|, x.source) < Depth(LinkArcs(b), |b.d.nodes|, x.target)
  {
    var x := LinkOf(index, w, n);
    assert Linked(b, x);
    assert (x.source, x.target) in LinkArcs(b);
    DepthRises(LinkArcs(b), |b.d.nodes|, x.source, x.target);
  }

  lemma HitClimbs(input: Input, b: Built, e: Entity, w: Want, s: Entity)
    requires IsBuilt(input, b) && Settled(input) && Acyclic(LinkArcs(b))
    requires e in input.Of(e) && w in Wants(e) && !w.Typed? && AcceptedInputs.IsHit(input, w.query, s)
    ensures if w.EveryOut? then NodeDepth(b, e) < NodeDepth(b, s) else NodeDepth(b, s) < NodeDepth(b, e)
  {
    BuiltMaps(input, b);
    var index := EntityTied(input, b, e);
    var n := EntityTied(input, b, s);
    HitLinked(input, b, e, index, w, s, n);
    LinkDeepens(b, index, w, n);
  }

  ghost function Depths(b: Built): Entity -> int {
    (e: Entity) => NodeDepth(b, e)
  }

  lemma DepthsAreLayers(input: Input, b: Built)
    requires IsBuilt(input, b) && Settled(input) && Acyclic(LinkArcs(b))
    ensures Layered(input, Depths(b))
  {
    forall e, w, s | e in input.Of(e) && s in input.Of(s) && w in Wants(e) && !w.Typed? && Hits(w.query, s)
      ensures if w.EveryOut? then Depths(b)(e) < Depths(b)(s) else Depths(b)(s) < Depths(b)(e)
    {
      HitClimbs(input, b, e, w, s);
    }
  }

  /** If no search has a choice, the links form no cycle if and only if the entities have layers. */
  lemma LinksAcyclicIff(input: Input, b: Built)
    requires IsBuilt(input, b) && Settled(input)
    ensures Acyclic(LinkArcs(b)) <==> exists height: Entity -> int :: Layered(input, height)
  {
    if height: Entity -> int :| Layered(input, height) {
      BuiltAnchors(input, b);
      LayeredLinks(input, b, height);
    }
    if Acyclic(LinkArcs(b)) {
      DepthsAreLayers(input, b);
    }
  }

  lemma SettledName(input: Input)
    requires Settled(input) && FinalizeNamed(input) && AtMostOne(input.sqls, true)
    ensures OwnName(input)
  {
    var u, w, g :| u in input.Of(u) && w in Wants(u) && w.Single? && IsFinalize(input, g) && w.query == Positioned(Named(g.name));
    forall h, k | IsFinalize(input, h) && k in input.sqls && k.CustomSql? && k.name == h.name ensures k == h {
      OneFinalize(input, g, h);
      assert BothHit(input, w.query, g, k);
    }
  }

  lemma OneFinalize(input: Input, f: Entity, g: Entity)
    requires AtMostOne(input.sqls, true) && IsFinalize(input, f) && IsFinalize(input, g)
    ensures f == g
  {
    var i :| 0 <= i < |input.sqls| && input.sqls[i] == f;
    var j :| 0 <= j < |input.sqls| && input.sqls[j] == g;
    assert Marked(input.sqls[i], true) && Marked(input.sqls[j], true);
    assert i == j;
  }

  /** If no search has a choice, the explicit edges can all be honoured if and only if nothing comes
      before bootstrap, nothing names finalize, and the entities have layers. */
  lemma SettledAcyclicIff(input: Input, b: Built, rank: Entity -> int)
    requires IsBuilt(input, b) && Settled(input)
    ensures Acyclic(AllExplicit(View(b, rank))) <==>
      NothingBefore(input) && !FinalizeNamed(input) && exists height: Entity -> int :: Layered(input, height)
  {
    ExplicitAcyclicIff(input, b, rank);
    BootstrapClearIff(input, b);
    LinksAcyclicIff(input, b);
    SettledFinalize(input, b);
  }

  lemma SettledFinalize(input: Input, b: Built)
    requires IsBuilt(input, b) && Settled(input)
    ensures FinalizeClear(b) <==> !Torn(input) && !FinalizeNamed(input)
  {
    if FinalizeNamed(input) {
      FinalizeOnce(input, b);
      SettledName(input);
      NamedTouches(input, b);
    } else if Torn(input) {
      TornTouches(input, b);
    } else {
      FinalizeClearIf(input, b);
    }
  }

  lemma FinalizeOnce(input: Input, b: Built)
    requires IsBuilt(input, b)
    ensures AtMostOne(input.sqls, true)
  {
    var run :| IsRun(input, b, run);
  }

  // ----- extensions without references

  /** Nothing is ordered by name: no `requires`, no support function. */
  ghost predicate NoRefs(input: Input) {
    forall e, w :: e in input.Of(e) && w in Wants(e) && w.Single? ==> !w.query.Positioned?
  }

  function KindHeight(e: Entity): int {
    if e.Schema? then 2
    else if e.Function? then 3
    else if e.Type? || e.Enum? || e.CustomSql? then 4
    else 5
  }

  lemma FunctionPathWanter(e: Entity, w: Want)
    requires w in Wants(e) && (w.Single? || w.Every?) && w.query.FunctionAt?
    ensures e.Type? || e.Aggregate?
  {
    if e.Function? {
      FunctionQueries(e, w);
    }
  }

  lemma {:induction false} AttrQueries(attrs: seq<ExternAttr>)
    ensures forall w :: w in AttrWants(attrs) ==> (w.Single? && w.query.Positioned?) || (w.Every? && w.query.SchemaNamed?)
  {
    if attrs != [] {
      AttrQueries(attrs[..|attrs| - 1]);
    }
  }

  lemma FunctionQueries(e: Entity, w: Want)
    requires e.Function? && w in Wants(e) && (w.Single? || w.Every?)
    ensures w.query.Positioned? || w.query.SchemaNamed? || w.query.SchemaAt?
  {
    AttrQueries(e.attrs);
  }

  lemma NameWanter(e: Entity, w: Want)
    requires w in Wants(e) && (w.Single? || w.Every?) && (w.query.FunctionNamed? || w.query.TypeOrEnum?)
    ensures e.Ord? || e.Hash?
  {
    if e.Function? {
      FunctionQueries(e, w);
    }
  }

  lemma SchemaWanter(e: Entity, w: Want)
    requires w in Wants(e)
    ensures KindHeight(e) > 2
  {
    WanterKind(e);
  }

  lemma EveryKind(e: Entity, w: Want)
    requires w in Wants(e) && (w.Single? || w.Every?)
    ensures !w.query.HashWith?
    ensures w.Every? ==> !w.query.Positioned?
  {
    WantsOneStage(e);
    if e.Function? {
      AttrQueries(e.attrs);
    }
  }

  /** What is wanted is lower than what wants it. */
  lemma QueryClimbs(e: Entity, w: Want, s: Entity)
    requires w in Wants(e) && (w.Single? || w.Every?) && Hits(w.query, s) && (w.Single? ==> !w.query.Positioned?)
    ensures KindHeight(s) < KindHeight(e)
  {
    EveryKind(e, w);
    SchemaWanter(e, w);
    match w.query {
      case SchemaAt(_) =>
      case SchemaNamed(_) =>
      case FunctionAt(_) => FunctionPathWanter(e, w);
      case FunctionNamed(_, _) => NameWanter(e, w);
      case TypeOrEnum(_) => NameWanter(e, w);
    }
  }

  lemma WantClimbs(input: Input, e: Entity, w: Want, s: Entity)
    requires NoRefs(input) && e in input.Of(e) && w in Wants(e) && !w.Typed? && Hits(w.query, s)
    ensures if w.EveryOut? then KindHeight(e) < KindHeight(s) else KindHeight(s) < KindHeight(e)
  {
    if w.EveryOut? {
      OutQuery(e, w);
    } else {
      QueryClimbs(e, w, s);
    }
  }

  /** The kinds of entities are layers. */
  lemma NoRefsLayered(input: Input)
    requires NoRefs(input)
    ensures Layered(input, KindHeight)
  {
    forall e, w, s | e in input.Of(e) && s in input.Of(s) && w in Wants(e) && !w.Typed? && Hits(w.query, s)
      ensures if w.EveryOut? then KindHeight(e) < KindHeight(s) else KindHeight(s) < KindHeight(e)
    {
      WantClimbs(input, e, w, s);
    }
  }

  lemma NoRefsRequired(input: Input)
    requires NoRefs(input)
    ensures !BootstrapRequires(input) && !FinalizeNamed(input)
  {
    forall e | e in input.sqls && e.CustomSql? ensures e.needs == [] {
      if e.needs != [] {
        NeedWanted(e);
      }
    }
  }

  /** Without `requires` and support functions, the explicit edges can all be honoured if and only if
      no block is both bootstrap and finalize beside something else, and the bootstrap block is in no
      schema's module. */
  lemma NoRefsAcyclicIff(input: Input, b: Built, rank: Entity -> int)
    requires IsBuilt(input, b) && NoRefs(input)
    ensures Acyclic(AllExplicit(View(b, rank))) <==> !Torn(input) && !BootstrapInSchema(input)
  {
    NoRefsRequired(input);
    if NothingBefore(input) {
      NoRefsLayered(input);
      AcyclicIfLayered(input, b, rank, KindHeight);
    } else {
      BootstrapClearIff(input, b);
      ExplicitAcyclicIff(input, b, rank);
    }
  }
}

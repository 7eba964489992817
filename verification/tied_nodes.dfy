/** Which nodes of a built graph have edges to and from the extension root, the bootstrap block and
    the finalize block. */
module TiedNodes {
  import opened Sequences
  import opened ComponentOrder
  import opened Connections
  import opened Drafts
  import opened Entities
  import opened Build
  import opened BuiltGraph
  import opened BuiltFacts
  import opened Wrappers

  // ----- which nodes are tied to the anchors

  /** A node for an entity: neither the root nor a placeholder. */
  ghost predicate IsEntity(b: Built, i: nat) {
    1 <= i < |b.d.nodes| && !b.d.nodes[i].BuiltinType?
  }

  /** Not an earlier copy of a repeated block. */
  ghost predicate Tied(b: Built, i: nat) {
    && IsEntity(b, i)
    && (b.d.nodes[i].CustomSql? ==> b.d.nodes[i] in b.maps.decls.sqls && b.maps.decls.sqls[b.d.nodes[i]] == i)
  }

  /** Nor an earlier copy of a repeated schema. */
  ghost predicate Live(b: Built, i: nat) {
    Tied(b, i) && (b.d.nodes[i].Schema? ==> b.d.nodes[i] in b.maps.schemas && b.maps.schemas[b.d.nodes[i]] == i)
  }

  /** The edges that tie a node to the bootstrap and finalize blocks other than itself. */
  ghost predicate Anchored(a: Anchors, edges: seq<Edge>, i: nat) {
    && (a.bootstrap.Some? && a.bootstrap.value != i ==> Edge(a.bootstrap.value, i, By) in edges)
    && (a.finalize.Some? && a.finalize.value != i ==> Edge(i, a.finalize.value, By) in edges)
  }

  /** The edges that a tied node brings. */
  lemma TiedBrings(input: Input, b: Built, i: nat)
    requires AnchorsKnown(input, b) && Tied(b, i)
    ensures Anchored(b.anchors, EdgesOf(b.anchors, b.maps.decls.sqls, b.d.nodes[i], i), i)
    ensures !b.d.nodes[i].Schema? ==> Edge(0, i, By) in EdgesOf(b.anchors, b.maps.decls.sqls, b.d.nodes[i], i)
  {
    assert input.Holds(b.d.nodes[i]);
    if b.d.nodes[i].CustomSql? {
      MarksAre(input, b, i);
    }
  }

  lemma MarksAre(input: Input, b: Built, i: nat)
    requires AnchorsKnown(input, b) && i < |b.d.nodes| && b.d.nodes[i].CustomSql?
    ensures b.d.nodes[i].bootstrap <==> b.anchors.bootstrap == Some(i)
    ensures b.d.nodes[i].finalize <==> b.anchors.finalize == Some(i)
  {
    assert Marked(b.d.nodes[i], false) == b.d.nodes[i].bootstrap && Marked(b.d.nodes[i], true) == b.d.nodes[i].finalize;
  }

  lemma BroughtStays(input: Input, b: Built, i: nat)
    requires IsBuilt(input, b) && i < |b.d.nodes|
    ensures forall x :: x in EdgesOf(b.anchors, b.maps.decls.sqls, b.d.nodes[i], i) ==> x in b.d.edges
  {
    forall x | x in EdgesOf(b.anchors, b.maps.decls.sqls, b.d.nodes[i], i) ensures x in b.d.edges {
      assert Brings(b.anchors, b.maps.decls.sqls, b.d.nodes, i, x);
      FirstEdgesStay(input, b, x);
    }
  }

  /** Bootstrap has an edge to every tied node, and every tied node one to finalize. */
  lemma TiedIsAnchored(input: Input, b: Built, i: nat)
    requires IsBuilt(input, b) && Tied(b, i)
    ensures Anchored(b.anchors, b.d.edges, i)
  {
    BuiltAnchors(input, b);
    TiedBrings(input, b, i);
    BroughtStays(input, b, i);
  }

  /** The root has an edge to every live node. */
  lemma LiveHasRoot(input: Input, b: Built, i: nat)
    requires IsBuilt(input, b) && Live(b, i)
    ensures Edge(0, i, By) in b.d.edges
  {
    BuiltAnchors(input, b);
    TiedBrings(input, b, i);
    BroughtStays(input, b, i);
    if b.d.nodes[i].Schema? {
      assert RootsSchema(b, Edge(0, i, By));
      FirstEdgesStay(input, b, Edge(0, i, By));
    }
  }

  /** The root comes from no search. */
  lemma RootEdgeOrigin(input: Input, b: Built, i: nat)
    requires AnchorsKnown(input, b) && MappedIn(b.d.nodes, input.schemas, b.maps.schemas)
    requires FirstEdge(b, Edge(0, i, By)) || RootsSchema(b, Edge(0, i, By))
    ensures Live(b, i)
  {
    if FirstEdge(b, Edge(0, i, By)) {
      var k: nat :| Brings(b.anchors, b.maps.decls.sqls, b.d.nodes, k, Edge(0, i, By));
      RootBrought(input, b, k, i);
    } else {
      var e :| e in b.maps.schemas && b.maps.schemas[e] == i;
      assert b.d.nodes[i] == e;
    }
  }

  lemma RootBrought(input: Input, b: Built, k: nat, i: nat)
    requires AnchorsKnown(input, b) && Brings(b.anchors, b.maps.decls.sqls, b.d.nodes, k, Edge(0, i, By))
    ensures Live(b, i)
  {
    var e := b.d.nodes[k];
    BringsEnds(b.anchors, b.maps.decls.sqls, e, k, Edge(0, i, By));
    AnchorEntitied(input, b);
    assert k != 0 && i == k;
    assert !e.Schema?;
  }

  /** The root has an edge to exactly the live nodes. */
  lemma RootEdgeIffLive(input: Input, b: Built, i: nat)
    requires IsBuilt(input, b)
    ensures Edge(0, i, By) in b.d.edges <==> Live(b, i)
  {
    if Live(b, i) {
      LiveHasRoot(input, b, i);
    }
    if Edge(0, i, By) in b.d.edges {
      RootTargetLive(input, b, i);
    }
  }

  lemma RootTargetLive(input: Input, b: Built, i: nat)
    requires IsBuilt(input, b) && Edge(0, i, By) in b.d.edges
    ensures Live(b, i)
  {
    ExplicitOrigin(input, b, Edge(0, i, By));
    BuiltNodes(input, b);
    NoLinkFromRoot(input, b.d.nodes, i);
    RootEdgeOrigin(input, b, i);
  }

  lemma NoLinkFromRoot(input: Input, nodes: seq<Entity>, i: nat)
    requires input.Valid() && NodesKnown(input, nodes)
    ensures !Links(nodes, Edge(0, i, By)) && !LinksOut(nodes, Edge(0, i, By))
  {
    var x := Edge(0, i, By);
    if Links(nodes, x) || LinksOut(nodes, x) {
      LinkEnds(nodes, x);
    }
  }

  lemma NodeListed(input: Input, nodes: seq<Entity>, i: nat)
    requires input.Valid() && NodesKnown(input, nodes) && i < |nodes|
    ensures nodes[i].ExtensionRoot? || nodes[i].BuiltinType? || nodes[i] in input.Of(nodes[i])
  {
    if i > 0 {
      assert input.Holds(nodes[i]);
    }
  }

  // ----- which inputs have only tied, or only live, nodes

  /** Blocks and schemas have their place in the list of all entities. */
  lemma AllPosition(input: Input, k: nat)
    requires input.Valid() && k < |input.All()|
    ensures input.All()[k].CustomSql? <==> 1 <= k < 1 + |input.sqls|
    ensures 1 <= k < 1 + |input.sqls| ==> input.All()[k] == input.sqls[k - 1]
    ensures var n := 1 + |input.sqls|;
      && (input.All()[k].Schema? <==> n <= k < n + |input.schemas|)
      && (n <= k < n + |input.schemas| ==> input.All()[k] == input.schemas[k - n])
  {
    var n := 1 + |input.sqls|;
    var front := [input.root] + input.sqls + input.schemas;
    var back := input.enums + input.types + input.externs + input.ords + input.hashes + input.aggregates + input.triggers;
    assert input.All() == front + back;
    if k < |front| {
      assert input.All()[k] == front[k];
      assert 1 <= k < n ==> front[k] == input.sqls[k - 1] && input.sqls[k - 1] in input.sqls;
      assert n <= k ==> front[k] == input.schemas[k - n] && input.schemas[k - n] in input.schemas;
    } else {
      assert input.All()[k] == back[k - |front|] && back[k - |front|] in back;
      BackKind(input, back[k - |front|]);
    }
  }

  lemma BackKind(input: Input, e: Entity)
    requires input.Valid()
    requires e in input.enums + input.types + input.externs + input.ords + input.hashes + input.aggregates + input.triggers
    ensures !e.CustomSql? && !e.Schema? && !e.ExtensionRoot? && !e.BuiltinType?
  {
    assert e in input.enums || e in input.types || e in input.externs || e in input.ords || e in input.hashes
      || e in input.aggregates || e in input.triggers;
  }

  lemma TwiceListed(input: Input, e: Entity)
    requires input.Valid()
    ensures e.CustomSql? ==> (Twice(input.All(), e) <==> Twice(input.sqls, e))
    ensures e.Schema? ==> (Twice(input.All(), e) <==> Twice(input.schemas, e))
  {
    var n := 1 + |input.sqls|;
    if k, l :| 0 <= k < l < |input.All()| && input.All()[k] == e && input.All()[l] == e {
      AllPosition(input, k);
      AllPosition(input, l);
      assert e.CustomSql? ==> input.sqls[k - 1] == e && input.sqls[l - 1] == e;
      assert e.Schema? ==> input.schemas[k - n] == e && input.schemas[l - n] == e;
    }
    if i, j :| 0 <= i < j < |input.sqls| && input.sqls[i] == e && input.sqls[j] == e {
      AllPosition(input, i + 1);
      AllPosition(input, j + 1);
      assert input.All()[i + 1] == e && input.All()[j + 1] == e;
    }
    if i, j :| 0 <= i < j < |input.schemas| && input.schemas[i] == e && input.schemas[j] == e {
      AllPosition(input, i + n);
      AllPosition(input, j + n);
      assert input.All()[i + n] == e && input.All()[j + n] == e;
    }
  }

  lemma DistinctIff(s: seq<Entity>)
    ensures Distinct(s) <==> forall e :: !Twice(s, e)
  {
    if i, j :| 0 <= i < j < |s| && s[i] == s[j] {
      assert Twice(s, s[i]);
    }
  }

  /** A copy that the map does not point at. */
  ghost predicate Superseded(nodes: seq<Entity>, mapped: Mapped, e: Entity, i: nat) {
    i < |nodes| && nodes[i] == e && e in mapped && mapped[e] != i
  }

  lemma SupersededIff(nodes: seq<Entity>, items: seq<Entity>, mapped: Mapped, e: Entity)
    requires MappedIn(nodes, items, mapped) && e in items
    ensures (exists i :: Superseded(nodes, mapped, e, i)) <==> Twice(nodes, e)
  {
    if i, j :| 0 <= i < j < |nodes| && nodes[i] == e && nodes[j] == e {
      assert Superseded(nodes, mapped, e, if mapped[e] == i then j else i);
    }
  }

  ghost predicate BlocksKnown(input: Input, b: Built) {
    && input.Valid() && NodesKnown(input, b.d.nodes) && Own(b.d.nodes) == input.All()
    && MappedIn(b.d.nodes, input.sqls, b.maps.decls.sqls) && MappedIn(b.d.nodes, input.schemas, b.maps.schemas)
  }

  lemma BuiltBlocks(input: Input, b: Built)
    requires IsBuilt(input, b)
    ensures BlocksKnown(input, b)
  {
    BuiltNodes(input, b);
  }

  lemma SupersededListed(input: Input, b: Built, e: Entity)
    requires BlocksKnown(input, b)
    ensures e in input.sqls ==> ((exists i :: Superseded(b.d.nodes, b.maps.decls.sqls, e, i)) <==> Twice(input.sqls, e))
    ensures e in input.schemas ==> ((exists i :: Superseded(b.d.nodes, b.maps.schemas, e, i)) <==> Twice(input.schemas, e))
  {
    if e in input.sqls || e in input.schemas {
      TwiceListed(input, e);
      TwiceIff(b.d.nodes, e);
      if e in input.sqls {
        SupersededIff(b.d.nodes, input.sqls, b.maps.decls.sqls, e);
      } else {
        SupersededIff(b.d.nodes, input.schemas, b.maps.schemas, e);
      }
    }
  }

  lemma UntiedIs(input: Input, b: Built, i: nat)
    requires BlocksKnown(input, b) && IsEntity(b, i)
    ensures !Tied(b, i) <==> b.d.nodes[i].CustomSql? && Superseded(b.d.nodes, b.maps.decls.sqls, b.d.nodes[i], i)
    ensures Tied(b, i) && !Live(b, i) <==> b.d.nodes[i].Schema? && Superseded(b.d.nodes, b.maps.schemas, b.d.nodes[i], i)
    ensures input.Holds(b.d.nodes[i])
  {
    assert input.Holds(b.d.nodes[i]);
  }

  lemma CopyOf(input: Input, b: Built, e: Entity, mapped: Mapped, i: nat)
    requires BlocksKnown(input, b) && (e.CustomSql? || e.Schema?) && Superseded(b.d.nodes, mapped, e, i)
    ensures IsEntity(b, i)
  {
  }

  /** No node is a superseded block if and only if no block is listed twice. */
  lemma AllTiedIff(input: Input, b: Built)
    requires BlocksKnown(input, b)
    ensures (forall i: nat :: IsEntity(b, i) ==> Tied(b, i)) <==> Distinct(input.sqls)
  {
    DistinctIff(input.sqls);
    if i: nat :| IsEntity(b, i) && !Tied(b, i) {
      UntiedIs(input, b, i);
      SupersededListed(input, b, b.d.nodes[i]);
    }
    if e :| Twice(input.sqls, e) {
      SupersededListed(input, b, e);
      var i :| Superseded(b.d.nodes, b.maps.decls.sqls, e, i);
      CopyOf(input, b, e, b.maps.decls.sqls, i);
      UntiedIs(input, b, i);
    }
  }

  lemma AllLiveIff(input: Input, b: Built)
    requires BlocksKnown(input, b)
    ensures (forall i: nat :: IsEntity(b, i) ==> Live(b, i)) <==> Distinct(input.sqls) && Distinct(input.schemas)
  {
    AllTiedIff(input, b);
    DistinctIff(input.schemas);
    if i: nat :| IsEntity(b, i) && Tied(b, i) && !Live(b, i) {
      UntiedIs(input, b, i);
      SupersededListed(input, b, b.d.nodes[i]);
    }
    if e :| Twice(input.schemas, e) {
      SupersededListed(input, b, e);
      var i :| Superseded(b.d.nodes, b.maps.schemas, e, i);
      CopyOf(input, b, e, b.maps.schemas, i);
      UntiedIs(input, b, i);
    }
  }

  ghost predicate AllRooted(b: Built) {
    forall i: nat :: IsEntity(b, i) ==> Edge(0, i, By) in b.d.edges
  }

  ghost predicate AllAnchored(b: Built) {
    forall i: nat :: IsEntity(b, i) ==> Anchored(b.anchors, b.d.edges, i)
  }

  /** The root has an edge to every entity's node if and only if no block and no schema is listed
      twice. */
  lemma AllRootedIff(input: Input, b: Built)
    requires IsBuilt(input, b)
    ensures AllRooted(b) <==> Distinct(input.sqls) && Distinct(input.schemas)
  {
    BuiltBlocks(input, b);
    AllLiveIff(input, b);
    forall i: nat ensures Edge(0, i, By) in b.d.edges <==> Live(b, i) {
      RootEdgeIffLive(input, b, i);
    }
  }

  // ----- explicit edges join tied nodes

  lemma BuiltMaps(input: Input, b: Built)
    requires IsBuilt(input, b)
    ensures AnchorsKnown(input, b) && MapsOk(input, b.d, b.maps) && AtMostOne(input.sqls, false)
  {
    var run :| IsRun(input, b, run);
  }

  lemma PlainNotAnchor(input: Input, b: Built, k: nat)
    requires AnchorsKnown(input, b) && k < |b.d.nodes| && !b.d.nodes[k].CustomSql?
    ensures b.anchors.bootstrap != Some(k) && b.anchors.finalize != Some(k)
  {
  }

  lemma AnchorsTied(input: Input, b: Built)
    requires AnchorsKnown(input, b)
    ensures b.anchors.bootstrap.Some? ==> Tied(b, b.anchors.bootstrap.value)
    ensures b.anchors.finalize.Some? ==> Tied(b, b.anchors.finalize.value)
  {
    AnchorEntitied(input, b);
  }

  lemma BringerTied(input: Input, b: Built, k: nat, x: Edge)
    requires AnchorsKnown(input, b) && Brings(b.anchors, b.maps.decls.sqls, b.d.nodes, k, x)
    ensures Tied(b, k) && (x.source == 0 || x.source != x.target)
  {
    BringsEnds(b.anchors, b.maps.decls.sqls, b.d.nodes[k], k, x);
    AnchorEntitied(input, b);
    assert k != 0;
    if b.d.nodes[k].CustomSql? {
      MarksAre(input, b, k);
    } else {
      PlainNotAnchor(input, b, k);
    }
  }

  ghost predicate TiedEnds(b: Built, x: Edge) {
    Tied(b, x.target) && (x.source == 0 || Tied(b, x.source))
  }

  lemma FirstTied(input: Input, b: Built, x: Edge)
    requires AnchorsKnown(input, b) && FirstEdge(b, x)
    ensures TiedEnds(b, x)
  {
    var k: nat :| Brings(b.anchors, b.maps.decls.sqls, b.d.nodes, k, x);
    BringsEnds(b.anchors, b.maps.decls.sqls, b.d.nodes[k], k, x);
    BringerTied(input, b, k, x);
    AnchorsTied(input, b);
    AnchorEntitied(input, b);
  }

  lemma ItemTied(input: Input, b: Built, e: Entity, index: nat)
    requires AnchorsKnown(input, b) && MapsOk(input, b.d, b.maps) && ItemAt(b, e, index)
    ensures Tied(b, index) && b.d.nodes[index] == e
  {
    ItemNode(input, b, e, index);
    assert b.d.nodes[0].ExtensionRoot?;
    MappedTied(b, e, index);
  }

  lemma MappedTied(b: Built, e: Entity, index: nat)
    requires ItemAt(b, e, index) && index < |b.d.nodes| && b.d.nodes[index] == e && b.d.nodes[0].ExtensionRoot?
    ensures Tied(b, index)
  {
  }

  /** Every entity of the input has a tied node. */
  lemma EntityTied(input: Input, b: Built, e: Entity) returns (i: nat)
    requires AnchorsKnown(input, b) && MapsOk(input, b.d, b.maps) && e in input.Of(e)
    ensures Tied(b, i) && b.d.nodes[i] == e && ItemAt(b, e, i)
  {
    ItemIndex(input, b, e);
    i := b.maps.Of(e)[e];
    ItemTied(input, b, e, i);
  }

  /** The node of a marked block. */
  lemma MarkedNode(input: Input, b: Built, e: Entity) returns (n: nat)
    requires AnchorsKnown(input, b) && MapsOk(input, b.d, b.maps) && e in input.sqls && e.CustomSql?
    ensures Tied(b, n) && b.d.nodes[n] == e && ItemAt(b, e, n)
    ensures e.bootstrap ==> b.anchors.bootstrap == Some(n)
    ensures e.finalize ==> b.anchors.finalize == Some(n)
  {
    n := EntityTied(input, b, e);
    MarksAre(input, b, n);
  }

  lemma MapsSorted(input: Input, b: Built)
    requires input.Valid() && MapsOk(input, b.d, b.maps)
    ensures b.maps.Valid()
  {
  }

  lemma StageHolds(m: Maps, q: Query, k: nat, e: Entity)
    requires m.Valid() && k < |Stages(m, q)| && e in Stages(m, q)[k]
    ensures m.Of(e) == Stages(m, q)[k]
  {
  }

  /** What a search finds is an entity's own node. */
  lemma FoundItem(input: Input, b: Built, q: Query, n: nat) returns (e: Entity)
    requires input.Valid() && MapsOk(input, b.d, b.maps) && (n in Found(b.maps, q) || n in AllHits(b.maps, q))
    ensures ItemAt(b, e, n) && Hits(q, e)
  {
    var k := 0;
    if n !in AllHits(b.maps, q) {
      k := FirstHitIn(Stages(b.maps, q), q, n);
    }
    var stage := Stages(b.maps, q)[k];
    e :| e in stage && Hits(q, e) && stage[e] == n;
    MapsSorted(input, b);
    StageHolds(b.maps, q, k, e);
  }

  lemma FoundTied(input: Input, b: Built, q: Query, n: nat)
    requires AnchorsKnown(input, b) && MapsOk(input, b.d, b.maps) && (n in Found(b.maps, q) || n in AllHits(b.maps, q))
    ensures Tied(b, n) && Hits(q, b.d.nodes[n])
  {
    var e := FoundItem(input, b, q, n);
    ItemTied(input, b, e, n);
  }

  lemma WantedTied(input: Input, b: Built, x: Edge)
    requires AnchorsKnown(input, b) && MapsOk(input, b.d, b.maps) && Wanted(b, x) && x.weight.By?
    ensures TiedEnds(b, x)
  {
    var e, index, w :| ItemAt(b, e, index) && w in Wants(e) && Offers(b.maps, b.d.builtins, index, w, x);
    ItemTied(input, b, e, index);
    if w.Typed? {
      OfferShape(input, b, e, index, w, x);
      SlottedNotBy(b, x);
    } else {
      FoundTied(input, b, w.query, if w.EveryOut? then x.target else x.source);
    }
  }

  /** An explicit edge joins tied nodes, or comes from the root. */
  lemma ExplicitTied(input: Input, b: Built, x: Edge)
    requires IsBuilt(input, b) && x in b.d.edges && x.weight.By?
    ensures TiedEnds(b, x)
  {
    EdgeOrigin(input, b, x);
    BuiltMaps(input, b);
    if FirstEdge(b, x) {
      FirstTied(input, b, x);
    } else if RootsSchema(b, x) {
      RootsSchemaEnds(input, b, x);
    } else {
      WantedTied(input, b, x);
    }
  }

  // ----- when every entity has an edge from bootstrap and to finalize

  ghost predicate NoneMarked(input: Input) {
    forall e :: e in input.sqls && e.CustomSql? ==> !e.bootstrap && !e.finalize
  }

  lemma NoAnchors(input: Input, b: Built)
    requires AnchorsKnown(input, b) && NoneMarked(input)
    ensures b.anchors.bootstrap.None? && b.anchors.finalize.None?
  {
    if b.anchors.bootstrap.Some? {
      NodeListed(input, b.d.nodes, b.anchors.bootstrap.value);
    }
    if b.anchors.finalize.Some? {
      NodeListed(input, b.d.nodes, b.anchors.finalize.value);
    }
  }

  lemma UntiedUnanchored(input: Input, b: Built, e: Entity, i: nat)
    requires IsBuilt(input, b) && e in input.sqls && e.CustomSql? && (e.bootstrap || e.finalize)
    requires IsEntity(b, i) && !Tied(b, i)
    ensures !Anchored(b.anchors, b.d.edges, i)
  {
    BuiltMaps(input, b);
    var n := MarkedNode(input, b, e);
    if e.bootstrap && Edge(n, i, By) in b.d.edges {
      ExplicitTied(input, b, Edge(n, i, By));
    }
    if e.finalize && Edge(i, n, By) in b.d.edges {
      ExplicitTied(input, b, Edge(i, n, By));
    }
  }

  lemma AnchoredIf(input: Input, b: Built)
    requires IsBuilt(input, b) && (Distinct(input.sqls) || NoneMarked(input))
    ensures AllAnchored(b)
  {
    BuiltBlocks(input, b);
    AllTiedIff(input, b);
    if NoneMarked(input) {
      BuiltAnchors(input, b);
      NoAnchors(input, b);
    } else {
      forall i: nat | IsEntity(b, i) ensures Anchored(b.anchors, b.d.edges, i) {
        TiedIsAnchored(input, b, i);
      }
    }
  }

  lemma SupersededBlock(input: Input, b: Built) returns (i: nat)
    requires IsBuilt(input, b) && !Distinct(input.sqls)
    ensures IsEntity(b, i) && !Tied(b, i)
  {
    BuiltBlocks(input, b);
    AllTiedIff(input, b);
    i :| IsEntity(b, i) && !Tied(b, i);
  }

  /** Bootstrap has an edge to every other entity's node, and every other entity's node one to
      finalize, if and only if no block is listed twice or none is marked. */
  lemma AllAnchoredIff(input: Input, b: Built)
    requires IsBuilt(input, b)
    ensures AllAnchored(b) <==> Distinct(input.sqls) || NoneMarked(input)
  {
    if Distinct(input.sqls) || NoneMarked(input) {
      AnchoredIf(input, b);
    } else {
      var e :| e in input.sqls && e.CustomSql? && (e.bootstrap || e.finalize);
      var i := SupersededBlock(input, b);
      UntiedUnanchored(input, b, e, i);
    }
  }
}

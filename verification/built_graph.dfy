/** The whole build (`PgrxSql::build`), from the entities of an extension to the connected
    graph. */
module BuiltGraph {
  import opened Sequences
  import opened ComponentOrder
  import opened Connections
  import opened Drafts
  import opened Entities
  import opened TypeTargets
  import opened Build
  import opened Connect
  import opened Wrappers

  /** The entities of an extension, sorted and split by kind. */
  datatype Input = Input(
    root: Entity, sqls: seq<Entity>, schemas: seq<Entity>, enums: seq<Entity>, types: seq<Entity>,
    externs: seq<Entity>, ords: seq<Entity>, hashes: seq<Entity>, aggregates: seq<Entity>, triggers: seq<Entity>)
  {
    ghost predicate Valid() {
      && root.ExtensionRoot?
      && (forall e :: e in sqls ==> e.CustomSql?)
      && (forall e :: e in schemas ==> e.Schema?)
      && (forall e :: e in enums ==> e.Enum?)
      && (forall e :: e in types ==> e.Type?)
      && (forall e :: e in externs ==> e.Function?)
      && (forall e :: e in ords ==> e.Ord?)
      && (forall e :: e in hashes ==> e.Hash?)
      && (forall e :: e in aggregates ==> e.Aggregate?)
      && (forall e :: e in triggers ==> e.Trigger?)
    }

    /** All entities, in the order in which they become nodes. */
    function All(): seq<Entity> {
      [root] + sqls + schemas + enums + types + externs + ords + hashes + aggregates + triggers
    }

    /** The list that holds entities of the kind of `e`. */
    function Of(e: Entity): seq<Entity> {
      if e.CustomSql? then sqls
      else if e.Type? then types
      else if e.Enum? then enums
      else if e.Schema? then schemas
      else if e.Function? then externs
      else if e.Ord? then ords
      else if e.Hash? then hashes
      else if e.Aggregate? then aggregates
      else if e.Trigger? then triggers
      else []
    }

    predicate Holds(e: Entity) {
      e.BuiltinType? || e in Of(e)
    }
  }

  datatype Built = Built(d: Draft, anchors: Anchors, maps: Maps)

  // ----- which inputs are accepted

  ghost function KeyMap(items: seq<Entity>): Mapped {
    map e | e in items :: 0
  }

  /** The maps as far as searches can tell whether they succeed: their keys. */
  ghost function Keys(input: Input): Maps {
    Maps(TypeMaps(KeyMap(input.types), KeyMap(input.enums), KeyMap(input.sqls)), KeyMap(input.schemas),
         KeyMap(input.externs), KeyMap(input.ords), KeyMap(input.hashes), KeyMap(input.aggregates), KeyMap(input.triggers))
  }

  /** A connection that must find something can. Type slots are another matter. */
  ghost predicate Findable(m: Maps, w: Want) {
    match w
    case Single(q, required) => required ==> Found(m, q) != {}
    case Every(q, required) => required ==> AllHits(m, q) != {}
    case _ => true
  }

  ghost predicate AllFindable(m: Maps, e: Entity) {
    forall w :: w in Wants(e) ==> Findable(m, w)
  }

  /** Everything that a type, an aggregate, a `requires` or a `schema` attribute names is there. */
  ghost predicate AllLinked(input: Input) {
    forall e :: e in input.Of(e) ==> AllFindable(Keys(input), e)
  }

  ghost predicate TypesResolve(input: Input, m: TypeMaps) {
    Unambiguous(m) && AllResolvable(m, input.externs) && AllResolvable(m, input.aggregates)
  }

  /** At most one bootstrap block and one finalize block, no type identifier declared twice, and
      every type that is said to belong to this extension declared. */
  ghost predicate TypesAccepted(input: Input) {
    AtMostOne(input.sqls, false) && AtMostOne(input.sqls, true) && TypesResolve(input, Keys(input).decls)
  }

  ghost predicate Accepted(input: Input) {
    TypesAccepted(input) && AllLinked(input)
  }

  ghost predicate SameKeys(m: Maps, n: Maps) {
    && m.decls.types.Keys == n.decls.types.Keys && m.decls.enums.Keys == n.decls.enums.Keys
    && m.decls.sqls.Keys == n.decls.sqls.Keys && m.schemas.Keys == n.schemas.Keys && m.externs.Keys == n.externs.Keys
    && m.hashes.Keys == n.hashes.Keys && m.triggers.Keys == n.triggers.Keys
  }

  lemma SameTypeKeys(m: TypeMaps, n: TypeMaps)
    requires m.types.Keys == n.types.Keys && m.enums.Keys == n.enums.Keys && m.sqls.Keys == n.sqls.Keys
    ensures Unambiguous(m) <==> Unambiguous(n)
    ensures forall ident :: Resolves(m, ident) <==> Resolves(n, ident)
  {
    assert forall p, ident :: IsPlace(m, p, ident) <==> IsPlace(n, p, ident);
  }

  lemma HitsByKeys(m: Mapped, n: Mapped, q: Query)
    requires m.Keys == n.Keys
    ensures HitsIn(m, q) == {} <==> HitsIn(n, q) == {}
  {
    if k :| k in HitsIn(m, q) {
      var e :| e in m && Hits(q, e) && m[e] == k;
      assert n[e] in HitsIn(n, q);
    }
    if k :| k in HitsIn(n, q) {
      var e :| e in n && Hits(q, e) && n[e] == k;
      assert m[e] in HitsIn(m, q);
    }
  }

  lemma {:induction false} FirstHitsByKeys(ms: seq<Mapped>, ns: seq<Mapped>, q: Query)
    requires |ms| == |ns| && forall i :: 0 <= i < |ms| ==> ms[i].Keys == ns[i].Keys
    ensures FirstHits(ms, q) == {} <==> FirstHits(ns, q) == {}
  {
    if ms != [] {
      HitsByKeys(ms[0], ns[0], q);
      FirstHitsByKeys(ms[1..], ns[1..], q);
    }
  }

  lemma FindableByKeys(m: Maps, n: Maps, e: Entity)
    requires SameKeys(m, n)
    ensures AllFindable(m, e) <==> AllFindable(n, e)
  {
    forall w ensures Findable(m, w) <==> Findable(n, w) {
      if w.Single? {
        FirstHitsByKeys(Stages(m, w.query), Stages(n, w.query), w.query);
      } else if w.Every? {
        HitsByKeys(Stages(m, w.query)[0], Stages(n, w.query)[0], w.query);
      }
    }
  }

  // ----- the nodes

  ghost predicate NodesKnown(input: Input, nodes: seq<Entity>) {
    |nodes| > 0 && nodes[0] == input.root && forall i :: 1 <= i < |nodes| ==> input.Holds(nodes[i])
  }

  /** The anchor is the one node whose block carries the mark. */
  ghost predicate AnchorIs(nodes: seq<Entity>, sqls: Mapped, finalize: bool, found: Option<nat>) {
    && (found.Some? ==>
          && found.value < |nodes| && nodes[found.value].CustomSql? && Marked(nodes[found.value], finalize)
          && nodes[found.value] in sqls && sqls[nodes[found.value]] == found.value)
    && (forall i :: 0 <= i < |nodes| && nodes[i].CustomSql? && Marked(nodes[i], finalize) ==> found == Some(i))
  }

  ghost predicate Owners(d: Draft, items: seq<Entity>, mapped: Mapped) {
    MappedIn(d.nodes, items, mapped) && AllPlaced(d, items)
  }

  /** There is no placeholder without a use. */
  ghost predicate BuiltinsUsed(input: Input, builtins: map<string, nat>) {
    forall ident :: ident in builtins ==> UsedBy(input.externs, ident) || UsedBy(input.aggregates, ident)
  }

  ghost predicate MapsOk(input: Input, d: Draft, m: Maps) {
    && MappedIn(d.nodes, input.sqls, m.decls.sqls) && MappedIn(d.nodes, input.types, m.decls.types)
    && MappedIn(d.nodes, input.enums, m.decls.enums) && MappedIn(d.nodes, input.schemas, m.schemas)
    && Owners(d, input.externs, m.externs) && MappedIn(d.nodes, input.ords, m.ords)
    && MappedIn(d.nodes, input.hashes, m.hashes) && Owners(d, input.aggregates, m.aggregates)
    && MappedIn(d.nodes, input.triggers, m.triggers)
  }

  ghost predicate AnchorsOk(nodes: seq<Entity>, sqls: Mapped, a: Anchors) {
    && a.root == 0
    && AnchorIs(nodes, sqls, false, a.bootstrap) && AnchorIs(nodes, sqls, true, a.finalize)
  }

  // ----- first phase: every step keeps what is known of the nodes

  /** A later draft: nothing moved, no block and no root added. */
  ghost predicate Later(d: Draft, d': Draft) {
    Grows(d, d') && forall i :: |d.nodes| <= i < |d'.nodes| ==> !d'.nodes[i].CustomSql?
  }

  lemma LaterTrans(d: Draft, d1: Draft, d2: Draft)
    requires Later(d, d1) && Later(d1, d2)
    ensures Later(d, d2)
  {
  }

  lemma LaterKeeps(d: Draft, d': Draft, items: seq<Entity>, mapped: Mapped)
    requires Later(d, d')
    ensures MappedIn(d.nodes, items, mapped) ==> MappedIn(d'.nodes, items, mapped)
    ensures Owners(d, items, mapped) ==> Owners(d', items, mapped)
  {
  }

  lemma LaterKeepsAnchor(d: Draft, d': Draft, sqls: Mapped, finalize: bool, found: Option<nat>)
    requires Later(d, d') && AnchorIs(d.nodes, sqls, finalize, found)
    ensures AnchorIs(d'.nodes, sqls, finalize, found)
  {
    forall i | 0 <= i < |d'.nodes| && d'.nodes[i].CustomSql? && Marked(d'.nodes[i], finalize) ensures found == Some(i) {
      assert i < |d.nodes|;
      assert d.nodes[i] == d'.nodes[i];
    }
  }

  /** The edges are exactly those that the nodes bring, and the nodes are those of the input. */
  ghost predicate Good(input: Input, a: Anchors, sqls: Mapped, d: Draft) {
    Exact(a, sqls, d) && NodesKnown(input, d.nodes)
  }

  lemma LastIndexed(nodes: seq<Entity>, items: seq<Entity>, mapped: Mapped)
    requires MapsLast(mapped, items, |nodes|)
    ensures MappedIn(nodes + items, items, mapped)
  {
  }

  lemma KnownStep(input: Input, nodes: seq<Entity>, items: seq<Entity>)
    requires NodesKnown(input, nodes) && forall e :: e in items ==> input.Holds(e)
    ensures NodesKnown(input, nodes + items)
  {
    var all := nodes + items;
    forall i | 1 <= i < |all| ensures input.Holds(all[i]) {
      assert all[i] == if i < |nodes| then nodes[i] else items[i - |nodes|];
    }
  }

  lemma LaterStep(d: Draft, d': Draft, items: seq<Entity>)
    requires d'.nodes == d.nodes + items && d'.builtins == d.builtins && forall e :: e in items ==> !e.CustomSql?
    ensures Later(d, d')
  {
    forall i | |d.nodes| <= i < |d'.nodes| ensures !d'.nodes[i].CustomSql? {
      assert d'.nodes[i] == items[i - |d.nodes|];
    }
  }

  ghost predicate Fits(input: Input, items: seq<Entity>) {
    forall e :: e in items ==> Plain(e) && input.Holds(e)
  }

  lemma AllFit(input: Input)
    requires input.Valid()
    ensures Fits(input, input.schemas) && Fits(input, input.enums) && Fits(input, input.types) && Fits(input, input.externs)
    ensures Fits(input, input.ords) && Fits(input, input.hashes) && Fits(input, input.aggregates) && Fits(input, input.triggers)
  {
    forall e | e in input.schemas ensures Plain(e) && input.Holds(e) {
      assert e.Schema?;
    }
    forall e | e in input.enums ensures Plain(e) && input.Holds(e) {
      assert e.Enum?;
    }
    forall e | e in input.types ensures Plain(e) && input.Holds(e) {
      assert e.Type?;
    }
    forall e | e in input.externs ensures Plain(e) && input.Holds(e) {
      assert e.Function?;
    }
    forall e | e in input.ords ensures Plain(e) && input.Holds(e) {
      assert e.Ord?;
    }
    forall e | e in input.hashes ensures Plain(e) && input.Holds(e) {
      assert e.Hash?;
    }
    forall e | e in input.aggregates ensures Plain(e) && input.Holds(e) {
      assert e.Aggregate?;
    }
    forall e | e in input.triggers ensures Plain(e) && input.Holds(e) {
      assert e.Trigger?;
    }
  }

  lemma ItemsStep(input: Input, a: Anchors, sqls: Mapped, d: Draft, items: seq<Entity>, mapped: Mapped)
    requires Good(input, a, sqls, d) && Fits(input, items)
    requires MapsLast(mapped, items, |d.nodes|)
    ensures var d' := AddItems(a, d, items); Good(input, a, sqls, d') && Later(d, d') && MappedIn(d'.nodes, items, mapped)
    ensures Own(AddItems(a, d, items).nodes) == Own(d.nodes) + items && AddItems(a, d, items).builtins == d.builtins
  {
    AddItemsOwn(a, d, items);
    AddItemsExact(a, sqls, d, items);
    var d' := AddItems(a, d, items);
    assert NodesKnown(input, d'.nodes) by {
      KnownStep(input, d.nodes, items);
    }
    assert Later(d, d') by {
      LaterStep(d, d', items);
    }
    assert MappedIn(d'.nodes, items, mapped) by {
      LastIndexed(d.nodes, items, mapped);
    }
  }

  lemma OwnersStep(input: Input, a: Anchors, sqls: Mapped, d: Draft, items: seq<Entity>)
    requires Good(input, a, sqls, d) && Fits(input, items)
    ensures var d' := AddOwners(a, d, items);
      Good(input, a, sqls, d') && Later(d, d') && Owners(d', items, OwnerMap(a, d, items))
    ensures Own(AddOwners(a, d, items).nodes) == Own(d.nodes) + items
    ensures forall ident :: ident in AddOwners(a, d, items).builtins ==> ident in d.builtins || UsedBy(items, ident)
  {
    AddOwnersOwn(a, d, items);
    AddOwnersExact(a, sqls, d, items);
    var d' := AddOwners(a, d, items);
    assert NodesKnown(input, d'.nodes) && Later(d, d') by {
      OwnersKnown(input, d, d', items, OwnerMap(a, d, items));
    }
  }

  lemma OwnersKnown(input: Input, d: Draft, d': Draft, items: seq<Entity>, mapped: Mapped)
    requires NodesKnown(input, d.nodes) && Fits(input, items) && Grows(d, d') && OwnersIn(d, d', items, mapped)
    ensures NodesKnown(input, d'.nodes) && Later(d, d')
  {
    forall i | |d.nodes| <= i < |d'.nodes| ensures input.Holds(d'.nodes[i]) && !d'.nodes[i].CustomSql? {
      assert d'.nodes[i].BuiltinType? || d'.nodes[i] in items;
    }
  }

  /** After the `extension_sql!` blocks. */
  lemma SqlsGood(input: Input, d: Draft, scan: SqlScan, order: seq<Entity>)
    requires input.Valid() && Scanned(input.sqls, 1, scan) && Visits(order, scan.mapped)
    requires d == BlockDraft(input, Anchors(0, scan.bootstrap, scan.finalize), scan.mapped, order)
    ensures Good(input, Anchors(0, scan.bootstrap, scan.finalize), scan.mapped, d)
  {
    var a := Anchors(0, scan.bootstrap, scan.finalize);
    SqlsKnown(input);
    forall x ensures x in d.edges <==> Brought(a, scan.mapped, d.nodes, x) {
      SqlBrought(a, input, scan.mapped, order, x);
    }
  }

  lemma SqlBrought(a: Anchors, input: Input, mapped: Mapped, order: seq<Entity>, x: Edge)
    requires input.root.ExtensionRoot? && (forall e :: e in input.sqls ==> e.CustomSql?)
    requires MapsLast(mapped, input.sqls, 1) && Visits(order, mapped)
    ensures Brought(a, mapped, [input.root] + input.sqls, x) <==> x in SqlRun(a, mapped, order)
  {
    var nodes := [input.root] + input.sqls;
    SqlRunMember(a, mapped, order, x);
    if e :| e in order && x in SqlEdgesAt(a, mapped, e) {
      LastPlaced(input.root, input.sqls, mapped, e);
      assert Brings(a, mapped, nodes, mapped[e], x);
    }
    if k: nat :| Brings(a, mapped, nodes, k, x) {
      SqlBrings(a, input, mapped, k, x);
    }
  }

  lemma LastPlaced(root: Entity, items: seq<Entity>, mapped: Mapped, e: Entity)
    requires MapsLast(mapped, items, 1) && e in mapped
    ensures mapped[e] < |[root] + items| && ([root] + items)[mapped[e]] == e
  {
  }

  lemma SqlBrings(a: Anchors, input: Input, mapped: Mapped, k: nat, x: Edge)
    requires input.root.ExtensionRoot? && (forall e :: e in input.sqls ==> e.CustomSql?)
    requires MapsLast(mapped, input.sqls, 1) && Brings(a, mapped, [input.root] + input.sqls, k, x)
    ensures exists e :: e in mapped && x in SqlEdgesAt(a, mapped, e)
  {
    var nodes := [input.root] + input.sqls;
    assert k > 0 && nodes[k] == input.sqls[k - 1];
    assert nodes[k] in input.sqls && x in SqlEdgesAt(a, mapped, nodes[k]);
  }

  lemma SqlsKnown(input: Input)
    requires input.Valid()
    ensures NodesKnown(input, [input.root] + input.sqls) && Placeholders([input.root] + input.sqls, map[])
  {
    var nodes := [input.root] + input.sqls;
    forall i | 1 <= i < |nodes| ensures nodes[i] in input.sqls {
      assert nodes[i] == input.sqls[i - 1];
    }
  }

  lemma SqlsOwn(input: Input)
    requires input.Valid()
    ensures Own([input.root] + input.sqls) == [input.root] + input.sqls
  {
    var nodes := [input.root] + input.sqls;
    forall i | 0 <= i < |nodes| ensures !nodes[i].BuiltinType? {
      assert i == 0 || (nodes[i] == input.sqls[i - 1] && nodes[i] in input.sqls);
    }
    OwnAll(nodes);
  }

  lemma SqlAnchor(input: Input, mapped: Mapped, finalize: bool, found: Option<nat>)
    requires input.Valid() && MapsLast(mapped, input.sqls, 1) && IsMarked(input.sqls, 1, finalize, found)
    ensures AnchorIs([input.root] + input.sqls, mapped, finalize, found)
  {
    var nodes := [input.root] + input.sqls;
    assert forall i :: 1 <= i < |nodes| ==> nodes[i] == input.sqls[i - 1];
    if found.Some? {
      var e := input.sqls[found.value - 1];
      assert e in input.sqls && input.sqls[mapped[e] - 1] == e;
    }
  }

  // ----- first phase

  function BlockDraft(input: Input, a: Anchors, sqls: Mapped, order: seq<Entity>): Draft {
    Draft([input.root] + input.sqls, SqlRun(a, sqls, order), map[])
  }

  function TypeDraft(input: Input, a: Anchors, d: Draft): Draft {
    AddItems(a, AddItems(a, AddItems(a, d, input.schemas), input.enums), input.types)
  }

  function FunctionDraft(input: Input, a: Anchors, d: Draft): Draft {
    AddItems(a, AddItems(a, AddOwners(a, d, input.externs), input.ords), input.hashes)
  }

  function AggregateDraft(input: Input, a: Anchors, d: Draft): Draft {
    AddItems(a, AddOwners(a, d, input.aggregates), input.triggers)
  }

  /** The graph after the first phase, given the order in which the blocks' base edges were
      added. */
  function FirstDraft(input: Input, a: Anchors, sqls: Mapped, order: seq<Entity>): Draft {
    AggregateDraft(input, a, FunctionDraft(input, a, TypeDraft(input, a, BlockDraft(input, a, sqls, order))))
  }

  /** What is known once blocks, schemas, enums and types are in. */
  ghost predicate TypesIn(input: Input, a: Anchors, m: TypeMaps, schemas: Mapped, d: Draft) {
    && Good(input, a, m.sqls, d) && AnchorsOk(d.nodes, m.sqls, a)
    && MappedIn(d.nodes, input.sqls, m.sqls) && MappedIn(d.nodes, input.types, m.types)
    && MappedIn(d.nodes, input.enums, m.enums) && MappedIn(d.nodes, input.schemas, schemas)
  }

  lemma TypesInLater(input: Input, a: Anchors, m: TypeMaps, schemas: Mapped, d: Draft, d': Draft)
    requires TypesIn(input, a, m, schemas, d) && Later(d, d') && Good(input, a, m.sqls, d')
    ensures TypesIn(input, a, m, schemas, d')
  {
    LaterKeepsAnchor(d, d', m.sqls, false, a.bootstrap);
    LaterKeepsAnchor(d, d', m.sqls, true, a.finalize);
    LaterKeeps(d, d', input.sqls, m.sqls);
    LaterKeeps(d, d', input.types, m.types);
    LaterKeeps(d, d', input.enums, m.enums);
    LaterKeeps(d, d', input.schemas, schemas);
  }

  method InitializeBlocks(g: GraphBuilder, input: Input) returns (ok: bool, scan: SqlScan, ghost order: seq<Entity>)
    requires input.Valid() && g.State() == Draft([], [], map[])
    modifies g
    ensures ok <==> AtMostOne(input.sqls, false) && AtMostOne(input.sqls, true)
    ensures ok ==> Scanned(input.sqls, 1, scan) && Visits(order, scan.mapped)
    ensures ok ==> g.State() == BlockDraft(input, AnchorsOf(scan), scan.mapped, order)
  {
    var root := g.AddNode(input.root);
    ok, scan := g.AddSqlNodes(input.sqls);
    order := [];
    if ok {
      order := g.AddSqlEdges(AnchorsOf(scan), scan.mapped);
    }
  }

  function AnchorsOf(scan: SqlScan): Anchors {
    Anchors(0, scan.bootstrap, scan.finalize)
  }

  lemma BlocksIn(input: Input, scan: SqlScan, order: seq<Entity>)
    requires input.Valid() && Scanned(input.sqls, 1, scan) && Visits(order, scan.mapped)
    ensures var d := BlockDraft(input, AnchorsOf(scan), scan.mapped, order);
      && Good(input, AnchorsOf(scan), scan.mapped, d) && AnchorsOk(d.nodes, scan.mapped, AnchorsOf(scan))
      && MappedIn(d.nodes, input.sqls, scan.mapped) && Own(d.nodes) == [input.root] + input.sqls
  {
    var a := AnchorsOf(scan);
    SqlsGood(input, BlockDraft(input, a, scan.mapped, order), scan, order);
    SqlAnchor(input, scan.mapped, false, a.bootstrap);
    SqlAnchor(input, scan.mapped, true, a.finalize);
    LastIndexed([input.root], input.sqls, scan.mapped);
    SqlsOwn(input);
  }

  // ----- schemas, enums, types

  ghost predicate TypeMapsAre(input: Input, a: Anchors, d: Draft, types: Mapped, enums: Mapped, schemas: Mapped) {
    var d1 := AddItems(a, d, input.schemas);
    && MapsLast(schemas, input.schemas, |d.nodes|)
    && MapsLast(enums, input.enums, |d1.nodes|)
    && MapsLast(types, input.types, |AddItems(a, d1, input.enums).nodes|)
  }

  method InitializeTypes(g: GraphBuilder, input: Input, a: Anchors) returns (types: Mapped, enums: Mapped, schemas: Mapped)
    modifies g
    ensures g.State() == TypeDraft(input, a, old(g.State()))
    ensures TypeMapsAre(input, a, old(g.State()), types, enums, schemas)
  {
    schemas := g.InitializeNodes(a, input.schemas);
    enums := g.InitializeNodes(a, input.enums);
    types := g.InitializeNodes(a, input.types);
  }

  /** A step keeps what holds of the nodes so far. */
  ghost predicate Step(input: Input, a: Anchors, sqls: Mapped, d: Draft, d': Draft) {
    Good(input, a, sqls, d') && Later(d, d')
  }

  lemma TypesInOk(input: Input, a: Anchors, m: TypeMaps, schemas: Mapped, d: Draft)
    requires input.Valid() && Good(input, a, m.sqls, d) && AnchorsOk(d.nodes, m.sqls, a)
    requires MappedIn(d.nodes, input.sqls, m.sqls) && TypeMapsAre(input, a, d, m.types, m.enums, schemas)
    ensures TypesIn(input, a, m, schemas, TypeDraft(input, a, d))
    ensures Own(TypeDraft(input, a, d).nodes) == Own(d.nodes) + input.schemas + input.enums + input.types
    ensures TypeDraft(input, a, d).builtins == d.builtins
  {
    AllFit(input);
    var d1 := AddItems(a, d, input.schemas);
    ItemsStep(input, a, m.sqls, d, input.schemas, schemas);
    var d2 := AddItems(a, d1, input.enums);
    ItemsStep(input, a, m.sqls, d1, input.enums, m.enums);
    var d3 := AddItems(a, d2, input.types);
    ItemsStep(input, a, m.sqls, d2, input.types, m.types);
    LaterTrans(d1, d2, d3);
    LaterTrans(d, d1, d3);
    LaterKeepsAnchor(d, d3, m.sqls, false, a.bootstrap);
    LaterKeepsAnchor(d, d3, m.sqls, true, a.finalize);
    LaterKeeps(d, d3, input.sqls, m.sqls);
    LaterKeeps(d1, d3, input.schemas, schemas);
    LaterKeeps(d2, d3, input.enums, m.enums);
  }

  // ----- functions, ords, hashes

  ghost predicate FunctionMapsAre(input: Input, a: Anchors, d: Draft, externs: Mapped, ords: Mapped, hashes: Mapped) {
    var d1 := AddOwners(a, d, input.externs);
    && externs == OwnerMap(a, d, input.externs)
    && MapsLast(ords, input.ords, |d1.nodes|)
    && MapsLast(hashes, input.hashes, |AddItems(a, d1, input.ords).nodes|)
  }

  method InitializeFunctions(g: GraphBuilder, input: Input, a: Anchors, m: TypeMaps)
    returns (ok: bool, externs: Mapped, ords: Mapped, hashes: Mapped)
    requires input.Valid() && m.Valid()
    modifies g
    ensures ok <==> AllResolvable(m, input.externs)
    ensures ok ==> g.State() == FunctionDraft(input, a, old(g.State()))
    ensures ok ==> FunctionMapsAre(input, a, old(g.State()), externs, ords, hashes)
  {
    ords, hashes := map[], map[];
    ok, externs := g.InitializeOwners(a, m, input.externs);
    if ok {
      ords := g.InitializeNodes(a, input.ords);
      hashes := g.InitializeNodes(a, input.hashes);
    }
  }

  ghost predicate FunctionsIn(input: Input, d: Draft, externs: Mapped, ords: Mapped, hashes: Mapped) {
    && Owners(d, input.externs, externs) && MappedIn(d.nodes, input.ords, ords) && MappedIn(d.nodes, input.hashes, hashes)
  }

  lemma FunctionsInOk(input: Input, a: Anchors, sqls: Mapped, d: Draft, externs: Mapped, ords: Mapped, hashes: Mapped)
    requires input.Valid() && Good(input, a, sqls, d) && FunctionMapsAre(input, a, d, externs, ords, hashes)
    ensures var d' := FunctionDraft(input, a, d); Step(input, a, sqls, d, d') && FunctionsIn(input, d', externs, ords, hashes)
    ensures Own(FunctionDraft(input, a, d).nodes) == Own(d.nodes) + input.externs + input.ords + input.hashes
    ensures forall ident :: ident in FunctionDraft(input, a, d).builtins ==> ident in d.builtins || UsedBy(input.externs, ident)
  {
    AllFit(input);
    var d1 := AddOwners(a, d, input.externs);
    OwnersStep(input, a, sqls, d, input.externs);
    var d2 := AddItems(a, d1, input.ords);
    ItemsStep(input, a, sqls, d1, input.ords, ords);
    var d3 := AddItems(a, d2, input.hashes);
    ItemsStep(input, a, sqls, d2, input.hashes, hashes);
    LaterTrans(d1, d2, d3);
    LaterTrans(d, d1, d3);
    LaterKeeps(d1, d3, input.externs, externs);
    LaterKeeps(d2, d3, input.ords, ords);
  }

  // ----- aggregates, triggers

  ghost predicate AggregateMapsAre(input: Input, a: Anchors, d: Draft, aggregates: Mapped, triggers: Mapped) {
    && aggregates == OwnerMap(a, d, input.aggregates)
    && MapsLast(triggers, input.triggers, |AddOwners(a, d, input.aggregates).nodes|)
  }

  method InitializeAggregates(g: GraphBuilder, input: Input, a: Anchors, m: TypeMaps)
    returns (ok: bool, aggregates: Mapped, triggers: Mapped)
    requires input.Valid() && m.Valid()
    modifies g
    ensures ok <==> AllResolvable(m, input.aggregates)
    ensures ok ==> g.State() == AggregateDraft(input, a, old(g.State()))
    ensures ok ==> AggregateMapsAre(input, a, old(g.State()), aggregates, triggers)
  {
    triggers := map[];
    ok, aggregates := g.InitializeOwners(a, m, input.aggregates);
    if ok {
      triggers := g.InitializeNodes(a, input.triggers);
    }
  }

  ghost predicate AggregatesIn(input: Input, d: Draft, aggregates: Mapped, triggers: Mapped) {
    Owners(d, input.aggregates, aggregates) && MappedIn(d.nodes, input.triggers, triggers)
  }

  lemma AggregatesInOk(input: Input, a: Anchors, sqls: Mapped, d: Draft, aggregates: Mapped, triggers: Mapped)
    requires input.Valid() && Good(input, a, sqls, d) && AggregateMapsAre(input, a, d, aggregates, triggers)
    ensures var d' := AggregateDraft(input, a, d); Step(input, a, sqls, d, d') && AggregatesIn(input, d', aggregates, triggers)
    ensures Own(AggregateDraft(input, a, d).nodes) == Own(d.nodes) + input.aggregates + input.triggers
    ensures forall ident :: ident in AggregateDraft(input, a, d).builtins ==> ident in d.builtins || UsedBy(input.aggregates, ident)
  {
    AllFit(input);
    var d1 := AddOwners(a, d, input.aggregates);
    OwnersStep(input, a, sqls, d, input.aggregates);
    ItemsStep(input, a, sqls, d1, input.triggers, triggers);
    var d2 := AddItems(a, d1, input.triggers);
    LaterTrans(d, d1, d2);
    LaterKeeps(d1, d2, input.aggregates, aggregates);
  }

  // ----- the whole build

  /** What the input leaves open: the order in which the blocks' base edges were added, the edges
      from the root, and the edges that the searches led to. */
  datatype Run = Run(sqlOrder: seq<Entity>, roots: seq<Edge>, added: seq<Edge>)

  /** The edges, one by one: those of the first phase, one from the root per schema, and those of
      one fulfilment of every connection of every entity. */
  ghost predicate EdgesListed(input: Input, b: Built, run: Run) {
    && Visits(run.sqlOrder, b.maps.decls.sqls)
    && Rooted(0, b.maps.schemas, run.roots) && AllConnected(b.maps, b.d.builtins, run.added)
    && b.d == WithEdges(FirstDraft(input, b.anchors, b.maps.decls.sqls, run.sqlOrder), run.roots + run.added)
  }

  function WithEdges(d: Draft, more: seq<Edge>): Draft {
    d.(edges := d.edges + more)
  }

  ghost predicate NodesOk(input: Input, b: Built) {
    && NodesKnown(input, b.d.nodes) && Placeholders(b.d.nodes, b.d.builtins) && AnchorsOk(b.d.nodes, b.maps.decls.sqls, b.anchors)
    && MapsOk(input, b.d, b.maps) && b.maps.Valid()
    && Own(b.d.nodes) == input.All() && BuiltinsUsed(input, b.d.builtins)
  }

  ghost predicate IsRun(input: Input, b: Built, run: Run) {
    && input.Valid() && Accepted(input) && NodesOk(input, b) && TypesResolve(input, b.maps.decls) && EdgesListed(input, b, run)
    && Good(input, b.anchors, b.maps.decls.sqls, FirstDraft(input, b.anchors, b.maps.decls.sqls, run.sqlOrder))
  }

  /** `b` is a graph that the build may make of the input. */
  ghost predicate IsBuilt(input: Input, b: Built) {
    exists run :: IsRun(input, b, run)
  }

  /** The state after the first phase. */
  ghost predicate Initialized(input: Input, b: Built, order: seq<Entity>) {
    && input.Valid() && Visits(order, b.maps.decls.sqls)
    && b.d == FirstDraft(input, b.anchors, b.maps.decls.sqls, order)
    && Good(input, b.anchors, b.maps.decls.sqls, b.d)
    && NodesOk(input, b) && TypesResolve(input, b.maps.decls)
  }

  ghost predicate IsInitialized(input: Input, b: Built) {
    exists order :: Initialized(input, b, order)
  }

  lemma InitializedOk(input: Input, scan: SqlScan, order: seq<Entity>, b: Built)
    requires input.Valid() && Scanned(input.sqls, 1, scan) && Visits(order, scan.mapped)
    requires b.anchors == AnchorsOf(scan) && b.maps.decls.sqls == scan.mapped
    requires var d1 := BlockDraft(input, b.anchors, scan.mapped, order);
      var d2 := TypeDraft(input, b.anchors, d1);
      var d3 := FunctionDraft(input, b.anchors, d2);
      && TypeMapsAre(input, b.anchors, d1, b.maps.decls.types, b.maps.decls.enums, b.maps.schemas)
      && FunctionMapsAre(input, b.anchors, d2, b.maps.externs, b.maps.ords, b.maps.hashes)
      && AggregateMapsAre(input, b.anchors, d3, b.maps.aggregates, b.maps.triggers)
      && b.d == AggregateDraft(input, b.anchors, d3)
    requires TypesResolve(input, b.maps.decls)
    ensures Initialized(input, b, order)
  {
    var a, sqls := b.anchors, scan.mapped;
    var d1 := BlockDraft(input, a, sqls, order);
    BlocksIn(input, scan, order);
    var d2 := TypeDraft(input, a, d1);
    TypesInOk(input, a, b.maps.decls, b.maps.schemas, d1);
    var d3 := FunctionDraft(input, a, d2);
    FunctionsInOk(input, a, sqls, d2, b.maps.externs, b.maps.ords, b.maps.hashes);
    AggregatesInOk(input, a, sqls, d3, b.maps.aggregates, b.maps.triggers);
    AllMapsOk(input, b, d2, d3);
    AllOwn(input, d1, d2, d3, b.d);
    assert FirstDraft(input, a, sqls, order) == b.d;
  }

  lemma AllMapsOk(input: Input, b: Built, d2: Draft, d3: Draft)
    requires TypesIn(input, b.anchors, b.maps.decls, b.maps.schemas, d2)
    requires Later(d2, d3) && FunctionsIn(input, d3, b.maps.externs, b.maps.ords, b.maps.hashes)
    requires Step(input, b.anchors, b.maps.decls.sqls, d3, b.d) && AggregatesIn(input, b.d, b.maps.aggregates, b.maps.triggers)
    requires input.Valid()
    ensures MapsOk(input, b.d, b.maps) && AnchorsOk(b.d.nodes, b.maps.decls.sqls, b.anchors) && b.maps.Valid()
  {
    LaterTrans(d2, d3, b.d);
    TypesInLater(input, b.anchors, b.maps.decls, b.maps.schemas, d2, b.d);
    LaterKeeps(d3, b.d, input.externs, b.maps.externs);
    LaterKeeps(d3, b.d, input.ords, b.maps.ords);
    LaterKeeps(d3, b.d, input.hashes, b.maps.hashes);
    MapsValid(input, b.d, b.maps);
  }

  lemma MapsValid(input: Input, d: Draft, m: Maps)
    requires input.Valid() && MapsOk(input, d, m)
    ensures m.Valid()
  {
  }

  lemma AllOwn(input: Input, d1: Draft, d2: Draft, d3: Draft, d4: Draft)
    requires Own(d1.nodes) == [input.root] + input.sqls && d1.builtins == map[] && d2.builtins == d1.builtins
    requires Own(d2.nodes) == Own(d1.nodes) + input.schemas + input.enums + input.types
    requires Own(d3.nodes) == Own(d2.nodes) + input.externs + input.ords + input.hashes
    requires Own(d4.nodes) == Own(d3.nodes) + input.aggregates + input.triggers
    requires forall ident :: ident in d3.builtins ==> ident in d2.builtins || UsedBy(input.externs, ident)
    requires forall ident :: ident in d4.builtins ==> ident in d3.builtins || UsedBy(input.aggregates, ident)
    ensures Own(d4.nodes) == input.All() && BuiltinsUsed(input, d4.builtins)
  {
  }

  /** The maps and the input agree on what can be found. */
  lemma KeysAgree(input: Input, d: Draft, m: Maps)
    requires MapsOk(input, d, m)
    ensures SameKeys(m, Keys(input))
  {
    assert m.decls.types.Keys == Keys(input).decls.types.Keys;
    assert m.decls.enums.Keys == Keys(input).decls.enums.Keys;
    assert m.decls.sqls.Keys == Keys(input).decls.sqls.Keys;
    assert m.schemas.Keys == Keys(input).schemas.Keys;
    assert m.externs.Keys == Keys(input).externs.Keys;
    assert m.hashes.Keys == Keys(input).hashes.Keys;
    assert m.triggers.Keys == Keys(input).triggers.Keys;
  }

  lemma TypeKeysAgree(input: Input, nodes: seq<Entity>, m: TypeMaps)
    requires input.Valid()
    requires MappedIn(nodes, input.sqls, m.sqls) && MappedIn(nodes, input.types, m.types) && MappedIn(nodes, input.enums, m.enums)
    ensures m.Valid() && (TypesResolve(input, m) <==> TypesResolve(input, Keys(input).decls))
    ensures Unambiguous(m) <==> Unambiguous(Keys(input).decls)
  {
    assert m.types.Keys == Keys(input).decls.types.Keys;
    assert m.enums.Keys == Keys(input).decls.enums.Keys;
    assert m.sqls.Keys == Keys(input).decls.sqls.Keys;
    SameTypeKeys(m, Keys(input).decls);
    SameResolvable(m, Keys(input).decls, input.externs);
    SameResolvable(m, Keys(input).decls, input.aggregates);
  }

  lemma SameResolvable(m: TypeMaps, n: TypeMaps, items: seq<Entity>)
    requires forall ident :: Resolves(m, ident) <==> Resolves(n, ident)
    ensures AllResolvable(m, items) <==> AllResolvable(n, items)
  {
    assert forall s :: Resolvable(m, s) <==> Resolvable(n, s);
  }

  // ----- first phase as a whole

  lemma DeclsAgree(input: Input, scan: SqlScan, order: seq<Entity>, m: TypeMaps, schemas: Mapped)
    requires input.Valid() && Scanned(input.sqls, 1, scan) && Visits(order, scan.mapped) && m.sqls == scan.mapped
    requires TypeMapsAre(input, AnchorsOf(scan), BlockDraft(input, AnchorsOf(scan), scan.mapped, order), m.types, m.enums, schemas)
    ensures m.Valid() && (TypesResolve(input, m) <==> TypesResolve(input, Keys(input).decls))
    ensures Unambiguous(m) <==> Unambiguous(Keys(input).decls)
  {
    var d1 := BlockDraft(input, AnchorsOf(scan), scan.mapped, order);
    BlocksIn(input, scan, order);
    TypesInOk(input, AnchorsOf(scan), m, schemas, d1);
    TypeKeysAgree(input, TypeDraft(input, AnchorsOf(scan), d1).nodes, m);
  }

  /** The first phase, with the check that type targets are unique. */
  method Initialize(g: GraphBuilder, input: Input) returns (ok: bool, a: Anchors, m: Maps)
    requires input.Valid() && g.State() == Draft([], [], map[])
    modifies g
    ensures ok <==> TypesAccepted(input)
    ensures ok ==> IsInitialized(input, Built(g.State(), a, m))
  {
    m := Maps(TypeMaps(map[], map[], map[]), map[], map[], map[], map[], map[], map[]);
    var scan;
    ghost var order;
    ok, scan, order := InitializeBlocks(g, input);
    a := AnchorsOf(scan);
    if !ok {
      return;
    }
    var types, enums, schemas := InitializeTypes(g, input, a);
    var decls := TypeMaps(types, enums, scan.mapped);
    DeclsAgree(input, scan, order, decls, schemas);
    ok := EnsureUniqueTypeTargets(decls);
    if !ok {
      return;
    }
    var externs, ords, hashes;
    ok, externs, ords, hashes := InitializeFunctions(g, input, a, decls);
    if !ok {
      return;
    }
    var aggregates, triggers;
    ok, aggregates, triggers := InitializeAggregates(g, input, a, decls);
    if !ok {
      return;
    }
    m := Maps(decls, schemas, externs, ords, hashes, aggregates, triggers);
    InitializedOk(input, scan, order, Built(g.State(), a, m));
  }

  // ----- second phase

  /** The slots that the first phase let through are available in the second. */
  lemma NothingLeftToFail(m: TypeMaps, d: Draft, items: seq<Entity>, e: Entity, s: Slot)
    requires AllResolvable(m, items) && AllPlaced(d, items) && e in items && s in Slots(e)
    ensures Available(m, d.builtins, s)
  {
    assert SlotsResolvable(m, Slots(e)) && Placed(d, Slots(e));
    assert Resolvable(m, s);
  }

  lemma SatisfiedIffFindable(input: Input, b: Built, e: Entity)
    requires TypesResolve(input, b.maps.decls) && AllPlaced(b.d, input.externs) && AllPlaced(b.d, input.aggregates)
    requires e.Function? ==> e in input.externs
    requires e.Aggregate? ==> e in input.aggregates
    ensures AllSatisfied(b.maps, b.d.builtins, Wants(e)) <==> AllFindable(b.maps, e)
  {
    forall w | w in Wants(e) ensures Satisfied(b.maps, b.d.builtins, w) <==> Findable(b.maps, w) {
      if w.Typed? {
        TypedIsSlot(e, w.slot);
        NothingLeftToFail(b.maps.decls, b.d, if e.Function? then input.externs else input.aggregates, e, w.slot);
      }
    }
  }

  lemma KeysOf(input: Input, d: Draft, m: Maps, e: Entity)
    requires MapsOk(input, d, m)
    ensures e in m.Of(e) <==> e in input.Of(e)
  {
  }

  lemma ConnectableAt(input: Input, b: Built, e: Entity)
    requires MapsOk(input, b.d, b.maps) && TypesResolve(input, b.maps.decls) && SameKeys(b.maps, Keys(input))
    ensures (PhaseOf(e) < 8 && e in b.maps.Of(e) ==> AllSatisfied(b.maps, b.d.builtins, Wants(e))) <==>
      (e in input.Of(e) ==> AllFindable(Keys(input), e))
  {
    KeysOf(input, b.d, b.maps, e);
    FindableByKeys(b.maps, Keys(input), e);
    if e in input.Of(e) {
      SatisfiedIffFindable(input, b, e);
    }
  }

  lemma ConnectableIff(input: Input, b: Built)
    requires MapsOk(input, b.d, b.maps) && TypesResolve(input, b.maps.decls)
    ensures Connectable(b.maps, b.d.builtins, 8) <==> AllLinked(input)
  {
    KeysAgree(input, b.d, b.maps);
    forall e ensures (PhaseOf(e) < 8 && e in b.maps.Of(e) ==> AllSatisfied(b.maps, b.d.builtins, Wants(e))) <==>
        (e in input.Of(e) ==> AllFindable(Keys(input), e))
    {
      ConnectableAt(input, b, e);
    }
  }

  lemma MapsUsable(nodes: seq<Entity>, items: seq<Entity>, mapped: Mapped)
    requires MappedIn(nodes, items, mapped)
    ensures OneToOne(mapped)
  {
  }

  lemma ReadyToConnect(input: Input, b: Built)
    requires IsInitialized(input, b)
    ensures Usable(b.maps) && b.maps.Valid()
    ensures Connectable(b.maps, b.d.builtins, 8) <==> AllLinked(input)
  {
    var order :| Initialized(input, b, order);
    ConnectableIff(input, b);
    MapsUsable(b.d.nodes, input.schemas, b.maps.schemas);
    MapsUsable(b.d.nodes, input.externs, b.maps.externs);
    MapsUsable(b.d.nodes, input.hashes, b.maps.hashes);
  }

  /** `b` is `b0` with the edges of the second phase. */
  ghost predicate ConnectedFrom(b0: Built, b: Built) {
    exists roots, added ::
      && Rooted(0, b0.maps.schemas, roots) && AllConnected(b0.maps, b0.d.builtins, added)
      && b == b0.(d := Draft(b0.d.nodes, b0.d.edges + roots + added, b0.d.builtins))
  }

  /** The second phase. */
  method ConnectGraph(g: GraphBuilder, a: Anchors, m: Maps) returns (r: Option<Built>)
    requires Usable(m) && m.Valid()
    modifies g`edges
    ensures r.Some? <==> Connectable(m, g.builtins, 8)
    ensures r.Some? ==> ConnectedFrom(Built(old(g.State()), a, m), r.value)
  {
    ghost var roots := g.ConnectSchemas(0, m.schemas);
    var ok;
    ghost var added;
    ok, added := ConnectPhases(g, m);
    if ok {
      r := Some(Built(Draft(g.nodes, g.edges, g.builtins), a, m));
    } else {
      r := None;
    }
  }

  /** `PgrxSql::build`. It succeeds exactly on the accepted inputs: once the first phase is
      through, connecting a type slot cannot fail. */
  method BuildGraph(input: Input) returns (r: Option<Built>)
    requires input.Valid()
    ensures r.Some? <==> Accepted(input)
    ensures r.Some? ==> IsBuilt(input, r.value)
  {
    var g := new GraphBuilder();
    var ok, a, m := Initialize(g, input);
    if !ok {
      return None;
    }
    ghost var b0 := Built(g.State(), a, m);
    ReadyToConnect(input, b0);
    r := ConnectGraph(g, a, m);
    if r.Some? {
      BuiltOk(input, b0, r.value);
    }
  }

  lemma BuiltOk(input: Input, b0: Built, b: Built)
    ensures Accepted(input) && IsInitialized(input, b0) && ConnectedFrom(b0, b) ==> IsBuilt(input, b)
  {
    if Accepted(input) && IsInitialized(input, b0) && ConnectedFrom(b0, b) {
      var order :| Initialized(input, b0, order);
      var roots, added :|
        && Rooted(0, b0.maps.schemas, roots) && AllConnected(b0.maps, b0.d.builtins, added)
        && b == b0.(d := Draft(b0.d.nodes, b0.d.edges + roots + added, b0.d.builtins));
      Associate(b0.d.edges, roots, added);
      var run := Run(order, roots, added);
      assert b.d == WithEdges(b0.d, roots + added);
      assert EdgesListed(input, b, run);
      SameNodesOk(input, b0, b);
      assert IsRun(input, b, run);
    }
  }

  lemma SameNodesOk(input: Input, b0: Built, b: Built)
    requires NodesOk(input, b0) && b.anchors == b0.anchors && b.maps == b0.maps
    requires b.d.nodes == b0.d.nodes && b.d.builtins == b0.d.builtins
    ensures NodesOk(input, b)
  {
  }
}

/** The edges of every built graph, in the words of the entities at their ends. */
module PlainGraph {
  import opened ComponentOrder
  import opened Connections
  import opened Drafts
  import opened Entities
  import opened TypeTargets
  import opened BuiltGraph
  import opened BuiltFacts
  import opened TiedNodes
  import opened PlainEntities
  import opened Wrappers
  import ExplicitCycles

  // ----- nodes

  lemma OneNode(nodes: seq<Entity>, e: Entity, i: nat, j: nat)
    requires i < |nodes| && j < |nodes| && nodes[i] == e && nodes[j] == e && !Twice(nodes, e)
    ensures i == j
  {
    assert i < j ==> Twice(nodes, e);
    assert j < i ==> Twice(nodes, e);
  }

  /** The node of an entity that is listed once is the one that the maps point at. */
  lemma ListedOnce(input: Input, b: Built, i: nat)
    requires IsBuilt(input, b) && IsEntity(b, i) && !Twice(input.All(), b.d.nodes[i])
    ensures ItemAt(b, b.d.nodes[i], i)
  {
    var e := b.d.nodes[i];
    BuiltMaps(input, b);
    BuiltBlocks(input, b);
    UntiedIs(input, b, i);
    var j := EntityTied(input, b, e);
    TwiceIff(b.d.nodes, e);
    OneNode(b.d.nodes, e, i, j);
  }

  // ----- no other edges

  /** An explicit edge comes from the root or the bootstrap block, goes to the finalize block, or joins
      an entity to one that comes before it. */
  lemma ExplicitFeeds(input: Input, b: Built, x: Edge)
    requires IsBuilt(input, b) && x in b.d.edges && x.weight.By?
    requires x.source != 0 && b.anchors.bootstrap != Some(x.source) && b.anchors.finalize != Some(x.target)
    ensures x.source < |b.d.nodes| && x.target < |b.d.nodes| && Feeds(b.d.nodes[x.source], b.d.nodes[x.target])
  {
    ExplicitCycles.EdgeShaped(input, b, x);
    LinkFeeds(b.d.nodes, x);
  }

  lemma LinkFeeds(nodes: seq<Entity>, x: Edge)
    requires Links(nodes, x) || LinksOut(nodes, x)
    ensures x.source < |nodes| && x.target < |nodes| && Feeds(nodes[x.source], nodes[x.target])
  {
    var s, t := nodes[x.source], nodes[x.target];
    if Links(nodes, x) {
      var w :| w in Wants(t) && (w.Single? || w.Every?) && Hits(w.query, s);
      WantFeeds(t, w, s);
    } else {
      var w :| w in Wants(s) && w.EveryOut? && Hits(w.query, t);
      OutFeeds(s, w, t);
    }
  }

  // ----- edges from everything that fits

  lemma AllHitsLinked(input: Input, b: Built, e: Entity, index: nat, w: Want, s: Entity, n: nat)
    requires IsBuilt(input, b) && ItemAt(b, e, index) && ItemAt(b, s, n)
    requires w in Wants(e) && (w.Every? || w.EveryOut?) && Hits(w.query, s)
    ensures (if w.EveryOut? then Edge(index, n, By) else Edge(n, index, By)) in b.d.edges
  {
    WantMet(input, b, e, index, w);
    ExplicitCycles.HitIsFound(b.maps, w.query, s);
    ExplicitCycles.OneStageIs(b.maps, e, w);
    ExplicitCycles.EveryMet(b, index, w, n);
  }

  /** The comparison functions of an ordered type all come before its operator class. */
  lemma OperatorEdge(input: Input, b: Built, f: Entity, j: nat, o: Entity, i: nat)
    requires IsBuilt(input, b) && ItemAt(b, f, j) && ItemAt(b, o, i)
    requires f.Function? && o.Ord? && f.modulePath == o.modulePath
    requires || f.name == o.lowerName + "_cmp" || f.name == o.lowerName + "_lt" || f.name == o.lowerName + "_le"
             || f.name == o.lowerName + "_eq" || f.name == o.lowerName + "_gt" || f.name == o.lowerName + "_ge"
    ensures Edge(j, i, By) in b.d.edges
  {
    var w := SearchesOperators(f, o);
    AllHitsLinked(input, b, o, i, w, f, j);
  }

  /** An equality function comes before the hash operator class of its type. */
  lemma EqualityEdge(input: Input, b: Built, f: Entity, j: nat, h: Entity, i: nat)
    requires IsBuilt(input, b) && ItemAt(b, f, j) && ItemAt(b, h, i)
    requires f.Function? && h.Hash? && f.modulePath == h.modulePath && f.name == h.lowerName + "_eq"
    ensures Edge(j, i, By) in b.d.edges
  {
    SearchesEquality(f, h);
    AllHitsLinked(input, b, f, j, EveryOut(HashWith(f.modulePath, f.name)), h, i);
  }

  /** All schemas of the name that a function declares come before it. */
  lemma DeclaredSchemaEdge(input: Input, b: Built, s: Entity, j: nat, f: Entity, i: nat)
    requires IsBuilt(input, b) && ItemAt(b, s, j) && ItemAt(b, f, i)
    requires s.Schema? && f.Function? && InSchema(s.name) in f.attrs
    ensures Edge(j, i, By) in b.d.edges
  {
    var required := SearchesDeclared(f, s.name);
    AllHitsLinked(input, b, f, i, Every(SchemaNamed(s.name), required), s, j);
  }

  // ----- edges from one thing that fits

  /** A search that some entity meets ends at one that meets it. */
  lemma SomeHitLinked(input: Input, b: Built, e: Entity, index: nat, q: Query, required: bool, s: Entity) returns (t: Entity, n: nat)
    requires IsBuilt(input, b) && ItemAt(b, e, index) && Single(q, required) in Wants(e)
    requires s in input.Of(s) && Hits(q, s)
    ensures n in Found(b.maps, q) && ItemAt(b, t, n) && Hits(q, t) && Edge(n, index, By) in b.d.edges
  {
    BuiltMaps(input, b);
    ItemIndex(input, b, s);
    ExplicitCycles.HitIsFound(b.maps, q, s);
    WantMet(input, b, e, index, Single(q, required));
    n := SingleMet(b.maps, b.d.builtins, b.d.edges, index, q, required);
    t := FoundItem(input, b, q, n);
  }

  /** A schema of its module, if there is one, comes before an entity that declares none. */
  lemma ModuleSchemaEdge(input: Input, b: Built, s: Entity, e: Entity, index: nat) returns (t: Entity, n: nat)
    requires IsBuilt(input, b) && ItemAt(b, e, index) && s in input.schemas && ModuleSchema(s, e)
    ensures ItemAt(b, t, n) && t.Schema? && t.modulePath == s.modulePath && Edge(n, index, By) in b.d.edges
  {
    SearchesModule(e);
    t, n := SomeHitLinked(input, b, e, index, SchemaAt(e.modulePath), false, s);
  }

  lemma ItemListed(input: Input, b: Built, e: Entity, index: nat)
    requires IsBuilt(input, b) && ItemAt(b, e, index)
    ensures e in input.Of(e)
  {
    BuiltMaps(input, b);
    ItemIndex(input, b, e);
  }

  lemma HashHitLinked(input: Input, b: Built, f: Entity, h: Entity, i: nat) returns (t: Entity, n: nat)
    requires IsBuilt(input, b) && ItemAt(b, h, i) && f in input.Of(f) && HashFunction(f, h)
    ensures ItemAt(b, t, n) && HashFunction(t, h) && Edge(n, i, By) in b.d.edges
  {
    SearchesHash(h, f);
    t, n := SomeHitLinked(input, b, h, i, FunctionNamed(h.modulePath, [h.lowerName + "_hash"]), false, f);
    SearchesHash(h, t);
  }

  /** A hash function of the type, if there is one, comes before its hash operator class. */
  lemma HashFunctionEdge(input: Input, b: Built, f: Entity, j: nat, h: Entity, i: nat) returns (t: Entity, n: nat)
    requires IsBuilt(input, b) && ItemAt(b, f, j) && ItemAt(b, h, i)
    requires f.Function? && h.Hash? && f.modulePath == h.modulePath && f.name == h.lowerName + "_hash"
    ensures ItemAt(b, t, n) && t in input.Of(t) && Edge(n, i, By) in b.d.edges
    ensures t.Function? && t.modulePath == h.modulePath && t.name == h.lowerName + "_hash"
  {
    ItemListed(input, b, f, j);
    t, n := HashHitLinked(input, b, f, h, i);
    ItemListed(input, b, t, n);
  }

  /** No other function of the module has the name. */
  ghost predicate OnlyOne(input: Input, f: Entity)
    requires f.Function?
  {
    forall g :: g in input.externs && g.Function? && g.modulePath == f.modulePath && g.name == f.name ==> g == f
  }

  lemma FromOnlyOne(input: Input, b: Built, f: Entity, j: nat, t: Entity, n: nat, i: nat)
    requires f.Function? && OnlyOne(input, f) && t in input.Of(t) && t.Function? && t.modulePath == f.modulePath && t.name == f.name
    requires ItemAt(b, f, j) && ItemAt(b, t, n) && Edge(n, i, By) in b.d.edges
    ensures Edge(j, i, By) in b.d.edges
  {
  }

  /** If there is one only, it is that one. */
  lemma OnlyHashFunctionEdge(input: Input, b: Built, f: Entity, j: nat, h: Entity, i: nat)
    requires IsBuilt(input, b) && ItemAt(b, f, j) && ItemAt(b, h, i)
    requires f.Function? && h.Hash? && f.modulePath == h.modulePath && f.name == h.lowerName + "_hash" && OnlyOne(input, f)
    ensures Edge(j, i, By) in b.d.edges
  {
    var t, n := HashFunctionEdge(input, b, f, j, h, i);
    FromOnlyOne(input, b, f, j, t, n, i);
  }

  lemma OperandUnique(m: Maps, s: Entity, t: Entity)
    requires Unambiguous(m.decls) && s in m.Of(s) && t in m.Of(t) && (s.Type? || s.Enum?) && (t.Type? || t.Enum?) && s.typeIdent == t.typeIdent
    ensures s == t
  {
    var p := if s.Type? then InType(s) else InEnum(s);
    var q := if t.Type? then InType(t) else InEnum(t);
    assert IsPlace(m.decls, p, s.typeIdent) && IsPlace(m.decls, q, s.typeIdent);
  }

  lemma OperandHitLinked(input: Input, b: Built, s: Entity, e: Entity, i: nat) returns (t: Entity, n: nat)
    requires IsBuilt(input, b) && ItemAt(b, e, i) && s in input.Of(s) && OperandType(s, e)
    ensures ItemAt(b, t, n) && OperandType(t, e) && Edge(n, i, By) in b.d.edges
  {
    SearchesOperand(e, s);
    t, n := SomeHitLinked(input, b, e, i, TypeOrEnum(e.typeIdent), false, s);
    SearchesOperand(e, t);
  }

  /** The type or enum of an operator class comes before it. */
  lemma OperandEdge(input: Input, b: Built, s: Entity, j: nat, e: Entity, i: nat)
    requires IsBuilt(input, b) && ItemAt(b, s, j) && ItemAt(b, e, i)
    requires (s.Type? || s.Enum?) && (e.Ord? || e.Hash?) && s.typeIdent == e.typeIdent
    ensures Edge(j, i, By) in b.d.edges
  {
    BuiltMaps(input, b);
    ItemIndex(input, b, s);
    var t, n := OperandHitLinked(input, b, s, e, i);
    BuiltNodes(input, b);
    OperandUnique(b.maps, s, t);
  }

  /** Each function that a type names comes before it. */
  lemma TypeFunctionEdge(input: Input, b: Built, t: Entity, index: nat, name: string, path: string) returns (n: nat)
    requires IsBuilt(input, b) && ItemAt(b, t, index) && NamesFunction(t, name) && NamesPath(t.modulePath, name, path)
    ensures n < |b.d.nodes| && b.d.nodes[n].Function? && b.d.nodes[n].fullPath == path && Edge(n, index, By) in b.d.edges
  {
    SearchesFunction(t, path);
    n := RequiredConnected(input, b, t, index, FunctionAt(path));
  }

  /** Each function that an aggregate names comes before it. */
  lemma AggregateFunctionEdge(input: Input, b: Built, t: Entity, index: nat, name: string) returns (n: nat)
    requires IsBuilt(input, b) && ItemAt(b, t, index) && t.Aggregate? && name in t.functions
    ensures n < |b.d.nodes| && b.d.nodes[n].Function? && b.d.nodes[n].fullPath == t.modulePath + "::" + name
    ensures Edge(n, index, By) in b.d.edges
  {
    SearchesAggregate(t, name);
    n := RequiredConnected(input, b, t, index, FunctionAt(t.modulePath + "::" + name));
  }

  // ----- references

  /** Types are looked for before enums, and so on. */
  function Turn(e: Entity): int {
    if e.Type? then 0 else if e.Enum? then 1 else if e.Function? then 2 else if e.Schema? then 3 else 4
  }

  lemma {:induction false} FirstStage(stages: seq<Mapped>, q: Query, n: nat, j: nat) returns (k: nat)
    requires n in FirstHits(stages, q) && j < |stages| && HitsIn(stages[j], q) != {}
    ensures k <= j && n in HitsIn(stages[k], q)
  {
    if HitsIn(stages[0], q) != {} {
      k := 0;
    } else {
      k := FirstStage(stages[1..], q, n, j - 1);
      k := k + 1;
    }
  }

  lemma TurnIsStage(m: Maps, path: string, e: Entity)
    requires e in m.Of(e) && Hits(Positioned(FullPath(path)), e)
    ensures var stages := Stages(m, Positioned(FullPath(path)));
      Turn(e) < |stages| && m.Of(e) == stages[Turn(e)] && m.Of(e)[e] in HitsIn(stages[Turn(e)], Positioned(FullPath(path)))
  {
  }

  lemma StageTurn(m: Maps, path: string, k: nat, n: nat) returns (e: Entity)
    requires m.Valid() && k < 5 && n in HitsIn(Stages(m, Positioned(FullPath(path)))[k], Positioned(FullPath(path)))
    ensures e in m.Of(e) && m.Of(e)[e] == n && Turn(e) == k
  {
    var stage := Stages(m, Positioned(FullPath(path)))[k];
    e :| e in stage && Hits(Positioned(FullPath(path)), e) && stage[e] == n;
  }

  /** What a path finds has its turn no later than anything else that the path names. */
  lemma FoundFirst(input: Input, b: Built, path: string, t: Entity, n: nat, s: Entity)
    requires AnchorsKnown(input, b) && MapsOk(input, b.d, b.maps)
    requires n in Found(b.maps, Positioned(FullPath(path))) && ItemAt(b, t, n)
    requires s in input.Of(s) && RefNames(FullPath(path), s)
    ensures Turn(t) <= Turn(s)
  {
    ItemIndex(input, b, s);
    RefHitsIs(FullPath(path), s);
    TurnIsStage(b.maps, path, s);
    var k := FirstStage(Stages(b.maps, Positioned(FullPath(path))), Positioned(FullPath(path)), n, Turn(s));
    MapsSorted(input, b);
    var e := StageTurn(b.maps, path, k, n);
    ItemNode(input, b, e, n);
    ItemNode(input, b, t, n);
  }

  /** Whatever a `requires` or a support function names, one such entity comes before the entity that
      names it: with a path, one of the kind whose turn is first. */
  lemma ReferenceEdge(input: Input, b: Built, e: Entity, index: nat, ref: PositioningRef, s: Entity) returns (t: Entity, n: nat)
    requires IsBuilt(input, b) && ItemAt(b, e, index) && References(e, ref) && s in input.Of(s) && RefNames(ref, s)
    ensures ItemAt(b, t, n) && RefNames(ref, t) && Edge(n, index, By) in b.d.edges
    ensures ref.FullPath? ==> Turn(t) <= Turn(s)
  {
    var required := SearchesReference(e, ref);
    RefHitsIs(ref, s);
    t, n := SomeHitLinked(input, b, e, index, Positioned(ref), required, s);
    RefHitsIs(ref, t);
    if ref.FullPath? {
      BuiltMaps(input, b);
      FoundFirst(input, b, ref.path, t, n, s);
    }
  }
}

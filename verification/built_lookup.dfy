/** Finding a type from its user when SQL is rendered: it always succeeds, and it finds the declaring
    entity, or the placeholder of an external use of the same identifier. */
module BuiltLookup {
  import opened ComponentOrder
  import opened Connections
  import opened Drafts
  import opened Entities
  import opened TypeTargets
  import opened Build
  import opened BuiltGraph
  import opened BuiltFacts
  import opened Wrappers

  // ----- the lookup

  /** Targets of the edges from `u`, the latest edge first. */
  function OutNeighbours(edges: seq<Edge>, u: nat): seq<nat> {
    if edges == [] then [] else
      var last := edges[|edges| - 1];
      (if last.source == u then [last.target] else []) + OutNeighbours(edges[..|edges| - 1], u)
  }

  /** Sources of the edges to `u` other than self-loops, the latest edge first. */
  function InNeighbours(edges: seq<Edge>, u: nat): seq<nat> {
    if edges == [] then [] else
      var last := edges[|edges| - 1];
      (if last.target == u && last.source != u then [last.source] else []) + InNeighbours(edges[..|edges| - 1], u)
  }

  /** `neighbors_undirected`. */
  function Neighbours(edges: seq<Edge>, u: nat): seq<nat> {
    OutNeighbours(edges, u) + InNeighbours(edges, u)
  }

  /** The first node of a list that matches an identifier. */
  function FirstMatch(nodes: seq<Entity>, ns: seq<nat>, ident: string): Option<nat> {
    if ns == [] then None
    else if IsMatch(nodes, ns[0], ident) then Some(ns[0])
    else FirstMatch(nodes, ns[1..], ident)
  }

  ghost predicate Adjacent(edges: seq<Edge>, u: nat, v: nat) {
    exists x :: x in edges && ((x.source == u && x.target == v) || (x.source == v && x.target == u))
  }

  lemma {:induction false} OutMember(edges: seq<Edge>, u: nat, v: nat)
    ensures v in OutNeighbours(edges, u) <==> exists x :: x in edges && x.source == u && x.target == v
  {
    if edges != [] {
      var rest, last := edges[..|edges| - 1], edges[|edges| - 1];
      OutMember(rest, u, v);
      assert edges == rest + [last];
    }
  }

  lemma {:induction false} InMember(edges: seq<Edge>, u: nat, v: nat)
    ensures v in InNeighbours(edges, u) <==> exists x :: x in edges && x.source == v && x.target == u && v != u
  {
    if edges != [] {
      var rest, last := edges[..|edges| - 1], edges[|edges| - 1];
      InMember(rest, u, v);
      assert edges == rest + [last];
    }
  }

  /** The walk meets exactly the neighbours. */
  lemma NeighboursAre(edges: seq<Edge>, u: nat, v: nat)
    ensures v in Neighbours(edges, u) <==> Adjacent(edges, u, v)
  {
    OutMember(edges, u, v);
    InMember(edges, u, v);
    if x :| x in edges && x.source == v && x.target == u && v == u {
      assert x.source == u && x.target == v;
    }
  }

  lemma {:induction false} FirstMatchIs(nodes: seq<Entity>, ns: seq<nat>, ident: string)
    ensures var r := FirstMatch(nodes, ns, ident);
      && (r.Some? ==> r.value in ns && IsMatch(nodes, r.value, ident))
      && (r.None? ==> forall n :: n in ns ==> !IsMatch(nodes, n, ident))
  {
    if ns != [] {
      FirstMatchIs(nodes, ns[1..], ident);
    }
  }

  lemma {:induction false} FirstMatchConcat(nodes: seq<Entity>, p: seq<nat>, q: seq<nat>, ident: string)
    ensures var r := FirstMatch(nodes, p, ident);
      FirstMatch(nodes, p + q, ident) == if r.Some? then r else FirstMatch(nodes, q, ident)
  {
    if p == [] {
      assert p + q == q;
    } else {
      FirstMatchConcat(nodes, p[1..], q, ident);
      assert (p + q)[1..] == p[1..] + q;
    }
  }

  predicate IsMatch(nodes: seq<Entity>, n: nat, ident: string) {
    n < |nodes| && nodes[n].TypeIdentMatches(ident)
  }

  lemma FirstMatchHead(nodes: seq<Entity>, n: nat, ns: seq<nat>, ident: string)
    ensures FirstMatch(nodes, [n] + ns, ident) == if IsMatch(nodes, n, ident) then Some(n) else FirstMatch(nodes, ns, ident)
  {
    assert ([n] + ns)[1..] == ns;
  }

  lemma LatestEdge(nodes: seq<Entity>, edges: seq<Edge>, i: nat, owner: nat, ident: string)
    requires i < |edges|
    ensures FirstMatch(nodes, OutNeighbours(edges[..i + 1], owner), ident) ==
      if edges[i].source == owner && IsMatch(nodes, edges[i].target, ident) then Some(edges[i].target)
      else FirstMatch(nodes, OutNeighbours(edges[..i], owner), ident)
    ensures FirstMatch(nodes, InNeighbours(edges[..i + 1], owner), ident) ==
      if edges[i].target == owner && edges[i].source != owner && IsMatch(nodes, edges[i].source, ident) then Some(edges[i].source)
      else FirstMatch(nodes, InNeighbours(edges[..i], owner), ident)
  {
    assert edges[..i + 1][..i] == edges[..i];
    FirstMatchHead(nodes, edges[i].target, OutNeighbours(edges[..i], owner), ident);
    FirstMatchHead(nodes, edges[i].source, InNeighbours(edges[..i], owner), ident);
    assert [] + OutNeighbours(edges[..i], owner) == OutNeighbours(edges[..i], owner);
    assert [] + InNeighbours(edges[..i], owner) == InNeighbours(edges[..i], owner);
  }

  /** `find_type_dependency`: the first match among the neighbours. */
  method FindTypeDependency(nodes: seq<Entity>, edges: seq<Edge>, owner: nat, ident: string) returns (r: Option<nat>)
    ensures r == FirstMatch(nodes, Neighbours(edges, owner), ident)
  {
    FirstMatchConcat(nodes, OutNeighbours(edges, owner), InNeighbours(edges, owner), ident);
    assert edges[..|edges|] == edges;
    for i := |edges| downto 0
      invariant FirstMatch(nodes, OutNeighbours(edges, owner), ident) == FirstMatch(nodes, OutNeighbours(edges[..i], owner), ident)
    {
      LatestEdge(nodes, edges, i, owner, ident);
      if edges[i].source == owner && IsMatch(nodes, edges[i].target, ident) {
        return Some(edges[i].target);
      }
    }
    for i := |edges| downto 0
      invariant FirstMatch(nodes, InNeighbours(edges, owner), ident) == FirstMatch(nodes, InNeighbours(edges[..i], owner), ident)
    {
      LatestEdge(nodes, edges, i, owner, ident);
      if edges[i].target == owner && edges[i].source != owner && IsMatch(nodes, edges[i].source, ident) {
        return Some(edges[i].source);
      }
    }
    r := None;
  }

  /** `schema_prefix_for_used_type`, up to the node whose schema becomes the prefix. */
  datatype Prefix = NoPrefix | PrefixOf(n: nat) | NotInGraph

  method SchemaPrefixForUsedType(nodes: seq<Entity>, edges: seq<Edge>, owner: nat, use: TypeUse) returns (r: Prefix)
    ensures r.NoPrefix? <==> use.resolution.None? || use.resolution.value.1.External?
    ensures !r.NoPrefix? ==>
      r == match FirstMatch(nodes, Neighbours(edges, owner), use.resolution.value.0)
           case Some(n) => PrefixOf(n)
           case None => NotInGraph
  {
    if use.resolution.None? || use.resolution.value.1.External? {
      return NoPrefix;
    }
    var found := FindTypeDependency(nodes, edges, owner, use.resolution.value.0);
    r := if found.Some? then PrefixOf(found.value) else NotInGraph;
  }

  // ----- what matches an identifier

  ghost predicate TypesIndexed(input: Input, b: Built) {
    && input.Valid() && NodesKnown(input, b.d.nodes) && Unambiguous(b.maps.decls)
    && MappedIn(b.d.nodes, input.sqls, b.maps.decls.sqls) && MappedIn(b.d.nodes, input.types, b.maps.decls.types)
    && MappedIn(b.d.nodes, input.enums, b.maps.decls.enums)
  }

  lemma BuiltTypes(input: Input, b: Built)
    requires IsBuilt(input, b)
    ensures TypesIndexed(input, b) && Placeholders(b.d.nodes, b.d.builtins)
  {
    BuiltNodes(input, b);
  }

  lemma TargetMatches(input: Input, b: Built, p: Place, ident: string)
    requires TypesIndexed(input, b) && IsPlace(b.maps.decls, p, ident)
    ensures NodeOf(b.maps.decls, p) < |b.d.nodes| && b.d.nodes[NodeOf(b.maps.decls, p)] == p.e && p.e.TypeIdentMatches(ident)
  {
  }

  lemma TargetNode(input: Input, b: Built, ident: string, n: nat)
    requires TypesIndexed(input, b) && IsTarget(b.maps.decls, ident, n)
    ensures IsMatch(b.d.nodes, n, ident) && !b.d.nodes[n].BuiltinType?
  {
    var p :| IsPlace(b.maps.decls, p, ident) && NodeOf(b.maps.decls, p) == n;
    TargetMatches(input, b, p, ident);
  }

  lemma MatchIsPlace(input: Input, b: Built, ident: string, n: nat) returns (p: Place)
    requires TypesIndexed(input, b) && IsMatch(b.d.nodes, n, ident) && !b.d.nodes[n].BuiltinType?
    ensures IsPlace(b.maps.decls, p, ident) && p.e == b.d.nodes[n]
  {
    var e := b.d.nodes[n];
    assert n == 0 || input.Holds(e);
    if e.Type? {
      p := InType(e);
    } else if e.Enum? {
      p := InEnum(e);
    } else {
      var k: nat :| k < |e.creates| && e.creates[k].TypeIdent() == Some(ident);
      p := InSql(e, k);
    }
  }

  /** A node that matches an identifier of this extension holds the entity that declares it,
      unless the node is the placeholder of that identifier. */
  lemma MatchesAreTheTarget(input: Input, b: Built, ident: string, n: nat, t: nat)
    requires TypesIndexed(input, b) && IsMatch(b.d.nodes, n, ident) && IsTarget(b.maps.decls, ident, t)
    ensures t < |b.d.nodes| && (b.d.nodes[n] == b.d.nodes[t] <==> !b.d.nodes[n].BuiltinType?)
  {
    TargetNode(input, b, ident, t);
    var p :| IsPlace(b.maps.decls, p, ident) && NodeOf(b.maps.decls, p) == t;
    TargetMatches(input, b, p, ident);
    if !b.d.nodes[n].BuiltinType? {
      var q := MatchIsPlace(input, b, ident, n);
      assert p == q;
    }
  }

  // ----- slots are found

  /** A function or an aggregate at its node. */
  ghost predicate IsOwner(b: Built, e: Entity, index: nat) {
    (e.Function? || e.Aggregate?) && ItemAt(b, e, index)
  }

  lemma ResolvableSlot(input: Input, m: TypeMaps, e: Entity, s: Slot)
    requires TypesResolve(input, m) && (e in input.externs || e in input.aggregates)
    requires s in Slots(e) && s.origin.ThisExtension?
    ensures Resolves(m, s.ident)
  {
    assert SlotsResolvable(m, Slots(e));
    assert Resolvable(m, s);
  }

  lemma OwnerListed(input: Input, b: Built, e: Entity, index: nat)
    requires MapsOk(input, b.d, b.maps) && IsOwner(b, e, index)
    ensures e in input.externs || e in input.aggregates
  {
  }

  lemma OwnSlotResolves(input: Input, b: Built, e: Entity, index: nat, s: Slot)
    requires IsBuilt(input, b) && IsOwner(b, e, index) && s in Slots(e) && s.origin.ThisExtension?
    ensures Resolves(b.maps.decls, s.ident)
  {
    BuiltNodes(input, b);
    OwnerListed(input, b, e, index);
    ResolvableSlot(input, b.maps.decls, e, s);
  }

  /** The node that declares the type of a slot is a neighbour of the owner. */
  lemma SlotFound(input: Input, b: Built, e: Entity, index: nat, s: Slot) returns (t: nat)
    requires IsBuilt(input, b) && IsOwner(b, e, index) && s in Slots(e) && s.origin.ThisExtension?
    ensures IsTarget(b.maps.decls, s.ident, t) && Adjacent(b.d.edges, index, t) && IsMatch(b.d.nodes, t, s.ident)
  {
    OwnSlotResolves(input, b, e, index, s);
    var p :| IsPlace(b.maps.decls, p, s.ident);
    t := NodeOf(b.maps.decls, p);
    assert IsTarget(b.maps.decls, s.ident, t);
    SlotConnected(input, b, e, index, s, t);
    assert Edge(t, index, s.weight) in b.d.edges;
    BuiltTypes(input, b);
    TargetNode(input, b, s.ident, t);
  }

  // ----- when the placeholder is in the way

  lemma SourceNode(input: Input, b: Built, s: Slot, n: nat)
    requires TypesIndexed(input, b) && Placeholders(b.d.nodes, b.d.builtins) && SlotSource(b.maps.decls, b.d.builtins, s, n)
    ensures IsMatch(b.d.nodes, n, s.ident) && (b.d.nodes[n].BuiltinType? <==> s.origin.External?)
  {
    if s.origin.ThisExtension? {
      TargetNode(input, b, s.ident, n);
    }
  }

  /** A placeholder is connected only to the users of its identifier. */
  lemma PlaceholderEdge(input: Input, b: Built, x: Edge, n: nat)
    requires IsBuilt(input, b) && x in b.d.edges && (x.source == n || x.target == n)
    requires n < |b.d.nodes| && b.d.nodes[n].BuiltinType?
    ensures x.source == n && x.target < |b.d.nodes| && Names(Slots(b.d.nodes[x.target]), b.d.nodes[n].name)
  {
    if x.weight.By? {
      ExplicitEnds(input, b, x);
    } else {
      SlotOrigin(input, b, x);
      SlottedNotBy(b, x);
      BuiltTypes(input, b);
      var s :| s in Slots(b.d.nodes[x.target]) && s.weight == x.weight && SlotSource(b.maps.decls, b.d.builtins, s, x.source);
      SourceNode(input, b, s, x.source);
    }
  }

  lemma ExternalPlaced(input: Input, d: Draft, e: Entity, ident: string)
    requires AllPlaced(d, input.externs) && AllPlaced(d, input.aggregates) && (e in input.externs || e in input.aggregates)
    requires Names(Slots(e), ident)
    ensures ident in d.builtins
  {
    assert Placed(d, Slots(e));
  }

  lemma PlaceholderKnown(input: Input, b: Built, e: Entity, index: nat, ident: string)
    requires IsBuilt(input, b) && IsOwner(b, e, index) && Names(Slots(e), ident)
    ensures ident in b.d.builtins
  {
    BuiltNodes(input, b);
    OwnerListed(input, b, e, index);
    ExternalPlaced(input, b.d, e, ident);
  }

  /** An external slot makes the placeholder a neighbour. */
  lemma PlaceholderAdjacent(input: Input, b: Built, e: Entity, index: nat, ident: string)
    requires IsBuilt(input, b) && IsOwner(b, e, index) && Names(Slots(e), ident)
    ensures ident in b.d.builtins && Adjacent(b.d.edges, index, b.d.builtins[ident])
  {
    PlaceholderKnown(input, b, e, index, ident);
    var s :| s in Slots(e) && s.origin.External? && s.ident == ident;
    SlotConnected(input, b, e, index, s, b.d.builtins[ident]);
    AdjacentBy(b.d.edges, Edge(b.d.builtins[ident], index, s.weight));
  }

  lemma AdjacentBy(edges: seq<Edge>, x: Edge)
    requires x in edges
    ensures Adjacent(edges, x.target, x.source)
  {
  }

  lemma OwnerNode(input: Input, b: Built, e: Entity, index: nat)
    requires IsBuilt(input, b) && IsOwner(b, e, index)
    ensures index < |b.d.nodes| && b.d.nodes[index] == e
  {
    BuiltNodes(input, b);
    ItemNode(input, b, e, index);
  }

  /** Only an external slot does. */
  lemma PlaceholderNeighbour(input: Input, b: Built, e: Entity, index: nat, n: nat)
    requires IsBuilt(input, b) && IsOwner(b, e, index) && Adjacent(b.d.edges, index, n)
    requires n < |b.d.nodes| && b.d.nodes[n].BuiltinType?
    ensures Names(Slots(e), b.d.nodes[n].name)
  {
    OwnerNode(input, b, e, index);
    var x :| x in b.d.edges && ((x.source == index && x.target == n) || (x.source == n && x.target == index));
    PlaceholderEdge(input, b, x, n);
  }

  /** An owner has the placeholder of an identifier for a neighbour if and only if it has an
      external slot of that identifier. */
  lemma PlaceholderAdjacentIff(input: Input, b: Built, e: Entity, index: nat, ident: string)
    requires IsBuilt(input, b) && IsOwner(b, e, index)
    ensures (exists n :: HasPlaceholder(b, index, ident, n)) <==> Names(Slots(e), ident)
  {
    if Names(Slots(e), ident) {
      PlaceholderAdjacent(input, b, e, index, ident);
      PlaceholderNode(input, b, ident);
      assert HasPlaceholder(b, index, ident, b.d.builtins[ident]);
    }
    if n :| HasPlaceholder(b, index, ident, n) {
      PlaceholderNeighbour(input, b, e, index, n);
    }
  }

  ghost predicate HasPlaceholder(b: Built, index: nat, ident: string, n: nat) {
    n < |b.d.nodes| && b.d.nodes[n] == BuiltinType(ident) && Adjacent(b.d.edges, index, n)
  }

  lemma PlaceholderNode(input: Input, b: Built, ident: string)
    requires IsBuilt(input, b) && ident in b.d.builtins
    ensures b.d.builtins[ident] < |b.d.nodes| && b.d.nodes[b.d.builtins[ident]] == BuiltinType(ident)
  {
    BuiltTypes(input, b);
  }

  /** Every neighbour that matches holds the declaring entity. */
  ghost predicate OnlyTheTarget(b: Built, index: nat, ident: string, t: nat) {
    t < |b.d.nodes| && forall n: nat :: Adjacent(b.d.edges, index, n) && IsMatch(b.d.nodes, n, ident) ==> b.d.nodes[n] == b.d.nodes[t]
  }

  lemma OnlyTargetIff(input: Input, b: Built, index: nat, ident: string, t: nat)
    requires TypesIndexed(input, b) && IsTarget(b.maps.decls, ident, t)
    ensures OnlyTheTarget(b, index, ident, t) <==> !exists n :: HasPlaceholder(b, index, ident, n)
  {
    TargetNode(input, b, ident, t);
    if n :| HasPlaceholder(b, index, ident, n) {
      MatchesAreTheTarget(input, b, ident, n, t);
    }
    if n: nat :| Adjacent(b.d.edges, index, n) && IsMatch(b.d.nodes, n, ident) && b.d.nodes[n] != b.d.nodes[t] {
      MatchesAreTheTarget(input, b, ident, n, t);
      assert HasPlaceholder(b, index, ident, n);
    }
  }

  /** All matching neighbours hold the declaring entity, so that the order in which they are visited
      cannot matter, if and only if the owner has no external slot of the same identifier. */
  lemma LookupRightIff(input: Input, b: Built, e: Entity, index: nat, s: Slot, t: nat)
    requires IsBuilt(input, b) && IsOwner(b, e, index) && s in Slots(e) && s.origin.ThisExtension?
    requires IsTarget(b.maps.decls, s.ident, t)
    ensures OnlyTheTarget(b, index, s.ident, t) <==> !Names(Slots(e), s.ident)
  {
    BuiltTypes(input, b);
    PlaceholderAdjacentIff(input, b, e, index, s.ident);
    OnlyTargetIff(input, b, index, s.ident, t);
  }

  /** `n` holds the declaring entity, or is the placeholder in the way. */
  ghost predicate Declares(b: Built, e: Entity, ident: string, n: nat) {
    && n < |b.d.nodes|
    && if b.d.nodes[n].BuiltinType? then Names(Slots(e), ident)
       else exists t: nat :: IsTarget(b.maps.decls, ident, t) && t < |b.d.nodes| && b.d.nodes[n] == b.d.nodes[t]
  }

  lemma MatchDeclares(input: Input, b: Built, e: Entity, index: nat, ident: string, n: nat, t: nat)
    requires TypesIndexed(input, b) && IsTarget(b.maps.decls, ident, t) && IsMatch(b.d.nodes, n, ident)
    requires b.d.nodes[n].BuiltinType? ==> Names(Slots(e), b.d.nodes[n].name)
    ensures Declares(b, e, ident, n)
  {
    MatchesAreTheTarget(input, b, ident, n, t);
  }

  /** Rendering a type of a connected owner never fails: the lookup that
      `SchemaPrefixForUsedType` makes ends at the declaring entity, or at the placeholder, and then
      the owner uses the identifier externally too. */
  lemma SlotRenders(input: Input, b: Built, e: Entity, index: nat, s: Slot)
    requires IsBuilt(input, b) && IsOwner(b, e, index) && s in Slots(e) && s.origin.ThisExtension?
    ensures var r := FirstMatch(b.d.nodes, Neighbours(b.d.edges, index), s.ident);
      r.Some? && Declares(b, e, s.ident, r.value)
  {
    var t := SlotFound(input, b, e, index, s);
    var n := FoundNeighbour(b, index, s.ident, t);
    if b.d.nodes[n].BuiltinType? {
      PlaceholderNeighbour(input, b, e, index, n);
    }
    BuiltTypes(input, b);
    MatchDeclares(input, b, e, index, s.ident, n, t);
  }

  lemma FoundNeighbour(b: Built, index: nat, ident: string, t: nat) returns (n: nat)
    requires Adjacent(b.d.edges, index, t) && IsMatch(b.d.nodes, t, ident)
    ensures FirstMatch(b.d.nodes, Neighbours(b.d.edges, index), ident) == Some(n)
    ensures Adjacent(b.d.edges, index, n) && IsMatch(b.d.nodes, n, ident)
  {
    FirstMatchIs(b.d.nodes, Neighbours(b.d.edges, index), ident);
    NeighboursAre(b.d.edges, index, t);
    n := FirstMatch(b.d.nodes, Neighbours(b.d.edges, index), ident).value;
    NeighboursAre(b.d.edges, index, n);
  }
}

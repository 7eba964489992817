/** Which types functions and aggregates use, where the edges for them come from, and which extensions
    the build accepts, in the words of the entities. */
module PlainTypes {
  import opened ComponentOrder
  import opened Connections
  import opened Drafts
  import opened Entities
  import opened TypeTargets
  import opened BuiltGraph
  import opened BuiltFacts
  import opened BuiltLookup
  import opened TiedNodes
  import opened Wrappers

  // ----- uses

  /** A type that a result is made of. */
  ghost predicate Returns(ret: Returning, use: TypeUse) {
    ret == One(use) || ret == SetOf(use) || (ret.Iterated? && use in ret.tys)
  }

  /** A type that an aggregate names. */
  ghost predicate AggregateNames(e: Entity, use: TypeUse)
    requires e.Aggregate?
  {
    use in e.aggArgs || (e.directArgs.Some? && use in e.directArgs.value) || use == e.stype || e.mstype == Some(use)
  }

  /** `e` uses a type: a function in an argument that its SQL shows or in its result, an aggregate in
      an argument, a direct argument or a state type. */
  ghost predicate UsesType(e: Entity, use: TypeUse, weight: Requires) {
    || (e.Function? && weight == ByArg && use in e.args && use.emitsArgumentSql)
    || (e.Function? && weight == ByReturn && Returns(e.ret, use))
    || (e.Aggregate? && weight == ByArg && AggregateNames(e, use))
  }

  ghost predicate Uses(e: Entity, ident: string, origin: TypeOrigin, weight: Requires) {
    exists use :: UsesType(e, use, weight) && use.resolution == Some((ident, origin))
  }

  lemma {:induction false} VisibleAre(args: seq<TypeUse>)
    ensures forall use :: use in Visible(args) <==> use in args && use.emitsArgumentSql
  {
    if args != [] {
      var rest, last := args[..|args| - 1], args[|args| - 1];
      VisibleAre(rest);
      assert args == rest + [last];
    }
  }

  lemma {:induction false} SlotsOfAre(uses: seq<TypeUse>, weight: Requires, s: Slot)
    ensures s in SlotsOf(uses, weight) <==> s.weight == weight && exists use :: use in uses && use.resolution == Some((s.ident, s.origin))
  {
    if uses != [] {
      var rest, last := uses[..|uses| - 1], uses[|uses| - 1];
      SlotsOfAre(rest, weight, s);
      assert uses == rest + [last];
    }
  }

  lemma ReturnSlotsAre(ret: Returning, s: Slot)
    ensures s in ReturnSlots(ret) <==> s.weight == ByReturn && exists use :: Returns(ret, use) && use.resolution == Some((s.ident, s.origin))
  {
    match ret {
      case NoReturn =>
      case TriggerReturn =>
      case One(ty) => assert Returns(ret, ty);
      case SetOf(ty) => assert Returns(ret, ty);
      case Iterated(tys) => SlotsOfAre(tys, ByReturn, s);
    }
  }

  lemma FunctionUses(e: Entity, s: Slot)
    requires e.Function?
    ensures s in Slots(e) <==> Uses(e, s.ident, s.origin, s.weight)
  {
    VisibleAre(e.args);
    SlotsOfAre(Visible(e.args), ByArg, s);
    ReturnSlotsAre(e.ret, s);
    if s in SlotsOf(Visible(e.args), ByArg) {
      var use :| use in Visible(e.args) && use.resolution == Some((s.ident, s.origin));
      assert UsesType(e, use, s.weight);
    }
    if s in ReturnSlots(e.ret) {
      var use :| Returns(e.ret, use) && use.resolution == Some((s.ident, s.origin));
      assert UsesType(e, use, s.weight);
    }
  }

  /** The uses of an aggregate, listed. */
  function AggregateUses(e: Entity): seq<TypeUse>
    requires e.Aggregate?
  {
    e.aggArgs + (if e.directArgs.Some? then e.directArgs.value else []) + [e.stype] + (if e.mstype.Some? then [e.mstype.value] else [])
  }

  lemma AggregateSlotsAre(e: Entity, s: Slot)
    requires e.Aggregate?
    ensures s in Slots(e) <==> s.weight == ByArg && exists use :: use in AggregateUses(e) && use.resolution == Some((s.ident, s.origin))
  {
    SlotsOfAre(e.aggArgs, ByArg, s);
    SlotsOfAre(if e.directArgs.Some? then e.directArgs.value else [], ByArg, s);
    assert e.stype in AggregateUses(e);
    assert e.mstype.Some? ==> e.mstype.value in AggregateUses(e);
    assert forall use :: use in e.aggArgs ==> use in AggregateUses(e);
  }

  lemma AggregateUsesType(e: Entity, s: Slot)
    requires e.Aggregate?
    ensures s in Slots(e) <==> Uses(e, s.ident, s.origin, s.weight)
  {
    AggregateSlotsAre(e, s);
    assert forall use :: use in AggregateUses(e) <==> AggregateNames(e, use);
    if s in Slots(e) {
      var use :| use in AggregateUses(e) && use.resolution == Some((s.ident, s.origin));
      assert UsesType(e, use, s.weight);
    }
  }

  /** The type slots of an entity are its uses of types that resolve. */
  lemma SlotIffUse(e: Entity, s: Slot)
    ensures s in Slots(e) <==> Uses(e, s.ident, s.origin, s.weight)
  {
    if e.Function? {
      FunctionUses(e, s);
    } else if e.Aggregate? {
      AggregateUsesType(e, s);
    }
  }

  // ----- declarations

  /** A type, an enum, or a block that says it creates a type or an enum. */
  ghost predicate Declares(d: Entity, ident: string) {
    || ((d.Type? || d.Enum?) && d.typeIdent == ident)
    || (d.CustomSql? && (DeclaredType(ident) in d.creates || DeclaredEnum(ident) in d.creates))
  }

  lemma CreatesIs(d: Entity, ident: string)
    requires d.CustomSql?
    ensures Declares(d, ident) <==> exists k :: 0 <= k < |d.creates| && d.creates[k].TypeIdent() == Some(ident)
  {
    if DeclaredType(ident) in d.creates {
      var k :| 0 <= k < |d.creates| && d.creates[k] == DeclaredType(ident);
      assert d.creates[k].TypeIdent() == Some(ident);
    }
    if DeclaredEnum(ident) in d.creates {
      var k :| 0 <= k < |d.creates| && d.creates[k] == DeclaredEnum(ident);
      assert d.creates[k].TypeIdent() == Some(ident);
    }
  }

  lemma PlaceDeclares(m: TypeMaps, p: Place, ident: string)
    requires IsPlace(m, p, ident)
    ensures Declares(p.e, ident)
  {
    if p.InSql? {
      CreatesIs(p.e, ident);
    }
  }

  lemma DeclaresPlace(m: TypeMaps, d: Entity, ident: string) returns (p: Place)
    requires Declares(d, ident) && (d.Type? ==> d in m.types) && (d.Enum? ==> d in m.enums) && (d.CustomSql? ==> d in m.sqls)
    ensures IsPlace(m, p, ident) && p.e == d
  {
    if d.Type? {
      p := InType(d);
    } else if d.Enum? {
      p := InEnum(d);
    } else {
      CreatesIs(d, ident);
      var k :| 0 <= k < |d.creates| && d.creates[k].TypeIdent() == Some(ident);
      p := InSql(d, k);
    }
  }

  /** `n` is the node of an entity that declares the identifier. */
  ghost predicate DeclaredAt(b: Built, ident: string, n: nat) {
    exists d :: ItemAt(b, d, n) && Declares(d, ident)
  }

  lemma TargetIffDeclared(b: Built, ident: string, n: nat)
    ensures IsTarget(b.maps.decls, ident, n) <==> DeclaredAt(b, ident, n)
  {
    if p :| IsPlace(b.maps.decls, p, ident) && NodeOf(b.maps.decls, p) == n {
      PlaceDeclares(b.maps.decls, p, ident);
      assert ItemAt(b, p.e, n);
    }
    if d :| ItemAt(b, d, n) && Declares(d, ident) {
      var p := DeclaresPlace(b.maps.decls, d, ident);
    }
  }

  // ----- the edges of types

  /** What an edge for a use of a type comes from: the placeholder of an external type, or the entity
      that declares a type of the extension. */
  ghost predicate Provides(b: Built, ident: string, origin: TypeOrigin, n: nat) {
    if origin.External? then n < |b.d.nodes| && b.d.nodes[n] == BuiltinType(ident) else DeclaredAt(b, ident, n)
  }

  ghost predicate UsedFrom(b: Built, e: Entity, weight: Requires, n: nat) {
    exists ident, origin :: Uses(e, ident, origin, weight) && Provides(b, ident, origin, n)
  }

  lemma SourceIffProvides(b: Built, s: Slot, n: nat)
    requires Placeholders(b.d.nodes, b.d.builtins)
    ensures SlotSource(b.maps.decls, b.d.builtins, s, n) <==> Provides(b, s.ident, s.origin, n)
  {
    TargetIffDeclared(b, s.ident, n);
  }

  lemma SlottedIsUsed(b: Built, x: Edge)
    requires Placeholders(b.d.nodes, b.d.builtins) && Slotted(b, x)
    ensures UsedFrom(b, b.d.nodes[x.target], x.weight, x.source)
  {
    var s :| s in Slots(b.d.nodes[x.target]) && s.weight == x.weight && SlotSource(b.maps.decls, b.d.builtins, s, x.source);
    SlotIffUse(b.d.nodes[x.target], s);
    SourceIffProvides(b, s, x.source);
  }

  lemma UsedSlot(b: Built, e: Entity, weight: Requires, n: nat) returns (s: Slot)
    requires Placeholders(b.d.nodes, b.d.builtins) && UsedFrom(b, e, weight, n)
    ensures s in Slots(e) && s.weight == weight && SlotSource(b.maps.decls, b.d.builtins, s, n)
  {
    var ident, origin :| Uses(e, ident, origin, weight) && Provides(b, ident, origin, n);
    s := Slot(ident, origin, weight);
    SlotIffUse(e, s);
    SourceIffProvides(b, s, n);
  }

  lemma BuiltPlaceholders(input: Input, b: Built)
    requires IsBuilt(input, b)
    ensures Placeholders(b.d.nodes, b.d.builtins)
  {
    BuiltNodes(input, b);
  }

  lemma UsedHasEdge(input: Input, b: Built, e: Entity, index: nat, weight: Requires, n: nat)
    requires IsBuilt(input, b) && ItemAt(b, e, index) && UsedFrom(b, e, weight, n)
    ensures Edge(n, index, weight) in b.d.edges
  {
    BuiltPlaceholders(input, b);
    var s := UsedSlot(b, e, weight, n);
    SlotConnected(input, b, e, index, s, n);
  }

  lemma EdgeIsUsed(input: Input, b: Built, e: Entity, index: nat, weight: Requires, n: nat)
    requires IsBuilt(input, b) && ItemAt(b, e, index) && !weight.By? && Edge(n, index, weight) in b.d.edges
    ensures UsedFrom(b, e, weight, n)
  {
    BuiltMaps(input, b);
    ItemNode(input, b, e, index);
    BuiltPlaceholders(input, b);
    SlotOrigin(input, b, Edge(n, index, weight));
    SlottedIsUsed(b, Edge(n, index, weight));
  }

  /** The edges of the other two weights are exactly those from a provider to a user of a type. */
  lemma TypeEdgeIff(input: Input, b: Built, e: Entity, index: nat, weight: Requires, n: nat)
    requires IsBuilt(input, b) && ItemAt(b, e, index) && !weight.By?
    ensures Edge(n, index, weight) in b.d.edges <==> UsedFrom(b, e, weight, n)
  {
    if Edge(n, index, weight) in b.d.edges {
      EdgeIsUsed(input, b, e, index, weight, n);
    }
    if UsedFrom(b, e, weight, n) {
      UsedHasEdge(input, b, e, index, weight, n);
    }
  }

  // ----- placeholders

  ghost predicate IsUser(input: Input, e: Entity) {
    e in input.externs || e in input.aggregates
  }

  ghost predicate UsedExternally(input: Input, ident: string) {
    exists e, weight :: IsUser(input, e) && Uses(e, ident, External, weight)
  }

  lemma NamesIffUses(e: Entity, ident: string)
    ensures Names(Slots(e), ident) <==> exists weight :: Uses(e, ident, External, weight)
  {
    if s :| s in Slots(e) && s.origin.External? && s.ident == ident {
      SlotIffUse(e, s);
    }
    if weight :| Uses(e, ident, External, weight) {
      SlotIffUse(e, Slot(ident, External, weight));
    }
  }

  lemma UsersPlaced(input: Input, b: Built, ident: string)
    requires MapsOk(input, b.d, b.maps) && BuiltinsUsed(input, b.d.builtins)
    ensures ident in b.d.builtins <==> UsedExternally(input, ident)
  {
    forall e ensures Names(Slots(e), ident) <==> exists weight :: Uses(e, ident, External, weight) {
      NamesIffUses(e, ident);
    }
    if e, weight :| IsUser(input, e) && Uses(e, ident, External, weight) {
      ExternalPlaced(input, b.d, e, ident);
    }
    if ident in b.d.builtins {
      var e :| (e in input.externs || e in input.aggregates) && Names(Slots(e), ident);
      assert IsUser(input, e);
    }
  }

  lemma PlaceholderIs(input: Input, b: Built, ident: string)
    requires Placeholders(b.d.nodes, b.d.builtins) && (ident in b.d.builtins <==> UsedExternally(input, ident))
    ensures BuiltinType(ident) in b.d.nodes <==> UsedExternally(input, ident)
    ensures !Twice(b.d.nodes, BuiltinType(ident))
  {
  }

  lemma BuiltUsers(input: Input, b: Built, ident: string)
    requires IsBuilt(input, b)
    ensures ident in b.d.builtins <==> UsedExternally(input, ident)
  {
    BuiltNodes(input, b);
    UsersPlaced(input, b, ident);
  }

  /** There is a placeholder for exactly the external types in use, and one only. */
  lemma PlaceholderIff(input: Input, b: Built, ident: string)
    requires IsBuilt(input, b)
    ensures BuiltinType(ident) in b.d.nodes <==> UsedExternally(input, ident)
    ensures !Twice(b.d.nodes, BuiltinType(ident))
  {
    BuiltPlaceholders(input, b);
    BuiltUsers(input, b, ident);
    PlaceholderIs(input, b, ident);
  }
}

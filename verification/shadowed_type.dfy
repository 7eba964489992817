/** An accepted extension in which the order of two arguments decides where the lookup of a declared
    type ends: a function that takes the type once as declared here and once as an external type. */
module ShadowedType {
  import opened ComponentOrder
  import opened Connections
  import opened Drafts
  import opened Entities
  import opened TypeTargets
  import opened Build
  import opened BuiltGraph
  import opened BuiltFacts
  import opened BuiltLookup
  import opened LookupOrder
  import opened Wrappers

  function Block(): Entity {
    CustomSql(false, false, [DeclaredType("t")], "m", "s", [], 0)
  }

  function OwnSlot(): Slot {
    Slot("t", ThisExtension, ByArg)
  }

  function ForeignSlot(): Slot {
    Slot("t", External, ByArg)
  }

  /** The declared type is the first or the second argument. */
  function User(ownFirst: bool): Entity {
    var own, foreign := TypeUse(Some(("t", ThisExtension)), true), TypeUse(Some(("t", External)), true);
    Function(if ownFirst then [own, foreign] else [foreign, own], NoReturn, "m", "f", "f", "m::f", [], 0)
  }

  function UserSlots(ownFirst: bool): seq<Slot> {
    if ownFirst then [OwnSlot(), ForeignSlot()] else [ForeignSlot(), OwnSlot()]
  }

  function Extension(ownFirst: bool): Input {
    Input(ExtensionRoot(0), [Block()], [], [], [], [User(ownFirst)], [], [], [], [])
  }

  // ----- it is accepted

  lemma SlotsAre(ownFirst: bool)
    ensures Slots(User(ownFirst)) == UserSlots(ownFirst)
  {
    var args := User(ownFirst).args;
    assert args[..1] == [args[0]] && args[..1][..0] == [];
    assert Visible(args[..1]) == [] + [args[0]];
    assert Visible(args) == Visible(args[..1]) + [args[1]];
    assert Visible(args) == args;
    assert SlotsOf(args[..1], ByArg) == SlotsOf([], ByArg) + SlotOf(args[0], ByArg);
    assert SlotsOf(args, ByArg) == SlotsOf(args[..1], ByArg) + SlotOf(args[1], ByArg);
  }

  lemma UserWants(ownFirst: bool)
    ensures forall w :: w in Wants(User(ownFirst)) ==>
      w == Single(SchemaAt("m"), false) || w == EveryOut(HashWith("m", "f")) || w.Typed?
  {
    assert AttrWants([]) == [] && !NamesSchema([]);
  }

  lemma BlockWants()
    ensures Wants(Block()) == [Single(SchemaAt("m"), false)]
  {
    assert RefWants([], true) == [];
  }

  lemma OnePlace(ownFirst: bool, p: Place, ident: string)
    requires IsPlace(Keys(Extension(ownFirst)).decls, p, ident)
    ensures p == InSql(Block(), 0)
  {
  }

  lemma TypesFine(ownFirst: bool)
    ensures TypesResolve(Extension(ownFirst), Keys(Extension(ownFirst)).decls)
  {
    var m := Keys(Extension(ownFirst)).decls;
    forall p, q, ident | IsPlace(m, p, ident) && IsPlace(m, q, ident) ensures p == q {
      OnePlace(ownFirst, p, ident);
      OnePlace(ownFirst, q, ident);
    }
    SlotsAre(ownFirst);
    assert Block() in Extension(ownFirst).sqls && Block().creates[0].TypeIdent() == Some("t");
    assert IsPlace(m, InSql(Block(), 0), "t");
    assert Resolvable(m, OwnSlot()) && Resolvable(m, ForeignSlot());
    assert SlotsResolvable(m, Slots(User(ownFirst)));
    assert forall e :: e in Extension(ownFirst).externs ==> e == User(ownFirst);
  }

  lemma EntityIs(ownFirst: bool, e: Entity)
    requires e in Extension(ownFirst).Of(e)
    ensures e == User(ownFirst) || e == Block()
  {
  }

  lemma NothingElseWanted(ownFirst: bool)
    ensures AllFindable(Keys(Extension(ownFirst)), User(ownFirst)) && AllFindable(Keys(Extension(ownFirst)), Block())
  {
    UserWants(ownFirst);
    BlockWants();
  }

  lemma ExtensionAccepted(ownFirst: bool)
    ensures Extension(ownFirst).Valid() && Accepted(Extension(ownFirst))
  {
    TypesFine(ownFirst);
    NothingElseWanted(ownFirst);
    forall e | e in Extension(ownFirst).Of(e) ensures AllFindable(Keys(Extension(ownFirst)), e) {
      EntityIs(ownFirst, e);
    }
  }

  // ----- nothing leaves the function

  lemma NoLinkOut(ownFirst: bool, nodes: seq<Entity>, x: Edge)
    requires x.source < |nodes| && x.target < |nodes| && nodes[x.source] == User(ownFirst)
    requires nodes[x.target] == User(ownFirst) || nodes[x.target] == Block() || Wants(nodes[x.target]) == []
    ensures !Links(nodes, x)
    ensures !nodes[x.target].Hash? ==> !LinksOut(nodes, x)
  {
    UserWants(ownFirst);
    BlockWants();
  }

  lemma KnownNode(ownFirst: bool, b: Built, n: nat)
    requires NodesKnown(Extension(ownFirst), b.d.nodes) && n < |b.d.nodes|
    ensures b.d.nodes[n] == User(ownFirst) || b.d.nodes[n] == Block() || (Wants(b.d.nodes[n]) == [] && !b.d.nodes[n].Hash?)
    ensures n == 0 ==> b.d.nodes[n] == ExtensionRoot(0)
  {
    if n > 0 {
      assert Extension(ownFirst).Holds(b.d.nodes[n]);
    }
  }

  lemma NoAnchors(ownFirst: bool, b: Built)
    requires AnchorsKnown(Extension(ownFirst), b)
    ensures b.anchors == Anchors(0, None, None)
  {
    if b.anchors.bootstrap.Some? {
      KnownNode(ownFirst, b, b.anchors.bootstrap.value);
    }
    if b.anchors.finalize.Some? {
      KnownNode(ownFirst, b, b.anchors.finalize.value);
    }
  }

  lemma SlotLeaves(ownFirst: bool, b: Built, user: nat, x: Edge)
    requires TypesIndexed(Extension(ownFirst), b) && Placeholders(b.d.nodes, b.d.builtins) && Slotted(b, x)
    requires user < |b.d.nodes| && b.d.nodes[user] == User(ownFirst)
    ensures x.source != user
  {
    var s :| s in Slots(b.d.nodes[x.target]) && s.weight == x.weight && SlotSource(b.maps.decls, b.d.builtins, s, x.source);
    SourceNode(Extension(ownFirst), b, s, x.source);
  }

  /** Nothing leaves the function. */
  lemma NothingLeaves(ownFirst: bool, b: Built, user: nat, x: Edge)
    requires IsBuilt(Extension(ownFirst), b) && x in b.d.edges && user < |b.d.nodes| && b.d.nodes[user] == User(ownFirst)
    ensures x.source != user
  {
    if x.weight.By? {
      ExplicitLeaves(ownFirst, b, user, x);
    } else {
      SlotOrigin(Extension(ownFirst), b, x);
      BuiltTypes(Extension(ownFirst), b);
      SlotLeaves(ownFirst, b, user, x);
    }
  }

  lemma ExplicitLeaves(ownFirst: bool, b: Built, user: nat, x: Edge)
    requires IsBuilt(Extension(ownFirst), b) && x in b.d.edges && x.weight.By? && user < |b.d.nodes| && b.d.nodes[user] == User(ownFirst)
    ensures x.source != user
  {
    ExplicitOrigin(Extension(ownFirst), b, x);
    BuiltAnchors(Extension(ownFirst), b);
    NoAnchors(ownFirst, b);
    if x.source == user {
      ExplicitEnds(Extension(ownFirst), b, x);
      KnownNode(ownFirst, b, user);
      KnownNode(ownFirst, b, x.target);
      NoLinkOut(ownFirst, b.d.nodes, x);
      assert FirstEdge(b, x) || RootsSchema(b, x);
      FirstLeaves(b, user, x);
    }
  }

  lemma FirstLeaves(b: Built, user: nat, x: Edge)
    requires b.anchors == Anchors(0, None, None) && (FirstEdge(b, x) || RootsSchema(b, x))
    ensures x.source == 0
  {
    if FirstEdge(b, x) {
      var k: nat :| Brings(b.anchors, b.maps.decls.sqls, b.d.nodes, k, x);
      BringsEnds(b.anchors, b.maps.decls.sqls, b.d.nodes[k], k, x);
    }
  }

  // ----- where the lookup ends

  lemma NoOutMatch(ownFirst: bool, b: Built, user: nat)
    requires IsBuilt(Extension(ownFirst), b) && user < |b.d.nodes| && b.d.nodes[user] == User(ownFirst)
    ensures !OutMatch(b, user, "t")
  {
    forall x | x in b.d.edges ensures x.source != user {
      NothingLeaves(ownFirst, b, user, x);
    }
  }

  /** Both slots lead to `t`, so the second one decides. */
  lemma LastIs(ownFirst: bool)
    ensures LastLeading(Extension(ownFirst), ConnectOrder(User(ownFirst)), "t") == Some(UserSlots(ownFirst)[1])
  {
    SlotsAre(ownFirst);
    assert Block() in Extension(ownFirst).Of(Block()) && Block().creates[0].TypeIdent() == Some("t");
    assert Block().TypeIdentMatches("t");
    assert Leads(Extension(ownFirst), OwnSlot(), "t") && Leads(Extension(ownFirst), ForeignSlot(), "t");
  }

  lemma TargetIsBlock(ownFirst: bool, b: Built, t: nat)
    requires TypesIndexed(Extension(ownFirst), b) && IsTarget(b.maps.decls, "t", t)
    ensures t < |b.d.nodes| && b.d.nodes[t] == Block()
  {
    var p :| IsPlace(b.maps.decls, p, "t") && NodeOf(b.maps.decls, p) == t;
    TargetMatches(Extension(ownFirst), b, p, "t");
    assert p.e == Block();
  }

  lemma UserPlaced(ownFirst: bool, b: Built)
    requires MappedIn(b.d.nodes, [User(ownFirst)], b.maps.externs)
    ensures User(ownFirst) in b.maps.externs && IsOwner(b, User(ownFirst), b.maps.externs[User(ownFirst)])
    ensures var user := b.maps.externs[User(ownFirst)]; user < |b.d.nodes| && b.d.nodes[user] == User(ownFirst)
  {
    assert User(ownFirst) in [User(ownFirst)];
  }

  lemma UserMapped(ownFirst: bool, b: Built)
    requires IsBuilt(Extension(ownFirst), b)
    ensures MappedIn(b.d.nodes, [User(ownFirst)], b.maps.externs)
  {
    BuiltNodes(Extension(ownFirst), b);
  }

  /** Where the lookup from a function for `t` ends. */
  ghost predicate EndsAt(b: Built, user: Entity, e: Entity) {
    && user in b.maps.externs
    && var r := FirstMatch(b.d.nodes, Neighbours(b.d.edges, b.maps.externs[user]), "t");
      r.Some? && r.value < |b.d.nodes| && b.d.nodes[r.value] == e
  }

  lemma MatchOtherwise(ownFirst: bool, b: Built, e: Entity, n: nat)
    requires TypesIndexed(Extension(ownFirst), b) && Declares(b, e, "t", n) && IsMatch(b.d.nodes, n, "t") && b.d.nodes[n] != Block()
    ensures b.d.nodes[n] == BuiltinType("t")
  {
    if !b.d.nodes[n].BuiltinType? {
      var t: nat :| IsTarget(b.maps.decls, "t", t) && t < |b.d.nodes| && b.d.nodes[n] == b.d.nodes[t];
      TargetIsBlock(ownFirst, b, t);
    }
  }

  /** The lookup for the declared type ends at the declaring block if the type is the second argument,
      and at the placeholder if it is the first. */
  lemma OrderDecides(ownFirst: bool, b: Built)
    requires IsBuilt(Extension(ownFirst), b)
    ensures EndsAt(b, User(ownFirst), if ownFirst then BuiltinType("t") else Block())
  {
    UserMapped(ownFirst, b);
    UserPlaced(ownFirst, b);
    var user := b.maps.externs[User(ownFirst)];
    SlotsAre(ownFirst);
    var t := SlotFound(Extension(ownFirst), b, User(ownFirst), user, OwnSlot());
    LookupEndsIff(Extension(ownFirst), b, User(ownFirst), user, OwnSlot(), t);
    NoOutMatch(ownFirst, b, user);
    LastIs(ownFirst);
    BuiltTypes(Extension(ownFirst), b);
    TargetIsBlock(ownFirst, b, t);
    SlotRenders(Extension(ownFirst), b, User(ownFirst), user, OwnSlot());
    FirstMatchIs(b.d.nodes, Neighbours(b.d.edges, user), "t");
    if ownFirst {
      MatchOtherwise(ownFirst, b, User(ownFirst), FirstMatch(b.d.nodes, Neighbours(b.d.edges, user), "t").value);
    }
  }
}

/** Where a type lookup ends, in terms of the entities of the extension. */
module LookupInputs {
  import opened ComponentOrder
  import opened Connections
  import opened Entities
  import opened TypeTargets
  import opened BuiltGraph
  import opened BuiltFacts
  import opened BuiltLookup
  import opened TiedNodes
  import opened ExplicitCycles
  import opened LookupOrder
  import opened Wrappers
  import AcceptedInputs

  /** Something that declares the identifier is connected after the owner: the finalize block, or an
      entity that asks for the owner. */
  ghost predicate DeclaredAfter(input: Input, e: Entity, ident: string) {
    exists d :: d in input.Of(d) && d.TypeIdentMatches(ident) && (IsFinalize(input, d) || Asks(d, e))
  }

  ghost predicate Asks(d: Entity, e: Entity) {
    exists w :: w in Wants(d) && (w.Single? || w.Every?) && Hits(w.query, e)
  }

  lemma FirstFromOwner(input: Input, b: Built, x: Edge)
    requires AnchorsKnown(input, b) && (FirstEdge(b, x) || RootsSchema(b, x))
    requires x.source < |b.d.nodes| && (b.d.nodes[x.source].Function? || b.d.nodes[x.source].Aggregate?)
    ensures b.anchors.finalize == Some(x.target)
  {
    PlainNotAnchor(input, b, x.source);
    if FirstEdge(b, x) {
      FirstShape(input, b, x);
    }
  }

  lemma FinalizeListed(input: Input, b: Built, n: nat)
    requires AnchorsKnown(input, b) && b.anchors.finalize == Some(n)
    ensures n < |b.d.nodes| && IsFinalize(input, b.d.nodes[n])
  {
    MarksAre(input, b, n);
    NodeListed(input, b.d.nodes, n);
  }

  lemma AfterOwner(input: Input, b: Built, e: Entity, x: Edge, ident: string)
    requires AnchorsKnown(input, b) && (FirstEdge(b, x) || RootsSchema(b, x) || Linked(b, x))
    requires x.source < |b.d.nodes| && b.d.nodes[x.source] == e && (e.Function? || e.Aggregate?)
    requires IsMatch(b.d.nodes, x.target, ident) && !b.d.nodes[x.target].BuiltinType?
    ensures DeclaredAfter(input, e, ident)
  {
    NodeListed(input, b.d.nodes, x.target);
    if LinksOut(b.d.nodes, x) {
      LinkOutKinds(b.d.nodes, x);
    }
    if Links(b.d.nodes, x) {
      assert Asks(b.d.nodes[x.target], e);
    } else {
      FirstFromOwner(input, b, x);
      FinalizeListed(input, b, x.target);
    }
  }

  lemma OutMatchIf(input: Input, b: Built, e: Entity, index: nat, ident: string)
    requires IsBuilt(input, b) && IsOwner(b, e, index) && OutMatch(b, index, ident)
    ensures DeclaredAfter(input, e, ident)
  {
    var x :| x in b.d.edges && x.source == index && IsMatch(b.d.nodes, x.target, ident);
    OwnerNode(input, b, e, index);
    OutIsNoPlaceholder(input, b, e, index, x);
    BuiltAnchors(input, b);
    MatchByLink(input, b, x, ident);
    AfterOwner(input, b, e, x, ident);
  }

  lemma SlottedNoMatch(b: Built, x: Edge, ident: string)
    requires Slotted(b, x)
    ensures !IsMatch(b.d.nodes, x.target, ident)
  {
    SlottedNotBy(b, x);
  }

  lemma MatchByLink(input: Input, b: Built, x: Edge, ident: string)
    requires IsBuilt(input, b) && x in b.d.edges && IsMatch(b.d.nodes, x.target, ident)
    ensures FirstEdge(b, x) || RootsSchema(b, x) || Linked(b, x)
  {
    if x.weight.By? {
      ExplicitOrigin(input, b, x);
    } else {
      SlotOrigin(input, b, x);
      SlottedNoMatch(b, x, ident);
    }
  }

  lemma OutMatchBy(b: Built, x: Edge, ident: string)
    requires x in b.d.edges && IsMatch(b.d.nodes, x.target, ident)
    ensures OutMatch(b, x.source, ident)
  {
  }

  lemma AskedEdge(input: Input, b: Built, e: Entity, index: nat, d: Entity, n: nat)
    requires IsBuilt(input, b) && Settled(input) && ItemAt(b, e, index) && e in input.Of(e) && d in input.Of(d) && ItemAt(b, d, n)
    requires Asks(d, e)
    ensures Edge(index, n, By) in b.d.edges
  {
    var w := AskedBy(d, e);
    assert AcceptedInputs.IsHit(input, w.query, e);
    HitLinked(input, b, d, n, w, e, index);
  }

  lemma AskedBy(d: Entity, e: Entity) returns (w: Want)
    requires Asks(d, e)
    ensures w in Wants(d) && !w.Typed? && !w.EveryOut? && Hits(w.query, e)
  {
    w :| w in Wants(d) && (w.Single? || w.Every?) && Hits(w.query, e);
  }

  lemma OutMatchWhen(input: Input, b: Built, e: Entity, index: nat, ident: string)
    requires IsBuilt(input, b) && Settled(input) && IsOwner(b, e, index) && DeclaredAfter(input, e, ident)
    ensures OutMatch(b, index, ident)
  {
    var d :| d in input.Of(d) && d.TypeIdentMatches(ident) && (IsFinalize(input, d) || Asks(d, e));
    BuiltMaps(input, b);
    ItemTied(input, b, e, index);
    ItemIndex(input, b, e);
    var n := EntityTied(input, b, d);
    if IsFinalize(input, d) {
      MarksAre(input, b, n);
      TiedIsAnchored(input, b, index);
    } else {
      AskedEdge(input, b, e, index, d, n);
    }
    OutMatchBy(b, Edge(index, n, By), ident);
  }

  /** The lookup for an own type ends at the declaring entity if and only if that is connected after the
      owner, or the last of the owner's slots that leads to the identifier is an own slot. This is so
      if no search has a choice; the second condition alone decides where the first does not hold. */
  lemma LookupEndsIffInput(input: Input, b: Built, e: Entity, index: nat, s: Slot, t: nat)
    requires IsBuilt(input, b) && IsOwner(b, e, index) && s in Slots(e) && s.origin.ThisExtension?
    requires IsTarget(b.maps.decls, s.ident, t)
    ensures var r := FirstMatch(b.d.nodes, Neighbours(b.d.edges, index), s.ident);
            var last := LastLeading(input, ConnectOrder(e), s.ident);
      && r.Some? && last.Some? && r.value < |b.d.nodes| && t < |b.d.nodes|
      && (Settled(input) || !DeclaredAfter(input, e, s.ident) ==>
            (b.d.nodes[r.value] == b.d.nodes[t] <==> DeclaredAfter(input, e, s.ident) || last.value.origin.ThisExtension?))
      && (last.value.origin.ThisExtension? ==> b.d.nodes[r.value] == b.d.nodes[t])
  {
    LookupEndsIff(input, b, e, index, s, t);
    if OutMatch(b, index, s.ident) {
      OutMatchIf(input, b, e, index, s.ident);
    } else if Settled(input) && DeclaredAfter(input, e, s.ident) {
      OutMatchWhen(input, b, e, index, s.ident);
    }
  }
}

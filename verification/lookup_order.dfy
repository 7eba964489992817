/** Where exactly a type lookup ends. Neighbours are visited from the newest edge, so the order in
    which the second phase connects the slots of an owner decides between the declaring entity and a
    placeholder of the same identifier. */
module LookupOrder {
  import opened Sequences
  import opened ComponentOrder
  import opened Connections
  import opened Drafts
  import opened Entities
  import opened TypeTargets
  import opened Connect
  import opened BuiltGraph
  import opened BuiltFacts
  import opened BuiltLookup
  import opened Wrappers

  // ----- in terms of the input

  /** The slot is connected to the placeholder of `ident`, or to an entity that declares it, be it for
      the sake of another identifier. */
  ghost predicate Leads(input: Input, s: Slot, ident: string) {
    if s.origin.External? then s.ident == ident
    else exists d :: d in input.Of(d) && d.TypeIdentMatches(s.ident) && d.TypeIdentMatches(ident)
  }

  ghost function LastLeading(input: Input, slots: seq<Slot>, ident: string): Option<Slot> {
    if slots == [] then None
    else if Leads(input, slots[|slots| - 1], ident) then Some(slots[|slots| - 1])
    else LastLeading(input, slots[..|slots| - 1], ident)
  }

  lemma {:induction false} SomeLeads(input: Input, slots: seq<Slot>, ident: string, s: Slot)
    requires s in slots && Leads(input, s, ident)
    ensures LastLeading(input, slots, ident).Some?
  {
    if !Leads(input, slots[|slots| - 1], ident) {
      SomeLeads(input, slots[..|slots| - 1], ident, s);
    }
  }

  lemma DeclaringIsPlace(input: Input, b: Built, d: Entity, ident: string) returns (p: Place)
    requires TypesIndexed(input, b) && d in input.Of(d) && d.TypeIdentMatches(ident)
    ensures IsPlace(b.maps.decls, p, ident) && p.e == d
  {
    if d.Type? {
      p := InType(d);
    } else if d.Enum? {
      p := InEnum(d);
    } else {
      var k: nat :| k < |d.creates| && d.creates[k].TypeIdent() == Some(ident);
      p := InSql(d, k);
    }
  }

  lemma OwnLeads(input: Input, b: Built, s: Slot, n: nat, ident: string)
    requires TypesIndexed(input, b) && s.origin.ThisExtension? && IsTarget(b.maps.decls, s.ident, n)
    ensures IsMatch(b.d.nodes, n, ident) <==> Leads(input, s, ident)
  {
    var p :| IsPlace(b.maps.decls, p, s.ident) && NodeOf(b.maps.decls, p) == n;
    TargetMatches(input, b, p, s.ident);
    assert p.e in input.Of(p.e);
    if d :| d in input.Of(d) && d.TypeIdentMatches(s.ident) && d.TypeIdentMatches(ident) {
      var q := DeclaringIsPlace(input, b, d, s.ident);
      assert p == q;
    }
  }

  lemma SourceLeads(input: Input, b: Built, s: Slot, n: nat, ident: string)
    requires TypesIndexed(input, b) && Placeholders(b.d.nodes, b.d.builtins) && SlotSource(b.maps.decls, b.d.builtins, s, n)
    ensures IsMatch(b.d.nodes, n, ident) <==> Leads(input, s, ident)
  {
    if s.origin.ThisExtension? {
      OwnLeads(input, b, s, n, ident);
    }
  }

  // ----- the newest matching edge to a node

  function InMatch(nodes: seq<Entity>, edges: seq<Edge>, u: nat, ident: string): Option<nat> {
    FirstMatch(nodes, InNeighbours(edges, u), ident)
  }

  lemma {:induction false} InNeighboursConcat(p: seq<Edge>, q: seq<Edge>, u: nat)
    ensures InNeighbours(p + q, u) == InNeighbours(q, u) + InNeighbours(p, u)
  {
    SplitLast(p, q);
    if q != [] {
      var rest, last := q[..|q| - 1], q[|q| - 1];
      InNeighboursConcat(p, rest, u);
      assert (p + q)[..|p + q| - 1] == p + rest;
      Associate(if last.target == u && last.source != u then [last.source] else [], InNeighbours(rest, u), InNeighbours(p, u));
    }
  }

  lemma InMatchConcat(nodes: seq<Entity>, p: seq<Edge>, q: seq<Edge>, u: nat, ident: string)
    ensures InMatch(nodes, p + q, u, ident) ==
      if InMatch(nodes, q, u, ident).Some? then InMatch(nodes, q, u, ident) else InMatch(nodes, p, u, ident)
  {
    InNeighboursConcat(p, q, u);
    FirstMatchConcat(nodes, InNeighbours(q, u), InNeighbours(p, u), ident);
  }

  /** No edge of the list leads from a match to `u`. */
  ghost predicate Silent(nodes: seq<Entity>, es: seq<Edge>, u: nat, ident: string) {
    forall x :: x in es && x.target == u ==> !IsMatch(nodes, x.source, ident)
  }

  lemma SilentNone(nodes: seq<Entity>, es: seq<Edge>, u: nat, ident: string)
    requires Silent(nodes, es, u, ident)
    ensures InMatch(nodes, es, u, ident) == None
  {
    FirstMatchIs(nodes, InNeighbours(es, u), ident);
    if InMatch(nodes, es, u, ident).Some? {
      InMember(es, u, InMatch(nodes, es, u, ident).value);
    }
  }

  lemma OneEdge(nodes: seq<Entity>, x: Edge, u: nat, ident: string)
    requires x.target == u && x.source != u
    ensures InMatch(nodes, [x], u, ident) == if IsMatch(nodes, x.source, ident) then Some(x.source) else None
  {
    var edges := [x];
    assert edges[..0] == [] && InNeighbours(edges, u) == [x.source] + InNeighbours(edges[..0], u);
    FirstMatchHead(nodes, x.source, [], ident);
    assert [x.source] + [] == [x.source];
  }

  // ----- the edges of one list of jobs after those of another

  lemma CarriedSplit(m: Maps, builtins: map<string, nat>, p: seq<Job>, q: seq<Job>, es: seq<Edge>)
    returns (ps: seq<Edge>, qs: seq<Edge>)
    requires Carried(m, builtins, p + q, es)
    ensures Carried(m, builtins, p, ps) && Carried(m, builtins, q, qs) && es == ps + qs
  {
    var parts :| Done(m, builtins, p + q, parts) && es == Flat(parts);
    DoneSplit(m, builtins, p, q, parts);
    assert parts == parts[..|p|] + parts[|p|..];
    FlatConcat(parts[..|p|], parts[|p|..]);
    ps, qs := Flat(parts[..|p|]), Flat(parts[|p|..]);
    CarriedBy(m, builtins, p, parts[..|p|]);
    CarriedBy(m, builtins, q, parts[|p|..]);
  }

  lemma CarriedNoJobs(m: Maps, builtins: map<string, nat>, es: seq<Edge>)
    requires Carried(m, builtins, [], es)
    ensures es == []
  {
    var parts :| Done(m, builtins, [], parts) && es == Flat(parts);
  }

  lemma CarriedSlot(m: Maps, builtins: map<string, nat>, index: nat, s: Slot, es: seq<Edge>) returns (n: nat)
    requires Carried(m, builtins, [Job(index, Typed(s))], es)
    ensures es == [Edge(n, index, s.weight)] && SlotSource(m.decls, builtins, s, n)
  {
    var parts :| Done(m, builtins, [Job(index, Typed(s))], parts) && es == Flat(parts);
    assert parts == [parts[0]] && parts[..0] == [] && Flat(parts) == [] + parts[0];
    n := es[0].source;
  }

  lemma JobsAtConcat(index: nat, p: seq<Want>, q: seq<Want>)
    ensures JobsAt(index, p + q) == JobsAt(index, p) + JobsAt(index, q)
  {
  }

  lemma TypedStep(slots: seq<Slot>)
    requires slots != []
    ensures TypedWants(slots) == TypedWants(slots[..|slots| - 1]) + [Typed(slots[|slots| - 1])]
  {
  }

  /** Of the slots of an owner, the last one that leads to a match has the newest matching edge. */
  ghost predicate Decides(input: Input, b: Built, slots: seq<Slot>, ident: string, r: Option<nat>) {
    match LastLeading(input, slots, ident)
    case None => r.None?
    case Some(s) => r.Some? && SlotSource(b.maps.decls, b.d.builtins, s, r.value)
  }

  ghost predicate Indexed(input: Input, b: Built, index: nat) {
    && TypesIndexed(input, b) && Placeholders(b.d.nodes, b.d.builtins)
    && index < |b.d.nodes| && (b.d.nodes[index].Function? || b.d.nodes[index].Aggregate?)
  }

  lemma {:induction false} SlotsDecide(input: Input, b: Built, index: nat, slots: seq<Slot>, es: seq<Edge>, ident: string)
    requires Indexed(input, b, index) && Carried(b.maps, b.d.builtins, JobsAt(index, TypedWants(slots)), es)
    ensures Decides(input, b, slots, ident, InMatch(b.d.nodes, es, index, ident))
  {
    if slots == [] {
      CarriedNoJobs(b.maps, b.d.builtins, es);
    } else {
      var rest, s := slots[..|slots| - 1], slots[|slots| - 1];
      TypedStep(slots);
      JobsAtConcat(index, TypedWants(rest), [Typed(s)]);
      assert JobsAt(index, [Typed(s)]) == [Job(index, Typed(s))];
      var before, last := CarriedSplit(b.maps, b.d.builtins, JobsAt(index, TypedWants(rest)), [Job(index, Typed(s))], es);
      SlotsDecide(input, b, index, rest, before, ident);
      var n := CarriedSlot(b.maps, b.d.builtins, index, s, last);
      SlotDecides(input, b, index, s, n, before, ident);
    }
  }

  lemma SlotDecides(input: Input, b: Built, index: nat, s: Slot, n: nat, before: seq<Edge>, ident: string)
    requires Indexed(input, b, index) && SlotSource(b.maps.decls, b.d.builtins, s, n)
    ensures InMatch(b.d.nodes, before + [Edge(n, index, s.weight)], index, ident) ==
      if Leads(input, s, ident) then Some(n) else InMatch(b.d.nodes, before, index, ident)
  {
    SourceNode(input, b, s, n);
    SourceLeads(input, b, s, n, ident);
    OneEdge(b.d.nodes, Edge(n, index, s.weight), index, ident);
    InMatchConcat(b.d.nodes, before, [Edge(n, index, s.weight)], index, ident);
  }

  // ----- the owner's own edges

  /** What an owner wants before and after its slots. */
  function WantsFirst(e: Entity): seq<Want> {
    if e.Function? then
      AttrWants(e.attrs) + (if NamesSchema(e.attrs) then [] else SchemaWant(e)) + [EveryOut(HashWith(e.modulePath, e.name))]
    else if e.Aggregate? then SchemaWant(e)
    else []
  }

  function WantsLast(e: Entity): seq<Want> {
    if e.Aggregate? then FunctionWants(AggregateFunctions(e)) else []
  }

  lemma WantsParts(e: Entity)
    requires e.Function? || e.Aggregate?
    ensures Wants(e) == WantsFirst(e) + (TypedWants(ConnectOrder(e)) + WantsLast(e))
  {
    Associate(WantsFirst(e), TypedWants(ConnectOrder(e)), WantsLast(e));
  }

  lemma OwnParts(m: Maps, builtins: map<string, nat>, e: Entity, index: nat, es: seq<Edge>)
    returns (first: seq<Edge>, typed: seq<Edge>, last: seq<Edge>)
    requires (e.Function? || e.Aggregate?) && Carried(m, builtins, ItemJobs((e, index)), es)
    ensures es == first + (typed + last) && Carried(m, builtins, JobsAt(index, TypedWants(ConnectOrder(e))), typed)
    ensures Carried(m, builtins, JobsAt(index, WantsLast(e)), last)
  {
    WantsParts(e);
    JobsAtConcat(index, WantsFirst(e), TypedWants(ConnectOrder(e)) + WantsLast(e));
    JobsAtConcat(index, TypedWants(ConnectOrder(e)), WantsLast(e));
    var rest;
    first, rest := CarriedSplit(m, builtins, JobsAt(index, WantsFirst(e)),
                                JobsAt(index, TypedWants(ConnectOrder(e))) + JobsAt(index, WantsLast(e)), es);
    typed, last := CarriedSplit(m, builtins, JobsAt(index, TypedWants(ConnectOrder(e))), JobsAt(index, WantsLast(e)), rest);
  }

  /** Every edge of a list of jobs is offered by one of them. */
  lemma JobOffers(m: Maps, builtins: map<string, nat>, jobs: seq<Job>, es: seq<Edge>, x: Edge) returns (j: Job)
    requires Carried(m, builtins, jobs, es) && x in es
    ensures j in jobs && Offers(m, builtins, j.index, j.want, x)
  {
    var parts :| Done(m, builtins, jobs, parts) && es == Flat(parts);
    FlatMember(parts, x);
    var i :| 0 <= i < |parts| && x in parts[i];
    j := jobs[i];
    FulfilsOffers(m, builtins, j.index, j.want, parts[i], x);
  }

  /** Functions are no matches. */
  lemma LastSilent(input: Input, b: Built, e: Entity, index: nat, last: seq<Edge>, ident: string)
    requires MapsOk(input, b.d, b.maps) && Carried(b.maps, b.d.builtins, JobsAt(index, WantsLast(e)), last)
    ensures Silent(b.d.nodes, last, index, ident)
  {
    forall x | x in last && x.target == index ensures !IsMatch(b.d.nodes, x.source, ident) {
      var j := JobOffers(b.maps, b.d.builtins, JobsAt(index, WantsLast(e)), last, x);
      StagesPointIn(input, b, j.want.query);
      FoundNode(b.d.nodes, b.maps, j.want.query, x.source);
    }
  }

  lemma OwnDecides(input: Input, b: Built, e: Entity, index: nat, es: seq<Edge>, ident: string)
    requires Indexed(input, b, index) && MapsOk(input, b.d, b.maps) && b.d.nodes[index] == e
    requires Carried(b.maps, b.d.builtins, ItemJobs((e, index)), es) && LastLeading(input, ConnectOrder(e), ident).Some?
    ensures Decides(input, b, ConnectOrder(e), ident, InMatch(b.d.nodes, es, index, ident))
  {
    var first, typed, last := OwnParts(b.maps, b.d.builtins, e, index, es);
    SlotsDecide(input, b, index, ConnectOrder(e), typed, ident);
    LastSilent(input, b, e, index, last, ident);
    SilentNone(b.d.nodes, last, index, ident);
    InMatchConcat(b.d.nodes, typed, last, index, ident);
    InMatchConcat(b.d.nodes, first, typed + last, index, ident);
  }

  // ----- nothing newer enters the owner

  lemma HashHit(input: Input, b: Built, q: Query, n: nat)
    requires MapsOk(input, b.d, b.maps) && q.HashWith? && n in AllHits(b.maps, q)
    ensures n < |b.d.nodes| && b.d.nodes[n].Hash?
  {
    StagesPointIn(input, b, q);
    FoundNode(b.d.nodes, b.maps, q, n);
  }

  /** Another entity adds no edge to the owner. */
  lemma OtherOffers(input: Input, b: Built, e: Entity, index: nat, w: Want, owner: nat, x: Edge)
    requires MapsOk(input, b.d, b.maps) && ItemAt(b, e, index) && w in Wants(e) && Offers(b.maps, b.d.builtins, index, w, x)
    requires index != owner && owner < |b.d.nodes| && (b.d.nodes[owner].Function? || b.d.nodes[owner].Aggregate?)
    ensures x.target != owner
  {
    if w.EveryOut? {
      WantsOneStage(e);
      HashHit(input, b, w.query, x.target);
    }
  }

  lemma OthersSilent(input: Input, b: Built, items: seq<(Entity, nat)>, es: seq<Edge>, e: Entity, index: nat, ident: string)
    requires Indexed(input, b, index) && MapsOk(input, b.d, b.maps) && ItemAt(b, e, index) && (e, index) !in items
    requires (forall f, i :: (f, i) in items ==> ItemAt(b, f, i)) && Connects(b.maps, b.d.builtins, items, es)
    ensures Silent(b.d.nodes, es, index, ident)
  {
    forall x | x in es ensures x.target != index {
      CarriedOffered(b.maps, b.d.builtins, items, es, x);
      var f, i, w :| (f, i) in items && w in Wants(f) && Offers(b.maps, b.d.builtins, i, w, x);
      ItemNode(input, b, f, i);
      ItemNode(input, b, e, index);
      OtherOffers(input, b, f, i, w, index, x);
    }
  }

  lemma SplitAt(items: seq<(Entity, nat)>, it: (Entity, nat)) returns (k: nat)
    requires Distinct(items) && it in items
    ensures k < |items| && items == items[..k] + ([it] + items[k + 1..]) && it !in items[k + 1..]
  {
    k :| 0 <= k < |items| && items[k] == it;
  }

  lemma ConnectsSplit(m: Maps, builtins: map<string, nat>, p: seq<(Entity, nat)>, q: seq<(Entity, nat)>, es: seq<Edge>)
    returns (ps: seq<Edge>, qs: seq<Edge>)
    requires Connects(m, builtins, p + q, es)
    ensures Connects(m, builtins, p, ps) && Connects(m, builtins, q, qs) && es == ps + qs
  {
    JobsConcat(p, q);
    ps, qs := CarriedSplit(m, builtins, Jobs(p), Jobs(q), es);
  }

  lemma AddedDecide(input: Input, b: Built, e: Entity, index: nat, added: seq<Edge>, ident: string)
    requires Indexed(input, b, index) && MapsOk(input, b.d, b.maps) && ItemAt(b, e, index) && b.d.nodes[index] == e
    requires AllConnected(b.maps, b.d.builtins, added) && LastLeading(input, ConnectOrder(e), ident).Some?
    ensures Decides(input, b, ConnectOrder(e), ident, InMatch(b.d.nodes, added, index, ident))
  {
    var items :| ItemsBefore(b.maps, 8, items) && Connects(b.maps, b.d.builtins, items, added);
    assert (e, index) in items;
    var k := SplitAt(items, (e, index));
    var before, rest := ConnectsSplit(b.maps, b.d.builtins, items[..k], [(e, index)] + items[k + 1..], added);
    var own, after := ConnectsSplit(b.maps, b.d.builtins, [(e, index)], items[k + 1..], rest);
    OneItem((e, index));
    OwnDecides(input, b, e, index, own, ident);
    assert forall f, i :: (f, i) in items[k + 1..] ==> (f, i) in items;
    OthersSilent(input, b, items[k + 1..], after, e, index, ident);
    SilentNone(b.d.nodes, after, index, ident);
    InMatchConcat(b.d.nodes, own, after, index, ident);
    InMatchConcat(b.d.nodes, before, rest, index, ident);
  }

  /** The newest matching edge to an owner is that of its last slot that leads to a match. */
  lemma LastSlotDecides(input: Input, b: Built, e: Entity, index: nat, ident: string)
    requires IsBuilt(input, b) && IsOwner(b, e, index) && LastLeading(input, ConnectOrder(e), ident).Some?
    ensures Decides(input, b, ConnectOrder(e), ident, InMatch(b.d.nodes, b.d.edges, index, ident))
  {
    BuiltNodes(input, b);
    BuiltTypes(input, b);
    OwnerNode(input, b, e, index);
    var first, roots, added := EdgeTail(input, b);
    AddedDecide(input, b, e, index, added, ident);
    InMatchConcat(b.d.nodes, roots, added, index, ident);
    InMatchConcat(b.d.nodes, first, roots + added, index, ident);
  }

  // ----- the lookup

  /** An edge leads from the owner to a match. */
  ghost predicate OutMatch(b: Built, index: nat, ident: string) {
    exists x :: x in b.d.edges && x.source == index && IsMatch(b.d.nodes, x.target, ident)
  }

  lemma OutMatchIs(b: Built, index: nat, ident: string)
    ensures var out := FirstMatch(b.d.nodes, OutNeighbours(b.d.edges, index), ident);
      && (out.Some? <==> OutMatch(b, index, ident))
      && (out.Some? ==> exists x :: x in b.d.edges && x.source == index && x.target == out.value && IsMatch(b.d.nodes, x.target, ident))
  {
    FirstMatchIs(b.d.nodes, OutNeighbours(b.d.edges, index), ident);
    var out := FirstMatch(b.d.nodes, OutNeighbours(b.d.edges, index), ident);
    if out.Some? {
      OutMember(b.d.edges, index, out.value);
    }
    if x :| x in b.d.edges && x.source == index && IsMatch(b.d.nodes, x.target, ident) {
      OutMember(b.d.edges, index, x.target);
    }
  }

  lemma OutIsNoPlaceholder(input: Input, b: Built, e: Entity, index: nat, x: Edge)
    requires IsBuilt(input, b) && IsOwner(b, e, index) && x in b.d.edges && x.source == index && x.target < |b.d.nodes|
    ensures !b.d.nodes[x.target].BuiltinType?
  {
    if b.d.nodes[x.target].BuiltinType? {
      OwnerNode(input, b, e, index);
      PlaceholderEdge(input, b, x, x.target);
    }
  }

  lemma OwnSlotLeads(input: Input, b: Built, s: Slot, t: nat)
    requires TypesIndexed(input, b) && s.origin.ThisExtension? && IsTarget(b.maps.decls, s.ident, t)
    ensures Leads(input, s, s.ident)
  {
    TargetNode(input, b, s.ident, t);
    OwnLeads(input, b, s, t, s.ident);
  }

  /** The lookup for an own type ends at the declaring entity if and only if an edge leads from the owner
      to it, or the last of the owner's slots that leads to the identifier is an own slot. */
  lemma LookupEndsIff(input: Input, b: Built, e: Entity, index: nat, s: Slot, t: nat)
    requires IsBuilt(input, b) && IsOwner(b, e, index) && s in Slots(e) && s.origin.ThisExtension?
    requires IsTarget(b.maps.decls, s.ident, t)
    ensures var r := FirstMatch(b.d.nodes, Neighbours(b.d.edges, index), s.ident);
            var last := LastLeading(input, ConnectOrder(e), s.ident);
      && r.Some? && last.Some? && r.value < |b.d.nodes| && t < |b.d.nodes|
      && (b.d.nodes[r.value] == b.d.nodes[t] <==> OutMatch(b, index, s.ident) || last.value.origin.ThisExtension?)
  {
    BuiltTypes(input, b);
    OwnSlotLeads(input, b, s, t);
    PhasesAgree(e);
    SomeLeads(input, ConnectOrder(e), s.ident, s);
    LastLeads(input, ConnectOrder(e), s.ident);
    LastSlotDecides(input, b, e, index, s.ident);
    OutMatchIs(b, index, s.ident);
    FirstMatchConcat(b.d.nodes, OutNeighbours(b.d.edges, index), InNeighbours(b.d.edges, index), s.ident);
    if OutMatch(b, index, s.ident) {
      OutEnds(input, b, e, index, s.ident, t);
    } else {
      var n := InMatch(b.d.nodes, b.d.edges, index, s.ident).value;
      InEnds(input, b, LastLeading(input, ConnectOrder(e), s.ident).value, s.ident, n, t);
    }
  }

  lemma OutEnds(input: Input, b: Built, e: Entity, index: nat, ident: string, t: nat)
    requires IsBuilt(input, b) && IsOwner(b, e, index) && IsTarget(b.maps.decls, ident, t) && OutMatch(b, index, ident)
    ensures var out := FirstMatch(b.d.nodes, OutNeighbours(b.d.edges, index), ident);
      out.Some? && out.value < |b.d.nodes| && t < |b.d.nodes| && b.d.nodes[out.value] == b.d.nodes[t]
  {
    OutMatchIs(b, index, ident);
    var out := FirstMatch(b.d.nodes, OutNeighbours(b.d.edges, index), ident);
    var x :| x in b.d.edges && x.source == index && x.target == out.value && IsMatch(b.d.nodes, x.target, ident);
    OutIsNoPlaceholder(input, b, e, index, x);
    BuiltTypes(input, b);
    MatchesAreTheTarget(input, b, ident, x.target, t);
  }

  lemma InEnds(input: Input, b: Built, last: Slot, ident: string, n: nat, t: nat)
    requires TypesIndexed(input, b) && Placeholders(b.d.nodes, b.d.builtins) && IsTarget(b.maps.decls, ident, t)
    requires Leads(input, last, ident) && SlotSource(b.maps.decls, b.d.builtins, last, n)
    ensures n < |b.d.nodes| && t < |b.d.nodes| && (b.d.nodes[n] == b.d.nodes[t] <==> last.origin.ThisExtension?)
  {
    SourceNode(input, b, last, n);
    SourceLeads(input, b, last, n, ident);
    MatchesAreTheTarget(input, b, ident, n, t);
  }

  lemma {:induction false} LastLeads(input: Input, slots: seq<Slot>, ident: string)
    requires LastLeading(input, slots, ident).Some?
    ensures Leads(input, LastLeading(input, slots, ident).value, ident)
  {
    if !Leads(input, slots[|slots| - 1], ident) {
      LastLeads(input, slots[..|slots| - 1], ident);
    }
  }
}

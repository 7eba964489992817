/** The first phase of the graph build as a function: each entity becomes a node with edges to
    the anchors (extension root, bootstrap block, finalize block), and each external type a
    placeholder node. */
module Drafts {
  import opened Sequences
  import opened ComponentOrder
  import opened Entities
  import opened Wrappers

  datatype Anchors = Anchors(root: nat, bootstrap: Option<nat>, finalize: Option<nat>)

  /** The graph so far, and the placeholder of each external type identifier. */
  datatype Draft = Draft(nodes: seq<Entity>, edges: seq<Edge>, builtins: map<string, nat>)

  function BlockEdges(a: Anchors, index: nat): seq<Edge> {
    (if a.bootstrap.Some? then [Edge(a.bootstrap.value, index, By)] else [])
    + (if a.finalize.Some? then [Edge(index, a.finalize.value, By)] else [])
  }

  /** `build_base_edges`: the root and the bootstrap block come before, the finalize block
      after. */
  function BaseEdges(a: Anchors, index: nat): seq<Edge> {
    [Edge(a.root, index, By)] + BlockEdges(a, index)
  }

  /** The base edges of an `extension_sql!` block: none to itself. */
  function SqlEdges(a: Anchors, e: Entity, index: nat): seq<Edge>
    requires e.CustomSql?
  {
    [Edge(a.root, index, By)]
    + (if !e.bootstrap && a.bootstrap.Some? then [Edge(a.bootstrap.value, index, By)] else [])
    + (if !e.finalize && a.finalize.Some? then [Edge(index, a.finalize.value, By)] else [])
  }

  // ----- loops over hash maps, in any order

  /** A hash map is walked in this order. */
  ghost predicate Visits(order: seq<Entity>, mapped: Mapped) {
    Distinct(order) && forall e :: e in order <==> e in mapped
  }

  /** The walk so far: the keys that are left come later. */
  ghost predicate Partway(order: seq<Entity>, mapped: Mapped, keys: set<Entity>) {
    keys <= mapped.Keys && Distinct(order) && forall e :: e in order <==> e in mapped && e !in keys
  }

  lemma PartwayStep(order: seq<Entity>, mapped: Mapped, keys: set<Entity>, e: Entity)
    requires Partway(order, mapped, keys) && e in keys
    ensures Partway(order + [e], mapped, keys - {e})
  {
  }

  function SqlEdgesAt(a: Anchors, mapped: Mapped, e: Entity): seq<Edge> {
    if e in mapped && e.CustomSql? then SqlEdges(a, e, mapped[e]) else []
  }

  /** The base edges of `extension_sql!` blocks visited in this order. */
  function SqlRun(a: Anchors, mapped: Mapped, order: seq<Entity>): seq<Edge> {
    if order == [] then [] else SqlRun(a, mapped, order[..|order| - 1]) + SqlEdgesAt(a, mapped, order[|order| - 1])
  }

  lemma SqlRunStep(a: Anchors, mapped: Mapped, order: seq<Entity>, e: Entity)
    ensures SqlRun(a, mapped, order + [e]) == SqlRun(a, mapped, order) + SqlEdgesAt(a, mapped, e)
  {
    assert (order + [e])[..|order|] == order;
  }

  lemma {:induction false} SqlRunMember(a: Anchors, mapped: Mapped, order: seq<Entity>, x: Edge)
    ensures x in SqlRun(a, mapped, order) <==> exists e :: e in order && x in SqlEdgesAt(a, mapped, e)
  {
    if order != [] {
      var rest, last := order[..|order| - 1], order[|order| - 1];
      SqlRunMember(a, mapped, rest, x);
      assert order == rest + [last];
    }
  }

  /** One edge from the root per schema. */
  function RootRun(root: nat, mapped: Mapped, order: seq<Entity>): seq<Edge> {
    if order == [] then [] else
      var last := order[|order| - 1];
      RootRun(root, mapped, order[..|order| - 1]) + (if last in mapped then [Edge(root, mapped[last], By)] else [])
  }

  /** `es` has one edge from the root per schema, in some order. */
  ghost predicate Rooted(root: nat, mapped: Mapped, es: seq<Edge>) {
    exists order :: Visits(order, mapped) && es == RootRun(root, mapped, order)
  }

  lemma RootRunStep(root: nat, mapped: Mapped, order: seq<Entity>, e: Entity)
    requires e in mapped
    ensures RootRun(root, mapped, order + [e]) == RootRun(root, mapped, order) + [Edge(root, mapped[e], By)]
  {
    assert (order + [e])[..|order|] == order;
  }

  lemma {:induction false} RootRunMember(root: nat, mapped: Mapped, order: seq<Entity>, x: Edge)
    ensures x in RootRun(root, mapped, order) <==> exists e :: e in order && e in mapped && x == Edge(root, mapped[e], By)
  {
    if order != [] {
      var rest, last := order[..|order| - 1], order[|order| - 1];
      RootRunMember(root, mapped, rest, x);
      assert order == rest + [last];
    }
  }

  // ----- the steps

  /** Schemas get their edge from the root only when they are connected. */
  function AddItem(a: Anchors, d: Draft, e: Entity): Draft {
    var index := |d.nodes|;
    d.(nodes := d.nodes + [e], edges := d.edges + if e.Schema? then BlockEdges(a, index) else BaseEdges(a, index))
  }

  function AddItems(a: Anchors, d: Draft, items: seq<Entity>): Draft {
    if items == [] then d else AddItem(a, AddItems(a, d, items[..|items| - 1]), items[|items| - 1])
  }

  /** A slot of external type gets a placeholder unless its identifier has one. */
  function AddSlot(d: Draft, s: Slot): Draft {
    if s.origin.External? && s.ident !in d.builtins then
      d.(nodes := d.nodes + [BuiltinType(s.ident)], builtins := d.builtins[s.ident := |d.nodes|])
    else d
  }

  function AddSlots(d: Draft, slots: seq<Slot>): Draft {
    if slots == [] then d else AddSlot(AddSlots(d, slots[..|slots| - 1]), slots[|slots| - 1])
  }

  /** A function or an aggregate, and then its slots. */
  function AddOwner(a: Anchors, d: Draft, e: Entity): Draft {
    AddSlots(AddItem(a, d, e), Slots(e))
  }

  function AddOwners(a: Anchors, d: Draft, items: seq<Entity>): Draft {
    if items == [] then d else AddOwner(a, AddOwners(a, d, items[..|items| - 1]), items[|items| - 1])
  }

  /** Where the owners are, a repeated owner at its last node. */
  function OwnerMap(a: Anchors, d: Draft, items: seq<Entity>): Mapped {
    if items == [] then map[] else
      var rest := items[..|items| - 1];
      OwnerMap(a, d, rest)[items[|items| - 1] := |AddOwners(a, d, rest).nodes|]
  }

  // ----- what every step keeps

  /** Placeholders are exactly where the map says: one node for each external identifier. */
  ghost predicate Placeholders(nodes: seq<Entity>, builtins: map<string, nat>) {
    && (forall ident :: ident in builtins ==> builtins[ident] < |nodes| && nodes[builtins[ident]] == BuiltinType(ident))
    && (forall i :: 0 <= i < |nodes| && nodes[i].BuiltinType? ==> nodes[i].name in builtins && builtins[nodes[i].name] == i)
  }

  /** The edges that node `k` brings in the first phase. A repeated `extension_sql!` block
      brings edges only at the node that the map keeps. */
  function EdgesOf(a: Anchors, sqls: Mapped, e: Entity, k: nat): seq<Edge> {
    if e.ExtensionRoot? || e.BuiltinType? then []
    else if e.CustomSql? then (if e in sqls && sqls[e] == k then SqlEdges(a, e, k) else [])
    else if e.Schema? then BlockEdges(a, k)
    else BaseEdges(a, k)
  }

  ghost predicate Brings(a: Anchors, sqls: Mapped, nodes: seq<Entity>, k: nat, x: Edge) {
    k < |nodes| && x in EdgesOf(a, sqls, nodes[k], k)
  }

  ghost predicate Brought(a: Anchors, sqls: Mapped, nodes: seq<Entity>, x: Edge) {
    exists k: nat :: Brings(a, sqls, nodes, k, x)
  }

  /** The edges are exactly those that the nodes bring. */
  ghost predicate EdgesExact(a: Anchors, sqls: Mapped, nodes: seq<Entity>, edges: seq<Edge>) {
    forall x :: x in edges <==> Brought(a, sqls, nodes, x)
  }

  ghost predicate Exact(a: Anchors, sqls: Mapped, d: Draft) {
    EdgesExact(a, sqls, d.nodes, d.edges) && Placeholders(d.nodes, d.builtins)
  }

  /** Entities whose nodes are added with `AddItem`. */
  predicate Plain(e: Entity) {
    !e.ExtensionRoot? && !e.BuiltinType? && !e.CustomSql?
  }

  lemma BringsStep(a: Anchors, sqls: Mapped, nodes: seq<Entity>, e: Entity, k: nat, x: Edge)
    ensures Brings(a, sqls, nodes + [e], k, x) <==>
      Brings(a, sqls, nodes, k, x) || (k == |nodes| && x in EdgesOf(a, sqls, e, k))
  {
  }

  lemma AddNodeExact(a: Anchors, sqls: Mapped, nodes: seq<Entity>, edges: seq<Edge>, e: Entity)
    requires EdgesExact(a, sqls, nodes, edges)
    ensures EdgesExact(a, sqls, nodes + [e], edges + EdgesOf(a, sqls, e, |nodes|))
  {
    var more := edges + EdgesOf(a, sqls, e, |nodes|);
    forall x ensures x in more <==> Brought(a, sqls, nodes + [e], x) {
      if x in edges {
        var k: nat :| Brings(a, sqls, nodes, k, x);
        BringsStep(a, sqls, nodes, e, k, x);
      } else if x in more {
        BringsStep(a, sqls, nodes, e, |nodes|, x);
      }
      if k: nat :| Brings(a, sqls, nodes + [e], k, x) {
        BringsStep(a, sqls, nodes, e, k, x);
      }
    }
  }

  lemma PlaceholdersPlain(nodes: seq<Entity>, builtins: map<string, nat>, e: Entity)
    requires Placeholders(nodes, builtins) && !e.BuiltinType?
    ensures Placeholders(nodes + [e], builtins)
  {
  }

  lemma AddItemExact(a: Anchors, sqls: Mapped, d: Draft, e: Entity)
    requires Exact(a, sqls, d) && Plain(e)
    ensures Exact(a, sqls, AddItem(a, d, e))
  {
    AddNodeExact(a, sqls, d.nodes, d.edges, e);
    PlaceholdersPlain(d.nodes, d.builtins, e);
    assert AddItem(a, d, e).edges == d.edges + EdgesOf(a, sqls, e, |d.nodes|);
  }

  lemma {:induction false} AddItemsExact(a: Anchors, sqls: Mapped, d: Draft, items: seq<Entity>)
    requires Exact(a, sqls, d) && forall e :: e in items ==> Plain(e)
    ensures Exact(a, sqls, AddItems(a, d, items))
    ensures AddItems(a, d, items).nodes == d.nodes + items
    ensures AddItems(a, d, items).builtins == d.builtins
  {
    if items != [] {
      var rest := items[..|items| - 1];
      AddItemsExact(a, sqls, d, rest);
      AddItemExact(a, sqls, AddItems(a, d, rest), items[|items| - 1]);
    }
  }

  lemma AddSlotExact(a: Anchors, sqls: Mapped, d: Draft, s: Slot)
    requires Exact(a, sqls, d)
    ensures Exact(a, sqls, AddSlot(d, s))
  {
    if s.origin.External? && s.ident !in d.builtins {
      AddNodeExact(a, sqls, d.nodes, d.edges, BuiltinType(s.ident));
      assert d.edges + EdgesOf(a, sqls, BuiltinType(s.ident), |d.nodes|) == d.edges;
    }
  }

  /** Growing a draft moves nothing. */
  ghost predicate Grows(d: Draft, d': Draft) {
    && |d.nodes| <= |d'.nodes| && (forall i :: 0 <= i < |d.nodes| ==> d'.nodes[i] == d.nodes[i])
    && (forall ident :: ident in d.builtins ==> ident in d'.builtins && d'.builtins[ident] == d.builtins[ident])
  }

  /** The placeholder of every external slot is there. */
  ghost predicate Placed(d: Draft, slots: seq<Slot>) {
    forall s :: s in slots && s.origin.External? ==> s.ident in d.builtins
  }

  lemma {:induction false} AddSlotsExact(a: Anchors, sqls: Mapped, d: Draft, slots: seq<Slot>)
    requires Exact(a, sqls, d)
    ensures Exact(a, sqls, AddSlots(d, slots)) && Grows(d, AddSlots(d, slots)) && Placed(AddSlots(d, slots), slots)
    ensures forall i :: |d.nodes| <= i < |AddSlots(d, slots).nodes| ==> AddSlots(d, slots).nodes[i].BuiltinType?
  {
    if slots != [] {
      var rest := slots[..|slots| - 1];
      AddSlotsExact(a, sqls, d, rest);
      AddSlotExact(a, sqls, AddSlots(d, rest), slots[|slots| - 1]);
    }
  }

  lemma AddOwnerExact(a: Anchors, sqls: Mapped, d: Draft, e: Entity)
    requires Exact(a, sqls, d) && Plain(e)
    ensures Exact(a, sqls, AddOwner(a, d, e)) && Grows(d, AddOwner(a, d, e)) && Placed(AddOwner(a, d, e), Slots(e))
    ensures var d' := AddOwner(a, d, e);
      |d.nodes| < |d'.nodes| && d'.nodes[|d.nodes|] == e
      && forall i :: |d.nodes| < i < |d'.nodes| ==> d'.nodes[i].BuiltinType?
  {
    AddItemExact(a, sqls, d, e);
    AddSlotsExact(a, sqls, AddItem(a, d, e), Slots(e));
  }

  /** A hash map from the entities of a list to nodes that hold them. */
  ghost predicate MappedIn(nodes: seq<Entity>, items: seq<Entity>, mapped: Mapped) {
    && (forall e :: e in mapped <==> e in items)
    && (forall e :: e in mapped ==> mapped[e] < |nodes| && nodes[mapped[e]] == e)
  }

  ghost predicate AllPlaced(d: Draft, items: seq<Entity>) {
    forall e :: e in items ==> Placed(d, Slots(e))
  }

  ghost predicate OnlyAdded(base: nat, nodes: seq<Entity>, items: seq<Entity>) {
    forall i :: base <= i < |nodes| ==> nodes[i].BuiltinType? || nodes[i] in items
  }

  /** All owners are mapped, each to a node that holds it, and nothing else was added but
      placeholders. */
  ghost predicate OwnersIn(d: Draft, d': Draft, items: seq<Entity>, mapped: Mapped) {
    MappedIn(d'.nodes, items, mapped) && AllPlaced(d', items) && OnlyAdded(|d.nodes|, d'.nodes, items)
  }

  lemma MappedInStep(nodes: seq<Entity>, nodes': seq<Entity>, items: seq<Entity>, mapped: Mapped, e: Entity)
    requires MappedIn(nodes, items, mapped) && |nodes| < |nodes'| && nodes'[|nodes|] == e
    requires forall i :: 0 <= i < |nodes| ==> nodes'[i] == nodes[i]
    ensures MappedIn(nodes', items + [e], mapped[e := |nodes|])
  {
  }

  lemma AllPlacedStep(d1: Draft, d2: Draft, items: seq<Entity>, e: Entity)
    requires AllPlaced(d1, items) && Grows(d1, d2) && Placed(d2, Slots(e))
    ensures AllPlaced(d2, items + [e])
  {
    forall x | x in items + [e] ensures Placed(d2, Slots(x)) {
      if x in items {
        assert Placed(d1, Slots(x));
      }
    }
  }

  lemma OnlyAddedStep(base: nat, nodes: seq<Entity>, nodes': seq<Entity>, items: seq<Entity>, e: Entity)
    requires OnlyAdded(base, nodes, items) && |nodes| < |nodes'| && nodes'[|nodes|] == e
    requires forall i :: 0 <= i < |nodes| ==> nodes'[i] == nodes[i]
    requires forall i :: |nodes| < i < |nodes'| ==> nodes'[i].BuiltinType?
    ensures OnlyAdded(base, nodes', items + [e])
  {
    forall i | base <= i < |nodes'| ensures nodes'[i].BuiltinType? || nodes'[i] in items + [e] {
      if i < |nodes| {
        assert nodes'[i] == nodes[i];
      }
    }
  }

  lemma OwnersInStep(d: Draft, d1: Draft, d2: Draft, items: seq<Entity>, mapped: Mapped, e: Entity)
    requires OwnersIn(d, d1, items, mapped) && Grows(d, d1) && Grows(d1, d2)
    requires |d1.nodes| < |d2.nodes| && d2.nodes[|d1.nodes|] == e && Placed(d2, Slots(e))
    requires forall i :: |d1.nodes| < i < |d2.nodes| ==> d2.nodes[i].BuiltinType?
    ensures OwnersIn(d, d2, items + [e], mapped[e := |d1.nodes|])
  {
    MappedInStep(d1.nodes, d2.nodes, items, mapped, e);
    AllPlacedStep(d1, d2, items, e);
    OnlyAddedStep(|d.nodes|, d1.nodes, d2.nodes, items, e);
  }

  lemma GrowsTrans(d: Draft, d1: Draft, d2: Draft)
    requires Grows(d, d1) && Grows(d1, d2)
    ensures Grows(d, d2)
  {
  }

  lemma {:induction false} AddOwnersExact(a: Anchors, sqls: Mapped, d: Draft, items: seq<Entity>)
    requires Exact(a, sqls, d) && forall e :: e in items ==> Plain(e)
    ensures Exact(a, sqls, AddOwners(a, d, items)) && Grows(d, AddOwners(a, d, items))
    ensures OwnersIn(d, AddOwners(a, d, items), items, OwnerMap(a, d, items))
  {
    if items == [] {
      assert AddOwners(a, d, items) == d && OwnerMap(a, d, items) == map[];
    } else {
      var rest, e := items[..|items| - 1], items[|items| - 1];
      var d1, owners := AddOwners(a, d, rest), OwnerMap(a, d, rest);
      AddOwnersExact(a, sqls, d, rest);
      AddOwnerExact(a, sqls, d1, e);
      var d2 := AddOwner(a, d1, e);
      GrowsTrans(d, d1, d2);
      OwnersInStep(d, d1, d2, rest, owners, e);
      assert items == rest + [e];
      assert AddOwners(a, d, items) == d2 && OwnerMap(a, d, items) == owners[e := |d1.nodes|];
    }
  }

  // ----- which nodes there are

  /** The nodes that stand for entities, in order. */
  function Own(nodes: seq<Entity>): seq<Entity> {
    if nodes == [] then [] else
      var last := nodes[|nodes| - 1];
      Own(nodes[..|nodes| - 1]) + if last.BuiltinType? then [] else [last]
  }

  lemma OwnStep(nodes: seq<Entity>, e: Entity)
    ensures Own(nodes + [e]) == Own(nodes) + if e.BuiltinType? then [] else [e]
  {
    assert (nodes + [e])[..|nodes|] == nodes;
  }

  lemma {:induction false} OwnAll(nodes: seq<Entity>)
    requires forall i :: 0 <= i < |nodes| ==> !nodes[i].BuiltinType?
    ensures Own(nodes) == nodes
  {
    if nodes != [] {
      OwnAll(nodes[..|nodes| - 1]);
    }
  }

  lemma Regroup(front: seq<Entity>, items: seq<Entity>)
    requires items != []
    ensures front + items[..|items| - 1] + [items[|items| - 1]] == front + items
  {
  }

  lemma {:induction false} AddItemsOwn(a: Anchors, d: Draft, items: seq<Entity>)
    requires forall e :: e in items ==> Plain(e)
    ensures Own(AddItems(a, d, items).nodes) == Own(d.nodes) + items
  {
    if items == [] {
      assert Own(d.nodes) + items == Own(d.nodes);
    } else {
      var rest, e := items[..|items| - 1], items[|items| - 1];
      var d1 := AddItems(a, d, rest);
      AddItemsOwn(a, d, rest);
      OwnStep(d1.nodes, e);
      assert AddItems(a, d, items).nodes == d1.nodes + [e] && Plain(e);
      Regroup(Own(d.nodes), items);
    }
  }

  /** Slots add no entity, and placeholders only for identifiers that some external slot names. */
  lemma {:induction false} AddSlotsOwn(d: Draft, slots: seq<Slot>)
    ensures Own(AddSlots(d, slots).nodes) == Own(d.nodes)
    ensures forall ident :: ident in AddSlots(d, slots).builtins ==> ident in d.builtins || Names(slots, ident)
  {
    if slots != [] {
      var rest := slots[..|slots| - 1];
      AddSlotsOwn(d, rest);
      OwnStep(AddSlots(d, rest).nodes, BuiltinType(slots[|slots| - 1].ident));
    }
  }

  ghost predicate Names(slots: seq<Slot>, ident: string) {
    exists s :: s in slots && s.origin.External? && s.ident == ident
  }

  ghost predicate UsedBy(items: seq<Entity>, ident: string) {
    exists e :: e in items && Names(Slots(e), ident)
  }

  lemma UsedByStep(items: seq<Entity>)
    requires items != []
    ensures forall ident :: UsedBy(items[..|items| - 1], ident) || Names(Slots(items[|items| - 1]), ident) ==> UsedBy(items, ident)
  {
    assert items[|items| - 1] in items && forall e :: e in items[..|items| - 1] ==> e in items;
  }

  lemma AddOwnerOwn(a: Anchors, d: Draft, e: Entity)
    requires Plain(e)
    ensures Own(AddOwner(a, d, e).nodes) == Own(d.nodes) + [e]
    ensures forall ident :: ident in AddOwner(a, d, e).builtins ==> ident in d.builtins || Names(Slots(e), ident)
  {
    AddSlotsOwn(AddItem(a, d, e), Slots(e));
    OwnStep(d.nodes, e);
  }

  lemma {:induction false} AddOwnersOwn(a: Anchors, d: Draft, items: seq<Entity>)
    requires forall e :: e in items ==> Plain(e)
    ensures Own(AddOwners(a, d, items).nodes) == Own(d.nodes) + items
    ensures forall ident :: ident in AddOwners(a, d, items).builtins ==> ident in d.builtins || UsedBy(items, ident)
  {
    if items == [] {
      assert Own(d.nodes) + items == Own(d.nodes);
    } else {
      var rest, e := items[..|items| - 1], items[|items| - 1];
      var d1 := AddOwners(a, d, rest);
      AddOwnersOwn(a, d, rest);
      AddOwnerOwn(a, d1, e);
      assert AddOwners(a, d, items) == AddOwner(a, d1, e);
      Regroup(Own(d.nodes), items);
      UsedByStep(items);
    }
  }

  /** Two entities in order are at two nodes in order. */
  lemma {:induction false} OwnPosition(nodes: seq<Entity>, k: nat) returns (i: nat)
    requires k < |Own(nodes)|
    ensures i < |nodes| && nodes[i] == Own(nodes)[k]
    ensures forall l :: k < l < |Own(nodes)| ==> exists j :: i < j < |nodes| && nodes[j] == Own(nodes)[l]
  {
    var n := |nodes| - 1;
    var rest, last := nodes[..n], nodes[n];
    assert nodes == rest + [last];
    if k < |Own(rest)| {
      i := OwnPosition(rest, k);
      forall l | k < l < |Own(nodes)| ensures exists j :: i < j < |nodes| && nodes[j] == Own(nodes)[l] {
        if l < |Own(rest)| {
          var j :| i < j < |rest| && rest[j] == Own(rest)[l];
          assert nodes[j] == Own(nodes)[l];
        } else {
          assert nodes[n] == Own(nodes)[l];
        }
      }
    } else {
      i := n;
    }
  }

  lemma {:induction false} OwnIndex(nodes: seq<Entity>, i: nat) returns (k: nat)
    requires i < |nodes| && !nodes[i].BuiltinType?
    ensures k < |Own(nodes)| && Own(nodes)[k] == nodes[i]
    ensures forall j :: i < j < |nodes| && !nodes[j].BuiltinType? ==> exists l :: k < l < |Own(nodes)| && Own(nodes)[l] == nodes[j]
  {
    var n := |nodes| - 1;
    var rest, last := nodes[..n], nodes[n];
    assert nodes == rest + [last];
    if i < n {
      k := OwnIndex(rest, i);
      forall j | i < j < |nodes| && !nodes[j].BuiltinType? ensures exists l :: k < l < |Own(nodes)| && Own(nodes)[l] == nodes[j] {
        if j < n {
          var l :| k < l < |Own(rest)| && Own(rest)[l] == rest[j];
          assert Own(nodes)[l] == nodes[j];
        } else {
          assert Own(nodes)[|Own(rest)|] == nodes[j];
        }
      }
    } else {
      k := |Own(rest)|;
    }
  }

  /** An entity is at two nodes if and only if it is listed twice. */
  ghost predicate Twice(s: seq<Entity>, e: Entity) {
    exists i, j :: 0 <= i < j < |s| && s[i] == e && s[j] == e
  }

  lemma TwiceIff(nodes: seq<Entity>, e: Entity)
    requires !e.BuiltinType?
    ensures Twice(nodes, e) <==> Twice(Own(nodes), e)
  {
    if i, j :| 0 <= i < j < |nodes| && nodes[i] == e && nodes[j] == e {
      var k := OwnIndex(nodes, i);
      var l :| k < l < |Own(nodes)| && Own(nodes)[l] == nodes[j];
    }
    if k, l :| 0 <= k < l < |Own(nodes)| && Own(nodes)[k] == e && Own(nodes)[l] == e {
      var i := OwnPosition(nodes, k);
      var j :| i < j < |nodes| && nodes[j] == Own(nodes)[l];
    }
  }
}

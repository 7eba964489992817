/** The graph builder and the first phase of the build: the nodes, with edges to the anchors
    (extension root, bootstrap and finalize blocks). */
module Build {
  import opened ComponentOrder
  import opened Connections
  import opened Drafts
  import opened Entities
  import opened TypeTargets
  import opened Wrappers

  /** A hash map filled from a list: each entity is mapped to the index of its last
      occurrence. */
  ghost predicate MapsLast(mapped: Mapped, items: seq<Entity>, base: nat) {
    && (forall e :: e in mapped <==> e in items)
    && (forall e :: e in mapped ==> LastAt(items, mapped[e] - base, e))
  }

  ghost predicate LastAt(items: seq<Entity>, k: int, e: Entity) {
    0 <= k < |items| && items[k] == e && forall j :: k < j < |items| ==> items[j] != e
  }

  lemma MapsLastStep(mapped: Mapped, items: seq<Entity>, base: nat, e: Entity, index: nat)
    requires MapsLast(mapped, items, base) && index == base + |items|
    ensures MapsLast(mapped[e := index], items + [e], base)
  {
  }

  ghost predicate AtMostOne(items: seq<Entity>, finalize: bool) {
    forall i, j :: 0 <= i < j < |items| && items[i].CustomSql? && items[j].CustomSql?
      ==> !(Marked(items[i], finalize) && Marked(items[j], finalize))
  }

  predicate Marked(e: Entity, finalize: bool)
    requires e.CustomSql?
  {
    if finalize then e.finalize else e.bootstrap
  }

  /** `found` is the index of the marked block among `items`, if there is one. */
  ghost predicate IsMarked(items: seq<Entity>, base: nat, finalize: bool, found: Option<nat>)
    requires forall e :: e in items ==> e.CustomSql?
  {
    match found
    case None => forall i :: 0 <= i < |items| ==> !Marked(items[i], finalize)
    case Some(n) => base <= n < base + |items| && Marked(items[n - base], finalize)
                    && forall i :: 0 <= i < |items| && i != n - base ==> !Marked(items[i], finalize)
  }

  /** The maps and indexes that the first loop over `extension_sql!` blocks fills. */
  datatype SqlScan = SqlScan(mapped: Mapped, bootstrap: Option<nat>, finalize: Option<nat>)

  ghost predicate Scanned(items: seq<Entity>, base: nat, scan: SqlScan) {
    && (forall e :: e in items ==> e.CustomSql?)
    && MapsLast(scan.mapped, items, base)
    && IsMarked(items, base, false, scan.bootstrap)
    && IsMarked(items, base, true, scan.finalize)
  }

  lemma MarkedStep(items: seq<Entity>, e: Entity, base: nat, finalize: bool, found: Option<nat>)
    requires (forall x :: x in items ==> x.CustomSql?) && e.CustomSql? && IsMarked(items, base, finalize, found)
    ensures forall x :: x in items + [e] ==> x.CustomSql?
    ensures !Marked(e, finalize) ==> IsMarked(items + [e], base, finalize, found)
    ensures Marked(e, finalize) && found.None? ==> IsMarked(items + [e], base, finalize, Some(base + |items|))
    ensures Marked(e, finalize) && found.Some? ==> !AtMostOne(items + [e], finalize)
  {
    var all := items + [e];
    assert all[|items|] == e && forall i :: 0 <= i < |items| ==> all[i] == items[i] && items[i] in items;
  }

  /** Note the index of a marked block; a second one is an error. */
  method NoteMarked(ghost done: seq<Entity>, ghost base: nat, e: Entity, finalize: bool, found: Option<nat>, index: nat)
    returns (ok: bool, r: Option<nat>)
    requires (forall x :: x in done ==> x.CustomSql?) && e.CustomSql?
    requires IsMarked(done, base, finalize, found) && index == base + |done|
    ensures forall x :: x in done + [e] ==> x.CustomSql?
    ensures ok ==> IsMarked(done + [e], base, finalize, r)
    ensures !ok ==> !AtMostOne(done + [e], finalize)
  {
    MarkedStep(done, e, base, finalize, found);
    ok, r := true, found;
    if Marked(e, finalize) {
      ok, r := found.None?, Some(index);
    }
  }

  lemma ScannedIsAtMostOne(items: seq<Entity>, base: nat, scan: SqlScan)
    requires Scanned(items, base, scan)
    ensures AtMostOne(items, false) && AtMostOne(items, true)
  {
  }

  lemma PrefixAtMostOne(items: seq<Entity>, n: nat)
    requires n <= |items|
    ensures forall finalize :: AtMostOne(items, finalize) ==> AtMostOne(items[..n], finalize)
  {
  }

  lemma {:induction false} SlotsKeepEdges(d: Draft, slots: seq<Slot>, more: seq<Edge>)
    ensures AddSlots(d.(edges := d.edges + more), slots) ==
      AddSlots(d, slots).(edges := AddSlots(d, slots).edges + more)
  {
    if slots != [] {
      SlotsKeepEdges(d, slots[..|slots| - 1], more);
    }
  }

  lemma AddItemsStep(a: Anchors, d: Draft, items: seq<Entity>, e: Entity)
    ensures AddItems(a, d, items + [e]) == AddItem(a, AddItems(a, d, items), e)
  {
    assert (items + [e])[..|items|] == items;
  }

  lemma AddOwnersStep(a: Anchors, d: Draft, items: seq<Entity>, e: Entity)
    ensures AddOwners(a, d, items + [e]) == AddOwner(a, AddOwners(a, d, items), e)
    ensures OwnerMap(a, d, items + [e]) == OwnerMap(a, d, items)[e := |AddOwners(a, d, items).nodes|]
  {
    assert (items + [e])[..|items|] == items;
  }

  /** Where a loop over `items` stands. */
  ghost predicate ItemsDone(a: Anchors, d0: Draft, d: Draft, items: seq<Entity>) {
    d == AddItems(a, d0, items) && |d.nodes| == |d0.nodes| + |items|
  }

  lemma ItemsDoneStep(a: Anchors, d0: Draft, d: Draft, items: seq<Entity>, e: Entity)
    requires ItemsDone(a, d0, d, items)
    ensures ItemsDone(a, d0, AddItem(a, d, e), items + [e])
  {
    AddItemsStep(a, d0, items, e);
  }

  ghost predicate OwnersDone(a: Anchors, d0: Draft, d: Draft, items: seq<Entity>, mapped: Mapped) {
    d == AddOwners(a, d0, items) && mapped == OwnerMap(a, d0, items)
  }

  ghost predicate SlotsResolvable(m: TypeMaps, slots: seq<Slot>) {
    forall s :: s in slots ==> Resolvable(m, s)
  }

  ghost predicate AllResolvable(m: TypeMaps, items: seq<Entity>) {
    forall e :: e in items ==> SlotsResolvable(m, Slots(e))
  }

  lemma AllResolvableStep(m: TypeMaps, items: seq<Entity>, i: nat)
    requires i < |items|
    ensures AllResolvable(m, items[..i + 1]) <==> AllResolvable(m, items[..i]) && SlotsResolvable(m, Slots(items[i]))
    ensures AllResolvable(m, items) ==> AllResolvable(m, items[..i + 1])
    ensures items[..i + 1] == items[..i] + [items[i]]
  {
    assert items[..i + 1] == items[..i] + [items[i]];
    assert items == items[..i + 1] + items[i + 1..];
    assert items[i] in items[..i + 1];
  }

  lemma OwnersDoneStep(a: Anchors, d0: Draft, d: Draft, items: seq<Entity>, mapped: Mapped, e: Entity)
    requires OwnersDone(a, d0, d, items, mapped)
    ensures OwnersDone(a, d0, AddOwner(a, d, e), items + [e], mapped[e := |d.nodes|])
  {
    AddOwnersStep(a, d0, items, e);
  }

  class GraphBuilder {
    var nodes: seq<Entity>
    var edges: seq<Edge>
    var builtins: map<string, nat>

    ghost function State(): Draft
      reads this
    {
      Draft(nodes, edges, builtins)
    }

    constructor ()
      ensures State() == Draft([], [], map[])
    {
      nodes, edges, builtins := [], [], map[];
    }

    method AddNode(e: Entity) returns (index: nat)
      modifies this`nodes
      ensures nodes == old(nodes) + [e] && index == |old(nodes)|
    {
      index := |nodes|;
      nodes := nodes + [e];
    }

    method AddEdge(source: nat, target: nat, weight: Requires)
      modifies this`edges
      ensures edges == old(edges) + [Edge(source, target, weight)]
    {
      edges := edges + [Edge(source, target, weight)];
    }

    method BuildBlockEdges(a: Anchors, index: nat)
      modifies this`edges
      ensures edges == old(edges) + BlockEdges(a, index)
    {
      if a.bootstrap.Some? {
        AddEdge(a.bootstrap.value, index, By);
      }
      if a.finalize.Some? {
        AddEdge(index, a.finalize.value, By);
      }
    }

    method BuildBaseEdges(a: Anchors, index: nat)
      modifies this`edges
      ensures edges == old(edges) + BaseEdges(a, index)
    {
      AddEdge(a.root, index, By);
      BuildBlockEdges(a, index);
    }

    // ----- first phase

    /** One turn of the first loop of `initialize_extension_sqls`. */
    method AddSqlNode(ghost done: seq<Entity>, ghost base: nat, item: Entity, scan0: SqlScan)
      returns (ok: bool, scan: SqlScan)
      requires item.CustomSql? && Scanned(done, base, scan0) && |nodes| == base + |done|
      modifies this`nodes
      ensures nodes == old(nodes) + [item]
      ensures ok ==> Scanned(done + [item], base, scan)
      ensures !ok ==> !AtMostOne(done + [item], false) || !AtMostOne(done + [item], true)
    {
      var index := AddNode(item);
      scan := SqlScan(scan0.mapped[item := index], None, None);
      MapsLastStep(scan0.mapped, done, base, item, index);
      var bootstrap, finalize;
      ok, bootstrap := NoteMarked(done, base, item, false, scan0.bootstrap, index);
      if !ok {
        return;
      }
      ok, finalize := NoteMarked(done, base, item, true, scan0.finalize, index);
      scan := scan.(bootstrap := bootstrap, finalize := finalize);
    }

    /** First loop of `initialize_extension_sqls`: one node per block; a second bootstrap or a
        second finalize block is an error. */
    method AddSqlNodes(items: seq<Entity>) returns (ok: bool, scan: SqlScan)
      requires forall e :: e in items ==> e.CustomSql?
      modifies this`nodes
      ensures ok <==> AtMostOne(items, false) && AtMostOne(items, true)
      ensures ok ==> nodes == old(nodes) + items && Scanned(items, |old(nodes)|, scan)
    {
      scan := SqlScan(map[], None, None);
      ghost var base := |nodes|;
      for i := 0 to |items|
        invariant nodes == old(nodes) + items[..i]
        invariant Scanned(items[..i], base, scan)
      {
        assert items[..i + 1] == items[..i] + [items[i]];
        ok, scan := AddSqlNode(items[..i], base, items[i], scan);
        if !ok {
          PrefixAtMostOne(items, i + 1);
          return;
        }
      }
      assert items[..|items|] == items;
      ScannedIsAtMostOne(items, base, scan);
      ok := true;
    }

    method BuildSqlEdges(a: Anchors, e: Entity, index: nat)
      requires e.CustomSql?
      modifies this`edges
      ensures edges == old(edges) + SqlEdges(a, e, index)
    {
      AddEdge(a.root, index, By);
      if !e.bootstrap && a.bootstrap.Some? {
        AddEdge(a.bootstrap.value, index, By);
      }
      if !e.finalize && a.finalize.Some? {
        AddEdge(index, a.finalize.value, By);
      }
    }

    /** Second loop of `initialize_extension_sqls`, over the hash map in any order. */
    method AddSqlEdges(a: Anchors, mapped: Mapped) returns (ghost order: seq<Entity>)
      requires forall e :: e in mapped ==> e.CustomSql?
      modifies this`edges
      ensures Visits(order, mapped) && edges == old(edges) + SqlRun(a, mapped, order)
    {
      var keys := mapped.Keys;
      order := [];
      while keys != {}
        invariant Partway(order, mapped, keys)
        invariant edges == old(edges) + SqlRun(a, mapped, order)
        decreases keys
      {
        var e :| e in keys;
        SqlRunStep(a, mapped, order, e);
        PartwayStep(order, mapped, keys, e);
        BuildSqlEdges(a, e, mapped[e]);
        order, keys := order + [e], keys - {e};
      }
    }

    /** `connect_schemas`, over the hash map in any order. */
    method ConnectSchemas(root: nat, schemas: Mapped) returns (ghost es: seq<Edge>)
      modifies this`edges
      ensures Rooted(root, schemas, es) && edges == old(edges) + es
    {
      ghost var order: seq<Entity>;
      var keys := schemas.Keys;
      order := [];
      while keys != {}
        invariant Partway(order, schemas, keys)
        invariant edges == old(edges) + RootRun(root, schemas, order)
        decreases keys
      {
        var e :| e in keys;
        RootRunStep(root, schemas, order, e);
        PartwayStep(order, schemas, keys, e);
        AddEdge(root, schemas[e], By);
        order, keys := order + [e], keys - {e};
      }
      es := RootRun(root, schemas, order);
      assert Visits(order, schemas);
    }

    method InitializeNode(a: Anchors, e: Entity) returns (index: nat)
      modifies this`nodes, this`edges
      ensures State() == AddItem(a, old(State()), e) && index == |old(nodes)|
    {
      index := AddNode(e);
      if e.Schema? {
        BuildBlockEdges(a, index);
      } else {
        BuildBaseEdges(a, index);
      }
    }

    method InitializeMapped(a: Anchors, ghost d0: Draft, ghost done: seq<Entity>, e: Entity, mapped0: Mapped)
      returns (mapped: Mapped)
      requires ItemsDone(a, d0, State(), done) && MapsLast(mapped0, done, |d0.nodes|)
      modifies this`nodes, this`edges
      ensures ItemsDone(a, d0, State(), done + [e]) && MapsLast(mapped, done + [e], |d0.nodes|)
    {
      ItemsDoneStep(a, d0, State(), done, e);
      var index := InitializeNode(a, e);
      MapsLastStep(mapped0, done, |d0.nodes|, e, index);
      mapped := mapped0[e := index];
    }

    /** `initialize_schemas`, `initialize_enums`, `initialize_types`, `initialize_ords`,
        `initialize_hashes`, `initialize_triggers`: one loop, in which schemas get no edge from
        the root. */
    method InitializeNodes(a: Anchors, items: seq<Entity>) returns (mapped: Mapped)
      modifies this`nodes, this`edges
      ensures State() == AddItems(a, old(State()), items)
      ensures MapsLast(mapped, items, |old(nodes)|)
    {
      mapped := map[];
      ghost var d0 := State();
      ghost var done: seq<Entity> := [];
      for i := 0 to |items|
        invariant done == items[..i] && ItemsDone(a, d0, State(), done) && MapsLast(mapped, done, |d0.nodes|)
      {
        mapped := InitializeMapped(a, d0, done, items[i], mapped);
        done := done + [items[i]];
      }
      assert done == items;
    }

    /** `initialize_resolved_type`. */
    method InitializeResolvedType(m: TypeMaps, s: Slot) returns (ok: bool)
      requires m.Valid()
      modifies this`nodes, this`builtins
      ensures ok <==> Resolvable(m, s)
      ensures State() == AddSlot(old(State()), s)
    {
      if s.origin.External? {
        if s.ident !in builtins {
          var index := AddNode(BuiltinType(s.ident));
          builtins := builtins[s.ident := index];
        }
        return true;
      }
      var target := FindGraphTypeTarget(m, s.ident);
      ok := target.Some?;
    }

    method InitializeSlots(m: TypeMaps, slots: seq<Slot>) returns (ok: bool)
      requires m.Valid()
      modifies this`nodes, this`builtins
      ensures ok <==> SlotsResolvable(m, slots)
      ensures ok ==> State() == AddSlots(old(State()), slots)
    {
      ghost var d0 := State();
      for i := 0 to |slots|
        invariant State() == AddSlots(d0, slots[..i]) && edges == d0.edges
        invariant forall s :: s in slots[..i] ==> Resolvable(m, s)
      {
        assert slots[..i + 1][..i] == slots[..i] && slots[..i + 1] == slots[..i] + [slots[i]];
        ok := InitializeResolvedType(m, slots[i]);
        if !ok {
          return;
        }
      }
      assert slots[..|slots|] == slots;
      ok := true;
    }

    /** One function or aggregate. A function gets its base edges before its slots are looked
        at, an aggregate after. */
    method InitializeOwner(a: Anchors, m: TypeMaps, e: Entity) returns (ok: bool, index: nat)
      requires m.Valid() && (e.Function? || e.Aggregate?)
      modifies this
      ensures ok <==> SlotsResolvable(m, Slots(e))
      ensures ok ==> index == |old(nodes)| && State() == AddOwner(a, old(State()), e)
    {
      index := AddNode(e);
      ghost var d := State();
      if e.Function? {
        BuildBaseEdges(a, index);
      }
      ok := InitializeSlots(m, Slots(e));
      if ok && e.Aggregate? {
        BuildBaseEdges(a, index);
      }
      SlotsKeepEdges(d, Slots(e), BaseEdges(a, index));
    }

    method InitializeNext(a: Anchors, m: TypeMaps, ghost d0: Draft, ghost done: seq<Entity>, e: Entity, mapped0: Mapped)
      returns (ok: bool, mapped: Mapped)
      requires m.Valid() && (e.Function? || e.Aggregate?) && OwnersDone(a, d0, State(), done, mapped0)
      modifies this
      ensures ok <==> SlotsResolvable(m, Slots(e))
      ensures ok ==> OwnersDone(a, d0, State(), done + [e], mapped)
    {
      OwnersDoneStep(a, d0, State(), done, mapped0, e);
      var index;
      ok, index := InitializeOwner(a, m, e);
      mapped := mapped0[e := index];
    }

    /** `initialize_externs`, `initialize_aggregates`. They fail exactly when the type of some
        slot belongs to this extension and nothing declares it. */
    method InitializeOwners(a: Anchors, m: TypeMaps, items: seq<Entity>) returns (ok: bool, mapped: Mapped)
      requires m.Valid() && forall e :: e in items ==> e.Function? || e.Aggregate?
      modifies this
      ensures ok <==> AllResolvable(m, items)
      ensures ok ==> OwnersDone(a, old(State()), State(), items, mapped)
    {
      mapped := map[];
      ghost var d0 := State();
      ghost var done: seq<Entity> := [];
      for i := 0 to |items|
        invariant done == items[..i] && AllResolvable(m, done)
        invariant OwnersDone(a, d0, State(), done, mapped)
      {
        AllResolvableStep(m, items, i);
        ok, mapped := InitializeNext(a, m, d0, done, items[i], mapped);
        if !ok {
          return;
        }
        done := items[..i + 1];
      }
      assert done == items;
      ok := true;
    }
  }
}

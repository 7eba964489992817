/** The second phase of the build: searching the hash maps and adding the edges. */
module Connect {
  import opened Sequences
  import opened ComponentOrder
  import opened Connections
  import opened Entities
  import opened TypeTargets
  import opened Build
  import opened Wrappers

  /** Find some key of a hash map that a query hits; the map is walked in any order. */
  method FindIn(mapped: Mapped, q: Query) returns (r: Option<nat>)
    ensures r.None? <==> HitsIn(mapped, q) == {}
    ensures r.Some? ==> r.value in HitsIn(mapped, q)
  {
    var keys := mapped.Keys;
    while keys != {}
      invariant keys <= mapped.Keys
      invariant forall e :: e in mapped && e !in keys ==> !Hits(q, e)
      decreases keys
    {
      var e :| e in keys;
      if Hits(q, e) {
        assert mapped[e] in HitsIn(mapped, q);
        return Some(mapped[e]);
      }
      keys := keys - {e};
    }
    r := None;
  }

  /** `find_positioning_ref_target`, `find_type_or_enum` and the searches of
      `make_schema_connection`, `make_extern_connection` and `connect_hashes`. */
  method Find(m: Maps, q: Query) returns (r: Option<nat>)
    ensures r.None? <==> Found(m, q) == {}
    ensures r.Some? ==> r.value in Found(m, q)
  {
    var stages := Stages(m, q);
    for i := 0 to |stages|
      invariant Found(m, q) == FirstHits(stages[i..], q)
    {
      r := FindIn(stages[i], q);
      if r.Some? {
        return;
      }
      assert stages[i..][1..] == stages[i + 1..];
    }
    r := None;
  }

  /** The hits outside `keys`. */
  ghost function HitsBut(mapped: Mapped, q: Query, keys: set<Entity>): set<nat> {
    set e | e in mapped && e !in keys && Hits(q, e) :: mapped[e]
  }

  lemma HitsButStep(mapped: Mapped, q: Query, keys: set<Entity>, e: Entity, ns: seq<nat>)
    requires OneToOne(mapped) && keys <= mapped.Keys && e in keys && Lists(ns, HitsBut(mapped, q, keys))
    ensures Lists(if Hits(q, e) then ns + [mapped[e]] else ns, HitsBut(mapped, q, keys - {e}))
  {
    var more := HitsBut(mapped, q, keys - {e});
    if Hits(q, e) {
      assert mapped[e] !in HitsBut(mapped, q, keys);
      assert forall n :: n in ns ==> n in Elements(ns);
      assert more == HitsBut(mapped, q, keys) + {mapped[e]};
      assert Elements(ns + [mapped[e]]) == Elements(ns) + {mapped[e]};
    } else {
      assert more == HitsBut(mapped, q, keys);
    }
  }

  lemma IntoStep(ns: seq<nat>, n: nat, index: nat)
    ensures Into(ns + [n], index) == Into(ns, index) + [Edge(n, index, By)]
    ensures OutOf(index, ns + [n]) == OutOf(index, ns) + [Edge(index, n, By)]
  {
  }

  /** The loops that connect every hit: declared schemas and operators before an entity, hash
      operator classes after a function. */
  method AddEvery(g: GraphBuilder, mapped: Mapped, q: Query, index: nat, outgoing: bool) returns (ns: seq<nat>)
    requires OneToOne(mapped)
    modifies g`edges
    ensures Lists(ns, HitsIn(mapped, q))
    ensures g.edges == old(g.edges) + if outgoing then OutOf(index, ns) else Into(ns, index)
  {
    ns := [];
    var keys := mapped.Keys;
    assert HitsBut(mapped, q, keys) == {};
    while keys != {}
      invariant keys <= mapped.Keys && Lists(ns, HitsBut(mapped, q, keys))
      invariant g.edges == old(g.edges) + if outgoing then OutOf(index, ns) else Into(ns, index)
      decreases keys
    {
      var e :| e in keys;
      HitsButStep(mapped, q, keys, e, ns);
      if Hits(q, e) {
        IntoStep(ns, mapped[e], index);
        if outgoing {
          g.AddEdge(index, mapped[e], By);
        } else {
          g.AddEdge(mapped[e], index, By);
        }
        ns := ns + [mapped[e]];
      }
      keys := keys - {e};
    }
    assert HitsBut(mapped, q, {}) == HitsIn(mapped, q);
  }

  /** `connect_resolved_type`. */
  method ConnectResolvedType(g: GraphBuilder, m: TypeMaps, index: nat, s: Slot) returns (ok: bool, ghost n: nat)
    requires m.Valid()
    modifies g`edges
    ensures ok <==> Available(m, g.builtins, s)
    ensures ok ==> SlotSource(m, g.builtins, s, n) && g.edges == old(g.edges) + [Edge(n, index, s.weight)]
  {
    n := 0;
    if s.origin.External? {
      ok := s.ident in g.builtins;
      if ok {
        n := g.builtins[s.ident];
        g.AddEdge(g.builtins[s.ident], index, s.weight);
      }
      return;
    }
    var target := FindGraphTypeTarget(m, s.ident);
    ok := target.Some?;
    if ok {
      n := target.value;
      g.AddEdge(target.value, index, s.weight);
    }
  }

  ghost predicate Usable(m: Maps) {
    m.decls.Valid() && OneToOne(m.schemas) && OneToOne(m.externs) && OneToOne(m.hashes)
  }

  /** Queries whose every hit is connected go through one of these maps. */
  predicate OneStage(w: Want) {
    match w
    case Every(q, _) => q.SchemaNamed? || q.FunctionNamed?
    case EveryOut(q) => q.HashWith?
    case _ => true
  }

  /** One connection: it fails exactly when it must find something and cannot. */
  method ConnectWant(g: GraphBuilder, m: Maps, index: nat, w: Want) returns (ok: bool, ghost es: seq<Edge>)
    requires Usable(m) && OneStage(w)
    modifies g`edges
    ensures ok <==> Satisfied(m, g.builtins, w)
    ensures ok ==> Fulfils(m, g.builtins, index, w, es) && g.edges == old(g.edges) + es
  {
    es := [];
    match w {
      case Single(q, required) =>
        var r := Find(m, q);
        ok := !required || r.Some?;
        if r.Some? {
          es := [Edge(r.value, index, By)];
          g.AddEdge(r.value, index, By);
        }
      case Every(q, required) =>
        var ns := AddEvery(g, Stages(m, q)[0], q, index, false);
        ok := !required || ns != [];
        es := Into(ns, index);
        EmptyIff(ns, AllHits(m, q));
      case EveryOut(q) =>
        var ns := AddEvery(g, Stages(m, q)[0], q, index, true);
        ok := true;
        es := OutOf(index, ns);
      case Typed(s) =>
        ghost var n;
        ok, n := ConnectResolvedType(g, m.decls, index, s);
        es := [Edge(n, index, s.weight)];
    }
  }

  lemma EmptyIff(ns: seq<nat>, s: set<nat>)
    requires Lists(ns, s)
    ensures ns == [] <==> s == {}
  {
    if ns != [] {
      assert ns[0] in Elements(ns);
    }
  }

  // ----- one entity

  lemma {:induction false} AttrWantsOneStage(attrs: seq<ExternAttr>)
    ensures forall w :: w in AttrWants(attrs) ==> OneStage(w)
  {
    if attrs != [] {
      AttrWantsOneStage(attrs[..|attrs| - 1]);
    }
  }

  lemma WantsOneStage(e: Entity)
    ensures forall w :: w in Wants(e) ==> OneStage(w)
  {
    if e.Function? {
      AttrWantsOneStage(e.attrs);
    }
  }

  ghost predicate AllSatisfied(m: Maps, builtins: map<string, nat>, wants: seq<Want>) {
    forall w :: w in wants ==> Satisfied(m, builtins, w)
  }

  lemma WantsStep(m: Maps, builtins: map<string, nat>, index: nat, wants: seq<Want>, k: nat)
    requires k < |wants|
    ensures AllSatisfied(m, builtins, wants[..k + 1]) <==>
      AllSatisfied(m, builtins, wants[..k]) && Satisfied(m, builtins, wants[k])
    ensures AllSatisfied(m, builtins, wants) ==> Satisfied(m, builtins, wants[k])
    ensures JobsAt(index, wants[..k + 1]) == JobsAt(index, wants[..k]) + [Job(index, wants[k])]
  {
    assert wants[..k + 1] == wants[..k] + [wants[k]];
    assert wants[k] in wants && wants[k] in wants[..k + 1];
  }

  /** All connections of an entity: a body of one of the `connect_*` loops. */
  method ConnectWants(g: GraphBuilder, m: Maps, index: nat, wants: seq<Want>) returns (ok: bool, ghost es: seq<Edge>)
    requires Usable(m) && forall w :: w in wants ==> OneStage(w)
    modifies g`edges
    ensures ok <==> AllSatisfied(m, g.builtins, wants)
    ensures ok ==> Carried(m, g.builtins, JobsAt(index, wants), es) && g.edges == old(g.edges) + es
  {
    es := [];
    CarriedNone(m, g.builtins);
    for k := 0 to |wants|
      invariant AllSatisfied(m, g.builtins, wants[..k])
      invariant Carried(m, g.builtins, JobsAt(index, wants[..k]), es)
      invariant g.edges == old(g.edges) + es
    {
      WantsStep(m, g.builtins, index, wants, k);
      ghost var more;
      ok, more := ConnectWant(g, m, index, wants[k]);
      if !ok {
        return;
      }
      CarriedOne(m, g.builtins, Job(index, wants[k]), more);
      CarriedConcat(m, g.builtins, JobsAt(index, wants[..k]), es, [Job(index, wants[k])], more);
      Associate(old(g.edges), es, more);
      es := es + more;
    }
    assert wants[..|wants|] == wants;
    ok := true;
  }

  // ----- one map

  ghost predicate PartwayItems(items: seq<(Entity, nat)>, mapped: Mapped, keys: set<Entity>) {
    && keys <= mapped.Keys && Distinct(items)
    && forall e, i :: (e, i) in items <==> e in mapped && mapped[e] == i && e !in keys
  }

  lemma PartwayItemsStep(items: seq<(Entity, nat)>, mapped: Mapped, keys: set<Entity>, e: Entity)
    requires PartwayItems(items, mapped, keys) && e in keys
    ensures PartwayItems(items + [(e, mapped[e])], mapped, keys - {e})
  {
    assert (e, mapped[e]) !in items;
  }

  /** `es` are the edges that connecting the items adds. */
  ghost predicate Connects(m: Maps, builtins: map<string, nat>, items: seq<(Entity, nat)>, es: seq<Edge>) {
    Carried(m, builtins, Jobs(items), es)
  }

  lemma ConnectsConcat(m: Maps, builtins: map<string, nat>, items: seq<(Entity, nat)>, es: seq<Edge>,
                       items': seq<(Entity, nat)>, es': seq<Edge>)
    requires Connects(m, builtins, items, es) && Connects(m, builtins, items', es')
    ensures Connects(m, builtins, items + items', es + es')
  {
    JobsConcat(items, items');
    CarriedConcat(m, builtins, Jobs(items), es, Jobs(items'), es');
  }

  lemma OneItem(it: (Entity, nat))
    ensures Jobs([it]) == ItemJobs(it)
  {
    JobsStep([], it);
    assert [] + [it] == [it] && Jobs([]) + ItemJobs(it) == ItemJobs(it);
  }

  method ConnectItem(g: GraphBuilder, m: Maps, e: Entity, index: nat) returns (ok: bool, ghost es: seq<Edge>)
    requires Usable(m)
    modifies g`edges
    ensures ok <==> AllSatisfied(m, g.builtins, Wants(e))
    ensures ok ==> Connects(m, g.builtins, [(e, index)], es) && g.edges == old(g.edges) + es
  {
    WantsOneStage(e);
    OneItem((e, index));
    ok, es := ConnectWants(g, m, index, Wants(e));
  }

  ghost predicate KeysSatisfied(m: Maps, builtins: map<string, nat>, keys: set<Entity>) {
    forall e :: e in keys ==> AllSatisfied(m, builtins, Wants(e))
  }

  /** One of the `connect_*` loops, over its hash map in any order. */
  method ConnectAll(g: GraphBuilder, m: Maps, mapped: Mapped)
    returns (ok: bool, ghost items: seq<(Entity, nat)>, ghost es: seq<Edge>)
    requires Usable(m)
    modifies g`edges
    ensures ok <==> KeysSatisfied(m, g.builtins, mapped.Keys)
    ensures ok ==> PartwayItems(items, mapped, {}) && Connects(m, g.builtins, items, es)
    ensures ok ==> g.edges == old(g.edges) + es
  {
    items, es := [], [];
    CarriedNone(m, g.builtins);
    var keys := mapped.Keys;
    while keys != {}
      invariant PartwayItems(items, mapped, keys) && Connects(m, g.builtins, items, es)
      invariant g.edges == old(g.edges) + es
      invariant KeysSatisfied(m, g.builtins, mapped.Keys - keys)
      decreases keys
    {
      var e :| e in keys;
      ghost var more;
      ok, more := ConnectItem(g, m, e, mapped[e]);
      if !ok {
        return;
      }
      ConnectsConcat(m, g.builtins, items, es, [(e, mapped[e])], more);
      PartwayItemsStep(items, mapped, keys, e);
      Associate(old(g.edges), es, more);
      items, es := items + [(e, mapped[e])], es + more;
      keys := keys - {e};
    }
    assert mapped.Keys - {} == mapped.Keys;
    ok := true;
  }

  // ----- all maps

  /** The order of the `connect_*` calls. */
  function Phases(m: Maps): seq<Mapped> {
    [m.decls.sqls, m.decls.enums, m.decls.types, m.externs, m.ords, m.hashes, m.aggregates, m.triggers]
  }

  function PhaseOf(e: Entity): nat {
    if e.CustomSql? then 0 else if e.Enum? then 1 else if e.Type? then 2 else if e.Function? then 3
    else if e.Ord? then 4 else if e.Hash? then 5 else if e.Aggregate? then 6 else if e.Trigger? then 7 else 8
  }

  lemma PhaseIs(m: Maps, k: nat, e: Entity)
    requires m.Valid() && k < 8
    ensures e in Phases(m)[k] <==> PhaseOf(e) == k && e in m.Of(e)
    ensures PhaseOf(e) == k ==> Phases(m)[k] == m.Of(e)
  {
  }

  /** The entities of the first `k` maps, each at its node. */
  ghost predicate ItemsBefore(m: Maps, k: nat, items: seq<(Entity, nat)>) {
    && Distinct(items)
    && forall e, i :: (e, i) in items <==> PhaseOf(e) < k && e in m.Of(e) && m.Of(e)[e] == i
  }

  lemma ItemsBeforeStep(m: Maps, k: nat, items: seq<(Entity, nat)>, more: seq<(Entity, nat)>)
    requires m.Valid() && k < 8 && ItemsBefore(m, k, items) && PartwayItems(more, Phases(m)[k], {})
    ensures ItemsBefore(m, k + 1, items + more)
  {
    forall e, i ensures (e, i) in items + more <==> PhaseOf(e) < k + 1 && e in m.Of(e) && m.Of(e)[e] == i {
      PhaseIs(m, k, e);
    }
    forall it | it in items ensures it !in more {
      PhaseIs(m, k, it.0);
      assert (it.0, it.1) in items;
    }
    DistinctConcat(items, more);
  }

  /** Every entity of the first `k` maps has all it must be connected to. */
  ghost predicate Connectable(m: Maps, builtins: map<string, nat>, k: nat) {
    forall e :: PhaseOf(e) < k && e in m.Of(e) ==> AllSatisfied(m, builtins, Wants(e))
  }

  lemma ConnectableStep(m: Maps, builtins: map<string, nat>, k: nat)
    requires m.Valid() && k < 8
    ensures Connectable(m, builtins, k + 1) <==> Connectable(m, builtins, k) && KeysSatisfied(m, builtins, Phases(m)[k].Keys)
    ensures !Connectable(m, builtins, k + 1) ==> !Connectable(m, builtins, 8)
  {
    forall e ensures e in Phases(m)[k] <==> PhaseOf(e) == k && e in m.Of(e) {
      PhaseIs(m, k, e);
    }
  }

  /** `es` are edges that connecting all entities adds, in some order of the hash maps. */
  ghost predicate AllConnected(m: Maps, builtins: map<string, nat>, es: seq<Edge>) {
    exists items :: ItemsBefore(m, 8, items) && Connects(m, builtins, items, es)
  }

  /** The second phase after `connect_schemas`. It succeeds exactly when every connection that
      must find something can, and adds exactly the edges of one fulfilment of each. */
  method ConnectPhases(g: GraphBuilder, m: Maps) returns (ok: bool, ghost es: seq<Edge>)
    requires Usable(m) && m.Valid()
    modifies g`edges
    ensures ok <==> Connectable(m, g.builtins, 8)
    ensures ok ==> AllConnected(m, g.builtins, es) && g.edges == old(g.edges) + es
  {
    ghost var items: seq<(Entity, nat)> := [];
    es := [];
    CarriedNone(m, g.builtins);
    for k := 0 to 8
      invariant Connectable(m, g.builtins, k) && ItemsBefore(m, k, items) && Connects(m, g.builtins, items, es)
      invariant g.edges == old(g.edges) + es
    {
      ConnectableStep(m, g.builtins, k);
      ghost var items', es';
      ok, items', es' := ConnectAll(g, m, Phases(m)[k]);
      if !ok {
        return;
      }
      ItemsBeforeStep(m, k, items, items');
      ConnectsConcat(m, g.builtins, items, es, items', es');
      Associate(old(g.edges), es, es');
      items, es := items + items', es + es';
    }
    ok := true;
  }
}

/** What the second phase of the build connects each entity to: which entities a connection may
    find, which connections must find one, and which edges they add. Hash maps are searched in
    any order, so a connection may have several right answers. */
module Connections {
  import opened Sequences
  import opened ComponentOrder
  import opened Entities
  import opened TypeTargets
  import opened Text

  /** The hash maps of the build, one per kind of entity. */
  datatype Maps = Maps(decls: TypeMaps, schemas: Mapped, externs: Mapped, ords: Mapped, hashes: Mapped,
                       aggregates: Mapped, triggers: Mapped)
  {
    /** The map that holds entities of the kind of `e`. */
    function Of(e: Entity): Mapped {
      if e.CustomSql? then decls.sqls
      else if e.Type? then decls.types
      else if e.Enum? then decls.enums
      else if e.Schema? then schemas
      else if e.Function? then externs
      else if e.Ord? then ords
      else if e.Hash? then hashes
      else if e.Aggregate? then aggregates
      else if e.Trigger? then triggers
      else map[]
    }

    /** Every map holds entities of its own kind. */
    ghost predicate Valid() {
      && decls.Valid()
      && (forall e :: e in schemas ==> e.Schema?)
      && (forall e :: e in externs ==> e.Function?)
      && (forall e :: e in ords ==> e.Ord?)
      && (forall e :: e in hashes ==> e.Hash?)
      && (forall e :: e in aggregates ==> e.Aggregate?)
      && (forall e :: e in triggers ==> e.Trigger?)
    }
  }

  ghost predicate OneToOne(mapped: Mapped) {
    forall e, f :: e in mapped && f in mapped && mapped[e] == mapped[f] ==> e == f
  }

  // ----- searches

  /** What a connection looks for. */
  datatype Query =
    | SchemaAt(modulePath: string)
    | SchemaNamed(name: string)
    | FunctionAt(fullPath: string)
    | FunctionNamed(modulePath: string, names: seq<string>)
    | HashWith(modulePath: string, eqFn: string)
    | TypeOrEnum(ident: string)
    | Positioned(ref: PositioningRef)

  predicate EndsWith(s: string, suffix: string) {
    |suffix| <= |s| && s[|s| - |suffix|..] == suffix
  }

  function Join(parts: seq<string>): string {
    if parts == [] then "" else if |parts| == 1 then parts[0] else parts[0] + "::" + Join(parts[1..])
  }

  /** A path up to its last segment, and its last segment. */
  function Front(path: string): string {
    var parts := Split(path, "::");
    Join(parts[..|parts| - 1])
  }

  function Last(path: string): string {
    var parts := Split(path, "::");
    parts[|parts| - 1]
  }

  predicate RefHits(ref: PositioningRef, e: Entity) {
    match ref
    case FullPath(path) =>
      if e.Type? || e.Enum? then e.name == Last(path) && EndsWith(e.modulePath, Front(path))
      else if e.Function? then e.unaliased == Last(path) && EndsWith(e.modulePath, Front(path))
      else if e.Schema? then EndsWith(e.modulePath, path)
      else e.Trigger? && e.functionName == Last(path) && EndsWith(e.modulePath, Front(path))
    case Named(name) => e.CustomSql? && e.name == name
  }

  predicate Hits(q: Query, e: Entity) {
    match q
    case SchemaAt(modulePath) => e.Schema? && e.modulePath == modulePath
    case SchemaNamed(name) => e.Schema? && e.name == name
    case FunctionAt(fullPath) => e.Function? && e.fullPath == fullPath
    case FunctionNamed(modulePath, names) => e.Function? && e.modulePath == modulePath && e.name in names
    case HashWith(modulePath, eqFn) => e.Hash? && e.modulePath == modulePath && eqFn == e.lowerName + "_eq"
    case TypeOrEnum(ident) => (e.Type? || e.Enum?) && e.typeIdent == ident
    case Positioned(ref) => RefHits(ref, e)
  }

  /** The maps that a search goes through, one after the other. */
  function Stages(m: Maps, q: Query): (stages: seq<Mapped>)
    ensures stages != []
  {
    match q
    case SchemaAt(_) => [m.schemas]
    case SchemaNamed(_) => [m.schemas]
    case FunctionAt(_) => [m.externs]
    case FunctionNamed(_, _) => [m.externs]
    case HashWith(_, _) => [m.hashes]
    case TypeOrEnum(_) => [m.decls.types, m.decls.enums]
    case Positioned(FullPath(_)) => [m.decls.types, m.decls.enums, m.externs, m.schemas, m.triggers]
    case Positioned(Named(_)) => [m.decls.sqls]
  }

  ghost function HitsIn(mapped: Mapped, q: Query): set<nat> {
    set e | e in mapped && Hits(q, e) :: mapped[e]
  }

  /** The nodes that a search may end at: the hits in the first map that has one. */
  ghost function FirstHits(stages: seq<Mapped>, q: Query): set<nat> {
    if stages == [] then {}
    else if HitsIn(stages[0], q) != {} then HitsIn(stages[0], q)
    else FirstHits(stages[1..], q)
  }

  ghost function Found(m: Maps, q: Query): set<nat> {
    FirstHits(Stages(m, q), q)
  }

  /** All hits of a search that goes through one map. */
  ghost function AllHits(m: Maps, q: Query): set<nat> {
    HitsIn(Stages(m, q)[0], q)
  }

  // ----- type slots

  /** What the first phase asks of a slot. */
  ghost predicate Resolvable(m: TypeMaps, s: Slot) {
    s.origin.External? || Resolves(m, s.ident)
  }

  /** What the second phase asks of a slot. */
  ghost predicate Available(m: TypeMaps, builtins: map<string, nat>, s: Slot) {
    if s.origin.External? then s.ident in builtins else Resolves(m, s.ident)
  }

  /** `n` is a node that the slot may be connected to. */
  ghost predicate SlotSource(m: TypeMaps, builtins: map<string, nat>, s: Slot, n: nat) {
    if s.origin.External? then s.ident in builtins && builtins[s.ident] == n else IsTarget(m, s.ident, n)
  }

  lemma SlotSourceUnique(m: TypeMaps, builtins: map<string, nat>, s: Slot, n1: nat, n2: nat)
    requires Unambiguous(m) && SlotSource(m, builtins, s, n1) && SlotSource(m, builtins, s, n2)
    ensures n1 == n2
  {
    if s.origin.ThisExtension? {
      TargetUnique(m, s.ident, n1, n2);
    }
  }

  /** The order in which the second phase visits the slots of an entity: an aggregate's moving
      state type comes before its state type there. */
  function ConnectOrder(e: Entity): seq<Slot> {
    if e.Aggregate? then
      SlotsOf(e.aggArgs, ByArg)
      + SlotsOf(if e.directArgs.Some? then e.directArgs.value else [], ByArg)
      + (if e.mstype.Some? then SlotOf(e.mstype.value, ByArg) else [])
      + SlotOf(e.stype, ByArg)
    else
      Slots(e)
  }

  /** Both phases visit the same slots. */
  lemma PhasesAgree(e: Entity)
    ensures forall s :: s in Slots(e) <==> s in ConnectOrder(e)
  {
    if e.Aggregate? {
      var front := SlotsOf(e.aggArgs, ByArg) + SlotsOf(if e.directArgs.Some? then e.directArgs.value else [], ByArg);
      var moving := if e.mstype.Some? then SlotOf(e.mstype.value, ByArg) else [];
      assert Slots(e) == front + SlotOf(e.stype, ByArg) + moving;
      assert ConnectOrder(e) == front + moving + SlotOf(e.stype, ByArg);
    }
  }

  // ----- what each entity wants

  /** One connection: an edge from one hit, from every hit, or to every hit, and whether it is
      an error to have none; or the edge of a type slot. */
  datatype Want =
    | Single(query: Query, required: bool)
    | Every(query: Query, required: bool)
    | EveryOut(query: Query)
    | Typed(slot: Slot)

  function RefWants(refs: seq<PositioningRef>, required: bool): seq<Want> {
    seq(|refs|, i requires 0 <= i < |refs| => Single(Positioned(refs[i]), required))
  }

  predicate NamesSchema(attrs: seq<ExternAttr>) {
    exists i :: 0 <= i < |attrs| && attrs[i].InSchema?
  }

  /** An attribute that follows others. Once a declared schema was found, a further one need not
      be. */
  function AttrWant(rest: seq<ExternAttr>, last: ExternAttr): seq<Want> {
    match last
    case Requiring(refs) => RefWants(refs, true)
    case SupportedBy(ref) => [Single(Positioned(ref), false)]
    case InSchema(schema) => [Every(SchemaNamed(schema), !NamesSchema(rest))]
  }

  /** The attributes of a function. */
  function AttrWants(attrs: seq<ExternAttr>): seq<Want> {
    if attrs == [] then [] else
      var rest, last := attrs[..|attrs| - 1], attrs[|attrs| - 1];
      AttrWants(rest) + AttrWant(rest, last)
  }

  function FunctionWants(paths: seq<string>): seq<Want> {
    seq(|paths|, i requires 0 <= i < |paths| => Single(FunctionAt(paths[i]), true))
  }

  function TypedWants(slots: seq<Slot>): seq<Want> {
    seq(|slots|, i requires 0 <= i < |slots| => Typed(slots[i]))
  }

  /** `resolve_function_path`. */
  function ResolveFunctionPath(modulePath: string, path: string): string {
    if Contains(path, "::") then path else modulePath + "::" + path
  }

  /** The functions that a type names. */
  function TypeFunctions(e: Entity): seq<string>
    requires e.Type?
  {
    [ResolveFunctionPath(e.modulePath, e.inFn), ResolveFunctionPath(e.modulePath, e.outFn)]
    + (if e.receiveFn.Some? then [ResolveFunctionPath(e.modulePath, e.receiveFn.value)] else [])
    + (if e.sendFn.Some? then [ResolveFunctionPath(e.modulePath, e.sendFn.value)] else [])
  }

  function AggregateFunctions(e: Entity): seq<string>
    requires e.Aggregate?
  {
    seq(|e.functions|, i requires 0 <= i < |e.functions| => e.modulePath + "::" + e.functions[i])
  }

  function OperatorNames(lowerName: string): seq<string> {
    [lowerName + "_cmp", lowerName + "_lt", lowerName + "_le", lowerName + "_eq", lowerName + "_gt", lowerName + "_ge"]
  }

  /** `make_schema_connection`. */
  function SchemaWant(e: Entity): seq<Want>
    requires !e.ExtensionRoot? && !e.BuiltinType?
  {
    [Single(SchemaAt(e.modulePath), false)]
  }

  /** Everything that the second phase connects an entity to, in the order of the code. */
  function Wants(e: Entity): seq<Want> {
    if e.CustomSql? then SchemaWant(e) + RefWants(e.needs, true)
    else if e.Enum? || e.Trigger? then SchemaWant(e)
    else if e.Type? then SchemaWant(e) + FunctionWants(TypeFunctions(e))
    else if e.Function? then
      AttrWants(e.attrs) + (if NamesSchema(e.attrs) then [] else SchemaWant(e))
      + [EveryOut(HashWith(e.modulePath, e.name))] + TypedWants(ConnectOrder(e))
    else if e.Ord? then
      SchemaWant(e) + [Single(TypeOrEnum(e.typeIdent), false), Every(FunctionNamed(e.modulePath, OperatorNames(e.lowerName)), false)]
    else if e.Hash? then
      SchemaWant(e)
      + [Single(TypeOrEnum(e.typeIdent), false), Single(FunctionNamed(e.modulePath, [e.lowerName + "_hash"]), false)]
    else if e.Aggregate? then
      SchemaWant(e) + TypedWants(ConnectOrder(e)) + FunctionWants(AggregateFunctions(e))
    else []
  }

  lemma {:induction false} AttrWantsUntyped(attrs: seq<ExternAttr>)
    ensures forall w :: w in AttrWants(attrs) ==> w.Single? || w.Every?
  {
    if attrs != [] {
      AttrWantsUntyped(attrs[..|attrs| - 1]);
    }
  }

  lemma TypedWantsMember(slots: seq<Slot>, s: Slot)
    ensures Typed(s) in TypedWants(slots) <==> s in slots
  {
    if s in slots {
      var i :| 0 <= i < |slots| && slots[i] == s;
      assert TypedWants(slots)[i] == Typed(s);
    }
  }

  /** The type slots among the wants are those of the entity. */
  lemma TypedIsSlot(e: Entity, s: Slot)
    ensures Typed(s) in Wants(e) <==> s in Slots(e)
  {
    if e.Function? || e.Aggregate? {
      TypedWantsMember(ConnectOrder(e), s);
      PhasesAgree(e);
      TypedAmong(e, s);
    }
  }

  lemma TypedAmong(e: Entity, s: Slot)
    requires e.Function? || e.Aggregate?
    ensures Typed(s) in Wants(e) <==> Typed(s) in TypedWants(ConnectOrder(e))
  {
    if e.Function? {
      AttrWantsUntyped(e.attrs);
    }
  }

  // ----- what a want adds

  ghost predicate Satisfied(m: Maps, builtins: map<string, nat>, w: Want) {
    match w
    case Single(q, required) => required ==> Found(m, q) != {}
    case Every(q, required) => required ==> AllHits(m, q) != {}
    case EveryOut(_) => true
    case Typed(s) => Available(m.decls, builtins, s)
  }

  /** `ns` lists the members of a set, each once. */
  ghost predicate Lists(ns: seq<nat>, s: set<nat>) {
    Distinct(ns) && Elements(ns) == s
  }

  function Into(ns: seq<nat>, index: nat): seq<Edge> {
    seq(|ns|, i requires 0 <= i < |ns| => Edge(ns[i], index, By))
  }

  function OutOf(index: nat, ns: seq<nat>): seq<Edge> {
    seq(|ns|, i requires 0 <= i < |ns| => Edge(index, ns[i], By))
  }

  /** `es` are edges that a satisfied want adds at `index`, with multiplicity. */
  ghost predicate Fulfils(m: Maps, builtins: map<string, nat>, index: nat, w: Want, es: seq<Edge>) {
    match w
    case Single(q, _) =>
      if Found(m, q) == {} then es == [] else |es| == 1 && es[0].source in Found(m, q) && es[0] == Edge(es[0].source, index, By)
    case Every(q, _) => exists ns :: Lists(ns, AllHits(m, q)) && es == Into(ns, index)
    case EveryOut(q) => exists ns :: Lists(ns, AllHits(m, q)) && es == OutOf(index, ns)
    case Typed(s) =>
      |es| == 1 && SlotSource(m.decls, builtins, s, es[0].source) && es[0] == Edge(es[0].source, index, s.weight)
  }

  /** `x` is an edge that the want may add. */
  ghost predicate Offers(m: Maps, builtins: map<string, nat>, index: nat, w: Want, x: Edge) {
    match w
    case Single(q, _) => x.source in Found(m, q) && x == Edge(x.source, index, By)
    case Every(q, _) => x.source in AllHits(m, q) && x == Edge(x.source, index, By)
    case EveryOut(q) => x.target in AllHits(m, q) && x == Edge(index, x.target, By)
    case Typed(s) => SlotSource(m.decls, builtins, s, x.source) && x == Edge(x.source, index, s.weight)
  }

  lemma FulfilsOffers(m: Maps, builtins: map<string, nat>, index: nat, w: Want, es: seq<Edge>, x: Edge)
    requires Fulfils(m, builtins, index, w, es)
    ensures x in es ==> Offers(m, builtins, index, w, x)
    ensures (w.Every? || w.EveryOut?) && Offers(m, builtins, index, w, x) ==> x in es
  {
    match w {
      case Single(_, _) =>
      case Typed(_) =>
      case Every(q, _) =>
        var ns :| Lists(ns, AllHits(m, q)) && es == Into(ns, index);
        IntoMember(ns, index, x);
      case EveryOut(q) =>
        var ns :| Lists(ns, AllHits(m, q)) && es == OutOf(index, ns);
        OutOfMember(ns, index, x);
    }
  }

  lemma IntoMember(ns: seq<nat>, index: nat, x: Edge)
    ensures x in Into(ns, index) <==> x.source in ns && x == Edge(x.source, index, By)
  {
    if x.source in ns && x == Edge(x.source, index, By) {
      var i :| 0 <= i < |ns| && ns[i] == x.source;
      assert Into(ns, index)[i] == x;
    }
  }

  lemma OutOfMember(ns: seq<nat>, index: nat, x: Edge)
    ensures x in OutOf(index, ns) <==> x.target in ns && x == Edge(index, x.target, By)
  {
    if x.target in ns && x == Edge(index, x.target, By) {
      var i :| 0 <= i < |ns| && ns[i] == x.target;
      assert OutOf(index, ns)[i] == x;
    }
  }

  // ----- jobs

  datatype Job = Job(index: nat, want: Want)

  function JobsAt(index: nat, wants: seq<Want>): seq<Job> {
    seq(|wants|, i requires 0 <= i < |wants| => Job(index, wants[i]))
  }

  function ItemJobs(it: (Entity, nat)): seq<Job> {
    JobsAt(it.1, Wants(it.0))
  }

  /** The connections of a list of entities at their nodes. */
  function Jobs(items: seq<(Entity, nat)>): seq<Job> {
    if items == [] then [] else Jobs(items[..|items| - 1]) + ItemJobs(items[|items| - 1])
  }

  function Flat(parts: seq<seq<Edge>>): seq<Edge> {
    if parts == [] then [] else Flat(parts[..|parts| - 1]) + parts[|parts| - 1]
  }

  /** `parts` are the edges that the jobs add, one list per job. */
  ghost predicate Done(m: Maps, builtins: map<string, nat>, jobs: seq<Job>, parts: seq<seq<Edge>>) {
    |parts| == |jobs| && forall i :: 0 <= i < |jobs| ==> Fulfils(m, builtins, jobs[i].index, jobs[i].want, parts[i])
  }

  lemma {:induction false} FlatConcat(p: seq<seq<Edge>>, q: seq<seq<Edge>>)
    ensures Flat(p + q) == Flat(p) + Flat(q)
  {
    if q == [] {
      assert p + q == p && Flat(p) + Flat(q) == Flat(p);
    } else {
      var rest, last := q[..|q| - 1], q[|q| - 1];
      FlatConcat(p, rest);
      assert (p + q)[..|p + q| - 1] == p + rest;
      assert Flat(p) + (Flat(rest) + last) == Flat(p) + Flat(rest) + last;
    }
  }

  lemma {:induction false} FlatMember(parts: seq<seq<Edge>>, x: Edge)
    ensures x in Flat(parts) <==> exists i :: 0 <= i < |parts| && x in parts[i]
  {
    if parts != [] {
      var rest := parts[..|parts| - 1];
      FlatMember(rest, x);
      assert forall i :: 0 <= i < |rest| ==> rest[i] == parts[i];
    }
  }

  lemma JobsStep(items: seq<(Entity, nat)>, it: (Entity, nat))
    ensures Jobs(items + [it]) == Jobs(items) + ItemJobs(it)
  {
    assert (items + [it])[..|items|] == items;
  }

  lemma {:induction false} JobsConcat(p: seq<(Entity, nat)>, q: seq<(Entity, nat)>)
    ensures Jobs(p + q) == Jobs(p) + Jobs(q)
  {
    SplitLast(p, q);
    if q != [] {
      var rest, last := q[..|q| - 1], q[|q| - 1];
      JobsConcat(p, rest);
      JobsStep(p + rest, last);
      JobsStep(rest, last);
      Associate(Jobs(p), Jobs(rest), ItemJobs(last));
    }
  }

  /** `es` are the edges that the jobs add, one after the other. */
  ghost predicate Carried(m: Maps, builtins: map<string, nat>, jobs: seq<Job>, es: seq<Edge>) {
    exists parts :: Done(m, builtins, jobs, parts) && es == Flat(parts)
  }

  lemma CarriedNone(m: Maps, builtins: map<string, nat>)
    ensures Carried(m, builtins, [], [])
  {
    assert Done(m, builtins, [], []) && Flat([]) == [];
  }

  lemma CarriedConcat(m: Maps, builtins: map<string, nat>, jobs: seq<Job>, es: seq<Edge>, jobs': seq<Job>, es': seq<Edge>)
    requires Carried(m, builtins, jobs, es) && Carried(m, builtins, jobs', es')
    ensures Carried(m, builtins, jobs + jobs', es + es')
  {
    var parts :| Done(m, builtins, jobs, parts) && es == Flat(parts);
    var parts' :| Done(m, builtins, jobs', parts') && es' == Flat(parts');
    FlatConcat(parts, parts');
    DoneConcat(m, builtins, jobs, parts, jobs', parts');
    CarriedBy(m, builtins, jobs + jobs', parts + parts');
  }

  lemma CarriedBy(m: Maps, builtins: map<string, nat>, jobs: seq<Job>, parts: seq<seq<Edge>>)
    requires Done(m, builtins, jobs, parts)
    ensures Carried(m, builtins, jobs, Flat(parts))
  {
  }

  lemma DoneConcat(m: Maps, builtins: map<string, nat>, p: seq<Job>, ps: seq<seq<Edge>>, q: seq<Job>, qs: seq<seq<Edge>>)
    requires Done(m, builtins, p, ps) && Done(m, builtins, q, qs)
    ensures Done(m, builtins, p + q, ps + qs)
  {
    var jobs, parts := p + q, ps + qs;
    forall i | 0 <= i < |jobs| ensures Fulfils(m, builtins, jobs[i].index, jobs[i].want, parts[i]) {
      assert i < |p| ==> jobs[i] == p[i] && parts[i] == ps[i];
      assert i >= |p| ==> jobs[i] == q[i - |p|] && parts[i] == qs[i - |p|];
    }
  }

  lemma DoneSplit(m: Maps, builtins: map<string, nat>, p: seq<Job>, q: seq<Job>, parts: seq<seq<Edge>>)
    requires Done(m, builtins, p + q, parts)
    ensures |parts| == |p| + |q| && Done(m, builtins, p, parts[..|p|]) && Done(m, builtins, q, parts[|p|..])
  {
    var jobs := p + q;
    forall i | 0 <= i < |p| ensures Fulfils(m, builtins, p[i].index, p[i].want, parts[..|p|][i]) {
      assert jobs[i] == p[i];
    }
    forall i | 0 <= i < |q| ensures Fulfils(m, builtins, q[i].index, q[i].want, parts[|p|..][i]) {
      assert jobs[|p| + i] == q[i];
    }
  }

  lemma CarriedOne(m: Maps, builtins: map<string, nat>, job: Job, es: seq<Edge>)
    requires Fulfils(m, builtins, job.index, job.want, es)
    ensures Carried(m, builtins, [job], es)
  {
    var parts := [es];
    assert parts[..0] == [] && Flat(parts) == [] + es;
    assert Done(m, builtins, [job], parts);
  }

  ghost predicate IsJob(items: seq<(Entity, nat)>, j: Job) {
    exists e :: (e, j.index) in items && j.want in Wants(e)
  }

  lemma IsJobStep(items: seq<(Entity, nat)>, it: (Entity, nat), j: Job)
    ensures IsJob(items + [it], j) <==> IsJob(items, j) || (j.index == it.1 && j.want in Wants(it.0))
  {
    if IsJob(items, j) {
      var e :| (e, j.index) in items && j.want in Wants(e);
      assert (e, j.index) in items + [it];
    }
    if j.index == it.1 && j.want in Wants(it.0) {
      assert (it.0, j.index) in items + [it];
    }
  }

  lemma {:induction false} JobsMember(items: seq<(Entity, nat)>, j: Job)
    ensures j in Jobs(items) <==> IsJob(items, j)
  {
    if items != [] {
      var rest, last := items[..|items| - 1], items[|items| - 1];
      JobsMember(rest, j);
      SplitLast([], items);
      JobsStep(rest, last);
      JobsAtMember(last.1, Wants(last.0), j);
      IsJobStep(rest, last, j);
    }
  }

  lemma JobsAtMember(index: nat, wants: seq<Want>, j: Job)
    ensures j in JobsAt(index, wants) <==> j.index == index && j.want in wants
  {
    if j.index == index && j.want in wants {
      var i :| 0 <= i < |wants| && wants[i] == j.want;
      assert JobsAt(index, wants)[i] == j;
    }
  }

  // ----- what is in the graph when the jobs are done

  ghost predicate Offered(m: Maps, builtins: map<string, nat>, items: seq<(Entity, nat)>, x: Edge) {
    exists e, index, w :: (e, index) in items && w in Wants(e) && Offers(m, builtins, index, w, x)
  }

  /** All edges of some fulfilment of the want are there. */
  ghost predicate Met(m: Maps, builtins: map<string, nat>, edges: seq<Edge>, index: nat, w: Want) {
    exists es :: Fulfils(m, builtins, index, w, es) && forall x :: x in es ==> x in edges
  }

  lemma CarriedOffered(m: Maps, builtins: map<string, nat>, items: seq<(Entity, nat)>, es: seq<Edge>, x: Edge)
    requires Carried(m, builtins, Jobs(items), es) && x in es
    ensures Offered(m, builtins, items, x)
  {
    var parts :| Done(m, builtins, Jobs(items), parts) && es == Flat(parts);
    FlatMember(parts, x);
    var i :| 0 <= i < |parts| && x in parts[i];
    var j := Jobs(items)[i];
    FulfilsOffers(m, builtins, j.index, j.want, parts[i], x);
    assert j in Jobs(items);
    JobsMember(items, j);
    var e :| (e, j.index) in items && j.want in Wants(e);
  }

  lemma CarriedMet(m: Maps, builtins: map<string, nat>, items: seq<(Entity, nat)>, es: seq<Edge>, edges: seq<Edge>,
                   e: Entity, index: nat, w: Want)
    requires Carried(m, builtins, Jobs(items), es) && (forall x :: x in es ==> x in edges)
    requires (e, index) in items && w in Wants(e)
    ensures Met(m, builtins, edges, index, w)
  {
    var parts :| Done(m, builtins, Jobs(items), parts) && es == Flat(parts);
    JobsMember(items, Job(index, w));
    var i :| 0 <= i < |Jobs(items)| && Jobs(items)[i] == Job(index, w);
    forall x | x in parts[i] ensures x in edges {
      FlatMember(parts, x);
    }
  }
}

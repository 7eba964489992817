/** Which extensions the build accepts, in terms of their entities. */
module AcceptedInputs {
  import opened Connections
  import opened Entities
  import opened BuiltGraph

  /** An entity of the extension that the query hits. */
  ghost predicate IsHit(input: Input, q: Query, t: Entity) {
    t in input.Of(t) && Hits(q, t)
  }

  ghost predicate Present(input: Input, q: Query) {
    exists t :: IsHit(input, q, t)
  }

  lemma {:induction false} FirstHitsIff(stages: seq<Mapped>, q: Query)
    ensures FirstHits(stages, q) != {} <==> exists k :: 0 <= k < |stages| && HitsIn(stages[k], q) != {}
  {
    if stages != [] {
      FirstHitsIff(stages[1..], q);
      if k :| 0 <= k < |stages| && HitsIn(stages[k], q) != {} {
        assert k > 0 ==> HitsIn(stages[1..][k - 1], q) != {};
      }
    }
  }

  lemma HitsInIff(items: seq<Entity>, q: Query)
    ensures HitsIn(KeyMap(items), q) != {} <==> exists t :: t in items && Hits(q, t)
  {
    if t :| t in items && Hits(q, t) {
      assert KeyMap(items)[t] in HitsIn(KeyMap(items), q);
    }
    if n :| n in HitsIn(KeyMap(items), q) {
      var t :| t in KeyMap(items) && Hits(q, t);
    }
  }

  /** The lists that a search goes through. */
  function SearchedLists(input: Input, q: Query): seq<seq<Entity>> {
    match q
    case SchemaAt(_) => [input.schemas]
    case SchemaNamed(_) => [input.schemas]
    case FunctionAt(_) => [input.externs]
    case FunctionNamed(_, _) => [input.externs]
    case HashWith(_, _) => [input.hashes]
    case TypeOrEnum(_) => [input.types, input.enums]
    case Positioned(FullPath(_)) => [input.types, input.enums, input.externs, input.schemas, input.triggers]
    case Positioned(Named(_)) => [input.sqls]
  }

  lemma StagesAre(input: Input, q: Query)
    ensures |Stages(Keys(input), q)| == |SearchedLists(input, q)|
    ensures forall k :: 0 <= k < |SearchedLists(input, q)| ==> Stages(Keys(input), q)[k] == KeyMap(SearchedLists(input, q)[k])
  {
  }

  lemma InSearchedLists(input: Input, q: Query, t: Entity)
    requires input.Valid() && Hits(q, t)
    ensures t in input.Of(t) <==> exists k :: 0 <= k < |SearchedLists(input, q)| && t in SearchedLists(input, q)[k]
  {
    var lists := SearchedLists(input, q);
    if t in input.Of(t) {
      if t.Schema? && q.Positioned? {
        assert lists[3] == input.Of(t);
      } else if t.Trigger? {
        assert lists[4] == input.Of(t);
      } else if t.Function? && q.Positioned? {
        assert lists[2] == input.Of(t);
      } else if t.Enum? {
        assert lists[1] == input.Of(t);
      } else {
        assert lists[0] == input.Of(t);
      }
    }
  }

  /** A search can succeed if and only if the extension has what it looks for. */
  lemma FoundIff(input: Input, q: Query)
    requires input.Valid()
    ensures Found(Keys(input), q) != {} <==> Present(input, q)
  {
    var stages, lists := Stages(Keys(input), q), SearchedLists(input, q);
    StagesAre(input, q);
    FirstHitsIff(stages, q);
    if k :| 0 <= k < |stages| && HitsIn(stages[k], q) != {} {
      HitsInIff(lists[k], q);
      var t :| t in lists[k] && Hits(q, t);
      InSearchedLists(input, q, t);
      assert IsHit(input, q, t);
    }
    if t :| IsHit(input, q, t) {
      InSearchedLists(input, q, t);
      var k :| 0 <= k < |lists| && t in lists[k];
      HitsInIff(lists[k], q);
    }
  }

  // ----- what the kinds of entities need

  lemma SingleFindable(input: Input, q: Query, required: bool)
    requires input.Valid()
    ensures Findable(Keys(input), Single(q, required)) <==> (required ==> Present(input, q))
  {
    FoundIff(input, q);
  }

  ghost predicate HasFunction(input: Input, path: string) {
    exists f :: f in input.externs && f.Function? && f.fullPath == path
  }

  lemma FunctionPresent(input: Input, path: string)
    requires input.Valid()
    ensures Present(input, FunctionAt(path)) <==> HasFunction(input, path)
  {
    if f :| f in input.externs && f.Function? && f.fullPath == path {
      assert IsHit(input, FunctionAt(path), f);
    }
  }

  lemma PathsFindable(input: Input, paths: seq<string>)
    requires input.Valid()
    ensures (forall w :: w in FunctionWants(paths) ==> Findable(Keys(input), w)) <==> forall p :: p in paths ==> HasFunction(input, p)
  {
    forall i | 0 <= i < |paths| ensures Findable(Keys(input), FunctionWants(paths)[i]) <==> HasFunction(input, paths[i]) {
      SingleFindable(input, FunctionAt(paths[i]), true);
      FunctionPresent(input, paths[i]);
    }
    if forall w :: w in FunctionWants(paths) ==> Findable(Keys(input), w) {
      forall p | p in paths ensures HasFunction(input, p) {
        var i :| 0 <= i < |paths| && paths[i] == p;
        assert FunctionWants(paths)[i] in FunctionWants(paths);
      }
    }
  }

  /** A type can be connected if and only if its functions are there. */
  lemma TypeLinkedIff(input: Input, e: Entity)
    requires input.Valid() && e.Type?
    ensures AllFindable(Keys(input), e) <==> forall path :: path in TypeFunctions(e) ==> HasFunction(input, path)
  {
    PathsFindable(input, TypeFunctions(e));
    assert Wants(e) == SchemaWant(e) + FunctionWants(TypeFunctions(e));
  }

  /** An aggregate likewise. */
  lemma AggregateLinkedIff(input: Input, e: Entity)
    requires input.Valid() && e.Aggregate?
    ensures AllFindable(Keys(input), e) <==> forall path :: path in AggregateFunctions(e) ==> HasFunction(input, path)
  {
    PathsFindable(input, AggregateFunctions(e));
    assert Wants(e) == SchemaWant(e) + TypedWants(ConnectOrder(e)) + FunctionWants(AggregateFunctions(e));
  }

  lemma RefsFindable(input: Input, refs: seq<PositioningRef>)
    requires input.Valid()
    ensures (forall w :: w in RefWants(refs, true) ==> Findable(Keys(input), w)) <==> forall r :: r in refs ==> Present(input, Positioned(r))
  {
    forall i | 0 <= i < |refs| ensures Findable(Keys(input), RefWants(refs, true)[i]) <==> Present(input, Positioned(refs[i])) {
      SingleFindable(input, Positioned(refs[i]), true);
    }
    if forall w :: w in RefWants(refs, true) ==> Findable(Keys(input), w) {
      forall r | r in refs ensures Present(input, Positioned(r)) {
        var i :| 0 <= i < |refs| && refs[i] == r;
        assert RefWants(refs, true)[i] in RefWants(refs, true);
      }
    }
  }

  /** A block can be connected if and only if everything that it requires is there. */
  lemma BlockLinkedIff(input: Input, e: Entity)
    requires input.Valid() && e.CustomSql?
    ensures AllFindable(Keys(input), e) <==> forall r :: r in e.needs ==> Present(input, Positioned(r))
  {
    RefsFindable(input, e.needs);
    assert Wants(e) == SchemaWant(e) + RefWants(e.needs, true);
  }

  /** Enums, ords, hashes, triggers and schemas can always be connected. */
  lemma AlwaysLinked(input: Input, e: Entity)
    requires e.Enum? || e.Ord? || e.Hash? || e.Trigger? || e.Schema?
    ensures AllFindable(Keys(input), e)
  {
  }

  // ----- functions

  /** Every `requires` of the attributes is there, and so is the first schema that they name. */
  ghost predicate AttrsPresent(input: Input, attrs: seq<ExternAttr>) {
    && (forall i, r :: 0 <= i < |attrs| && attrs[i].Requiring? && r in attrs[i].refs ==> Present(input, Positioned(r)))
    && (forall i :: 0 <= i < |attrs| && attrs[i].InSchema? && !NamesSchema(attrs[..i]) ==> Present(input, SchemaNamed(attrs[i].schema)))
  }

  ghost predicate AttrPresent(input: Input, rest: seq<ExternAttr>, last: ExternAttr) {
    match last
    case Requiring(refs) => forall r :: r in refs ==> Present(input, Positioned(r))
    case SupportedBy(_) => true
    case InSchema(schema) => NamesSchema(rest) || Present(input, SchemaNamed(schema))
  }

  lemma AttrFindable(input: Input, rest: seq<ExternAttr>, last: ExternAttr)
    requires input.Valid()
    ensures (forall w :: w in AttrWant(rest, last) ==> Findable(Keys(input), w)) <==> AttrPresent(input, rest, last)
  {
    match last {
      case Requiring(refs) => RefsFindable(input, refs);
      case SupportedBy(ref) =>
      case InSchema(schema) => SchemaFindable(input, schema, !NamesSchema(rest));
    }
  }

  lemma SchemaFindable(input: Input, schema: string, required: bool)
    requires input.Valid()
    ensures Findable(Keys(input), Every(SchemaNamed(schema), required)) <==> (required ==> Present(input, SchemaNamed(schema)))
  {
    FoundIff(input, SchemaNamed(schema));
    var hits := HitsIn(KeyMap(input.schemas), SchemaNamed(schema));
    assert AllHits(Keys(input), SchemaNamed(schema)) == hits;
    FirstHitsIff(Stages(Keys(input), SchemaNamed(schema)), SchemaNamed(schema));
  }

  lemma AttrsStep(input: Input, attrs: seq<ExternAttr>)
    requires attrs != []
    ensures var n := |attrs| - 1;
      AttrsPresent(input, attrs) <==> AttrsPresent(input, attrs[..n]) && AttrPresent(input, attrs[..n], attrs[n])
  {
    var n := |attrs| - 1;
    var rest := attrs[..n];
    assert forall i :: 0 <= i < n ==> rest[i] == attrs[i] && rest[..i] == attrs[..i];
  }

  lemma {:induction false} AttrsFindable(input: Input, attrs: seq<ExternAttr>)
    requires input.Valid()
    ensures (forall w :: w in AttrWants(attrs) ==> Findable(Keys(input), w)) <==> AttrsPresent(input, attrs)
  {
    if attrs != [] {
      var n := |attrs| - 1;
      AttrsFindable(input, attrs[..n]);
      AttrFindable(input, attrs[..n], attrs[n]);
      AttrsStep(input, attrs);
      assert AttrWants(attrs) == AttrWants(attrs[..n]) + AttrWant(attrs[..n], attrs[n]);
    }
  }

  lemma RestFindable(input: Input, e: Entity, w: Want)
    requires e.Function? && w in Wants(e) && w !in AttrWants(e.attrs)
    ensures Findable(Keys(input), w)
  {
  }

  /** A function can be connected if and only if everything that its attributes require is there. */
  lemma FunctionLinkedIff(input: Input, e: Entity)
    requires input.Valid() && e.Function?
    ensures AllFindable(Keys(input), e) <==> AttrsPresent(input, e.attrs)
  {
    AttrsFindable(input, e.attrs);
    forall w | w in Wants(e) && w !in AttrWants(e.attrs) ensures Findable(Keys(input), w) {
      RestFindable(input, e, w);
    }
    assert forall w :: w in AttrWants(e.attrs) ==> w in Wants(e);
  }

  // ----- all together

  /** Everything that types, aggregates, blocks and functions name is there. */
  ghost predicate NamesPresent(input: Input) {
    && (forall e, path :: e in input.types && e.Type? && path in TypeFunctions(e) ==> HasFunction(input, path))
    && (forall e, path :: e in input.aggregates && e.Aggregate? && path in AggregateFunctions(e) ==> HasFunction(input, path))
    && (forall e, r :: e in input.sqls && e.CustomSql? && r in e.needs ==> Present(input, Positioned(r)))
    && (forall e :: e in input.externs && e.Function? ==> AttrsPresent(input, e.attrs))
  }

  lemma LinkedIff(input: Input, e: Entity)
    requires input.Valid() && e in input.Of(e)
    ensures AllFindable(Keys(input), e) <==>
      && (e.Type? ==> forall path :: path in TypeFunctions(e) ==> HasFunction(input, path))
      && (e.Aggregate? ==> forall path :: path in AggregateFunctions(e) ==> HasFunction(input, path))
      && (e.CustomSql? ==> forall r :: r in e.needs ==> Present(input, Positioned(r)))
      && (e.Function? ==> AttrsPresent(input, e.attrs))
  {
    if e.Type? {
      TypeLinkedIff(input, e);
    } else if e.Aggregate? {
      AggregateLinkedIff(input, e);
    } else if e.CustomSql? {
      BlockLinkedIff(input, e);
    } else if e.Function? {
      FunctionLinkedIff(input, e);
    } else {
      AlwaysLinked(input, e);
    }
  }

  /** The second phase can fail only where a name is missing. */
  lemma AllLinkedIff(input: Input)
    requires input.Valid()
    ensures AllLinked(input) <==> NamesPresent(input)
  {
    forall e | e in input.Of(e) ensures AllFindable(Keys(input), e) <==>
      && (e.Type? ==> forall path :: path in TypeFunctions(e) ==> HasFunction(input, path))
      && (e.Aggregate? ==> forall path :: path in AggregateFunctions(e) ==> HasFunction(input, path))
      && (e.CustomSql? ==> forall r :: r in e.needs ==> Present(input, Positioned(r)))
      && (e.Function? ==> AttrsPresent(input, e.attrs))
    {
      LinkedIff(input, e);
    }
  }

  /** A type without its functions is not accepted. */
  lemma LoneTypeRejected(e: Entity)
    requires e.Type?
    ensures !Accepted(Input(ExtensionRoot(0), [], [], [], [e], [], [], [], [], []))
  {
    var input := Input(ExtensionRoot(0), [], [], [], [e], [], [], [], [], []);
    TypeLinkedIff(input, e);
    assert e in input.Of(e) && TypeFunctions(e)[0] in TypeFunctions(e);
  }
}

/** What the build connects, said in the words of the entities themselves: their names, module paths,
    attributes and types. Nothing here goes by the searches and slots that the build is made of. */
module PlainEntities {
  import opened Entities
  import opened Connections
  import opened Text
  import opened Wrappers

  // ----- paths

  ghost predicate EndsIn(s: string, suffix: string) {
    exists front :: s == front + suffix
  }

  lemma EndsInIs(s: string, suffix: string)
    ensures EndsWith(s, suffix) <==> EndsIn(s, suffix)
  {
    if EndsWith(s, suffix) {
      assert s == s[..|s| - |suffix|] + suffix;
    }
  }

  /** Path segments: at least one, and none with a colon. */
  ghost predicate Segments(parts: seq<string>) {
    parts != [] && forall i :: 0 <= i < |parts| ==> ':' !in parts[i]
  }

  lemma {:induction false} SplitJoined(parts: seq<string>)
    requires Segments(parts)
    ensures Split(Join(parts), "::") == parts
  {
    assert ':' !in parts[0];
    if |parts| == 1 {
      SplitAbsent(parts[0], "::");
    } else {
      SplitJoined(parts[1..]);
      SplitAfter(parts[0], "::", Join(parts[1..]));
    }
  }

  /** A path of segments ends in the last one, behind the path of the others. */
  lemma PathParts(parts: seq<string>)
    requires Segments(parts)
    ensures Last(Join(parts)) == parts[|parts| - 1] && Front(Join(parts)) == Join(parts[..|parts| - 1])
  {
    SplitJoined(parts);
  }

  /** A function named from a module: by its own path, or by a name in the module. */
  ghost predicate NamesPath(modulePath: string, name: string, fullPath: string) {
    if exists before, after :: name == before + "::" + after then fullPath == name else fullPath == modulePath + "::" + name
  }

  lemma ResolvedPath(modulePath: string, name: string, fullPath: string)
    ensures fullPath == ResolveFunctionPath(modulePath, name) <==> NamesPath(modulePath, name, fullPath)
  {
    ContainsIs(name, "::");
  }

  // ----- what comes before what

  /** A `requires` or a support function that names `s`: a block by its name; anything else by the last
      segment of a path and a module path that ends in the rest, a schema by its module path alone. */
  ghost predicate RefNames(ref: PositioningRef, s: Entity) {
    match ref
    case Named(name) => s.CustomSql? && s.name == name
    case FullPath(path) =>
      || (s.Type? && s.name == Last(path) && EndsIn(s.modulePath, Front(path)))
      || (s.Enum? && s.name == Last(path) && EndsIn(s.modulePath, Front(path)))
      || (s.Function? && s.unaliased == Last(path) && EndsIn(s.modulePath, Front(path)))
      || (s.Schema? && EndsIn(s.modulePath, path))
      || (s.Trigger? && s.functionName == Last(path) && EndsIn(s.modulePath, Front(path)))
  }

  ghost predicate References(t: Entity, ref: PositioningRef) {
    || (t.CustomSql? && ref in t.needs)
    || (t.Function? && exists refs :: Requiring(refs) in t.attrs && ref in refs)
    || (t.Function? && SupportedBy(ref) in t.attrs)
  }

  /** The schema of the module, unless a function names a schema itself. */
  ghost predicate ModuleSchema(s: Entity, t: Entity) {
    && s.Schema? && !t.ExtensionRoot? && !t.BuiltinType? && !t.Schema? && s.modulePath == t.modulePath
    && (t.Function? ==> forall schema :: InSchema(schema) !in t.attrs)
  }

  ghost predicate DeclaredSchema(s: Entity, t: Entity) {
    s.Schema? && t.Function? && InSchema(s.name) in t.attrs
  }

  /** The input, output, receive or send function of a type. */
  ghost predicate NamesFunction(t: Entity, name: string) {
    t.Type? && (name == t.inFn || name == t.outFn || t.receiveFn == Some(name) || t.sendFn == Some(name))
  }

  ghost predicate TypeFunction(s: Entity, t: Entity) {
    s.Function? && exists name :: NamesFunction(t, name) && NamesPath(t.modulePath, name, s.fullPath)
  }

  ghost predicate AggregateFunction(s: Entity, t: Entity) {
    s.Function? && t.Aggregate? && exists name :: name in t.functions && s.fullPath == t.modulePath + "::" + name
  }

  /** One of the six functions of an ordered type. */
  ghost predicate OperatorFunction(s: Entity, t: Entity) {
    && s.Function? && t.Ord? && s.modulePath == t.modulePath
    && (|| s.name == t.lowerName + "_cmp" || s.name == t.lowerName + "_lt" || s.name == t.lowerName + "_le"
        || s.name == t.lowerName + "_eq" || s.name == t.lowerName + "_gt" || s.name == t.lowerName + "_ge")
  }

  ghost predicate HashFunction(s: Entity, t: Entity) {
    s.Function? && t.Hash? && s.modulePath == t.modulePath && s.name == t.lowerName + "_hash"
  }

  ghost predicate EqualityFunction(s: Entity, t: Entity) {
    s.Function? && t.Hash? && s.modulePath == t.modulePath && s.name == t.lowerName + "_eq"
  }

  /** The type that an operator class is for. */
  ghost predicate OperandType(s: Entity, t: Entity) {
    (s.Type? || s.Enum?) && (t.Ord? || t.Hash?) && s.typeIdent == t.typeIdent
  }

  /** Everything that the second phase connects before `t`, types apart. */
  ghost predicate Feeds(s: Entity, t: Entity) {
    || ModuleSchema(s, t) || DeclaredSchema(s, t) || TypeFunction(s, t) || AggregateFunction(s, t) || OperatorFunction(s, t)
    || HashFunction(s, t) || EqualityFunction(s, t) || OperandType(s, t) || (exists ref :: References(t, ref) && RefNames(ref, s))
  }

  // ----- wants, in these words

  lemma RefHitsIs(ref: PositioningRef, s: Entity)
    ensures Hits(Positioned(ref), s) <==> RefNames(ref, s)
  {
    if ref.FullPath? && !s.ExtensionRoot? && !s.BuiltinType? {
      EndsInIs(s.modulePath, Front(ref.path));
      EndsInIs(s.modulePath, ref.path);
    }
  }

  lemma RefWantsAre(refs: seq<PositioningRef>, required: bool, w: Want)
    ensures w in RefWants(refs, required) <==> w.Single? && w.required == required && w.query.Positioned? && w.query.ref in refs
  {
    if w.Single? && w.required == required && w.query.Positioned? && w.query.ref in refs {
      var i :| 0 <= i < |refs| && refs[i] == w.query.ref;
      assert RefWants(refs, required)[i] == w;
    }
  }

  /** A want that an attribute makes. */
  ghost predicate AttrMakes(attrs: seq<ExternAttr>, w: Want) {
    || (w.Single? && w.required && w.query.Positioned? && exists refs :: Requiring(refs) in attrs && w.query.ref in refs)
    || (w.Single? && !w.required && w.query.Positioned? && SupportedBy(w.query.ref) in attrs)
    || (w.Every? && w.query.SchemaNamed? && InSchema(w.query.name) in attrs)
  }

  lemma AttrMakesStep(attrs: seq<ExternAttr>, last: ExternAttr, w: Want)
    ensures AttrMakes(attrs + [last], w) <==> AttrMakes(attrs, w) || AttrMakes([last], w)
  {
    assert forall a :: a in attrs + [last] <==> a in attrs || a in [last];
  }

  lemma AttrWantMakes(rest: seq<ExternAttr>, last: ExternAttr, w: Want)
    ensures w in AttrWant(rest, last) ==> AttrMakes([last], w)
    ensures AttrMakes([last], w) && w.Single? ==> w in AttrWant(rest, last)
    ensures AttrMakes([last], w) && w.Every? ==> exists required :: Every(w.query, required) in AttrWant(rest, last)
  {
    assert last in [last];
    match last {
      case Requiring(refs) => RefWantsAre(refs, true, w);
      case SupportedBy(ref) =>
      case InSchema(schema) => assert Every(SchemaNamed(schema), !NamesSchema(rest)) in AttrWant(rest, last);
    }
  }

  lemma {:induction false} AttrWantsAre(attrs: seq<ExternAttr>, w: Want)
    ensures w in AttrWants(attrs) ==> AttrMakes(attrs, w)
    ensures AttrMakes(attrs, w) && w.Single? ==> w in AttrWants(attrs)
    ensures AttrMakes(attrs, w) && w.Every? ==> exists required :: Every(w.query, required) in AttrWants(attrs)
  {
    if attrs != [] {
      var rest, last := attrs[..|attrs| - 1], attrs[|attrs| - 1];
      AttrWantsAre(rest, w);
      AttrWantMakes(rest, last, w);
      AttrMakesStep(rest, last, w);
      assert attrs == rest + [last];
    }
  }

  lemma SchemaNamedIs(attrs: seq<ExternAttr>)
    ensures NamesSchema(attrs) <==> exists schema :: InSchema(schema) in attrs
  {
    if i :| 0 <= i < |attrs| && attrs[i].InSchema? {
      assert attrs[i] == InSchema(attrs[i].schema);
    }
  }

  lemma PathWantsAre(paths: seq<string>, w: Want)
    ensures w in FunctionWants(paths) <==> w.Single? && w.required && w.query.FunctionAt? && w.query.fullPath in paths
  {
    if w.Single? && w.required && w.query.FunctionAt? && w.query.fullPath in paths {
      var i :| 0 <= i < |paths| && paths[i] == w.query.fullPath;
      assert FunctionWants(paths)[i] == w;
    }
  }

  lemma TypePathIs(t: Entity, path: string)
    requires t.Type?
    ensures path in TypeFunctions(t) <==> exists name :: NamesFunction(t, name) && NamesPath(t.modulePath, name, path)
  {
    forall name ensures path == ResolveFunctionPath(t.modulePath, name) <==> NamesPath(t.modulePath, name, path) {
      ResolvedPath(t.modulePath, name, path);
    }
    if path in TypeFunctions(t) {
      if path == ResolveFunctionPath(t.modulePath, t.inFn) {
        assert NamesFunction(t, t.inFn);
      } else if path == ResolveFunctionPath(t.modulePath, t.outFn) {
        assert NamesFunction(t, t.outFn);
      } else if t.receiveFn.Some? && path == ResolveFunctionPath(t.modulePath, t.receiveFn.value) {
        assert NamesFunction(t, t.receiveFn.value);
      } else {
        assert NamesFunction(t, t.sendFn.value);
      }
    }
  }

  lemma AggregatePathIs(t: Entity, path: string)
    requires t.Aggregate?
    ensures path in AggregateFunctions(t) <==> exists name :: name in t.functions && path == t.modulePath + "::" + name
  {
    if name :| name in t.functions && path == t.modulePath + "::" + name {
      var i :| 0 <= i < |t.functions| && t.functions[i] == name;
      assert AggregateFunctions(t)[i] == path;
    }
  }

  lemma BlockFeeds(t: Entity, w: Want, s: Entity)
    requires t.CustomSql? && w in Wants(t) && (w.Single? || w.Every?) && Hits(w.query, s)
    ensures Feeds(s, t)
  {
    RefWantsAre(t.needs, true, w);
    if w.query.Positioned? {
      RefHitsIs(w.query.ref, s);
      assert References(t, w.query.ref);
    }
  }

  lemma TypeFeeds(t: Entity, w: Want, s: Entity)
    requires t.Type? && w in Wants(t) && (w.Single? || w.Every?) && Hits(w.query, s)
    ensures Feeds(s, t)
  {
    PathWantsAre(TypeFunctions(t), w);
    if w.query.FunctionAt? {
      TypePathIs(t, w.query.fullPath);
    }
  }

  lemma AggregateFeeds(t: Entity, w: Want, s: Entity)
    requires t.Aggregate? && w in Wants(t) && (w.Single? || w.Every?) && Hits(w.query, s)
    ensures Feeds(s, t)
  {
    PathWantsAre(AggregateFunctions(t), w);
    if w.query.FunctionAt? {
      AggregatePathIs(t, w.query.fullPath);
    }
  }

  lemma InParts(a: seq<Want>, b: seq<Want>, c: seq<Want>, d: seq<Want>, w: Want)
    requires w in a + b + c + d
    ensures w in a || w in b || w in c || w in d
  {
  }

  lemma TypedWantIs(slots: seq<Slot>, w: Want)
    requires w in TypedWants(slots)
    ensures w.Typed?
  {
  }

  lemma FunctionSearches(t: Entity, w: Want)
    requires t.Function? && w in Wants(t) && (w.Single? || w.Every?)
    ensures w in AttrWants(t.attrs) || (!NamesSchema(t.attrs) && w == Single(SchemaAt(t.modulePath), false))
  {
    InParts(AttrWants(t.attrs), if NamesSchema(t.attrs) then [] else SchemaWant(t), [EveryOut(HashWith(t.modulePath, t.name))],
            TypedWants(ConnectOrder(t)), w);
    if w in TypedWants(ConnectOrder(t)) {
      TypedWantIs(ConnectOrder(t), w);
    }
  }

  lemma AttrFeeds(t: Entity, w: Want, s: Entity)
    requires t.Function? && AttrMakes(t.attrs, w) && Hits(w.query, s)
    ensures Feeds(s, t)
  {
    if w.query.Positioned? {
      RefHitsIs(w.query.ref, s);
      assert References(t, w.query.ref);
    }
  }

  lemma FunctionFeeds(t: Entity, w: Want, s: Entity)
    requires t.Function? && w in Wants(t) && (w.Single? || w.Every?) && Hits(w.query, s)
    ensures Feeds(s, t)
  {
    FunctionSearches(t, w);
    if w in AttrWants(t.attrs) {
      AttrWantsAre(t.attrs, w);
      AttrFeeds(t, w, s);
    } else {
      SchemaNamedIs(t.attrs);
    }
  }

  /** Whatever a search of `t` hits is one of the things that come before `t`. */
  lemma WantFeeds(t: Entity, w: Want, s: Entity)
    requires w in Wants(t) && (w.Single? || w.Every?) && Hits(w.query, s)
    ensures Feeds(s, t)
  {
    if t.CustomSql? {
      BlockFeeds(t, w, s);
    } else if t.Type? {
      TypeFeeds(t, w, s);
    } else if t.Aggregate? {
      AggregateFeeds(t, w, s);
    } else if t.Function? {
      FunctionFeeds(t, w, s);
    }
  }

  lemma OutWant(s: Entity, w: Want)
    requires w in Wants(s) && w.EveryOut?
    ensures s.Function? && w == EveryOut(HashWith(s.modulePath, s.name))
  {
    if s.Function? {
      AttrWantsUntyped(s.attrs);
      InParts(AttrWants(s.attrs), if NamesSchema(s.attrs) then [] else SchemaWant(s), [EveryOut(HashWith(s.modulePath, s.name))],
              TypedWants(ConnectOrder(s)), w);
    }
  }

  lemma OutFeeds(s: Entity, w: Want, t: Entity)
    requires w in Wants(s) && w.EveryOut? && Hits(w.query, t)
    ensures EqualityFunction(s, t)
  {
    OutWant(s, w);
  }

  // ----- and back: each of these things is searched for

  lemma SearchesModule(t: Entity)
    requires !t.ExtensionRoot? && !t.BuiltinType? && !t.Schema?
    requires t.Function? ==> forall schema :: InSchema(schema) !in t.attrs
    ensures Single(SchemaAt(t.modulePath), false) in Wants(t)
  {
    if t.Function? {
      SchemaNamedIs(t.attrs);
    }
    assert Single(SchemaAt(t.modulePath), false) in SchemaWant(t);
  }

  lemma SearchesDeclared(t: Entity, schema: string) returns (required: bool)
    requires t.Function? && InSchema(schema) in t.attrs
    ensures Every(SchemaNamed(schema), required) in Wants(t)
  {
    AttrWantsAre(t.attrs, Every(SchemaNamed(schema), true));
    required :| Every(SchemaNamed(schema), required) in AttrWants(t.attrs);
  }

  lemma SearchesReference(t: Entity, ref: PositioningRef) returns (required: bool)
    requires References(t, ref)
    ensures Single(Positioned(ref), required) in Wants(t)
    ensures t.CustomSql? ==> required
    ensures t.Function? && (exists refs :: Requiring(refs) in t.attrs && ref in refs) ==> required
  {
    if t.CustomSql? {
      required := true;
      RefWantsAre(t.needs, true, Single(Positioned(ref), true));
    } else {
      required := exists refs :: Requiring(refs) in t.attrs && ref in refs;
      AttrWantsAre(t.attrs, Single(Positioned(ref), required));
    }
  }

  lemma SearchesFunction(t: Entity, path: string)
    requires t.Type? && exists name :: NamesFunction(t, name) && NamesPath(t.modulePath, name, path)
    ensures Single(FunctionAt(path), true) in Wants(t)
  {
    TypePathIs(t, path);
    PathWantsAre(TypeFunctions(t), Single(FunctionAt(path), true));
  }

  lemma SearchesAggregate(t: Entity, name: string)
    requires t.Aggregate? && name in t.functions
    ensures Single(FunctionAt(t.modulePath + "::" + name), true) in Wants(t)
  {
    AggregatePathIs(t, t.modulePath + "::" + name);
    PathWantsAre(AggregateFunctions(t), Single(FunctionAt(t.modulePath + "::" + name), true));
  }

  lemma SearchesOperators(s: Entity, t: Entity) returns (w: Want)
    requires OperatorFunction(s, t)
    ensures w in Wants(t) && w.Every? && Hits(w.query, s)
  {
    w := Every(FunctionNamed(t.modulePath, OperatorNames(t.lowerName)), false);
  }

  lemma SearchesHash(t: Entity, s: Entity)
    requires t.Hash?
    ensures Single(FunctionNamed(t.modulePath, [t.lowerName + "_hash"]), false) in Wants(t)
    ensures Hits(FunctionNamed(t.modulePath, [t.lowerName + "_hash"]), s) <==> HashFunction(s, t)
  {
  }

  lemma SearchesOperand(t: Entity, s: Entity)
    requires t.Ord? || t.Hash?
    ensures Single(TypeOrEnum(t.typeIdent), false) in Wants(t)
    ensures Hits(TypeOrEnum(t.typeIdent), s) <==> OperandType(s, t)
  {
  }

  lemma SearchesEquality(s: Entity, t: Entity)
    requires EqualityFunction(s, t)
    ensures EveryOut(HashWith(s.modulePath, s.name)) in Wants(s) && Hits(HashWith(s.modulePath, s.name), t)
  {
  }
}

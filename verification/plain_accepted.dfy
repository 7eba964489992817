/** Which extensions the build accepts, in the words of the entities. */
module PlainAccepted {
  import opened Connections
  import opened Entities
  import opened TypeTargets
  import opened Build
  import opened BuiltGraph
  import opened AcceptedInputs
  import opened PlainEntities
  import opened PlainTypes

  // ----- declarations

  ghost predicate IsDeclarer(input: Input, d: Entity, ident: string) {
    (d in input.types || d in input.enums || d in input.sqls) && Declares(d, ident)
  }

  ghost predicate SameIdent(c: Declared, c': Declared) {
    !c.DeclaredFunction? && !c'.DeclaredFunction? && c.ident == c'.ident
  }

  /** No type identifier is declared by two entities, nor twice by one block. */
  ghost predicate DeclaredOnce(input: Input) {
    && (forall d, e, ident :: IsDeclarer(input, d, ident) && IsDeclarer(input, e, ident) ==> d == e)
    && (forall d, k, l :: d in input.sqls && d.CustomSql? && 0 <= k < l < |d.creates| ==> !SameIdent(d.creates[k], d.creates[l]))
  }

  lemma DeclarerPlace(input: Input, d: Entity, ident: string) returns (p: Place)
    requires input.Valid() && IsDeclarer(input, d, ident)
    ensures IsPlace(Keys(input).decls, p, ident) && p.e == d
  {
    p := DeclaresPlace(Keys(input).decls, d, ident);
  }

  lemma PlaceDeclarer(input: Input, p: Place, ident: string)
    requires IsPlace(Keys(input).decls, p, ident)
    ensures IsDeclarer(input, p.e, ident)
  {
    PlaceDeclares(Keys(input).decls, p, ident);
  }

  lemma OnceIfUnambiguous(input: Input)
    requires input.Valid() && Unambiguous(Keys(input).decls)
    ensures DeclaredOnce(input)
  {
    forall d, e, ident | IsDeclarer(input, d, ident) && IsDeclarer(input, e, ident) ensures d == e {
      var p := DeclarerPlace(input, d, ident);
      var q := DeclarerPlace(input, e, ident);
      assert p == q;
    }
    forall d, k, l | d in input.sqls && d.CustomSql? && 0 <= k < l < |d.creates| ensures !SameIdent(d.creates[k], d.creates[l]) {
      if SameIdent(d.creates[k], d.creates[l]) {
        var ident := d.creates[k].ident;
        assert IsPlace(Keys(input).decls, InSql(d, k), ident) && IsPlace(Keys(input).decls, InSql(d, l), ident);
      }
    }
  }

  lemma UnambiguousIfOnce(input: Input)
    requires input.Valid() && DeclaredOnce(input)
    ensures Unambiguous(Keys(input).decls)
  {
    forall p, q, ident | IsPlace(Keys(input).decls, p, ident) && IsPlace(Keys(input).decls, q, ident) ensures p == q {
      PlaceDeclarer(input, p, ident);
      PlaceDeclarer(input, q, ident);
      assert p.e == q.e;
      if p.InSql? && p.k != q.k {
        var k, l := if p.k < q.k then p.k else q.k, if p.k < q.k then q.k else p.k;
        assert SameIdent(p.e.creates[k], p.e.creates[l]);
      }
    }
  }

  lemma ResolvesIffDeclared(input: Input, ident: string)
    requires input.Valid()
    ensures Resolves(Keys(input).decls, ident) <==> exists d :: IsDeclarer(input, d, ident)
  {
    if p :| IsPlace(Keys(input).decls, p, ident) {
      PlaceDeclarer(input, p, ident);
    }
    if d :| IsDeclarer(input, d, ident) {
      var p := DeclarerPlace(input, d, ident);
    }
  }

  /** Every type that is used as one of the extension's own is declared. */
  ghost predicate OwnTypesDeclared(input: Input) {
    forall e, ident, weight :: IsUser(input, e) && Uses(e, ident, ThisExtension, weight) ==> exists d :: IsDeclarer(input, d, ident)
  }

  lemma ResolvableIff(input: Input, e: Entity)
    requires input.Valid()
    ensures SlotsResolvable(Keys(input).decls, Slots(e)) <==>
      forall ident, weight :: Uses(e, ident, ThisExtension, weight) ==> exists d :: IsDeclarer(input, d, ident)
  {
    forall ident, weight ensures Slot(ident, ThisExtension, weight) in Slots(e) <==> Uses(e, ident, ThisExtension, weight) {
      SlotIffUse(e, Slot(ident, ThisExtension, weight));
    }
    forall ident ensures Resolves(Keys(input).decls, ident) <==> exists d :: IsDeclarer(input, d, ident) {
      ResolvesIffDeclared(input, ident);
    }
    if forall ident, weight :: Uses(e, ident, ThisExtension, weight) ==> exists d :: IsDeclarer(input, d, ident) {
      forall s | s in Slots(e) ensures Resolvable(Keys(input).decls, s) {
        assert s.origin.ThisExtension? ==> s == Slot(s.ident, ThisExtension, s.weight);
      }
    }
  }

  lemma AllResolvableIff(input: Input)
    requires input.Valid()
    ensures OwnTypesDeclared(input) <==>
      AllResolvable(Keys(input).decls, input.externs) && AllResolvable(Keys(input).decls, input.aggregates)
  {
    forall e ensures SlotsResolvable(Keys(input).decls, Slots(e)) <==>
      forall ident, weight :: Uses(e, ident, ThisExtension, weight) ==> exists d :: IsDeclarer(input, d, ident)
    {
      ResolvableIff(input, e);
    }
  }

  // ----- names

  ghost predicate Names(input: Input, ref: PositioningRef) {
    exists s :: s in input.Of(s) && RefNames(ref, s)
  }

  lemma NamesIff(input: Input, ref: PositioningRef)
    ensures Present(input, Positioned(ref)) <==> Names(input, ref)
  {
    forall s ensures Hits(Positioned(ref), s) <==> RefNames(ref, s) {
      RefHitsIs(ref, s);
    }
    if s :| s in input.Of(s) && RefNames(ref, s) {
      assert IsHit(input, Positioned(ref), s);
    }
  }

  ghost predicate HasSchema(input: Input, name: string) {
    exists s :: s in input.schemas && s.Schema? && s.name == name
  }

  lemma HasSchemaIff(input: Input, name: string)
    requires input.Valid()
    ensures Present(input, SchemaNamed(name)) <==> HasSchema(input, name)
  {
    if s :| s in input.schemas && s.Schema? && s.name == name {
      assert IsHit(input, SchemaNamed(name), s);
    }
  }

  /** The first schema that a function declares. */
  ghost predicate FirstDeclared(attrs: seq<ExternAttr>, i: nat) {
    i < |attrs| && attrs[i].InSchema? && forall k :: 0 <= k < i ==> !attrs[k].InSchema?
  }

  /** What a function requires is there, and so is the first schema that it declares. */
  ghost predicate FunctionNames(input: Input, e: Entity)
    requires e.Function?
  {
    && (forall refs, ref :: Requiring(refs) in e.attrs && ref in refs ==> Names(input, ref))
    && (forall i: nat :: FirstDeclared(e.attrs, i) ==> HasSchema(input, e.attrs[i].schema))
  }

  lemma RequiredIff(input: Input, attrs: seq<ExternAttr>)
    ensures (forall i, r :: 0 <= i < |attrs| && attrs[i].Requiring? && r in attrs[i].refs ==> Present(input, Positioned(r)))
      <==> forall refs, ref :: Requiring(refs) in attrs && ref in refs ==> Names(input, ref)
  {
    forall ref ensures Present(input, Positioned(ref)) <==> Names(input, ref) {
      NamesIff(input, ref);
    }
    if forall refs, ref :: Requiring(refs) in attrs && ref in refs ==> Names(input, ref) {
      forall i, r | 0 <= i < |attrs| && attrs[i].Requiring? && r in attrs[i].refs ensures Present(input, Positioned(r)) {
        assert Requiring(attrs[i].refs) in attrs;
      }
    }
  }

  lemma FirstDeclaredIff(attrs: seq<ExternAttr>, i: nat)
    requires i < |attrs|
    ensures FirstDeclared(attrs, i) <==> attrs[i].InSchema? && !NamesSchema(attrs[..i])
  {
    assert forall k :: 0 <= k < i ==> attrs[..i][k] == attrs[k];
  }

  lemma DeclaredIff(input: Input, attrs: seq<ExternAttr>)
    requires input.Valid()
    ensures (forall i :: 0 <= i < |attrs| && attrs[i].InSchema? && !NamesSchema(attrs[..i]) ==> Present(input, SchemaNamed(attrs[i].schema)))
      <==> forall i: nat :: FirstDeclared(attrs, i) ==> HasSchema(input, attrs[i].schema)
  {
    forall i: nat | i < |attrs| ensures FirstDeclared(attrs, i) <==> attrs[i].InSchema? && !NamesSchema(attrs[..i]) {
      FirstDeclaredIff(attrs, i);
    }
    forall name ensures Present(input, SchemaNamed(name)) <==> HasSchema(input, name) {
      HasSchemaIff(input, name);
    }
  }

  lemma FunctionNamesIff(input: Input, e: Entity)
    requires input.Valid() && e.Function?
    ensures AttrsPresent(input, e.attrs) <==> FunctionNames(input, e)
  {
    RequiredIff(input, e.attrs);
    DeclaredIff(input, e.attrs);
  }

  ghost predicate TypeNames(input: Input, t: Entity) {
    forall name :: NamesFunction(t, name) ==> exists f :: f in input.externs && f.Function? && NamesPath(t.modulePath, name, f.fullPath)
  }

  lemma TypeNamesIff(input: Input, t: Entity)
    requires t.Type?
    ensures (forall path :: path in TypeFunctions(t) ==> HasFunction(input, path)) <==> TypeNames(input, t)
  {
    if forall path :: path in TypeFunctions(t) ==> HasFunction(input, path) {
      forall name | NamesFunction(t, name) ensures exists f :: f in input.externs && f.Function? && NamesPath(t.modulePath, name, f.fullPath) {
        var path := ResolveFunctionPath(t.modulePath, name);
        ResolvedPath(t.modulePath, name, path);
        TypePathIs(t, path);
        var f :| f in input.externs && f.Function? && f.fullPath == path;
      }
    }
    if TypeNames(input, t) {
      forall path | path in TypeFunctions(t) ensures HasFunction(input, path) {
        TypePathIs(t, path);
        var name :| NamesFunction(t, name) && NamesPath(t.modulePath, name, path);
        var f :| f in input.externs && f.Function? && NamesPath(t.modulePath, name, f.fullPath);
        ResolvedPath(t.modulePath, name, path);
        ResolvedPath(t.modulePath, name, f.fullPath);
      }
    }
  }

  ghost predicate AggregateHas(input: Input, t: Entity, name: string)
    requires t.Aggregate?
  {
    exists f :: f in input.externs && f.Function? && f.fullPath == t.modulePath + "::" + name
  }

  lemma AggregateNamesIff(input: Input, t: Entity)
    requires t.Aggregate?
    ensures (forall path :: path in AggregateFunctions(t) ==> HasFunction(input, path))
      <==> forall name :: name in t.functions ==> AggregateHas(input, t, name)
  {
    forall path ensures path in AggregateFunctions(t) <==> exists name :: name in t.functions && path == t.modulePath + "::" + name {
      AggregatePathIs(t, path);
    }
    if forall path :: path in AggregateFunctions(t) ==> HasFunction(input, path) {
      forall name | name in t.functions ensures AggregateHas(input, t, name) {
        assert t.modulePath + "::" + name in AggregateFunctions(t);
      }
    }
  }

  /** Everything that types, aggregates, blocks and functions name is there. */
  ghost predicate NamesKnown(input: Input) {
    && (forall t :: t in input.types ==> TypeNames(input, t))
    && (forall t, name :: t in input.aggregates && t.Aggregate? && name in t.functions ==> AggregateHas(input, t, name))
    && (forall e, ref :: e in input.sqls && e.CustomSql? && ref in e.needs ==> Names(input, ref))
    && (forall e :: e in input.externs && e.Function? ==> FunctionNames(input, e))
  }

  lemma NamesKnownIff(input: Input)
    requires input.Valid()
    ensures NamesPresent(input) <==> NamesKnown(input)
  {
    forall t: Entity | t.Type? ensures (forall path :: path in TypeFunctions(t) ==> HasFunction(input, path)) <==> TypeNames(input, t) {
      TypeNamesIff(input, t);
    }
    forall t: Entity | t.Aggregate?
      ensures (forall path :: path in AggregateFunctions(t) ==> HasFunction(input, path))
        <==> forall name :: name in t.functions ==> AggregateHas(input, t, name)
    {
      AggregateNamesIff(input, t);
    }
    forall ref ensures Present(input, Positioned(ref)) <==> Names(input, ref) {
      NamesIff(input, ref);
    }
    forall e: Entity | e.Function? ensures AttrsPresent(input, e.attrs) <==> FunctionNames(input, e) {
      FunctionNamesIff(input, e);
    }
  }

  // ----- acceptance

  /** No two places of the list hold bootstrap blocks, nor finalize blocks. */
  ghost predicate MarkedOnce(sqls: seq<Entity>) {
    forall i, j :: 0 <= i < j < |sqls| && sqls[i].CustomSql? && sqls[j].CustomSql?
      ==> !(sqls[i].bootstrap && sqls[j].bootstrap) && !(sqls[i].finalize && sqls[j].finalize)
  }

  /** An extension is accepted if and only if it marks one block at most as bootstrap and one as
      finalize, declares no type twice, declares the types that it uses as its own, and has what its
      entities name. */
  lemma AcceptedIff(input: Input)
    requires input.Valid()
    ensures Accepted(input) <==> MarkedOnce(input.sqls) && DeclaredOnce(input) && OwnTypesDeclared(input) && NamesKnown(input)
  {
    AllLinkedIff(input);
    NamesKnownIff(input);
    AllResolvableIff(input);
    if Unambiguous(Keys(input).decls) {
      OnceIfUnambiguous(input);
    }
    if DeclaredOnce(input) {
      UnambiguousIfOnce(input);
    }
    MarkedIff(input.sqls);
  }

  lemma MarkedIff(sqls: seq<Entity>)
    ensures MarkedOnce(sqls) <==> AtMostOne(sqls, false) && AtMostOne(sqls, true)
  {
  }
}

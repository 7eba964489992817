/** Accepted extensions of blocks and schemas on which a promise about marked blocks fails. */
module BlockInputs {
  import opened Walks
  import opened Connections
  import opened Emission
  import opened Entities
  import opened TypeTargets
  import opened Build
  import opened BuiltGraph
  import opened AcceptedInputs
  import opened TiedNodes
  import opened BuiltView
  import opened ExplicitCycles

  function Blocks(sqls: seq<Entity>, schemas: seq<Entity>): Input {
    Input(ExtensionRoot(0), sqls, schemas, [], [], [], [], [], [], [])
  }

  /** A block that declares nothing. */
  function Block(bootstrap: bool, finalize: bool, modulePath: string, name: string, needs: seq<PositioningRef>): Entity {
    CustomSql(bootstrap, finalize, [], modulePath, name, needs, 0)
  }

  lemma NoPlaces(sqls: seq<Entity>, schemas: seq<Entity>)
    requires forall e :: e in sqls ==> e.CustomSql? && e.creates == []
    ensures TypesResolve(Blocks(sqls, schemas), Keys(Blocks(sqls, schemas)).decls)
  {
    var m := Keys(Blocks(sqls, schemas)).decls;
    forall p, ident ensures !IsPlace(m, p, ident) {
      assert p.InSql? ==> p.e !in m.sqls || p.e.creates == [];
    }
  }

  ghost predicate NamesBlock(sqls: seq<Entity>, r: PositioningRef) {
    r.Named? && exists f :: f in sqls && f.CustomSql? && f.name == r.name
  }

  lemma BlockFindable(sqls: seq<Entity>, schemas: seq<Entity>, e: Entity)
    requires Blocks(sqls, schemas).Valid() && e in Blocks(sqls, schemas).Of(e)
    requires e.CustomSql? ==> forall r :: r in e.needs ==> NamesBlock(sqls, r)
    ensures AllFindable(Keys(Blocks(sqls, schemas)), e)
  {
    var input := Blocks(sqls, schemas);
    if e.CustomSql? {
      forall r | r in e.needs ensures Present(input, Positioned(r)) {
        var f :| f in sqls && f.CustomSql? && f.name == r.name;
        assert IsHit(input, Positioned(r), f);
      }
      BlockLinkedIff(input, e);
    }
  }

  /** Blocks that declare nothing and require blocks by their names, and schemas, are accepted. */
  lemma BlocksAccepted(sqls: seq<Entity>, schemas: seq<Entity>)
    requires forall e :: e in sqls ==> e.CustomSql? && e.creates == [] && forall r :: r in e.needs ==> NamesBlock(sqls, r)
    requires forall e :: e in schemas ==> e.Schema?
    requires AtMostOne(sqls, false) && AtMostOne(sqls, true)
    ensures Blocks(sqls, schemas).Valid() && Accepted(Blocks(sqls, schemas))
  {
    NoPlaces(sqls, schemas);
    forall e | e in Blocks(sqls, schemas).Of(e) ensures AllFindable(Keys(Blocks(sqls, schemas)), e) {
      BlockFindable(sqls, schemas, e);
    }
  }

  /** One block that is bootstrap and finalize, and a schema: accepted, and the explicit edges of any
      graph built from it form a cycle. */
  lemma BothMarkedInput(b: Built, rank: Entity -> int)
    ensures var input := Blocks([Block(true, true, "m", "s", [])], [Schema("n", "x", 0)]);
      Accepted(input) && (IsBuilt(input, b) ==> !Acyclic(AllExplicit(View(b, rank))))
  {
    var block := Block(true, true, "m", "s", []);
    var input := Blocks([block], [Schema("n", "x", 0)]);
    BlocksAccepted([block], [Schema("n", "x", 0)]);
    assert block in input.sqls && |input.All()| == 3;
    if IsBuilt(input, b) {
      CycleIfTouched(input, b, rank);
    }
  }

  /** A bootstrap block in the module of a schema: accepted, and again a cycle. */
  lemma InSchemaInput(b: Built, rank: Entity -> int)
    ensures var input := Blocks([Block(true, false, "m", "s", [])], [Schema("m", "x", 0)]);
      Accepted(input) && (IsBuilt(input, b) ==> !Acyclic(AllExplicit(View(b, rank))))
  {
    var block, schema := Block(true, false, "m", "s", []), Schema("m", "x", 0);
    var input := Blocks([block], [schema]);
    BlocksAccepted([block], [schema]);
    assert block in input.sqls && schema in input.schemas;
    if IsBuilt(input, b) {
      CycleIfTouched(input, b, rank);
    }
  }

  /** A bootstrap block that requires another block. */
  lemma RequiringInput(b: Built, rank: Entity -> int)
    ensures var input := Blocks([Block(true, false, "m", "s", [Named("t")]), Block(false, false, "m", "t", [])], []);
      Accepted(input) && (IsBuilt(input, b) ==> !Acyclic(AllExplicit(View(b, rank))))
  {
    var first, second := Block(true, false, "m", "s", [Named("t")]), Block(false, false, "m", "t", []);
    var input := Blocks([first, second], []);
    assert first in input.sqls && second in input.sqls;
    assert NamesBlock([first, second], Named("t"));
    BlocksAccepted([first, second], []);
    if IsBuilt(input, b) {
      CycleIfTouched(input, b, rank);
    }
  }

  /** A finalize block that another block requires. */
  lemma RequiredInput(b: Built, rank: Entity -> int)
    ensures var input := Blocks([Block(false, true, "m", "s", []), Block(false, false, "m", "t", [Named("s")])], []);
      Accepted(input) && (IsBuilt(input, b) ==> !Acyclic(AllExplicit(View(b, rank))))
  {
    var first, second := Block(false, true, "m", "s", []), Block(false, false, "m", "t", [Named("s")]);
    var input := Blocks([first, second], []);
    assert first in input.sqls && second in input.sqls;
    assert NamesBlock([first, second], Named("s"));
    BlocksAccepted([first, second], []);
    NeedWanted(second);
    assert IsFinalize(input, first);
    assert FinalizeNamed(input);
    assert OwnName(input);
    if IsBuilt(input, b) {
      CycleIfTouched(input, b, rank);
    }
  }

  /** A schema given twice: accepted, and the root does not come before every entity. */
  lemma RepeatedSchemaInput(b: Built)
    ensures var input := Blocks([], [Schema("m", "x", 0), Schema("m", "x", 0)]);
      Accepted(input) && (IsBuilt(input, b) ==> !AllRooted(b))
  {
    var schema := Schema("m", "x", 0);
    var input := Blocks([], [schema, schema]);
    BlocksAccepted([], [schema, schema]);
    assert input.schemas[0] == input.schemas[1];
    if IsBuilt(input, b) {
      AllRootedIff(input, b);
    }
  }

  /** A block given twice beside a bootstrap block: accepted, and bootstrap has no edge to one copy. */
  lemma RepeatedBlockInput(b: Built)
    ensures var block := Block(false, false, "m", "t", []);
            var input := Blocks([Block(true, false, "m", "s", []), block, block], []);
      Accepted(input) && (IsBuilt(input, b) ==> !AllAnchored(b))
  {
    var first, block := Block(true, false, "m", "s", []), Block(false, false, "m", "t", []);
    var input := Blocks([first, block, block], []);
    BlocksAccepted([first, block, block], []);
    assert first in input.sqls && input.sqls[1] == input.sqls[2];
    if IsBuilt(input, b) {
      AllAnchoredIff(input, b);
    }
  }
}

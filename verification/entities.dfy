/** The SQL entities of an extension, reduced to what the graph builder reads of them. */
module Entities {
  import opened ComponentOrder
  import opened Wrappers

  datatype TypeOrigin = ThisExtension | External

  /** A use of a type: how it resolves (explicit composites do not), and whether it shows up
      in argument SQL. */
  datatype TypeUse = TypeUse(resolution: Option<(string, TypeOrigin)>, emitsArgumentSql: bool)

  datatype Returning = NoReturn | TriggerReturn | One(ty: TypeUse) | SetOf(ty: TypeUse) | Iterated(tys: seq<TypeUse>)

  /** What an `extension_sql!` block says it creates. */
  datatype Declared = DeclaredType(ident: string) | DeclaredEnum(ident: string) | DeclaredFunction(name: string) {
    function TypeIdent(): Option<string> {
      if DeclaredFunction? then None else Some(ident)
    }
  }

  /** What a `requires` names: a Rust path or the name of an `extension_sql!` block. */
  datatype PositioningRef = FullPath(path: string) | Named(name: string)

  /** The attributes of a `#[pg_extern]` that connect it to something. */
  datatype ExternAttr = Requiring(refs: seq<PositioningRef>) | SupportedBy(ref: PositioningRef) | InSchema(schema: string)

  /** `id` stands for all the fields that the builder only copies; `lowerName` is a name in
      lower case; `functions` are the functions that an aggregate names, in the order in which
      they are connected. */
  datatype Entity =
    | ExtensionRoot(id: int)
    | Schema(modulePath: string, name: string, id: int)
    | CustomSql(bootstrap: bool, finalize: bool, creates: seq<Declared>,
                modulePath: string, name: string, needs: seq<PositioningRef>, id: int)
    | Function(args: seq<TypeUse>, ret: Returning, modulePath: string, name: string, unaliased: string,
               fullPath: string, attrs: seq<ExternAttr>, id: int)
    | Type(typeIdent: string, modulePath: string, name: string, inFn: string, outFn: string,
           receiveFn: Option<string>, sendFn: Option<string>, id: int)
    | BuiltinType(name: string)
    | Enum(typeIdent: string, modulePath: string, name: string, id: int)
    | Ord(typeIdent: string, modulePath: string, lowerName: string, id: int)
    | Hash(typeIdent: string, modulePath: string, lowerName: string, id: int)
    | Aggregate(aggArgs: seq<TypeUse>, directArgs: Option<seq<TypeUse>>, stype: TypeUse, mstype: Option<TypeUse>,
                modulePath: string, functions: seq<string>, id: int)
    | Trigger(modulePath: string, functionName: string, id: int)
  {
    /** `type_ident_matches`. */
    predicate TypeIdentMatches(ident: string) {
      if CustomSql? then exists i :: 0 <= i < |creates| && creates[i].TypeIdent() == Some(ident)
      else if Enum? || Type? then typeIdent == ident
      else BuiltinType? && name == ident
    }
  }

  type Mapped = map<Entity, nat>

  // ----- the type slots of functions and aggregates

  /** A place where an entity uses a type that must resolve, and the edge it calls for. */
  datatype Slot = Slot(ident: string, origin: TypeOrigin, weight: Requires)

  function SlotOf(use: TypeUse, weight: Requires): seq<Slot> {
    if use.resolution.Some? then [Slot(use.resolution.value.0, use.resolution.value.1, weight)] else []
  }

  function SlotsOf(uses: seq<TypeUse>, weight: Requires): seq<Slot> {
    if uses == [] then [] else SlotsOf(uses[..|uses| - 1], weight) + SlotOf(uses[|uses| - 1], weight)
  }

  /** Arguments that do not show up in SQL have no slot. */
  function Visible(args: seq<TypeUse>): seq<TypeUse> {
    if args == [] then [] else
      var last := args[|args| - 1];
      Visible(args[..|args| - 1]) + (if last.emitsArgumentSql then [last] else [])
  }

  function ReturnSlots(ret: Returning): seq<Slot> {
    match ret
    case NoReturn => []
    case TriggerReturn => []
    case One(ty) => SlotOf(ty, ByReturn)
    case SetOf(ty) => SlotOf(ty, ByReturn)
    case Iterated(tys) => SlotsOf(tys, ByReturn)
  }

  /** The slots of an entity, in the order they are initialized. */
  function Slots(e: Entity): seq<Slot> {
    if e.Function? then
      SlotsOf(Visible(e.args), ByArg) + ReturnSlots(e.ret)
    else if e.Aggregate? then
      SlotsOf(e.aggArgs, ByArg)
      + SlotsOf(if e.directArgs.Some? then e.directArgs.value else [], ByArg)
      + SlotOf(e.stype, ByArg)
      + (if e.mstype.Some? then SlotOf(e.mstype.value, ByArg) else [])
    else []
  }
}

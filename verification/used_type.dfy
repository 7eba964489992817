/** Resolution of `composite_type!` inside argument and return types (`UsedType::new` and its
    mutually recursive helpers), on an abstract syntax of Rust types. */
module UsedType {
  import opened Wrappers

  datatype Composite = Composite(lifetime: Option<string>, sql: string)

  /** A macro invocation in type position, by the last segment of its path. `composite` is
      what its body parses to as a `composite_type!`, `inner` and `value` what it parses to as
      a `default!`; `None` where it does not parse. */
  datatype Ty =
    | Path(segments: seq<Segment>)
    | Macro(name: string, composite: Option<Composite>, inner: Option<Ty>, value: Option<string>)
    | Opaque(text: string)

  datatype Segment = Segment(ident: string, args: Args)

  datatype Args = NoArgs | Angle(args: seq<Arg>) | Paren

  datatype Arg = TypeArg(ty: Ty) | OtherArg(text: string)

  // ----- reading types

  function LastSegment(t: Ty): (r: Option<Segment>)
    ensures r.Some? ==> r.value < t
  {
    if t.Path? && t.segments != [] then Some(t.segments[|t.segments| - 1]) else None
  }

  function LastIdent(t: Ty): Option<string> {
    var last := LastSegment(t);
    if last.Some? then Some(last.value.ident) else None
  }

  /** The first generic argument, if there is one and it is a type. */
  function FirstTypeArg(s: Segment): (r: Option<Ty>)
    ensures r.Some? ==> r.value < s
  {
    if s.args.Angle? && s.args.args != [] && s.args.args[0].TypeArg? then Some(s.args.args[0].ty) else None
  }

  function LastTypeArg(s: Segment): (r: Option<Ty>)
    ensures r.Some? ==> r.value < s
  {
    if s.args.Angle? && s.args.args != [] && s.args.args[|s.args.args| - 1].TypeArg?
    then Some(s.args.args[|s.args.args| - 1].ty) else None
  }

  predicate IsList(ident: string) {
    ident == "Vec" || ident == "VariadicArray" || ident == "Array"
  }

  predicate IsCompositeMacro(t: Ty) {
    t.Macro? && t.name == "composite_type"
  }

  // ----- writing types

  function Name(idents: seq<string>, args: Args): Ty
    requires idents != []
  {
    var n := |idents| - 1;
    Path(seq(n, i requires 0 <= i < n => Segment(idents[i], NoArgs)) + [Segment(idents[n], args)])
  }

  /** The heap tuple a composite stands for; a missing lifetime is elided. */
  function Expand(c: Composite): Ty {
    var lifetime := if c.lifetime.Some? then c.lifetime.value else "'_";
    Name(["pgrx", "heap_tuple", "PgHeapTuple"],
         Angle([OtherArg(lifetime), TypeArg(Name(["pgrx", "pgbox", "AllocatedByRust"], NoArgs))]))
  }

  function WrapList(ident: string, t: Ty): Ty {
    if ident == "Vec" then Name(["Vec"], Angle([TypeArg(t)]))
    else Name(["pgrx", "datum", ident], Angle([OtherArg("'_"), TypeArg(t)]))
  }

  // ----- the resolvers

  type Resolved = Result<(Ty, Option<Composite>)>

  function ParseComposite(t: Ty): Result<Composite>
    requires t.Macro?
  {
    if t.composite.Some? then Ok(t.composite.value) else Err("composite_type!() does not parse")
  }

  /** `resolve_vec_inner`, `resolve_variadic_array_inner` and `resolve_array_inner`. */
  function ResolveList(original: Ty): Resolved
    requires original.Path?
    decreases original
  {
    var last := LastSegment(original);
    if last.None? then Err("Could not read last segment of path") else
    var arg := LastTypeArg(last.value);
    if arg.None? then Ok((original, None)) else
    match arg.value
    case Macro(name, _, _, _) =>
      if name == "default" then Err("default! inside a list is not supported")
      else if name == "composite_type" then
        var c :- ParseComposite(arg.value);
        Ok((WrapList(last.value.ident, Expand(c)), Some(c)))
      else Ok((original, None))
    case Path(_) =>
      if LastSegment(arg.value).None? then Err("No last segment in type path")
      else if LastIdent(arg.value) == Some("Option") then
        var (inner, c) :- ResolveOption(arg.value);
        Ok((WrapList(last.value.ident, inner), c))
      else Ok((original, None))
    case Opaque(_) => Ok((original, None))
  }

  /** `resolve_option_inner`. */
  function ResolveOption(original: Ty): Resolved
    requires original.Path?
    decreases original
  {
    var last := LastSegment(original);
    if last.None? then Err("Could not read last segment of path") else
    var arg := FirstTypeArg(last.value);
    if arg.None? then Ok((original, None)) else
    match arg.value
    case Macro(name, _, _, _) =>
      if name == "composite_type" then
        var c :- ParseComposite(arg.value);
        Ok((Name(["Option"], Angle([TypeArg(Expand(c))])), Some(c)))
      else if name == "default" then Err("default! inside Option is not supported")
      else Ok((original, None))
    case Path(_) =>
      var inner := LastSegment(arg.value);
      if inner.None? then Err("No last segment in type path")
      else if IsList(inner.value.ident) then
        var (ty, c) :- ResolveList(arg.value);
        Ok((Name(["std", "option", "Option"], Angle([TypeArg(ty)])), c))
      else Ok((original, None))
    case Opaque(_) => Ok((original, None))
  }

  /** `Result<ok>` or `Result<ok, err>` under the original path. */
  function RebuildResult(original: Ty, ok: Ty): Ty
    requires LastSegment(original).Some? && LastSegment(original).value.args.Angle?
  {
    var n := |original.segments| - 1;
    var args := original.segments[n].args.args;
    var err := if |args| >= 2 then [args[1]] else [];
    Path(original.segments[..n] + [Segment(original.segments[n].ident, Angle([TypeArg(ok)] + err))])
  }

  /** `resolve_result_inner`. */
  function ResolveResult(original: Ty): Resolved
    requires original.Path?
  {
    var last := LastSegment(original);
    if last.None? then Err("Could not read last segment of path")
    else if !last.value.args.Angle? || last.value.args.args == [] then
      Err("Cannot return a Result without type generic arguments.")
    else
      var arg := FirstTypeArg(last.value);
      if arg.None? then Ok((original, None)) else
      match arg.value
      case Macro(name, _, _, _) =>
        if name == "composite_type" then
          var c :- ParseComposite(arg.value);
          Ok((RebuildResult(original, Expand(c)), Some(c)))
        else if name == "default" then Err("default! inside Result is not supported")
        else Ok((original, None))
      case Path(_) =>
        var inner := LastSegment(arg.value);
        if inner.None? then Err("No last segment in type path")
        else if inner.value.ident == "Option" then
          var (ty, c) :- ResolveOption(arg.value);
          Ok((RebuildResult(original, ty), c))
        else if IsList(inner.value.ident) then
          var (ty, c) :- ResolveList(arg.value);
          Ok((RebuildResult(original, ty), c))
        else Ok((original, None))
      case Opaque(_) => Ok((original, None))
  }

  /** The `composite_type!` step of `UsedType::new`. */
  function ResolveComposite(t: Ty): Resolved {
    match t
    case Macro(name, _, _, _) =>
      if name == "default" then Err("default!(default!()) not supported, use it only once")
      else if name == "composite_type" then
        var c :- ParseComposite(t);
        Ok((Expand(c), Some(c)))
      else Ok((t, None))
    case Path(_) =>
      var last := LastIdent(t);
      if last.None? then Err("Could not read last segment of path")
      else if last.value == "Option" then ResolveOption(t)
      else if last.value == "Result" then ResolveResult(t)
      else if IsList(last.value) then ResolveList(t)
      else Ok((t, None))
    case Opaque(_) => Ok((t, None))
  }

  datatype Flags = Flags(variadic: bool, optional: bool, result: bool)

  /** The step that reads the flags off a type. */
  function ReadFlags(t: Ty): Result<Flags> {
    if !t.Path? then Ok(Flags(false, false, false)) else
    var last := LastSegment(t);
    if last.None? then Err("No last segment found while scanning path") else
    var ident := last.value.ident;
    if ident == "Result" || ident == "Option" then
      var arg := FirstTypeArg(last.value);
      if arg.None? then Err("Unexpected item inside " + ident)
      else if arg.value.Path? && LastSegment(arg.value).None? then Err("No last segment found while scanning path")
      else
        var inner := LastIdent(arg.value);
        if inner == Some("VariadicArray") then Ok(Flags(true, true, false))
        else if ident == "Option" then Ok(Flags(false, true, false))
        else if inner == Some("Option") then Ok(Flags(false, true, true))
        else if inner == Some("Nullable") || inner == Some("Internal") then Ok(Flags(false, true, false))
        else Ok(Flags(false, false, true))
    else if ident == "VariadicArray" then Ok(Flags(true, false, false))
    else if ident == "Nullable" || ident == "Internal" then Ok(Flags(false, true, false))
    else Ok(Flags(false, false, false))
  }

  datatype Used = Used(original: Ty, resolved: Ty, resolvedInner: Option<Ty>, composite: Option<Composite>,
                       flags: Flags, default: Option<string>)

  /** Peel off one `default!(..)`. */
  function PeelDefault(t: Ty): Result<(Ty, Option<string>)> {
    if t.Macro? && t.name == "default" then
      if t.inner.Some? then Ok((t.inner.value, t.value)) else Err("default!() does not parse")
    else Ok((t, None))
  }

  /** What the source takes for the `T` of a `Result<T, E>`: the first argument of the FIRST
      path segment. */
  function InnerOf(t: Ty, flags: Flags): Option<Ty> {
    if flags.result && t.Path? && t.segments != [] then FirstTypeArg(t.segments[0]) else None
  }

  /** `UsedType::new`. */
  function New(t: Ty): Result<Used> {
    var (peeled, default) :- PeelDefault(t);
    var (resolved, composite) :- ResolveComposite(peeled);
    var flags :- ReadFlags(resolved);
    Ok(Used(t, resolved, InnerOf(resolved, flags), composite, flags, default))
  }

  // ----- the spine of a type

  /** Container names from the outside in, and what is inside the innermost one: `Option` and
      `Result` are opened at their first argument, lists at their last. */
  datatype Spine = Spine(names: seq<string>, leaf: Ty)

  /** The argument at which a container is opened. */
  function Opened(t: Ty): (r: Option<Ty>)
    ensures r.Some? ==> r.value < t
  {
    var last := LastSegment(t);
    if last.None? then None
    else if last.value.ident == "Option" || last.value.ident == "Result" then FirstTypeArg(last.value)
    else if IsList(last.value.ident) then LastTypeArg(last.value)
    else None
  }

  ghost function SpineOf(t: Ty): Spine {
    var inner := Opened(t);
    if inner.None? then Spine([], t) else
      var s := SpineOf(inner.value);
      Spine([LastIdent(t).value] + s.names, s.leaf)
  }

  /** Options and lists alternate, and a `Result` is never inside anything. */
  predicate Nests(outer: string, inner: string) {
    && inner != "Result"
    && (outer == "Option" ==> IsList(inner))
    && (IsList(outer) ==> inner == "Option")
  }

  ghost predicate WellNested(names: seq<string>) {
    forall i :: 0 <= i < |names| - 1 ==> Nests(names[i], names[i + 1])
  }

  /** The types that carry a composite. */
  ghost predicate CarriesComposite(t: Ty) {
    IsCompositeMacro(SpineOf(t).leaf) && WellNested(SpineOf(t).names)
  }

  // ----- the resolvers find exactly those types, and keep the spine

  /** A resolver's answer for `t` is right: the composite is reported exactly when `t` carries
      one, and then it is the one at the leaf; the container names are kept, and the leaf too
      unless it was the composite. */
  ghost predicate Right(t: Ty, r: (Ty, Option<Composite>)) {
    var (u, c) := r;
    && (c.Some? <==> CarriesComposite(t))
    && (c.Some? ==> SpineOf(t).leaf.composite == c)
    && SpineOf(u) == Spine(SpineOf(t).names, if c.Some? then Expand(c.value) else SpineOf(t).leaf)
  }

  lemma WellNestedCons(name: string, rest: seq<string>)
    ensures WellNested([name] + rest) <==> (rest == [] || Nests(name, rest[0])) && WellNested(rest)
  {
    var names := [name] + rest;
    assert forall i :: 0 <= i < |rest| ==> names[i + 1] == rest[i];
    if WellNested(names) {
      assert rest != [] ==> Nests(names[0], names[1]);
      forall i | 0 <= i < |rest| - 1 ensures Nests(rest[i], rest[i + 1]) {
        assert Nests(names[i + 1], names[i + 2]);
      }
    }
    if (rest == [] || Nests(name, rest[0])) && WellNested(rest) {
      forall i | 0 <= i < |names| - 1 ensures Nests(names[i], names[i + 1]) {
        if i > 0 {
          assert Nests(rest[i - 1], rest[i]);
        }
      }
    }
  }

  /** The names below a container start with the name of what is opened, if that is a
      container itself. */
  lemma SpineHead(t: Ty)
    ensures SpineOf(t).names != [] ==> LastIdent(t) == Some(SpineOf(t).names[0])
    ensures SpineOf(t).names == [] ==> SpineOf(t).leaf == t
  {
  }

  /** Opening a container moves its name onto the spine. */
  lemma SpineOpen(t: Ty, inner: Ty)
    requires Opened(t) == Some(inner)
    ensures SpineOf(t) == Spine([LastIdent(t).value] + SpineOf(inner).names, SpineOf(inner).leaf)
  {
  }

  lemma LastOfName(idents: seq<string>, args: Args)
    requires idents != []
    ensures LastSegment(Name(idents, args)) == Some(Segment(idents[|idents| - 1], args))
  {
  }

  lemma SpineOfExpand(c: Composite)
    ensures SpineOf(Expand(c)) == Spine([], Expand(c))
  {
    var lifetime := if c.lifetime.Some? then c.lifetime.value else "'_";
    LastOfName(["pgrx", "heap_tuple", "PgHeapTuple"],
               Angle([OtherArg(lifetime), TypeArg(Name(["pgrx", "pgbox", "AllocatedByRust"], NoArgs))]));
  }

  lemma OpenedWrapList(ident: string, t: Ty)
    requires IsList(ident)
    ensures LastIdent(WrapList(ident, t)) == Some(ident) && Opened(WrapList(ident, t)) == Some(t)
  {
    if ident == "Vec" {
      LastOfName(["Vec"], Angle([TypeArg(t)]));
    } else {
      LastOfName(["pgrx", "datum", ident], Angle([OtherArg("'_"), TypeArg(t)]));
    }
  }

  lemma OpenedOption(path: seq<string>, t: Ty)
    requires path == ["Option"] || path == ["std", "option", "Option"]
    ensures var u := Name(path, Angle([TypeArg(t)]));
      LastIdent(u) == Some("Option") && Opened(u) == Some(t)
  {
    LastOfName(path, Angle([TypeArg(t)]));
  }

  lemma OpenedRebuilt(original: Ty, ok: Ty)
    requires LastIdent(original) == Some("Result") && LastSegment(original).value.args.Angle?
    ensures LastIdent(RebuildResult(original, ok)) == Some("Result") && Opened(RebuildResult(original, ok)) == Some(ok)
  {
  }

  /** Rewrapping a rightly resolved argument in a container of the same name is right. */
  lemma RewrapRight(t: Ty, u: Ty, arg: Ty, inner: Ty, c: Option<Composite>)
    requires Opened(t) == Some(arg) && Opened(u) == Some(inner) && LastIdent(t) == LastIdent(u)
    requires Right(arg, (inner, c))
    requires SpineOf(arg).names == [] || Nests(LastIdent(t).value, SpineOf(arg).names[0])
    ensures Right(t, (u, c))
  {
    SpineOpen(t, arg);
    SpineOpen(u, inner);
    WellNestedCons(LastIdent(t).value, SpineOf(arg).names);
  }

  /** Replacing a composite argument by its expansion is right. */
  lemma CompositeRight(m: Ty, c: Composite)
    requires IsCompositeMacro(m) && m.composite == Some(c)
    ensures Right(m, (Expand(c), Some(c))) && SpineOf(m).names == []
  {
    SpineOfExpand(c);
  }

  /** A type is rightly left alone when what it opens does not nest or is no composite. */
  lemma LeftAloneRight(t: Ty, arg: Ty)
    requires Opened(t) == Some(arg)
    requires if SpineOf(arg).names == [] then !IsCompositeMacro(arg) else !Nests(LastIdent(t).value, SpineOf(arg).names[0])
    ensures Right(t, (t, None))
  {
    SpineOpen(t, arg);
    WellNestedCons(LastIdent(t).value, SpineOf(arg).names);
  }

  lemma {:induction false} ListRight(t: Ty)
    requires LastIdent(t).Some? && IsList(LastIdent(t).value)
    ensures ResolveList(t).Ok? ==> Right(t, ResolveList(t).value)
    decreases t
  {
    var ident := LastIdent(t).value;
    var arg := LastTypeArg(LastSegment(t).value);
    if arg.Some? && ResolveList(t).Ok? {
      SpineHead(arg.value);
      if IsCompositeMacro(arg.value) {
        var c := arg.value.composite.value;
        CompositeRight(arg.value, c);
        OpenedWrapList(ident, Expand(c));
        RewrapRight(t, WrapList(ident, Expand(c)), arg.value, Expand(c), Some(c));
      } else if LastIdent(arg.value) == Some("Option") {
        OptionRight(arg.value);
        var (inner, c) := ResolveOption(arg.value).value;
        OpenedWrapList(ident, inner);
        RewrapRight(t, WrapList(ident, inner), arg.value, inner, c);
      } else {
        LeftAloneRight(t, arg.value);
      }
    }
  }

  lemma {:induction false} OptionRight(t: Ty)
    requires LastIdent(t) == Some("Option")
    ensures ResolveOption(t).Ok? ==> Right(t, ResolveOption(t).value)
    decreases t
  {
    var arg := FirstTypeArg(LastSegment(t).value);
    if arg.Some? && ResolveOption(t).Ok? {
      SpineHead(arg.value);
      var last := LastIdent(arg.value);
      if IsCompositeMacro(arg.value) {
        var c := arg.value.composite.value;
        CompositeRight(arg.value, c);
        OpenedOption(["Option"], Expand(c));
        RewrapRight(t, Name(["Option"], Angle([TypeArg(Expand(c))])), arg.value, Expand(c), Some(c));
      } else if last.Some? && IsList(last.value) {
        ListRight(arg.value);
        var (inner, c) := ResolveList(arg.value).value;
        OpenedOption(["std", "option", "Option"], inner);
        RewrapRight(t, Name(["std", "option", "Option"], Angle([TypeArg(inner)])), arg.value, inner, c);
      } else {
        LeftAloneRight(t, arg.value);
      }
    }
  }

  lemma ResultRight(t: Ty)
    requires LastIdent(t) == Some("Result")
    ensures ResolveResult(t).Ok? ==> Right(t, ResolveResult(t).value)
  {
    var arg := FirstTypeArg(LastSegment(t).value);
    if arg.Some? && ResolveResult(t).Ok? {
      SpineHead(arg.value);
      var last := LastIdent(arg.value);
      if IsCompositeMacro(arg.value) {
        var c := arg.value.composite.value;
        CompositeRight(arg.value, c);
        OpenedRebuilt(t, Expand(c));
        RewrapRight(t, RebuildResult(t, Expand(c)), arg.value, Expand(c), Some(c));
      } else if last == Some("Option") {
        OptionRight(arg.value);
        var (inner, c) := ResolveOption(arg.value).value;
        OpenedRebuilt(t, inner);
        RewrapRight(t, RebuildResult(t, inner), arg.value, inner, c);
      } else if last.Some? && IsList(last.value) {
        ListRight(arg.value);
        var (inner, c) := ResolveList(arg.value).value;
        OpenedRebuilt(t, inner);
        RewrapRight(t, RebuildResult(t, inner), arg.value, inner, c);
      } else {
        LeftAloneRight(t, arg.value);
      }
    }
  }

  /** For types of any depth: where resolution succeeds, a composite is reported exactly when
      the type is `composite_type!` inside alternating options and lists, possibly in a
      `Result`; and resolution keeps the chain of container names. */
  lemma ResolveIsRight(t: Ty)
    ensures ResolveComposite(t).Ok? ==> Right(t, ResolveComposite(t).value)
  {
    if t.Path? {
      var last := LastIdent(t);
      if last == Some("Option") {
        OptionRight(t);
      } else if last == Some("Result") {
        ResultRight(t);
      } else if last.Some? && IsList(last.value) {
        ListRight(t);
      }
    } else if IsCompositeMacro(t) && t.composite.Some? {
      CompositeRight(t, t.composite.value);
    }
  }

  // ----- and they do find them

  /** `t` carries a composite whose macro parses. */
  ghost predicate Parses(t: Ty) {
    CarriesComposite(t) && SpineOf(t).leaf.composite.Some?
  }

  /** Opening a carrier leaves a carrier that nests in it. */
  lemma CarrierOpens(t: Ty)
    requires Parses(t) && t.Path?
    ensures Opened(t).Some? && Parses(Opened(t).value)
    ensures IsCompositeMacro(Opened(t).value)
         || (LastIdent(Opened(t).value).Some? && Nests(LastIdent(t).value, LastIdent(Opened(t).value).value)
             && Opened(Opened(t).value).Some?)
  {
    var inner := Opened(t).value;
    SpineOpen(t, inner);
    SpineHead(inner);
    WellNestedCons(LastIdent(t).value, SpineOf(inner).names);
  }

  lemma {:induction false} ListResolves(t: Ty)
    requires Parses(t) && LastIdent(t).Some? && IsList(LastIdent(t).value)
    ensures ResolveList(t).Ok?
    decreases t
  {
    CarrierOpens(t);
    var inner := Opened(t).value;
    if !IsCompositeMacro(inner) {
      OptionResolves(inner);
    }
  }

  lemma {:induction false} OptionResolves(t: Ty)
    requires Parses(t) && LastIdent(t) == Some("Option")
    ensures ResolveOption(t).Ok?
    decreases t
  {
    CarrierOpens(t);
    var inner := Opened(t).value;
    if !IsCompositeMacro(inner) {
      ListResolves(inner);
    }
  }

  /** Every type that carries a well-formed composite resolves without error. */
  lemma CarriersResolve(t: Ty)
    requires Parses(t)
    ensures ResolveComposite(t).Ok?
  {
    if t.Path? {
      CarrierOpens(t);
      var inner := Opened(t).value;
      if LastIdent(t) == Some("Option") {
        OptionResolves(t);
      } else if LastIdent(t) == Some("Result") {
        if LastIdent(inner) == Some("Option") {
          OptionResolves(inner);
        } else if !IsCompositeMacro(inner) {
          OpenedIdent(inner);
          ListResolves(inner);
        }
      } else {
        OpenedIdent(t);
        ListResolves(t);
      }
    }
  }

  lemma OpenedIdent(t: Ty)
    requires Opened(t).Some?
    ensures LastIdent(t).Some? && (LastIdent(t).value == "Option" || LastIdent(t).value == "Result" || IsList(LastIdent(t).value))
  {
  }

  // ----- flags

  /** The flags, as a function of the spine. */
  ghost function SpineFlags(s: Spine): Result<Flags> {
    if s.names == [] then ReadFlags(s.leaf) else
      var inner := if |s.names| >= 2 then Some(s.names[1]) else LastIdent(s.leaf);
      if s.names[0] == "Result" || s.names[0] == "Option" then
        if |s.names| == 1 && s.leaf.Path? && inner.None? then Err("No last segment found while scanning path")
        else if inner == Some("VariadicArray") then Ok(Flags(true, true, false))
        else if s.names[0] == "Option" then Ok(Flags(false, true, false))
        else if inner == Some("Option") then Ok(Flags(false, true, true))
        else if inner == Some("Nullable") || inner == Some("Internal") then Ok(Flags(false, true, false))
        else Ok(Flags(false, false, true))
      else Ok(Flags(s.names[0] == "VariadicArray", false, false))
  }

  lemma FlagsFromSpine(t: Ty)
    ensures ReadFlags(t) == SpineFlags(SpineOf(t))
  {
    var inner := Opened(t);
    if inner.Some? {
      SpineOpen(t, inner.value);
      SpineHead(inner.value);
    }
  }

  /** The variadic, optional and result flags are those of the type as written: resolving a
      composite does not change them. */
  lemma FlagsUnchanged(t: Ty)
    requires ResolveComposite(t).Ok?
    ensures ReadFlags(ResolveComposite(t).value.0) == ReadFlags(t)
  {
    var (u, c) := ResolveComposite(t).value;
    ResolveIsRight(t);
    FlagsFromSpine(t);
    FlagsFromSpine(u);
    if c.Some? {
      ExpandIdent(c.value);
    }
  }

  lemma ExpandIdent(c: Composite)
    ensures LastIdent(Expand(c)) == Some("PgHeapTuple")
  {
    var lifetime := if c.lifetime.Some? then c.lifetime.value else "'_";
    LastOfName(["pgrx", "heap_tuple", "PgHeapTuple"],
               Angle([OtherArg(lifetime), TypeArg(Name(["pgrx", "pgbox", "AllocatedByRust"], NoArgs))]));
  }

  /** The identifier of the first type argument of the last segment. */
  function InnerIdent(t: Ty): Option<string> {
    var last := LastSegment(t);
    if last.None? || FirstTypeArg(last.value).None? then None else LastIdent(FirstTypeArg(last.value).value)
  }

  /** The flags one by one, for the type as written. */
  ghost predicate FlagsSay(t: Ty, flags: Flags) {
    var ident, inner := LastIdent(t), InnerIdent(t);
    var wraps := ident == Some("Option") || ident == Some("Result");
    && (flags.variadic <==> ident == Some("VariadicArray") || (wraps && inner == Some("VariadicArray")))
    && (flags.optional <==>
          || ident == Some("Option") || ident == Some("Nullable") || ident == Some("Internal")
          || (ident == Some("Result") && inner in {Some("VariadicArray"), Some("Option"), Some("Nullable"), Some("Internal")}))
    && (flags.result <==> ident == Some("Result") && inner !in {Some("VariadicArray"), Some("Nullable"), Some("Internal")})
  }

  predicate Unreadable(t: Ty) {
    && t.Path?
    && if t.segments == [] then true else
         var last := t.segments[|t.segments| - 1];
         (last.ident == "Option" || last.ident == "Result") && (FirstTypeArg(last).None? || FirstTypeArg(last).value == Path([]))
  }

  /** Flags are read of every type but a path without segments, and an `Option` or `Result` whose first
      argument is no type or such a path. */
  lemma FlagsAre(t: Ty)
    ensures ReadFlags(t).Ok? ==> FlagsSay(t, ReadFlags(t).value)
    ensures ReadFlags(t).Err? <==> Unreadable(t)
  {
    if t.Path? && t.segments != [] {
      var arg := FirstTypeArg(t.segments[|t.segments| - 1]);
      assert arg.Some? && arg.value.Path? && LastSegment(arg.value).None? ==> arg.value == Path([]);
    }
  }

  /** The type below a `default!`. */
  function Written(t: Ty): Ty {
    if t.Macro? && t.name == "default" && t.inner.Some? then t.inner.value else t
  }

  /** What stands for a composite: `pgrx::heap_tuple::PgHeapTuple<'a, pgrx::pgbox::AllocatedByRust>`. */
  function HeapTuple(lifetime: string): Ty {
    Path([Segment("pgrx", NoArgs), Segment("heap_tuple", NoArgs),
          Segment("PgHeapTuple", Angle([OtherArg(lifetime), TypeArg(
            Path([Segment("pgrx", NoArgs), Segment("pgbox", NoArgs), Segment("AllocatedByRust", NoArgs)]))]))])
  }

  lemma ExpandIs(c: Composite)
    ensures Expand(c) == HeapTuple(if c.lifetime.Some? then c.lifetime.value else "'_")
  {
    var inner := Name(["pgrx", "pgbox", "AllocatedByRust"], NoArgs);
    assert inner.segments == [Segment("pgrx", NoArgs), Segment("pgbox", NoArgs), Segment("AllocatedByRust", NoArgs)];
    assert Expand(c).segments == HeapTuple(if c.lifetime.Some? then c.lifetime.value else "'_").segments;
  }

  /** `UsedType::new` as a whole, in terms of the type as written (below its `default!`). */
  lemma NewIsRight(t: Ty)
    requires New(t).Ok?
    ensures var used := New(t).value;
      && used.original == t
      && (t.Macro? && t.name == "default" ==> t.inner.Some?)
      && used.default == (if t.Macro? && t.name == "default" then t.value else None)
      && (used.composite.Some? <==> CarriesComposite(Written(t)))
      && (used.composite.Some? ==> SpineOf(Written(t)).leaf.composite == used.composite)
      && SpineOf(used.resolved).names == SpineOf(Written(t)).names
      && SpineOf(used.resolved).leaf == (match used.composite
           case Some(c) => HeapTuple(if c.lifetime.Some? then c.lifetime.value else "'_")
           case None => SpineOf(Written(t)).leaf)
      && Ok(used.flags) == ReadFlags(Written(t)) && FlagsSay(Written(t), used.flags)
  {
    ResolveIsRight(Written(t));
    FlagsUnchanged(Written(t));
    FlagsAre(Written(t));
    if New(t).value.composite.Some? {
      ExpandIs(New(t).value.composite.value);
    }
  }

  // ----- the carriers, written out

  datatype ListKind = VecList | VariadicList | ArrayList

  /** Containers around a `composite_type!`. */
  datatype Carrier = Bare | InOption(inner: Carrier) | InList(kind: ListKind, inner: Carrier) | InResult(inner: Carrier, error: Ty)

  function ListName(kind: ListKind): string {
    match kind
    case VecList => "Vec"
    case VariadicList => "VariadicArray"
    case ArrayList => "Array"
  }

  function Write(c: Carrier, m: Ty): Ty {
    match c
    case Bare => m
    case InOption(inner) => Path([Segment("Option", Angle([TypeArg(Write(inner, m))]))])
    case InList(kind, inner) => Path([Segment(ListName(kind), Angle([TypeArg(Write(inner, m))]))])
    case InResult(inner, error) => Path([Segment("Result", Angle([TypeArg(Write(inner, m)), TypeArg(error)]))])
  }

  /** Options and lists alternate; a `Result` is outermost. */
  predicate Alternates(c: Carrier) {
    match c
    case Bare => true
    case InOption(inner) => (inner.Bare? || inner.InList?) && Alternates(inner)
    case InList(_, inner) => (inner.Bare? || inner.InOption?) && Alternates(inner)
    case InResult(inner, _) => !inner.InResult? && Alternates(inner)
  }

  function HeadOf(c: Carrier): string
    requires !c.Bare?
  {
    match c
    case InOption(_) => "Option"
    case InList(kind, _) => ListName(kind)
    case InResult(_, _) => "Result"
  }

  lemma {:induction false} WriteSpine(c: Carrier, m: Ty)
    requires IsCompositeMacro(m)
    ensures SpineOf(Write(c, m)).leaf == m
    ensures c.Bare? <==> SpineOf(Write(c, m)).names == []
    ensures !c.Bare? ==> SpineOf(Write(c, m)).names[0] == HeadOf(c) && LastIdent(Write(c, m)) == Some(HeadOf(c))
    ensures WellNested(SpineOf(Write(c, m)).names) <==> Alternates(c)
  {
    if !c.Bare? {
      WriteSpine(c.inner, m);
      var t, inner := Write(c, m), Write(c.inner, m);
      assert LastSegment(t) == Some(t.segments[0]) && Opened(t) == Some(inner);
      SpineOpen(t, inner);
      WellNestedCons(HeadOf(c), SpineOf(inner).names);
    }
  }

  /** A composite is found inside containers of any depth if and only if they alternate. */
  lemma CarrierFoundIff(c: Carrier, m: Ty, composite: Composite)
    requires m.Macro? && m.name == "composite_type" && m.composite == Some(composite)
    ensures var r := ResolveComposite(Write(c, m));
      r.Ok? && r.value.1 == Some(composite) <==> Alternates(c)
  {
    WriteSpine(c, m);
    ResolveIsRight(Write(c, m));
    if Alternates(c) {
      CarriersResolve(Write(c, m));
    }
  }

  /** What a carrier becomes: the heap tuple in the same containers. */
  function Rewritten(c: Carrier, tuple: Ty): Ty {
    match c
    case Bare => tuple
    case InOption(inner) =>
      var option := Segment("Option", Angle([TypeArg(Rewritten(inner, tuple))]));
      if inner.Bare? then Path([option]) else Path([Segment("std", NoArgs), Segment("option", NoArgs), option])
    case InList(VecList, inner) => Path([Segment("Vec", Angle([TypeArg(Rewritten(inner, tuple))]))])
    case InList(kind, inner) =>
      Path([Segment("pgrx", NoArgs), Segment("datum", NoArgs),
            Segment(ListName(kind), Angle([OtherArg("'_"), TypeArg(Rewritten(inner, tuple))]))])
    case InResult(inner, error) => Path([Segment("Result", Angle([TypeArg(Rewritten(inner, tuple)), TypeArg(error)]))])
  }

  lemma NameOf3(a: string, b: string, c: string, args: Args)
    ensures Name([a, b, c], args) == Path([Segment(a, NoArgs), Segment(b, NoArgs), Segment(c, args)])
  {
    assert Name([a, b, c], args).segments == [Segment(a, NoArgs), Segment(b, NoArgs), Segment(c, args)];
  }

  lemma NameOf1(a: string, args: Args)
    ensures Name([a], args) == Path([Segment(a, args)])
  {
    assert Name([a], args).segments == [Segment(a, args)];
  }

  lemma {:induction false} OptionRewritten(c: Carrier, m: Ty, comp: Composite)
    requires c.InOption? && Alternates(c) && IsCompositeMacro(m) && m.composite == Some(comp)
    ensures ResolveOption(Write(c, m)) == Ok((Rewritten(c, Expand(comp)), Some(comp)))
    decreases c
  {
    var args := Angle([TypeArg(Rewritten(c.inner, Expand(comp)))]);
    NameOf1("Option", args);
    NameOf3("std", "option", "Option", args);
    if !c.inner.Bare? {
      ListRewritten(c.inner, m, comp);
    }
  }

  lemma {:induction false} ListRewritten(c: Carrier, m: Ty, comp: Composite)
    requires c.InList? && Alternates(c) && IsCompositeMacro(m) && m.composite == Some(comp)
    ensures ResolveList(Write(c, m)) == Ok((Rewritten(c, Expand(comp)), Some(comp)))
    decreases c
  {
    var inner := Rewritten(c.inner, Expand(comp));
    NameOf1("Vec", Angle([TypeArg(inner)]));
    NameOf3("pgrx", "datum", ListName(c.kind), Angle([OtherArg("'_"), TypeArg(inner)]));
    if !c.inner.Bare? {
      OptionRewritten(c.inner, m, comp);
    }
  }

  /** The outermost container picks the resolver. */
  lemma Dispatch(c: Carrier, m: Ty)
    ensures c.InOption? ==> ResolveComposite(Write(c, m)) == ResolveOption(Write(c, m))
    ensures c.InList? ==> ResolveComposite(Write(c, m)) == ResolveList(Write(c, m))
    ensures c.InResult? ==> ResolveComposite(Write(c, m)) == ResolveResult(Write(c, m))
  {
    if !c.Bare? {
      assert LastIdent(Write(c, m)) == Some(HeadOf(c));
    }
  }

  /** Resolution puts the heap tuple in the place of the composite and keeps the containers, lists and
      options under full paths and the error type of a `Result` as it was. */
  lemma CarrierRewritten(c: Carrier, m: Ty, comp: Composite)
    requires m.Macro? && m.name == "composite_type" && m.composite == Some(comp) && Alternates(c)
    ensures var tuple := HeapTuple(if comp.lifetime.Some? then comp.lifetime.value else "'_");
      ResolveComposite(Write(c, m)) == Ok((Rewritten(c, tuple), Some(comp)))
  {
    ExpandIs(comp);
    Dispatch(c, m);
    match c {
      case Bare =>
      case InOption(_) => OptionRewritten(c, m, comp);
      case InList(_, _) => ListRewritten(c, m, comp);
      case InResult(inner, _) =>
        if inner.InOption? {
          OptionRewritten(inner, m, comp);
        } else if inner.InList? {
          ListRewritten(inner, m, comp);
        }
        ResultRewritten(inner, c.error, m, comp);
    }
  }

  lemma ResultRewritten(inner: Carrier, error: Ty, m: Ty, comp: Composite)
    requires !inner.InResult? && IsCompositeMacro(m) && m.composite == Some(comp)
    requires inner.InOption? ==> ResolveOption(Write(inner, m)) == Ok((Rewritten(inner, Expand(comp)), Some(comp)))
    requires inner.InList? ==> ResolveList(Write(inner, m)) == Ok((Rewritten(inner, Expand(comp)), Some(comp)))
    ensures ResolveResult(Write(InResult(inner, error), m)) == Ok((Rewritten(InResult(inner, error), Expand(comp)), Some(comp)))
  {
    RebuiltIs(Write(inner, m), error, Rewritten(inner, Expand(comp)));
    if !inner.Bare? {
      WriteSpine(inner, m);
    }
  }

  lemma RebuiltIs(before: Ty, error: Ty, ok: Ty)
    ensures RebuildResult(Path([Segment("Result", Angle([TypeArg(before), TypeArg(error)]))]), ok)
         == Path([Segment("Result", Angle([TypeArg(ok), TypeArg(error)]))])
  {
    var t := Path([Segment("Result", Angle([TypeArg(before), TypeArg(error)]))]);
    assert t.segments[..0] == [] && [TypeArg(ok)] + [TypeArg(error)] == [TypeArg(ok), TypeArg(error)];
    assert RebuildResult(t, ok).segments == [Segment("Result", Angle([TypeArg(ok), TypeArg(error)]))];
  }

  /** A `default!`, or a `composite_type!` that does not parse. */
  predicate BadMacro(m: Ty) {
    m.Macro? && (m.name == "default" || (m.name == "composite_type" && m.composite.None?))
  }

  lemma {:induction false} BadInside(c: Carrier, m: Ty)
    requires Alternates(c) && BadMacro(m)
    ensures c.InOption? ==> ResolveOption(Write(c, m)).Err?
    ensures c.InList? ==> ResolveList(Write(c, m)).Err?
    decreases c
  {
    if !c.Bare? {
      BadInside(c.inner, m);
    }
  }

  /** In the place of a composite, such a macro is an error. */
  lemma BadMacroRejected(c: Carrier, m: Ty)
    requires Alternates(c) && BadMacro(m)
    ensures ResolveComposite(Write(c, m)).Err?
  {
    BadInside(c, m);
    Dispatch(c, m);
    if c.InResult? {
      BadInside(c.inner, m);
      BadInResult(c.inner, c.error, m);
    }
  }

  lemma BadInResult(inner: Carrier, error: Ty, m: Ty)
    requires !inner.InResult? && BadMacro(m)
    requires inner.InOption? ==> ResolveOption(Write(inner, m)).Err?
    requires inner.InList? ==> ResolveList(Write(inner, m)).Err?
    ensures ResolveResult(Write(InResult(inner, error), m)).Err?
  {
    var t, arg := Write(InResult(inner, error), m), Write(inner, m);
    assert LastSegment(t) == Some(t.segments[0]) && FirstTypeArg(t.segments[0]) == Some(arg);
    if !inner.Bare? {
      assert LastSegment(arg) == Some(arg.segments[0]) && arg.segments[0].ident == HeadOf(inner);
    }
  }

  // ----- the success type of a Result

  /** A path written without turbofish-like arguments before its last segment. */
  predicate PlainPath(t: Ty) {
    t.Path? && t.segments != [] && forall i :: 0 <= i < |t.segments| - 1 ==> t.segments[i].args.NoArgs?
  }

  lemma ResultPath(t: Ty, flags: Flags)
    requires ReadFlags(t) == Ok(flags) && flags.result
    ensures t.Path? && t.segments != [] && LastIdent(t) == Some("Result") && Opened(t).Some?
  {
  }

  /** Resolving a composite inside a `Result` changes nothing before the last segment. */
  lemma ResultFront(w: Ty)
    requires w.Path? && w.segments != [] && LastIdent(w) == Some("Result") && ResolveComposite(w).Ok?
    ensures var u := ResolveComposite(w).value.0;
      u.Path? && |u.segments| == |w.segments| && forall i :: 0 <= i < |w.segments| - 1 ==> u.segments[i] == w.segments[i]
  {
  }

  /** The success type of a `Result` is meant to be recorded, composites inside it resolved. For the
      type as written, it is if the path has one segment. For a longer path the first argument of
      the first segment is recorded in its place, so without such an argument nothing is. */
  lemma InnerFoundIff(t: Ty)
    requires New(t).Ok? && New(t).value.flags.result
    ensures var w, used := Written(t), New(t).value;
      && w.Path? && w.segments != [] && Opened(w).Some? && Opened(used.resolved).Some?
      && (|w.segments| == 1 ==> used.resolvedInner == Opened(used.resolved))
      && (|w.segments| > 1 ==> used.resolvedInner == FirstTypeArg(w.segments[0]))
      && (PlainPath(w) ==> (used.resolvedInner == Opened(used.resolved) <==> |w.segments| == 1))
  {
    var w, used := Written(t), New(t).value;
    FlagsUnchanged(w);
    ResultPath(w, used.flags);
    ResultPath(used.resolved, used.flags);
    ResultFront(w);
    assert used.resolvedInner == FirstTypeArg(used.resolved.segments[0]);
    assert PlainPath(w) && |w.segments| > 1 ==> w.segments[0].args.NoArgs?;
  }

  /** The failing case, spelled out: `std::result::Result<i32, E>`. */
  lemma QualifiedResultLosesInner()
    ensures var ty := Name(["i32"], NoArgs);
            var t := Name(["std", "result", "Result"], Angle([TypeArg(ty), TypeArg(Name(["E"], NoArgs))]));
      New(t).Ok? && New(t).value.flags.result && Opened(t) == Some(ty) && New(t).value.resolvedInner == None
  {
    var ty := Name(["i32"], NoArgs);
    var args := Angle([TypeArg(ty), TypeArg(Name(["E"], NoArgs))]);
    LastOfName(["std", "result", "Result"], args);
    LastOfName(["i32"], NoArgs);
  }
}

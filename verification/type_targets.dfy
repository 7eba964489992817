/** Which graph node a type identifier stands for: the lookup used by both phases of the build
    (`find_graph_type_target`) and the check that makes it unambiguous
    (`ensure_unique_type_targets`). */
module TypeTargets {
  import opened Sequences
  import opened Entities
  import opened Wrappers

  /** The three maps that lookups search, one entry per distinct entity. */
  datatype TypeMaps = TypeMaps(types: Mapped, enums: Mapped, sqls: Mapped) {
    ghost predicate Valid() {
      && (forall e :: e in types ==> e.Type?)
      && (forall e :: e in enums ==> e.Enum?)
      && (forall e :: e in sqls ==> e.CustomSql?)
    }
  }

  /** A place that declares a type identifier: a type, an enum, or the `k`-th entry of what an
      `extension_sql!` block creates. */
  datatype Place = InType(e: Entity) | InEnum(e: Entity) | InSql(e: Entity, k: nat)

  ghost predicate IsPlace(m: TypeMaps, p: Place, ident: string) {
    match p
    case InType(e) => e in m.types && e.Type? && e.typeIdent == ident
    case InEnum(e) => e in m.enums && e.Enum? && e.typeIdent == ident
    case InSql(e, k) => e in m.sqls && e.CustomSql? && k < |e.creates| && e.creates[k].TypeIdent() == Some(ident)
  }

  /** The node a place belongs to. */
  ghost function NodeOf(m: TypeMaps, p: Place): nat {
    match p
    case InType(e) => if e in m.types then m.types[e] else 0
    case InEnum(e) => if e in m.enums then m.enums[e] else 0
    case InSql(e, _) => if e in m.sqls then m.sqls[e] else 0
  }

  /** No identifier is declared in two places. */
  ghost predicate Unambiguous(m: TypeMaps) {
    forall p, q, ident :: IsPlace(m, p, ident) && IsPlace(m, q, ident) ==> p == q
  }

  // ----- lookup

  ghost predicate Resolves(m: TypeMaps, ident: string) {
    exists p :: IsPlace(m, p, ident)
  }

  /** `n` is the node of some place that declares `ident`. */
  ghost predicate IsTarget(m: TypeMaps, ident: string, n: nat) {
    exists p :: IsPlace(m, p, ident) && NodeOf(m, p) == n
  }

  lemma TargetUnique(m: TypeMaps, ident: string, n1: nat, n2: nat)
    requires Unambiguous(m) && IsTarget(m, ident, n1) && IsTarget(m, ident, n2)
    ensures n1 == n2
  {
  }

  /** Find some key of a hash map that satisfies a test; the map is walked in any order. */
  method FindTyped(mapped: Mapped, ident: string) returns (r: Option<Entity>)
    ensures r.Some? ==> r.value in mapped && (r.value.Type? || r.value.Enum?) && r.value.typeIdent == ident
    ensures r.None? ==> forall e :: e in mapped && (e.Type? || e.Enum?) ==> e.typeIdent != ident
  {
    var keys := mapped.Keys;
    while keys != {}
      invariant keys <= mapped.Keys
      invariant forall e :: e in mapped && e !in keys && (e.Type? || e.Enum?) ==> e.typeIdent != ident
      decreases keys
    {
      var e :| e in keys;
      if (e.Type? || e.Enum?) && e.typeIdent == ident {
        return Some(e);
      }
      keys := keys - {e};
    }
    r := None;
  }

  /** `find_declared_type_or_enum`. */
  method FindDeclared(sqls: Mapped, ident: string) returns (r: Option<Entity>)
    ensures r.Some? ==> r.value in sqls && r.value.CustomSql? && r.value.TypeIdentMatches(ident)
    ensures r.None? ==> forall e :: e in sqls && e.CustomSql? ==> !e.TypeIdentMatches(ident)
  {
    var keys := sqls.Keys;
    while keys != {}
      invariant keys <= sqls.Keys
      invariant forall e :: e in sqls && e !in keys && e.CustomSql? ==> !e.TypeIdentMatches(ident)
      decreases keys
    {
      var e :| e in keys;
      if e.CustomSql? && e.TypeIdentMatches(ident) {
        return Some(e);
      }
      keys := keys - {e};
    }
    r := None;
  }

  /** `find_graph_type_target`: types and enums first, then `extension_sql!` blocks. It finds a
      target exactly when there is one, whatever order the maps are walked in. */
  method FindGraphTypeTarget(m: TypeMaps, ident: string) returns (r: Option<nat>)
    requires m.Valid()
    ensures r.Some? <==> Resolves(m, ident)
    ensures r.Some? ==> IsTarget(m, ident, r.value)
  {
    var t := FindTyped(m.types, ident);
    if t.Some? {
      assert IsPlace(m, InType(t.value), ident);
      return Some(m.types[t.value]);
    }
    t := FindTyped(m.enums, ident);
    if t.Some? {
      assert IsPlace(m, InEnum(t.value), ident);
      return Some(m.enums[t.value]);
    }
    t := FindDeclared(m.sqls, ident);
    if t.Some? {
      ghost var k: nat :| k < |t.value.creates| && t.value.creates[k].TypeIdent() == Some(ident);
      assert IsPlace(m, InSql(t.value, k), ident);
      return Some(m.sqls[t.value]);
    }
    r := None;
  }

  // ----- uniqueness

  /** The identifiers seen so far, each with the places that declare it. */
  type Seen = map<string, seq<Place>>

  /** `seen` lists, for each identifier, the places in `done` that declare it, each once. */
  ghost predicate SeenIs(m: TypeMaps, done: set<Place>, seen: Seen) {
    && (forall ident, p :: IsPlace(m, p, ident) && p in done ==> ident in seen && p in seen[ident])
    && (forall ident :: ident in seen ==>
          (forall p :: p in seen[ident] ==> p in done && IsPlace(m, p, ident)) && Distinct(seen[ident]))
  }

  /** `seen.entry(ident).or_default().push(place)`. */
  function Push(seen: Seen, ident: string, p: Place): Seen {
    seen[ident := (if ident in seen then seen[ident] else []) + [p]]
  }

  lemma PushSeen(m: TypeMaps, done: set<Place>, seen: Seen, ident: string, p: Place)
    requires SeenIs(m, done, seen) && IsPlace(m, p, ident) && p !in done
    ensures SeenIs(m, done + {p}, Push(seen, ident, p))
  {
    var seen' := Push(seen, ident, p);
    forall i, q | IsPlace(m, q, i) && q in done + {p} ensures i in seen' && q in seen'[i] {
      if q == p {
        assert i == ident;
      }
    }
    forall i | i in seen'
      ensures (forall q :: q in seen'[i] ==> q in done + {p} && IsPlace(m, q, i)) && Distinct(seen'[i])
    {
      if i == ident && ident in seen {
        assert p !in seen[ident];
      }
    }
  }

  method PushTyped(m: TypeMaps, mapped: Mapped, inTypes: bool, ghost done0: set<Place>, seen0: Seen)
    returns (seen: Seen, ghost done: set<Place>)
    requires m.Valid() && mapped == (if inTypes then m.types else m.enums)
    requires SeenIs(m, done0, seen0) && forall e :: PlaceOf(inTypes, e) !in done0
    ensures SeenIs(m, done, seen)
    ensures forall p :: p in done <==> p in done0 || (exists e :: e in mapped && p == PlaceOf(inTypes, e))
  {
    seen, done := seen0, done0;
    var keys := mapped.Keys;
    while keys != {}
      invariant keys <= mapped.Keys
      invariant SeenIs(m, done, seen)
      invariant forall p :: p in done <==> p in done0 || (exists e :: e in mapped && e !in keys && p == PlaceOf(inTypes, e))
      decreases keys
    {
      var e :| e in keys;
      keys := keys - {e};
      PushSeen(m, done, seen, e.typeIdent, PlaceOf(inTypes, e));
      seen := Push(seen, e.typeIdent, PlaceOf(inTypes, e));
      done := done + {PlaceOf(inTypes, e)};
    }
  }

  function PlaceOf(inTypes: bool, e: Entity): Place {
    if inTypes then InType(e) else InEnum(e)
  }

  /** The inner loop over what one block creates. */
  method PushCreates(m: TypeMaps, e: Entity, ghost done0: set<Place>, seen0: Seen)
    returns (seen: Seen, ghost done: set<Place>)
    requires e in m.sqls && e.CustomSql?
    requires SeenIs(m, done0, seen0) && forall k: nat :: InSql(e, k) !in done0
    ensures SeenIs(m, done, seen)
    ensures done0 <= done && forall k: nat, ident :: IsPlace(m, InSql(e, k), ident) ==> InSql(e, k) in done
    ensures forall p :: p in done && p !in done0 ==> p.InSql? && p.e == e
  {
    seen, done := seen0, done0;
    for k := 0 to |e.creates|
      invariant SeenIs(m, done, seen)
      invariant done0 <= done
      invariant forall j: nat, ident :: j < k && IsPlace(m, InSql(e, j), ident) ==> InSql(e, j) in done
      invariant forall p :: p in done && p !in done0 ==> p.InSql? && p.e == e && p.k < k
    {
      var ident := e.creates[k].TypeIdent();
      if ident.Some? {
        assert InSql(e, k) !in done;
        PushSeen(m, done, seen, ident.value, InSql(e, k));
        seen := Push(seen, ident.value, InSql(e, k));
        done := done + {InSql(e, k)};
      }
    }
  }

  method PushDeclared(m: TypeMaps, ghost done0: set<Place>, seen0: Seen) returns (seen: Seen, ghost done: set<Place>)
    requires m.Valid()
    requires SeenIs(m, done0, seen0) && forall p :: p in done0 ==> !p.InSql?
    ensures SeenIs(m, done, seen) && done0 <= done
    ensures forall e, k: nat, ident :: IsPlace(m, InSql(e, k), ident) ==> InSql(e, k) in done
  {
    seen, done := seen0, done0;
    var keys := m.sqls.Keys;
    while keys != {}
      invariant keys <= m.sqls.Keys && SeenIs(m, done, seen) && done0 <= done
      invariant forall p :: p in done && p.InSql? ==> p.e !in keys
      invariant forall e, k: nat, ident :: e !in keys && IsPlace(m, InSql(e, k), ident) ==> InSql(e, k) in done
      decreases keys
    {
      var e :| e in keys;
      keys := keys - {e};
      ghost var before := done;
      seen, done := PushCreates(m, e, done, seen);
      forall f, k: nat, ident | f !in keys && IsPlace(m, InSql(f, k), ident) ensures InSql(f, k) in done {
        if f != e {
          assert InSql(f, k) in before;
        }
      }
    }
  }

  /** Whether some identifier has more than one place. */
  method AnyTwice(seen: Seen) returns (twice: bool)
    ensures twice <==> exists ident :: ident in seen && |seen[ident]| > 1
  {
    var keys := seen.Keys;
    while keys != {}
      invariant keys <= seen.Keys
      invariant forall ident :: ident in seen && ident !in keys ==> |seen[ident]| <= 1
      decreases keys
    {
      var ident :| ident in keys;
      if |seen[ident]| > 1 {
        return true;
      }
      keys := keys - {ident};
    }
    twice := false;
  }

  lemma TwiceIffAmbiguous(m: TypeMaps, done: set<Place>, seen: Seen)
    requires SeenIs(m, done, seen) && forall p, ident :: IsPlace(m, p, ident) ==> p in done
    ensures (exists ident :: ident in seen && |seen[ident]| > 1) <==> !Unambiguous(m)
  {
    if ident :| ident in seen && |seen[ident]| > 1 {
      var p, q := seen[ident][0], seen[ident][1];
      assert p in seen[ident] && q in seen[ident] && p != q;
      assert IsPlace(m, p, ident) && IsPlace(m, q, ident);
    }
    if p, q, ident :| IsPlace(m, p, ident) && IsPlace(m, q, ident) && p != q {
      assert p in seen[ident] && q in seen[ident];
      var i :| 0 <= i < |seen[ident]| && seen[ident][i] == p;
      var j :| 0 <= j < |seen[ident]| && seen[ident][j] == q;
      assert ident in seen && |seen[ident]| > 1;
    }
  }

  /** `ensure_unique_type_targets` succeeds exactly when no type identifier is declared in two
      places. */
  method EnsureUniqueTypeTargets(m: TypeMaps) returns (ok: bool)
    requires m.Valid()
    ensures ok <==> Unambiguous(m)
  {
    var seen: Seen := map[];
    ghost var done: set<Place> := {};
    seen, done := PushTyped(m, m.types, true, done, seen);
    ghost var typesDone := done;
    seen, done := PushTyped(m, m.enums, false, done, seen);
    ghost var enumsDone := done;
    assert forall p :: p in enumsDone ==> !p.InSql?;
    seen, done := PushDeclared(m, done, seen);
    forall p, ident | IsPlace(m, p, ident) ensures p in done {
      match p {
        case InType(e) => assert p == PlaceOf(true, e) && p in typesDone;
        case InEnum(e) => assert p == PlaceOf(false, e) && p in enumsDone;
        case InSql(_, _) =>
      }
    }
    TwiceIffAmbiguous(m, done, seen);
    var twice := AnyTwice(seen);
    ok := !twice;
  }
}

/** From generated bindings to run-time casts: `impl_pg_node` fills the cast tables, and
    `PgNode::try_cast` reads them. A cast succeeds exactly when the memory layout allows it. */
module NodeCasts {
  import opened Walks
  import opened Sequences
  import opened TypeGraph
  import opened NodeTags
  import opened Wrappers

  /** The graph `TypeGraph::from` builds is a function of the items. */
  ghost function GraphOf(items: seq<Item>): Graph {
    var decls := Decls(items);
    var tab := NameTab(decls);
    var links := Links(decls, tab);
    Graph(tab, seq(|decls|, (d: nat) requires d < |decls| => Descriptor(decls[d], ParentIn(links, d), ChildrenIn(links, d))))
  }

  lemma GraphOfUnique(items: seq<Item>, g: Graph)
    requires IsGraphOf(items, g)
    ensures g == GraphOf(items)
  {
    assert g.descriptors == GraphOf(items).descriptors;
  }

  /** Bindings as the Rust compiler accepts them: unique type names, no type containing
      itself by value, and `NodeTag` an enum rather than a struct or union. */
  ghost predicate Bindings(items: seq<Item>) {
    && WellFormed(items, GraphOf(items))
    && (forall d :: Declared(d) in items ==> d.name != "NodeTag")
  }

  /** Where node detection starts: a struct that begins with a `NodeTag`, or a union with a
      `Node` member. */
  predicate IsNode(decl: Decl) {
    match decl
    case Struct(_, _) => decl.FirstField() == Some("NodeTag")
    case Union(_, fields) => Some("Node") in fields
  }

  /** The families of those members of `s` at which detection starts. */
  ghost function NodesFrom(g: Graph, s: set<nat>): set<nat> {
    set d, x | d in s && d < |g.descriptors| && IsNode(g.descriptors[d].decl) && x in Family(g, d) :: x
  }

  ghost function AllDescriptors(g: Graph): set<nat> {
    Elements(seq(|g.descriptors|, (d: nat) => d))
  }

  /** Every identified node type with its cast tags. */
  ghost function CastTable(items: seq<Item>): map<string, set<string>> {
    var g := GraphOf(items);
    map n | n in Names(g, NodesFrom(g, AllDescriptors(g))) && n in g.nameTab :: FamilyTags(items, g, g.nameTab[n])
  }

  const VALUE_TAGS: set<string> := {"T_Integer", "T_Float", "T_String", "T_BitString", "T_Null"}

  /** Before pg15 the `Value` struct also answers to the tags of `nodes/value.c`. */
  function WithValueTags(major: nat, table: map<string, set<string>>): map<string, set<string>> {
    if (major == 13 || major == 14) && "Value" in table
    then table["Value" := table["Value"] + VALUE_TAGS]
    else table
  }

  lemma NodesFromStep(g: Graph, s: set<nat>, d: nat)
    requires d < |g.descriptors|
    ensures Names(g, NodesFrom(g, s + {d}))
         == Names(g, NodesFrom(g, s)) + (if IsNode(g.descriptors[d].decl) then Names(g, Family(g, d)) else {})
  {
    forall x ensures x in NodesFrom(g, s + {d}) <==>
      x in NodesFrom(g, s) || (IsNode(g.descriptors[d].decl) && x in Family(g, d))
    {
    }
  }

  lemma TableFromMemo(items: seq<Item>, memo: map<string, set<string>>)
    requires WellFormed(items, GraphOf(items)) && MemoOk(items, GraphOf(items), memo)
    requires memo.Keys == Names(GraphOf(items), NodesFrom(GraphOf(items), AllDescriptors(GraphOf(items))))
    ensures memo == CastTable(items)
  {
    assert memo.Keys == CastTable(items).Keys;
  }

  /** One turn of the loop over descriptors. */
  method Visit(resolver: TagResolver, d: nat, ghost seen: set<nat>)
    requires resolver.Valid() && d < |resolver.g.descriptors|
    requires resolver.identified.Keys == Names(resolver.g, NodesFrom(resolver.g, seen))
    modifies resolver
    ensures resolver.Valid()
    ensures resolver.identified.Keys == Names(resolver.g, NodesFrom(resolver.g, seen + {d}))
  {
    NodesFromStep(resolver.g, seen, d);
    if IsNode(resolver.g.descriptors[d].decl) {
      var _ := resolver.Resolve(d);
    }
  }

  /** The loop over descriptors, in any order. */
  method VisitAll(resolver: TagResolver, order: seq<nat>)
    requires resolver.Valid() && resolver.identified == map[]
    requires Elements(order) == AllDescriptors(resolver.g)
    modifies resolver
    ensures resolver.Valid()
    ensures resolver.identified.Keys == Names(resolver.g, NodesFrom(resolver.g, AllDescriptors(resolver.g)))
  {
    ghost var seen: set<nat> := {};
    assert NodesFrom(resolver.g, seen) == {};
    for i := 0 to |order|
      invariant resolver.Valid() && seen == Elements(order[..i])
      invariant resolver.identified.Keys == Names(resolver.g, NodesFrom(resolver.g, seen))
    {
      assert order[i] in Elements(order);
      InAll(resolver.g, order[i]);
      Visit(resolver, order[i], seen);
      assert Elements(order[..i + 1]) == Elements(order[..i]) + {order[i]};
      seen := seen + {order[i]};
    }
    assert order[..|order|] == order;
  }

  /** Whatever order the descriptors are visited in, the memo ends as the same table. */
  method IdentifyAll(items: seq<Item>, order: seq<nat>) returns (table: map<string, set<string>>)
    requires Bindings(items)
    requires Elements(order) == AllDescriptors(GraphOf(items))
    ensures table == CastTable(items)
  {
    var g := FromItems(items);
    GraphOfUnique(items, g);
    var nodeTags, aliasTags := CollectTags(items, g.nameTab);
    var resolver := new TagResolver(items, g, nodeTags, aliasTags);
    VisitAll(resolver, order);
    TableFromMemo(items, resolver.identified);
    table := resolver.identified;
  }

  predicate ValueTag(tag: string) {
    tag == "T_Integer" || tag == "T_Float" || tag == "T_String" || tag == "T_BitString" || tag == "T_Null"
  }

  /** On pg13 and pg14 casts to `Value` accept five more tags, and nothing else differs. */
  ghost predicate Widened(major: nat, base: map<string, set<string>>, table: map<string, set<string>>) {
    && table.Keys == base.Keys
    && forall a, node :: a in base ==> (TryCast(table, a, node).Some? <==>
         || TryCast(base, a, node).Some?
         || ((major == 13 || major == 14) && a == "Value" && ValueTag(node.tag)))
  }

  lemma ValueOverride(major: nat, base: map<string, set<string>>)
    ensures Widened(major, base, WithValueTags(major, base))
  {
  }

  /** `impl_pg_node`: the cast tables, in which the pg13/pg14 override widens casts to `Value` by
      five tags and leaves every other cast alone. */
  method ImplPgNode(major: nat, items: seq<Item>, order: seq<nat>) returns (table: map<string, set<string>>)
    requires Bindings(items)
    requires Elements(order) == AllDescriptors(GraphOf(items))
    ensures table == WithValueTags(major, CastTable(items)) && Widened(major, CastTable(items), table)
  {
    table := IdentifyAll(items, order);
    ValueOverride(major, table);
    if (major == 13 || major == 14) && "Value" in table {
      table := table["Value" := table["Value"] + VALUE_TAGS];
    }
  }

  lemma InAll(g: Graph, d: nat)
    ensures d in AllDescriptors(g) <==> d < |g.descriptors|
  {
    var all := seq(|g.descriptors|, (d: nat) => d);
    if d < |g.descriptors| {
      assert all[d] == d;
    }
  }

  // ----- run-time casts

  /** A reference to a node: where it is, and the tag stored there. */
  datatype NodeRef = NodeRef(addr: nat, tag: string)

  /** Every node starts with its tag, so viewing it as a `Node` changes nothing. */
  function AsNode(node: NodeRef): NodeRef {
    node
  }

  /** `T::try_cast(node)`; `Node` overrides it and never fails. */
  function TryCast(table: map<string, set<string>>, target: string, node: NodeRef): Option<NodeRef>
    requires target in table
  {
    if target == "Node" then Some(AsNode(node))
    else if node.tag in table[target] then Some(node)
    else None
  }

  ghost predicate IsStruct(items: seq<Item>, name: string) {
    exists d :: d in Decls(items) && d.Struct? && d.name == name
  }

  lemma StructIndex(items: seq<Item>, name: string) returns (d: nat)
    requires UniqueNames(Decls(items)) && IsStruct(items, name)
    ensures d < |Decls(items)| && Decls(items)[d].Struct? && Decls(items)[d].name == name
    ensures name in NameTab(Decls(items)) && NameTab(Decls(items))[name] == d
  {
    var decls := Decls(items);
    var s :| s in decls && s.Struct? && s.name == name;
    d :| 0 <= d < |decls| && decls[d] == s;
    TabInverse(decls, d);
  }

  /** Everything below a struct is a struct. */
  lemma FamilyOfStruct(items: seq<Item>, g: Graph, a: nat, x: nat)
    requires WellFormed(items, g) && a < |g.descriptors| && g.descriptors[a].decl.Struct?
    requires x in Family(g, a)
    ensures g.descriptors[x].decl.Struct?
  {
    if x != a {
      var p := ReachLastStep(Inherits(g), a, x);
      StructChildren(items, g, p, x);
    }
  }

  /** The tag is a variant of the `NodeTag` enum and is named after the type `d` or an alias of it. */
  ghost predicate TagOf(items: seq<Item>, d: string, tag: string) {
    && (exists variants :: Enum("NodeTag", variants) in items && tag in variants)
    && (tag == "T_" + d || exists alias :: Alias(alias, Some(d)) in items && tag == "T_" + alias)
  }

  lemma {:induction false} VariantIs(items: seq<Item>, tag: string)
    ensures tag in Variants(items) <==> exists variants :: Enum("NodeTag", variants) in items && tag in variants
  {
    if items != [] {
      var last := items[|items| - 1];
      VariantIs(items[..|items| - 1], tag);
      assert items == items[..|items| - 1] + [last];
    }
  }

  lemma OwnTagIs(items: seq<Item>, d: string, tag: string)
    requires d in NameTab(Decls(items))
    ensures tag in OwnTags(items, d) <==> TagOf(items, d, tag)
  {
    VariantIs(items, tag);
    AliasTagsOf(items, NameTab(Decls(items)), d, tag);
  }

  /** Soundness and completeness: a node can be cast to the struct type `a` exactly when its
      tag belongs to a struct type that has an `a` at offset zero. */
  lemma CastIffLayout(items: seq<Item>, a: string, node: NodeRef)
    requires Bindings(items)
    requires a in CastTable(items) && a != "Node" && IsStruct(items, a)
    ensures TryCast(CastTable(items), a, node).Some? <==>
      exists d :: IsStruct(items, d) && TagOf(items, d, node.tag) && StartsWith(Decls(items), d, a)
  {
    var i := StructIndex(items, a);
    if node.tag in FamilyTags(items, GraphOf(items), i) {
      TagToStruct(items, a, i, node.tag);
    }
    if d :| IsStruct(items, d) && TagOf(items, d, node.tag) && StartsWith(Decls(items), d, a) {
      StructToTag(items, a, i, d, node.tag);
    }
  }

  ghost predicate IsStructAt(items: seq<Item>, a: string, i: nat) {
    i < |Decls(items)| && Decls(items)[i].Struct? && Decls(items)[i].name == a
  }

  lemma TagToStruct(items: seq<Item>, a: string, i: nat, tag: string)
    requires Bindings(items) && IsStructAt(items, a, i) && tag in FamilyTags(items, GraphOf(items), i)
    ensures exists d :: IsStruct(items, d) && TagOf(items, d, tag) && StartsWith(Decls(items), d, a)
  {
    var g := GraphOf(items);
    var x :| x in Family(g, i) && tag in OwnTags(items, g.descriptors[x].decl.name);
    TabInverse(Decls(items), x);
    OwnTagIs(items, Decls(items)[x].name, tag);
    FamilyOfStruct(items, g, i, x);
    InheritsIffStartsWith(items, g, i, x);
    assert Decls(items)[x] in Decls(items);
    assert IsStruct(items, Decls(items)[x].name);
  }

  lemma StructToTag(items: seq<Item>, a: string, i: nat, d: string, tag: string)
    requires Bindings(items) && IsStructAt(items, a, i)
    requires IsStruct(items, d) && TagOf(items, d, tag) && StartsWith(Decls(items), d, a)
    ensures tag in FamilyTags(items, GraphOf(items), i)
  {
    var g := GraphOf(items);
    var x := StructIndex(items, d);
    OwnTagIs(items, d, tag);
    InheritsIffStartsWith(items, g, i, x);
    assert x in Family(g, i);
  }

  /** A union accepts its own tag and its aliases' tags only. */
  lemma CastToUnion(items: seq<Item>, u: nat, node: NodeRef)
    requires Bindings(items) && u < |Decls(items)| && Decls(items)[u].Union?
    requires Decls(items)[u].name in CastTable(items) && Decls(items)[u].name != "Node"
    ensures TryCast(CastTable(items), Decls(items)[u].name, node).Some? <==>
            TagOf(items, Decls(items)[u].name, node.tag)
  {
    var g := GraphOf(items);
    TabInverse(Decls(items), u);
    OwnTagIs(items, Decls(items)[u].name, node.tag);
    FamilyTagsUnfold(items, g, u);
    assert TagsOfAll(items, g, []) == {};
  }

  /** Both are ancestors of one struct, and a struct has one first field: they are related. */
  lemma {:induction false} AncestorsComparable(items: seq<Item>, g: Graph, a: nat, b: nat, p: seq<nat>)
    requires WellFormed(items, g) && Walk(Inherits(g), p) && p[0] == a
    requires Reach(Inherits(g), b, p[|p| - 1])
    ensures Reach(Inherits(g), a, b) || Reach(Inherits(g), b, a)
    decreases |p|
  {
    var r := Inherits(g);
    var n := |p| - 1;
    if n > 0 {
      if b == p[n] {
        assert WalkBetween(r, p, a, b);
      } else {
        var y := ReachLastStep(r, b, p[n]);
        assert (p[n - 1], p[n]) in r;
        SameParent(items, g, p[n - 1], y, p[n]);
        AncestorsComparable(items, g, a, b, p[..n]);
      }
    }
  }

  lemma SameParent(items: seq<Item>, g: Graph, x: nat, y: nat, c: nat)
    requires WellFormed(items, g) && (x, c) in Inherits(g) && (y, c) in Inherits(g)
    ensures x == y
  {
    StructChildren(items, g, x, c);
    StructChildren(items, g, y, c);
    TabInverse(Decls(items), x);
    TabInverse(Decls(items), y);
  }

  lemma TableEntry(items: seq<Item>, i: nat)
    requires UniqueNames(Decls(items)) && i < |Decls(items)|
    ensures Decls(items)[i].name in CastTable(items) <==>
            i in NodesFrom(GraphOf(items), AllDescriptors(GraphOf(items)))
  {
    var g := GraphOf(items);
    TabInverse(Decls(items), i);
    if Decls(items)[i].name in CastTable(items) {
      var x :| x in NodesFrom(g, AllDescriptors(g)) && x < |g.descriptors| && g.descriptors[x].decl.name == Decls(items)[i].name;
      TabInverse(Decls(items), x);
    }
  }

  lemma AncestorOfNode(items: seq<Item>, i: nat, j: nat, root: nat)
    requires Bindings(items) && root < |Decls(items)| && IsNode(Decls(items)[root])
    requires j < |Decls(items)|
    requires Reach(Inherits(GraphOf(items)), root, i) && Reach(Inherits(GraphOf(items)), j, i)
    ensures Reach(Inherits(GraphOf(items)), root, j)
  {
    var g := GraphOf(items);
    var p :| WalkBetween(Inherits(g), p, j, i);
    AncestorsComparable(items, g, j, root, p);
    if !Reach(Inherits(g), root, j) {
      RootHasNoParent(items, root, j);
      ReachRefl(Inherits(g), root);
    }
  }

  /** Every struct that lies at offset zero of an identified struct is identified too. */
  lemma AncestorsIdentified(items: seq<Item>, d: string, a: string)
    requires Bindings(items) && d in CastTable(items)
    requires IsStruct(items, d) && IsStruct(items, a) && StartsWith(Decls(items), d, a)
    ensures a in CastTable(items)
  {
    var g := GraphOf(items);
    var i := StructIndex(items, d);
    var j := StructIndex(items, a);
    InheritsIffStartsWith(items, g, j, i);
    TableEntry(items, i);
    TableEntry(items, j);
    var root := RootOf(g, i);
    AncestorOfNode(items, i, j, root);
    InAll(g, root);
    NodeFromRoot(g, root, j);
  }

  lemma RootOf(g: Graph, x: nat) returns (root: nat)
    requires x in NodesFrom(g, AllDescriptors(g))
    ensures root < |g.descriptors| && IsNode(g.descriptors[root].decl) && Reach(Inherits(g), root, x)
  {
    root :| root in AllDescriptors(g) && root < |g.descriptors| && IsNode(g.descriptors[root].decl) && x in Family(g, root);
  }

  lemma NodeFromRoot(g: Graph, root: nat, x: nat)
    requires root in AllDescriptors(g) && root < |g.descriptors| && IsNode(g.descriptors[root].decl)
    requires x < |g.descriptors| && Reach(Inherits(g), root, x)
    ensures x in NodesFrom(g, AllDescriptors(g))
  {
    assert x in Family(g, root);
  }

  lemma RootHasNoParent(items: seq<Item>, root: nat, a: nat)
    requires Bindings(items) && root < |Decls(items)| && IsNode(Decls(items)[root])
    requires Reach(Inherits(GraphOf(items)), a, root)
    ensures a == root
  {
    var g := GraphOf(items);
    if a != root {
      var p := ReachLastStep(Inherits(g), a, root);
      StructChildren(items, g, p, root);
      DeclsOf(items, Decls(items)[p]);
    }
  }

  /** Round trip: a node carrying a tag of struct type `d` can be viewed as any struct at its
      offset zero, or as a `Node`, and then as a `d` again, and it is still the same node. */
  lemma CastRoundTrip(items: seq<Item>, d: string, a: string, node: NodeRef)
    requires Bindings(items) && d in CastTable(items) && IsStruct(items, d)
    requires TagOf(items, d, node.tag)
    requires IsStruct(items, a) && StartsWith(Decls(items), d, a)
    ensures a in CastTable(items) && TryCast(CastTable(items), a, node) == Some(node)
    ensures TryCast(CastTable(items), d, AsNode(node)) == Some(node)
    ensures "Node" in CastTable(items) ==> TryCast(CastTable(items), "Node", node) == Some(node)
  {
    AncestorsIdentified(items, d, a);
    if a != "Node" {
      CastIffLayout(items, a, node);
    }
    assert AtOffsetZero(Decls(items), d, 0) == Some(d);
    if d != "Node" {
      CastIffLayout(items, d, node);
    }
  }

  /** With alias names distinct from type names, a tag names one type: nodes tagged `T_d` can
      be cast to `a` exactly when an `a` lies at offset zero of a `d`. */
  lemma TagDecidesCast(items: seq<Item>, d: string, a: string, node: NodeRef)
    requires Bindings(items)
    requires forall s, t :: Alias(s, t) in items ==> !exists e :: Declared(e) in items && e.name == s
    requires IsStruct(items, d) && TagOf(items, d, node.tag) && node.tag == "T_" + d
    requires a in CastTable(items) && a != "Node" && IsStruct(items, a)
    ensures TryCast(CastTable(items), a, node).Some? <==> StartsWith(Decls(items), d, a)
  {
    CastIffLayout(items, a, node);
    if e :| IsStruct(items, e) && TagOf(items, e, node.tag) && StartsWith(Decls(items), e, a) {
      OwnerOfTag(items, d, e);
    }
  }

  lemma OwnerOfTag(items: seq<Item>, d: string, e: string)
    requires IsStruct(items, d) && TagOf(items, e, "T_" + d)
    requires forall s, t :: Alias(s, t) in items ==> !exists e :: Declared(e) in items && e.name == s
    ensures d == e
  {
    TagInjective(d, e);
    if "T_" + d != "T_" + e {
      var decl :| decl in Decls(items) && decl.Struct? && decl.name == d;
      DeclsOf(items, decl);
      var alias :| Alias(alias, Some(e)) in items && "T_" + d == "T_" + alias;
      TagInjective(d, alias);
    }
  }

  lemma TagInjective(a: string, b: string)
    ensures "T_" + a == "T_" + b ==> a == b
  {
    assert ("T_" + a)[2..] == a && ("T_" + b)[2..] == b;
  }

  // ----- which types are node types

  /** A struct whose first field is a `NodeTag`. */
  ghost predicate TaggedStruct(items: seq<Item>, r: string) {
    exists d :: Declared(d) in items && d.Struct? && d.name == r && d.fields != [] && d.fields[0] == Some("NodeTag")
  }

  lemma TaggedIs(items: seq<Item>, i: nat)
    requires UniqueNames(Decls(items)) && i < |Decls(items)| && Decls(items)[i].Struct?
    ensures IsNode(Decls(items)[i]) <==> TaggedStruct(items, Decls(items)[i].name)
  {
    var decls := Decls(items);
    DeclsOf(items, decls[i]);
    if d :| Declared(d) in items && d.Struct? && d.name == decls[i].name && d.fields != [] && d.fields[0] == Some("NodeTag") {
      DeclsOf(items, d);
      var k :| 0 <= k < |decls| && decls[k] == d;
      assert k == i;
    }
  }

  lemma RootIsStruct(items: seq<Item>, root: nat, i: nat)
    requires Bindings(items) && root < |Decls(items)| && i < |Decls(items)| && Decls(items)[i].Struct?
    requires Reach(Inherits(GraphOf(items)), root, i)
    ensures Decls(items)[root].Struct?
  {
    if root != i {
      var x := ReachFirstStep(Inherits(GraphOf(items)), root, i);
    }
  }

  /** A declared struct is a node type if and only if a struct that begins with a `NodeTag` lies at its
      offset zero. */
  lemma StructInTable(items: seq<Item>, a: string)
    requires Bindings(items) && IsStruct(items, a)
    ensures a in CastTable(items) <==> exists r :: TaggedStruct(items, r) && StartsWith(Decls(items), a, r)
  {
    var g := GraphOf(items);
    var i := StructIndex(items, a);
    TableEntry(items, i);
    if a in CastTable(items) {
      var root := RootOf(g, i);
      RootIsStruct(items, root, i);
      TaggedIs(items, root);
      InheritsIffStartsWith(items, g, root, i);
    }
    if r :| TaggedStruct(items, r) && StartsWith(Decls(items), a, r) {
      TaggedRoot(items, i, r);
    }
  }

  lemma TaggedRoot(items: seq<Item>, i: nat, r: string)
    requires Bindings(items) && i < |Decls(items)| && TaggedStruct(items, r) && StartsWith(Decls(items), Decls(items)[i].name, r)
    ensures i in NodesFrom(GraphOf(items), AllDescriptors(GraphOf(items)))
  {
    var g := GraphOf(items);
    var d :| Declared(d) in items && d.Struct? && d.name == r && d.fields != [] && d.fields[0] == Some("NodeTag");
    DeclsOf(items, d);
    var root := StructIndex(items, r);
    TaggedIs(items, root);
    InheritsIffStartsWith(items, g, root, i);
    InAll(g, root);
    NodeFromRoot(g, root, i);
  }

  /** A declared union is a node type if and only if one of its fields is a `Node`. */
  lemma UnionInTable(items: seq<Item>, u: Decl)
    requires Bindings(items) && Declared(u) in items && u.Union?
    ensures u.name in CastTable(items) <==> Some("Node") in u.fields
  {
    var g, decls := GraphOf(items), Decls(items);
    DeclsOf(items, u);
    var i :| 0 <= i < |decls| && decls[i] == u;
    TableEntry(items, i);
    if u.name in CastTable(items) {
      var root := RootOf(g, i);
      if root != i {
        var p := ReachLastStep(Inherits(g), root, i);
        StructChildren(items, g, p, i);
      }
    }
    if Some("Node") in u.fields {
      InAll(g, i);
      ReachRefl(Inherits(g), i);
      NodeFromRoot(g, i, i);
    }
  }
}

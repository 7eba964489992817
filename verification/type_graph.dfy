/** The inheritance graph that the bindings generator reads off the generated items
    (`TypeGraph::from`): a struct inherits from the type of its first field, a union is the
    parent of the types of its fields. */
module TypeGraph {
  import opened Walks
  import opened Wrappers

  /** A struct or union. A field is given by the last segment of its type's path, or `None`
      when its type is not a path. */
  datatype Decl =
    | Struct(name: string, fields: seq<Option<string>>)
    | Union(name: string, fields: seq<Option<string>>)
  {
    /** The type a struct starts with. */
    function FirstField(): Option<string> {
      if Struct? && fields != [] then fields[0] else None
    }
  }

  /** One top-level item of the bindings; an alias is given by the last segment of its
      target, when that is a path. */
  datatype Item =
    | Declared(decl: Decl)
    | Enum(name: string, variants: seq<string>)
    | Alias(alias: string, target: Option<string>)
    | Other

  datatype Descriptor = Descriptor(decl: Decl, parent: Option<nat>, children: seq<nat>)

  datatype Graph = Graph(nameTab: map<string, nat>, descriptors: seq<Descriptor>)

  // ----- what the graph should be

  /** The struct and union items, in order: descriptor `d` describes the `d`-th. */
  function Decls(items: seq<Item>): seq<Decl> {
    if items == [] then [] else
      var last := items[|items| - 1];
      Decls(items[..|items| - 1]) + (if last.Declared? then [last.decl] else [])
  }

  lemma {:induction false} DeclsOf(items: seq<Item>, d: Decl)
    ensures d in Decls(items) <==> Declared(d) in items
  {
    if items != [] {
      DeclsOf(items[..|items| - 1], d);
      assert items == items[..|items| - 1] + [items[|items| - 1]];
    }
  }

  /** Where a name is declared; the last declaration wins. */
  function NameTab(decls: seq<Decl>): map<string, nat> {
    if decls == [] then map[] else
      var last := |decls| - 1;
      NameTab(decls[..last])[decls[last].name := last]
  }

  lemma {:induction false} NameTabCorrect(decls: seq<Decl>)
    ensures forall n :: n in NameTab(decls) ==> NameTab(decls)[n] < |decls| && decls[NameTab(decls)[n]].name == n
    ensures forall i :: 0 <= i < |decls| ==> decls[i].name in NameTab(decls)
  {
    if decls != [] {
      NameTabCorrect(decls[..|decls| - 1]);
    }
  }

  /** The parent-child links of a union, one per field that names a declared type. */
  function FieldLinks(parent: nat, fields: seq<Option<string>>, tab: map<string, nat>): seq<(nat, nat)> {
    if fields == [] then [] else
      var last := fields[|fields| - 1];
      FieldLinks(parent, fields[..|fields| - 1], tab)
      + (if last.Some? && last.value in tab then [(parent, tab[last.value])] else [])
  }

  function DeclLinks(decl: Decl, tab: map<string, nat>): seq<(nat, nat)> {
    if decl.name !in tab then [] else
    match decl
    case Struct(name, _) =>
      var first := decl.FirstField();
      if first.Some? && first.value in tab then [(tab[first.value], tab[name])] else []
    case Union(name, fields) => FieldLinks(tab[name], fields, tab)
  }

  function Links(decls: seq<Decl>, tab: map<string, nat>): seq<(nat, nat)> {
    if decls == [] then [] else
      Links(decls[..|decls| - 1], tab) + DeclLinks(decls[|decls| - 1], tab)
  }

  /** The children `links` give to `p`, in order, and the last parent they give to `c`. */
  function ChildrenIn(links: seq<(nat, nat)>, p: nat): seq<nat> {
    if links == [] then [] else
      var last := links[|links| - 1];
      ChildrenIn(links[..|links| - 1], p) + (if last.0 == p then [last.1] else [])
  }

  function ParentIn(links: seq<(nat, nat)>, c: nat): Option<nat> {
    if links == [] then None else
      var last := links[|links| - 1];
      if last.1 == c then Some(last.0) else ParentIn(links[..|links| - 1], c)
  }

  /** The descriptors agree with `links`. */
  ghost predicate Linked(decls: seq<Decl>, links: seq<(nat, nat)>, descriptors: seq<Descriptor>) {
    && |descriptors| == |decls|
    && forall d :: 0 <= d < |decls| ==>
         descriptors[d] == Descriptor(decls[d], ParentIn(links, d), ChildrenIn(links, d))
  }

  ghost predicate IsGraphOf(items: seq<Item>, g: Graph) {
    && g.nameTab == NameTab(Decls(items))
    && Linked(Decls(items), Links(Decls(items), g.nameTab), g.descriptors)
  }

  // ----- building it

  /** Record one link: set the child's parent, then append to the parent's children. */
  method AddLink(ghost decls: seq<Decl>, ghost links: seq<(nat, nat)>, descriptors: seq<Descriptor>, parent: nat, child: nat)
    returns (r: seq<Descriptor>)
    requires Linked(decls, links, descriptors) && parent < |decls| && child < |decls|
    ensures Linked(decls, links + [(parent, child)], r)
  {
    r := descriptors[child := descriptors[child].(parent := Some(parent))];
    r := r[parent := r[parent].(children := r[parent].children + [child])];
    assert (links + [(parent, child)])[..|links|] == links;
  }

  method AddUnionLinks(ghost decls: seq<Decl>, ghost links: seq<(nat, nat)>, descriptors: seq<Descriptor>,
                       tab: map<string, nat>, parent: nat, fields: seq<Option<string>>)
    returns (r: seq<Descriptor>)
    requires Linked(decls, links, descriptors) && parent < |decls|
    requires forall n :: n in tab ==> tab[n] < |decls|
    ensures Linked(decls, links + FieldLinks(parent, fields, tab), r)
  {
    r := descriptors;
    ghost var added := [];
    assert links + [] == links;
    for i := 0 to |fields|
      invariant added == FieldLinks(parent, fields[..i], tab)
      invariant Linked(decls, links + added, r)
    {
      assert fields[..i + 1][..i] == fields[..i];
      if fields[i].Some? && fields[i].value in tab {
        var child := tab[fields[i].value];
        r := AddLink(decls, links + added, r, parent, child);
        assert (links + added) + [(parent, child)] == links + (added + [(parent, child)]);
        added := added + [(parent, child)];
      }
    }
    assert fields[..|fields|] == fields;
  }

  lemma DeclsStep(items: seq<Item>, i: nat)
    requires i < |items|
    ensures items[i].Declared? ==> Decls(items[..i + 1]) == Decls(items[..i]) + [items[i].decl]
    ensures !items[i].Declared? ==> Decls(items[..i + 1]) == Decls(items[..i])
  {
    assert items[..i + 1][..i] == items[..i];
  }

  lemma NameTabStep(decls: seq<Decl>, d: Decl)
    ensures NameTab(decls + [d]) == NameTab(decls)[d.name := |decls|]
  {
    assert (decls + [d])[..|decls|] == decls;
  }

  lemma LinksStep(items: seq<Item>, i: nat, tab: map<string, nat>)
    requires i < |items|
    ensures items[i].Declared? ==>
      Links(Decls(items[..i + 1]), tab) == Links(Decls(items[..i]), tab) + DeclLinks(items[i].decl, tab)
    ensures !items[i].Declared? ==> Links(Decls(items[..i + 1]), tab) == Links(Decls(items[..i]), tab)
  {
    DeclsStep(items, i);
    if items[i].Declared? {
      var decls := Decls(items[..i]);
      assert (decls + [items[i].decl])[..|decls|] == decls;
    }
  }

  /** First loop of `TypeGraph::from`: one descriptor per struct or union, no links yet. */
  method DeclareAll(items: seq<Item>) returns (nameTab: map<string, nat>, descriptors: seq<Descriptor>)
    ensures nameTab == NameTab(Decls(items))
    ensures Linked(Decls(items), [], descriptors)
  {
    nameTab, descriptors := map[], [];
    for i := 0 to |items|
      invariant Linked(Decls(items[..i]), [], descriptors)
      invariant nameTab == NameTab(Decls(items[..i]))
    {
      DeclsStep(items, i);
      if items[i].Declared? {
        NameTabStep(Decls(items[..i]), items[i].decl);
        nameTab := nameTab[items[i].decl.name := |descriptors|];
        descriptors := descriptors + [Descriptor(items[i].decl, None, [])];
      }
    }
    assert items[..|items|] == items;
  }

  /** One struct's or union's turn in the second loop. */
  method LinkDecl(ghost decls: seq<Decl>, ghost links: seq<(nat, nat)>, descriptors: seq<Descriptor>,
                  tab: map<string, nat>, decl: Decl)
    returns (r: seq<Descriptor>)
    requires Linked(decls, links, descriptors) && decl.name in tab
    requires forall n :: n in tab ==> tab[n] < |decls|
    ensures Linked(decls, links + DeclLinks(decl, tab), r)
  {
    match decl {
      case Struct(name, _) =>
        var first := decl.FirstField();
        if first.Some? && first.value in tab {
          r := AddLink(decls, links, descriptors, tab[first.value], tab[name]);
        } else {
          assert links + [] == links;
          r := descriptors;
        }
      case Union(name, fields) =>
        r := AddUnionLinks(decls, links, descriptors, tab, tab[name], fields);
    }
  }

  /** `TypeGraph::from`. */
  method FromItems(items: seq<Item>) returns (g: Graph)
    ensures IsGraphOf(items, g)
  {
    var nameTab, descriptors := DeclareAll(items);
    ghost var decls := Decls(items);
    ghost var links: seq<(nat, nat)> := [];
    NameTabCorrect(decls);
    for i := 0 to |items|
      invariant links == Links(Decls(items[..i]), nameTab)
      invariant Linked(decls, links, descriptors)
    {
      LinksStep(items, i, nameTab);
      if items[i].Declared? {
        NameKnown(items, i);
        descriptors := LinkDecl(decls, links, descriptors, nameTab, items[i].decl);
        links := links + DeclLinks(items[i].decl, nameTab);
      }
    }
    assert items[..|items|] == items;
    g := Graph(nameTab, descriptors);
  }

  lemma NameKnown(items: seq<Item>, i: nat)
    requires i < |items| && items[i].Declared?
    ensures items[i].decl.name in NameTab(Decls(items))
  {
    DeclsOf(items, items[i].decl);
    NameTabCorrect(Decls(items));
  }

  // ----- inheritance

  ghost predicate UniqueNames(decls: seq<Decl>)
  {
    forall i, j :: 0 <= i < j < |decls| ==> decls[i].name != decls[j].name
  }

  lemma TabInverse(decls: seq<Decl>, d: nat)
    requires UniqueNames(decls) && d < |decls|
    ensures decls[d].name in NameTab(decls) && NameTab(decls)[decls[d].name] == d
  {
    NameTabCorrect(decls);
    var k := NameTab(decls)[decls[d].name];
    assert decls[k].name == decls[d].name;
  }

  lemma {:induction false} ChildLinked(links: seq<(nat, nat)>, p: nat, c: nat)
    ensures c in ChildrenIn(links, p) <==> (p, c) in links
  {
    if links != [] {
      var last := links[|links| - 1];
      ChildLinked(links[..|links| - 1], p, c);
      assert links == links[..|links| - 1] + [last];
    }
  }

  lemma {:induction false} FieldLinkParents(parent: nat, fields: seq<Option<string>>, tab: map<string, nat>, l: (nat, nat))
    requires l in FieldLinks(parent, fields, tab)
    ensures l.0 == parent
  {
    if fields != [] {
      if l in FieldLinks(parent, fields[..|fields| - 1], tab) {
        FieldLinkParents(parent, fields[..|fields| - 1], tab, l);
      }
    }
  }

  lemma {:induction false} LinkSource(decls: seq<Decl>, tab: map<string, nat>, l: (nat, nat))
    ensures l in Links(decls, tab) <==> exists i :: 0 <= i < |decls| && l in DeclLinks(decls[i], tab)
  {
    if decls != [] {
      var last := |decls| - 1;
      LinkSource(decls[..last], tab, l);
      if i :| 0 <= i < last && l in DeclLinks(decls[i], tab) {
        assert decls[..last][i] == decls[i];
      }
    }
  }

  lemma StructLinkSource(decls: seq<Decl>, p: nat, c: nat, i: nat)
    requires UniqueNames(decls) && p < |decls| && decls[p].Struct?
    requires i < |decls| && (p, c) in DeclLinks(decls[i], NameTab(decls))
    ensures c == i && decls[c].FirstField() == Some(decls[p].name)
  {
    TabInverse(decls, p);
    TabInverse(decls, i);
    NameTabCorrect(decls);
    if decls[i].Union? {
      FieldLinkParents(i, decls[i].fields, NameTab(decls), (p, c));
    }
  }

  lemma StructLinks(decls: seq<Decl>, p: nat, c: nat)
    requires UniqueNames(decls) && p < |decls| && decls[p].Struct?
    ensures (p, c) in Links(decls, NameTab(decls)) <==>
            c < |decls| && decls[c].FirstField() == Some(decls[p].name)
  {
    var tab := NameTab(decls);
    LinkSource(decls, tab, (p, c));
    if (p, c) in Links(decls, tab) {
      var i :| 0 <= i < |decls| && (p, c) in DeclLinks(decls[i], tab);
      StructLinkSource(decls, p, c, i);
    }
    if c < |decls| && decls[c].FirstField() == Some(decls[p].name) {
      TabInverse(decls, p);
      TabInverse(decls, c);
      assert (p, c) in DeclLinks(decls[c], tab);
    }
  }

  /** The children of a struct are exactly the structs whose first field names it. */
  lemma StructChildren(items: seq<Item>, g: Graph, p: nat, c: nat)
    requires IsGraphOf(items, g) && UniqueNames(Decls(items))
    requires p < |g.descriptors| && g.descriptors[p].decl.Struct?
    ensures c in g.descriptors[p].children <==>
      c < |g.descriptors| && g.descriptors[c].decl.FirstField() == Some(g.descriptors[p].decl.name)
  {
    var decls := Decls(items);
    ChildLinked(Links(decls, g.nameTab), p, c);
    StructLinks(decls, p, c);
  }

  /** Inheritance as `resolve_pg_node_tags` follows it: from a struct to its children. */
  ghost function Inherits(g: Graph): Arcs {
    set p: nat, c: nat | p < |g.descriptors| && g.descriptors[p].decl.Struct? && c in g.descriptors[p].children
      :: (p, c)
  }

  // ----- memory layout, independently of the graph

  /** The declaration of a name. */
  function Lookup(decls: seq<Decl>, name: string): (r: Option<nat>)
    ensures r.Some? ==> r.value < |decls| && decls[r.value].name == name
    ensures r.None? ==> forall i :: 0 <= i < |decls| ==> decls[i].name != name
  {
    if decls == [] then None else
      var last := |decls| - 1;
      if decls[last].name == name then Some(last) else Lookup(decls[..last], name)
  }

  /** What type lies at offset zero of `name` after opening `k` first fields. */
  ghost function AtOffsetZero(decls: seq<Decl>, name: string, k: nat): Option<string>
  {
    if k == 0 then Some(name) else
      match AtOffsetZero(decls, name, k - 1)
      case None => None
      case Some(outer) =>
        var at := Lookup(decls, outer);
        if at.Some? && decls[at.value].Struct? && decls[at.value].fields != [] then decls[at.value].fields[0] else None
  }

  /** A value of type `inner` lies at offset zero of every value of type `outer`. */
  ghost predicate StartsWith(decls: seq<Decl>, outer: string, inner: string)
  {
    exists k: nat :: AtOffsetZero(decls, outer, k) == Some(inner)
  }

  /** Inheritance is layout: struct `a` is an ancestor of struct `d` exactly when `a` lies at
      offset zero of `d`. */
  lemma InheritsIffStartsWith(items: seq<Item>, g: Graph, a: nat, d: nat)
    requires IsGraphOf(items, g) && UniqueNames(Decls(items))
    requires a < |g.descriptors| && d < |g.descriptors| && g.descriptors[a].decl.Struct?
    ensures Reach(Inherits(g), a, d) <==>
            StartsWith(Decls(items), g.descriptors[d].decl.name, g.descriptors[a].decl.name)
  {
    var decls := Decls(items);
    if Reach(Inherits(g), a, d) {
      var p :| WalkBetween(Inherits(g), p, a, d);
      WalkIsLayout(items, g, p, |p| - 1);
    }
    if k: nat :| AtOffsetZero(decls, decls[d].name, k) == Some(decls[a].name) {
      LayoutIsWalk(items, g, a, d, k);
    }
  }

  lemma LayoutStep(decls: seq<Decl>, name: string, k: nat, p: nat, c: nat)
    requires UniqueNames(decls) && p < |decls| && c < |decls|
    requires decls[c].FirstField() == Some(decls[p].name)
    requires AtOffsetZero(decls, name, k) == Some(decls[c].name)
    ensures AtOffsetZero(decls, name, k + 1) == Some(decls[p].name)
  {
    LookupOf(decls, c);
  }

  lemma {:induction false} WalkIsLayout(items: seq<Item>, g: Graph, p: seq<nat>, k: nat)
    requires IsGraphOf(items, g) && UniqueNames(Decls(items))
    requires Walk(Inherits(g), p) && k < |p| && p[|p| - 1] < |g.descriptors|
    ensures p[|p| - 1 - k] < |g.descriptors|
    ensures AtOffsetZero(Decls(items), g.descriptors[p[|p| - 1]].decl.name, k)
            == Some(g.descriptors[p[|p| - 1 - k]].decl.name)
  {
    if k > 0 {
      WalkIsLayout(items, g, p, k - 1);
      var i := |p| - 1 - k;
      assert (p[i], p[i + 1]) in Inherits(g);
      StructChildren(items, g, p[i], p[i + 1]);
      LayoutStep(Decls(items), g.descriptors[p[|p| - 1]].decl.name, k - 1, p[i], p[i + 1]);
    }
  }

  lemma LookupOf(decls: seq<Decl>, d: nat)
    requires UniqueNames(decls) && d < |decls|
    ensures Lookup(decls, decls[d].name) == Some(d)
  {
  }

  lemma {:induction false} LayoutIsWalk(items: seq<Item>, g: Graph, a: nat, d: nat, k: nat)
    requires IsGraphOf(items, g) && UniqueNames(Decls(items))
    requires a < |g.descriptors| && d < |g.descriptors| && g.descriptors[a].decl.Struct?
    requires AtOffsetZero(Decls(items), g.descriptors[d].decl.name, k) == Some(g.descriptors[a].decl.name)
    ensures Reach(Inherits(g), a, d)
    decreases k
  {
    var decls := Decls(items);
    if k == 0 {
      TabInverse(decls, a);
      TabInverse(decls, d);
      ReachRefl(Inherits(g), a);
    } else {
      var outer := AtOffsetZero(decls, decls[d].name, k - 1).value;
      var m := Lookup(decls, outer).value;
      StructChildren(items, g, a, m);
      assert (a, m) in Inherits(g);
      ReachArc(Inherits(g), a, m);
      LayoutIsWalk(items, g, m, d, k - 1);
      ReachTrans(Inherits(g), a, m, d);
    }
  }
}

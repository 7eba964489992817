/** Which node tags each node type accepts: the memoised recursion `resolve_pg_node_tags`
    against its specification, and the run-time casts that use the result. */
module NodeTags {
  import opened Walks
  import opened TypeGraph
  import opened Wrappers

  function Tag(name: string): string {
    "T_" + name
  }

  // ----- tags that exist

  /** The variants of the `NodeTag` enum. */
  function Variants(items: seq<Item>): set<string> {
    if items == [] then {} else
      var last := items[|items| - 1];
      Variants(items[..|items| - 1])
      + (if last.Enum? && last.name == "NodeTag" then set v | v in last.variants else {})
  }

  /** Tags named after the aliases of the declared type `name`. */
  function AliasTags(items: seq<Item>, tab: map<string, nat>, name: string): set<string> {
    if items == [] then {} else
      var last := items[|items| - 1];
      AliasTags(items[..|items| - 1], tab, name)
      + (if last.Alias? && last.target == Some(name) && name in tab then {Tag(last.alias)} else {})
  }

  lemma {:induction false} AliasTagsOf(items: seq<Item>, tab: map<string, nat>, name: string, t: string)
    ensures t in AliasTags(items, tab, name) <==>
      exists a :: Alias(a, Some(name)) in items && name in tab && t == Tag(a)
  {
    if items != [] {
      var last := items[|items| - 1];
      AliasTagsOf(items[..|items| - 1], tab, name, t);
      assert items == items[..|items| - 1] + [last];
    }
  }

  /** The tags a type answers to by its own name and its aliases. */
  ghost function OwnTags(items: seq<Item>, name: string): set<string> {
    ({Tag(name)} + AliasTags(items, NameTab(Decls(items)), name)) * Variants(items)
  }

  /** What the map of possible alias tags holds for a name. */
  function AliasEntry(aliasTags: map<string, set<string>>, name: string): set<string> {
    if name in aliasTags then aliasTags[name] else {}
  }

  /** The loop of `impl_pg_node` that collects node tags and possible alias tags. */
  method CollectTags(items: seq<Item>, tab: map<string, nat>)
    returns (nodeTags: set<string>, aliasTags: map<string, set<string>>)
    ensures nodeTags == Variants(items)
    ensures forall n :: AliasEntry(aliasTags, n) == AliasTags(items, tab, n)
  {
    nodeTags, aliasTags := {}, map[];
    for i := 0 to |items|
      invariant nodeTags == Variants(items[..i])
      invariant forall n :: AliasEntry(aliasTags, n) == AliasTags(items[..i], tab, n)
    {
      assert items[..i + 1][..i] == items[..i];
      match items[i] {
        case Enum(name, variants) =>
          if name == "NodeTag" {
            nodeTags := nodeTags + set v | v in variants;
          }
        case Alias(alias, target) =>
          if target.Some? && target.value in tab {
            var entry := AliasEntry(aliasTags, target.value) + {Tag(alias)};
            aliasTags := aliasTags[target.value := entry];
          }
        case _ =>
      }
    }
    assert items[..|items|] == items;
  }

  // ----- the specification

  /** `d` and every type that inherits from it, directly or not. */
  ghost function Family(g: Graph, d: nat): set<nat> {
    set x: nat | x < |g.descriptors| && Reach(Inherits(g), d, x)
  }

  /** The tags whose nodes may be viewed as a `d`: those of `d` and of its family. */
  ghost function FamilyTags(items: seq<Item>, g: Graph, d: nat): set<string> {
    set x, t | x in Family(g, d) && t in OwnTags(items, g.descriptors[x].decl.name) :: t
  }

  ghost function Names(g: Graph, s: set<nat>): set<string> {
    set x | x in s && x < |g.descriptors| :: g.descriptors[x].decl.name
  }

  ghost function TagsOfAll(items: seq<Item>, g: Graph, ds: seq<nat>): set<string> {
    set d, t | d in ds && t in FamilyTags(items, g, d) :: t
  }

  ghost function NamesOfAll(g: Graph, ds: seq<nat>): set<string> {
    set d, n | d in ds && n in Names(g, Family(g, d)) :: n
  }

  /** The bindings have unique type names and no type contains itself by value. */
  ghost predicate WellFormed(items: seq<Item>, g: Graph) {
    IsGraphOf(items, g) && UniqueNames(Decls(items)) && Acyclic(Inherits(g))
  }

  lemma FamilyMember(items: seq<Item>, g: Graph, d: nat, x: nat)
    requires WellFormed(items, g) && d < |g.descriptors|
    ensures x in Family(g, d) <==>
      x == d || (g.descriptors[d].decl.Struct? && exists c :: c in g.descriptors[d].children && x in Family(g, c))
  {
    var r := Inherits(g);
    if x in Family(g, d) && x != d {
      var c := ReachFirstStep(r, d, x);
      assert x in Family(g, c);
    }
    if x == d {
      ReachRefl(r, d);
    }
    if g.descriptors[d].decl.Struct? {
      if c :| c in g.descriptors[d].children && x in Family(g, c) {
        assert (d, c) in r;
        ReachArc(r, d, c);
        ReachTrans(r, d, c, x);
      }
    }
  }

  lemma FamilyShrinks(items: seq<Item>, g: Graph, d: nat, c: nat)
    requires WellFormed(items, g) && d < |g.descriptors|
    requires g.descriptors[d].decl.Struct? && c in g.descriptors[d].children
    ensures c < |g.descriptors| && Family(g, c) < Family(g, d)
  {
    StructChildren(items, g, d, c);
    forall x | x in Family(g, c) ensures x in Family(g, d) {
      FamilyMember(items, g, d, x);
    }
    FamilyMember(items, g, d, d);
    assert (d, c) in Inherits(g);
    if d in Family(g, c) {
      CycleFromArc(Inherits(g), d, c);
    }
  }

  /** The children the recursion visits. */
  function Subtypes(g: Graph, d: nat): seq<nat>
    requires d < |g.descriptors|
  {
    if g.descriptors[d].decl.Struct? then g.descriptors[d].children else []
  }

  lemma FamilyTagsUnfold(items: seq<Item>, g: Graph, d: nat)
    requires WellFormed(items, g) && d < |g.descriptors|
    ensures FamilyTags(items, g, d)
         == OwnTags(items, g.descriptors[d].decl.name) + TagsOfAll(items, g, Subtypes(g, d))
  {
    var own, cs := OwnTags(items, g.descriptors[d].decl.name), Subtypes(g, d);
    FamilyMember(items, g, d, d);
    forall t | t in FamilyTags(items, g, d) ensures t in own + TagsOfAll(items, g, cs) {
      var x :| x in Family(g, d) && t in OwnTags(items, g.descriptors[x].decl.name);
      FamilyMember(items, g, d, x);
      if x != d {
        var c :| c in cs && x in Family(g, c);
        assert t in FamilyTags(items, g, c);
      }
    }
    forall t | t in TagsOfAll(items, g, cs) ensures t in FamilyTags(items, g, d) {
      var c :| c in cs && t in FamilyTags(items, g, c);
      var x :| x in Family(g, c) && t in OwnTags(items, g.descriptors[x].decl.name);
      FamilyMember(items, g, d, x);
    }
  }

  lemma NamesUnfold(items: seq<Item>, g: Graph, d: nat)
    requires WellFormed(items, g) && d < |g.descriptors|
    ensures Names(g, Family(g, d)) == {g.descriptors[d].decl.name} + NamesOfAll(g, Subtypes(g, d))
  {
    var name, cs := g.descriptors[d].decl.name, Subtypes(g, d);
    FamilyMember(items, g, d, d);
    forall n | n in Names(g, Family(g, d)) ensures n in {name} + NamesOfAll(g, cs) {
      var x :| x in Family(g, d) && n == g.descriptors[x].decl.name;
      FamilyMember(items, g, d, x);
      if x != d {
        var c :| c in cs && x in Family(g, c);
        assert n in Names(g, Family(g, c));
      }
    }
    forall n | n in NamesOfAll(g, cs) ensures n in Names(g, Family(g, d)) {
      var c :| c in cs && n in Names(g, Family(g, c));
      var x :| x in Family(g, c) && n == g.descriptors[x].decl.name;
      FamilyMember(items, g, d, x);
    }
  }

  // ----- the memoised recursion

  /** The memo maps names to the specified tags and is closed under inheritance. */
  ghost predicate MemoOk(items: seq<Item>, g: Graph, memo: map<string, set<string>>) {
    forall n :: n in memo ==>
      && n in g.nameTab
      && memo[n] == FamilyTags(items, g, g.nameTab[n])
      && Names(g, Family(g, g.nameTab[n])) <= memo.Keys
  }

  class TagResolver {
    ghost const items: seq<Item>
    const g: Graph
    const nodeTags: set<string>
    const aliasTags: map<string, set<string>>
    var identified: map<string, set<string>>

    ghost predicate Configured() {
      && WellFormed(items, g)
      && nodeTags == Variants(items)
      && (forall n :: AliasEntry(aliasTags, n) == AliasTags(items, NameTab(Decls(items)), n))
    }

    ghost predicate Valid()
      reads this
    {
      Configured() && MemoOk(items, g, identified)
    }

    constructor (ghost items: seq<Item>, g: Graph, nodeTags: set<string>, aliasTags: map<string, set<string>>)
      requires WellFormed(items, g) && nodeTags == Variants(items)
      requires forall n :: AliasEntry(aliasTags, n) == AliasTags(items, NameTab(Decls(items)), n)
      ensures Valid() && identified == map[]
      ensures this.items == items && this.g == g
    {
      this.items, this.g, this.nodeTags, this.aliasTags := items, g, nodeTags, aliasTags;
      identified := map[];
    }

    /** Own and alias tags that are real `NodeTag` variants. */
    method OwnTagsOf(name: string) returns (tags: set<string>)
      requires Valid()
      ensures tags == OwnTags(items, name)
    {
      tags := {};
      if Tag(name) in nodeTags {
        tags := tags + {Tag(name)};
      }
      tags := tags + set t | t in AliasEntry(aliasTags, name) && t in nodeTags;
    }

    /** `resolve_pg_node_tags`: terminates, returns the tags of `d`'s family, and adds the
        family (and nothing else) to the memo. */
    method Resolve(d: nat) returns (tags: set<string>)
      requires Valid() && d < |g.descriptors|
      modifies this
      ensures Valid()
      ensures tags == FamilyTags(items, g, d)
      ensures identified.Keys == old(identified.Keys) + Names(g, Family(g, d))
      decreases Family(g, d)
    {
      var typeName := g.descriptors[d].decl.name;
      TabInverse(Decls(items), d);
      if typeName in identified {
        return identified[typeName];
      }
      tags := OwnTagsOf(typeName);
      FamilyTagsUnfold(items, g, d);
      NamesUnfold(items, g, d);
      tags := ResolveChildren(d, tags);
      MemoExtend(items, g, identified, d, tags);
      identified := identified[typeName := tags];
    }

    method ResolveChildren(d: nat, own: set<string>) returns (tags: set<string>)
      requires Valid() && d < |g.descriptors|
      modifies this
      ensures Valid()
      ensures tags == own + TagsOfAll(items, g, Subtypes(g, d))
      ensures identified.Keys == old(identified.Keys) + NamesOfAll(g, Subtypes(g, d))
      decreases Family(g, d), 0
    {
      var children := Subtypes(g, d);
      ghost var before := identified.Keys;
      tags := own;
      for i := 0 to |children|
        invariant MemoOk(items, g, identified)
        invariant tags == own + TagsOfAll(items, g, children[..i])
        invariant identified.Keys == before + NamesOfAll(g, children[..i])
      {
        FamilyShrinks(items, g, d, children[i]);
        AllStep(items, g, children, i, own, before);
        var more := Resolve(children[i]);
        tags := tags + more;
      }
      assert children[..|children|] == children;
    }
  }

  lemma AllStep(items: seq<Item>, g: Graph, ds: seq<nat>, i: nat, own: set<string>, before: set<string>)
    requires i < |ds|
    ensures own + TagsOfAll(items, g, ds[..i + 1]) == own + TagsOfAll(items, g, ds[..i]) + FamilyTags(items, g, ds[i])
    ensures before + NamesOfAll(g, ds[..i + 1]) == before + NamesOfAll(g, ds[..i]) + Names(g, Family(g, ds[i]))
  {
    assert ds[..i + 1] == ds[..i] + [ds[i]];
    assert forall d :: d in ds[..i + 1] <==> d in ds[..i] || d == ds[i];
  }

  lemma MemoExtend(items: seq<Item>, g: Graph, memo: map<string, set<string>>, d: nat, tags: set<string>)
    requires WellFormed(items, g) && MemoOk(items, g, memo) && d < |g.descriptors|
    requires tags == FamilyTags(items, g, d)
    requires Names(g, Family(g, d)) <= memo.Keys + {g.descriptors[d].decl.name}
    ensures MemoOk(items, g, memo[g.descriptors[d].decl.name := tags])
  {
    TabInverse(Decls(items), d);
  }
}

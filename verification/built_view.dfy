/** The built graph as the emission sees it. */
module BuiltView {
  import opened ComponentOrder
  import opened Connections
  import opened Drafts
  import opened Entities
  import opened BuiltGraph
  import opened BuiltFacts
  import BuiltLookup

  /** What ordering sees of the built graph, for any order on entities. */
  ghost function View(b: Built, rank: Entity -> int): Graph {
    Graph(seq(|b.d.nodes|, i requires 0 <= i < |b.d.nodes| => rank(b.d.nodes[i])), {0}, b.d.edges)
  }

  lemma SlotEnds(input: Input, b: Built, x: Edge)
    requires BuiltLookup.TypesIndexed(input, b) && Placeholders(b.d.nodes, b.d.builtins) && Slotted(b, x)
    ensures x.source < |b.d.nodes| && 1 <= x.target < |b.d.nodes|
  {
    var s :| s in Slots(b.d.nodes[x.target]) && s.weight == x.weight && SlotSource(b.maps.decls, b.d.builtins, s, x.source);
    BuiltLookup.SourceNode(input, b, s, x.source);
    SlottedNotBy(b, x);
  }

  /** Every edge joins two nodes, and none enters the root. */
  lemma EdgeEnds(input: Input, b: Built, x: Edge)
    requires IsBuilt(input, b) && x in b.d.edges
    ensures x.source < |b.d.nodes| && 1 <= x.target < |b.d.nodes|
  {
    if x.weight.By? {
      ExplicitEnds(input, b, x);
    } else {
      SlotOrigin(input, b, x);
      BuiltLookup.BuiltTypes(input, b);
      SlotEnds(input, b, x);
    }
  }

  ghost predicate EdgesInside(b: Built) {
    b.d.nodes != [] && forall x :: x in b.d.edges ==> x.source < |b.d.nodes| && x.target < |b.d.nodes|
  }

  lemma AllEnds(input: Input, b: Built)
    requires IsBuilt(input, b)
    ensures EdgesInside(b)
  {
    BuiltAnchors(input, b);
    forall x | x in b.d.edges ensures x.source < |b.d.nodes| && x.target < |b.d.nodes| {
      EdgeEnds(input, b, x);
    }
  }

  lemma ViewOf(b: Built, rank: Entity -> int)
    requires EdgesInside(b)
    ensures View(b, rank).Valid() && |View(b, rank).ranks| == |b.d.nodes|
  {
  }

  lemma ViewValid(input: Input, b: Built, rank: Entity -> int)
    requires IsBuilt(input, b)
    ensures View(b, rank).Valid() && |View(b, rank).ranks| == |b.d.nodes|
  {
    AllEnds(input, b);
    ViewOf(b, rank);
  }
}

# A verified model of pgrx's algorithmic cores

pgrx builds Postgres extensions in Rust. Most of it is glue, but it contains a handful of
algorithms whose results must be right for every extension, every binary and every run. This
project models them in Dafny and proves what they are for.

* **SQL generation.** `PgrxSql::build` turns the entities of an extension into a dependency
  multigraph in two phases, `to_sql` emits the graph component by component, and a slice emits
  only what some targets need. Files: `entities`, `type_targets`, `drafts`, `build` (the first
  phase), `connections`, `connect` (the second phase), `built_graph`, `accepted_inputs` (the whole
  build and the inputs it accepts), `built_facts`, `built_view`, `tied_nodes`, `explicit_cycles`,
  `anchor_order`, `block_inputs`, `built_lookup`, `lookup_order`, `lookup_inputs`, `shadowed_type`
  (what holds of every built graph), `plain_entities`, `plain_graph`, `plain_types`,
  `plain_accepted` (nodes, edges and acceptance in terms of names and types alone), `component_order`, `emit_component`, `emission`, `scc_exists`,
  `forced_order` (the emission), over the walks of `walks` and the lists of `sequences`.
* **Node casts.** `pgrx-bindgen` finds which C structs begin with which others and derives the
  tags that make a run-time cast between Postgres nodes legal. Files: `type_graph`, `node_tags`,
  `node_casts`.
* **Mach-O reader.** `cargo-pgrx` finds the schema section in a Mach-O file, whose layout is that
  of the OS X ABI Mach-O File Format Reference. Files: `macho_format`, `macho_reader`,
  `macho_roundtrip`, `macho_files`.
* **Benchmarks in subtransactions.** Files: `subtransaction`, `batches`.
* **Transaction ids, test names, versions, composite types.** Files: `xid`; `decimal`,
  `test_ident`; `text`, `version`; `used_type`.

Code that works by updating state is a method or a class proved against a specification
function; what the source promises is proved about that function. Hash-map iteration is an
arbitrary choice (`:|`), so a contract that fixes a result says that iteration order cannot
matter. `petgraph::algo::tarjan_scc` enters as a contract (`Emission.SccContract`): components
listed so that a component comes before everything it depends on, which is what the code
reverses. `SccExists.SccDecompositionExists` shows that every graph has such a list.
Theorems about built graphs are about every graph that `BuiltGraph.IsBuilt` admits for an input;
`BuildGraph` returns one for each accepted input.

## Where the code and its promises differ

* The entity graph is described as acyclic, but nothing makes it so: the code emits cyclic graphs
  too, and keeps the incoming order of a component whose explicit edges are cyclic.
  `ExplicitHonouredIffAcyclic` and `AllForwardIffAcyclic` give the exact conditions on any graph. For
  a built graph, the explicit edges are acyclic if and only if those into bootstrap come from the
  root, none leaves finalize and the links among the entities are acyclic (`ExplicitAcyclicIff`). In
  terms of the input, a bootstrap block that requires something, is in a schema's module or is
  finalize too makes a cycle, and so does a reference to the finalize block (`BootstrapClearIff`,
  `FinalizeClearIff`, with the accepted inputs `BothMarkedInput`, `InSchemaInput`, `RequiringInput`
  and `RequiredInput`); if no search has a choice, the condition is on the input alone
  (`SettledAcyclicIff`).
* A bootstrap block is meant to come before, and a finalize block after, everything else, and the
  root before everything. A repeated `extension_sql!` block or schema gets a node per copy but some
  edges only at the copy that the hash map keeps: the root has an edge to every entity if and only
  if no block and no schema is repeated (`AllRootedIff`, with the input `RepeatedSchemaInput`), and
  the marked blocks have theirs if and only if no block is repeated or none is marked
  (`AllAnchoredIff`, with the input `RepeatedBlockInput`). When the edges force the order is said
  by `BootstrapFirstIff` and `FinalizeLastIff`.
* A type lookup during rendering goes by identifier over all neighbours, and can stop at the
  placeholder of an external type with the same identifier. It ends at the declaring entity if and
  only if an edge leads from the owner to that, or the last of the owner's slots that leads to the
  identifier is an own slot (`LookupEndsIff`). So the order of two arguments can decide
  (`OrderDecides`); order cannot matter if and only if the owner does not use the identifier
  externally too (`LookupRightIff`).
* Shortened test names are documented as unique. They differ from each other, but a name that was
  short already can equal one (`UniqueIffNoImitation`, `CollisionExists`).
* The success type of a `Result` is read from the first path segment instead of the last, so a
  qualified path usually loses it (`InnerFoundIff`, `QualifiedResultLosesInner`).
* Printed beta and rc versions read back only under conditions on the suffix that follows them
  (`BetaRoundTrip`, `RcRoundTrip`).
* Transaction ids half the id space apart precede each other (`HalfwayIds`).

## Model

| member | source | states |
|---|---|---|
| ComponentOrder.GreedyCoversIffAcyclic | pgrx-sql-entity-graph/src/pgrx_sql.rs:542-566 | emitting the least node whose explicit dependencies are out gets through the component if and only if its explicit edges are acyclic |
| ComponentOrder.EmitOrderCorrect | pgrx-sql-entity-graph/src/pgrx_sql.rs:493-566 | for every multigraph and list of distinct nodes the result is a permutation of the list; all explicit edges inside point forward if and only if they are acyclic; otherwise, or without such edges, the list comes back unchanged |
| ComponentOrder.EmitOrderIsLeast | pgrx-sql-entity-graph/src/pgrx_sql.rs:542-566 | the result is the lexicographically least of all topological orders, by entity and then node index |
| ComponentOrder.EmitOrderByRank | pgrx-sql-entity-graph/src/pgrx_sql.rs:524-562 | of two nodes of a component, if all explicit dependencies of the later were out before the earlier, the earlier has the lower rank, or the same rank and the lower node index |
| EmitComponent.CountOutgoing | pgrx-sql-entity-graph/src/pgrx_sql.rs:511-531 | one node's turn adds one to a counter, and lists one dependent, per explicit edge into the component, parallel edges and self-loops included |
| EmitComponent.CountExplicit | pgrx-sql-entity-graph/src/pgrx_sql.rs:502-535 | after the counting loops each counter is the number of explicit edges from members, and the edge flag tells whether there are any |
| EmitComponent.SeedReady | pgrx-sql-entity-graph/src/pgrx_sql.rs:537-540 | whatever order the counters are visited in, `ready` lists each node whose counter is zero once |
| EmitComponent.SortReady | pgrx-sql-entity-graph/src/pgrx_sql.rs:544-549 | a permutation of what was there, sorted by entity rank and then node index |
| EmitComponent.ReleaseDependents | pgrx-sql-entity-graph/src/pgrx_sql.rs:552-562 | counters never underflow; each again equals the explicit edges from members not yet out, and `ready` is again exactly the ready set |
| EmitComponent.ConnectedComponentEmitOrder | pgrx-sql-entity-graph/src/pgrx_sql.rs:493-566 | the counter-based loop computes the simple greedy order, whatever order the hash maps are iterated in |
| Emission.ToSqlOrder | pgrx-sql-entity-graph/src/pgrx_sql.rs:451-491 | the emission visits the components in reverse order, each in its own order |
| Emission.EmitsEveryNodeOnce | pgrx-sql-entity-graph/src/pgrx_sql.rs:451-491 | every node of the graph is emitted exactly once |
| Emission.CrossComponentForward | pgrx-sql-entity-graph/src/pgrx_sql.rs:451-491 | every dependency between nodes that are not mutually dependent is emitted before its dependent |
| Emission.ComponentOrderKept | pgrx-sql-entity-graph/src/pgrx_sql.rs:451-491 | the whole emission keeps the order of each component |
| Emission.ExplicitForwardInComponent | pgrx-sql-entity-graph/src/pgrx_sql.rs:451-566 | explicit edges inside a component whose explicit edges are acyclic point forward |
| Emission.ExplicitHonouredIffAcyclic | pgrx-sql-entity-graph/src/pgrx_sql.rs:451-566 | all explicit requirements of the extension are honoured if and only if they are acyclic |
| Emission.AllForwardIffAcyclic | pgrx-sql-entity-graph/src/pgrx_sql.rs:451-566 | every dependency of any kind precedes its dependent if and only if the graph is acyclic |
| Emission.CollectTransitiveDeps | pgrx-sql-entity-graph/src/pgrx_sql.rs:998-1014 | visits exactly the nodes with a path to a target and enqueues each of them once |
| Emission.NeededWholeComponents | pgrx-sql-entity-graph/src/pgrx_sql.rs:755-823 | of each component, all nodes are kept or none |
| Emission.EmitSlice | pgrx-sql-entity-graph/src/pgrx_sql.rs:755-823 | a slice is the full emission restricted to the needed nodes, the root left out |
| Emission.SliceCorrect | pgrx-sql-entity-graph/src/pgrx_sql.rs:755-823 | a slice holds exactly the needed nodes, once each, is closed under dependencies, and keeps every ordering promise of the full emission |
| SccExists.SccDecompositionExists | pgrx-sql-entity-graph/src/pgrx_sql.rs:451-463 | every graph has a decomposition that meets the contract assumed of `tarjan_scc` |
| TypeTargets.FindTyped | pgrx-sql-entity-graph/src/pgrx_sql.rs:2097-2108 | finds a type or enum with the identifier if there is one, in any map order |
| TypeTargets.FindDeclared | pgrx-sql-entity-graph/src/pgrx_sql.rs:2110-2120 | finds a block that declares the identifier if there is one, in any map order |
| TypeTargets.FindGraphTypeTarget | pgrx-sql-entity-graph/src/pgrx_sql.rs:2122-2130 | finds a node that declares the identifier if and only if there is one |
| TypeTargets.TargetUnique | pgrx-sql-entity-graph/src/pgrx_sql.rs:2122-2175 | once targets are known to be unique, a lookup has one answer |
| TypeTargets.EnsureUniqueTypeTargets | pgrx-sql-entity-graph/src/pgrx_sql.rs:2132-2175 | succeeds if and only if no type identifier is declared in two places, two entries of one block included |
| Drafts.AddItemsExact | pgrx-sql-entity-graph/src/pgrx_sql.rs:1195-1214 | adding nodes keeps the edge set exactly the base edges that the nodes bring, and keeps one placeholder per external identifier |
| Drafts.AddSlotsExact | pgrx-sql-entity-graph/src/pgrx_sql.rs:2189-2214 | resolving slots moves no node, adds only placeholders, one per identifier, and leaves a placeholder for every external slot |
| Drafts.AddOwnersExact | pgrx-sql-entity-graph/src/pgrx_sql.rs:1333-1416 | after functions or aggregates are in, each is mapped to a node that holds it, its external slots have placeholders, and the edges are exactly the base edges |
| Drafts.AddOwnersOwn | pgrx-sql-entity-graph/src/pgrx_sql.rs:1684-1786 | apart from placeholders, the nodes added are the given entities in order, and no placeholder is without a use |
| Build.NoteMarked | pgrx-sql-entity-graph/src/pgrx_sql.rs:1050-1071 | notes the one marked block; fails only on a second one |
| Build.GraphBuilder.BuildBaseEdges | pgrx-sql-entity-graph/src/pgrx_sql.rs:1017-1031 | adds the edges from the root and the bootstrap block and to the finalize block, and no others |
| Build.GraphBuilder.AddSqlNodes | pgrx-sql-entity-graph/src/pgrx_sql.rs:1041-1072 | succeeds if and only if at most one block is marked bootstrap and at most one finalize; then there is a node per block, each block is mapped to its last node, and the anchors are the marked nodes |
| Build.GraphBuilder.AddSqlEdges | pgrx-sql-entity-graph/src/pgrx_sql.rs:1073-1085 | in some order of the map's keys, appends the base edges of each mapped block, none from a block to itself, with exact multiplicity |
| Build.GraphBuilder.InitializeNodes | pgrx-sql-entity-graph/src/pgrx_sql.rs:1195-1241 | one node per entity, schemas without an edge from the root, others with all base edges; each entity mapped to its last node |
| Build.GraphBuilder.InitializeResolvedType | pgrx-sql-entity-graph/src/pgrx_sql.rs:2189-2214 | succeeds if and only if the type is external or declared; adds a placeholder for a new external identifier and nothing else |
| Build.GraphBuilder.InitializeOwner | pgrx-sql-entity-graph/src/pgrx_sql.rs:1684-1786 | base edges before the slots (functions) or after them (aggregates) give the same graph |
| Build.GraphBuilder.InitializeOwners | pgrx-sql-entity-graph/src/pgrx_sql.rs:1333-1416 | fails if and only if some slot's type belongs to this extension and nothing declares it |
| Build.GraphBuilder.ConnectSchemas | pgrx-sql-entity-graph/src/pgrx_sql.rs:1216-1224 | appends exactly one edge from the root per mapped schema, in some order of the map's keys |
| Connections.PhasesAgree | pgrx-sql-entity-graph/src/pgrx_sql.rs:1684-1894 | the connecting phase visits the same slots as the initializing phase, in another order for aggregates |
| Connections.SlotSourceUnique | pgrx-sql-entity-graph/src/pgrx_sql.rs:2216-2248 | a slot has one node to be connected to |
| Connections.TypedIsSlot | pgrx-sql-entity-graph/src/pgrx_sql.rs:1418-1986 | the type connections of the second phase are those of the slots of the first, for every kind of entity |
| Connections.CarriedOffered | pgrx-sql-entity-graph/src/pgrx_sql.rs:1146-2087 | every edge that a run of the second phase adds is one that some connection of some entity may add |
| Connections.CarriedMet | pgrx-sql-entity-graph/src/pgrx_sql.rs:1146-2087 | after such a run every connection of every entity has its edges |
| Connect.FindIn | pgrx-sql-entity-graph/src/pgrx_sql.rs:2049-2087 | a search of a hash map, in any order, ends at a hit, and finds nothing if and only if there is none |
| Connect.Find | pgrx-sql-entity-graph/src/pgrx_sql.rs:1088-1144 | a search through several maps ends at a hit in the first map that has one, and finds nothing if and only if no map has one |
| Connect.AddEvery | pgrx-sql-entity-graph/src/pgrx_sql.rs:1462-1498 | the loops that connect every hit add one edge per hit and no other, into the entity or out of it |
| Connect.ConnectResolvedType | pgrx-sql-entity-graph/src/pgrx_sql.rs:2216-2248 | succeeds if and only if the slot's placeholder or declaring node exists, and then adds the one edge from it with the slot's weight |
| Connect.ConnectWant | pgrx-sql-entity-graph/src/pgrx_sql.rs:1590-1682 | one connection fails if and only if it must find something and cannot, and otherwise appends exactly its edges |
| Connect.ConnectWants | pgrx-sql-entity-graph/src/pgrx_sql.rs:1418-1571 | the connections of one entity, in order: succeeds if and only if each one does, and appends exactly their edges |
| Connect.ConnectAll | pgrx-sql-entity-graph/src/pgrx_sql.rs:1277-1331 | the same for one of the loops over a hash map, in any order |
| Connect.ConnectPhases | pgrx-sql-entity-graph/src/pgrx_sql.rs:191-239 | the same for all eight loops after the schemas: succeeds if and only if every connection that must find something can, and appends exactly the edges of one fulfilment of each, parallel edges counted; which edges these are is said entity by entity below (`PlainGraph`, `PlainTypes`) |
| BuiltGraph.NothingLeftToFail | pgrx-sql-entity-graph/src/pgrx_sql.rs:2189-2248 | every slot that passed the first phase is available to the second |
| BuiltGraph.Initialize | pgrx-sql-entity-graph/src/pgrx_sql.rs:147-187 | the first phase succeeds exactly if there is at most one bootstrap and one finalize block, no identifier is declared twice and every own type is declared; every map then points at nodes that hold its keys |
| BuiltGraph.ConnectableIff | pgrx-sql-entity-graph/src/pgrx_sql.rs:188-239 | after the first phase, whether the second can fail depends on the input alone |
| BuiltGraph.ConnectGraph | pgrx-sql-entity-graph/src/pgrx_sql.rs:188-239 | the second phase succeeds if and only if every required name is found, and appends the schema edges and then exactly the connections of the eight loops |
| BuiltGraph.BuildGraph | pgrx-sql-entity-graph/src/pgrx_sql.rs:90-260 | the build succeeds if and only if the input is accepted: the conditions of the first phase, and every function, schema and block that the second must find is there; the nodes are the entities in order plus one placeholder per external identifier in use, and the edge list is the one that the phases make |
| AcceptedInputs.FoundIff | pgrx-sql-entity-graph/src/pgrx_sql.rs:1088-1144 | a search can end somewhere if and only if the extension has an entity that it looks for |
| AcceptedInputs.TypeLinkedIff | pgrx-sql-entity-graph/src/pgrx_sql.rs:1277-1331 | a type can be connected if and only if there are functions at its input, output, receive and send paths |
| AcceptedInputs.AggregateLinkedIff | pgrx-sql-entity-graph/src/pgrx_sql.rs:1896-1985 | an aggregate can be connected if and only if there are functions at all the paths that it names |
| AcceptedInputs.BlockLinkedIff | pgrx-sql-entity-graph/src/pgrx_sql.rs:1146-1193 | a block can be connected if and only if everything that it requires is there |
| AcceptedInputs.FunctionLinkedIff | pgrx-sql-entity-graph/src/pgrx_sql.rs:1429-1476 | a function can be connected if and only if everything that it requires, and its first declared schema, is there |
| AcceptedInputs.AllLinkedIff | pgrx-sql-entity-graph/src/pgrx_sql.rs:1146-2087 | the second phase can fail for missing names of types, aggregates, blocks and functions only |
| AcceptedInputs.LoneTypeRejected | pgrx-sql-entity-graph/src/pgrx_sql.rs:2068-2087 | an extension with a type and none of its functions is not accepted |
| PlainAccepted.AcceptedIff | pgrx-sql-entity-graph/src/pgrx_sql.rs:90-260 | in terms of the entities: accepted if and only if one block at most is bootstrap and one finalize, no type identifier is declared twice, the own types in use are declared, and every function, block, schema and entity that types, aggregates, blocks and functions name is there |
| PlainEntities.PathParts | pgrx-sql-entity-graph/src/pgrx_sql.rs:1088-1144 | a path of segments without colons is cut into its last segment and the path of the others |
| PlainEntities.ResolvedPath | pgrx-sql-entity-graph/src/pgrx_sql.rs:2089-2091 | a function name with a `::` is a path of its own, any other is in the module |
| PlainGraph.ListedOnce | pgrx-sql-entity-graph/src/pgrx_sql.rs:1333-1416 | the node of an entity that is listed once is the one that the maps point at |
| PlainGraph.ExplicitFeeds | pgrx-sql-entity-graph/src/pgrx_sql.rs:1146-2087 | an explicit edge of a built graph comes from the root or bootstrap, goes to finalize, or joins an entity to its schema, to a function or type that it names, or to what it requires, in terms of names and module paths |
| PlainGraph.OperatorEdge | pgrx-sql-entity-graph/src/pgrx_sql.rs:1616-1635 | every function named with the type's lower-case name and `_cmp`, `_lt`, `_le`, `_eq`, `_gt` or `_ge` in the module of an `Ord` has an edge to it |
| PlainGraph.OperandEdge | pgrx-sql-entity-graph/src/pgrx_sql.rs:2250-2260 | the type or enum of an `Ord` or `Hash` has an edge to it |
| PlainGraph.HashFunctionEdge | pgrx-sql-entity-graph/src/pgrx_sql.rs:1676-1680 | if functions in the module of a `Hash` are named with the lower-case name and `_hash`, one of them has an edge to it |
| PlainGraph.OnlyHashFunctionEdge | pgrx-sql-entity-graph/src/pgrx_sql.rs:1676-1680 | if there is one such function only, that one has |
| PlainGraph.EqualityEdge | pgrx-sql-entity-graph/src/pgrx_sql.rs:1491-1498 | every function named with the lower-case name and `_eq` in the module of a `Hash` has an edge to it |
| PlainGraph.DeclaredSchemaEdge | pgrx-sql-entity-graph/src/pgrx_sql.rs:1463-1476 | every schema of the name that a function declares has an edge to it |
| PlainGraph.ModuleSchemaEdge | pgrx-sql-entity-graph/src/pgrx_sql.rs:2049-2066 | if there is a schema in the module of an entity that declares none, one has an edge to it |
| PlainGraph.TypeFunctionEdge | pgrx-sql-entity-graph/src/pgrx_sql.rs:1277-1331 | a function at each of the input, output, receive and send paths of a type has an edge to it |
| PlainGraph.AggregateFunctionEdge | pgrx-sql-entity-graph/src/pgrx_sql.rs:1896-1985 | a function at each path that an aggregate names has an edge to it |
| PlainGraph.ReferenceEdge | pgrx-sql-entity-graph/src/pgrx_sql.rs:1088-1193 | if a `requires` or a support function names entities, one of them has an edge to the one that names it; a path prefers types, then enums, functions, schemas and triggers |
| PlainTypes.SlotIffUse | pgrx-sql-entity-graph/src/pgrx_sql.rs:1333-1786 | the slots of a function are the types of its visible arguments and of its plain, set or table result, those of an aggregate its arguments, direct arguments and state types |
| PlainTypes.TypeEdgeIff | pgrx-sql-entity-graph/src/pgrx_sql.rs:2216-2248 | edges of the other two weights are exactly those from the placeholder or the declaring entity of a type to a user of it |
| PlainTypes.PlaceholderIff | pgrx-sql-entity-graph/src/pgrx_sql.rs:2189-2214 | there is a placeholder for exactly the external identifiers in use, and one each |
| BuiltFacts.ExplicitOrigin | pgrx-sql-entity-graph/src/pgrx_sql.rs:1017-2087 | every explicit edge of a built graph is a base edge, a schema edge, or a connection that one of its ends asks for |
| BuiltFacts.SlotOrigin | pgrx-sql-entity-graph/src/pgrx_sql.rs:2216-2248 | every other edge is that of a type slot of its target |
| BuiltFacts.RequiredConnected | pgrx-sql-entity-graph/src/pgrx_sql.rs:2068-2087 | every required connection of every entity is there, from a node that it looks for |
| BuiltFacts.SlotConnected | pgrx-sql-entity-graph/src/pgrx_sql.rs:2216-2248 | every type slot of every entity has its edge |
| BuiltLookup.FindTypeDependency | pgrx-sql-entity-graph/src/pgrx_sql.rs:424-432 | finds the first match among the neighbours: targets of outgoing edges and then sources of incoming ones, newest edge first, a self-loop once |
| BuiltLookup.SchemaPrefixForUsedType | pgrx-sql-entity-graph/src/pgrx_sql.rs:434-449 | no lookup for external or unresolved types; otherwise the prefix of that first match, or an error if no neighbour matches |
| BuiltLookup.SlotFound | pgrx-sql-entity-graph/src/pgrx_sql.rs:434-449 | the node that declares a slot's type is a matching neighbour of the owner |
| BuiltLookup.PlaceholderAdjacentIff | pgrx-sql-entity-graph/src/pgrx_sql.rs:2189-2248 | a placeholder is a neighbour of exactly the owners that use its identifier externally |
| BuiltLookup.SlotRenders | pgrx-sql-entity-graph/src/pgrx_sql.rs:424-449 | the lookup for a connected slot never fails, and ends at the declaring entity, or at the placeholder if the owner uses the identifier externally too |
| BuiltLookup.LookupRightIff | pgrx-sql-entity-graph/src/pgrx_sql.rs:424-449 | all matching neighbours hold the declaring entity, so that their order cannot matter, if and only if the owner has no external slot of the same identifier |
| LookupOrder.LastSlotDecides | pgrx-sql-entity-graph/src/pgrx_sql.rs:1418-1986 | of the edges into an owner from matches of an identifier, the newest is that of the last slot, in connecting order, that leads to a match |
| LookupOrder.LookupEndsIff | pgrx-sql-entity-graph/src/pgrx_sql.rs:424-449 | the lookup for an own type ends at the declaring entity if and only if an edge leads from the owner to a match, or the owner's last slot that leads to the identifier is an own slot; a slot for another identifier declared by the same block leads there too |
| LookupInputs.LookupEndsIffInput | pgrx-sql-entity-graph/src/pgrx_sql.rs:424-449 | on the input, if no search has a choice: an edge leads there if and only if the declaring entity is the finalize block or asks for the owner |
| ShadowedType.ExtensionAccepted | pgrx-sql-entity-graph/src/pgrx_sql.rs:90-260 | a block that declares a type and a function that takes it both as own and as external, in either order, are accepted |
| ShadowedType.OrderDecides | pgrx-sql-entity-graph/src/pgrx_sql.rs:424-432 | in every graph built from them the lookup ends at the placeholder if the own argument is first and at the block if it is second |
| TiedNodes.TiedIsAnchored | pgrx-sql-entity-graph/src/pgrx_sql.rs:1017-1085 | every node but the root, placeholders and superseded block copies has the edges from bootstrap and to finalize |
| TiedNodes.ExplicitTied | pgrx-sql-entity-graph/src/pgrx_sql.rs:1017-2087 | every explicit edge ends at such a node and comes from one or from the root |
| TiedNodes.RootEdgeIffLive | pgrx-sql-entity-graph/src/pgrx_sql.rs:1034-1224 | the root has an edge to exactly those of them that are no superseded schema copies |
| TiedNodes.AllRootedIff | pgrx-sql-entity-graph/src/pgrx_sql.rs:1034-1224 | every entity's node has an edge from the root if and only if no block and no schema is listed twice |
| TiedNodes.AllAnchoredIff | pgrx-sql-entity-graph/src/pgrx_sql.rs:1017-1085 | every entity's node has the edges from bootstrap and to finalize if and only if no block is listed twice or none is marked |
| BuiltView.EdgeEnds | pgrx-sql-entity-graph/src/pgrx_sql.rs:1017-2248 | every edge joins two nodes and none enters the root, so the emission's theorems apply to every built graph |
| ExplicitCycles.ExplicitAcyclicIff | pgrx-sql-entity-graph/src/pgrx_sql.rs:90-260 | the explicit edges of any built graph are acyclic if and only if those into bootstrap come from the root, none leaves finalize, and the links that entities ask for are acyclic |
| ExplicitCycles.BootstrapClearIff | pgrx-sql-entity-graph/src/pgrx_sql.rs:1017-1193 | explicit edges into bootstrap come from the root if and only if the block requires nothing, is in no schema's module and is not finalize too beside something else |
| ExplicitCycles.FinalizeClearIf | pgrx-sql-entity-graph/src/pgrx_sql.rs:1017-1571 | no explicit edge leaves finalize if nothing names it and it is not bootstrap too beside something else |
| ExplicitCycles.FinalizeClearIff | pgrx-sql-entity-graph/src/pgrx_sql.rs:1017-1571 | and only then, if no other block shares its name |
| ExplicitCycles.CycleIfTouched | pgrx-sql-entity-graph/src/pgrx_sql.rs:1017-1571 | each of these mistakes makes an explicit cycle in every graph built from the input |
| ExplicitCycles.LinksAcyclicIff | pgrx-sql-entity-graph/src/pgrx_sql.rs:1146-2087 | if no search has a choice, the links of any built graph are acyclic if and only if the entities of the input have layers that all their requests respect |
| ExplicitCycles.AcyclicIfLayered | pgrx-sql-entity-graph/src/pgrx_sql.rs:90-260 | with layers, nothing before bootstrap and nothing that names finalize, every graph built from the input is explicitly acyclic, whatever the searches choose |
| ExplicitCycles.SettledAcyclicIff | pgrx-sql-entity-graph/src/pgrx_sql.rs:90-260 | if no search has a choice, the explicit edges are acyclic if and only if nothing is to come before bootstrap, nothing names finalize and the entities have layers |
| ExplicitCycles.NoRefsAcyclicIff | pgrx-sql-entity-graph/src/pgrx_sql.rs:90-260 | without `requires` and support functions, if and only if no block is both bootstrap and finalize beside something else and the bootstrap block is in no schema's module |
| ForcedOrder.AlwaysBeforeIff | pgrx-sql-entity-graph/src/pgrx_sql.rs:451-566 | an explicit dependency is honoured for every list that meets the contract of `tarjan_scc` if and only if its ends are in different components or their component's explicit edges are acyclic |
| AnchorOrder.AnchorsInOrder | pgrx-sql-entity-graph/src/pgrx_sql.rs:1017-1085 | if the explicit edges are acyclic, then in the emission bootstrap precedes and finalize follows every other tied node, and the root precedes every node with an edge from it |
| AnchorOrder.TypeFunctionsFirst | pgrx-sql-entity-graph/src/pgrx_sql.rs:1277-1331 | the input, output, receive and send functions of a type have edges to it, and are always emitted before it if and only if they are in another component or that has no explicit cycle |
| AnchorOrder.AggregateFunctionsFirst | pgrx-sql-entity-graph/src/pgrx_sql.rs:1896-1985 | the same for the functions that an aggregate names |
| AnchorOrder.FunctionsPrecedeType | pgrx-sql-entity-graph/src/pgrx_sql.rs:451-566 | on the input: with layers, nothing before bootstrap and nothing that names finalize, the functions of every type are always emitted before it, whatever component they share |
| AnchorOrder.TypeAndFunctionMutual | pgrx-sql-entity-graph/src/pgrx_sql.rs:2216-2248 | a function that takes or returns the type is in one component with it |
| AnchorOrder.BootstrapFirstIff | pgrx-sql-entity-graph/src/pgrx_sql.rs:1034-1193 | bootstrap precedes every other tied node in every emission if and only if nothing but the root and itself has an edge to it |
| AnchorOrder.BootstrapFirst | pgrx-sql-entity-graph/src/pgrx_sql.rs:1034-1193 | so it does, whatever cycles there are, if it requires nothing, is in no schema's module and is not finalize too beside something else |
| AnchorOrder.FinalizeLastIff | pgrx-sql-entity-graph/src/pgrx_sql.rs:1034-1085 | finalize follows every other tied node in every emission if and only if no edge leads from it to another, or its component has no explicit cycle |
| AnchorOrder.FinalizeLast | pgrx-sql-entity-graph/src/pgrx_sql.rs:1034-1085 | so it does, whatever cycles there are, if nothing names it or uses its types and it is not bootstrap too beside something else |
| AnchorOrder.BootstrapInSlice | pgrx-sql-entity-graph/src/pgrx_sql.rs:998-1014 | every slice for a tied target contains the bootstrap block |
| BlockInputs.BothMarkedInput | pgrx-sql-entity-graph/src/pgrx_sql.rs:1050-1071 | one block marked both ways and a schema: accepted, and cyclic in every graph built from it |
| BlockInputs.InSchemaInput | pgrx-sql-entity-graph/src/pgrx_sql.rs:1155-1163 | a bootstrap block in a schema's module: accepted, and cyclic |
| BlockInputs.RequiringInput | pgrx-sql-entity-graph/src/pgrx_sql.rs:1165-1191 | a bootstrap block that requires another block: accepted, and cyclic |
| BlockInputs.RequiredInput | pgrx-sql-entity-graph/src/pgrx_sql.rs:1165-1191 | a finalize block that another block requires: accepted, and cyclic |
| BlockInputs.RepeatedSchemaInput | pgrx-sql-entity-graph/src/pgrx_sql.rs:1195-1224 | a schema given twice: accepted, and one entity has no edge from the root |
| BlockInputs.RepeatedBlockInput | pgrx-sql-entity-graph/src/pgrx_sql.rs:1041-1085 | a block given twice beside a bootstrap block: accepted, and one copy has no edge from bootstrap |
| TypeGraph.AddLink | pgrx-bindgen/src/build.rs:750-757 | after recording a link, parents and children are those of the link list extended by it |
| TypeGraph.DeclareAll | pgrx-bindgen/src/build.rs:713-735 | one descriptor per struct or union without links, and each name mapped to the last descriptor that bears it |
| TypeGraph.LinkDecl | pgrx-bindgen/src/build.rs:737-775 | a struct links itself below the type of its first field; a union links the types of all its fields below itself |
| TypeGraph.FromItems | pgrx-bindgen/src/build.rs:711-782 | the two loops build exactly the graph that the declarations describe |
| TypeGraph.StructChildren | pgrx-bindgen/src/build.rs:737-758 | the children of a struct are exactly the structs whose first field names it |
| TypeGraph.InheritsIffStartsWith | pgrx-bindgen/src/build.rs:711-782 | a struct is an ancestor of another if and only if it lies at offset zero of it |
| NodeTags.CollectTags | pgrx-bindgen/src/build.rs:500-525 | collects exactly the node tags and the alias tags of each type |
| NodeTags.FamilyMember | pgrx-bindgen/src/build.rs:665-679 | the family of a struct is itself and its children's families; that of a union is itself |
| NodeTags.TagResolver.Resolve | pgrx-bindgen/src/build.rs:636-686 | memoised recursion terminates and returns the tags of everything reached through child chains; the memo gains exactly the family and stays correct |
| NodeTags.TagResolver.ResolveChildren | pgrx-bindgen/src/build.rs:669-679 | the loop over children returns the own tags and those of all children's families |
| NodeCasts.ImplPgNode | pgrx-bindgen/src/build.rs:527-584 | whatever order descriptors are visited in, the tables are the specified ones, in which the pg13/pg14 override widens casts to `Value` by five tags and changes nothing else |
| NodeCasts.StructInTable | pgrx-bindgen/src/build.rs:527-584 | a struct is a node type if and only if a struct that begins with a `NodeTag` lies at its offset zero |
| NodeCasts.UnionInTable | pgrx-bindgen/src/build.rs:527-584 | a union is a node type if and only if one of its fields is a `Node` |
| NodeCasts.CastIffLayout | pgrx-pg-sys/src/node.rs:10-26 | a node casts to a struct type if and only if it is tagged `T_` and the name of a struct, or of an alias of one, that has the type at offset zero |
| NodeCasts.CastToUnion | pgrx-bindgen/src/build.rs:665-668 | a union accepts `T_` and its own name or that of an alias of it, only |
| NodeCasts.AncestorsIdentified | pgrx-bindgen/src/build.rs:534-573 | every struct at offset zero of a node type is a node type |
| NodeCasts.CastRoundTrip | pgrx-pg-sys/src/node.rs:10-62 | viewing a node as any struct at its offset zero, or as a `Node`, and casting back yields the same node |
| NodeCasts.TagDecidesCast | pgrx-bindgen/src/build.rs:586-619 | with alias names distinct from type names, nodes with a type's own tag cast exactly to the types at its offset zero |
| MachoFormat.IntRoundTrip | cargo-pgrx/src/object_utils.rs:181-201 | integers of any width in either byte order read back |
| MachoFormat.TrimNul | cargo-pgrx/src/object_utils.rs:212-215 | the longest prefix without a NUL |
| MachoReader.ReadSections | cargo-pgrx/src/object_utils.rs:113-125 | the section loop answers like a scan from the first section header, in bounds |
| MachoReader.ReadSegment | cargo-pgrx/src/object_utils.rs:88-165 | both segment readers answer like one specification with their word size |
| MachoReader.TakeTurn | cargo-pgrx/src/object_utils.rs:55-83 | a completed load command moves the cursor by at least eight bytes and never past the data |
| MachoReader.MachoSchemaSectionData | cargo-pgrx/src/object_utils.rs:50-86 | on every byte string the reader stays in bounds, and completes at most an eighth of the data's length in commands however many the header declares |
| MachoReader.FoundIsPartOfFile | cargo-pgrx/src/object_utils.rs:50-210 | what is found is a contiguous part of the input |
| MachoRoundTrip.ReadsFirstMatch | cargo-pgrx/src/object_utils.rs:50-165 | on any encoded file, either word size and byte order, the reader answers with the first schema section in load-command and section order |
| MachoRoundTrip.PayloadRoundTrip | cargo-pgrx/src/object_utils.rs:50-215 | any payload described by a schema section that nothing earlier preempts comes back exactly |
| MachoFiles.MinimalRoundTrip | cargo-pgrx/src/object_utils.rs:293-343 | the file that the tests build, written out byte by byte in both word sizes and both byte orders, reads back for every payload |
| MachoFiles.BadMagic | cargo-pgrx/src/object_utils.rs:167-179 | a file that starts with none of the four magic numbers is an error |
| MachoFiles.ShortHeader | cargo-pgrx/src/object_utils.rs:50-64 | so is a file of less than 20 bytes |
| MachoFiles.BadFirstCommand | cargo-pgrx/src/object_utils.rs:66-86 | so is a first command that does not fit, is shorter than its own header or than a segment header |
| MachoFiles.BadSectionTable | cargo-pgrx/src/object_utils.rs:88-165 | so is a `__DATA` segment whose section table is longer than its command |
| MachoFiles.CutOffPayload | cargo-pgrx/src/object_utils.rs:88-165 | so is a schema section that reaches past the end of the file |
| Subtransaction.Backend.MemoryContextSwitchTo | pgrx-pg-sys/src/port.rs:571-576 | installs the new context and returns the one before |
| Subtransaction.Backend.WithSubtransaction | pgrx-macros/src/pg_bench.rs:135-171 | context and resource owner come back as they were on both outcomes, success releases and failure rolls back the body's innermost subtransaction, and the depth is restored if and only if the body ended as many subtransactions as it began |
| Subtransaction.BalancedOutcome | pgrx-macros/src/pg_bench.rs:135-171 | for a balanced body, success merges exactly its effects into the parent and failure discards exactly them |
| Batches.BatchSizeIs | pgrx-bench/src/lib.rs:267-276 | the batch size is the least that covers the iterations in ten, a thousand or b batches, or one, or the number given; there is none if 64-bit arithmetic overflows or the number of batches is zero |
| Batches.IterateIs | pgrx-bench/src/lib.rs:232-236 | an iteration leaves the effects of setup, and of the routine unless setup failed, and reports the first failure |
| Batches.BatchBound | pgrx-bench/src/lib.rs:267-276 | the least number of such batches that covers the iterations is at most 10, 1000 or b, or the number of iterations |
| Batches.SpanIsBalanced | pgrx-bench/src/lib.rs:237-256 | a run of iterations is a balanced body: all its effects on success, none left after a rollback |
| Batches.Runner.SpanShared | pgrx-bench/src/lib.rs:232-237 | in shared mode the effects up to and including the failing iteration stay |
| Batches.Runner.SpanInSubtransaction | pgrx-bench/src/lib.rs:238-247 | one subtransaction around a span keeps its effects or discards them, with the globals restored |
| Batches.Runner.SpanPerIteration | pgrx-bench/src/lib.rs:248-257 | with one subtransaction per iteration, the effects up to the first failure survive |
| Batches.Runner.RunBatch | pgrx-bench/src/lib.rs:230-258 | one batch in each mode: on success all effects and the mode's number of subtransactions, on failure exactly the survivors of the mode |
| Batches.Runner.RunRoutine | pgrx-bench/src/lib.rs:222-263 | without failures setup and routine run exactly `iters` times in the least number of batches of the stated size and the right number of subtransactions; after a failure exactly the work of the subtransactions completed before it survives; if the batch size overflows or divides by zero nothing is run |
| Xid.RefinesUnboundedOrder | pgrx-pg-sys/src/port.rs:269-331 | for transactions less than half the id space apart, all four comparisons of ids are those of the transactions |
| Xid.WindowIsTotallyOrdered | pgrx-pg-sys/src/port.rs:278-290 | on the normal ids of such a window `Precedes` is a strict total order |
| Xid.HalfwayIds | pgrx-pg-sys/src/port.rs:278-331 | two normal ids precede each other if and only if they are half the id space apart; follows and precedes-or-equals are always opposite |
| Xid.NoGlobalOrder | pgrx-pg-sys/src/port.rs:278-290 | three ids that precede each other in a circle |
| Xid.PermanentIds | pgrx-pg-sys/src/port.rs:269-331 | the ids 0, 1 and 2 come before all others and are compared as numbers |
| Decimal.RoundTrip | pgrx-macros/src/lib.rs:167-167 | decimal printing can be undone |
| TestIdent.BoundaryIsBetweenChars | pgrx-macros/src/lib.rs:171-174 | a byte position is a UTF-8 boundary if and only if it lies between two characters |
| TestIdent.Shortener.MaybeShorten | pgrx-macros/src/lib.rs:154-177 | names under 64 bytes are unchanged; a longer one becomes the counter's prefix and the longest run of whole characters that fits in 63 bytes |
| TestIdent.ShortenedLength | pgrx-macros/src/lib.rs:165-177 | a shortened name has 60 to 63 bytes |
| TestIdent.ShortenAll | pgrx-macros/src/lib.rs:154-177 | over a whole compilation each long name gets the prefix of the number of long names before it |
| TestIdent.PrefixInjective | pgrx-macros/src/lib.rs:166-167 | the prefix determines its number whatever follows it |
| TestIdent.ShortenedNamesDiffer | pgrx-macros/src/lib.rs:154-177 | no two shortened names are equal |
| TestIdent.UniqueIffNoImitation | pgrx-macros/src/lib.rs:151-177 | distinct names stay distinct if and only if no short name imitates the shortened form of a long one, and so whenever no name starts with such a prefix |
| TestIdent.CollisionExists | pgrx-macros/src/lib.rs:151-177 | two different names, both text, that every run over them gives the same identifier |
| Version.DigitsOf | pgrx-pg-config/src/lib.rs:263-271 | the digits found by character and cut by byte are the leading digits |
| Version.CutsBetweenChars | pgrx-pg-config/src/lib.rs:263-271 | a byte offset can cut a character off before or after its one to four bytes only |
| Version.ParseVersionStr | pgrx-pg-config/src/lib.rs:235-282 | the parser's loops compute the specified parse on every string, without an index out of range or a cut inside a character |
| Version.ReleaseRoundTrip | pgrx-pg-config/src/lib.rs:76-85 | a printed release version reads back with any suffix that does not start with a digit, and any text after it |
| Version.BetaRoundTrip | pgrx-pg-config/src/lib.rs:235-282 | a printed beta reads back if and only if the suffix has no dot, and is rejected otherwise |
| Version.RcRoundTrip | pgrx-pg-config/src/lib.rs:235-282 | a printed rc reads back if and only if the suffix has neither a dot nor "beta", and is rejected otherwise |
| Version.LatestIsRejected | pgrx-pg-config/src/lib.rs:113-117 | the printed placeholder for "latest" never reads back |
| Version.SamplesPrinted | pgrx-pg-config/src/lib.rs:76-85 | 17.4, 18beta2, 16rc1 and 15.LATEST as they are written |
| Version.UnmarkedRejected | pgrx-pg-config/src/lib.rs:235-282 | a token without a dot, "beta" and "rc", such as a development version, is rejected |
| Version.OverflowRejected | pgrx-pg-config/src/lib.rs:259-275 | so is a number that does not fit 16 bits |
| Version.OneWordRejected | pgrx-pg-config/src/lib.rs:235-242 | so is a single word |
| UsedType.ListRight | pgrx-sql-entity-graph/src/used_type.rs:455-642 | the three list resolvers report a composite exactly for well-nested carriers and keep the chain of names |
| UsedType.OptionRight | pgrx-sql-entity-graph/src/used_type.rs:644-720 | the same for `Option` |
| UsedType.ResultRight | pgrx-sql-entity-graph/src/used_type.rs:722-851 | the same for `Result` |
| UsedType.ResolveIsRight | pgrx-sql-entity-graph/src/used_type.rs:75-128 | for types of any depth, a composite is reported if and only if the type is `composite_type!` inside alternating options and lists, possibly in a `Result`; names and leaf are kept |
| UsedType.CarriersResolve | pgrx-sql-entity-graph/src/used_type.rs:455-851 | every type that carries a well-formed composite resolves without error |
| UsedType.CarrierFoundIff | pgrx-sql-entity-graph/src/used_type.rs:455-851 | a `composite_type!` written inside containers of any depth is found if and only if options and lists alternate |
| UsedType.CarrierRewritten | pgrx-sql-entity-graph/src/used_type.rs:455-851 | then the resolved type is the heap tuple inside the same containers, spelled out |
| UsedType.BadMacroRejected | pgrx-sql-entity-graph/src/used_type.rs:75-128 | a macro that is not a readable `composite_type!` in its place is an error |
| UsedType.FlagsUnchanged | pgrx-sql-entity-graph/src/used_type.rs:131-237 | the variadic, optional and result flags are those of the type as written |
| UsedType.FlagsAre | pgrx-sql-entity-graph/src/used_type.rs:131-237 | which type names set the variadic, optional and result flags, and exactly which types cannot be read |
| UsedType.NewIsRight | pgrx-sql-entity-graph/src/used_type.rs:47-260 | the same of `UsedType::new` as a whole, below a `default!`, whose value it records |
| UsedType.InnerFoundIff | pgrx-sql-entity-graph/src/used_type.rs:239-248 | of every type that `UsedType::new` accepts as a `Result`: as written with one path segment, its success type is recorded; with more, the first argument of the first segment is; so of paths without earlier arguments it is recorded if and only if there is one segment |
| UsedType.QualifiedResultLosesInner | pgrx-sql-entity-graph/src/used_type.rs:239-248 | a qualified `Result` for which it is missing |

## Left out

- `tarjan_scc`, `syn`, `quote`, the `object` crate and fat binaries: library code, taken as contracts or inputs.
- SQL text, `ALTER EXTENSION` statements, DOT output and highlighting: string formatting.
- BuildGraph: sorting and splitting the entity list by kind is taken as done, so is the lower-case form of a name that operator functions are found by; fields that the build only copies are one number.
- FinalizeClearIff: if several blocks share the name of the finalize block, a reference may lead to any of them, and only `ExplicitAcyclicIff` is exact; the same holds of `SettledAcyclicIff` where a search has several hits.
- BootstrapFirst: a block that requires nothing but itself also comes first; `BootstrapFirstIff` covers it.
- FindTypeDependency: that petgraph lists the newest edge first, and outgoing edges before incoming ones, is taken as given.
- `Routine::Iter`, timing, criterion files and statistics: no state of their own, or input and output.
- WithSubtransaction: a body that leaves no subtransaction to end is excluded, because Postgres aborts there; `execute_guarded` and error reporting are not modelled.
- IterationsPerBatch: overflow is the debug-build panic; the wrapping of release builds is not modelled.
- MachoSchemaSectionData: offsets are those of a 64-bit `usize`; error messages are not told apart.
- PayloadRoundTrip: section offset plus size stays below 2^64, as it does in any file.
- ImplPgNode: type names are unique and no type contains itself by value, as the Rust compiler demands; the emitted `impl` text is not modelled.
- ResolveComposite: a macro body is represented by what it parses to; the literal of `default!` is not parsed; error messages are not told apart.
- The schema section's own wire format (`section.rs`), control files, manifests, `pg_config` processes, raw page access and proc-macro templates: not part of this model.

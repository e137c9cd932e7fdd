# Verified model of the Apollo MCP server's core algorithms

The Apollo MCP server offers GraphQL operations as tools. This project models the parts of it whose correctness is not
visible from reading one function, and proves what they are for. All statements hold for every input, every schema and
every run of the model. `dafny verify dfyconfig.toml` checks the whole project.

## What is modelled

**Schema index** (`schema`, `sequences`, `path`, `traverse`, `edge_paths`, `schema_edges`, `references`, `index`,
`search`, `root_paths`, `root_order`, `schema_paths`, `hidden_shortcut`). `traverse` walks the types of a schema depth
first with an explicit stack, `SchemaIndex::new` turns the paths it yields into a map from each type to the encoded
references to it, and `search` follows that map upward, breadth first, from a matched type. `Walk` holds one turn of the
stack loop on values, with a history (the paths popped, the first paths expanded, a finishing order) and the invariant
every turn keeps; `Traverse.Traversal` is the loop on its mutable stack and map. The invariant is that the parent paths
of the stack entries are prefixes of one another, so a visited type that is not on the current path has finished. The
walk therefore drops exactly the back edges, the recorded references are acyclic however cyclic the schema is, and the
upward search ends. It does not end because of its `visited` set: that set holds bare type names and is asked about
encoded references, so it only ever prunes references without a field (`References.EncodedIsNameIffNoField`).

**Schema tree shaker** (`graphs`, `shake_views`, `shake_graph`, `shake_spec`, `shaker`, `operation`, `visits`,
`requests`, `shaken`, `depth`). Retaining a type marks it and all it uses, under a depth limit, or what a selection set
selects. `Shaker.SchemaTreeShaker` has the source's mutually recursive procedures over its mutable marks. Without a
selection each call is specified exactly, from any state: what is added is what a walk around the types retained before
can reach, or the ball of the given radius. With a selection it is specified by `ShakeSpec.TypeEffect`, which bounds
what is added from every state and is exact under a limit or from a state in which retained input types have all that
they use; every retention without a limit keeps such a state. For a valid operation `Requests.TypeGrants` gives its
closed form: the types visited, the fields selected, and what the input types asked for reach. `Typing`, `Visits` and
`Shaken` prove about it what an operation needs. `Depth` is about the subtraction in `DepthLimit::decrement`.

**Search tool** (`shown_types`, `search_tool`, `input_chain`). The root paths that a search returns, shaken out of the
schema together: the composition of the two algorithms above. `ShownTypes.Shown` says, type by type, what is retained
for a list of paths; `SearchTool.Execute` is the program's loop over a mutable shaker and keeps exactly that.

**Polling protocols** (`uplink`, `platform`). Servers, registries and receivers are environments that may answer
anything at each request; a run is a sequence of their answers. Runs are finite, of any length.

**Smaller cores** (`rhai`, `operation_source`, `auth`). Removing sharing from a script scope; merging watched operation
files; the OAuth middleware's decision from headers and from the body.

## Findings

- The documentation at crates/apollo-schema-index/src/lib.rs:18-20 says that the shortest paths to a root take precedence.
  The first path found is not always a shortest path of the schema from a requested root, for two reasons: a requested
  root that another requested root leads to may have a recorded reference, and then it is passed through; and the walk
  records no back edge, so a path that takes one is never found. `SchemaPaths.ShortestInSchemaIff` says, for every schema,
  that the promise is kept for every match if and only if no requested root has a recorded reference and no dropped edge is
  a shortcut; the dropped edges are the back edges of the walk (`SchemaPaths.DroppedIffBack`).
  `SchemaPaths.QueriesAreShortestInSchemaIff` and `MutationsAreShortestInSchemaIff` put the first condition on the schema
  for the operation types that the search tool asks for. `HiddenShortcut.ShortestIsNeverFound` breaks the promise with
  queries alone; `RootPaths.QueryBelowMutation` breaks it with mutations.
- Among recorded paths alone, the first path found is a shortest one from a requested root if and only if no requested root
  has a recorded reference (`RootPaths.ShortestFromRootsIff`), which for queries alone is always so.
- The `visited` set of the search prunes references without a field, and with them root paths. Every root path is found,
  given room, unless another path led to the type of such a reference with fewer types; it is lost for certain when that
  path was shorter by two (`Search.SearchType`). With equal steps up to the reference the order of the queue decides.
- A depth limit as large as the nesting of the selected fields does not keep `retain_fragments` from decrementing a limit
  of zero: a union on the way takes a level of its own (`Depth.NestingIsNotEnough`). `Depth.Need` computes, from the schema
  and the selection, the least limit from which on no step decrements zero (`Depth.SafeFromNeedOn`). It is at most the
  nesting in a schema without unions (`Depth.NestingBoundsNeed`). A smaller limit may pass where a larger one does not
  (`Depth.SmallerMayPass`), so a least safe limit would promise nothing about the next one.
- A union keeps exactly those of its members that the operation visits: as the type of a selected field, as a type
  condition, or as a member for which the union has a selection (`Shaken.UnionKeepsVisited`). A union selected only through
  an interface of its members may so be left without any (`Shaken.UnionLosesItsMembers`), and is exactly when the operation
  visits none of them (`Shaken.UnionIsEmptyIff`). The selected fields are kept on the interface.
- A type retained first without and later with a selection gets a narrowed field list; `Shaken.RetentionNarrows` says
  exactly when a kept field is lost. The sets of retained types and directives only grow (`ShakeViews.RetainsGrows`,
  `ShakeViews.AddsGrows`).
- The search tool retains the input types of arguments without a limit, because all input must be given
  (crates/apollo-mcp-server/src/introspection/tools/search.rs:141-146). For all answers of the search, every kept input
  object has all that it uses if and only if the leaf depth is at most one, which is the default
  (`InputChain.FullInputsIff`). At every larger depth a match can retain an input object at the edge of its depth, and the
  later retention without a limit returns early: `InputChain.ChainLeftInPart` is a schema and two answers for each depth.
  At a depth of zero the matched type is not retained for its own sake.
- A path of operation files that is configured twice keeps every update from being sent (`OperationSource.Watch`).
- Round robin over no endpoints divides by zero (crates/apollo-mcp-registry/src/uplink.rs:128); the model requires one.

## Model

| member | source | states |
|---|---|---|
| Paths.AddChildExtends | crates/apollo-schema-index/src/path.rs:87-111 | adding a child appends one type and one step at the end of the path, and nothing else changes |
| Paths.ReferencingTypeIsLastStep | crates/apollo-schema-index/src/path.rs:128-150 | the referencing type is the start, field and arguments of the path's last step; a single type has none |
| Paths.HasCycleIffRepeats | crates/apollo-schema-index/src/path.rs:152-169 | a path is found to have a cycle if and only if it repeats a type |
| Walk.CycleTargetIsOpen | crates/apollo-schema-index/src/traverse.rs:38-41 | the popped path closes a cycle if and only if its last type is on the open path of the stack |
| Walk.PopKeeps | crates/apollo-schema-index/src/traverse.rs:37-138 | one turn keeps the invariant: prefix-chained stack, finishing order with the open types last, each indexed visited type expanded once, nothing pushed lost or popped twice |
| Walk.AfterKeeps | crates/apollo-schema-index/src/traverse.rs:28-138 | every state of every run satisfies the invariant |
| Walk.EdgeDroppedIffBack | crates/apollo-schema-index/src/traverse.rs:38-41 | of the edges out of an expanded type, exactly the back edges and those that leave the indexed types yield no path |
| Walk.YieldsEveryEdgeOnce | crates/apollo-schema-index/src/traverse.rs:30-138 | as multisets, the paths yielded are those pushed for the roots and for each edge of each expanded type that have no cycle and end at an indexed type; the edges are those of `SchemaEdges.EdgeIffLeads` and `SchemaEdges.EdgesInOrder` |
| SchemaEdges.EdgeIffLeads | crates/apollo-schema-index/src/traverse.rs:62-133 | what the walk pushes for a type is, per kind, each field of an object or interface with its name, argument types and type, each member of a union, and each object that declares the interface, and nothing else |
| SchemaEdges.EdgesInOrder | crates/apollo-schema-index/src/traverse.rs:62-133 | and it is pushed in the order of the definitions, and for an interface then in the order of the types |
| SchemaEdges.RootsAreRequested | crates/apollo-schema-index/src/traverse.rs:30-36 | the walk starts from the root types of the requested operation types and from no other |
| SchemaEdges.LeadYieldsOnePath | crates/apollo-schema-index/src/traverse.rs:38-138 | in a schema without repeated names, each way in which the definition of a reached type leads to another ends exactly one yielded path, or none if the other is on the first path to the type, undefined or built in |
| SchemaEdges.YieldsPaths | crates/apollo-schema-index/src/traverse.rs:38-138 | every yielded path starts at a requested root, goes from definition to definition, repeats no type, and ends at a type that is defined and not built in |
| SchemaEdges.YieldsReached | crates/apollo-schema-index/src/traverse.rs:30-138 | yielded paths end at exactly the types that are defined, not built in, and reached through the definitions from the requested roots |
| Walk.PopsBounded | crates/apollo-schema-index/src/traverse.rs:38-60 | at any time, paths popped plus paths on the stack are at most the number of roots plus the number of edges |
| Walk.LiveBounded | crates/apollo-schema-index/src/traverse.rs:38-139 | the walk stops: no more turns find a path to pop than there are roots and edges |
| Traverse.Traversal.PopOne | crates/apollo-schema-index/src/traverse.rs:38-138 | one turn on the mutable stack and map is one turn of the value machine; the item is the popped path if the walk yields it |
| Traverse.Traversal.Next | crates/apollo-schema-index/src/traverse.rs:37-140 | each call appends exactly the item returned to the yielded paths, and no item means that the stack is empty |
| References.RoundTrip | crates/apollo-schema-index/src/lib.rs:234-248 | decoding an encoded reference gives back its type, optional field and arguments, for all legal names |
| References.EncodedIsNameIffNoField | crates/apollo-schema-index/src/lib.rs:477-483 | an encoded reference can equal a bare type name only if it has no field, so the visited check prunes no field reference |
| References.SpacesAre | crates/apollo-mcp-server/src/operations/operation_source.rs:105-110 | white space is, character by character, that of the Unicode standard |
| Indexing.Build | crates/apollo-schema-index/src/lib.rs:228-252 | the map built holds exactly the types that are defined, not built in and reached through the definitions, with what a whole walk records |
| Indexing.ReferencesInOrder | crates/apollo-schema-index/src/lib.rs:229-250 | the references of a type are those in which the yielded paths that step to it record their last step, each once, in the order yielded |
| Indexing.IndexIsAcyclic | crates/apollo-schema-index/src/lib.rs:229-250 | for every schema one order ranks every recorded reference upward, each reference decodes to an edge of the schema from an indexed type, and only requested roots have none |
| Indexing.IndexHoldsReached | crates/apollo-schema-index/src/lib.rs:228-252 | every index of a schema holds exactly the types reached through the definitions that are not built in |
| Indexing.ParentIsYielded | crates/apollo-schema-index/src/lib.rs:234-249 | the type that a recorded reference names is itself in the index |
| Upward.TurnDrops | crates/apollo-schema-index/src/lib.rs:417-486 | each turn of the search strictly lowers the summed number of upward paths from the queued types, whatever was visited |
| Upward.TurnKeeps | crates/apollo-schema-index/src/lib.rs:417-486 | each turn keeps the queue in at most two levels of length, and what was reached no farther than any recorded path reaches it |
| Upward.HeadReached | crates/apollo-schema-index/src/lib.rs:417-486 | the head of every recorded path was visited at no greater length, or the queue still holds a path that is no longer, despite the pruning |
| Upward.DryHasFound | crates/apollo-schema-index/src/lib.rs:415-486 | a search whose queue ran empty has found a root path |
| Upward.NoneLostKept | crates/apollo-schema-index/src/lib.rs:455-484 | at every turn each root path is found, continues a queued path, or has on it a type reached by a reference without a field to which a recorded path with fewer types leads |
| Upward.NoneLateKept | crates/apollo-schema-index/src/lib.rs:476-483 | at every turn no path that is found or queued has on it such a type to which a recorded path shorter by two leads |
| Upward.FieldsAreNotOvertaken | crates/apollo-schema-index/src/lib.rs:455-484 | when every reference has a field, no root path can be lost that way |
| Search.UpPathFollowsSchema | crates/apollo-schema-index/src/lib.rs:455-484 | a path along recorded references steps along edges of the schema and repeats no type |
| Search.SearchType | crates/apollo-schema-index/src/lib.rs:409-486 | it terminates; every result is a repeat-free path along schema edges from a requested root to the match; lengths do not decrease; the first is no longer than any recorded path from an unreferenced type; one that is not found is no shorter than the last found, or overtaken; at most the maximum, at least one if that is positive, and all that are not overtaken if fewer; none overtaken by two |
| Search.SearchAll | crates/apollo-schema-index/src/lib.rs:405-487 | the result is the answers for each of the first matches, in their order, before sorting by score |
| RootPaths.ShortestFromRootsIff | crates/apollo-schema-index/src/lib.rs:406-486 | for every match the first result is a shortest recorded path from a requested root, if and only if no requested root has a recorded reference |
| RootPaths.OnlyRootIsUnreferenced | crates/apollo-schema-index/src/traverse.rs:30-41 | with one requested operation type its root never has a recorded reference |
| RootPaths.QueryBelowMutation | crates/apollo-schema-index/src/lib.rs:448-454 | a schema and its index, with queries and mutations, for which the first result is not shortest from the requested roots |
| RootOrder.FirstReachedFromQuery | crates/apollo-schema-index/src/traverse.rs:30-38 | with queries and mutations, every type that can be reached from the query type is expanded on a path from there |
| RootOrder.RootsUnreferencedIff | crates/apollo-schema-index/src/traverse.rs:30-138 | with queries and mutations, no root is referenced if and only if the mutation type cannot be reached from the query type and no type reached from the mutation type alone has an edge to the query type |
| RootOrder.QueriesAreShortest | crates/apollo-mcp-server/src/introspection/tools/search.rs:67-71 | with queries alone the first result is a shortest recorded path from the root, on every schema |
| RootOrder.MutationsAreShortestIff | crates/apollo-mcp-server/src/introspection/tools/search.rs:67-71 | with queries and mutations it is a shortest recorded path from a requested root for every match, if and only if that holds of the schema |
| SchemaPaths.DroppedIffBack | crates/apollo-schema-index/src/traverse.rs:38-41 | an edge between indexed types is missing from the index if and only if it leads to a type on the first path to the type it leaves |
| SchemaPaths.PathIsMatched | crates/apollo-schema-index/src/lib.rs:406-486 | when no root is referenced and no dropped edge is a shortcut, every path of the schema from a requested root has a recorded root path to the same type that is no longer |
| SchemaPaths.ShortestInSchemaIff | crates/apollo-schema-index/src/lib.rs:11-20 | for every schema, the first result for every match is a shortest path of the schema from a requested root, if and only if no requested root has a recorded reference and no dropped edge is a shortcut |
| SchemaPaths.QueriesAreShortestInSchemaIff | crates/apollo-mcp-server/src/introspection/tools/search.rs:67-71 | with queries alone, if and only if no dropped edge is a shortcut |
| SchemaPaths.MutationsAreShortestInSchemaIff | crates/apollo-mcp-server/src/introspection/tools/search.rs:67-71 | with queries and mutations, if and only if moreover the mutation type cannot be reached from the query type and nothing reached from the mutation type alone leads back to the query type |
| HiddenShortcut.ShortestIsNeverFound | crates/apollo-schema-index/src/traverse.rs:38-41 | a schema for which, with queries alone, a path of the schema is shorter than the first result, which is a shortest recorded one |
| Graphs.ExpandsOne | crates/apollo-mcp-server/src/schema_tree_shake.rs:565-595 | marking a type and then walking from what it uses covers exactly what the walk from the type does |
| Graphs.ExpandsBoth | crates/apollo-mcp-server/src/schema_tree_shake.rs:566-573 | retaining one set after another goes through the same types as retaining both at once |
| Graphs.BallIsDistance | crates/apollo-mcp-server/src/schema_tree_shake.rs:51-74 | the ball of radius d holds exactly the types at distance below d |
| Graphs.BallIsReach | crates/apollo-mcp-server/src/schema_tree_shake.rs:51-74 | a radius of at least the number of types reaches all that can be reached |
| Graphs.ReachClosed | crates/apollo-mcp-server/src/schema_tree_shake.rs:565-573 | what unlimited retention reaches is the least set of known types that is closed under uses and holds the start |
| ShakeGraph.UsesIffMentions | crates/apollo-mcp-server/src/schema_tree_shake.rs:598-859 | a type uses exactly the defined types that its definition names as results, arguments, members, input fields, or arguments of applied directives |
| ShakeGraph.AppliedIffCarries | crates/apollo-mcp-server/src/schema_tree_shake.rs:592-855 | the directives retained for a type are exactly the defined ones on the type, its fields, input fields and enum values |
| ShakeSpec.AcyclicHasWeights | crates/apollo-mcp-server/src/schema_tree_shake.rs:484-534 | fragments without a cycle have a measure under which expanding a spread gets smaller, so the recursion ends |
| ShakeSpec.ForMemberHolds | crates/apollo-mcp-server/src/schema_tree_shake.rs:793-823 | of its selections a union hands on to a member, in order, every field, the spreads of fragments on the member, and the inline fragments on it or without a condition |
| Shaker.SchemaTreeShaker.constructor | crates/apollo-mcp-server/src/schema_tree_shake.rs:102-146 | a fresh shaker retains nothing and narrows nothing |
| Shaker.SchemaTreeShaker.RetainDirective | crates/apollo-mcp-server/src/schema_tree_shake.rs:861-877 | exactly the directive is added and what the types of its arguments reach one level down around the retained types |
| Shaker.SchemaTreeShaker.RetainFragments | crates/apollo-mcp-server/src/schema_tree_shake.rs:484-534 | fragments at any depth of the selection are retained on their own type condition; from every state nothing else is added and nothing is lost |
| Shaker.SchemaTreeShaker.RetainType | crates/apollo-mcp-server/src/schema_tree_shake.rs:536-859 | it terminates on every schema and retains the type; without a selection it adds exactly what the walk from the type reaches around the types retained before, within the limit; with one, from every state no more than the selection calls for, all of its types but input types, and exactly its narrowed fields, and all of it under a limit or from a settled state, which it keeps settled without a limit |
| Shaker.SchemaTreeShaker.RetainOperationType | crates/apollo-mcp-server/src/schema_tree_shake.rs:148-169 | the same bounds and exactness from the root type of an operation type, which is recorded; an undefined root type adds nothing |
| Shaker.SchemaTreeShaker.RetainOperation | crates/apollo-mcp-server/src/schema_tree_shake.rs:181-202 | the same bounds and exactness for an operation with the acyclic fragments of its document |
| ShakeViews.RetainsSettles | crates/apollo-mcp-server/src/schema_tree_shake.rs:565-573 | a retention without a selection and a limit leaves every retained input type with all that it uses, if it was so before |
| ShakeViews.RetainsAdds | crates/apollo-mcp-server/src/schema_tree_shake.rs:643-681 | what is retained for arguments and directives is within the bounds from every state, and exact from a settled one |
| Typing.TypeKeepsSelected | crates/apollo-mcp-server/src/schema_tree_shake.rs:484-859 | for a valid selection the fields kept are exactly those selected, each with its parent type, result type and argument types |
| Typing.TypeNarrows | crates/apollo-mcp-server/src/schema_tree_shake.rs:574-589 | with a selection, every retained type that is not an input type has its field list narrowed |
| Visits.SameVisited | crates/apollo-mcp-server/src/schema_tree_shake.rs:484-534 | the types an operation visits do not depend on the termination measure chosen for its fragments |
| Visits.KeepsVisited | crates/apollo-mcp-server/src/schema_tree_shake.rs:484-859 | for a valid operation the types kept are, besides input types, exactly those that it visits as GraphQL types it |
| Requests.TypeGrants | crates/apollo-mcp-server/src/schema_tree_shake.rs:536-859 | retaining a valid selection keeps exactly the types visited and what the input types asked for reach, the fields selected, and the directives on all these |
| Shaken.DefinitionsAreKept | crates/apollo-mcp-server/src/schema_tree_shake.rs:238-425 | every kept definition is that of the schema but for a shorter list, in the same order: unions have the members retained, and other types lose something only if their list is narrowed, and then what is not listed |
| Shaken.RetentionNarrows | crates/apollo-mcp-server/src/schema_tree_shake.rs:574-589 | a kept type loses a field if and only if its list was not narrowed before, the selection narrows it, and does not select some field of the type |
| Shaken.SelectedFieldIsKept | crates/apollo-mcp-server/src/schema_tree_shake.rs:205-439 | every selected field is in the shaken schema on its static parent type, with its result type and argument types |
| Shaken.OnlySelectedFieldsAreKept | crates/apollo-mcp-server/src/schema_tree_shake.rs:264-280 | a kept object or interface type has no field that the operation does not select on it |
| Typing.SameMeaning | crates/apollo-mcp-server/src/schema_tree_shake.rs:484-534 | validity and selected fields of an operation do not depend on the termination measure chosen for its fragments |
| Shaken.UnionKeepsVisited | crates/apollo-mcp-server/src/schema_tree_shake.rs:361-388 | a union in the shaken schema has exactly those of its members that the operation visits |
| Shaken.UnionIsEmptyIff | crates/apollo-mcp-server/src/schema_tree_shake.rs:790-835 | it has no members if and only if the operation visits none of them |
| Shaken.UnionLosesItsMembers | crates/apollo-mcp-server/src/schema_tree_shake.rs:790-835 | a valid operation whose shaken union has no members |
| Shaken.ShakeOperation | crates/apollo-mcp-server/src/schema_tree_shake.rs:181-439 | shaking a schema down to a valid operation from its root type keeps exactly the types visited and what the input types asked for reach, every selected field typed and no other, of each union the members visited, every other part of a definition unchanged, and exactly the directives asked for or applied to what is reached; without a root type nothing |
| Shaken.SequenceRetainsReach | crates/apollo-mcp-server/src/schema_tree_shake.rs:172-179 | any sequence of unlimited retentions without selections retains exactly the types reachable from those asked for, whatever the order |
| Shaken.LimitedRetainsDistance | crates/apollo-mcp-server/src/schema_tree_shake.rs:536-572 | a limited retention keeps exactly the types at smaller distance, and with a limit of at least the number of types all that can be reached |
| Shaken.ClosedIsKeptWhole | crates/apollo-mcp-server/src/schema_tree_shake.rs:238-425 | when the retained types are closed under uses and none is narrowed, each is in the output unchanged and what it uses is there or built in |
| Shaken.ShakeType | crates/apollo-mcp-server/src/schema_tree_shake.rs:171-439 | describing one type keeps exactly what is within the depth, or with no limit all it reaches; each definition is unchanged but for union members beyond the depth; with no limit it is closed under uses up to built-ins; the directives kept are exactly those defined, not built in, and applied to a type within the depth or reach |
| Shaken.ShakeTypes | crates/apollo-mcp-server/src/schema_tree_shake.rs:171-439 | describing several types in turn keeps exactly the types reachable from them, unchanged, with the directives applied to them, closed under uses up to built-ins |
| Depth.SafeFromNeedOn | crates/apollo-mcp-server/src/schema_tree_shake.rs:67-73 | for every schema and selection, no step decrements zero at any limit from d on, if and only if d is at least the computed need |
| Depth.NeedAllowsOperation | crates/apollo-mcp-server/src/schema_tree_shake.rs:181-202 | a caller who computes the need may retain an operation under any limit from it on |
| Depth.SmallerMayPass | crates/apollo-mcp-server/src/schema_tree_shake.rs:543-545 | below the need a limit may pass where a larger one decrements zero |
| Depth.NestingBoundsNeed | crates/apollo-mcp-server/src/schema_tree_shake.rs:526-530 | in a schema without unions the need is at most the nesting of the fields with selections |
| Depth.NestingIsDeepEnough | crates/apollo-mcp-server/src/schema_tree_shake.rs:526-530 | so there a limit of at least that nesting is never decremented at zero |
| Depth.NestingIsExact | crates/apollo-mcp-server/src/schema_tree_shake.rs:526-530 | without unions and fragments, zero is never decremented if and only if the limit is zero or at least the nesting |
| Depth.NestingIsNotEnough | crates/apollo-mcp-server/src/schema_tree_shake.rs:790-835 | with a union it is not: a schema and a selection of nesting 5 under a limit of 6 |
| ShownTypes.ShownBounds | crates/apollo-mcp-server/src/introspection/tools/search.rs:120-146 | each type retained for a list of paths is asked for by a node: as a type on the way, at distance below the leaf depth of a last type, or in the reach of its argument types; and all of these are retained, of the reach at least the argument types |
| ShownTypes.FullWhenShallow | crates/apollo-mcp-server/src/introspection/tools/search.rs:121-146 | at a leaf depth of at most one, paths through output types retain every input object with all that it uses |
| SearchTool.OneFieldEffect | crates/apollo-mcp-server/src/introspection/tools/search.rs:124-140 | retaining a type one level deep with one selected field marks the type alone and narrows it to that field |
| SearchTool.Execute | crates/apollo-mcp-server/src/introspection/tools/search.rs:117-148 | the kept types are exactly those shown for the paths; a kept definition is that of the schema, with all its fields, or once a path steps on by a field exactly the fields by which paths do, and of a union the members shown; with a leaf depth of at least one every step of every path can be taken in the shaken schema; with at most one every kept input object has all that it uses |
| SearchTool.ShakeAnswers | crates/apollo-mcp-server/src/introspection/tools/search.rs:91-148 | on the answers of the search, every step of every path shown can be taken in the shaken schema, the matched type is in it, and no type is in it that no path asks for |
| InputChain.ChainLeftInPart | crates/apollo-mcp-server/src/introspection/tools/search.rs:141-146 | for every leaf depth from two on, a schema and two root paths for which an input object is kept without the one that it uses |
| InputChain.ChainIsAnswered | crates/apollo-mcp-server/src/introspection/tools/search.rs:91-100 | those two paths are answers of the search on that schema |
| InputChain.FullInputsIff | crates/apollo-mcp-server/src/introspection/tools/search.rs:141-146 | for all schemas and all answers of the search every input object is kept with all that it uses, if and only if the leaf depth is at most one |
| Uplink.TriesEndAtFirstAnswer | crates/apollo-mcp-registry/src/uplink.rs:351-402 | a poll ends at the first endpoint that answers, and tries all when none does |
| Uplink.RoundIsRotation | crates/apollo-mcp-registry/src/uplink.rs:126-141 | what one poll tries is part of one rotation of the configured urls, a permutation of them: none comes up twice, and all do when none answers |
| Uplink.Endpoints.Fetch | crates/apollo-mcp-registry/src/uplink.rs:123-144 | round robin tries the next urls of the cycle from where the last poll stopped, each at most once and all when none answers, and its position stays below twice their number; fallback tries a prefix |
| Uplink.FaithfulAt | crates/apollo-mcp-registry/src/uplink.rs:241-321 | at every poll of a faithful run the id sent is the latest received, the item follows from the answers, the sleep is the latest delay, and only the last poll may end the run |
| Uplink.FaithfulSays | crates/apollo-mcp-registry/src/uplink.rs:241-321 | at every poll of a faithful run, in terms of the answers: what is pushed, the id sent, the delay slept, and whether another poll follows |
| Uplink.PollLoop | crates/apollo-mcp-registry/src/uplink.rs:241-321 | over any run the urls tried, joined, are the endless cycle of the configured urls with none skipped; each poll pushes what the first answer comes to, an error that says not to try again as the lasting error; it sends the latest id and sleeps for the latest delay that an answer carried; and another poll follows exactly unless such an error or a gone receiver stops it |
| Uplink.GoesOn | crates/apollo-mcp-registry/src/uplink.rs:126-141 | two polls in a row continue one walk around the urls |
| Platform.StartsIff | crates/apollo-mcp-registry/src/platform_api/schema.rs:56-77 | the stream starts exactly when the first request that does not fail for the time being, by connection, timeout, sending, or a status of 429 or 500 to 599, succeeds and the receiver is there, and gives up exactly when it fails in any other way |
| Platform.LoadFirst | crates/apollo-mcp-registry/src/platform_api/schema.rs:56-77 | the start-up loop ends as the specification says, and sends the first document only |
| Platform.StreamPublishedSchema | crates/apollo-mcp-registry/src/platform_api/schema.rs:50-118 | the whole run is faithful to the registry's answers; after the first success only a gone receiver ends it, never a fetch error |
| Platform.HashIsOfLastDocument | crates/apollo-mcp-registry/src/platform_api/schema.rs:86-94 | at every poll the hash compared against is that of the document sent last, even when a publish lands between the two requests |
| Platform.PollCatchesUp | crates/apollo-mcp-registry/src/platform_api/schema.rs:79-115 | once the registry is still and requests succeed, the next poll leaves the last document sent equal to the published one |
| Platform.StillRegistryIsQuiet | crates/apollo-mcp-registry/src/platform_api/schema.rs:82-84 | from then on nothing more is sent, whichever requests fail |
| Platform.SendsAtMostOncePerChange | crates/apollo-mcp-registry/src/platform_api/schema.rs:79-115 | over any run, documents sent after the first are at most the changes of hash that the registry showed |
| Rhai.IndependentIffUnshared | crates/apollo-mcp-rhai/src/engine.rs:107-110 | what a script finds in a value is safe from every write to shared cells if and only if no cell is reachable in it |
| Rhai.DetachIsUnshared | crates/apollo-mcp-rhai/src/engine.rs:159-186 | a detached value has no shared cell in it |
| Rhai.DetachKeepsContents | crates/apollo-mcp-rhai/src/engine.rs:159-186 | along every path a detached value shows what the value showed, whatever is later written to the cells |
| Rhai.RhaiEngine.DetachSharedValues | crates/apollo-mcp-rhai/src/engine.rs:111-122 | the stored scope keeps its names, constness and contents and has no shared cell left |
| Rhai.RhaiEngine.ExecuteHook | crates/apollo-mcp-rhai/src/engine.rs:124-144 | a hook runs against a copy of the stored scope, which it cannot change; a missing hook does nothing |
| Rhai.RhaiEngine.ExecuteHooks | crates/apollo-mcp-rhai/src/engine.rs:124-144 | over any sequence of calls that write anything, each starts from the contents the first one started from |
| OperationSource.Read | crates/apollo-mcp-server/src/operations/operation_source.rs:91-142 | reading fails exactly when a text that it takes cannot be read, and otherwise gives an operation exactly for each document, or for the file, whose text has a character that is not white space |
| OperationSource.LoadIff | crates/apollo-mcp-server/src/operations/operation_source.rs:91-142 | the same of the specified load, on the texts themselves |
| OperationSource.DirectoryInOrder | crates/apollo-mcp-server/src/operations/operation_source.rs:94-113 | a directory that loads gives one operation for each document that is not blank, in the order of the listing |
| OperationSource.MergeKeepsOneOfEach | crates/apollo-mcp-server/src/operations/operation_source.rs:150-177 | merging keeps, in any order of the paths, exactly one operation of each canonical path and every one without a source |
| OperationSource.CountTells | crates/apollo-mcp-server/src/operations/operation_source.rs:146-150 | as many paths are loaded as configured exactly when all are loaded and none is configured twice |
| OperationSource.Watcher.Changed | crates/apollo-mcp-server/src/operations/operation_source.rs:87-190 | a failed reading is reported and keeps the loads; an update is sent exactly when all paths have loaded, and merges their latest loads |
| OperationSource.Watch | crates/apollo-mcp-server/src/operations/operation_source.rs:81-193 | at every change of every run: an error is reported exactly for a reading that fails; an update is sent exactly when every path has been read and none is configured twice, with every operation of the last readings that has no source and exactly one of each file, and nothing else |
| OperationSource.SentReports | crates/apollo-mcp-server/src/operations/operation_source.rs:87-190 | what is sent by the loads is what is reported by the texts read |
| OperationSource.LoadStays | crates/apollo-mcp-server/src/operations/operation_source.rs:118-145 | the latest successful load of a path stays until the next one |
| OperationSource.UpdateHoldsEachOnce | crates/apollo-mcp-server/src/operations/operation_source.rs:150-177 | for each operation with a source in the last reading of its path, an update holds exactly one of the same file |
| OperationSource.UpdateIsLoaded | crates/apollo-mcp-server/src/operations/operation_source.rs:150-177 | everything in an update is in the last reading of some path |
| Auth.Request.ExtractBody | crates/apollo-mcp-server/src/auth.rs:743-763 | the body is put back whenever it could be peeked at, and is otherwise gone with the status of the refusal |
| Auth.OauthValidate | crates/apollo-mcp-server/src/auth.rs:790-1035 | the outcome is the decision on headers, token and body, and every forwarded request has the body it came with |
| Auth.HeadersDecideAsBody | crates/apollo-mcp-server/src/auth.rs:857-939 | when readable headers agree with the body, deciding from either gives the same outcome, with any token or none |
| Auth.RepeatedDecideNothing | crates/apollo-mcp-server/src/auth.rs:703-723 | unless the request names a protocol version that enforces them, the headers that repeat the method and the name do not change the outcome, but that a skip list may ask whether one is there |
| Auth.BodyDecidesNothing | crates/apollo-mcp-server/src/auth.rs:857-939 | when it does, the body does not change the outcome, unless a request with a token has headers that cannot be read |
| Auth.ForwardedIffPermitted | crates/apollo-mcp-server/src/auth.rs:857-1035 | a POST whose body says what the headers say, where the version enforces them, is forwarded if and only if a listed header, method or tool, or a valid token with the configured scopes and one group of the tool's scopes, permits it |
| Auth.OtherVerbs | crates/apollo-mcp-server/src/auth.rs:835-850 | any other request is forwarded if and only if it is a GET without a session, has a listed header, or has a valid token with the configured scopes |
| Auth.RefusalSaysWhatIsMissing | crates/apollo-mcp-server/src/auth.rs:963-1026 | a call that is not permitted is answered by asking for a token, for the configured scopes, or for the first group of scopes of its operation, in that order |
| Auth.UnreadableBody | crates/apollo-mcp-server/src/auth.rs:892-925 | a body that cannot be peeked at is refused for that, by 413 or 400, exactly with a token, where some operation has scopes and the headers do not say which is called |

## Left out

- Text search: scoring, tokenising, stemming, identifier splitting and boosting of shorter paths. The matched types are
  inputs of `Search.SearchAll`; the final sort by score is not modelled, so order is that of discovery.
- List and non-null wrappers of types, which both graph algorithms strip before they look at a type.
- Arguments of selections: argument and directive values are not looked at except for descriptions, which are
  bookkeeping (crates/apollo-mcp-server/src/schema_tree_shake.rs:458-482).
- `implements` declarations are copied to the shaken schema and not followed, in the source and in the model; the closure
  statements do not cover them. Building the final schema document from the definitions is not part of this model.
- Duplicate names within one list of fields: the source keeps fields in a map, the model finds the first of a name.
- Inline fragments without a type condition: the source ignores them outside unions. `Typing.Valid` excludes them, which
  section 2.8.2 of the GraphQL specification (October 2021) does not; every other member allows them.
- Shaker.SchemaTreeShaker.RetainType: with a selection and no limit from a state in which a retained input type lacks
  something that it uses, as a limited retention may leave it, the input types and directives added are bounded but not
  determined; they depend on where the walk is cut off. No caller in the repository is in that case: an operation is retained
  on a fresh shaker (crates/apollo-mcp-server/src/operations/operation.rs:105-106), where the statement is exact, and the
  search tool selects only under a limit.
- Shaker.SchemaTreeShaker.RetainFragments: the same, for the type conditions of fragments.
- Shaker.SchemaTreeShaker.RetainOperationType: the same, from the root type.
- Shaker.SchemaTreeShaker.RetainOperation: the same.
- RootPaths.ShortestFromRootsIff: compares recorded paths only; `SchemaPaths.ShortestInSchemaIff` compares all paths of
  the schema.
- RootOrder.QueriesAreShortest: the same; see `SchemaPaths.QueriesAreShortestInSchemaIff`.
- RootOrder.MutationsAreShortestIff: the same; see `SchemaPaths.MutationsAreShortestInSchemaIff`.
- Search.SearchType: which of two recorded paths of the same length reaches a type first, and so prunes the other, depends
  on the order of the references; only a lead of two is decided by lengths alone.
- Shaken.UnionLosesItsMembers: whether the rest of the program accepts a union without members is not part of this model.
- SearchTool.Execute: the filter that drops the mutation type from the output, and the text form of types.
- Uplink.PollLoop: finite runs of any length, as many polls as the environment has rounds. Time, HTTP and channels are not
  modelled; each round says whether the receiver takes an item.
- Platform.StreamPublishedSchema: the same; the two requests of a poll are separate answers of the registry.
- Rhai.Detach: assumes that cells are acyclic and that none directly holds another shared value, as the script engine
  makes them. What a hook writes to its own copy of the scope is discarded and so not represented.
- OperationSource.Watch: changes of different paths are taken one after another, as the mutex makes them. A failure of
  the mutex, and operations from manifests and collections, are left out.
- Auth.OauthValidate: token validation, the parsing of bodies and of the query string, and the list of protocol versions
  are inputs. Connection failures while a body is read, logging, and the rendering of challenges are left out.
- The script compiler, the server state machine, manifest polling, CORS, TLS and host validation: thin layers over
  libraries, or not about data.

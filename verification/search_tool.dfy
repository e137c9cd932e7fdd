/** The search tool (crates/apollo-mcp-server/src/introspection/tools/search.rs): the root paths that a search returns,
    shaken out of the schema together. */
module SearchTool {
  import opened GraphQL
  import opened Graphs
  import opened ShakeViews
  import opened ShakeGraph
  import opened ShakeSpec
  import opened Shaker
  import opened Shaken
  import opened Paths
  import opened ShownTypes
  import opened SchemaEdges
  import Indexing
  import Search
  import Walk

  // ---------- What the paths ask for ----------

  /** The path goes on from this node by a field. */
  predicate PassesByField(s: Schema, n: PathNode) {
    n.child.Some? && n.fieldName.Some? && n.nodeType in s.types
  }

  /** The fields by which paths pass through types, as a selection names them. */
  function PassedFields(s: Schema, nodes: seq<PathNode>): set<(Name, Name)> {
    set n | n in nodes && PassesByField(s, n) && n.fieldName.value != "__typename" :: (n.nodeType, n.fieldName.value)
  }

  function PassedTypes(s: Schema, nodes: seq<PathNode>): set<Name> {
    set n | n in nodes && PassesByField(s, n) :: n.nodeType
  }

  /** After some nodes: the types shown, of which exactly those passed by fields are narrowed, to exactly those
      fields. */
  ghost predicate RetainedFor(s: Schema, leafDepth: nat, nodes: seq<PathNode>, v: View) {
    && v.types == Shown(s, leafDepth, nodes)
    && v.fields == PassedFields(s, nodes)
    && v.narrowed == PassedTypes(s, nodes)
  }

  // ---------- One node ----------

  /** The selection of one field, as the tool builds it. */
  function OneField(name: Name): seq<Selection> {
    [Field(name, [], [])]
  }

  /** One level down nothing is left of the limit: the field marks nothing but the arguments of directives. */
  lemma OneFieldSelected(c: Context, limit: DepthLimit, fields: seq<FieldDef>, name: Name)
    requires c.Ok() && limit == Limited(1)
    ensures SelectedDeepEnough(c, limit, fields, OneField(name))
    ensures SelectedEffect(c, limit, fields, OneField(name)).narrowed == {}
    ensures SelectedEffect(c, limit, fields, OneField(name)).fields == {}
    ensures SelectedEffect(c, limit, fields, OneField(name)).types == {}
  {
    hide Context.Ok, SelectionEffect, SelectionDeepEnough;
    assert OneField(name)[..0] == [];
    NoneSelected(c, limit, fields);
    assert SelectedDeepEnough(c, limit, fields, []);
    OneFieldSelection(c, limit, fields, OneField(name)[0]);
  }

  lemma OneFieldSelection(c: Context, limit: DepthLimit, fields: seq<FieldDef>, sel: Selection)
    requires c.Ok() && limit == Limited(1) && sel.Field?
    ensures SelectionDeepEnough(c, limit, fields, sel)
    ensures SelectionEffect(c, limit, fields, sel).narrowed == {} && SelectionEffect(c, limit, fields, sel).fields == {}
    ensures SelectionEffect(c, limit, fields, sel).types == {}
  {
    hide Context.Ok, DirectivesEffect, ArgumentsEffect;
    DirectivesNarrowNothing(c, limit, sel.directives);
    if Find(fields, sel.name).Some? {
      var f := Find(fields, sel.name).value;
      NothingLeft(c, f.ty, sel.selectionSet);
      DirectivesNarrowNothing(c, limit, f.directives);
      ArgumentsNarrowNothing(c, limit, f.args);
    }
  }

  lemma NothingLeft(c: Context, t: Name, sels: seq<Selection>)
    requires c.Ok()
    ensures TypeEffect(c, Limited(0), t, sels) == NOTHING && DeepEnough(c, Limited(0), t, sels)
  {
    hide Context.Ok;
  }

  lemma DirectivesNarrowNothing(c: Context, limit: DepthLimit, ds: seq<Name>)
    requires limit == Limited(1)
    ensures DirectivesEffect(c, limit, ds).narrowed == {} && DirectivesEffect(c, limit, ds).fields == {}
    ensures DirectivesEffect(c, limit, ds).types == {}
  {
    hide DirectiveTypes, Defined, World.AppliedTo;
  }

  lemma ArgumentsNarrowNothing(c: Context, limit: DepthLimit, args: seq<InputValue>)
    requires limit == Limited(1)
    ensures ArgumentsEffect(c, limit, args).narrowed == {} && ArgumentsEffect(c, limit, args).fields == {}
    ensures ArgumentsEffect(c, limit, args).types == {}
  {
    hide Known, ArgTypes, World.AppliedTo;
  }

  lemma OneFieldFragments(c: Context, limit: DepthLimit, name: Name)
    requires c.Ok()
    ensures FragmentsDeepEnough(c, limit, OneField(name)) && FragmentsEffect(c, limit, OneField(name)) == NOTHING
  {
    hide Context.Ok;
    assert OneField(name)[..0] == [];
    NoFragments(c, limit);
    assert FragmentsEffect(c, limit, OneField(name)) == FragmentsEffect(c, limit, []).Plus(NOTHING);
  }

  lemma {:induction false} OneFieldMembers(c: Context, limit: DepthLimit, t: Name, members: seq<Name>, name: Name)
    requires c.Ok() && limit == Limited(1) && IsUnion(c.schema, t) == 1
    requires forall m :: m in members ==> m in c.schema.types[t].kind.members
    ensures MembersDeepEnough(c, limit, t, members, OneField(name))
    ensures MembersEffect(c, limit, t, members, OneField(name)) == NOTHING
    decreases |members|
  {
    hide Context.Ok, ForMember;
    if members != [] {
      OneFieldMembers(c, limit, t, members[..|members| - 1], name);
      var m := members[|members| - 1];
      var kept := ForMember(c.fragments, OneField(name), m);
      assert TypeEffect(c, Limited(0), m, kept) == NOTHING && DeepEnough(c, Limited(0), m, kept);
    }
  }

  /** One level of one field marks the type and narrows it to the field. */
  lemma OneFieldEffect(c: Context, t: Name, name: Name)
    requires c.Ok() && t in c.schema.types
    ensures DeepEnough(c, Limited(1), t, OneField(name))
    ensures TypeEffect(c, Limited(1), t, OneField(name)).narrowed == {t}
    ensures TypeEffect(c, Limited(1), t, OneField(name)).fields == if name == "__typename" then {} else {(t, name)}
    ensures TypeEffect(c, Limited(1), t, OneField(name)).types == {t}
  {
    hide Context.Ok, FragmentsEffect, OwnEffect, FragmentsDeepEnough, SelectedDeepEnough, MembersDeepEnough;
    var limit := Limited(1);
    OneFieldFragments(c, limit, name);
    OneFieldSelected(c, limit, FieldsOf(c.schema.types[t].kind), name);
    if IsUnion(c.schema, t) == 1 {
      OneFieldMembers(c, limit, t, c.schema.types[t].kind.members, name);
    }
    OneFieldOwn(c, limit, t, name);
  }

  lemma OneFieldOwn(c: Context, limit: DepthLimit, t: Name, name: Name)
    requires c.Ok() && t in c.schema.types && limit == Limited(1)
    ensures OwnEffect(c, limit, t, OneField(name)).narrowed == {t}
    ensures OwnEffect(c, limit, t, OneField(name)).fields == if name == "__typename" then {} else {(t, name)}
    ensures OwnEffect(c, limit, t, OneField(name)).types == {t}
  {
    hide Context.Ok, SelectedEffect, MembersEffect, DirectivesEffect, World.AppliedTo, World.Applied, Next, Names;
    OneFieldNames(name);
    var marked := Marked(t, Names(OneField(name)));
    assert marked.fields == if name == "__typename" then {} else {(t, name)};
    if !IsInput(c.schema, t) {
      OneFieldSelected(c, limit, FieldsOf(c.schema.types[t].kind), name);
      if IsUnion(c.schema, t) == 1 {
        OneFieldMembers(c, limit, t, c.schema.types[t].kind.members, name);
      }
      DirectivesNarrowNothing(c, limit, c.schema.types[t].directives);
      assert CompositeEffect(c, limit, t, OneField(name)).narrowed == {};
      assert CompositeEffect(c, limit, t, OneField(name)).fields == {};
      assert CompositeEffect(c, limit, t, OneField(name)).types == {};
    }
  }

  lemma OneFieldNames(name: Name)
    ensures Names(OneField(name)) == if name == "__typename" then {} else {name}
  {
    assert OneField(name)[0] in OneField(name);
  }

  lemma PassedAppend(s: Schema, nodes: seq<PathNode>, n: PathNode)
    ensures PassedFields(s, nodes + [n]) == PassedFields(s, nodes)
            + if PassesByField(s, n) && n.fieldName.value != "__typename" then {(n.nodeType, n.fieldName.value)} else {}
    ensures PassedTypes(s, nodes + [n]) == PassedTypes(s, nodes) + if PassesByField(s, n) then {n.nodeType} else {}
  {
    assert forall x :: x in nodes + [n] <==> x in nodes || x == n;
    assert n in nodes + [n];
  }

  // ---------- The tool ----------

  lemma OneMoreNode(s: Schema, leafDepth: nat, nodes: seq<PathNode>, n: PathNode, v: View, v': View)
    requires RetainedFor(s, leafDepth, nodes, v) && v'.types == AfterNode(s, leafDepth, n, v.types)
    requires v'.narrowed == v.narrowed + if PassesByField(s, n) then {n.nodeType} else {}
    requires v'.fields == v.fields
             + if PassesByField(s, n) && n.fieldName.value != "__typename"
               then {(n.nodeType, n.fieldName.value)} else {}
    ensures RetainedFor(s, leafDepth, nodes + [n], v')
  {
    hide AfterNode;
    PassedAppend(s, nodes, n);
    ShownNext(s, leafDepth, nodes, n);
  }

  /** A retention without a selection adds types only. */
  lemma OnlyTypesGrow(s: Schema, limit: DepthLimit, v: View, t: Name, v': View)
    requires RetainsAll(WorldOf(s), limit, v, {t}, {}, v')
    ensures v'.types == v.types + Expands(UseGraph(s), limit, v.types, {t})
    ensures v'.narrowed == v.narrowed && v'.fields == v.fields
  {
    hide Expands, World.AppliedTo, InputsTyped, UseGraph;
  }

  /** One level is the type itself. */
  lemma OneLevel(g: Graph, t: Name)
    requires t in g
    ensures Ball(g, {t}, 1) == {t}
  {
    assert {t} * g.Keys == {t};
    assert Ball(g, NextOf(g, {t}), 0) == {};
  }

  lemma NodeTypes(s: Schema, leafDepth: nat, n: PathNode, limit: DepthLimit)
    requires n.nodeType in s.types && limit == Limited(if n.child.Some? then 1 else leafDepth)
    ensures Expands(UseGraph(s), limit, {}, {n.nodeType}) == OfNode(s, leafDepth, n)
  {
    if n.child.Some? {
      OneLevel(UseGraph(s), n.nodeType);
    }
  }

  lemma NoNodeTypes(s: Schema, leafDepth: nat, n: PathNode)
    requires n.nodeType !in s.types
    ensures OfNode(s, leafDepth, n) == {}
  {
    BallKnown(UseGraph(s), {n.nodeType}, leafDepth);
    if n.child.None? && leafDepth > 0 {
      assert {n.nodeType} * UseGraph(s).Keys == {};
      assert NextOf(UseGraph(s), {}) == {};
      BallEmpty(UseGraph(s), leafDepth - 1);
    }
  }

  // ---------- The tool ----------

  /** Retain the type of one node, in full for the last node and with the one field it passes by for the others, and the
      types of the arguments with all that they use. */
  method RetainNode(shaker: SchemaTreeShaker, node: PathNode, leafDepth: nat)
    requires shaker.Valid() && shaker.namedFragments == map[]
    modifies shaker`namedTypeNodes, shaker`directiveNodes
    ensures shaker.Valid()
    ensures shaker.Now().types == AfterNode(shaker.schema, leafDepth, node, old(shaker.Now()).types)
    ensures shaker.Now().narrowed == old(shaker.Now()).narrowed
            + if PassesByField(shaker.schema, node) then {node.nodeType} else {}
    ensures shaker.Now().fields == old(shaker.Now()).fields
            + if PassesByField(shaker.schema, node) && node.fieldName.value != "__typename"
              then {(node.nodeType, node.fieldName.value)} else {}
  {
    hide Context.Ok, ViewOf, RetainsAll, TypeEffect, DeepEnough, Settled, WorldOf, OfNode, UseGraph, AfterArguments;
    ghost var s := shaker.schema;
    ghost var before := shaker.Now();
    WorldIs(shaker.Ctx());
    if node.nodeType in shaker.schema.types {
      var selection, limit := None, Limited(leafDepth);
      if node.child.Some? {
        limit := Limited(1);
        if node.fieldName.Some? {
          selection := Some(OneField(node.fieldName.value));
        }
      }
      if selection.Some? {
        OneFieldEffect(shaker.Ctx(), node.nodeType, node.fieldName.value);
      }
      shaker.RetainType(node.nodeType, selection, limit);
      NodeTypes(s, leafDepth, node, limit);
      if selection.None? {
        OnlyTypesGrow(s, limit, before, node.nodeType, shaker.Now());
      } else {
        NodeTypesAlone(s, leafDepth, node);
      }
    } else {
      NoNodeTypes(s, leafDepth, node);
    }
    assert shaker.Now().types == before.types + OfNode(s, leafDepth, node);
    RetainArgumentTypes(shaker, node.fieldArgs);
  }

  lemma NodeTypesAlone(s: Schema, leafDepth: nat, n: PathNode)
    requires n.nodeType in s.types && n.child.Some?
    ensures OfNode(s, leafDepth, n) == {n.nodeType}
  {
  }

  method RetainArgumentTypes(shaker: SchemaTreeShaker, args: seq<Name>)
    requires shaker.Valid() && shaker.namedFragments == map[]
    modifies shaker`namedTypeNodes, shaker`directiveNodes
    ensures shaker.Valid()
    ensures shaker.Now().types == AfterArguments(shaker.schema, args, old(shaker.Now()).types)
    ensures shaker.Now().narrowed == old(shaker.Now()).narrowed && shaker.Now().fields == old(shaker.Now()).fields
  {
    hide Context.Ok, ViewOf, RetainsAll, Settled, WorldOf, UseGraph, Expands;
    ghost var s, start := shaker.schema, shaker.Now();
    WorldIs(shaker.Ctx());
    var i := 0;
    while i < |args|
      invariant 0 <= i <= |args| && shaker.Valid() && shaker.namedFragments == map[]
      invariant shaker.Now().types == AfterArguments(s, args[..i], start.types)
      invariant shaker.Now().narrowed == start.narrowed && shaker.Now().fields == start.fields
    {
      ArgumentsNext(s, args, i, start.types);
      ghost var before := shaker.Now();
      if args[i] in shaker.schema.types {
        shaker.RetainType(args[i], None, Unlimited);
        OnlyTypesGrow(s, Unlimited, before, args[i], shaker.Now());
      } else {
        UnknownReachesNothing(s, before.types, args[i]);
      }
      i := i + 1;
    }
    assert args[..i] == args;
  }

  lemma UnknownReachesNothing(s: Schema, types: set<Name>, t: Name)
    requires t !in s.types
    ensures Expands(UseGraph(s), Unlimited, types, {t}) == {}
  {
    WalkLeast(UseGraph(s), types, {t}, {});
  }

  lemma WorldIs(c: Context)
    requires c.Ok()
    ensures c.world == WorldOf(c.schema)
  {
  }

  /** No input object is on the path: fields, members and implementations lead to output types. */
  predicate OutputsOnly(s: Schema, p: PathNode) {
    !IsInputObject(s, p.nodeType) && (p.child.Some? ==> OutputsOnly(s, p.child.value))
  }

  method RetainPath(shaker: SchemaTreeShaker, path: PathNode, leafDepth: nat, ghost nodes: seq<PathNode>)
    requires shaker.Valid() && shaker.namedFragments == map[]
    requires RetainedFor(shaker.schema, leafDepth, nodes, shaker.Now())
    modifies shaker`namedTypeNodes, shaker`directiveNodes
    ensures shaker.Valid()
    ensures RetainedFor(shaker.schema, leafDepth, nodes + Nodes(path), shaker.Now())
  {
    hide Context.Ok, ViewOf, RetainedFor, AfterNode;
    var node := path;
    ghost var done := nodes;
    while true
      invariant shaker.Valid() && shaker.namedFragments == map[]
      invariant done + Nodes(node) == nodes + Nodes(path)
      invariant RetainedFor(shaker.schema, leafDepth, done, shaker.Now())
      decreases node
    {
      ghost var before := shaker.Now();
      RetainNode(shaker, node, leafDepth);
      OneMoreNode(shaker.schema, leafDepth, done, node, before, shaker.Now());
      done := done + [node];
      match node.child {
        case Some(next) =>
          assert done + Nodes(next) == nodes + Nodes(path);
          node := next;
        case None =>
          assert done == nodes + Nodes(path);
          return;
      }
    }
  }

  /** Shake the schema down to the root paths that a search returned. */
  method Execute(s: Schema, rootPaths: seq<PathNode>, leafDepth: nat) returns (types: map<Name, TypeDef>)
    requires UnionsOfObjects(s)
    ensures forall u :: u in types <==> s.Indexed(u) && u in Shown(s, leafDepth, AllNodes(rootPaths))
    ensures forall u :: u in types ==> u in s.types && DefinedFor(s, leafDepth, rootPaths, u, types[u])
    ensures leafDepth > 0 && NoFieldReserved(s) ==>
              forall p, i :: p in rootPaths && 0 <= i < |p.Steps()| && StepIsThere(s, p.Steps()[i]) ==>
                HoldsStep(s, types, p.Steps()[i])
    ensures leafDepth > 0 ==> forall p :: p in rootPaths && p.Last() in s.types ==> Present(s, types, p.Last())
    ensures leafDepth <= 1 && (forall p :: p in rootPaths ==> OutputsOnly(s, p)) ==>
              forall u, w :: u in types && IsInputObject(s, u) && w in Uses(s, u) ==> Present(s, types, w)
  {
    hide InputsInFull, IsInputObject, OutputsOnly, Shown;
    hide Context.Ok, UnionsOfObjects, WorldOf, ViewOf, RetainedFor, ShakenTypes, HoldsStep, StepIsThere, Present;
    hide NoFieldReserved, DefinedFor;
    var shaker := new SchemaTreeShaker(s);
    NothingPassed(s, leafDepth);
    var i := 0;
    while i < |rootPaths|
      invariant 0 <= i <= |rootPaths| && shaker.Valid() && shaker.schema == s && shaker.namedFragments == map[]
      invariant fresh(shaker)
      invariant RetainedFor(s, leafDepth, AllNodes(rootPaths[..i]), shaker.Now())
    {
      assert rootPaths[..i + 1][..i] == rootPaths[..i];
      RetainPath(shaker, rootPaths[i], leafDepth, AllNodes(rootPaths[..i]));
      i := i + 1;
    }
    assert rootPaths[..i] == rootPaths;
    types := ShakenTypes(s, shaker.namedTypeNodes);
    ShownAreKept(s, leafDepth, AllNodes(rootPaths), shaker.namedTypeNodes, shaker.directiveNodes);
    DefinitionsAreShown(s, leafDepth, rootPaths, shaker.namedTypeNodes, shaker.directiveNodes);
    PathsAreKept(s, rootPaths, leafDepth, shaker.namedTypeNodes, shaker.directiveNodes);
    if leafDepth <= 1 && forall p :: p in rootPaths ==> OutputsOnly(s, p) {
      PathsInFull(s, leafDepth, rootPaths);
      InputsArePresent(s, leafDepth, AllNodes(rootPaths), shaker.namedTypeNodes, shaker.directiveNodes);
    }
  }

  lemma NothingPassed(s: Schema, leafDepth: nat)
    ensures RetainedFor(s, leafDepth, [], NOTHING)
  {
  }

  /** Some path steps on from `u` by a field of this name. */
  ghost predicate StepsBy(paths: seq<PathNode>, u: Name, name: Name) {
    exists p, i :: p in paths && 0 <= i < |p.Steps()| && p.Steps()[i].from == u && p.Steps()[i].field == Some(name)
  }

  ghost predicate Narrowed(paths: seq<PathNode>, u: Name) {
    exists name :: StepsBy(paths, u, name)
  }

  /** A kept definition is whole unless a path steps on from the type by a field; then it has the fields by which paths
      do. Of a union, the members shown are kept. */
  ghost predicate DefinedFor(s: Schema, leafDepth: nat, paths: seq<PathNode>, u: Name, kept: TypeDef)
    requires u in s.types
  {
    var def := s.types[u];
    && Shortens(kept, def)
    && (!def.kind.Union? && !Narrowed(paths, u) ==> kept == def)
    && (forall f :: f in FieldsOf(kept.kind) <==>
          && f in FieldsOf(def.kind) && (Narrowed(paths, u) ==> f.name != "__typename" && StepsBy(paths, u, f.name)))
    && (def.kind.Union? ==>
          && kept.kind.Union?
          && forall m :: m in kept.kind.members <==> m in def.kind.members && m in Shown(s, leafDepth, AllNodes(paths)))
  }

  lemma {:induction false} NodeIsOnPath(paths: seq<PathNode>, n: PathNode) returns (p: PathNode, i: nat)
    requires n in AllNodes(paths)
    ensures p in paths && i < p.Len() && Nodes(p)[i] == n
  {
    hide Nodes;
    var k := |paths| - 1;
    if n in Nodes(paths[k]) {
      p := paths[k];
      i :| 0 <= i < |Nodes(p)| && Nodes(p)[i] == n;
    } else {
      p, i := NodeIsOnPath(paths[..k], n);
    }
  }

  /** The nodes that pass by a field are the steps by one. */
  lemma PassedIff(s: Schema, paths: seq<PathNode>, u: Name, name: Name)
    requires u in s.types
    ensures (exists n :: n in AllNodes(paths) && PassesByField(s, n) && n.nodeType == u && n.fieldName == Some(name))
       <==> StepsBy(paths, u, name)
  {
    hide AllNodes, Nodes, PathNode.Steps, PathNode.Types;
    if n :| n in AllNodes(paths) && PassesByField(s, n) && n.nodeType == u && n.fieldName == Some(name) {
      var p, i := NodeIsOnPath(paths, n);
      NodesOfPath(p, i);
      StepsJoinTypes(p);
    }
    if StepsBy(paths, u, name) {
      var p, i :| p in paths && 0 <= i < |p.Steps()| && p.Steps()[i].from == u && p.Steps()[i].field == Some(name);
      NodesOfPath(p, i);
      NodesAreThere(paths, p, Nodes(p)[i]);
    }
  }

  lemma PassedAre(s: Schema, paths: seq<PathNode>, u: Name)
    requires u in s.types
    ensures u in PassedTypes(s, AllNodes(paths)) <==> Narrowed(paths, u)
    ensures forall name :: (u, name) in PassedFields(s, AllNodes(paths)) <==>
              StepsBy(paths, u, name) && name != "__typename"
  {
    hide AllNodes, StepsBy;
    forall name
      ensures (exists n :: n in AllNodes(paths) && PassesByField(s, n) && n.nodeType == u && n.fieldName == Some(name))
         <==> StepsBy(paths, u, name)
    {
      PassedIff(s, paths, u, name);
    }
    if n :| n in AllNodes(paths) && PassesByField(s, n) && n.nodeType == u {
      assert n.fieldName == Some(n.fieldName.value);
    }
    if Narrowed(paths, u) {
      var name :| StepsBy(paths, u, name);
      var n :| n in AllNodes(paths) && PassesByField(s, n) && n.nodeType == u && n.fieldName == Some(name);
    }
  }

  lemma DefinitionsAreShown(
    s: Schema, leafDepth: nat, paths: seq<PathNode>, marks: TypeNodes, ds: map<Name, bool>)
    requires marks.Keys == s.types.Keys && RetainedFor(s, leafDepth, AllNodes(paths), ViewOf(marks, ds))
    ensures forall u :: u in ShakenTypes(s, marks) ==>
              u in s.types && DefinedFor(s, leafDepth, paths, u, ShakenTypes(s, marks)[u])
  {
    hide Shown, PassedFields, PassedTypes, ViewOf, ShakenTypes, Shortens, AllNodes, Narrowed, StepsBy;
    ShakenFromView(s, marks, ds);
    forall u | u in ShakenTypes(s, marks)
      ensures u in s.types && DefinedFor(s, leafDepth, paths, u, ShakenTypes(s, marks)[u])
    {
      DefinitionsAreKept(s, marks, ds, u);
      UnionStays(ShakenTypes(s, marks)[u], s.types[u]);
      KeptFieldsListed(s, marks, ds, u);
      PassedAre(s, paths, u);
    }
  }

  lemma ShownAreKept(s: Schema, leafDepth: nat, nodes: seq<PathNode>, marks: TypeNodes, ds: map<Name, bool>)
    requires marks.Keys == s.types.Keys && RetainedFor(s, leafDepth, nodes, ViewOf(marks, ds))
    ensures forall u :: u in ShakenTypes(s, marks) <==> s.Indexed(u) && u in Shown(s, leafDepth, nodes)
  {
    hide Shown, PassedFields, PassedTypes;
    ShakenFromView(s, marks, ds);
  }

  // ---------- Input types in full ----------

  lemma {:induction false} NodesAreOutputs(s: Schema, p: PathNode)
    requires OutputsOnly(s, p)
    ensures forall n :: n in Nodes(p) ==> !IsInputObject(s, n.nodeType)
  {
    hide IsInputObject;
    if p.child.Some? {
      NodesAreOutputs(s, p.child.value);
    }
  }

  lemma {:induction false} AllNodesAreOutputs(s: Schema, paths: seq<PathNode>)
    requires forall p :: p in paths ==> OutputsOnly(s, p)
    ensures forall n :: n in AllNodes(paths) ==> !IsInputObject(s, n.nodeType)
  {
    hide IsInputObject, OutputsOnly;
    if paths != [] {
      AllNodesAreOutputs(s, paths[..|paths| - 1]);
      NodesAreOutputs(s, paths[|paths| - 1]);
    }
  }

  lemma PathsInFull(s: Schema, leafDepth: nat, paths: seq<PathNode>)
    requires leafDepth <= 1 && forall p :: p in paths ==> OutputsOnly(s, p)
    ensures InputsInFull(s, Shown(s, leafDepth, AllNodes(paths)))
  {
    hide IsInputObject, OutputsOnly, InputsInFull, Shown, AllNodes;
    AllNodesAreOutputs(s, paths);
    FullWhenShallow(s, leafDepth, AllNodes(paths));
  }

  lemma InputsArePresent(s: Schema, leafDepth: nat, nodes: seq<PathNode>, marks: TypeNodes, ds: map<Name, bool>)
    requires marks.Keys == s.types.Keys && RetainedFor(s, leafDepth, nodes, ViewOf(marks, ds))
    requires InputsInFull(s, Shown(s, leafDepth, nodes))
    ensures forall u, w :: u in ShakenTypes(s, marks) && IsInputObject(s, u) && w in Uses(s, u) ==>
              Present(s, ShakenTypes(s, marks), w)
  {
    hide Uses, ViewOf, ShakenTypes, Present, Shown, IsInputObject, PassedFields, PassedTypes;
    ShakenFromView(s, marks, ds);
    forall u, w | u in ShakenTypes(s, marks) && IsInputObject(s, u) && w in Uses(s, u)
      ensures Present(s, ShakenTypes(s, marks), w)
    {
      RetainedIsPresent(s, marks, ds, w);
    }
  }

  // ---------- What the shaken schema holds of the paths ----------

  /** The step can be taken in the shaken schema: the field is there with its result type and the types of its
      arguments, or the union has the member, or the object still says that it implements the interface. */
  ghost predicate HoldsStep(s: Schema, types: map<Name, TypeDef>, st: Step) {
    && st.from in types && (st.to in s.types ==> Present(s, types, st.to))
    && match st.field
       case Some(name) =>
         && (forall a :: a in st.args && a in s.types ==> Present(s, types, a))
         && exists f :: f in FieldsOf(types[st.from].kind) && f.name == name && f.ty == st.to
                        && ArgTypes(f.args) == st.args
       case None =>
         if types[st.from].kind.Union? then st.to in s.types ==> st.to in types[st.from].kind.members
         else st.to in s.types && s.types[st.to].kind.Object? && st.from in s.types[st.to].kind.implements
              && (st.to in types ==>
                    && types[st.to].kind.Object?
                    && types[st.to].kind.implements == s.types[st.to].kind.implements)
  }

  /** The definitions say that the start of the step leads to its end by it. */
  ghost predicate StepIsThere(s: Schema, st: Step) {
    Leads(s, st.from, st.field, st.args, st.to)
  }

  lemma {:induction false} NodesOfPath(p: PathNode, i: nat)
    requires i < p.Len()
    ensures Nodes(p)[i].nodeType == p.Types()[i] && (Nodes(p)[i].child.Some? <==> i < p.Len() - 1)
    ensures i < p.Len() - 1 ==>
              var n := Nodes(p)[i];
              p.Steps()[i] == Step(n.nodeType, n.fieldName, n.fieldArgs, Nodes(p)[i + 1].nodeType)
  {
    if i > 0 {
      NodesOfPath(p.child.value, i - 1);
    }
  }

  lemma {:induction false} NodesAreThere(paths: seq<PathNode>, p: PathNode, n: PathNode)
    requires p in paths && n in Nodes(p)
    ensures n in AllNodes(paths)
  {
    if p != paths[|paths| - 1] {
      assert p in paths[..|paths| - 1];
      NodesAreThere(paths[..|paths| - 1], p, n);
    }
  }

  lemma TypesOnPaths(s: Schema, paths: seq<PathNode>, leafDepth: nat, v: View, p: PathNode, i: nat)
    requires RetainedFor(s, leafDepth, AllNodes(paths), v) && leafDepth > 0 && p in paths && i < p.Len()
    ensures p.Types()[i] in s.types ==> p.Types()[i] in v.types
    ensures i < p.Len() - 1 ==> forall a :: a in p.Steps()[i].args && a in s.types ==> a in v.types
    ensures i < p.Len() - 1 ==>
              var st := p.Steps()[i];
              st.field.Some? && st.from in s.types && st.field.value != "__typename" ==>
                (st.from, st.field.value) in v.fields
  {
    hide Shown, OfNode;
    NodesOfPath(p, i);
    NodesAreThere(paths, p, Nodes(p)[i]);
    ShownBounds(s, leafDepth, AllNodes(paths));
    if p.Types()[i] in s.types {
      NodeIsShown(s, leafDepth, AllNodes(paths), Nodes(p)[i]);
    }
  }

  lemma PathsAreKept(s: Schema, paths: seq<PathNode>, leafDepth: nat, nodes: TypeNodes, ds: map<Name, bool>)
    requires nodes.Keys == s.types.Keys && RetainedFor(s, leafDepth, AllNodes(paths), ViewOf(nodes, ds))
    ensures var types := ShakenTypes(s, nodes);
            && (leafDepth > 0 && NoFieldReserved(s) ==>
                  forall p, i :: p in paths && 0 <= i < |p.Steps()| && StepIsThere(s, p.Steps()[i]) ==>
                    HoldsStep(s, types, p.Steps()[i]))
            && (leafDepth > 0 ==> forall p :: p in paths && p.Last() in s.types ==> Present(s, types, p.Last()))
  {
    hide HoldsStep, StepIsThere, Present, NoFieldReserved, PassedTypes, PassedFields, Shown;
    hide PathNode.Types, PathNode.Steps;
    var types, v := ShakenTypes(s, nodes), ViewOf(nodes, ds);
    if leafDepth > 0 {
      forall p, i | NoFieldReserved(s) && p in paths && 0 <= i < |p.Steps()| && StepIsThere(s, p.Steps()[i])
        ensures HoldsStep(s, types, p.Steps()[i])
      {
        StepIsKept(s, paths, leafDepth, nodes, ds, p, i);
      }
      forall p | p in paths && p.Last() in s.types
        ensures Present(s, types, p.Last())
      {
        TypesOnPaths(s, paths, leafDepth, v, p, p.Len() - 1);
        RetainedIsPresent(s, nodes, ds, p.Last());
      }
    }
  }

  /** Section 2.1.9 of the GraphQL specification (October 2021) reserves names with two underscores in front. */
  ghost predicate NoFieldReserved(s: Schema) {
    forall t, f :: t in s.types && f in FieldsOf(s.types[t].kind) ==> f.name != "__typename"
  }

  lemma StepIsKept(
    s: Schema, paths: seq<PathNode>, leafDepth: nat, nodes: TypeNodes, ds: map<Name, bool>, p: PathNode, i: nat)
    requires nodes.Keys == s.types.Keys && RetainedFor(s, leafDepth, AllNodes(paths), ViewOf(nodes, ds))
    requires leafDepth > 0
    requires NoFieldReserved(s) && p in paths && i < |p.Steps()| && StepIsThere(s, p.Steps()[i])
    ensures HoldsStep(s, ShakenTypes(s, nodes), p.Steps()[i])
  {
    hide StepIsThere, RetainedFor, PathNode.Types, PathNode.Steps, ViewOf, ShakenTypes;
    var st := p.Steps()[i];
    var v := ViewOf(nodes, ds);
    StepsJoinTypes(p);
    TypesOnPaths(s, paths, leafDepth, v, p, i);
    TypesOnPaths(s, paths, leafDepth, v, p, i + 1);
    StartsAtType(s, st);
    EdgeIsKept(s, nodes, ds, st);
  }

  lemma StartsAtType(s: Schema, st: Step)
    requires StepIsThere(s, st)
    ensures s.Indexed(st.from)
  {
  }

  lemma EdgeIsKept(s: Schema, nodes: TypeNodes, ds: map<Name, bool>, st: Step)
    requires nodes.Keys == s.types.Keys && NoFieldReserved(s) && StepIsThere(s, st)
    requires var v := ViewOf(nodes, ds);
             && st.from in v.types && (st.to in s.types ==> st.to in v.types)
             && (forall a :: a in st.args && a in s.types ==> a in v.types)
             && (st.field.Some? && st.field.value != "__typename" ==> (st.from, st.field.value) in v.fields)
    ensures HoldsStep(s, ShakenTypes(s, nodes), st)
  {
    hide ViewOf, KeptMembers;
    var types := ShakenTypes(s, nodes);
    RetainedIsPresent(s, nodes, ds, st.from);
    RetainedIsPresent(s, nodes, ds, st.to);
    forall a | a in st.args && a in s.types
      ensures Present(s, types, a)
    {
      RetainedIsPresent(s, nodes, ds, a);
    }
    if st.field.Some? {
      KeptFieldsListed(s, nodes, ds, st.from);
    } else if s.types[st.from].kind.Union? {
      KeptMembersAre(s.types[st.from].kind.members, nodes);
    }
  }

  // ---------- From the search to the shaken schema ----------

  /** Section 3.6 of the GraphQL specification (October 2021): fields have output types, and so have root operations. */
  ghost predicate OutputsTyped(s: Schema, roots: seq<Name>) {
    && (forall t, f :: t in s.types && f in FieldsOf(s.types[t].kind) ==> !IsInputObject(s, f.ty))
    && (forall r :: r in roots ==> !IsInputObject(s, r))
  }

  lemma {:induction false} AnswersAreFromRoots(
    s: Schema, roots: seq<Name>, index: Indexing.Index, matches: seq<Name>, maxPaths: nat, found: seq<PathNode>,
    p: PathNode)
    requires Search.AnswersInTurn(s, roots, index, matches, maxPaths, found) && p in found
    ensures Walk.FromRoot(s, roots, p) && p.Last() in matches
    decreases |matches|
  {
    hide Walk.FromRoot, Search.Answers;
    var n := |matches| - 1;
    var k: nat :| k <= |found| && Search.AnswersInTurn(s, roots, index, matches[..n], maxPaths, found[..k])
                  && Search.Answers(s, roots, index, matches[n], maxPaths, found[k..]);
    if p in found[..k] {
      AnswersAreFromRoots(s, roots, index, matches[..n], maxPaths, found[..k], p);
    } else {
      assert found == found[..k] + found[k..];
      AnswerIsFromRoot(s, roots, index, matches[n], maxPaths, found[k..], p);
    }
  }

  lemma AnswerIsFromRoot(
    s: Schema, roots: seq<Name>, index: Indexing.Index, matched: Name, maxPaths: nat, found: seq<PathNode>, p: PathNode)
    requires Search.Answers(s, roots, index, matched, maxPaths, found) && p in found
    ensures Walk.FromRoot(s, roots, p) && p.Last() == matched
  {
    hide Walk.FromRoot;
    var i :| 0 <= i < |found| && found[i] == p;
  }

  lemma {:induction false} StepsLeadToOutputs(s: Schema, roots: seq<Name>, p: PathNode)
    requires OutputsTyped(s, roots) && UnionsOfObjects(s) && !IsInputObject(s, p.nodeType)
    requires forall i :: 0 <= i < |p.Steps()| ==> Walk.IsEdge(s, p.Steps()[i])
    ensures OutputsOnly(s, p)
  {
    hide Walk.IsEdge, IsInputObject, UnionsOfObjects;
    if p.child.Some? {
      var c := p.child.value;
      var st := p.Steps()[0];
      StepLeads(s, st);
      EdgeToOutput(s, roots, st);
      forall i | 0 <= i < |c.Steps()|
        ensures Walk.IsEdge(s, c.Steps()[i])
      {
        assert c.Steps()[i] == p.Steps()[i + 1];
      }
      StepsLeadToOutputs(s, roots, c);
    }
  }

  lemma EdgeToOutput(s: Schema, roots: seq<Name>, st: Step)
    requires OutputsTyped(s, roots) && UnionsOfObjects(s) && StepIsThere(s, st)
    ensures !IsInputObject(s, st.to)
  {
  }

  lemma AnswersAreOutputs(
    s: Schema, roots: seq<Name>, index: Indexing.Index, matches: seq<Name>, maxPaths: nat, found: seq<PathNode>,
    p: PathNode)
    requires UnionsOfObjects(s) && OutputsTyped(s, roots)
    requires Search.AnswersInTurn(s, roots, index, matches, maxPaths, found) && p in found
    ensures OutputsOnly(s, p) && forall i :: 0 <= i < |p.Steps()| ==> StepIsThere(s, p.Steps()[i])
  {
    hide UnionsOfObjects, OutputsTyped, Search.AnswersInTurn, Walk.IsEdge, OutputsOnly, IsInputObject;
    AnswersAreFromRoots(s, roots, index, matches, maxPaths, found, p);
    RootIsOutput(s, roots, p.nodeType);
    StepsLeadToOutputs(s, roots, p);
    forall i | 0 <= i < |p.Steps()|
      ensures StepIsThere(s, p.Steps()[i])
    {
      StepLeads(s, p.Steps()[i]);
    }
  }

  lemma RootIsOutput(s: Schema, roots: seq<Name>, r: Name)
    requires OutputsTyped(s, roots) && r in roots
    ensures !IsInputObject(s, r)
  {
  }

  /** The tool on the answers of the search, of which sorting and truncation leave some in some order: every step of
      every root path shown can be taken in the shaken schema, the matched type is in it, and nothing is that no path
      asks for. */
  method ShakeAnswers(
    s: Schema, rootPaths: seq<PathNode>, leafDepth: nat, ghost roots: seq<Name>, ghost index: Indexing.Index,
    ghost matches: seq<Name>, ghost maxPaths: nat, ghost found: seq<PathNode>)
    returns (types: map<Name, TypeDef>)
    requires UnionsOfObjects(s) && NoFieldReserved(s) && OutputsTyped(s, roots)
    requires Search.AnswersInTurn(s, roots, index, matches, maxPaths, found)
    requires forall p :: p in rootPaths ==> p in found
    ensures forall u :: u in types <==> s.Indexed(u) && u in Shown(s, leafDepth, AllNodes(rootPaths))
    ensures forall u :: u in types ==> exists n :: n in AllNodes(rootPaths) && AskedFor(s, leafDepth, n, u)
    ensures forall u :: u in types ==> u in s.types && DefinedFor(s, leafDepth, rootPaths, u, types[u])
    ensures leafDepth > 0 ==>
              forall p, i :: p in rootPaths && 0 <= i < |p.Steps()| ==> HoldsStep(s, types, p.Steps()[i])
    ensures leafDepth > 0 ==> forall p :: p in rootPaths && p.Last() in s.types ==> Present(s, types, p.Last())
    ensures leafDepth <= 1 ==>
              forall u, w :: u in types && IsInputObject(s, u) && w in Uses(s, u) ==> Present(s, types, w)
  {
    hide UnionsOfObjects, NoFieldReserved, OutputsTyped, Search.AnswersInTurn, HoldsStep, Present, StepIsThere;
    hide OutputsOnly, IsInputObject, Shown, AskedFor, AllNodes;
    types := Execute(s, rootPaths, leafDepth);
    ShownBounds(s, leafDepth, AllNodes(rootPaths));
    forall p | p in rootPaths
      ensures OutputsOnly(s, p) && forall i :: 0 <= i < |p.Steps()| ==> StepIsThere(s, p.Steps()[i])
    {
      AnswersAreOutputs(s, roots, index, matches, maxPaths, found, p);
    }
  }
}

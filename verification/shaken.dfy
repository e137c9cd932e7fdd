/** The schema that `shaken` builds from the marks, and what it holds after each way of marking
    (crates/apollo-mcp-server/src/schema_tree_shake.rs). */
module Shaken {
  import opened GraphQL
  import opened Graphs
  import opened ShakeViews
  import opened ShakeGraph
  import opened ShakeSpec
  import opened Shaker
  import opened Typing
  import opened Visits
  import opened Requests
  import opened Sequences

  function KeptFields(fields: seq<FieldDef>, filtered: Option<seq<Name>>): seq<FieldDef> {
    if filtered.None? || fields == [] then fields else
    var n := |fields| - 1;
    KeptFields(fields[..n], filtered) + (if fields[n].name in filtered.value then [fields[n]] else [])
  }

  function KeptInputs(inputs: seq<InputValue>, filtered: Option<seq<Name>>): seq<InputValue> {
    if filtered.None? || inputs == [] then inputs else
    var n := |inputs| - 1;
    KeptInputs(inputs[..n], filtered) + (if inputs[n].name in filtered.value then [inputs[n]] else [])
  }

  function KeptMembers(members: seq<Name>, nodes: TypeNodes): seq<Name> {
    if members == [] then [] else
    var n := |members| - 1;
    KeptMembers(members[..n], nodes) + (if members[n] in nodes && nodes[members[n]].retain then [members[n]] else [])
  }

  function ShakenKind(kind: TypeKind, filtered: Option<seq<Name>>, nodes: TypeNodes): TypeKind {
    match kind
    case Object(fields, implements) => Object(KeptFields(fields, filtered), implements)
    case Interface(fields, implements) => Interface(KeptFields(fields, filtered), implements)
    case InputObject(inputs) => InputObject(KeptInputs(inputs, filtered))
    case Union(members) => Union(KeptMembers(members, nodes))
    case _ => kind
  }

  /** The type definitions of the shaken schema. */
  function ShakenTypes(s: Schema, nodes: TypeNodes): map<Name, TypeDef> {
    map t | t in s.types && t in nodes && nodes[t].retain && !s.types[t].builtIn ::
      s.types[t].(kind := ShakenKind(s.types[t].kind, nodes[t].filteredField, nodes))
  }

  /** The directive definitions of the shaken schema. */
  function ShakenDirectives(s: Schema, directives: map<Name, bool>): map<Name, DirectiveDef> {
    map d | d in s.directives && d in directives && directives[d] && !s.directives[d].builtIn :: s.directives[d]
  }

  /** Present in the shaken schema, or built in. */
  ghost predicate Present(s: Schema, types: map<Name, TypeDef>, t: Name) {
    t in s.types && (t in types || s.types[t].builtIn)
  }

  lemma RetainedIsPresent(s: Schema, nodes: TypeNodes, ds: map<Name, bool>, t: Name)
    requires nodes.Keys == s.types.Keys
    ensures t in ViewOf(nodes, ds).types <==> t in nodes && nodes[t].retain
    ensures t in ViewOf(nodes, ds).types ==> Present(s, ShakenTypes(s, nodes), t)
  {
  }

  lemma {:induction false} KeptFieldsHold(fields: seq<FieldDef>, filtered: seq<Name>)
    ensures forall f :: f in KeptFields(fields, Some(filtered)) <==> f in fields && f.name in filtered
  {
    if fields != [] {
      var n := |fields| - 1;
      KeptFieldsHold(fields[..n], filtered);
      assert fields == fields[..n] + [fields[n]];
    }
  }

  lemma {:induction false} KeptMembersHold(members: seq<Name>, nodes: TypeNodes)
    requires forall m :: m in members ==> m in nodes && nodes[m].retain
    ensures KeptMembers(members, nodes) == members
  {
    if members != [] {
      var n := |members| - 1;
      KeptMembersHold(members[..n], nodes);
      assert members == members[..n] + [members[n]];
    }
  }

  lemma {:induction false} KeptMembersAre(members: seq<Name>, nodes: TypeNodes)
    ensures forall m :: m in KeptMembers(members, nodes) <==> m in members && m in nodes && nodes[m].retain
  {
    if members != [] {
      var n := |members| - 1;
      KeptMembersAre(members[..n], nodes);
      assert members == members[..n] + [members[n]];
    }
  }

  // ---------- The definitions that are kept ----------

  /** A kept definition is the one of the schema, but for fields, input fields or members that are left out. */
  ghost predicate Shortens(kept: TypeDef, def: TypeDef) {
    && kept.name == def.name && kept.builtIn == def.builtIn && kept.directives == def.directives
    && match def.kind
       case Object(fields, implements) =>
         kept.kind.Object? && kept.kind.implements == implements && SomeOf(kept.kind.fields, fields)
       case Interface(fields, implements) =>
         kept.kind.Interface? && kept.kind.implements == implements && SomeOf(kept.kind.fields, fields)
       case Union(members) => kept.kind.Union? && SomeOf(kept.kind.members, members)
       case InputObject(inputs) => kept.kind.InputObject? && SomeOf(kept.kind.inputs, inputs)
       case _ => kept == def
  }

  lemma {:induction false} KeptFieldsAreSome(fields: seq<FieldDef>, filtered: Option<seq<Name>>)
    ensures SomeOf(KeptFields(fields, filtered), fields)
  {
    if filtered.None? || fields == [] {
      AllOf(fields);
    } else {
      var n := |fields| - 1;
      KeptFieldsAreSome(fields[..n], filtered);
      SomeNext(KeptFields(fields[..n], filtered), fields[..n], fields[n]);
      assert fields == fields[..n] + [fields[n]];
      assert KeptFields(fields[..n], filtered) + [] == KeptFields(fields[..n], filtered);
    }
  }

  lemma {:induction false} KeptInputsAreSome(inputs: seq<InputValue>, filtered: Option<seq<Name>>)
    ensures SomeOf(KeptInputs(inputs, filtered), inputs)
    ensures filtered.Some? ==>
              forall i :: i in KeptInputs(inputs, filtered) <==> i in inputs && i.name in filtered.value
  {
    if filtered.None? || inputs == [] {
      AllOf(inputs);
    } else {
      var n := |inputs| - 1;
      KeptInputsAreSome(inputs[..n], filtered);
      SomeNext(KeptInputs(inputs[..n], filtered), inputs[..n], inputs[n]);
      assert inputs == inputs[..n] + [inputs[n]];
      assert KeptInputs(inputs[..n], filtered) + [] == KeptInputs(inputs[..n], filtered);
    }
  }

  lemma {:induction false} KeptMembersAreSome(members: seq<Name>, nodes: TypeNodes)
    ensures SomeOf(KeptMembers(members, nodes), members)
  {
    if members == [] {
      AllOf(members);
    } else {
      var n := |members| - 1;
      KeptMembersAreSome(members[..n], nodes);
      SomeNext(KeptMembers(members[..n], nodes), members[..n], members[n]);
      assert members == members[..n] + [members[n]];
      assert KeptMembers(members[..n], nodes) + [] == KeptMembers(members[..n], nodes);
    }
  }

  /** Every kept definition shortens that of the schema: unions to the members retained, other types only once their
      list is narrowed, and then to what is listed. */
  lemma DefinitionsAreKept(s: Schema, nodes: TypeNodes, ds: map<Name, bool>, u: Name)
    requires nodes.Keys == s.types.Keys && u in ShakenTypes(s, nodes)
    ensures var kept, v := ShakenTypes(s, nodes)[u], ViewOf(nodes, ds);
            && Shortens(kept, s.types[u])
            && (!s.types[u].kind.Union? && u !in v.narrowed ==> kept == s.types[u])
            && (s.types[u].kind.InputObject? && u in v.narrowed ==>
                  forall i :: i in kept.kind.inputs <==> i in s.types[u].kind.inputs && (u, i.name) in v.fields)
            && (s.types[u].kind.Union? ==>
                  forall m :: m in kept.kind.members <==> m in s.types[u].kind.members && m in v.types)
  {
    hide SomeOf, KeptFields, KeptInputs, KeptMembers;
    var filtered := nodes[u].filteredField;
    match s.types[u].kind {
      case Object(fields, _) => KeptFieldsAreSome(fields, filtered);
      case Interface(fields, _) => KeptFieldsAreSome(fields, filtered);
      case InputObject(inputs) =>
        KeptInputsAreSome(inputs, filtered);
        forall i: InputValue
          ensures filtered.Some? ==> ((u, i.name) in ViewOf(nodes, ds).fields <==> i.name in filtered.value)
        {
          FieldIsListed(nodes, ds, u, i.name);
        }
      case Union(members) =>
        KeptMembersAreSome(members, nodes);
        KeptMembersAre(members, nodes);
      case _ =>
    }
    if filtered.None? {
      UnfilteredIsWhole(s.types[u].kind, nodes);
    }
  }

  lemma UnfilteredIsWhole(kind: TypeKind, nodes: TypeNodes)
    ensures !kind.Union? ==> ShakenKind(kind, None, nodes) == kind
  {
  }

  // ---------- What a retention does to the fields that are kept ----------

  /** A kept type loses a field exactly when its field list was not narrowed, the selection narrows it, and some field
      of the type is not among those it selects there. A retention without a selection takes no field away. */
  lemma RetentionNarrows(
    s: Schema, w: World, limited: bool, before: TypeNodes, ds: map<Name, bool>, more: View, after: TypeNodes,
    ds': map<Name, bool>, u: Name)
    requires before.Keys == s.types.Keys && after.Keys == s.types.Keys && u in ShakenTypes(s, before)
    requires Adds(w, limited, ViewOf(before, ds), more, ViewOf(after, ds'))
    ensures u in ShakenTypes(s, after)
    ensures (exists f :: f in FieldsOf(ShakenTypes(s, before)[u].kind) && f !in FieldsOf(ShakenTypes(s, after)[u].kind))
       <==> && u !in ViewOf(before, ds).narrowed && u in more.narrowed
            && exists f :: f in FieldsOf(s.types[u].kind) && (u, f.name) !in more.fields
  {
    hide Settled;
    var v, v' := ViewOf(before, ds), ViewOf(after, ds');
    RetainedIsPresent(s, before, ds, u);
    RetainedIsPresent(s, after, ds', u);
    KeptFieldsListed(s, before, ds, u);
    KeptFieldsListed(s, after, ds', u);
    assert u !in v.narrowed ==> forall name :: (u, name) !in v.fields;
  }

  /** The fields kept on a type: all of them, or those listed for it once its field list is narrowed. */
  lemma KeptFieldsListed(s: Schema, nodes: TypeNodes, ds: map<Name, bool>, u: Name)
    requires nodes.Keys == s.types.Keys && u in ShakenTypes(s, nodes)
    ensures forall f :: f in FieldsOf(ShakenTypes(s, nodes)[u].kind) <==>
              && f in FieldsOf(s.types[u].kind)
              && (u in ViewOf(nodes, ds).narrowed ==> (u, f.name) in ViewOf(nodes, ds).fields)
  {
    if nodes[u].filteredField.Some? {
      KeptFieldsHold(FieldsOf(s.types[u].kind), nodes[u].filteredField.value);
      forall f: FieldDef
        ensures (u, f.name) in ViewOf(nodes, ds).fields <==> f.name in nodes[u].filteredField.value
      {
        FieldIsListed(nodes, ds, u, f.name);
      }
    }
  }

  // ---------- After retaining without a selection ----------

  /** After any sequence of unlimited retentions on a fresh shaker, in whatever order, the retained types are exactly
      those that can be reached from the types asked for: the early return at retained types loses nothing. */
  lemma {:induction false} SequenceRetainsReach(w: World, views: seq<View>, asked: seq<Name>)
    requires |views| == |asked| + 1 && views[0] == NOTHING
    requires forall i :: 0 <= i < |asked| ==> RetainsAll(w, Unlimited, views[i], {asked[i]}, {}, views[i + 1])
    ensures views[|asked|].types == Reach(w.uses, set t | t in asked)
    ensures views[|asked|].directives == w.AppliedTo(Reach(w.uses, set t | t in asked))
    ensures views[|asked|].narrowed == {}
  {
    SequenceRetainsAll(w, views, asked);
  }

  lemma {:induction false} SequenceRetainsAll(w: World, views: seq<View>, asked: seq<Name>)
    requires |views| == |asked| + 1 && views[0] == NOTHING
    requires forall i :: 0 <= i < |asked| ==> RetainsAll(w, Unlimited, views[i], {asked[i]}, {}, views[i + 1])
    ensures RetainsAll(w, Unlimited, NOTHING, set t | t in asked, {}, views[|asked|])
    decreases |asked|
  {
    hide RetainsAll;
    if asked == [] {
      RetainsNothing(w, Unlimited, NOTHING);
      assert (set t | t in asked) == {};
    } else {
      var n := |asked| - 1;
      SequenceRetainsAll(w, views[..n + 1], asked[..n]);
      assert RetainsAll(w, Unlimited, views[n], {asked[n]}, {}, views[n + 1]);
      assert (set t | t in asked) == (set t | t in asked[..n]) + {asked[n]};
      RetainsStep(w, Unlimited, NOTHING, set t | t in asked[..n], {}, views[n], {asked[n]}, {}, views[n + 1],
                  set t | t in asked, {});
    }
  }

  /** A retention limited to a depth keeps the types at smaller distance; a depth of at least the number of types of
      the schema keeps all that can be reached. */
  lemma LimitedRetainsDistance(s: Schema, d: nat, t: Name, v: View)
    requires RetainsAll(WorldOf(s), Limited(d), NOTHING, {t}, {}, v)
    ensures forall u :: u in v.types <==> Within(UseGraph(s), {t}, d, u)
    ensures d >= |s.types| ==> v.types == Reach(UseGraph(s), {t})
  {
    hide Ball, Within, Uses, Applied, IsInput, InputsTyped, World.AppliedTo, Reach;
    var g := UseGraph(s);
    assert v.types == Ball(g, {t}, d);
    forall u
      ensures u in v.types <==> Within(g, {t}, d, u)
    {
      BallIsDistance(g, {t}, d, u);
    }
    if d >= |s.types| {
      assert g.Keys == s.types.Keys;
      BallIsReach(g, {t}, d);
    }
  }

  /** When the retained types are closed under uses and none is narrowed, each kept type is kept whole, and all that it
      uses is in the shaken schema or built in. */
  lemma ClosedIsKeptWhole(s: Schema, nodes: TypeNodes, ds: map<Name, bool>, t: Name)
    requires nodes.Keys == s.types.Keys && t in ShakenTypes(s, nodes)
    requires s.types[t].kind.Union? ==> forall m :: m in s.types[t].kind.members ==> m in s.types
    requires Uses(s, t) <= ViewOf(nodes, ds).types && ViewOf(nodes, ds).narrowed == {}
    ensures ShakenTypes(s, nodes)[t] == s.types[t]
    ensures forall u :: u in Uses(s, t) ==> Present(s, ShakenTypes(s, nodes), u)
  {
    var def := s.types[t];
    assert t !in ViewOf(nodes, ds).narrowed;
    if def.kind.Union? {
      forall m | m in def.kind.members
        ensures m in nodes && nodes[m].retain
      {
        assert m in Known(s, def.kind.members);
        assert m in Uses(s, t);
        RetainedIsPresent(s, nodes, ds, m);
      }
      KeptMembersHold(def.kind.members, nodes);
    }
    forall u | u in Uses(s, t)
      ensures Present(s, ShakenTypes(s, nodes), u)
    {
      RetainedIsPresent(s, nodes, ds, u);
    }
  }

  // ---------- After retaining an operation ----------

  /** The field is in the shaken schema on its parent type, with its result type and the types of its arguments. */
  ghost predicate HoldsField(s: Schema, types: map<Name, TypeDef>, parent: Name, name: Name) {
    && Present(s, types, parent)
    && Find(FieldsOf(s.types[parent].kind), name).Some?
    && var f := Find(FieldsOf(s.types[parent].kind), name).value;
       && (parent in types ==> f in FieldsOf(types[parent].kind))
       && Present(s, types, f.ty)
       && forall u :: u in Known(s, ArgTypes(f.args)) ==> Present(s, types, u)
  }

  /** Every field that the operation selects is in the shaken schema on its static parent type, with its result type
      and the types of its arguments. */
  lemma SelectedFieldIsKept(
    c: Context, nodes: TypeNodes, ds: map<Name, bool>, root: Name, sels: seq<Selection>, parent: Name, name: Name)
    requires c.Ok() && nodes.Keys == c.schema.types.Keys && root in c.schema.types
    requires Valid(c, root, sels) && (IsInput(c.schema, root) ==> sels == [])
    requires ViewOf(nodes, ds) == TypeEffect(c, Unlimited, root, sels)
    requires (parent, name) in Selected(c, root, sels)
    ensures HoldsField(c.schema, ShakenTypes(c.schema, nodes), parent, name)
  {
    hide Context.Ok, TypeEffect, Valid, Selected, Known, Present;
    TypeKeepsSelected(c, root, sels);
    var kept := ViewOf(nodes, ds).types;
    assert Needs(c.schema, kept, (parent, name));
    var def := c.schema.types[parent];
    var f := Find(FieldsOf(def.kind), name).value;
    RetainedIsPresent(c.schema, nodes, ds, parent);
    RetainedIsPresent(c.schema, nodes, ds, f.ty);
    forall u | u in Known(c.schema, ArgTypes(f.args))
      ensures Present(c.schema, ShakenTypes(c.schema, nodes), u)
    {
      RetainedIsPresent(c.schema, nodes, ds, u);
    }
    FindMember(FieldsOf(def.kind), name);
    FieldIsListed(nodes, ds, parent, name);
    KeptFieldsHold(FieldsOf(def.kind), nodes[parent].filteredField.value);
  }

  lemma FieldIsListed(nodes: TypeNodes, ds: map<Name, bool>, t: Name, name: Name)
    ensures (t, name) in ViewOf(nodes, ds).fields <==>
            t in nodes && nodes[t].filteredField.Some? && name in nodes[t].filteredField.value
  {
  }

  /** A kept object or interface type has no field but those that the operation selects on it. */
  lemma OnlySelectedFieldsAreKept(
    c: Context, nodes: TypeNodes, ds: map<Name, bool>, root: Name, sels: seq<Selection>, t: Name, f: FieldDef)
    requires c.Ok() && InputsTyped(c.schema) && nodes.Keys == c.schema.types.Keys && root in c.schema.types
    requires Valid(c, root, sels) && (IsInput(c.schema, root) ==> sels == [])
    requires ViewOf(nodes, ds) == TypeEffect(c, Unlimited, root, sels)
    requires t in ShakenTypes(c.schema, nodes) && f in FieldsOf(ShakenTypes(c.schema, nodes)[t].kind)
    ensures (t, f.name) in Selected(c, root, sels) && f in FieldsOf(c.schema.types[t].kind)
  {
    hide Context.Ok, TypeEffect, Valid, Selected, InputsTyped;
    TypeKeepsSelected(c, root, sels);
    TypeNarrows(c, Unlimited, root, sels);
    RetainedIsPresent(c.schema, nodes, ds, t);
    assert t in ViewOf(nodes, ds).narrowed;
    KeptFieldsHold(FieldsOf(c.schema.types[t].kind), nodes[t].filteredField.value);
    FieldIsListed(nodes, ds, t, f.name);
  }

  // ---------- The members that a union keeps ----------

  /** A union in the shaken schema has exactly those of its members that the operation visits. */
  lemma UnionKeepsVisited(
    c: Context, nodes: TypeNodes, ds: map<Name, bool>, root: Name, sels: seq<Selection>, u: Name)
    requires c.Ok() && InputsTyped(c.schema) && nodes.Keys == c.schema.types.Keys && root in c.schema.types
    requires Valid(c, root, sels) && (IsInput(c.schema, root) ==> sels == [])
    requires ViewOf(nodes, ds) == TypeEffect(c, Unlimited, root, sels)
    requires u in ShakenTypes(c.schema, nodes) && c.schema.types[u].kind.Union?
    ensures ShakenTypes(c.schema, nodes)[u].kind.Union?
    ensures forall m :: m in ShakenTypes(c.schema, nodes)[u].kind.members <==>
              m in c.schema.types[u].kind.members && m in Visited(c, root, sels)
  {
    hide Context.Ok, TypeEffect, Valid, Visited, InputsTyped, ViewOf;
    var members := c.schema.types[u].kind.members;
    KeepsVisited(c, root, sels);
    KeptMembersAre(members, nodes);
    forall m | m in members
      ensures m in Visited(c, root, sels) <==> m in nodes && nodes[m].retain
    {
      RetainedIsPresent(c.schema, nodes, ds, m);
      if m in c.schema.types {
        MemberIsObject(c, u, m);
        MemberIsComposite(c, m);
      } else {
        VisitedAreKnown(c, root, sels);
      }
    }
  }

  /** It keeps none exactly when the operation visits none of them. */
  lemma {:induction false} UnionIsEmptyIff(
    c: Context, nodes: TypeNodes, ds: map<Name, bool>, root: Name, sels: seq<Selection>, u: Name)
    requires c.Ok() && InputsTyped(c.schema) && nodes.Keys == c.schema.types.Keys && root in c.schema.types
    requires Valid(c, root, sels) && (IsInput(c.schema, root) ==> sels == [])
    requires ViewOf(nodes, ds) == TypeEffect(c, Unlimited, root, sels)
    requires u in ShakenTypes(c.schema, nodes) && c.schema.types[u].kind.Union?
    ensures KeptMembers(c.schema.types[u].kind.members, nodes) == [] <==>
            forall m :: m in c.schema.types[u].kind.members ==> m !in Visited(c, root, sels)
  {
    hide Context.Ok, TypeEffect, Valid, Visited, InputsTyped, ViewOf, KeptMembers;
    UnionKeepsVisited(c, nodes, ds, root, sels, u);
    var kept := KeptMembers(c.schema.types[u].kind.members, nodes);
    assert ShakenTypes(c.schema, nodes)[u].kind == Union(kept);
    if kept != [] {
      assert kept[0] in kept;
    }
  }

  /** The marks of a fresh shaker after it retained the operation. */
  ghost predicate OperationRetained(c: Context, nodes: TypeNodes, ds: map<Name, bool>, root: Name, sels: seq<Selection>)
    requires c.Ok()
  {
    nodes.Keys == c.schema.types.Keys && ViewOf(nodes, ds) == TypeEffect(c, Unlimited, root, sels)
  }

  /** Object `A` implements interface `I` and is the only member of union `U`, the type of the only field of `Query`. */
  ghost function UnionSchema(): Schema {
    Schema(map["Query" := TypeDef("Query", false, [], Object([FieldDef("u", "U", [], [])], [])),
               "U" := TypeDef("U", false, [], Union(["A"])),
               "A" := TypeDef("A", false, [], Object([FieldDef("x", "S", [], [])], ["I"])),
               "I" := TypeDef("I", false, [], Interface([FieldDef("x", "S", [], [])], [])),
               "S" := TypeDef("S", false, [], Scalar)],
           ["Query", "U", "A", "I", "S"], map[], map[Query := "Query"])
  }

  ghost function OnInterface(): seq<Selection> {
    [InlineFragment(Some("I"), [Field("x", [], [])])]
  }

  /** `{ u { ... on I { x } } }` */
  ghost function UnionSelection(): seq<Selection> {
    [Field("u", [], OnInterface())]
  }

  /** A valid operation that leaves a union without members: it selects on the interface of the member alone. */
  lemma UnionLosesItsMembers() returns (c: Context)
    ensures c.Ok() && c.schema == UnionSchema() && InputsTyped(c.schema)
    ensures ValidOperation(c, "Query", UnionSelection())
    ensures forall nodes, ds :: OperationRetained(c, nodes, ds, "Query", UnionSelection()) ==>
                "U" in ShakenTypes(c.schema, nodes) && ShakenTypes(c.schema, nodes)["U"].kind == Union([])
  {
    hide Context.Ok, InputsTyped, TypeEffect, Visited, Valid, ViewOf, KeptMembers;
    c := UnionContext();
    UnionOperationVisits(c);
    KeepsVisited(c, "Query", UnionSelection());
    forall nodes, ds | OperationRetained(c, nodes, ds, "Query", UnionSelection())
      ensures "U" in ShakenTypes(c.schema, nodes) && ShakenTypes(c.schema, nodes)["U"].kind == Union([])
    {
      RetainedIsPresent(c.schema, nodes, ds, "U");
      assert !IsInput(c.schema, "U");
      UnionIsEmptyIff(c, nodes, ds, "Query", UnionSelection(), "U");
    }
  }

  lemma UnionContext() returns (c: Context)
    ensures c.Ok() && c.schema == UnionSchema() && c.fragments == map[] && InputsTyped(c.schema)
  {
    hide WorldOf, InputsTyped;
    UnionSchemaIsTyped();
    c := Context(UnionSchema(), WorldOf(UnionSchema()), map[], map[]);
  }

  lemma UnionSchemaIsTyped()
    ensures InputsTyped(UnionSchema())
  {
    var s := UnionSchema();
    assert Known(s, ArgTypes([])) == {};
    forall t, f | t in s.types && f in FieldsOf(s.types[t].kind)
      ensures f.args == []
    {
      assert FieldsOf(s.types[t].kind) == [] || FieldsOf(s.types[t].kind) == [FieldDef("u", "U", [], [])]
          || FieldsOf(s.types[t].kind) == [FieldDef("x", "S", [], [])];
    }
  }

  lemma UnionOperationVisits(c: Context)
    requires c.Ok() && c.schema == UnionSchema() && c.fragments == map[]
    ensures ValidOperation(c, "Query", UnionSelection())
    ensures "U" in Visited(c, "Query", UnionSelection()) && "A" !in Visited(c, "Query", UnionSelection())
  {
    hide Context.Ok, Visited, Valid;
    OnInterfaceVisits(c);
    VisitedByOne(c, "Query", UnionSelection()[0]);
    ValidByOne(c, "Query", UnionSelection()[0]);
    assert IsComposite(c.schema, "Query") && !IsInput(c.schema, "U");
  }

  lemma OnInterfaceVisits(c: Context)
    requires c.Ok() && c.schema == UnionSchema() && c.fragments == map[]
    ensures Valid(c, "U", OnInterface()) && Visited(c, "U", OnInterface()) == {"U", "I", "S"}
  {
    hide Context.Ok, Visited, Valid;
    var x := Field("x", [], []);
    assert IsComposite(c.schema, "U") && IsComposite(c.schema, "I");
    VisitedByNone(c, "S");
    VisitedByOne(c, "I", x);
    ValidByOne(c, "I", x);
    VisitedByOne(c, "U", OnInterface()[0]);
    ValidByOne(c, "U", OnInterface()[0]);
    assert ForMember(c.fragments, OnInterface(), "A") == [] by { NothingForMember(c, OnInterface()[0], "A"); }
    OnlyMember(c, "U", "A", OnInterface());
  }

  lemma NothingForMember(c: Context, sel: Selection, m: Name)
    requires !IsForMember(c.fragments, sel, m)
    ensures ForMember(c.fragments, [sel], m) == []
  {
    assert [sel][..0] == [];
  }

  lemma OnlyMember(c: Context, t: Name, m: Name, sels: seq<Selection>)
    requires c.Ok() && IsUnion(c.schema, t) == 1 && c.schema.types[t].kind.members == [m]
    requires ForMember(c.fragments, sels, m) == []
    ensures VisitedMembers(c, t, [m], sels) == {}
  {
    hide Context.Ok, Visited, ForMember;
    assert [m][..0] == [];
  }

  lemma VisitedByNone(c: Context, t: Name)
    requires c.Ok() && t in c.schema.types && IsUnion(c.schema, t) == 0
    ensures Visited(c, t, []) == {t} && Valid(c, t, [])
  {
    hide Context.Ok;
  }

  lemma VisitedByOne(c: Context, t: Name, sel: Selection)
    requires c.Ok() && t in c.schema.types
    ensures Visited(c, t, [sel]) == {t} + VisitedOne(c, t, sel)
            + if IsUnion(c.schema, t) == 1 then VisitedMembers(c, t, c.schema.types[t].kind.members, [sel]) else {}
  {
    hide Context.Ok, VisitedOne, VisitedMembers;
    assert [sel][..0] == [];
    NothingBelow(c, t);
    assert VisitedBelow(c, t, [sel]) == VisitedBelow(c, t, []) + VisitedOne(c, t, sel);
  }

  lemma ValidByOne(c: Context, t: Name, sel: Selection)
    requires c.Ok()
    ensures Valid(c, t, [sel]) <==> ValidOne(c, t, sel)
  {
    hide Context.Ok, ValidOne;
    assert [sel][..0] == [];
  }

  // ---------- The program's uses ----------

  /** What a shaken schema is for an operation. Every field that it selects can be typed, no type has another field, and
      every union has the members that it visits. */
  ghost predicate Serves(c: Context, types: map<Name, TypeDef>, root: Name, sels: seq<Selection>)
    requires c.Ok()
  {
    && (forall parent, name :: (parent, name) in Selected(c, root, sels) ==> HoldsField(c.schema, types, parent, name))
    && (forall t, f :: t in types && f in FieldsOf(types[t].kind) ==> (t, f.name) in Selected(c, root, sels))
    && (forall u :: u in types && u in c.schema.types && c.schema.types[u].kind.Union? ==>
          HasVisited(types[u].kind, c.schema.types[u].kind.members, Visited(c, root, sels)))
  }

  /** The types are those visited, with all that the input types asked for reach. Each is defined as in the schema, but
      for fields and members left out; scalars, enums, and the input objects that no field has for a type, are whole. */
  ghost predicate HoldsTypes(c: Context, types: map<Name, TypeDef>, root: Name, sels: seq<Selection>)
    requires c.Ok()
  {
    var asked := RequestOf(c, root, sels);
    && (forall u :: u in types <==>
          && u in c.schema.types && !c.schema.types[u].builtIn
          && (u in asked.visited || u in Reach(UseGraph(c.schema), InputsAsked(c.schema, asked))))
    && (forall u :: u in types ==> u in c.schema.types && Shortens(types[u], c.schema.types[u]))
    && (forall u :: u in types && u in c.schema.types && c.schema.types[u].kind.InputObject? && u !in asked.visited ==>
          types[u] == c.schema.types[u])
  }

  /** The directives are those on what is asked for, and those applied to what the input types asked for reach. */
  ghost predicate HoldsDirectives(
    c: Context, directives: map<Name, DirectiveDef>, root: Name, sels: seq<Selection>)
    requires c.Ok()
  {
    var asked := RequestOf(c, root, sels);
    var inputs := Reach(UseGraph(c.schema), InputsAsked(c.schema, asked));
    forall d :: d in directives <==>
      && d in c.schema.directives && !c.schema.directives[d].builtIn
      && (d in Used(c.schema, asked) || exists u :: u in inputs && d in Applied(c.schema, u))
  }

  ghost predicate HasVisited(kind: TypeKind, members: seq<Name>, visited: set<Name>) {
    kind.Union? && forall m :: m in kind.members <==> m in members && m in visited
  }

  ghost predicate ValidOperation(c: Context, root: Name, sels: seq<Selection>)
    requires c.Ok()
  {
    root in c.schema.types && Valid(c, root, sels) && (IsInput(c.schema, root) ==> sels == [])
  }

  /** Shake a schema down to an operation, as the program does when it describes a tool. Without a root operation type
      of its kind nothing is kept. */
  method ShakeOperation(s: Schema, op: OperationType, sels: seq<Selection>, fragments: map<Name, Fragment>)
    returns (types: map<Name, TypeDef>, directives: map<Name, DirectiveDef>)
    requires UnionsOfObjects(s) && InputsTyped(s) && AcyclicFragments(fragments)
    ensures op in s.roots ==>
              forall c: Context ::
                c.Ok() && c.schema == s && c.fragments == fragments && ValidOperation(c, s.roots[op], sels) ==>
                  && Serves(c, types, s.roots[op], sels)
                  && HoldsTypes(c, types, s.roots[op], sels)
                  && HoldsDirectives(c, directives, s.roots[op], sels)
    ensures forall d :: d in directives ==> d in s.directives && directives[d] == s.directives[d]
    ensures op !in s.roots && "query" !in s.types && "mutation" !in s.types && "subscription" !in s.types ==>
              types == map[] && directives == map[]
  {
    hide Context.Ok, TypeEffect, InputsTyped, UnionsOfObjects, AcyclicFragments, WorldOf, ViewOf, Settled;
    hide ShakenTypes, Serves, HoldsTypes, HoldsDirectives, ValidOperation, Weighted, ShakenDirectives;
    var shaker := new SchemaTreeShaker(s);
    FreshIsSettled(s, shaker.world);
    shaker.RetainOperation(op, sels, fragments, Unlimited);
    ghost var mine, root := shaker.Ctx(), RootName(s, op);
    PlusNothing(TypeEffect(mine, Unlimited, root, sels));
    types := ShakenTypes(s, shaker.namedTypeNodes);
    directives := ShakenDirectives(s, shaker.directiveNodes);
    DirectivesAreThere(s, shaker.directiveNodes);
    RootIs(s, op);
    forall c: Context | c.Ok() && c.schema == s && c.fragments == fragments && ValidOperation(c, root, sels)
      ensures Serves(c, types, root, sels)
      ensures HoldsTypes(c, types, root, sels) && HoldsDirectives(c, directives, root, sels)
    {
      OperationIsServed(c, mine, shaker.namedTypeNodes, shaker.directiveNodes, root, sels);
      OperationIsGranted(c, mine, shaker.namedTypeNodes, shaker.directiveNodes, root, sels);
    }
    if root !in s.types {
      NothingKept(s, mine, shaker.namedTypeNodes, shaker.directiveNodes, root, sels);
    }
  }

  lemma RootIs(s: Schema, op: OperationType)
    ensures op in s.roots ==> RootName(s, op) == s.roots[op]
    ensures op !in s.roots ==> RootName(s, op) in {"query", "mutation", "subscription"}
  {
  }

  lemma DirectivesAreThere(s: Schema, ds: map<Name, bool>)
    ensures forall d :: d in ShakenDirectives(s, ds) ==>
              d in s.directives && ShakenDirectives(s, ds)[d] == s.directives[d]
  {
  }

  lemma NothingKept(
    s: Schema, c: Context, nodes: TypeNodes, ds: map<Name, bool>, root: Name, sels: seq<Selection>)
    requires c.Ok() && c.schema == s && root !in s.types && nodes.Keys == s.types.Keys
    requires ViewOf(nodes, ds) == TypeEffect(c, Unlimited, root, sels)
    ensures ShakenTypes(s, nodes) == map[] && ShakenDirectives(s, ds) == map[]
  {
    hide Context.Ok, TypeEffect;
    UnknownAddsNothing(c, root, sels);
    ShakenFromView(s, nodes, ds);
    assert forall d :: d in ds && ds[d] ==> d in ViewOf(nodes, ds).directives;
  }

  lemma OperationIsGranted(
    c: Context, mine: Context, nodes: TypeNodes, ds: map<Name, bool>, root: Name, sels: seq<Selection>)
    requires c.Ok() && mine.Ok() && c.schema == mine.schema && c.fragments == mine.fragments
    requires nodes.Keys == c.schema.types.Keys && ds.Keys == c.schema.directives.Keys && ValidOperation(c, root, sels)
    requires ViewOf(nodes, ds) == TypeEffect(mine, Unlimited, root, sels)
    ensures HoldsTypes(c, ShakenTypes(c.schema, nodes), root, sels)
    ensures HoldsDirectives(c, ShakenDirectives(c.schema, ds), root, sels)
  {
    hide Context.Ok, TypeEffect, Valid, RequestOf, ViewOf, ShakenTypes, ShakenDirectives, Granted, HoldsTypes, Shortens;
    hide HoldsDirectives;
    SameMeaning(c, mine, root, sels);
    SameRequest(c, mine, root, sels);
    TypeGrants(mine, root, sels);
    TypesAreGranted(c, nodes, ds, root, sels);
    DirectivesAreGranted(c, nodes, ds, root, sels);
  }

  lemma TypesAreGranted(c: Context, nodes: TypeNodes, ds: map<Name, bool>, root: Name, sels: seq<Selection>)
    requires c.Ok() && nodes.Keys == c.schema.types.Keys
    requires ViewOf(nodes, ds) == Granted(c.schema, RequestOf(c, root, sels))
    ensures HoldsTypes(c, ShakenTypes(c.schema, nodes), root, sels)
  {
    hide Context.Ok, RequestOf, ViewOf, ShakenTypes, Shortens, Reach, InputsAsked, Used, World.AppliedTo;
    ShakenFromView(c.schema, nodes, ds);
    forall u | u in ShakenTypes(c.schema, nodes)
      ensures u in c.schema.types && Shortens(ShakenTypes(c.schema, nodes)[u], c.schema.types[u])
      ensures c.schema.types[u].kind.InputObject? && u !in RequestOf(c, root, sels).visited ==>
                ShakenTypes(c.schema, nodes)[u] == c.schema.types[u]
    {
      DefinitionsAreKept(c.schema, nodes, ds, u);
    }
  }

  lemma DirectivesAreGranted(c: Context, nodes: TypeNodes, ds: map<Name, bool>, root: Name, sels: seq<Selection>)
    requires c.Ok() && ds.Keys == c.schema.directives.Keys
    requires ViewOf(nodes, ds) == Granted(c.schema, RequestOf(c, root, sels))
    ensures HoldsDirectives(c, ShakenDirectives(c.schema, ds), root, sels)
  {
    hide Context.Ok, RequestOf, Reach, InputsAsked, Used, WorldOf, Applied;
    var inputs := Reach(UseGraph(c.schema), InputsAsked(c.schema, RequestOf(c, root, sels)));
    WorldOfOk(c.schema);
    assert forall d :: d in ViewOf(nodes, ds).directives <==> d in ds && ds[d];
    forall d
      ensures d in WorldOf(c.schema).AppliedTo(inputs) <==> exists u :: u in inputs && d in Applied(c.schema, u)
    {
      assert forall u :: u in inputs ==> WorldOf(c.schema).Applied(u) == Applied(c.schema, u);
    }
  }

  lemma OperationIsServed(
    c: Context, mine: Context, nodes: TypeNodes, ds: map<Name, bool>, root: Name, sels: seq<Selection>)
    requires c.Ok() && mine.Ok() && c.schema == mine.schema && c.fragments == mine.fragments && InputsTyped(c.schema)
    requires nodes.Keys == c.schema.types.Keys && ValidOperation(c, root, sels)
    requires ViewOf(nodes, ds) == TypeEffect(mine, Unlimited, root, sels)
    ensures Serves(c, ShakenTypes(c.schema, nodes), root, sels)
  {
    hide Context.Ok, TypeEffect, Valid, Selected, Visited, InputsTyped, ViewOf, ShakenTypes, HoldsField;
    SameMeaning(c, mine, root, sels);
    SameVisited(c, mine, root, sels);
    var types := ShakenTypes(c.schema, nodes);
    forall parent, name | (parent, name) in Selected(mine, root, sels)
      ensures HoldsField(c.schema, types, parent, name)
    {
      SelectedFieldIsKept(mine, nodes, ds, root, sels, parent, name);
    }
    forall t, f | t in types && f in FieldsOf(types[t].kind)
      ensures (t, f.name) in Selected(mine, root, sels)
    {
      OnlySelectedFieldsAreKept(mine, nodes, ds, root, sels, t, f);
    }
    forall u | u in types && u in c.schema.types && c.schema.types[u].kind.Union?
      ensures HasVisited(types[u].kind, c.schema.types[u].kind.members, Visited(mine, root, sels))
    {
      UnionKeepsVisited(mine, nodes, ds, root, sels, u);
    }
  }

  lemma FreshIsSettled(s: Schema, w: World)
    requires InputsTyped(s) && w == WorldOf(s)
    ensures Settled(w, NOTHING)
  {
    hide InputsTyped, Uses, Applied, IsInput;
  }

  lemma PlusNothing(v: View)
    ensures NOTHING.Plus(v) == v
  {
  }

  /** The types that describing `t` retains: those within the depth, or with a depth of zero all it reaches. */
  ghost predicate Described(s: Schema, t: Name, depth: nat, u: Name) {
    t in s.types && if depth > 0 then Within(UseGraph(s), {t}, depth, u) else u in Reach(UseGraph(s), {t})
  }

  /** The directives are those that are defined, not built in, and applied to a retained type. */
  ghost predicate DirectivesOf(s: Schema, directives: map<Name, DirectiveDef>, retained: iset<Name>) {
    && (forall d :: d in directives <==>
          d in s.directives && !s.directives[d].builtIn && exists u :: u in retained && d in Applied(s, u))
    && (forall d :: d in directives && d in s.directives ==> directives[d] == s.directives[d])
  }

  /** Each kept type is as it is in the schema, and a union has those of its members that are retained. */
  ghost predicate WholeButMembers(s: Schema, types: map<Name, TypeDef>, retained: iset<Name>) {
    forall u :: u in types ==>
      && u in s.types && Shortens(types[u], s.types[u])
      && (!s.types[u].kind.Union? ==> types[u] == s.types[u])
      && (s.types[u].kind.Union? ==>
            forall m :: m in types[u].kind.members <==> m in s.types[u].kind.members && m in retained)
  }

  lemma UnnarrowedIsWhole(s: Schema, nodes: TypeNodes, ds: map<Name, bool>, retained: iset<Name>)
    requires nodes.Keys == s.types.Keys && ViewOf(nodes, ds).narrowed == {}
    requires forall u :: u in ViewOf(nodes, ds).types <==> u in retained
    ensures WholeButMembers(s, ShakenTypes(s, nodes), retained)
  {
    hide ViewOf, ShakenTypes, Shortens;
    ShakenFromView(s, nodes, ds);
    forall u | u in ShakenTypes(s, nodes)
      ensures var kept := ShakenTypes(s, nodes)[u];
              && u in s.types && Shortens(kept, s.types[u]) && (!s.types[u].kind.Union? ==> kept == s.types[u])
              && (s.types[u].kind.Union? ==>
                    && kept.kind.Union?
                    && forall m :: m in kept.kind.members <==> m in s.types[u].kind.members && m in retained)
    {
      DefinitionsAreKept(s, nodes, ds, u);
      UnionStays(ShakenTypes(s, nodes)[u], s.types[u]);
    }
  }

  lemma UnionStays(kept: TypeDef, def: TypeDef)
    requires Shortens(kept, def)
    ensures def.kind.Union? ==> kept.kind.Union?
  {
    hide SomeOf;
  }

  /** Describe one type and what it references, up to a depth, or without a limit at depth 0. */
  method ShakeType(s: Schema, t: Name, depth: nat)
    returns (types: map<Name, TypeDef>, directives: map<Name, DirectiveDef>)
    requires UnionsOfObjects(s)
    ensures forall u :: u in types <==> s.Indexed(u) && Described(s, t, depth, u)
    ensures DirectivesOf(s, directives, iset u | Described(s, t, depth, u))
    ensures WholeButMembers(s, types, iset u | Described(s, t, depth, u))
    ensures depth == 0 && MembersDefined(s) ==> forall u :: u in types ==> u in s.types && types[u] == s.types[u]
    ensures depth == 0 ==> forall u, v :: u in types && v in Uses(s, u) ==> v in types || !s.Indexed(v)
  {
    hide Context.Ok, UnionsOfObjects, WorldOf, ViewOf, RetainsAll, ShakenTypes, ShakenDirectives, Within, Uses, Reach;
    hide Applied, MembersDefined, Settled, Shortens;
    if t !in s.types {
      return map[], map[];
    }
    var shaker := new SchemaTreeShaker(s);
    var limit := if depth > 0 then Limited(depth) else Unlimited;
    shaker.RetainType(t, None, limit);
    types := ShakenTypes(s, shaker.namedTypeNodes);
    directives := ShakenDirectives(s, shaker.directiveNodes);
    ghost var v := shaker.Now();
    if depth > 0 {
      LimitedRetainsDistance(s, depth, t, v);
    } else {
      UnlimitedRetainsReach(s, {t}, v);
    }
    ShakenFromView(s, shaker.namedTypeNodes, shaker.directiveNodes);
    DirectivesFromView(s, limit, {t}, v, shaker.directiveNodes, shaker.namedTypeNodes,
                       iset u | Described(s, t, depth, u));
    NothingNarrowed(s, limit, {t}, v);
    UnnarrowedIsWhole(s, shaker.namedTypeNodes, shaker.directiveNodes, iset u | Described(s, t, depth, u));
    if depth == 0 && MembersDefined(s) {
      AllKeptWhole(s, shaker.namedTypeNodes, shaker.directiveNodes);
    }
  }

  /** Describe several types without a limit, one after another: what is retained are the types reachable from them,
      whatever their order, each unchanged, and the whole is closed under uses up to built-ins. */
  method ShakeTypes(s: Schema, asked: seq<Name>)
    returns (types: map<Name, TypeDef>, directives: map<Name, DirectiveDef>)
    requires UnionsOfObjects(s)
    ensures forall u :: u in types <==> s.Indexed(u) && u in Reach(UseGraph(s), Known(s, asked))
    ensures DirectivesOf(s, directives, iset u | u in Reach(UseGraph(s), Known(s, asked)))
    ensures MembersDefined(s) ==> forall u :: u in types ==> u in s.types && types[u] == s.types[u]
    ensures forall u, v :: u in types && v in Uses(s, u) ==> v in types || !s.Indexed(v)
  {
    hide Context.Ok, UnionsOfObjects, WorldOf, ViewOf, RetainsAll, ShakenTypes, ShakenDirectives, Uses, Reach;
    hide Applied, Known, MembersDefined, Settled;
    var shaker := new SchemaTreeShaker(s);
    UsesOfNothing(s);
    RetainsNothing(shaker.world, Unlimited, NOTHING);
    var i := 0;
    while i < |asked|
      invariant 0 <= i <= |asked| && shaker.Valid() && shaker.schema == s && shaker.world == WorldOf(s) && fresh(shaker)
      invariant RetainsAll(shaker.world, Unlimited, NOTHING, Known(s, asked[..i]), {}, shaker.Now())
    {
      ghost var before := shaker.Now();
      if asked[i] in s.types {
        shaker.RetainType(asked[i], None, Unlimited);
      }
      NextMember(s, shaker.world, Unlimited, NOTHING, asked, i, before, shaker.Now());
      i := i + 1;
    }
    assert asked[..i] == asked;
    types := ShakenTypes(s, shaker.namedTypeNodes);
    directives := ShakenDirectives(s, shaker.directiveNodes);
    ghost var v, reach := shaker.Now(), Reach(UseGraph(s), Known(s, asked));
    UnlimitedRetainsReach(s, Known(s, asked), v);
    ShakenFromView(s, shaker.namedTypeNodes, shaker.directiveNodes);
    DirectivesFromView(s, Unlimited, Known(s, asked), v, shaker.directiveNodes, shaker.namedTypeNodes,
                       iset u | u in reach);
    if MembersDefined(s) {
      AllKeptWhole(s, shaker.namedTypeNodes, shaker.directiveNodes);
    }
  }

  ghost predicate MembersDefined(s: Schema) {
    forall t, m :: t in s.types && s.types[t].kind.Union? && m in s.types[t].kind.members ==> m in s.types
  }

  lemma AllKeptWhole(s: Schema, nodes: TypeNodes, ds: map<Name, bool>)
    requires nodes.Keys == s.types.Keys && MembersDefined(s) && ViewOf(nodes, ds).narrowed == {}
    requires forall u :: u in ViewOf(nodes, ds).types ==> Uses(s, u) <= ViewOf(nodes, ds).types
    ensures forall u :: u in ShakenTypes(s, nodes) ==> u in s.types && ShakenTypes(s, nodes)[u] == s.types[u]
  {
    hide Uses, ViewOf;
    ShakenFromView(s, nodes, ds);
    forall u | u in ShakenTypes(s, nodes)
      ensures ShakenTypes(s, nodes)[u] == s.types[u]
    {
      ClosedIsKeptWhole(s, nodes, ds, u);
    }
  }

  lemma ShakenFromView(s: Schema, nodes: TypeNodes, ds: map<Name, bool>)
    requires nodes.Keys == s.types.Keys
    ensures forall u :: u in ShakenTypes(s, nodes) <==> s.Indexed(u) && u in ViewOf(nodes, ds).types
  {
  }

  lemma NothingNarrowed(s: Schema, limit: DepthLimit, from: set<Name>, v: View)
    requires RetainsAll(WorldOf(s), limit, NOTHING, from, {}, v)
    ensures v.narrowed == {}
  {
    hide WorldOf, Expands, World.AppliedTo;
  }

  /** The directives kept are those applied to the types kept. */
  lemma DirectivesFromView(
    s: Schema, limit: DepthLimit, from: set<Name>, v: View, ds: map<Name, bool>, nodes: TypeNodes, retained: iset<Name>)
    requires RetainsAll(WorldOf(s), limit, NOTHING, from, {}, v) && v == ViewOf(nodes, ds)
    requires ds.Keys == s.directives.Keys
    requires forall u :: u in v.types <==> u in retained
    ensures DirectivesOf(s, ShakenDirectives(s, ds), retained)
  {
    hide RetainsAll, WorldOf, Applied;
    DirectivesAreApplied(s, limit, from, v);
    assert forall d :: d in v.directives <==> d in ds && ds[d];
  }

  lemma DirectivesAreApplied(s: Schema, limit: DepthLimit, from: set<Name>, v: View)
    requires RetainsAll(WorldOf(s), limit, NOTHING, from, {}, v)
    ensures forall d :: d in v.directives <==> exists u :: u in v.types && d in Applied(s, u)
  {
    hide Uses, Expands, IsInput, InputsTyped, Defined, KindApplied;
    var w := WorldOf(s);
    assert v.directives == w.AppliedTo(v.types);
    forall u, d | u in v.types && d in Applied(s, u)
      ensures d in v.directives
    {
      assert d in w.Applied(u);
    }
    forall d | d in v.directives
      ensures exists u :: u in v.types && d in Applied(s, u)
    {
      var u :| u in v.types && d in w.Applied(u);
      assert d in Applied(s, u);
    }
  }

  lemma UnlimitedRetainsReach(s: Schema, from: set<Name>, v: View)
    requires RetainsAll(WorldOf(s), Unlimited, NOTHING, from, {}, v)
    ensures v.types == Reach(UseGraph(s), from) && v.narrowed == {}
    ensures forall u :: u in v.types ==> Uses(s, u) <= v.types
  {
    hide Uses, Applied, IsInput, InputsTyped, World.AppliedTo;
    assert v.types == Reach(UseGraph(s), from);
    ReachClosed(UseGraph(s), from);
    WorldOfOk(s);
    forall u | u in v.types
      ensures Uses(s, u) <= v.types
    {
      assert Next(UseGraph(s), u) == Uses(s, u);
      forall x | x in Uses(s, u)
        ensures x in v.types
      {
        assert x in NextOf(UseGraph(s), v.types);
      }
    }
  }
}

/** The schema tree shaker as the program runs it (crates/apollo-mcp-server/src/schema_tree_shake.rs). */
module Shaker {
  import opened GraphQL
  import opened Graphs
  import opened ShakeViews
  import opened ShakeGraph
  import opened ShakeSpec

  datatype TreeTypeNode = TreeTypeNode(retain: bool, filteredField: Option<seq<Name>>)

  type TypeNodes = map<Name, TreeTypeNode>

  function ViewOf(nodes: TypeNodes, directives: map<Name, bool>): View {
    View(
      set t | t in nodes && nodes[t].retain,
      set t | t in nodes && nodes[t].filteredField.Some?,
      set t, f | t in nodes && nodes[t].filteredField.Some? && f in nodes[t].filteredField.value :: (t, f),
      set d | d in directives && directives[d])
  }

  /** The names of the selected fields, as `retain_type` appends them. */
  function NameList(sels: seq<Selection>): (r: seq<Name>)
    ensures forall n :: n in r <==> n in Names(sels)
  {
    if sels == [] then [] else
    var k := |sels| - 1;
    assert forall sel :: sel in sels <==> sel in sels[..k] || sel == sels[k];
    NameList(sels[..k]) + (if IsNamed(sels[k]) then [sels[k].name] else [])
  }

  function Mark(nodes: TypeNodes, t: Name, selectionSet: Option<seq<Selection>>): TypeNodes
    requires t in nodes
  {
    var kept := match nodes[t].filteredField { case Some(fs) => fs case None => [] };
    var filtered := if selectionSet.Some? then Some(kept + NameList(selectionSet.value)) else nodes[t].filteredField;
    nodes[t := TreeTypeNode(true, filtered)]
  }

  lemma MarkView(nodes: TypeNodes, t: Name, selectionSet: Option<seq<Selection>>, ds: map<Name, bool>)
    requires t in nodes
    ensures var v, v' := ViewOf(nodes, ds), ViewOf(Mark(nodes, t, selectionSet), ds);
            match selectionSet
            case None => v' == v.(types := v.types + {t})
            case Some(sels) => v' == v.Plus(Marked(t, Names(sels)))
  {
    var v, v' := ViewOf(nodes, ds), ViewOf(Mark(nodes, t, selectionSet), ds);
    assert v'.types == v.types + {t};
    if selectionSet.Some? {
      var m := Marked(t, Names(selectionSet.value));
      assert v'.narrowed == v.narrowed + {t};
      assert v'.fields == v.fields + m.fields;
    } else {
      assert v'.narrowed == v.narrowed;
      assert v'.fields == v.fields;
    }
  }

  lemma MarkDirectiveView(nodes: TypeNodes, ds: map<Name, bool>, d: Name)
    requires d in ds
    ensures ViewOf(nodes, ds[d := true]) == ViewOf(nodes, ds).Plus(OnlyDirectives({d}))
  {
    assert ViewOf(nodes, ds[d := true]).directives == ViewOf(nodes, ds).directives + {d};
  }

  // ---------- One more element of a list ----------

  lemma NextArgument(
    s: Schema, w: World, limit: DepthLimit, v: View, args: seq<InputValue>, i: nat, v1: View, v2: View)
    requires i < |args| && RetainsAll(w, limit, v, Known(s, ArgTypes(args[..i])), {}, v1)
    requires if args[i].ty in s.types then RetainsAll(w, limit, v1, {args[i].ty}, {}, v2) else v2 == v1
    ensures RetainsAll(w, limit, v, Known(s, ArgTypes(args[..i + 1])), {}, v2)
  {
    hide RetainsAll, Known, ArgTypes;
    ArgTypesNext(s, args, i);
    if args[i].ty !in s.types {
      RetainsNothing(w, limit, v1);
    }
    RetainsStep(w, limit, v, Known(s, ArgTypes(args[..i])), {}, v1,
                if args[i].ty in s.types then {args[i].ty} else {}, {}, v2, Known(s, ArgTypes(args[..i + 1])), {});
  }

  lemma NextDirective(s: Schema, w: World, limit: DepthLimit, v: View, ds: seq<Name>, i: nat, v1: View, v2: View)
    requires i < |ds| && RetainsAll(w, limit, v, DirectiveTypes(s, ds[..i]), Defined(s, ds[..i]), v1)
    requires RetainsAll(w, limit, v1, DirectiveTypes(s, [ds[i]]), Defined(s, [ds[i]]), v2)
    ensures RetainsAll(w, limit, v, DirectiveTypes(s, ds[..i + 1]), Defined(s, ds[..i + 1]), v2)
  {
    hide RetainsAll, DirectiveTypes, Defined;
    DirectivesNext(s, ds, i);
    RetainsStep(w, limit, v, DirectiveTypes(s, ds[..i]), Defined(s, ds[..i]), v1,
                DirectiveTypes(s, [ds[i]]), Defined(s, [ds[i]]), v2,
                DirectiveTypes(s, ds[..i + 1]), Defined(s, ds[..i + 1]));
  }

  lemma NextField(s: Schema, w: World, limit: DepthLimit, v: View, fields: seq<FieldDef>, i: nat, v1: View, v2: View)
    requires i < |fields| && RetainsAll(w, limit, v, FieldsTypes(s, fields[..i]), FieldsDirectives(s, fields[..i]), v1)
    requires RetainsAll(w, limit, v1, FieldTypes(s, fields[i]), Defined(s, fields[i].directives), v2)
    ensures RetainsAll(w, limit, v, FieldsTypes(s, fields[..i + 1]), FieldsDirectives(s, fields[..i + 1]), v2)
  {
    hide RetainsAll, FieldsTypes, FieldsDirectives, FieldTypes, Defined;
    FieldsNext(s, fields, i);
    RetainsStep(w, limit, v, FieldsTypes(s, fields[..i]), FieldsDirectives(s, fields[..i]), v1,
                FieldTypes(s, fields[i]), Defined(s, fields[i].directives), v2,
                FieldsTypes(s, fields[..i + 1]), FieldsDirectives(s, fields[..i + 1]));
  }

  lemma NextValue(s: Schema, w: World, limit: DepthLimit, v: View, values: seq<EnumValue>, i: nat, v1: View, v2: View)
    requires i < |values| && RetainsAll(w, limit, v, ValuesTypes(s, values[..i]), ValuesDirectives(s, values[..i]), v1)
    requires RetainsAll(w, limit, v1, DirectiveTypes(s, values[i].directives), Defined(s, values[i].directives), v2)
    ensures RetainsAll(w, limit, v, ValuesTypes(s, values[..i + 1]), ValuesDirectives(s, values[..i + 1]), v2)
  {
    hide RetainsAll, ValuesTypes, ValuesDirectives, DirectiveTypes, Defined;
    ValuesNext(s, values, i);
    RetainsStep(w, limit, v, ValuesTypes(s, values[..i]), ValuesDirectives(s, values[..i]), v1,
                DirectiveTypes(s, values[i].directives), Defined(s, values[i].directives), v2,
                ValuesTypes(s, values[..i + 1]), ValuesDirectives(s, values[..i + 1]));
  }

  lemma NextInput(
    s: Schema, w: World, limit: DepthLimit, v: View, inputs: seq<InputValue>, i: nat, v1: View, v2: View, v3: View)
    requires i < |inputs| && RetainsAll(w, limit, v, InputsTypes(s, inputs[..i]), InputsDirectives(s, inputs[..i]), v1)
    requires RetainsAll(w, limit, v1, Known(s, [inputs[i].ty]), {}, v2)
    requires RetainsAll(w, limit, v2, DirectiveTypes(s, inputs[i].directives), Defined(s, inputs[i].directives), v3)
    ensures RetainsAll(w, limit, v, InputsTypes(s, inputs[..i + 1]), InputsDirectives(s, inputs[..i + 1]), v3)
  {
    hide RetainsAll, InputsTypes, InputsDirectives, DirectiveTypes, Defined, Known;
    InputsNext(s, inputs, i);
    var ds := inputs[i].directives;
    RetainsStep(w, limit, v1, Known(s, [inputs[i].ty]), {}, v2, DirectiveTypes(s, ds), Defined(s, ds), v3,
                Known(s, [inputs[i].ty]) + DirectiveTypes(s, ds), Defined(s, ds));
    RetainsStep(w, limit, v, InputsTypes(s, inputs[..i]), InputsDirectives(s, inputs[..i]), v1,
                Known(s, [inputs[i].ty]) + DirectiveTypes(s, ds), Defined(s, ds), v3,
                InputsTypes(s, inputs[..i + 1]), InputsDirectives(s, inputs[..i + 1]));
  }

  lemma NextMember(s: Schema, w: World, limit: DepthLimit, v: View, members: seq<Name>, i: nat, v1: View, v2: View)
    requires i < |members| && RetainsAll(w, limit, v, Known(s, members[..i]), {}, v1)
    requires if members[i] in s.types then RetainsAll(w, limit, v1, {members[i]}, {}, v2) else v2 == v1
    ensures RetainsAll(w, limit, v, Known(s, members[..i + 1]), {}, v2)
  {
    hide RetainsAll, Known;
    KnownNext(s, members, i);
    if members[i] !in s.types {
      RetainsNothing(w, limit, v1);
    }
    RetainsStep(w, limit, v, Known(s, members[..i]), {}, v1,
                if members[i] in s.types then {members[i]} else {}, {}, v2, Known(s, members[..i + 1]), {});
  }

  /** The parts of a field, put together. */
  lemma FieldParts(
    s: Schema, w: World, limit: DepthLimit, f: FieldDef, v: View, v1: View, v2: View, v3: View)
    requires RetainsAll(w, limit, v, Known(s, [f.ty]), {}, v1)
    requires RetainsAll(w, limit, v1, Known(s, ArgTypes(f.args)), {}, v2)
    requires RetainsAll(w, limit, v2, DirectiveTypes(s, f.directives), Defined(s, f.directives), v3)
    ensures RetainsAll(w, limit, v, FieldTypes(s, f), Defined(s, f.directives), v3)
  {
    hide RetainsAll, Known, DirectiveTypes, Defined, ArgTypes;
    RetainsStep(w, limit, v, Known(s, [f.ty]), {}, v1, Known(s, ArgTypes(f.args)), {}, v2,
                Known(s, [f.ty]) + Known(s, ArgTypes(f.args)), {});
    RetainsStep(w, limit, v, Known(s, [f.ty]) + Known(s, ArgTypes(f.args)), {}, v2,
                DirectiveTypes(s, f.directives), Defined(s, f.directives), v3,
                FieldTypes(s, f), Defined(s, f.directives));
  }

  lemma FieldPartsAdd(
    c: Context, limit: DepthLimit, t: Name, f: FieldDef, sub: seq<Selection>, v: View, v1: View, v2: View, v3: View)
    requires c.Ok() && !limit.Reached() && t in c.schema.types && f in FieldsOf(c.schema.types[t].kind)
    requires Adds(c.world, limit.Limited?, v, TypeEffect(c, limit.Decrement(), f.ty, sub), v1)
    requires RetainsAll(c.world, limit.Decrement(), v1, Known(c.schema, ArgTypes(f.args)), {}, v2)
    requires RetainsAll(c.world, limit.Decrement(), v2,
                        DirectiveTypes(c.schema, f.directives), Defined(c.schema, f.directives), v3)
    ensures Adds(c.world, limit.Limited?, v, FieldEffect(c, limit, f, sub), v3)
  {
    hide WorldOf, TypeEffect, RetainsAll, Adds, Known, DirectiveTypes, Defined, ArgTypes, UnionsOfObjects, Weighted;
    var s, down := c.schema, limit.Decrement();
    ArgumentsAreInput(s, t, f);
    DirectivesAreInput(s, f.directives);
    WorldOfOk(s);
    RetainsAdds(c.world, down, v1, Known(s, ArgTypes(f.args)), {}, v2);
    RetainsAdds(c.world, down, v2, DirectiveTypes(s, f.directives), Defined(s, f.directives), v3);
    var e := TypeEffect(c, down, f.ty, sub);
    AddsThen(c.world, limit.Limited?, v, e, v1, ArgumentsEffect(c, limit, f.args), v2);
    AddsThen(c.world, limit.Limited?, v, e.Plus(ArgumentsEffect(c, limit, f.args)), v2,
             DirectivesEffect(c, limit, f.directives), v3);
  }

  /** A type that the schema does not define is skipped. */
  lemma NoSuchType(c: Context, limit: DepthLimit, t: Name, v: View, sub: Option<seq<Selection>>)
    requires c.Ok() && t !in c.schema.types
    ensures RetainsAll(c.world, limit, v, {}, {}, v)
    ensures sub.Some? ==> Adds(c.world, limit.Limited?, v, TypeEffect(c, limit, t, sub.value), v)
  {
    RetainsNothing(c.world, limit, v);
    AddsNothing(c.world, limit.Limited?, v);
  }

  // ---------- A selection, one element at a time ----------

  lemma NoneSelected(c: Context, limit: DepthLimit, fields: seq<FieldDef>)
    requires c.Ok() && !limit.Reached()
    ensures SelectedEffect(c, limit, fields, []) == NOTHING
  {
    hide Context.Ok;
  }

  lemma {:induction false} SelectedDeep(
    c: Context, limit: DepthLimit, fields: seq<FieldDef>, sels: seq<Selection>, i: nat)
    requires c.Ok() && !limit.Reached() && i < |sels| && SelectedDeepEnough(c, limit, fields, sels)
    ensures SelectionDeepEnough(c, limit, fields, sels[i])
    decreases |sels|
  {
    hide Context.Ok, SelectionDeepEnough;
    if i < |sels| - 1 {
      SelectedDeep(c, limit, fields, sels[..|sels| - 1], i);
    }
  }

  lemma SelectionAdds(
    c: Context, limit: DepthLimit, fields: seq<FieldDef>, sel: Selection, v: View, v1: View, v2: View)
    requires c.Ok() && !limit.Reached() && IsNamed(sel)
    requires match Find(fields, sel.name)
             case Some(f) => Adds(c.world, limit.Limited?, v, FieldEffect(c, limit, f, sel.selectionSet), v1)
             case None => v1 == v
    requires RetainsAll(c.world, limit.Decrement(), v1,
                        DirectiveTypes(c.schema, sel.directives), Defined(c.schema, sel.directives), v2)
    ensures Adds(c.world, limit.Limited?, v, SelectionEffect(c, limit, fields, sel), v2)
  {
    hide WorldOf, FieldEffect, RetainsAll, Adds, DirectiveTypes, Defined, UnionsOfObjects, Weighted;
    DirectivesAreInput(c.schema, sel.directives);
    WorldOfOk(c.schema);
    RetainsAdds(c.world, limit.Decrement(), v1,
                DirectiveTypes(c.schema, sel.directives), Defined(c.schema, sel.directives), v2);
    if Find(fields, sel.name).Some? {
      AddsThen(c.world, limit.Limited?, v, FieldEffect(c, limit, Find(fields, sel.name).value, sel.selectionSet), v1,
               DirectivesEffect(c, limit, sel.directives), v2);
    }
  }

  lemma NextSelected(
    c: Context, limit: DepthLimit, fields: seq<FieldDef>, sels: seq<Selection>, i: nat, v: View, v1: View, v2: View)
    requires c.Ok() && !limit.Reached() && i < |sels|
    requires Adds(c.world, limit.Limited?, v, SelectedEffect(c, limit, fields, sels[..i]), v1)
    requires if IsNamed(sels[i]) then Adds(c.world, limit.Limited?, v1, SelectionEffect(c, limit, fields, sels[i]), v2)
             else v2 == v1
    ensures Adds(c.world, limit.Limited?, v, SelectedEffect(c, limit, fields, sels[..i + 1]), v2)
  {
    hide Context.Ok, Adds, FieldEffect, DirectivesEffect;
    assert sels[..i + 1][..i] == sels[..i] && sels[..i + 1][i] == sels[i];
    AddsNothing(c.world, limit.Limited?, v1);
    AddsThen(c.world, limit.Limited?, v, SelectedEffect(c, limit, fields, sels[..i]), v1,
             SelectionEffect(c, limit, fields, sels[i]), v2);
  }

  lemma NoMembers(c: Context, limit: DepthLimit, t: Name, sub: Option<seq<Selection>>)
    requires c.Ok() && !limit.Reached() && IsUnion(c.schema, t) == 1
    ensures sub.Some? ==> MembersEffect(c, limit, t, [], sub.value) == NOTHING
  {
    hide Context.Ok;
  }

  lemma {:induction false} MembersDeep(
    c: Context, limit: DepthLimit, t: Name, members: seq<Name>, sels: seq<Selection>, i: nat)
    requires c.Ok() && !limit.Reached() && IsUnion(c.schema, t) == 1 && i < |members|
    requires forall m :: m in members ==> m in c.schema.types[t].kind.members
    requires MembersDeepEnough(c, limit, t, members, sels)
    ensures var kept := ForMember(c.fragments, sels, members[i]);
            kept == [] || DeepEnough(c, limit.Decrement(), members[i], kept)
    decreases |members|
  {
    hide Context.Ok, DeepEnough, ForMember;
    if i < |members| - 1 {
      MembersDeep(c, limit, t, members[..|members| - 1], sels, i);
    }
  }

  lemma NextMemberAdds(
    c: Context, limit: DepthLimit, t: Name, members: seq<Name>, sels: seq<Selection>, i: nat, v: View, v1: View,
    v2: View)
    requires c.Ok() && !limit.Reached() && IsUnion(c.schema, t) == 1 && i < |members|
    requires forall m :: m in members ==> m in c.schema.types[t].kind.members
    requires Adds(c.world, limit.Limited?, v, MembersEffect(c, limit, t, members[..i], sels), v1)
    requires var kept := ForMember(c.fragments, sels, members[i]);
             if members[i] in c.schema.types && kept != []
             then Adds(c.world, limit.Limited?, v1, TypeEffect(c, limit.Decrement(), members[i], kept), v2)
             else v2 == v1
    ensures Adds(c.world, limit.Limited?, v, MembersEffect(c, limit, t, members[..i + 1], sels), v2)
  {
    hide Context.Ok, Adds, OwnEffect, FragmentsEffect, ForMember;
    assert members[..i + 1][..i] == members[..i] && members[..i + 1][i] == members[i];
    AddsNothing(c.world, limit.Limited?, v1);
    var kept := ForMember(c.fragments, sels, members[i]);
    AddsThen(c.world, limit.Limited?, v, MembersEffect(c, limit, t, members[..i], sels), v1,
             if kept == [] then NOTHING else TypeEffect(c, limit.Decrement(), members[i], kept), v2);
  }

  lemma NoFragments(c: Context, limit: DepthLimit)
    requires c.Ok()
    ensures FragmentsEffect(c, limit, []) == NOTHING
  {
    hide Context.Ok;
  }

  lemma {:induction false} FragmentsDeep(c: Context, limit: DepthLimit, sels: seq<Selection>, i: nat)
    requires c.Ok() && i < |sels| && FragmentsDeepEnough(c, limit, sels)
    ensures FragmentDeepEnough(c, limit, sels[i])
    decreases |sels|
  {
    hide Context.Ok, FragmentDeepEnough;
    if i < |sels| - 1 {
      FragmentsDeep(c, limit, sels[..|sels| - 1], i);
    }
  }

  lemma FragmentAdds(c: Context, limit: DepthLimit, sel: Selection, v: View, v': View)
    requires c.Ok() && FragmentDeepEnough(c, limit, sel)
    requires match sel
             case FragmentSpread(g) =>
               if g in c.fragments && c.fragments[g].typeCondition in c.schema.types
               then Adds(c.world, limit.Limited?, v,
                         TypeEffect(c, limit, c.fragments[g].typeCondition, c.fragments[g].selectionSet), v')
               else v' == v
             case InlineFragment(condition, sub) =>
               if condition.Some? && condition.value in c.schema.types
               then Adds(c.world, limit.Limited?, v, TypeEffect(c, limit, condition.value, sub), v')
               else v' == v
             case Field(_, _, sub) =>
               if sub != []
               then Adds(c.world, limit.Limited?, v, FragmentsEffect(c, limit.Decrement(), sub), v')
               else v' == v
    ensures Adds(c.world, limit.Limited?, v, FragmentEffect(c, limit, sel), v')
  {
    hide Context.Ok, Adds, OwnEffect, FragmentsEffect, DeepEnough;
    AddsNothing(c.world, limit.Limited?, v);
  }

  lemma NextFragment(c: Context, limit: DepthLimit, sels: seq<Selection>, i: nat, v: View, v1: View, v2: View)
    requires c.Ok() && i < |sels|
    requires Adds(c.world, limit.Limited?, v, FragmentsEffect(c, limit, sels[..i]), v1)
    requires Adds(c.world, limit.Limited?, v1, FragmentEffect(c, limit, sels[i]), v2)
    ensures Adds(c.world, limit.Limited?, v, FragmentsEffect(c, limit, sels[..i + 1]), v2)
  {
    hide Context.Ok, Adds, FragmentEffect;
    assert sels[..i + 1][..i] == sels[..i] && sels[..i + 1][i] == sels[i];
    AddsThen(c.world, limit.Limited?, v, FragmentsEffect(c, limit, sels[..i]), v1, FragmentEffect(c, limit, sels[i]),
             v2);
  }

  // ---------- One type ----------

  lemma DeepFragments(c: Context, limit: DepthLimit, t: Name, sels: seq<Selection>)
    requires c.Ok() && !limit.Reached() && t in c.schema.types && DeepEnough(c, limit, t, sels)
    ensures FragmentsDeepEnough(c, limit, sels)
  {
    hide Context.Ok, FragmentsDeepEnough;
  }

  lemma DeepParts(c: Context, limit: DepthLimit, t: Name, sels: seq<Selection>)
    requires c.Ok() && !limit.Reached() && t in c.schema.types && DeepEnough(c, limit, t, sels)
    ensures IsUnion(c.schema, t) == 1 ==> MembersDeepEnough(c, limit, t, c.schema.types[t].kind.members, sels)
    ensures SelectedDeepEnough(c, limit, FieldsOf(c.schema.types[t].kind), sels)
  {
    hide Context.Ok, FragmentsDeepEnough, MembersDeepEnough, SelectedDeepEnough;
  }

  lemma KindParts(s: Schema, t: Name)
    requires t in s.types
    ensures Uses(s, t) == DirectiveTypes(s, s.types[t].directives) + KindUses(s, s.types[t].kind)
    ensures Applied(s, t) == Defined(s, s.types[t].directives) + KindApplied(s, s.types[t].kind)
    ensures match s.types[t].kind
            case Object(fields, _) =>
              KindUses(s, s.types[t].kind) == FieldsTypes(s, fields) &&
              KindApplied(s, s.types[t].kind) == FieldsDirectives(s, fields)
            case Interface(fields, _) =>
              KindUses(s, s.types[t].kind) == FieldsTypes(s, fields) &&
              KindApplied(s, s.types[t].kind) == FieldsDirectives(s, fields)
            case Union(members) =>
              KindUses(s, s.types[t].kind) == Known(s, members) && KindApplied(s, s.types[t].kind) == {}
            case Enum(values) =>
              KindUses(s, s.types[t].kind) == ValuesTypes(s, values) &&
              KindApplied(s, s.types[t].kind) == ValuesDirectives(s, values)
            case Scalar => KindUses(s, s.types[t].kind) == {} && KindApplied(s, s.types[t].kind) == {}
            case InputObject(inputs) =>
              KindUses(s, s.types[t].kind) == InputsTypes(s, inputs) &&
              KindApplied(s, s.types[t].kind) == InputsDirectives(s, inputs)
  {
    hide DirectiveTypes, Defined, FieldsTypes, FieldsDirectives, Known, ValuesTypes, ValuesDirectives, InputsTypes;
    hide InputsDirectives;
  }

  lemma CompositeAdds(c: Context, limit: DepthLimit, t: Name, sels: seq<Selection>, v: View, v1: View, v2: View)
    requires c.Ok() && !limit.Reached() && t in c.schema.types
    requires RetainsAll(c.world, limit.Decrement(), v, DirectiveTypes(c.schema, c.schema.types[t].directives),
                        Defined(c.schema, c.schema.types[t].directives), v1)
    requires var kind := c.schema.types[t].kind;
             Adds(c.world, limit.Limited?, v1,
                  if kind.Union? then MembersEffect(c, limit, t, kind.members, sels)
                  else SelectedEffect(c, limit, FieldsOf(kind), sels), v2)
    ensures Adds(c.world, limit.Limited?, v, CompositeEffect(c, limit, t, sels), v2)
  {
    hide WorldOf, RetainsAll, Adds, DirectiveTypes, Defined, UnionsOfObjects, Weighted, MembersEffect, SelectedEffect;
    var def := c.schema.types[t];
    DirectivesAreInput(c.schema, def.directives);
    WorldOfOk(c.schema);
    RetainsAdds(c.world, limit.Decrement(), v, DirectiveTypes(c.schema, def.directives),
                Defined(c.schema, def.directives), v1);
    AddsThen(c.world, limit.Limited?, v, DirectivesEffect(c, limit, def.directives), v1,
             if def.kind.Union? then MembersEffect(c, limit, t, def.kind.members, sels)
             else SelectedEffect(c, limit, FieldsOf(def.kind), sels), v2);
  }

  lemma ReachedAdds(c: Context, limit: DepthLimit, t: Name, v: View, sub: Option<seq<Selection>>)
    requires c.Ok() && limit.Reached()
    ensures RetainsAll(c.world, limit, v, {t}, {}, v)
    ensures sub.Some? ==> Adds(c.world, limit.Limited?, v, TypeEffect(c, limit, t, sub.value), v)
  {
    hide Context.Ok, RetainsAll, Adds;
    RetainsReached(c.world, limit, v, {t});
    AddsNothing(c.world, limit.Limited?, v);
  }

  lemma IsRetained(nodes: TypeNodes, ds: map<Name, bool>, t: Name)
    requires t in nodes
    ensures nodes[t].retain <==> t in ViewOf(nodes, ds).types
  {
  }

  lemma MarkKeys(nodes: TypeNodes, t: Name, selectionSet: Option<seq<Selection>>)
    requires t in nodes
    ensures Mark(nodes, t, selectionSet).Keys == nodes.Keys
  {
  }

  lemma NodeRetained(c: Context, limit: DepthLimit, t: Name, v: View, v': View)
    requires c.Ok() && t in c.schema.types && !limit.Reached() && (limit.Unlimited? ==> t !in v.types)
    requires RetainsAll(c.world, limit.Decrement(), v.(types := v.types + {t}),
                        Uses(c.schema, t), Applied(c.schema, t), v')
    ensures RetainsAll(c.world, limit, v, {t}, {}, v')
  {
    hide RetainsAll, UnionsOfObjects, Weighted, Uses, Applied;
    WorldOfOk(c.schema);
    RetainsOne(c.world, limit, v, t, v');
  }

  lemma TypeAdds(
    c: Context, limit: DepthLimit, t: Name, sels: seq<Selection>, v: View, v1: View, marked: View, v2: View)
    requires c.Ok() && t in c.schema.types && !limit.Reached()
    requires Adds(c.world, limit.Limited?, v, FragmentsEffect(c, limit, sels), v1)
    requires marked == v1.Plus(Marked(t, Names(sels)))
    requires if IsInput(c.schema, t)
             then RetainsAll(c.world, limit.Decrement(), marked, Uses(c.schema, t), Applied(c.schema, t), v2)
             else Adds(c.world, limit.Limited?, marked, CompositeEffect(c, limit, t, sels), v2)
    ensures Adds(c.world, limit.Limited?, v, TypeEffect(c, limit, t, sels), v2)
  {
    hide RetainsAll, Adds, UnionsOfObjects, Weighted, Uses, Applied, FragmentsEffect, CompositeEffect, InputEffect;
    hide Names;
    WorldOfOk(c.schema);
    if IsInput(c.schema, t) {
      MarkInputAdds(c.world, limit, v1, t, Names(sels), v2);
    } else {
      MarkAdds(c.world, limit.Limited?, v1, t, Names(sels));
      AddsThen(c.world, limit.Limited?, v1, Marked(t, Names(sels)), marked, CompositeEffect(c, limit, t, sels), v2);
    }
    AddsThen(c.world, limit.Limited?, v, FragmentsEffect(c, limit, sels), v1, OwnEffect(c, limit, t, sels), v2);
  }

  /** The type itself is retained, unless the limit was reached. */
  lemma IsNowRetained(c: Context, limit: DepthLimit, t: Name, selectionSet: Option<seq<Selection>>, v: View, v': View)
    requires c.Ok() && t in c.schema.types && !limit.Reached()
    requires match selectionSet
             case None => RetainsAll(c.world, limit, v, {t}, {}, v')
             case Some(sels) => Adds(c.world, limit.Limited?, v, TypeEffect(c, limit, t, sels), v')
    ensures t in v'.types
  {
    hide UnionsOfObjects, Weighted, Uses, Applied, IsInput, InputsTyped, World.AppliedTo, Settled, Names, Cover;
    hide FragmentsEffect, CompositeEffect, Next;
    match selectionSet
    case None =>
      assert t in c.world.uses;
      if limit.Limited? || t !in v.types {
        ExpandsOne(c.world.uses, limit, v.types, t);
      }
    case Some(sels) =>
      assert t in TypeEffect(c, limit, t, sels).narrowed;
  }

  /** A retention without a limit leaves a settled state settled. */
  lemma StaysSettled(c: Context, t: Name, selectionSet: Option<seq<Selection>>, v: View, v': View)
    requires c.Ok() && Settled(c.world, v)
    requires match selectionSet
             case None => RetainsAll(c.world, Unlimited, v, {t}, {}, v')
             case Some(sels) => Adds(c.world, false, v, TypeEffect(c, Unlimited, t, sels), v')
    ensures Settled(c.world, v')
  {
    hide Context.Ok, RetainsAll, Adds, Settled, TypeEffect;
    match selectionSet
    case None => RetainsSettles(c.world, v, {t}, {}, v');
    case Some(sels) => AddsSettles(c.world, v, TypeEffect(c, Unlimited, t, sels), v');
  }

  /** What is left before a retention without a selection must stop: without a limit the types not yet retained. */
  ghost function LeftOf(all: set<Name>, retained: set<Name>, limit: DepthLimit, more: nat): nat {
    match limit
    case Unlimited => |all - retained| + more
    case Limited(d) => d
  }

  lemma LeftDrops(all: set<Name>, before: set<Name>, after: set<Name>, limit: DepthLimit, more: nat)
    requires before <= after
    ensures LeftOf(all, after, limit, more) <= LeftOf(all, before, limit, more)
    ensures !limit.Reached() ==> LeftOf(all, after, limit.Decrement(), 0) < LeftOf(all, before, limit, 1)
  {
    NotLarger(all - after, all - before);
  }

  lemma LeftAfterMark(all: set<Name>, before: set<Name>, t: Name, limit: DepthLimit)
    requires t in all && (limit.Unlimited? ==> t !in before)
    ensures LeftOf(all, before + {t}, limit, 1) <= LeftOf(all, before, limit, 0)
  {
    if limit.Unlimited? {
      Smaller(all - (before + {t}), all - before);
    }
  }

  /** The root type of an operation type, or a default name that the schema may not define. */
  function RootName(s: Schema, op: OperationType): Name {
    if op in s.roots then s.roots[op] else
    match op
    case Query => "query"
    case Mutation => "mutation"
    case Subscription => "subscription"
  }

  class SchemaTreeShaker {
    const schema: Schema
    var namedTypeNodes: TypeNodes
    var directiveNodes: map<Name, bool>
    var operationTypes: seq<OperationType>
    var namedFragments: map<Name, Fragment>
    ghost const world: World
    ghost var weight: map<Name, nat>

    ghost function Ctx(): Context
      reads this
    {
      Context(schema, world, namedFragments, weight)
    }

    ghost predicate Valid()
      reads this
    {
      && Ctx().Ok()
      && namedTypeNodes.Keys == schema.types.Keys
      && directiveNodes.Keys == schema.directives.Keys
    }

    ghost function Now(): View
      reads this
    {
      ViewOf(namedTypeNodes, directiveNodes)
    }

    ghost function Left(limit: DepthLimit, more: nat): nat
      reads this
    {
      LeftOf(schema.types.Keys, Now().types, limit, more)
    }

    constructor (schema: Schema)
      requires UnionsOfObjects(schema)
      ensures Valid() && this.schema == schema && world == WorldOf(schema)
      ensures Now() == NOTHING && operationTypes == [] && namedFragments == map[]
    {
      hide WorldOf;
      this.schema := schema;
      namedTypeNodes := map t | t in schema.types :: TreeTypeNode(false, None);
      directiveNodes := map d | d in schema.directives :: false;
      operationTypes := [];
      namedFragments := map[];
      world := WorldOf(schema);
      weight := map[];
    }

    method RetainDirective(name: Name, limit: DepthLimit)
      requires Valid() && !limit.Reached()
      modifies this`namedTypeNodes, this`directiveNodes
      ensures Valid()
      ensures RetainsAll(world, limit.Decrement(), old(Now()),
                         DirectiveTypes(schema, [name]), Defined(schema, [name]), Now())
      decreases 0, 0, Left(limit, 1), 1
    {
      hide LeftOf, WorldOf, ViewOf, UnionsOfObjects, Weighted, RetainsAll, DirectiveTypes, Defined, Known, ArgTypes;
      OneDirective(schema, name);
      ghost var start := Now();
      if name in directiveNodes {
        MarkDirectiveView(namedTypeNodes, directiveNodes, name);
        RetainsNone(world, limit.Decrement(), start, {name});
        directiveNodes := directiveNodes[name := true];
        ghost var marked := Now();
        LeftDrops(schema.types.Keys, start.types, marked.types, limit, 1);
        RetainArguments(schema.directives[name].args, limit);
        RetainsStep(world, limit.Decrement(), start, {}, {name}, marked, DirectiveTypes(schema, [name]), {}, Now(),
                    DirectiveTypes(schema, [name]), Defined(schema, [name]));
      } else {
        RetainsNothing(world, limit.Decrement(), start);
      }
    }

    method RetainArguments(args: seq<InputValue>, limit: DepthLimit)
      requires Valid() && !limit.Reached()
      modifies this`namedTypeNodes, this`directiveNodes
      ensures Valid()
      ensures RetainsAll(world, limit.Decrement(), old(Now()), Known(schema, ArgTypes(args)), {}, Now())
      decreases 0, 0, Left(limit, 1), 0
    {
      hide LeftOf, WorldOf, ViewOf, UnionsOfObjects, Weighted, RetainsAll, DirectiveTypes, Defined, Known, ArgTypes;
      ghost var start := Now();
      ghost var down := limit.Decrement();
      UsesOfNothing(schema);
      RetainsNothing(world, down, start);
      var i := 0;
      while i < |args|
        invariant 0 <= i <= |args| && Valid()
        invariant RetainsAll(world, down, start, Known(schema, ArgTypes(args[..i])), {}, Now())
      {
        ghost var before := Now();
        RetainsGrows(world, down, start, Known(schema, ArgTypes(args[..i])), {}, before);
        LeftDrops(schema.types.Keys, start.types, Now().types, limit, 1);
        if args[i].ty in schema.types {
          RetainType(args[i].ty, None, limit.Decrement());
        }
        NextArgument(schema, world, down, start, args, i, before, Now());
        i := i + 1;
      }
      assert args[..i] == args;
    }

    method RetainDirectives(ds: seq<Name>, limit: DepthLimit)
      requires Valid() && !limit.Reached()
      modifies this`namedTypeNodes, this`directiveNodes
      ensures Valid()
      ensures RetainsAll(world, limit.Decrement(), old(Now()), DirectiveTypes(schema, ds), Defined(schema, ds), Now())
      decreases 0, 0, Left(limit, 1), 2
    {
      hide LeftOf, WorldOf, ViewOf, UnionsOfObjects, Weighted, RetainsAll, Adds, DirectiveTypes, Defined, Known;
      hide ArgTypes;
      ghost var start := Now();
      ghost var down := limit.Decrement();
      UsesOfNothing(schema);
      RetainsNothing(world, down, start);
      var i := 0;
      while i < |ds|
        invariant 0 <= i <= |ds| && Valid()
        invariant RetainsAll(world, down, start, DirectiveTypes(schema, ds[..i]), Defined(schema, ds[..i]), Now())
      {
        ghost var before := Now();
        RetainsGrows(world, down, start, DirectiveTypes(schema, ds[..i]), Defined(schema, ds[..i]), before);
        LeftDrops(schema.types.Keys, start.types, Now().types, limit, 1);
        RetainDirective(ds[i], limit);
        NextDirective(schema, world, down, start, ds, i, before, Now());
        i := i + 1;
      }
      assert ds[..i] == ds;
    }

    /** One field: its type, the types of its arguments, and the directives applied to it. */
    method RetainField(ghost t: Name, f: FieldDef, sub: Option<seq<Selection>>, limit: DepthLimit)
      requires Valid() && !limit.Reached() && t in schema.types && f in FieldsOf(schema.types[t].kind)
      requires sub.Some? ==> DeepEnough(Ctx(), limit.Decrement(), f.ty, sub.value)
      modifies this`namedTypeNodes, this`directiveNodes
      ensures Valid()
      ensures sub.None? ==>
                RetainsAll(world, limit.Decrement(), old(Now()),
                           FieldTypes(schema, f), Defined(schema, f.directives), Now())
      ensures sub.Some? ==> Adds(world, limit.Limited?, old(Now()), FieldEffect(Ctx(), limit, f, sub.value), Now())
      decreases
        if sub.Some? then 1 + Size(sub.value, weight) else 0,
        if sub.Some? then 2 else 0,
        if sub.Some? then 0 else Left(limit, 1),
        3
    {
      hide LeftOf, WorldOf, ViewOf, UnionsOfObjects, Weighted, RetainsAll, Adds, DirectiveTypes, Defined, Known;
      hide ArgTypes, Size, DeepEnough, TypeEffect, FieldEffect, FieldTypes;
      ghost var c, start, down := Ctx(), Now(), limit.Decrement();
      KnownOne(schema, f.ty);
      LeftDrops(schema.types.Keys, start.types, start.types, limit, 1);
      if f.ty in schema.types {
        RetainType(f.ty, sub, limit.Decrement());
      } else {
        NoSuchType(c, down, f.ty, start, sub);
      }
      ghost var v1 := Now();
      if sub.None? {
        RetainsGrows(world, down, start, Known(schema, [f.ty]), {}, v1);
      } else {
        AddsGrows(world, limit.Limited?, start, TypeEffect(c, down, f.ty, sub.value), v1);
      }
      LeftDrops(schema.types.Keys, start.types, Now().types, limit, 1);
      RetainArguments(f.args, limit);
      ghost var v2 := Now();
      RetainsGrows(world, down, v1, Known(schema, ArgTypes(f.args)), {}, v2);
      LeftDrops(schema.types.Keys, start.types, Now().types, limit, 1);
      RetainDirectives(f.directives, limit);
      if sub.None? {
        FieldParts(schema, world, down, f, start, v1, v2, Now());
      } else {
        FieldPartsAdd(c, limit, t, f, sub.value, start, v1, v2, Now());
      }
    }

    method RetainValues(values: seq<EnumValue>, limit: DepthLimit)
      requires Valid() && !limit.Reached()
      modifies this`namedTypeNodes, this`directiveNodes
      ensures Valid()
      ensures RetainsAll(world, limit.Decrement(), old(Now()),
                         ValuesTypes(schema, values), ValuesDirectives(schema, values), Now())
      decreases 0, 0, Left(limit, 1), 4
    {
      hide LeftOf, WorldOf, ViewOf, UnionsOfObjects, Weighted, RetainsAll, Adds, DirectiveTypes, Defined, Known;
      hide ArgTypes, ValuesTypes, ValuesDirectives;
      ghost var start, down := Now(), limit.Decrement();
      UsesOfNothing(schema);
      RetainsNothing(world, down, start);
      var i := 0;
      while i < |values|
        invariant 0 <= i <= |values| && Valid()
        invariant RetainsAll(world, down, start,
                             ValuesTypes(schema, values[..i]), ValuesDirectives(schema, values[..i]), Now())
      {
        ghost var before := Now();
        RetainsGrows(world, down, start, ValuesTypes(schema, values[..i]), ValuesDirectives(schema, values[..i]),
                     before);
        LeftDrops(schema.types.Keys, start.types, before.types, limit, 1);
        RetainDirectives(values[i].directives, limit);
        NextValue(schema, world, down, start, values, i, before, Now());
        i := i + 1;
      }
      assert values[..i] == values;
    }

    method RetainInputs(inputs: seq<InputValue>, limit: DepthLimit)
      requires Valid() && !limit.Reached()
      modifies this`namedTypeNodes, this`directiveNodes
      ensures Valid()
      ensures RetainsAll(world, limit.Decrement(), old(Now()),
                         InputsTypes(schema, inputs), InputsDirectives(schema, inputs), Now())
      decreases 0, 0, Left(limit, 1), 4
    {
      hide LeftOf, WorldOf, ViewOf, UnionsOfObjects, Weighted, RetainsAll, Adds, DirectiveTypes, Defined, Known;
      hide ArgTypes, InputsTypes, InputsDirectives;
      ghost var start, down := Now(), limit.Decrement();
      UsesOfNothing(schema);
      RetainsNothing(world, down, start);
      var i := 0;
      while i < |inputs|
        invariant 0 <= i <= |inputs| && Valid()
        invariant RetainsAll(world, down, start,
                             InputsTypes(schema, inputs[..i]), InputsDirectives(schema, inputs[..i]), Now())
      {
        ghost var before := Now();
        RetainsGrows(world, down, start, InputsTypes(schema, inputs[..i]), InputsDirectives(schema, inputs[..i]),
                     before);
        LeftDrops(schema.types.Keys, start.types, before.types, limit, 1);
        KnownOne(schema, inputs[i].ty);
        RetainsNothing(world, down, before);
        if inputs[i].ty in schema.types {
          RetainType(inputs[i].ty, None, limit.Decrement());
        }
        ghost var typed := Now();
        RetainsGrows(world, down, before, Known(schema, [inputs[i].ty]), {}, typed);
        LeftDrops(schema.types.Keys, start.types, typed.types, limit, 1);
        RetainDirectives(inputs[i].directives, limit);
        NextInput(schema, world, down, start, inputs, i, before, typed, Now());
        i := i + 1;
      }
      assert inputs[..i] == inputs;
    }

    /** Every field of an object or interface type. */
    method RetainFields(ghost t: Name, fields: seq<FieldDef>, limit: DepthLimit)
      requires Valid() && !limit.Reached() && t in schema.types && fields == FieldsOf(schema.types[t].kind)
      modifies this`namedTypeNodes, this`directiveNodes
      ensures Valid()
      ensures RetainsAll(world, limit.Decrement(), old(Now()),
                         FieldsTypes(schema, fields), FieldsDirectives(schema, fields), Now())
      decreases 0, 0, Left(limit, 1), 4
    {
      hide LeftOf, WorldOf, ViewOf, UnionsOfObjects, Weighted, RetainsAll, Adds, DirectiveTypes, Defined, Known;
      hide ArgTypes, FieldsTypes, FieldsDirectives, FieldTypes, Size;
      ghost var start, down := Now(), limit.Decrement();
      UsesOfNothing(schema);
      RetainsNothing(world, down, start);
      var i := 0;
      while i < |fields|
        invariant 0 <= i <= |fields| && Valid()
        invariant RetainsAll(world, down, start,
                             FieldsTypes(schema, fields[..i]), FieldsDirectives(schema, fields[..i]), Now())
      {
        ghost var before := Now();
        RetainsGrows(world, down, start, FieldsTypes(schema, fields[..i]), FieldsDirectives(schema, fields[..i]),
                     before);
        LeftDrops(schema.types.Keys, start.types, before.types, limit, 1);
        RetainField(t, fields[i], None, limit);
        NextField(schema, world, down, start, fields, i, before, Now());
        i := i + 1;
      }
      assert fields[..i] == fields;
    }

    /** The selected fields of an object or interface type. A field that the type does not have is skipped. */
    method RetainSelected(ghost t: Name, fields: seq<FieldDef>, sels: seq<Selection>, limit: DepthLimit)
      requires Valid() && !limit.Reached() && t in schema.types && fields == FieldsOf(schema.types[t].kind)
      requires SelectedDeepEnough(Ctx(), limit, fields, sels)
      modifies this`namedTypeNodes, this`directiveNodes
      ensures Valid()
      ensures Adds(world, limit.Limited?, old(Now()), SelectedEffect(Ctx(), limit, fields, sels), Now())
      decreases 1 + Size(sels, weight), 0, 0, 6
    {
      hide LeftOf, WorldOf, ViewOf, UnionsOfObjects, Weighted, RetainsAll, Adds, DirectiveTypes, Defined, Known;
      hide ArgTypes, Size, SizeOne, SelectedEffect, FieldEffect, DeepEnough, SelectedDeepEnough, Find, Context.Ok;
      ghost var c, start, limited := Ctx(), Now(), limit.Limited?;
      NoneSelected(c, limit, fields);
      AddsNothing(world, limited, start);
      var i := 0;
      while i < |sels|
        invariant 0 <= i <= |sels| && Valid()
        invariant Adds(world, limited, start, SelectedEffect(c, limit, fields, sels[..i]), Now())
      {
        ghost var before := Now();
        SelectedDeep(c, limit, fields, sels, i);
        SizeMember(sels, i, weight);
        SizeOfSub(sels[i], weight);
        AddsNothing(world, limited, before);
        if sels[i].Field? && sels[i].name != "__typename" {
          var found := Find(fields, sels[i].name);
          if found.Some? {
            FindMember(fields, sels[i].name);
            RetainField(t, found.value, Some(sels[i].selectionSet), limit);
          }
          ghost var fielded := Now();
          RetainDirectives(sels[i].directives, limit);
          SelectionAdds(c, limit, fields, sels[i], before, fielded, Now());
        }
        NextSelected(c, limit, fields, sels, i, start, before, Now());
        i := i + 1;
      }
      assert sels[..i] == sels;
    }

    method RetainMembers(t: Name, members: seq<Name>, selectionSet: Option<seq<Selection>>, limit: DepthLimit)
      requires Valid() && !limit.Reached() && IsUnion(schema, t) == 1 && members == schema.types[t].kind.members
      requires selectionSet.Some? ==> MembersDeepEnough(Ctx(), limit, t, members, selectionSet.value)
      modifies this`namedTypeNodes, this`directiveNodes
      ensures Valid()
      ensures selectionSet.None? ==> RetainsAll(world, limit.Decrement(), old(Now()), Known(schema, members), {}, Now())
      ensures selectionSet.Some? ==>
                Adds(world, limit.Limited?, old(Now()),
                     MembersEffect(Ctx(), limit, t, members, selectionSet.value), Now())
      decreases
        if selectionSet.Some? then 1 + Size(selectionSet.value, weight) else 0,
        if selectionSet.Some? then 1 else 0,
        if selectionSet.Some? then 0 else Left(limit, 1),
        4
    {
      hide LeftOf, WorldOf, ViewOf, UnionsOfObjects, Weighted, RetainsAll, Adds, DirectiveTypes, Defined, Known;
      hide ArgTypes, Size, TypeEffect, MembersEffect, DeepEnough, MembersDeepEnough, Context.Ok;
      ghost var c, start, down := Ctx(), Now(), limit.Decrement();
      UsesOfNothing(schema);
      RetainsNothing(world, down, start);
      NoMembers(c, limit, t, selectionSet);
      AddsNothing(world, limit.Limited?, start);
      var i := 0;
      while i < |members|
        invariant 0 <= i <= |members| && Valid()
        invariant selectionSet.None? ==> RetainsAll(world, down, start, Known(schema, members[..i]), {}, Now())
        invariant selectionSet.Some? ==>
                    Adds(world, limit.Limited?, start,
                         MembersEffect(c, limit, t, members[..i], selectionSet.value), Now())
      {
        ghost var before := Now();
        if selectionSet.None? {
          RetainsGrows(world, down, start, Known(schema, members[..i]), {}, before);
        }
        LeftDrops(schema.types.Keys, start.types, if selectionSet.None? then before.types else start.types, limit, 1);
        MemberIsObject(c, t, members[i]);
        if members[i] in schema.types {
          var kept := if selectionSet.Some? then ForMember(namedFragments, selectionSet.value, members[i]) else [];
          if selectionSet.None? {
            RetainType(members[i], None, limit.Decrement());
          } else if kept != [] {
            ForMemberSize(namedFragments, selectionSet.value, members[i], weight);
            MembersDeep(c, limit, t, members, selectionSet.value, i);
            RetainType(members[i], Some(kept), limit.Decrement());
          }
        }
        if selectionSet.None? {
          NextMember(schema, world, down, start, members, i, before, Now());
        } else {
          NextMemberAdds(c, limit, t, members, selectionSet.value, i, start, before, Now());
        }
        i := i + 1;
      }
      assert members[..i] == members;
    }

    /** Fragments are retained on their own type condition, however deep in the selection they are spread. */
    method RetainFragments(sels: seq<Selection>, limit: DepthLimit)
      requires Valid() && FragmentsDeepEnough(Ctx(), limit, sels)
      modifies this`namedTypeNodes, this`directiveNodes
      ensures Valid()
      ensures Adds(world, limit.Limited?, old(Now()), FragmentsEffect(Ctx(), limit, sels), Now())
      decreases 1 + Size(sels, weight), 0, 0, 5
    {
      hide LeftOf, WorldOf, ViewOf, UnionsOfObjects, Weighted, RetainsAll, Adds, DirectiveTypes, Defined, Known;
      hide ArgTypes, Size, SizeOne, TypeEffect, FragmentsEffect, DeepEnough, FragmentsDeepEnough, Context.Ok;
      ghost var c, start, limited := Ctx(), Now(), limit.Limited?;
      NoFragments(c, limit);
      AddsNothing(world, limited, start);
      var i := 0;
      while i < |sels|
        invariant 0 <= i <= |sels| && Valid()
        invariant Adds(world, limited, start, FragmentsEffect(c, limit, sels[..i]), Now())
      {
        ghost var before := Now();
        FragmentsDeep(c, limit, sels, i);
        SizeMember(sels, i, weight);
        SizeOfSub(sels[i], weight);
        AddsNothing(world, limited, before);
        match sels[i] {
          case FragmentSpread(g) =>
            if g in namedFragments && namedFragments[g].typeCondition in schema.types {
              SizeOfFragment(c, g);
              RetainType(namedFragments[g].typeCondition, Some(namedFragments[g].selectionSet), limit);
            }
          case InlineFragment(condition, sub) =>
            if condition.Some? && condition.value in schema.types {
              RetainType(condition.value, Some(sub), limit);
            }
          case Field(_, _, sub) =>
            // Fragments nested in the field's own selections.
            if sub != [] {
              RetainFragments(sub, limit.Decrement());
            }
        }
        FragmentAdds(c, limit, sels[i], before, Now());
        NextFragment(c, limit, sels, i, start, before, Now());
        i := i + 1;
      }
      assert sels[..i] == sels;
    }

    /** The directives applied to a type that is marked already, and what its kind uses or, with a selection, what of
        its fields and members is selected. */
    method RetainParts(t: Name, selectionSet: Option<seq<Selection>>, limit: DepthLimit)
      requires Valid() && !limit.Reached() && t in schema.types
      requires selectionSet.Some? ==> DeepEnough(Ctx(), limit, t, selectionSet.value)
      modifies this`namedTypeNodes, this`directiveNodes
      ensures Valid()
      ensures selectionSet.None? || IsInput(schema, t) ==>
                RetainsAll(world, limit.Decrement(), old(Now()), Uses(schema, t), Applied(schema, t), Now())
      ensures selectionSet.Some? && !IsInput(schema, t) ==>
                Adds(world, limit.Limited?, old(Now()), CompositeEffect(Ctx(), limit, t, selectionSet.value), Now())
      decreases
        if selectionSet.Some? then 1 + Size(selectionSet.value, weight) else 0,
        if selectionSet.Some? then IsUnion(schema, t) else 0,
        if selectionSet.Some? then 0 else Left(limit, 1),
        8
    {
      hide LeftOf, WorldOf, ViewOf, UnionsOfObjects, Weighted, RetainsAll, Adds, DirectiveTypes, Defined, Known;
      hide ArgTypes;
      hide Size, DeepEnough, SelectedEffect, MembersEffect, KindUses, KindApplied, Uses, Applied, Context.Ok;
      hide CompositeEffect;
      ghost var c, start, down := Ctx(), Now(), limit.Decrement();
      var def := schema.types[t];
      LeftDrops(schema.types.Keys, start.types, start.types, limit, 1);
      RetainDirectives(def.directives, limit);
      ghost var v1 := Now();
      RetainsGrows(world, down, start, DirectiveTypes(schema, def.directives), Defined(schema, def.directives), v1);
      LeftDrops(schema.types.Keys, start.types, v1.types, limit, 1);
      if selectionSet.Some? {
        DeepParts(c, limit, t, selectionSet.value);
      }
      KindParts(schema, t);
      match def.kind {
        case Object(fields, _) =>
          if selectionSet.Some? {
            RetainSelected(t, fields, selectionSet.value, limit);
          } else {
            RetainFields(t, fields, limit);
          }
        case Interface(fields, _) =>
          if selectionSet.Some? {
            RetainSelected(t, fields, selectionSet.value, limit);
          } else {
            RetainFields(t, fields, limit);
          }
        case Union(members) =>
          RetainMembers(t, members, selectionSet, limit);
        case Enum(values) =>
          RetainValues(values, limit);
        case Scalar =>
          RetainsNothing(world, down, v1);
        case InputObject(inputs) =>
          RetainInputs(inputs, limit);
      }
      if selectionSet.None? || IsInput(schema, t) {
        RetainsStep(world, down, start, DirectiveTypes(schema, def.directives), Defined(schema, def.directives), v1,
                    KindUses(schema, def.kind), KindApplied(schema, def.kind), Now(),
                    Uses(schema, t), Applied(schema, t));
      } else {
        CompositeAdds(c, limit, t, selectionSet.value, start, v1, Now());
      }
    }

    /** Without a selection, mark a type and what it uses, as far as the limit goes; with one, what the selection asks
        for. */
    method RetainType(t: Name, selectionSet: Option<seq<Selection>>, limit: DepthLimit)
      requires Valid() && t in schema.types
      requires selectionSet.Some? ==> DeepEnough(Ctx(), limit, t, selectionSet.value)
      modifies this`namedTypeNodes, this`directiveNodes
      ensures Valid()
      ensures selectionSet.None? ==> RetainsAll(world, limit, old(Now()), {t}, {}, Now())
      ensures selectionSet.Some? ==>
                Adds(world, limit.Limited?, old(Now()), TypeEffect(Ctx(), limit, t, selectionSet.value), Now())
      ensures !limit.Reached() ==> t in Now().types
      ensures limit.Unlimited? && old(Settled(world, Now())) ==> Settled(world, Now())
      decreases
        if selectionSet.Some? then 1 + Size(selectionSet.value, weight) else 0,
        if selectionSet.Some? then IsUnion(schema, t) else 0,
        if selectionSet.Some? then 0 else Left(limit, 0),
        9
    {
      hide LeftOf, WorldOf, ViewOf, UnionsOfObjects, Weighted, RetainsAll, Adds, DirectiveTypes, Defined, Known;
      hide ArgTypes;
      hide Size, DeepEnough, FragmentsEffect, OwnEffect, TypeEffect, Uses, Applied, Context.Ok, Mark, Settled;
      ghost var c, start := Ctx(), Now();
      if limit.Reached() {
        ReachedAdds(c, limit, t, start, selectionSet);
        return;
      }
      // Fragments first, on their own types.
      if selectionSet.Some? {
        DeepFragments(c, limit, t, selectionSet.value);
        RetainFragments(selectionSet.value, limit);
      }
      ghost var v1 := Now();
      if namedTypeNodes[t].retain && selectionSet.None? && limit.Unlimited? {
        IsRetained(namedTypeNodes, directiveNodes, t);
        RetainsAgain(world, v1, t);
        return;
      }
      IsRetained(namedTypeNodes, directiveNodes, t);
      MarkView(namedTypeNodes, t, selectionSet, directiveNodes);
      MarkKeys(namedTypeNodes, t, selectionSet);
      namedTypeNodes := Mark(namedTypeNodes, t, selectionSet);
      ghost var marked := Now();
      if selectionSet.None? {
        LeftAfterMark(schema.types.Keys, v1.types, t, limit);
      }
      RetainParts(t, selectionSet, limit);
      if selectionSet.None? {
        NodeRetained(c, limit, t, v1, Now());
      } else {
        TypeAdds(c, limit, t, selectionSet.value, start, v1, marked, Now());
      }
      IsNowRetained(c, limit, t, selectionSet, start, Now());
      if limit.Unlimited? && Settled(world, start) {
        StaysSettled(c, t, selectionSet, start, Now());
      }
    }

    method RetainOperationType(op: OperationType, selectionSet: Option<seq<Selection>>, limit: DepthLimit)
      requires Valid()
      requires selectionSet.Some? ==> DeepEnough(Ctx(), limit, RootName(schema, op), selectionSet.value)
      modifies this`namedTypeNodes, this`directiveNodes, this`operationTypes
      ensures Valid() && operationTypes == old(operationTypes) + [op]
      ensures selectionSet.None? ==>
                RetainsAll(world, limit, old(Now()), Known(schema, [RootName(schema, op)]), {}, Now())
      ensures selectionSet.Some? ==>
                Adds(world, limit.Limited?, old(Now()),
                     TypeEffect(Ctx(), limit, RootName(schema, op), selectionSet.value), Now())
      ensures op in schema.roots && selectionSet.None? ==>
                RetainsAll(world, limit, old(Now()), Known(schema, [schema.roots[op]]), {}, Now())
      ensures op in schema.roots && selectionSet.Some? ==>
                Adds(world, limit.Limited?, old(Now()),
                     TypeEffect(Ctx(), limit, schema.roots[op], selectionSet.value), Now())
      ensures limit.Unlimited? && old(Settled(world, Now())) ==> Settled(world, Now())
    {
      hide LeftOf, WorldOf, ViewOf, UnionsOfObjects, Weighted, RetainsAll, Adds, Known, DeepEnough, TypeEffect;
      hide Context.Ok, Settled;
      operationTypes := operationTypes + [op];
      var name := RootName(schema, op);
      KnownOne(schema, name);
      if name in schema.types {
        RetainType(name, selectionSet, limit);
      } else {
        NoSuchType(Ctx(), limit, name, Now(), selectionSet);
      }
    }

    /** Retain what an operation selects, with the fragments of its document. */
    method RetainOperation(
      op: OperationType, selectionSet: seq<Selection>, fragments: map<Name, Fragment>, limit: DepthLimit)
      requires Valid() && AcyclicFragments(fragments)
      requires limit.Limited? ==> forall weight :: Weighted(fragments, weight) ==>
                 DeepEnough(Context(schema, world, fragments, weight), limit, RootName(schema, op), selectionSet)
      modifies this
      ensures Valid() && namedFragments == fragments && operationTypes == old(operationTypes) + [op]
      ensures Adds(world, limit.Limited?, old(Now()),
                   TypeEffect(Ctx(), limit, RootName(schema, op), selectionSet), Now())
      ensures op in schema.roots ==>
                Adds(world, limit.Limited?, old(Now()),
                     TypeEffect(Ctx(), limit, schema.roots[op], selectionSet), Now())
      ensures limit.Unlimited? && old(Settled(world, Now())) ==> Settled(world, Now())
    {
      hide LeftOf, WorldOf, ViewOf, UnionsOfObjects, Weighted, RetainsAll, Adds, DeepEnough, TypeEffect;
      hide AcyclicFragments, Settled;
      AcyclicHasWeights(fragments);
      namedFragments := fragments;
      ghost var chosen :| Weighted(fragments, chosen);
      weight := chosen;
      if limit.Unlimited? {
        UnlimitedIsDeepEnough(Ctx(), RootName(schema, op), selectionSet);
      }
      RetainOperationType(op, Some(selectionSet), limit);
    }
  }
}

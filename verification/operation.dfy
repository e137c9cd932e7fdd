/** An operation as GraphQL types it, and what retaining it keeps: every selected field with what it needs
    (crates/apollo-mcp-server/src/schema_tree_shake.rs). */
module Typing {
  import opened GraphQL
  import opened Graphs
  import opened ShakeViews
  import opened ShakeGraph
  import opened ShakeSpec

  // ---------- The operation, typed as GraphQL types it ----------

  predicate IsComposite(s: Schema, t: Name) {
    t in s.types && !IsInput(s, t)
  }

  /** The parts of section 5 of the GraphQL specification (October 2021) that matter here: fields exist on their static
      parent type, leaves have no selections, fragments exist on composite types. Every inline fragment states its
      type condition, which section 2.8.2 does not require. */
  ghost predicate Valid(c: Context, t: Name, sels: seq<Selection>)
    requires c.Ok()
    decreases Size(sels, c.weight), 1
  {
    sels == [] || (Valid(c, t, sels[..|sels| - 1]) && ValidOne(c, t, sels[|sels| - 1]))
  }

  ghost predicate ValidOne(c: Context, t: Name, sel: Selection)
    requires c.Ok()
    decreases SizeOne(sel, c.weight), 0
  {
    && IsComposite(c.schema, t)
    && match sel
       case Field(name, _, sub) =>
         if name == "__typename" then sub == [] else
         && Find(FieldsOf(c.schema.types[t].kind), name).Some?
         && var f := Find(FieldsOf(c.schema.types[t].kind), name).value;
            f.ty in c.schema.types && (IsInput(c.schema, f.ty) ==> sub == []) && Valid(c, f.ty, sub)
       case FragmentSpread(g) =>
         && g in c.fragments && IsComposite(c.schema, c.fragments[g].typeCondition)
         && Valid(c, c.fragments[g].typeCondition, c.fragments[g].selectionSet)
       case InlineFragment(condition, sub) =>
         condition.Some? && IsComposite(c.schema, condition.value) && Valid(c, condition.value, sub)
  }

  /** The fields that a selection on `t` selects, each with its static parent type. */
  ghost function Selected(c: Context, t: Name, sels: seq<Selection>): set<(Name, Name)>
    requires c.Ok()
    decreases Size(sels, c.weight), 1
  {
    if sels == [] then {} else Selected(c, t, sels[..|sels| - 1]) + SelectedOne(c, t, sels[|sels| - 1])
  }

  ghost function SelectedOne(c: Context, t: Name, sel: Selection): set<(Name, Name)>
    requires c.Ok()
    decreases SizeOne(sel, c.weight), 0
  {
    match sel
    case Field(name, _, sub) =>
      if name == "__typename" || t !in c.schema.types then {} else
      {(t, name)} + (match Find(FieldsOf(c.schema.types[t].kind), name)
                     case Some(f) => Selected(c, f.ty, sub)
                     case None => {})
    case FragmentSpread(g) =>
      if g in c.fragments then Selected(c, c.fragments[g].typeCondition, c.fragments[g].selectionSet) else {}
    case InlineFragment(condition, sub) => if condition.Some? then Selected(c, condition.value, sub) else {}
  }

  /** What an operation means does not depend on the weights of its fragments. */
  lemma {:induction false} SameMeaning(a: Context, b: Context, t: Name, sels: seq<Selection>)
    requires a.Ok() && b.Ok() && a.schema == b.schema && a.fragments == b.fragments
    ensures Valid(a, t, sels) == Valid(b, t, sels) && Selected(a, t, sels) == Selected(b, t, sels)
    decreases Size(sels, a.weight), 1
  {
    hide Context.Ok;
    if sels != [] {
      var n := |sels| - 1;
      SameMeaning(a, b, t, sels[..n]);
      SizeMember(sels, n, a.weight);
      SameMeaningOne(a, b, t, sels[n]);
    }
  }

  lemma {:induction false} SameMeaningOne(a: Context, b: Context, t: Name, sel: Selection)
    requires a.Ok() && b.Ok() && a.schema == b.schema && a.fragments == b.fragments
    ensures ValidOne(a, t, sel) == ValidOne(b, t, sel) && SelectedOne(a, t, sel) == SelectedOne(b, t, sel)
    decreases SizeOne(sel, a.weight), 0
  {
    hide Context.Ok;
    SizeOfSub(sel, a.weight);
    match sel
    case Field(name, _, sub) =>
      if t in a.schema.types && Find(FieldsOf(a.schema.types[t].kind), name).Some? {
        SameMeaning(a, b, Find(FieldsOf(a.schema.types[t].kind), name).value.ty, sub);
      }
    case FragmentSpread(g) =>
      if g in a.fragments {
        SizeOfFragment(a, g);
        SameMeaning(a, b, a.fragments[g].typeCondition, a.fragments[g].selectionSet);
      }
    case InlineFragment(condition, sub) =>
      if condition.Some? {
        SameMeaning(a, b, condition.value, sub);
      }
  }

  // ---------- What the shaker keeps is what the operation selects ----------

  /** The parent type, the type of the field, and the types of its arguments are all kept. */
  ghost predicate Needs(s: Schema, kept: set<Name>, field: (Name, Name)) {
    && field.0 in s.types && field.0 in kept
    && Find(FieldsOf(s.types[field.0].kind), field.1).Some?
    && var f := Find(FieldsOf(s.types[field.0].kind), field.1).value;
       f.ty in kept && Known(s, ArgTypes(f.args)) <= kept
  }

  ghost predicate AllNeeded(s: Schema, kept: set<Name>, fields: set<(Name, Name)>) {
    forall field :: field in fields ==> Needs(s, kept, field)
  }

  lemma NeededInMore(s: Schema, kept: set<Name>, more: set<Name>, fields: set<(Name, Name)>)
    requires AllNeeded(s, kept, fields) && kept <= more
    ensures AllNeeded(s, more, fields)
  {
    forall field | field in fields
      ensures Needs(s, more, field)
    {
      assert Needs(s, kept, field);
    }
  }

  /** The parts of what retaining a composite type adds. */
  lemma CompositeParts(c: Context, t: Name, sels: seq<Selection>)
    requires c.Ok() && IsComposite(c.schema, t)
    ensures var def := c.schema.types[t];
            TypeEffect(c, Unlimited, t, sels) ==
            FragmentsEffect(c, Unlimited, sels).Plus(Marked(t, Names(sels)).Plus(
              DirectivesEffect(c, Unlimited, def.directives).Plus(
                if def.kind.Union? then MembersEffect(c, Unlimited, t, def.kind.members, sels)
                else SelectedEffect(c, Unlimited, FieldsOf(def.kind), sels))))
  {
    hide Context.Ok, FragmentsEffect, MembersEffect, SelectedEffect, DirectivesEffect, Names;
    assert TypeEffect(c, Unlimited, t, sels) ==
           FragmentsEffect(c, Unlimited, sels).Plus(OwnEffect(c, Unlimited, t, sels));
    assert OwnEffect(c, Unlimited, t, sels) == Marked(t, Names(sels)).Plus(CompositeEffect(c, Unlimited, t, sels));
  }

  lemma InputParts(c: Context, t: Name, sels: seq<Selection>)
    requires c.Ok() && IsInput(c.schema, t)
    ensures TypeEffect(c, Unlimited, t, sels) ==
            FragmentsEffect(c, Unlimited, sels).Plus(InputEffect(c.world, Unlimited, t, Names(sels)))
  {
    hide Context.Ok, FragmentsEffect, InputEffect, Names;
    assert OwnEffect(c, Unlimited, t, sels) == InputEffect(c.world, Unlimited, t, Names(sels));
  }

  lemma UnknownAddsNothing(c: Context, t: Name, sels: seq<Selection>)
    requires c.Ok() && t !in c.schema.types
    ensures TypeEffect(c, Unlimited, t, sels) == NOTHING
  {
    hide Context.Ok;
  }

  lemma FieldEffectParts(c: Context, f: FieldDef, sub: seq<Selection>)
    requires c.Ok()
    ensures FieldEffect(c, Unlimited, f, sub).fields == TypeEffect(c, Unlimited, f.ty, sub).fields
    ensures TypeEffect(c, Unlimited, f.ty, sub).types + ArgumentsEffect(c, Unlimited, f.args).types
            <= FieldEffect(c, Unlimited, f, sub).types
  {
    hide Context.Ok, TypeEffect, Expands, World.AppliedTo, DirectiveTypes, Known, Defined;
  }

  /** The fields that retaining a valid selection keeps are those that it selects, with all that they need. */
  lemma {:induction false} TypeKeepsSelected(c: Context, t: Name, sels: seq<Selection>)
    requires c.Ok() && t in c.schema.types && Valid(c, t, sels) && (IsInput(c.schema, t) ==> sels == [])
    ensures TypeEffect(c, Unlimited, t, sels).fields == Selected(c, t, sels)
    ensures t in TypeEffect(c, Unlimited, t, sels).types
    ensures AllNeeded(c.schema, TypeEffect(c, Unlimited, t, sels).types, Selected(c, t, sels))
    decreases Size(sels, c.weight), 3
  {
    hide Context.Ok, Needs, FragmentsEffect, SelectedEffect, MembersEffect, Expands, World.AppliedTo, Valid, Selected;
    hide TypeEffect, DirectiveTypes, Defined, Names;
    var all := TypeEffect(c, Unlimited, t, sels);
    if IsInput(c.schema, t) {
      NoneOfNothing(c, t);
      InputParts(c, t, sels);
    } else {
      PartsKeepSelected(c, t, sels);
      CompositeParts(c, t, sels);
      if IsUnion(c.schema, t) == 1 {
        UnionNamesNothing(c, t, sels);
        MembersKeepNoMore(c, t, c.schema.types[t].kind.members, sels);
        NothingSelected(c, [], sels);
      }
      NeededInMore(c.schema, PartsEffect(c, t, sels).types, all.types, Selected(c, t, sels));
    }
  }

  lemma NoneOfNothing(c: Context, t: Name)
    requires c.Ok()
    ensures FragmentsEffect(c, Unlimited, []) == NOTHING && Selected(c, t, []) == {} && Names([]) == {}
  {
    hide Context.Ok;
  }

  /** The fragments and the selected fields, without what a union hands on to its members. */
  ghost function PartsEffect(c: Context, t: Name, sels: seq<Selection>): View
    requires c.Ok() && t in c.schema.types
  {
    FragmentsEffect(c, Unlimited, sels).Plus(Marked(t, Names(sels)))
    .Plus(SelectedEffect(c, Unlimited, FieldsOf(c.schema.types[t].kind), sels))
  }

  lemma {:induction false} PartsKeepSelected(c: Context, t: Name, sels: seq<Selection>)
    requires c.Ok() && IsComposite(c.schema, t) && Valid(c, t, sels)
    ensures PartsEffect(c, t, sels).fields == Selected(c, t, sels)
    ensures AllNeeded(c.schema, PartsEffect(c, t, sels).types, Selected(c, t, sels))
    decreases Size(sels, c.weight), 2
  {
    hide Context.Ok, Needs, FragmentEffect, SelectionEffect, ValidOne, SelectedOne;
    if sels == [] {
      NoneOfNothing(c, t);
    } else {
      var n := |sels| - 1;
      PartsKeepSelected(c, t, sels[..n]);
      SizeMember(sels, n, c.weight);
      PartKeepsSelected(c, t, sels[n]);
      NamesOfLast(sels);
      var before, one, all := PartsEffect(c, t, sels[..n]), PartEffect(c, t, sels[n]), PartsEffect(c, t, sels);
      assert all.types == before.types + one.types;
      assert all.fields == before.fields + one.fields by { MarkedBoth(t, Names(sels[..n]), NamesOne(sels[n])); }
      NeededInMore(c.schema, before.types, all.types, Selected(c, t, sels[..n]));
      NeededInMore(c.schema, one.types, all.types, SelectedOne(c, t, sels[n]));
    }
  }

  function NamesOne(sel: Selection): set<Name> {
    if IsNamed(sel) then {sel.name} else {}
  }

  lemma NamesOfLast(sels: seq<Selection>)
    requires sels != []
    ensures Names(sels) == Names(sels[..|sels| - 1]) + NamesOne(sels[|sels| - 1])
  {
    var n := |sels| - 1;
    assert forall sel :: sel in sels <==> sel in sels[..n] || sel == sels[n];
  }

  lemma MarkedBoth(t: Name, a: set<Name>, b: set<Name>)
    ensures Marked(t, a + b).fields == Marked(t, a).fields + Marked(t, b).fields
  {
  }

  ghost function PartEffect(c: Context, t: Name, sel: Selection): View
    requires c.Ok() && t in c.schema.types
  {
    FragmentEffect(c, Unlimited, sel).Plus(Marked(t, NamesOne(sel)))
    .Plus(SelectionEffect(c, Unlimited, FieldsOf(c.schema.types[t].kind), sel))
  }

  lemma {:induction false} PartKeepsSelected(c: Context, t: Name, sel: Selection)
    requires c.Ok() && IsComposite(c.schema, t) && ValidOne(c, t, sel)
    ensures PartEffect(c, t, sel).fields == SelectedOne(c, t, sel)
    ensures AllNeeded(c.schema, PartEffect(c, t, sel).types, SelectedOne(c, t, sel))
    decreases SizeOne(sel, c.weight), 1
  {
    hide Context.Ok, Needs, FragmentsEffect, TypeEffect, FieldEffect, Expands, World.AppliedTo, Valid, Selected;
    var all := PartEffect(c, t, sel);
    SizeOfSub(sel, c.weight);
    match sel
    case Field(name, _, sub) =>
      NoneOfNothing(c, t);
      if name != "__typename" {
        var f := Find(FieldsOf(c.schema.types[t].kind), name).value;
        TypeKeepsSelected(c, f.ty, sub);
        FieldEffectParts(c, f, sub);
        var e := TypeEffect(c, Unlimited, f.ty, sub);
        FragmentsWithin(c, f.ty, sub);
        ArgumentsCovered(c, f);
        NeededInMore(c.schema, e.types, all.types, Selected(c, f.ty, sub));
        assert Needs(c.schema, all.types, (t, name)) by { FieldNeeds(c.schema, all.types, t, name); }
      }
    case FragmentSpread(g) =>
      SizeOfFragment(c, g);
      TypeKeepsSelected(c, c.fragments[g].typeCondition, c.fragments[g].selectionSet);
      NeededInMore(c.schema, FragmentEffect(c, Unlimited, sel).types, all.types, SelectedOne(c, t, sel));
    case InlineFragment(condition, sub) =>
      TypeKeepsSelected(c, condition.value, sub);
      NeededInMore(c.schema, FragmentEffect(c, Unlimited, sel).types, all.types, SelectedOne(c, t, sel));
  }

  lemma FieldNeeds(s: Schema, kept: set<Name>, t: Name, name: Name)
    requires t in s.types && t in kept && Find(FieldsOf(s.types[t].kind), name).Some?
    requires var f := Find(FieldsOf(s.types[t].kind), name).value; f.ty in kept && Known(s, ArgTypes(f.args)) <= kept
    ensures Needs(s, kept, (t, name))
  {
  }

  lemma FragmentsWithin(c: Context, t: Name, sels: seq<Selection>)
    requires c.Ok() && t in c.schema.types
    ensures FragmentsEffect(c, Unlimited, sels).types <= TypeEffect(c, Unlimited, t, sels).types
    ensures FragmentsEffect(c, Unlimited, sels).fields <= TypeEffect(c, Unlimited, t, sels).fields
  {
    hide Context.Ok, FragmentsEffect, OwnEffect;
  }

  lemma ArgumentsCovered(c: Context, f: FieldDef)
    requires c.Ok()
    ensures Known(c.schema, ArgTypes(f.args)) <= ArgumentsEffect(c, Unlimited, f.args).types
    ensures ArgumentsEffect(c, Unlimited, f.args).fields == {}
  {
    hide ArgTypes, DirectiveTypes, Uses, Applied, InputsTyped, IsInput, UnionsOfObjects, Weighted, World.AppliedTo;
    hide Expands;
    var known := Known(c.schema, ArgTypes(f.args));
    assert c.world.uses.Keys == c.schema.types.Keys;
    assert known * c.schema.types.Keys == known;
    ReachClosed(c.world.uses, known);
  }

  lemma {:induction false} UnionNamesNothing(c: Context, t: Name, sels: seq<Selection>)
    requires c.Ok() && IsUnion(c.schema, t) == 1 && Valid(c, t, sels)
    ensures Names(sels) == {}
    decreases |sels|
  {
    hide Context.Ok, Names;
    if sels == [] {
      NoneOfNothing(c, t);
    } else {
      UnionNamesNothing(c, t, sels[..|sels| - 1]);
      NamesOfLast(sels);
    }
  }

  lemma {:induction false} NothingSelected(c: Context, fields: seq<FieldDef>, sels: seq<Selection>)
    requires c.Ok() && Names(sels) == {}
    ensures SelectedEffect(c, Unlimited, fields, sels) == NOTHING
    decreases |sels|
  {
    hide Context.Ok, FieldEffect, Names;
    if sels != [] {
      NamesOfLast(sels);
      NothingSelected(c, fields, sels[..|sels| - 1]);
    }
  }

  lemma {:induction false} ForMemberKeepsNoMore(c: Context, sels: seq<Selection>, m: Name)
    requires c.Ok() && Names(sels) == {}
    ensures Names(ForMember(c.fragments, sels, m)) == {}
    ensures FragmentsEffect(c, Unlimited, ForMember(c.fragments, sels, m)).fields
         <= FragmentsEffect(c, Unlimited, sels).fields
    decreases |sels|
  {
    hide Context.Ok, FragmentEffect, Names, IsForMember;
    if sels != [] {
      var n := |sels| - 1;
      NamesOfLast(sels);
      ForMemberKeepsNoMore(c, sels[..n], m);
      var kept := ForMember(c.fragments, sels[..n], m);
      if IsForMember(c.fragments, sels[n], m) {
        NamesOfLast(kept + [sels[n]]);
        assert (kept + [sels[n]])[..|kept|] == kept;
      } else {
        assert kept + [] == kept;
      }
    }
  }

  lemma {:induction false} MembersKeepNoMore(c: Context, t: Name, members: seq<Name>, sels: seq<Selection>)
    requires c.Ok() && IsUnion(c.schema, t) == 1 && Names(sels) == {}
    requires forall m :: m in members ==> m in c.schema.types[t].kind.members
    ensures MembersEffect(c, Unlimited, t, members, sels).fields <= FragmentsEffect(c, Unlimited, sels).fields
    decreases |members|
  {
    hide Context.Ok, FragmentsEffect, SelectedEffect, Names, ForMember, Expands, World.AppliedTo, TypeEffect;
    if members != [] {
      var m := members[|members| - 1];
      MembersKeepNoMore(c, t, members[..|members| - 1], sels);
      ForMemberKeepsNoMore(c, sels, m);
      var kept := ForMember(c.fragments, sels, m);
      if m in c.schema.types {
        MemberIsObject(c, t, m);
        CompositeParts(c, m, kept);
        NothingSelected(c, FieldsOf(c.schema.types[m].kind), kept);
      } else {
        UnknownAddsNothing(c, m, kept);
      }
    }
  }

  // ---------- What is kept of a composite type is narrowed to selections ----------

  /** Every kept type that is not an input type has its field list narrowed. */
  ghost predicate Narrows(s: Schema, v: View) {
    forall u :: u in v.types ==> IsInput(s, u) || u in v.narrowed
  }

  lemma CoverNarrows(c: Context, limit: DepthLimit, from: set<Name>)
    requires c.Ok() && InputsTyped(c.schema) && from <= c.world.inputs
    ensures Narrows(c.schema, Cover(c.world, limit, from))
  {
    hide Expands, World.AppliedTo, NextOf, InputsTyped, IsInput, Weighted, UnionsOfObjects;
    WorldOfOk(c.schema);
    InputsClosed(c);
    ExpandsStays(c.world.uses, limit, from, c.world.inputs);
  }

  lemma InputsClosed(c: Context)
    requires c.Ok() && InputsTyped(c.schema)
    ensures NextOf(c.world.uses, c.world.inputs) <= c.world.inputs
  {
    hide Weighted, UnionsOfObjects, InputsTyped, IsInput, Uses;
    WorldOfOk(c.schema);
    assert c.world.typed;
  }

  lemma DirectivesNarrow(c: Context, limit: DepthLimit, ds: seq<Name>)
    requires c.Ok() && !limit.Reached() && InputsTyped(c.schema)
    ensures Narrows(c.schema, DirectivesEffect(c, limit, ds))
  {
    hide Cover, WorldOf, DirectiveTypes, Defined, InputsTyped, Weighted, UnionsOfObjects;
    DirectivesAreInput(c.schema, ds);
    InputsAreTyped(c);
    CoverNarrows(c, limit.Decrement(), DirectiveTypes(c.schema, ds));
  }

  lemma InputsAreTyped(c: Context)
    requires c.Ok()
    ensures c.world.typed == InputsTyped(c.schema)
  {
  }

  lemma ArgumentsNarrow(c: Context, limit: DepthLimit, t: Name, f: FieldDef)
    requires c.Ok() && !limit.Reached() && InputsTyped(c.schema) && t in c.schema.types
    requires f in FieldsOf(c.schema.types[t].kind)
    ensures Narrows(c.schema, ArgumentsEffect(c, limit, f.args))
  {
    hide Cover, WorldOf, Known, InputsTyped, Weighted, UnionsOfObjects;
    ArgumentsAreInput(c.schema, t, f);
    InputsAreTyped(c);
    CoverNarrows(c, limit.Decrement(), Known(c.schema, ArgTypes(f.args)));
  }

  lemma {:induction false} TypeNarrows(c: Context, limit: DepthLimit, t: Name, sels: seq<Selection>)
    requires c.Ok() && InputsTyped(c.schema)
    ensures Narrows(c.schema, TypeEffect(c, limit, t, sels))
    decreases Size(sels, c.weight), IsUnion(c.schema, t), 3, 0
  {
    hide Context.Ok, InputsTyped, FragmentsEffect, OwnEffect;
    if t in c.schema.types && !limit.Reached() {
      FragmentsNarrow(c, limit, sels);
      OwnNarrows(c, limit, t, sels);
    }
  }

  lemma {:induction false} OwnNarrows(c: Context, limit: DepthLimit, t: Name, sels: seq<Selection>)
    requires c.Ok() && InputsTyped(c.schema) && t in c.schema.types && !limit.Reached()
    ensures Narrows(c.schema, OwnEffect(c, limit, t, sels))
    decreases Size(sels, c.weight), IsUnion(c.schema, t), 2, 0
  {
    hide Context.Ok, InputsTyped, DirectivesEffect, SelectedEffect, MembersEffect, Cover;
    var def := c.schema.types[t];
    if IsInput(c.schema, t) {
      UsesNarrow(c, limit, t);
    } else {
      DirectivesNarrow(c, limit, def.directives);
      if def.kind.Union? {
        MembersNarrow(c, limit, t, def.kind.members, sels);
      } else {
        SelectedNarrows(c, limit, t, sels);
      }
      assert OwnEffect(c, limit, t, sels) == Marked(t, Names(sels)).Plus(CompositeEffect(c, limit, t, sels));
    }
  }

  lemma UsesNarrow(c: Context, limit: DepthLimit, t: Name)
    requires c.Ok() && InputsTyped(c.schema) && IsInput(c.schema, t) && !limit.Reached()
    ensures Narrows(c.schema, Cover(c.world, limit.Decrement(), Next(c.world.uses, t)))
  {
    hide Cover, InputsTyped, Uses, Weighted, UnionsOfObjects;
    WorldOfOk(c.schema);
    InputsUseInputs(c.schema, t);
    CoverNarrows(c, limit.Decrement(), Next(c.world.uses, t));
  }

  lemma {:induction false} SelectedNarrows(c: Context, limit: DepthLimit, t: Name, sels: seq<Selection>)
    requires c.Ok() && InputsTyped(c.schema) && t in c.schema.types && !limit.Reached()
    ensures Narrows(c.schema, SelectedEffect(c, limit, FieldsOf(c.schema.types[t].kind), sels))
    decreases Size(sels, c.weight), 0, 1, 0
  {
    hide Context.Ok, InputsTyped, DirectivesEffect, ArgumentsEffect, TypeEffect;
    if sels != [] {
      var n := |sels| - 1;
      var fields := FieldsOf(c.schema.types[t].kind);
      SelectedNarrows(c, limit, t, sels[..n]);
      SizeMember(sels, n, c.weight);
      SizeOfSub(sels[n], c.weight);
      if IsNamed(sels[n]) {
        DirectivesNarrow(c, limit, sels[n].directives);
        if Find(fields, sels[n].name).Some? {
          var f := Find(fields, sels[n].name).value;
          FindMember(fields, sels[n].name);
          TypeNarrows(c, limit.Decrement(), f.ty, sels[n].selectionSet);
          ArgumentsNarrow(c, limit, t, f);
          DirectivesNarrow(c, limit, f.directives);
          assert Narrows(c.schema, FieldEffect(c, limit, f, sels[n].selectionSet));
        }
        assert Narrows(c.schema, SelectionEffect(c, limit, fields, sels[n]));
      }
    }
  }

  lemma {:induction false} MembersNarrow(
    c: Context, limit: DepthLimit, t: Name, members: seq<Name>, sels: seq<Selection>)
    requires c.Ok() && InputsTyped(c.schema) && !limit.Reached() && IsUnion(c.schema, t) == 1
    requires forall m :: m in members ==> m in c.schema.types[t].kind.members
    ensures Narrows(c.schema, MembersEffect(c, limit, t, members, sels))
    decreases Size(sels, c.weight), 1, 1, |members|
  {
    hide InputsTyped, TypeEffect, ForMember, WorldOf, Weighted;
    if members != [] {
      var m := members[|members| - 1];
      MembersNarrow(c, limit, t, members[..|members| - 1], sels);
      ForMemberSize(c.fragments, sels, m, c.weight);
      TypeNarrows(c, limit.Decrement(), m, ForMember(c.fragments, sels, m));
    }
  }

  lemma {:induction false} FragmentsNarrow(c: Context, limit: DepthLimit, sels: seq<Selection>)
    requires c.Ok() && InputsTyped(c.schema)
    ensures Narrows(c.schema, FragmentsEffect(c, limit, sels))
    decreases Size(sels, c.weight), 0, 1, 0
  {
    hide Context.Ok, InputsTyped, TypeEffect;
    if sels != [] {
      var n := |sels| - 1;
      FragmentsNarrow(c, limit, sels[..n]);
      SizeMember(sels, n, c.weight);
      SizeOfSub(sels[n], c.weight);
      match sels[n]
      case Field(_, _, sub) => FragmentsNarrow(c, Lower(limit), sub);
      case FragmentSpread(g) =>
        if g in c.fragments {
          SizeOfFragment(c, g);
          TypeNarrows(c, limit, c.fragments[g].typeCondition, c.fragments[g].selectionSet);
        }
      case InlineFragment(condition, sub) =>
        if condition.Some? {
          TypeNarrows(c, limit, condition.value, sub);
        }
    }
  }
}

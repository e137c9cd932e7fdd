/** Which types an operation visits, as GraphQL types it, and that retaining the operation keeps exactly those besides
    input types (crates/apollo-mcp-server/src/schema_tree_shake.rs). */
module Visits {
  import opened GraphQL
  import opened Graphs
  import opened ShakeViews
  import opened ShakeGraph
  import opened ShakeSpec
  import opened Typing

  // ---------- The types that an operation visits ----------

  /** The static types of the selections: the type itself, the types of selected fields, type conditions, and each
      member of a union that some of the union's selections are for. */
  ghost function Visited(c: Context, t: Name, sels: seq<Selection>): set<Name>
    requires c.Ok()
    decreases Size(sels, c.weight), IsUnion(c.schema, t), 3, 0
  {
    if t !in c.schema.types then {} else
    {t} + VisitedBelow(c, t, sels)
    + if IsUnion(c.schema, t) == 1 then VisitedMembers(c, t, c.schema.types[t].kind.members, sels) else {}
  }

  ghost function VisitedBelow(c: Context, t: Name, sels: seq<Selection>): set<Name>
    requires c.Ok()
    decreases Size(sels, c.weight), 0, 1, 0
  {
    if sels == [] then {} else VisitedBelow(c, t, sels[..|sels| - 1]) + VisitedOne(c, t, sels[|sels| - 1])
  }

  ghost function VisitedOne(c: Context, t: Name, sel: Selection): set<Name>
    requires c.Ok()
    decreases SizeOne(sel, c.weight), 0, 0, 0
  {
    match sel
    case Field(name, _, sub) =>
      if name == "__typename" || t !in c.schema.types then {} else
      (match Find(FieldsOf(c.schema.types[t].kind), name)
       case Some(f) => Visited(c, f.ty, sub)
       case None => {})
    case FragmentSpread(g) =>
      if g in c.fragments then Visited(c, c.fragments[g].typeCondition, c.fragments[g].selectionSet) else {}
    case InlineFragment(condition, sub) => if condition.Some? then Visited(c, condition.value, sub) else {}
  }

  ghost function VisitedMembers(c: Context, t: Name, members: seq<Name>, sels: seq<Selection>): set<Name>
    requires c.Ok() && IsUnion(c.schema, t) == 1
    requires forall m :: m in members ==> m in c.schema.types[t].kind.members
    decreases Size(sels, c.weight), 1, 1, |members|
  {
    if members == [] then {} else
    var m := members[|members| - 1];
    var kept := ForMember(c.fragments, sels, m);
    ForMemberSize(c.fragments, sels, m, c.weight);
    VisitedMembers(c, t, members[..|members| - 1], sels) + if kept == [] then {} else Visited(c, m, kept)
  }

  /** Like the meaning of an operation, the types it visits do not depend on the weights of its fragments. */
  lemma {:induction false} SameVisited(a: Context, b: Context, t: Name, sels: seq<Selection>)
    requires a.Ok() && b.Ok() && a.schema == b.schema && a.fragments == b.fragments
    ensures Visited(a, t, sels) == Visited(b, t, sels)
    decreases Size(sels, a.weight), IsUnion(a.schema, t), 3, 0
  {
    hide Context.Ok, VisitedBelow, VisitedMembers;
    if t in a.schema.types {
      SameVisitedBelow(a, b, t, sels);
      if IsUnion(a.schema, t) == 1 {
        SameVisitedMembers(a, b, t, a.schema.types[t].kind.members, sels);
      }
    }
  }

  lemma {:induction false} SameVisitedBelow(a: Context, b: Context, t: Name, sels: seq<Selection>)
    requires a.Ok() && b.Ok() && a.schema == b.schema && a.fragments == b.fragments
    ensures VisitedBelow(a, t, sels) == VisitedBelow(b, t, sels)
    decreases Size(sels, a.weight), 0, 1, 0
  {
    hide Context.Ok, Visited;
    if sels != [] {
      var n := |sels| - 1;
      SameVisitedBelow(a, b, t, sels[..n]);
      SizeMember(sels, n, a.weight);
      SizeOfSub(sels[n], a.weight);
      match sels[n]
      case Field(name, _, sub) =>
        if t in a.schema.types && Find(FieldsOf(a.schema.types[t].kind), name).Some? {
          SameVisited(a, b, Find(FieldsOf(a.schema.types[t].kind), name).value.ty, sub);
        }
      case FragmentSpread(g) =>
        if g in a.fragments {
          SizeOfFragment(a, g);
          SameVisited(a, b, a.fragments[g].typeCondition, a.fragments[g].selectionSet);
        }
      case InlineFragment(condition, sub) =>
        if condition.Some? {
          SameVisited(a, b, condition.value, sub);
        }
    }
  }

  lemma {:induction false} SameVisitedMembers(a: Context, b: Context, t: Name, members: seq<Name>, sels: seq<Selection>)
    requires a.Ok() && b.Ok() && a.schema == b.schema && a.fragments == b.fragments && IsUnion(a.schema, t) == 1
    requires forall m :: m in members ==> m in a.schema.types[t].kind.members
    ensures VisitedMembers(a, t, members, sels) == VisitedMembers(b, t, members, sels)
    decreases Size(sels, a.weight), 1, 1, |members|
  {
    hide Context.Ok, Visited, ForMember;
    if members != [] {
      var m := members[|members| - 1];
      MemberIsObject(a, t, m);
      ForMemberSize(a.fragments, sels, m, a.weight);
      SameVisitedMembers(a, b, t, members[..|members| - 1], sels);
      SameVisited(a, b, m, ForMember(a.fragments, sels, m));
    }
  }

  // ---------- What is kept besides input types is what is visited ----------

  /** The same types, up to input types. */
  ghost predicate SameComposites(s: Schema, a: set<Name>, b: set<Name>) {
    forall u :: !IsInput(s, u) ==> (u in a <==> u in b)
  }

  lemma {:induction false} KeepsVisited(c: Context, t: Name, sels: seq<Selection>)
    requires c.Ok() && InputsTyped(c.schema)
    requires t in c.schema.types && Valid(c, t, sels) && (IsInput(c.schema, t) ==> sels == [])
    ensures SameComposites(c.schema, TypeEffect(c, Unlimited, t, sels).types, Visited(c, t, sels))
    decreases Size(sels, c.weight), IsUnion(c.schema, t), 3, 0
  {
    hide Context.Ok, InputsTyped, FragmentsEffect, SelectedEffect, MembersEffect, TypeEffect, Valid, VisitedBelow;
    hide VisitedMembers, DirectivesEffect, InputEffect;
    if IsInput(c.schema, t) {
      NoneOfNothing(c, t);
      InputParts(c, t, sels);
      InputKeepsInputs(c, t);
      assert VisitedBelow(c, t, []) == {} by { NothingBelow(c, t); }
    } else {
      CompositeParts(c, t, sels);
      DirectivesKeepInputs(c, c.schema.types[t].directives);
      BelowKeepsVisited(c, t, sels);
      if IsUnion(c.schema, t) == 1 {
        MembersKeepVisited(c, t, c.schema.types[t].kind.members, sels);
        UnionNamesNothing(c, t, sels);
        NothingSelected(c, [], sels);
      }
    }
  }

  lemma NothingBelow(c: Context, t: Name)
    requires c.Ok()
    ensures VisitedBelow(c, t, []) == {}
  {
    hide Context.Ok;
  }

  lemma DirectivesKeepInputs(c: Context, ds: seq<Name>)
    requires c.Ok() && InputsTyped(c.schema)
    ensures forall u :: u in DirectivesEffect(c, Unlimited, ds).types ==> IsInput(c.schema, u)
  {
    hide Context.Ok, InputsTyped, IsInput, Expands, World.AppliedTo, DirectiveTypes, Defined;
    DirectivesNarrow(c, Unlimited, ds);
  }

  lemma ArgumentsKeepInputs(c: Context, t: Name, f: FieldDef)
    requires c.Ok() && InputsTyped(c.schema) && t in c.schema.types && f in FieldsOf(c.schema.types[t].kind)
    ensures forall u :: u in ArgumentsEffect(c, Unlimited, f.args).types ==> IsInput(c.schema, u)
  {
    hide Context.Ok, InputsTyped, IsInput, Expands, World.AppliedTo, Known, ArgTypes, FieldsOf;
    ArgumentsNarrow(c, Unlimited, t, f);
  }

  lemma InputKeepsInputs(c: Context, t: Name)
    requires c.Ok() && InputsTyped(c.schema) && IsInput(c.schema, t)
    ensures forall u :: u in InputEffect(c.world, Unlimited, t, {}).types ==> IsInput(c.schema, u)
  {
    hide Context.Ok, InputsTyped, IsInput, Expands, World.AppliedTo, World.Applied, Next;
    UsesNarrow(c, Unlimited, t);
  }

  lemma {:induction false} BelowKeepsVisited(c: Context, t: Name, sels: seq<Selection>)
    requires c.Ok() && InputsTyped(c.schema) && IsComposite(c.schema, t) && Valid(c, t, sels)
    ensures SameComposites(c.schema,
              FragmentsEffect(c, Unlimited, sels).types
              + SelectedEffect(c, Unlimited, FieldsOf(c.schema.types[t].kind), sels).types,
              VisitedBelow(c, t, sels))
    decreases Size(sels, c.weight), 0, 1, 0
  {
    hide Context.Ok, InputsTyped, IsInput, FragmentEffect, SelectionEffect, ValidOne, VisitedOne;
    if sels != [] {
      var n := |sels| - 1;
      BelowKeepsVisited(c, t, sels[..n]);
      SizeMember(sels, n, c.weight);
      OneKeepsVisited(c, t, sels[n]);
    }
  }

  lemma {:induction false} OneKeepsVisited(c: Context, t: Name, sel: Selection)
    requires c.Ok() && InputsTyped(c.schema) && IsComposite(c.schema, t) && ValidOne(c, t, sel)
    ensures SameComposites(c.schema,
              FragmentEffect(c, Unlimited, sel).types
              + SelectionEffect(c, Unlimited, FieldsOf(c.schema.types[t].kind), sel).types,
              VisitedOne(c, t, sel))
    decreases SizeOne(sel, c.weight), 0, 0, 0
  {
    hide Context.Ok, InputsTyped, IsInput, FragmentsEffect, TypeEffect, FieldEffect, DirectivesEffect, Valid, Visited;
    SizeOfSub(sel, c.weight);
    match sel
    case Field(name, ds, sub) =>
      NoneOfNothing(c, t);
      if name != "__typename" {
        var f := Find(FieldsOf(c.schema.types[t].kind), name).value;
        KeepsVisited(c, f.ty, sub);
        FindMember(FieldsOf(c.schema.types[t].kind), name);
        FieldKeepsNoMore(c, t, f, sub);
        DirectivesKeepInputs(c, ds);
        FragmentsWithin(c, f.ty, sub);
      }
    case FragmentSpread(g) =>
      SizeOfFragment(c, g);
      KeepsVisited(c, c.fragments[g].typeCondition, c.fragments[g].selectionSet);
    case InlineFragment(condition, sub) =>
      KeepsVisited(c, condition.value, sub);
  }

  /** A field keeps its result type with what is selected there; the rest are input types. */
  lemma FieldKeepsNoMore(c: Context, t: Name, f: FieldDef, sub: seq<Selection>)
    requires c.Ok() && InputsTyped(c.schema) && t in c.schema.types && f in FieldsOf(c.schema.types[t].kind)
    ensures SameComposites(c.schema, FieldEffect(c, Unlimited, f, sub).types, TypeEffect(c, Unlimited, f.ty, sub).types)
  {
    hide Context.Ok, InputsTyped, IsInput, TypeEffect, ArgumentsEffect, DirectivesEffect, FieldsOf;
    ArgumentsKeepInputs(c, t, f);
    DirectivesKeepInputs(c, f.directives);
  }

  lemma {:induction false} MembersKeepVisited(c: Context, t: Name, members: seq<Name>, sels: seq<Selection>)
    requires c.Ok() && InputsTyped(c.schema) && IsUnion(c.schema, t) == 1 && Valid(c, t, sels)
    requires forall m :: m in members ==> m in c.schema.types[t].kind.members
    ensures SameComposites(
              c.schema, MembersEffect(c, Unlimited, t, members, sels).types, VisitedMembers(c, t, members, sels))
    decreases Size(sels, c.weight), 1, 1, |members|
  {
    hide Context.Ok, InputsTyped, IsInput, TypeEffect, Visited, ForMember, Valid;
    if members != [] {
      var m := members[|members| - 1];
      MembersKeepVisited(c, t, members[..|members| - 1], sels);
      ForMemberSize(c.fragments, sels, m, c.weight);
      MemberIsObject(c, t, m);
      var kept := ForMember(c.fragments, sels, m);
      if m in c.schema.types {
        MemberIsComposite(c, m);
        ForMemberValid(c, t, m, sels);
        KeepsVisited(c, m, kept);
      } else {
        UnknownAddsNothing(c, m, kept);
        UnknownVisitsNothing(c, m, kept);
      }
    }
  }

  lemma UnknownVisitsNothing(c: Context, t: Name, sels: seq<Selection>)
    requires c.Ok() && t !in c.schema.types
    ensures Visited(c, t, sels) == {}
  {
    hide Context.Ok;
  }

  lemma MemberIsComposite(c: Context, m: Name)
    requires m in c.schema.types && c.schema.types[m].kind.Object?
    ensures IsComposite(c.schema, m)
  {
  }

  /** What is valid on a union, and for a member, is valid on the member. */
  lemma {:induction false} ForMemberValid(c: Context, t: Name, m: Name, sels: seq<Selection>)
    requires c.Ok() && IsUnion(c.schema, t) == 1 && Valid(c, t, sels) && IsComposite(c.schema, m)
    ensures Valid(c, m, ForMember(c.fragments, sels, m))
    decreases |sels|
  {
    hide Context.Ok, IsForMember;
    if sels != [] {
      var n := |sels| - 1;
      ForMemberValid(c, t, m, sels[..n]);
      var kept := ForMember(c.fragments, sels[..n], m);
      assert (kept + [sels[n]])[..|kept|] == kept && kept + [] == kept;
      assert ValidOne(c, t, sels[n]);
      assert ValidOne(c, m, sels[n]);
    }
  }

  lemma {:induction false} VisitedAreKnown(c: Context, t: Name, sels: seq<Selection>)
    requires c.Ok()
    ensures Visited(c, t, sels) <= c.schema.types.Keys
    decreases Size(sels, c.weight), IsUnion(c.schema, t), 3, 0
  {
    hide Context.Ok, VisitedBelow, VisitedMembers;
    if t in c.schema.types {
      BelowAreKnown(c, t, sels);
      if IsUnion(c.schema, t) == 1 {
        MembersAreKnown(c, t, c.schema.types[t].kind.members, sels);
      }
    }
  }

  lemma {:induction false} BelowAreKnown(c: Context, t: Name, sels: seq<Selection>)
    requires c.Ok()
    ensures VisitedBelow(c, t, sels) <= c.schema.types.Keys
    decreases Size(sels, c.weight), 0, 1, 0
  {
    hide Context.Ok, Visited;
    if sels != [] {
      var n := |sels| - 1;
      BelowAreKnown(c, t, sels[..n]);
      SizeMember(sels, n, c.weight);
      SizeOfSub(sels[n], c.weight);
      match sels[n]
      case Field(name, _, sub) =>
        if t in c.schema.types && Find(FieldsOf(c.schema.types[t].kind), name).Some? {
          VisitedAreKnown(c, Find(FieldsOf(c.schema.types[t].kind), name).value.ty, sub);
        }
      case FragmentSpread(g) =>
        if g in c.fragments {
          SizeOfFragment(c, g);
          VisitedAreKnown(c, c.fragments[g].typeCondition, c.fragments[g].selectionSet);
        }
      case InlineFragment(condition, sub) =>
        if condition.Some? {
          VisitedAreKnown(c, condition.value, sub);
        }
    }
  }

  lemma {:induction false} MembersAreKnown(c: Context, t: Name, members: seq<Name>, sels: seq<Selection>)
    requires c.Ok() && IsUnion(c.schema, t) == 1
    requires forall m :: m in members ==> m in c.schema.types[t].kind.members
    ensures VisitedMembers(c, t, members, sels) <= c.schema.types.Keys
    decreases Size(sels, c.weight), 1, 1, |members|
  {
    hide Context.Ok, Visited, ForMember;
    if members != [] {
      var m := members[|members| - 1];
      MemberIsObject(c, t, m);
      ForMemberSize(c.fragments, sels, m, c.weight);
      MembersAreKnown(c, t, members[..|members| - 1], sels);
      VisitedAreKnown(c, m, ForMember(c.fragments, sels, m));
    }
  }
}

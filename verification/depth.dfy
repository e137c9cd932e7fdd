/** How deep a limit a selection needs (crates/apollo-mcp-server/src/schema_tree_shake.rs, `DepthLimit::decrement`). */
module Depth {
  import opened GraphQL
  import opened Graphs
  import opened ShakeViews
  import opened ShakeGraph
  import opened ShakeSpec
  import opened Shaker

  function Max(a: nat, b: nat): nat {
    if a < b then b else a
  }

  /** The nesting of fields with selections of their own, with fragments expanded. */
  function Nesting(c: Context, sels: seq<Selection>): nat
    requires Weighted(c.fragments, c.weight)
    decreases Size(sels, c.weight), 1
  {
    if sels == [] then 0 else Max(Nesting(c, sels[..|sels| - 1]), NestingOne(c, sels[|sels| - 1]))
  }

  function NestingOne(c: Context, sel: Selection): nat
    requires Weighted(c.fragments, c.weight)
    decreases SizeOne(sel, c.weight), 0
  {
    match sel
    case Field(_, _, sub) => if sub == [] then 0 else 1 + Nesting(c, sub)
    case FragmentSpread(g) => if g in c.fragments then Nesting(c, c.fragments[g].selectionSet) else 0
    case InlineFragment(_, sub) => Nesting(c, sub)
  }

  // ---------- The limit that a selection needs ----------

  /** The least limit from which on no step decrements zero: a field takes a level, and so does a union on the way to a
      member. A limit of one is never missed, for a retention at zero returns. */
  function Need(c: Context, t: Name, sels: seq<Selection>): nat
    requires c.Ok()
    decreases Size(sels, c.weight), IsUnion(c.schema, t), 3, 0
  {
    if t !in c.schema.types then 0 else
    var members := if IsUnion(c.schema, t) == 1 then MembersNeed(c, t, c.schema.types[t].kind.members, sels) else 0;
    var all := Max(FragmentsNeed(c, sels), Max(members, SelectedNeed(c, FieldsOf(c.schema.types[t].kind), sels)));
    if all == 1 then 0 else all
  }

  function SelectedNeed(c: Context, fields: seq<FieldDef>, sels: seq<Selection>): nat
    requires c.Ok()
    decreases Size(sels, c.weight), 0, 1, 0
  {
    if sels == [] then 0 else
    var n := |sels| - 1;
    Max(SelectedNeed(c, fields, sels[..n]), SelectionNeed(c, fields, sels[n]))
  }

  function SelectionNeed(c: Context, fields: seq<FieldDef>, sel: Selection): nat
    requires c.Ok()
    decreases SizeOne(sel, c.weight), 0, 0, 0
  {
    if IsNamed(sel) && Find(fields, sel.name).Some?
    then 1 + Need(c, Find(fields, sel.name).value.ty, sel.selectionSet)
    else 0
  }

  function MembersNeed(c: Context, t: Name, members: seq<Name>, sels: seq<Selection>): nat
    requires c.Ok() && IsUnion(c.schema, t) == 1
    requires forall m :: m in members ==> m in c.schema.types[t].kind.members
    decreases Size(sels, c.weight), 1, 1, |members|
  {
    if members == [] then 0 else
    var m := members[|members| - 1];
    var kept := ForMember(c.fragments, sels, m);
    ForMemberSize(c.fragments, sels, m, c.weight);
    Max(MembersNeed(c, t, members[..|members| - 1], sels), if kept == [] then 0 else 1 + Need(c, m, kept))
  }

  function FragmentsNeed(c: Context, sels: seq<Selection>): nat
    requires c.Ok()
    decreases Size(sels, c.weight), 0, 1, 0
  {
    if sels == [] then 0 else
    var n := |sels| - 1;
    Max(FragmentsNeed(c, sels[..n]), FragmentNeed(c, sels[n]))
  }

  function FragmentNeed(c: Context, sel: Selection): nat
    requires c.Ok()
    decreases SizeOne(sel, c.weight), 0, 0, 0
  {
    match sel
    case Field(_, _, sub) => if sub == [] then 0 else 1 + FragmentsNeed(c, sub)
    case FragmentSpread(g) =>
      if g in c.fragments then Need(c, c.fragments[g].typeCondition, c.fragments[g].selectionSet) else 0
    case InlineFragment(condition, sub) => if condition.Some? then Need(c, condition.value, sub) else 0
  }

  /** From some limit on, no step decrements zero: exactly from the need on, whatever unions and fragments there are. */
  lemma {:induction false} SafeFromNeedOn(c: Context, d: nat, t: Name, sels: seq<Selection>)
    requires c.Ok()
    ensures (forall e: nat :: e >= d ==> DeepEnough(c, Limited(e), t, sels)) <==> d >= Need(c, t, sels)
  {
    hide DeepEnough, Need, Context.Ok;
    if d >= Need(c, t, sels) {
      forall e: nat | e >= d
        ensures DeepEnough(c, Limited(e), t, sels)
      {
        TypeNeeds(c, e, t, sels);
      }
    } else {
      TypeNeeds(c, Need(c, t, sels) - 1, t, sels);
    }
  }

  lemma {:induction false} TypeNeeds(c: Context, d: nat, t: Name, sels: seq<Selection>)
    requires c.Ok()
    ensures d >= Need(c, t, sels) ==> DeepEnough(c, Limited(d), t, sels)
    ensures d + 1 == Need(c, t, sels) ==> !DeepEnough(c, Limited(d), t, sels)
    decreases Size(sels, c.weight), IsUnion(c.schema, t), 3, 0
  {
    hide Context.Ok, FragmentsDeepEnough, MembersDeepEnough, SelectedDeepEnough, FragmentsNeed, MembersNeed;
    hide SelectedNeed;
    if d > 0 && t in c.schema.types {
      FragmentsNeeds(c, d, sels);
      if IsUnion(c.schema, t) == 1 {
        MembersNeeds(c, d, t, c.schema.types[t].kind.members, sels);
      }
      SelectedNeeds(c, d, FieldsOf(c.schema.types[t].kind), sels);
    }
  }

  lemma {:induction false} SelectedNeeds(c: Context, d: nat, fields: seq<FieldDef>, sels: seq<Selection>)
    requires c.Ok() && d > 0
    ensures d >= SelectedNeed(c, fields, sels) ==> SelectedDeepEnough(c, Limited(d), fields, sels)
    ensures d + 1 == SelectedNeed(c, fields, sels) ==> !SelectedDeepEnough(c, Limited(d), fields, sels)
    decreases Size(sels, c.weight), 0, 1, 0
  {
    hide Context.Ok, SelectionDeepEnough, SelectionNeed;
    if sels != [] {
      var n := |sels| - 1;
      SelectedNeeds(c, d, fields, sels[..n]);
      SizeMember(sels, n, c.weight);
      SelectionNeeds(c, d, fields, sels[n]);
    }
  }

  lemma {:induction false} SelectionNeeds(c: Context, d: nat, fields: seq<FieldDef>, sel: Selection)
    requires c.Ok() && d > 0
    ensures d >= SelectionNeed(c, fields, sel) ==> SelectionDeepEnough(c, Limited(d), fields, sel)
    ensures d + 1 == SelectionNeed(c, fields, sel) ==> !SelectionDeepEnough(c, Limited(d), fields, sel)
    decreases SizeOne(sel, c.weight), 0, 0, 0
  {
    hide Context.Ok, DeepEnough, Need;
    SizeOfSub(sel, c.weight);
    if IsNamed(sel) && Find(fields, sel.name).Some? {
      TypeNeeds(c, d - 1, Find(fields, sel.name).value.ty, sel.selectionSet);
    }
  }

  lemma {:induction false} MembersNeeds(c: Context, d: nat, t: Name, members: seq<Name>, sels: seq<Selection>)
    requires c.Ok() && IsUnion(c.schema, t) == 1 && d > 0
    requires forall m :: m in members ==> m in c.schema.types[t].kind.members
    ensures d >= MembersNeed(c, t, members, sels) ==> MembersDeepEnough(c, Limited(d), t, members, sels)
    ensures d + 1 == MembersNeed(c, t, members, sels) ==> !MembersDeepEnough(c, Limited(d), t, members, sels)
    decreases Size(sels, c.weight), 1, 1, |members|
  {
    hide Context.Ok, DeepEnough, Need, ForMember;
    if members != [] {
      var m := members[|members| - 1];
      MemberIsObject(c, t, m);
      ForMemberSize(c.fragments, sels, m, c.weight);
      MembersNeeds(c, d, t, members[..|members| - 1], sels);
      TypeNeeds(c, d - 1, m, ForMember(c.fragments, sels, m));
    }
  }

  lemma {:induction false} FragmentsNeeds(c: Context, d: nat, sels: seq<Selection>)
    requires c.Ok()
    ensures d >= FragmentsNeed(c, sels) ==> FragmentsDeepEnough(c, Limited(d), sels)
    ensures d + 1 == FragmentsNeed(c, sels) ==> !FragmentsDeepEnough(c, Limited(d), sels)
    decreases Size(sels, c.weight), 0, 1, 0
  {
    hide Context.Ok, FragmentDeepEnough, FragmentNeed;
    if sels != [] {
      var n := |sels| - 1;
      FragmentsNeeds(c, d, sels[..n]);
      SizeMember(sels, n, c.weight);
      FragmentNeeds(c, d, sels[n]);
    }
  }

  lemma {:induction false} FragmentNeeds(c: Context, d: nat, sel: Selection)
    requires c.Ok()
    ensures d >= FragmentNeed(c, sel) ==> FragmentDeepEnough(c, Limited(d), sel)
    ensures d + 1 == FragmentNeed(c, sel) ==> !FragmentDeepEnough(c, Limited(d), sel)
    decreases SizeOne(sel, c.weight), 0, 0, 0
  {
    hide Context.Ok, DeepEnough, Need, FragmentsDeepEnough, FragmentsNeed;
    SizeOfSub(sel, c.weight);
    match sel
    case Field(_, _, sub) =>
      if sub != [] && d > 0 {
        FragmentsNeeds(c, d - 1, sub);
      }
    case FragmentSpread(g) =>
      if g in c.fragments {
        SizeOfFragment(c, g);
        TypeNeeds(c, d, c.fragments[g].typeCondition, c.fragments[g].selectionSet);
      }
    case InlineFragment(condition, sub) =>
      if condition.Some? {
        TypeNeeds(c, d, condition.value, sub);
      }
  }

  /** The need does not depend on the weights of the fragments, which only bound the recursion. */
  lemma {:induction false} SameNeed(a: Context, b: Context, t: Name, sels: seq<Selection>)
    requires a.Ok() && b.Ok() && a.schema == b.schema && a.fragments == b.fragments
    ensures Need(a, t, sels) == Need(b, t, sels)
    decreases Size(sels, a.weight), IsUnion(a.schema, t), 3, 0
  {
    hide Context.Ok, FragmentsNeed, MembersNeed, SelectedNeed;
    if t in a.schema.types {
      SameFragmentsNeed(a, b, sels);
      if IsUnion(a.schema, t) == 1 {
        SameMembersNeed(a, b, t, a.schema.types[t].kind.members, sels);
      }
      SameSelectedNeed(a, b, FieldsOf(a.schema.types[t].kind), sels);
    }
  }

  lemma {:induction false} SameSelectedNeed(a: Context, b: Context, fields: seq<FieldDef>, sels: seq<Selection>)
    requires a.Ok() && b.Ok() && a.schema == b.schema && a.fragments == b.fragments
    ensures SelectedNeed(a, fields, sels) == SelectedNeed(b, fields, sels)
    decreases Size(sels, a.weight), 0, 1, 0
  {
    hide Context.Ok, Need;
    if sels != [] {
      var n := |sels| - 1;
      SameSelectedNeed(a, b, fields, sels[..n]);
      SizeMember(sels, n, a.weight);
      SizeOfSub(sels[n], a.weight);
      if IsNamed(sels[n]) && Find(fields, sels[n].name).Some? {
        SameNeed(a, b, Find(fields, sels[n].name).value.ty, sels[n].selectionSet);
      }
    }
  }

  lemma {:induction false} SameMembersNeed(a: Context, b: Context, t: Name, members: seq<Name>, sels: seq<Selection>)
    requires a.Ok() && b.Ok() && a.schema == b.schema && a.fragments == b.fragments && IsUnion(a.schema, t) == 1
    requires forall m :: m in members ==> m in a.schema.types[t].kind.members
    ensures MembersNeed(a, t, members, sels) == MembersNeed(b, t, members, sels)
    decreases Size(sels, a.weight), 1, 1, |members|
  {
    hide Context.Ok, Need, ForMember;
    if members != [] {
      var m := members[|members| - 1];
      MemberIsObject(a, t, m);
      ForMemberSize(a.fragments, sels, m, a.weight);
      SameMembersNeed(a, b, t, members[..|members| - 1], sels);
      SameNeed(a, b, m, ForMember(a.fragments, sels, m));
    }
  }

  lemma {:induction false} SameFragmentsNeed(a: Context, b: Context, sels: seq<Selection>)
    requires a.Ok() && b.Ok() && a.schema == b.schema && a.fragments == b.fragments
    ensures FragmentsNeed(a, sels) == FragmentsNeed(b, sels)
    decreases Size(sels, a.weight), 0, 1, 0
  {
    hide Context.Ok, FragmentNeed;
    if sels != [] {
      var n := |sels| - 1;
      SameFragmentsNeed(a, b, sels[..n]);
      SizeMember(sels, n, a.weight);
      SameFragmentNeed(a, b, sels[n]);
    }
  }

  lemma {:induction false} SameFragmentNeed(a: Context, b: Context, sel: Selection)
    requires a.Ok() && b.Ok() && a.schema == b.schema && a.fragments == b.fragments
    ensures FragmentNeed(a, sel) == FragmentNeed(b, sel)
    decreases SizeOne(sel, a.weight), 0, 0, 0
  {
    hide Context.Ok, FragmentsNeed, Need;
    SizeOfSub(sel, a.weight);
    match sel
    case Field(_, _, sub) => SameFragmentsNeed(a, b, sub);
    case FragmentSpread(g) =>
      if g in a.fragments {
        SizeOfFragment(a, g);
        SameNeed(a, b, a.fragments[g].typeCondition, a.fragments[g].selectionSet);
      }
    case InlineFragment(condition, sub) =>
      if condition.Some? {
        SameNeed(a, b, condition.value, sub);
      }
  }

  /** A caller who computes the need may retain an operation under any limit from it on. */
  lemma {:induction false} NeedAllowsOperation(c: Context, d: nat, op: OperationType, sels: seq<Selection>)
    requires c.Ok() && d >= Need(c, RootName(c.schema, op), sels)
    ensures forall weight :: Weighted(c.fragments, weight) ==>
              DeepEnough(c.(weight := weight), Limited(d), RootName(c.schema, op), sels)
  {
    hide DeepEnough, Need, WorldOf, UnionsOfObjects, Weighted;
    forall weight | Weighted(c.fragments, weight)
      ensures DeepEnough(c.(weight := weight), Limited(d), RootName(c.schema, op), sels)
    {
      SameNeed(c, c.(weight := weight), RootName(c.schema, op), sels);
      TypeNeeds(c.(weight := weight), d, RootName(c.schema, op), sels);
    }
  }

  // ---------- The nesting of fields is enough without unions, and only then ----------

  ghost predicate NoUnions(s: Schema) {
    forall t :: t in s.types ==> !s.types[t].kind.Union?
  }

  /** In a schema without unions a selection needs no more than the nesting of its fields. */
  lemma {:induction false} NestingBoundsNeed(c: Context, t: Name, sels: seq<Selection>)
    requires c.Ok() && NoUnions(c.schema)
    ensures Need(c, t, sels) <= Nesting(c, sels)
    decreases Size(sels, c.weight), 3
  {
    hide WorldOf, UnionsOfObjects, FragmentsNeed, SelectedNeed;
    if t in c.schema.types {
      NestingFragments(c, sels);
      NestingSelected(c, FieldsOf(c.schema.types[t].kind), sels);
    }
  }

  lemma {:induction false} NestingSelected(c: Context, fields: seq<FieldDef>, sels: seq<Selection>)
    requires c.Ok() && NoUnions(c.schema)
    ensures SelectedNeed(c, fields, sels) <= Max(1, Nesting(c, sels))
    decreases Size(sels, c.weight), 1
  {
    hide WorldOf, UnionsOfObjects, Need, NoUnions;
    if sels != [] {
      var n := |sels| - 1;
      NestingSelected(c, fields, sels[..n]);
      SizeMember(sels, n, c.weight);
      SizeOfSub(sels[n], c.weight);
      if IsNamed(sels[n]) && Find(fields, sels[n].name).Some? {
        NestingBoundsNeed(c, Find(fields, sels[n].name).value.ty, sels[n].selectionSet);
        assert sels[n].selectionSet == [] ==> Nesting(c, sels[n].selectionSet) == 0;
      }
    }
  }

  lemma {:induction false} NestingFragments(c: Context, sels: seq<Selection>)
    requires c.Ok() && NoUnions(c.schema)
    ensures FragmentsNeed(c, sels) <= Nesting(c, sels)
    decreases Size(sels, c.weight), 1
  {
    hide WorldOf, UnionsOfObjects, Need, NoUnions, FragmentNeed, NestingOne;
    if sels != [] {
      var n := |sels| - 1;
      NestingFragments(c, sels[..n]);
      SizeMember(sels, n, c.weight);
      NestingFragment(c, sels[n]);
    }
  }

  lemma {:induction false} NestingFragment(c: Context, sel: Selection)
    requires c.Ok() && NoUnions(c.schema)
    ensures FragmentNeed(c, sel) <= NestingOne(c, sel)
    decreases SizeOne(sel, c.weight), 0
  {
    hide WorldOf, UnionsOfObjects, Need, NoUnions, FragmentsNeed, Nesting;
    SizeOfSub(sel, c.weight);
    match sel
    case Field(_, _, sub) => NestingFragments(c, sub);
    case FragmentSpread(g) =>
      if g in c.fragments {
        SizeOfFragment(c, g);
        NestingBoundsNeed(c, c.fragments[g].typeCondition, c.fragments[g].selectionSet);
      }
    case InlineFragment(condition, sub) =>
      if condition.Some? {
        NestingBoundsNeed(c, condition.value, sub);
      }
  }

  /** There, a limit of at least the nesting of the fields is never decremented at zero. */
  lemma {:induction false} NestingIsDeepEnough(c: Context, d: nat, t: Name, sels: seq<Selection>)
    requires c.Ok() && NoUnions(c.schema) && (d == 0 || d >= Nesting(c, sels))
    ensures DeepEnough(c, Limited(d), t, sels)
  {
    hide Context.Ok, Need, Nesting, NoUnions, FragmentsDeepEnough, MembersDeepEnough, SelectedDeepEnough;
    if d > 0 {
      NestingBoundsNeed(c, t, sels);
      TypeNeeds(c, d, t, sels);
    }
  }

  predicate FragmentFree(sels: seq<Selection>)
    decreases sels, 1
  {
    forall i :: 0 <= i < |sels| ==> FragmentFreeOne(sels[i])
  }

  predicate FragmentFreeOne(sel: Selection)
    decreases sel, 0
  {
    sel.Field? && FragmentFree(sel.selectionSet)
  }

  /** Where there are no fragments either, the nesting is exactly what is needed: with less, but not zero, the program
      subtracts from zero. */
  lemma {:induction false} NestingIsExact(c: Context, d: nat, t: Name, sels: seq<Selection>)
    requires c.Ok() && NoUnions(c.schema) && FragmentFree(sels) && t in c.schema.types
    ensures DeepEnough(c, Limited(d), t, sels) <==> d == 0 || d >= Nesting(c, sels)
  {
    if d == 0 || d >= Nesting(c, sels) {
      NestingIsDeepEnough(c, d, t, sels);
    } else if DeepEnough(c, Limited(d), t, sels) {
      DeepFragments(c, Limited(d), t, sels);
      FieldsNeedNesting(c, d, sels);
    }
  }

  lemma {:induction false} FieldsNeedNesting(c: Context, d: nat, sels: seq<Selection>)
    requires c.Ok() && FragmentFree(sels) && FragmentsDeepEnough(c, Limited(d), sels)
    ensures d >= Nesting(c, sels)
    decreases Size(sels, c.weight)
  {
    hide WorldOf, UnionsOfObjects, DeepEnough;
    if sels != [] {
      var n := |sels| - 1;
      FieldsNeedNesting(c, d, sels[..n]);
      SizeMember(sels, n, c.weight);
      SizeOfSub(sels[n], c.weight);
      assert FragmentFreeOne(sels[n]);
      if sels[n].selectionSet != [] {
        FieldsNeedNesting(c, d - 1, sels[n].selectionSet);
      }
    }
  }

  /** Object `A` has a field of a union whose only member is `A`, a field of its own type, and a leaf. */
  ghost function LoopSchema(): Schema {
    var fields := [FieldDef("union", "U", [], []), FieldDef("next", "A", [], []), FieldDef("leaf", "S", [], [])];
    Schema(map["A" := TypeDef("A", false, [], Object(fields, [])),
               "U" := TypeDef("U", false, [], Union(["A"])),
               "S" := TypeDef("S", false, [], Scalar)], ["A", "U", "S"], map[], map[Query := "A"])
  }

  ghost function One(name: Name, sub: seq<Selection>): seq<Selection> {
    [Field(name, [], sub)]
  }

  ghost function OnA(sub: seq<Selection>): seq<Selection> {
    [InlineFragment(Some("A"), sub)]
  }

  /** `{ union { ... on A { union { ... on A { next { next { next { leaf } } } } } } } }` */
  ghost function LoopInner(): seq<Selection> {
    One("next", One("next", One("next", One("leaf", []))))
  }

  ghost function LoopSelection(): seq<Selection> {
    One("union", OnA(One("union", OnA(LoopInner()))))
  }

  lemma OneNests(c: Context, name: Name, sub: seq<Selection>)
    requires Weighted(c.fragments, c.weight)
    ensures Nesting(c, One(name, sub)) == (if sub == [] then 0 else 1 + Nesting(c, sub))
    ensures Nesting(c, OnA(sub)) == Nesting(c, sub)
  {
    assert One(name, sub)[..0] == [] && OnA(sub)[..0] == [];
  }

  lemma LoopContext() returns (c: Context)
    ensures c.Ok() && c.schema == LoopSchema() && c.fragments == map[]
  {
    hide WorldOf;
    c := Context(LoopSchema(), WorldOf(LoopSchema()), map[], map[]);
  }

  /** With unions, not even a limit above the nesting of the fields keeps the program from decrementing zero. */
  lemma NestingIsNotEnough() returns (c: Context)
    ensures c.Ok() && Nesting(c, LoopSelection()) == 5 && !DeepEnough(c, Limited(6), "A", LoopSelection())
  {
    hide WorldOf, UnionsOfObjects, Weighted, DeepEnough, Nesting;
    c := LoopContext();
    LoopNesting(c);
    if DeepEnough(c, Limited(6), "A", LoopSelection()) {
      ThroughUnion(c, 6, One("union", OnA(LoopInner())));
      ThroughUnion(c, 4, LoopInner());
      TooDeep(c);
    }
  }

  lemma LoopNesting(c: Context)
    requires Weighted(c.fragments, c.weight)
    ensures Nesting(c, LoopSelection()) == 5
  {
    hide Weighted, Nesting;
    NoNesting(c);
    OneNests(c, "leaf", []);
    OneNests(c, "next", One("leaf", []));
    OneNests(c, "next", One("next", One("leaf", [])));
    OneNests(c, "next", One("next", One("next", One("leaf", []))));
    OneNests(c, "union", LoopInner());
    OneNests(c, "union", OnA(LoopInner()));
    OneNests(c, "union", One("union", OnA(LoopInner())));
    OneNests(c, "union", OnA(One("union", OnA(LoopInner()))));
  }

  lemma NoNesting(c: Context)
    requires Weighted(c.fragments, c.weight)
    ensures Nesting(c, []) == 0
  {
  }

  /** A field of the union type and its member take two levels together. */
  lemma ThroughUnion(c: Context, d: nat, sub: seq<Selection>)
    requires c.Ok() && c.schema == LoopSchema() && c.fragments == map[] && d > 2
    requires DeepEnough(c, Limited(d), "A", One("union", OnA(sub)))
    ensures DeepEnough(c, Limited(d - 2), "A", sub)
  {
    hide Context.Ok, DeepEnough, FragmentsDeepEnough, MembersDeepEnough, SelectedDeepEnough;
    var s := c.schema;
    var outer := One("union", OnA(sub));
    DeepParts(c, Limited(d), "A", outer);
    SelectedDeep(c, Limited(d), FieldsOf(s.types["A"].kind), outer, 0);
    assert DeepEnough(c, Limited(d - 1), "U", OnA(sub));
    DeepParts(c, Limited(d - 1), "U", OnA(sub));
    MembersDeep(c, Limited(d - 1), "U", ["A"], OnA(sub), 0);
    assert OnA(sub)[..0] == [];
    assert ForMember(c.fragments, OnA(sub), "A") == OnA(sub);
    assert DeepEnough(c, Limited(d - 2), "A", OnA(sub));
    DeepFragments(c, Limited(d - 2), "A", OnA(sub));
    FragmentsDeep(c, Limited(d - 2), OnA(sub), 0);
  }

  lemma TooDeep(c: Context)
    requires c.Ok() && c.schema == LoopSchema() && c.fragments == map[]
    ensures !DeepEnough(c, Limited(2), "A", LoopInner())
  {
    hide Context.Ok, DeepEnough, FragmentsDeepEnough;
    if DeepEnough(c, Limited(2), "A", LoopInner()) {
      DeepFragments(c, Limited(2), "A", LoopInner());
      FragmentsDeep(c, Limited(2), LoopInner(), 0);
      FragmentsDeep(c, Limited(1), One("next", One("next", One("leaf", []))), 0);
      FragmentsDeep(c, Limited(0), One("next", One("leaf", [])), 0);
    }
  }

  /** `{ next { ... on A { next { next { leaf } } } } }` */
  ghost function CutSelection(): seq<Selection> {
    One("next", OnA(One("next", One("next", One("leaf", [])))))
  }

  /** Below the need a limit may pass where a larger one does not: one level ends the retention before the fragment,
      two levels carry it into the fragment and no further. */
  lemma SmallerMayPass() returns (c: Context)
    ensures c.Ok() && DeepEnough(c, Limited(1), "A", CutSelection()) && !DeepEnough(c, Limited(2), "A", CutSelection())
  {
    hide WorldOf, UnionsOfObjects, Weighted, DeepEnough, FragmentsDeepEnough;
    c := LoopContext();
    OneLevelPasses(c);
    var inner := One("next", One("next", One("leaf", [])));
    if DeepEnough(c, Limited(2), "A", CutSelection()) {
      DeepFragments(c, Limited(2), "A", CutSelection());
      FragmentsDeep(c, Limited(2), CutSelection(), 0);
      FragmentsDeep(c, Limited(1), OnA(inner), 0);
      DeepFragments(c, Limited(1), "A", inner);
      FragmentsDeep(c, Limited(1), inner, 0);
      FragmentsDeep(c, Limited(0), One("next", One("leaf", [])), 0);
    }
  }

  lemma OneLevelPasses(c: Context)
    requires c.Ok() && c.schema == LoopSchema() && c.fragments == map[]
    ensures DeepEnough(c, Limited(1), "A", CutSelection())
  {
    hide Context.Ok;
    var inner := One("next", One("next", One("leaf", [])));
    assert OnA(inner)[..0] == [] && CutSelection()[..0] == [];
    assert DeepEnough(c, Limited(0), "A", inner);
    assert FragmentsDeepEnough(c, Limited(0), OnA(inner));
    assert FragmentsDeepEnough(c, Limited(1), CutSelection());
    var fields := FieldsOf(c.schema.types["A"].kind);
    assert forall u :: DeepEnough(c, Limited(0), u, OnA(inner));
    assert SelectionDeepEnough(c, Limited(1), fields, CutSelection()[0]);
    assert SelectedDeepEnough(c, Limited(1), fields, []);
    assert SelectedDeepEnough(c, Limited(1), fields, CutSelection());
  }
}

/** Selections, and what retaining a type with a selection adds to the retained schema, on values
    (crates/apollo-mcp-server/src/schema_tree_shake.rs). */
module ShakeSpec {
  import opened GraphQL
  import opened Graphs
  import opened ShakeViews
  import opened ShakeGraph
  import opened Sequences

  datatype Selection =
    | Field(name: Name, directives: seq<Name>, selectionSet: seq<Selection>)
    | FragmentSpread(fragment: Name)
    | InlineFragment(typeCondition: Option<Name>, selectionSet: seq<Selection>)

  datatype Fragment = Fragment(typeCondition: Name, selectionSet: seq<Selection>)

  // ---------- Acyclic fragments ----------

  /** The size of a selection with every spread counted as the weight of its fragment. */
  function Size(sels: seq<Selection>, weight: map<Name, nat>): nat
    decreases sels, 1
  {
    if sels == [] then 0 else Size(sels[..|sels| - 1], weight) + SizeOne(sels[|sels| - 1], weight)
  }

  function SizeOne(sel: Selection, weight: map<Name, nat>): (n: nat)
    ensures n > 0
    decreases sel, 0
  {
    match sel
    case Field(_, _, sub) => 1 + Size(sub, weight)
    case FragmentSpread(g) => 1 + (if g in weight then weight[g] else 0)
    case InlineFragment(_, sub) => 1 + Size(sub, weight)
  }

  lemma {:induction false} SizeMember(sels: seq<Selection>, i: nat, weight: map<Name, nat>)
    requires i < |sels|
    ensures SizeOne(sels[i], weight) <= Size(sels, weight)
  {
    if i < |sels| - 1 {
      SizeMember(sels[..|sels| - 1], i, weight);
    }
  }

  lemma SizeOfSub(sel: Selection, weight: map<Name, nat>)
    ensures !sel.FragmentSpread? ==> Size(sel.selectionSet, weight) < SizeOne(sel, weight)
    ensures sel.FragmentSpread? && sel.fragment in weight ==> weight[sel.fragment] < SizeOne(sel, weight)
  {
  }

  /** The weight of each fragment is at least its expanded size, which no cycle of fragments allows. */
  ghost predicate Weighted(fragments: map<Name, Fragment>, weight: map<Name, nat>) {
    && weight.Keys == fragments.Keys
    && forall g :: g in fragments ==> Size(fragments[g].selectionSet, weight) <= weight[g]
  }

  /** The fragments that a selection spreads, at any depth. */
  function Spreads(sels: seq<Selection>): set<Name>
    decreases sels, 1
  {
    if sels == [] then {} else Spreads(sels[..|sels| - 1]) + SpreadsOne(sels[|sels| - 1])
  }

  function SpreadsOne(sel: Selection): set<Name>
    decreases sel, 0
  {
    match sel
    case Field(_, _, sub) => Spreads(sub)
    case FragmentSpread(g) => {g}
    case InlineFragment(_, sub) => Spreads(sub)
  }

  /** Every fragment spreads only fragments of lower rank. */
  ghost predicate Descends(fragments: map<Name, Fragment>, rank: map<Name, nat>) {
    && rank.Keys == fragments.Keys
    && forall g, h :: g in fragments && h in Spreads(fragments[g].selectionSet) && h in fragments ==> rank[h] < rank[g]
  }

  /** Section 5.5.2.2 of the GraphQL specification (October 2021): fragment spreads form no cycle. */
  ghost predicate AcyclicFragments(fragments: map<Name, Fragment>) {
    exists rank :: Descends(fragments, rank)
  }

  lemma {:induction false} SizeSame(sels: seq<Selection>, a: map<Name, nat>, b: map<Name, nat>)
    requires forall g :: g in Spreads(sels) ==> (g in a <==> g in b) && (g in a ==> a[g] == b[g])
    ensures Size(sels, a) == Size(sels, b)
    decreases sels, 1
  {
    if sels != [] {
      SizeSame(sels[..|sels| - 1], a, b);
      SizeOneSame(sels[|sels| - 1], a, b);
    }
  }

  lemma {:induction false} SizeOneSame(sel: Selection, a: map<Name, nat>, b: map<Name, nat>)
    requires forall g :: g in SpreadsOne(sel) ==> (g in a <==> g in b) && (g in a ==> a[g] == b[g])
    ensures SizeOne(sel, a) == SizeOne(sel, b)
    decreases sel, 0
  {
    if !sel.FragmentSpread? {
      SizeSame(sel.selectionSet, a, b);
    }
  }

  /** Fragments without a cycle have weights: the recursion over their spreads ends. */
  lemma AcyclicHasWeights(fragments: map<Name, Fragment>)
    requires AcyclicFragments(fragments)
    ensures exists weight :: Weighted(fragments, weight)
  {
    var rank :| Descends(fragments, rank);
    var top := Highest(rank, fragments.Keys);
    var weight := WeightsBelow(fragments, rank, top);
    assert forall g :: g in fragments ==> g in weight;
    assert weight.Keys == fragments.Keys;
    assert Weighted(fragments, weight);
  }

  lemma {:induction false} Highest(rank: map<Name, nat>, names: set<Name>) returns (top: nat)
    requires names <= rank.Keys
    ensures forall g :: g in names ==> rank[g] < top
  {
    if names == {} {
      top := 0;
    } else {
      var g :| g in names;
      var rest := Highest(rank, names - {g});
      top := if rank[g] < rest then rest else rank[g] + 1;
    }
  }

  lemma {:induction false} WeightsBelow(fragments: map<Name, Fragment>, rank: map<Name, nat>, n: nat)
    returns (weight: map<Name, nat>)
    requires Descends(fragments, rank)
    ensures weight.Keys == set g | g in fragments && rank[g] < n
    ensures forall g :: g in weight ==> Size(fragments[g].selectionSet, weight) <= weight[g]
  {
    if n == 0 {
      weight := map[];
    } else {
      var less := WeightsBelow(fragments, rank, n - 1);
      weight := map g | g in fragments && rank[g] < n ::
        if g in less then less[g] else Size(fragments[g].selectionSet, less);
      forall g | g in weight
        ensures Size(fragments[g].selectionSet, weight) <= weight[g]
      {
        SizeSame(fragments[g].selectionSet, less, weight);
      }
    }
  }

  // ---------- What a retention with a selection adds ----------

  /** The schema, the fragments of the operation, and their weights. */
  datatype Context = Context(schema: Schema, world: World, fragments: map<Name, Fragment>, weight: map<Name, nat>)
  {
    ghost predicate Ok() {
      world == WorldOf(schema) && UnionsOfObjects(schema) && Weighted(fragments, weight)
    }
  }

  /** Section 3.8 of the GraphQL specification (October 2021): the members of a union are object types. */
  ghost predicate UnionsOfObjects(s: Schema) {
    forall t, m :: t in s.types && s.types[t].kind.Union? && m in s.types[t].kind.members && m in s.types ==>
      s.types[m].kind.Object?
  }

  lemma SizeOfFragment(c: Context, g: Name)
    requires c.Ok() && g in c.fragments
    ensures g in c.weight && Size(c.fragments[g].selectionSet, c.weight) <= c.weight[g]
  {
    hide WorldOf, UnionsOfObjects;
  }

  /** The fields that a selection names: `__typename` is not one. */
  predicate IsNamed(sel: Selection) {
    sel.Field? && sel.name != "__typename"
  }

  function Names(sels: seq<Selection>): set<Name> {
    set sel | sel in sels && IsNamed(sel) :: sel.name
  }

  function Find(fields: seq<FieldDef>, name: Name): Option<FieldDef> {
    if fields == [] then None else if fields[0].name == name then Some(fields[0]) else Find(fields[1..], name)
  }

  lemma {:induction false} FindMember(fields: seq<FieldDef>, name: Name)
    ensures Find(fields, name).Some? ==> Find(fields, name).value in fields && Find(fields, name).value.name == name
    ensures Find(fields, name).None? ==> forall f :: f in fields ==> f.name != name
  {
    if fields != [] {
      FindMember(fields[1..], name);
    }
  }

  /** The selections that a union hands on to its member `m`. */
  function ForMember(fragments: map<Name, Fragment>, sels: seq<Selection>, m: Name): seq<Selection> {
    if sels == [] then [] else
    var sel := sels[|sels| - 1];
    ForMember(fragments, sels[..|sels| - 1], m) + (if IsForMember(fragments, sel, m) then [sel] else [])
  }

  predicate IsForMember(fragments: map<Name, Fragment>, sel: Selection, m: Name) {
    match sel
    case Field(_, _, _) => true
    case FragmentSpread(g) => g in fragments && fragments[g].typeCondition == m
    case InlineFragment(condition, _) => condition.None? || condition.value == m
  }

  /** A union hands on, in order: every field, spreads of fragments on the member, and inline fragments on it or without
      a condition. */
  lemma {:induction false} ForMemberHolds(fragments: map<Name, Fragment>, sels: seq<Selection>, m: Name)
    ensures SomeOf(ForMember(fragments, sels, m), sels)
    ensures forall sel :: sel in ForMember(fragments, sels, m) <==>
              && sel in sels
              && (|| sel.Field?
                  || (sel.FragmentSpread? && sel.fragment in fragments && fragments[sel.fragment].typeCondition == m)
                  || (sel.InlineFragment? && (sel.typeCondition == None || sel.typeCondition == Some(m))))
  {
    hide SomeOf;
    if sels == [] {
      AllOf(sels);
    } else {
      var n := |sels| - 1;
      ForMemberHolds(fragments, sels[..n], m);
      SomeNext(ForMember(fragments, sels[..n], m), sels[..n], sels[n]);
      assert sels == sels[..n] + [sels[n]];
      assert ForMember(fragments, sels[..n], m) + [] == ForMember(fragments, sels[..n], m);
    }
  }

  lemma {:induction false} ForMemberSize(
    fragments: map<Name, Fragment>, sels: seq<Selection>, m: Name, weight: map<Name, nat>)
    ensures Size(ForMember(fragments, sels, m), weight) <= Size(sels, weight)
  {
    if sels != [] {
      var n := |sels| - 1;
      ForMemberSize(fragments, sels[..n], m, weight);
      var kept := ForMember(fragments, sels[..n], m);
      assert (kept + [sels[n]])[..|kept|] == kept && kept + [] == kept;
    }
  }

  function IsUnion(s: Schema, t: Name): nat {
    if t in s.types && s.types[t].kind.Union? then 1 else 0
  }

  lemma MemberIsObject(c: Context, t: Name, m: Name)
    requires c.Ok() && IsUnion(c.schema, t) == 1 && m in c.schema.types[t].kind.members
    ensures IsUnion(c.schema, m) == 0 && (m in c.schema.types ==> c.schema.types[m].kind.Object?)
  {
    hide WorldOf, Weighted;
  }

  /** One level down, where the program may subtract; elsewhere the limit stays. */
  function Lower(limit: DepthLimit): DepthLimit {
    if limit.Reached() then limit else limit.Decrement()
  }

  ghost function TypeEffect(c: Context, limit: DepthLimit, t: Name, sels: seq<Selection>): View
    requires c.Ok()
    decreases Size(sels, c.weight), IsUnion(c.schema, t), 3, 0
  {
    if limit.Reached() || t !in c.schema.types then NOTHING else
    FragmentsEffect(c, limit, sels).Plus(OwnEffect(c, limit, t, sels))
  }

  /** Without the fragments. */
  ghost function OwnEffect(c: Context, limit: DepthLimit, t: Name, sels: seq<Selection>): View
    requires c.Ok() && !limit.Reached() && t in c.schema.types
    decreases Size(sels, c.weight), IsUnion(c.schema, t), 2, 1
  {
    if IsInput(c.schema, t) then InputEffect(c.world, limit, t, Names(sels)) else
    Marked(t, Names(sels)).Plus(CompositeEffect(c, limit, t, sels))
  }

  ghost function CompositeEffect(c: Context, limit: DepthLimit, t: Name, sels: seq<Selection>): View
    requires c.Ok() && !limit.Reached() && t in c.schema.types
    decreases Size(sels, c.weight), IsUnion(c.schema, t), 2, 0
  {
    var def := c.schema.types[t];
    DirectivesEffect(c, limit, def.directives).Plus(
      if def.kind.Union? then MembersEffect(c, limit, t, def.kind.members, sels)
      else SelectedEffect(c, limit, FieldsOf(def.kind), sels))
  }

  ghost function DirectivesEffect(c: Context, limit: DepthLimit, ds: seq<Name>): View
    requires !limit.Reached()
  {
    Cover(c.world, limit.Decrement(), DirectiveTypes(c.schema, ds)).Plus(OnlyDirectives(Defined(c.schema, ds)))
  }

  ghost function ArgumentsEffect(c: Context, limit: DepthLimit, args: seq<InputValue>): View
    requires !limit.Reached()
  {
    Cover(c.world, limit.Decrement(), Known(c.schema, ArgTypes(args))).Plus(OnlyDirectives({}))
  }

  ghost function SelectedEffect(c: Context, limit: DepthLimit, fields: seq<FieldDef>, sels: seq<Selection>): View
    requires c.Ok() && !limit.Reached()
    decreases Size(sels, c.weight), 0, 1, 0
  {
    if sels == [] then NOTHING else
    var n := |sels| - 1;
    SelectedEffect(c, limit, fields, sels[..n]).Plus(SelectionEffect(c, limit, fields, sels[n]))
  }

  ghost function SelectionEffect(c: Context, limit: DepthLimit, fields: seq<FieldDef>, sel: Selection): View
    requires c.Ok() && !limit.Reached()
    decreases SizeOne(sel, c.weight), 0, 0, 0
  {
    if !IsNamed(sel) then NOTHING else
    match Find(fields, sel.name)
    case Some(f) => FieldEffect(c, limit, f, sel.selectionSet).Plus(DirectivesEffect(c, limit, sel.directives))
    case None => DirectivesEffect(c, limit, sel.directives)
  }

  ghost function FieldEffect(c: Context, limit: DepthLimit, f: FieldDef, sub: seq<Selection>): View
    requires c.Ok() && !limit.Reached()
    decreases Size(sub, c.weight), 2, 0, 0
  {
    TypeEffect(c, limit.Decrement(), f.ty, sub).Plus(ArgumentsEffect(c, limit, f.args))
    .Plus(DirectivesEffect(c, limit, f.directives))
  }

  ghost function MembersEffect(c: Context, limit: DepthLimit, t: Name, members: seq<Name>, sels: seq<Selection>): View
    requires c.Ok() && !limit.Reached() && IsUnion(c.schema, t) == 1
    requires forall m :: m in members ==> m in c.schema.types[t].kind.members
    decreases Size(sels, c.weight), 1, 1, |members|
  {
    if members == [] then NOTHING else
    var m := members[|members| - 1];
    var kept := ForMember(c.fragments, sels, m);
    ForMemberSize(c.fragments, sels, m, c.weight);
    MembersEffect(c, limit, t, members[..|members| - 1], sels)
    .Plus(if kept == [] then NOTHING else TypeEffect(c, limit.Decrement(), m, kept))
  }

  ghost function FragmentsEffect(c: Context, limit: DepthLimit, sels: seq<Selection>): View
    requires c.Ok()
    decreases Size(sels, c.weight), 0, 1, 0
  {
    if sels == [] then NOTHING else
    var n := |sels| - 1;
    FragmentsEffect(c, limit, sels[..n]).Plus(FragmentEffect(c, limit, sels[n]))
  }

  ghost function FragmentEffect(c: Context, limit: DepthLimit, sel: Selection): View
    requires c.Ok()
    decreases SizeOne(sel, c.weight), 0, 0, 0
  {
    match sel
    case Field(_, _, sub) => if sub == [] then NOTHING else FragmentsEffect(c, Lower(limit), sub)
    case FragmentSpread(g) =>
      if g in c.fragments
      then TypeEffect(c, limit, c.fragments[g].typeCondition, c.fragments[g].selectionSet)
      else NOTHING
    case InlineFragment(condition, sub) =>
      if condition.Some? then TypeEffect(c, limit, condition.value, sub) else NOTHING
  }

  // ---------- Limits deep enough for a selection ----------

  /** No step of a retention with this selection subtracts from a limit of zero. `retain_fragments` descends into
      every field that has selections of its own, whatever is left of the limit. */
  ghost predicate DeepEnough(c: Context, limit: DepthLimit, t: Name, sels: seq<Selection>)
    requires c.Ok()
    decreases Size(sels, c.weight), IsUnion(c.schema, t), 3, 0
  {
    if limit.Reached() || t !in c.schema.types then true else
    && FragmentsDeepEnough(c, limit, sels)
    && (IsUnion(c.schema, t) == 1 ==> MembersDeepEnough(c, limit, t, c.schema.types[t].kind.members, sels))
    && SelectedDeepEnough(c, limit, FieldsOf(c.schema.types[t].kind), sels)
  }

  ghost predicate SelectedDeepEnough(c: Context, limit: DepthLimit, fields: seq<FieldDef>, sels: seq<Selection>)
    requires c.Ok() && !limit.Reached()
    decreases Size(sels, c.weight), 0, 1, 0
  {
    sels == [] ||
    var n := |sels| - 1;
    && SelectedDeepEnough(c, limit, fields, sels[..n])
    && SelectionDeepEnough(c, limit, fields, sels[n])
  }

  ghost predicate SelectionDeepEnough(c: Context, limit: DepthLimit, fields: seq<FieldDef>, sel: Selection)
    requires c.Ok() && !limit.Reached()
    decreases SizeOne(sel, c.weight), 0, 0, 0
  {
    IsNamed(sel) && Find(fields, sel.name).Some? ==>
      DeepEnough(c, limit.Decrement(), Find(fields, sel.name).value.ty, sel.selectionSet)
  }

  ghost predicate MembersDeepEnough(c: Context, limit: DepthLimit, t: Name, members: seq<Name>, sels: seq<Selection>)
    requires c.Ok() && !limit.Reached() && IsUnion(c.schema, t) == 1
    requires forall m :: m in members ==> m in c.schema.types[t].kind.members
    decreases Size(sels, c.weight), 1, 1, |members|
  {
    members == [] ||
    var m := members[|members| - 1];
    var kept := ForMember(c.fragments, sels, m);
    ForMemberSize(c.fragments, sels, m, c.weight);
    && MembersDeepEnough(c, limit, t, members[..|members| - 1], sels)
    && (kept == [] || DeepEnough(c, limit.Decrement(), m, kept))
  }

  ghost predicate FragmentsDeepEnough(c: Context, limit: DepthLimit, sels: seq<Selection>)
    requires c.Ok()
    decreases Size(sels, c.weight), 0, 1, 0
  {
    sels == [] ||
    var n := |sels| - 1;
    FragmentsDeepEnough(c, limit, sels[..n]) && FragmentDeepEnough(c, limit, sels[n])
  }

  ghost predicate FragmentDeepEnough(c: Context, limit: DepthLimit, sel: Selection)
    requires c.Ok()
    decreases SizeOne(sel, c.weight), 0, 0, 0
  {
    match sel
    case Field(_, _, sub) => sub == [] || (!limit.Reached() && FragmentsDeepEnough(c, limit.Decrement(), sub))
    case FragmentSpread(g) =>
      g in c.fragments ==> DeepEnough(c, limit, c.fragments[g].typeCondition, c.fragments[g].selectionSet)
    case InlineFragment(condition, sub) => condition.Some? ==> DeepEnough(c, limit, condition.value, sub)
  }

  // Without a limit nothing is subtracted.

  lemma {:induction false} UnlimitedIsDeepEnough(c: Context, t: Name, sels: seq<Selection>)
    requires c.Ok()
    ensures DeepEnough(c, Unlimited, t, sels)
    decreases Size(sels, c.weight), IsUnion(c.schema, t), 3, 0
  {
    hide Context.Ok;
    if t in c.schema.types {
      UnlimitedFragments(c, sels);
      if IsUnion(c.schema, t) == 1 {
        UnlimitedMembers(c, t, c.schema.types[t].kind.members, sels);
      }
      UnlimitedSelected(c, FieldsOf(c.schema.types[t].kind), sels);
    }
  }

  lemma {:induction false} UnlimitedSelected(c: Context, fields: seq<FieldDef>, sels: seq<Selection>)
    requires c.Ok()
    ensures SelectedDeepEnough(c, Unlimited, fields, sels)
    decreases Size(sels, c.weight), 0, 1, 0
  {
    hide Context.Ok, DeepEnough;
    if sels != [] {
      var n := |sels| - 1;
      UnlimitedSelected(c, fields, sels[..n]);
      SizeMember(sels, n, c.weight);
      SizeOfSub(sels[n], c.weight);
      if IsNamed(sels[n]) && Find(fields, sels[n].name).Some? {
        UnlimitedIsDeepEnough(c, Find(fields, sels[n].name).value.ty, sels[n].selectionSet);
      }
    }
  }

  lemma {:induction false} UnlimitedMembers(c: Context, t: Name, members: seq<Name>, sels: seq<Selection>)
    requires c.Ok() && IsUnion(c.schema, t) == 1
    requires forall m :: m in members ==> m in c.schema.types[t].kind.members
    ensures MembersDeepEnough(c, Unlimited, t, members, sels)
    decreases Size(sels, c.weight), 1, 1, |members|
  {
    hide DeepEnough;
    if members != [] {
      var m := members[|members| - 1];
      ForMemberSize(c.fragments, sels, m, c.weight);
      UnlimitedMembers(c, t, members[..|members| - 1], sels);
      UnlimitedIsDeepEnough(c, m, ForMember(c.fragments, sels, m));
    }
  }

  lemma {:induction false} UnlimitedFragments(c: Context, sels: seq<Selection>)
    requires c.Ok()
    ensures FragmentsDeepEnough(c, Unlimited, sels)
    decreases Size(sels, c.weight), 0, 1, 0
  {
    hide DeepEnough;
    if sels != [] {
      var n := |sels| - 1;
      UnlimitedFragments(c, sels[..n]);
      SizeMember(sels, n, c.weight);
      SizeOfSub(sels[n], c.weight);
      match sels[n]
      case Field(_, _, sub) => UnlimitedFragments(c, sub);
      case FragmentSpread(g) =>
        if g in c.fragments {
          SizeOfFragment(c, g);
          UnlimitedIsDeepEnough(c, c.fragments[g].typeCondition, c.fragments[g].selectionSet);
        }
      case InlineFragment(condition, sub) =>
        if condition.Some? {
          UnlimitedIsDeepEnough(c, condition.value, sub);
        }
    }
  }
}

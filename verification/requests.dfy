/** All that retaining an operation keeps, in closed form: what the operation asks for, and what its input types reach
    (crates/apollo-mcp-server/src/schema_tree_shake.rs). */
module Requests {
  import opened GraphQL
  import opened Graphs
  import opened ShakeViews
  import opened ShakeGraph
  import opened ShakeSpec
  import opened Typing
  import opened Visits

  // ---------- What an operation asks for ----------

  /** The types visited, the fields selected on their static parent types, and the directives on selected fields. */
  datatype Request = Request(visited: set<Name>, selected: set<(Name, Name)>, directed: set<Name>)
  {
    function And(more: Request): Request {
      Request(visited + more.visited, selected + more.selected, directed + more.directed)
    }
  }

  /** The directives on the fields that a selection selects. Those on `__typename` are not looked at. */
  ghost function Directed(c: Context, t: Name, sels: seq<Selection>): set<Name>
    requires c.Ok()
    decreases Size(sels, c.weight), 1
  {
    if sels == [] then {} else Directed(c, t, sels[..|sels| - 1]) + DirectedOne(c, t, sels[|sels| - 1])
  }

  ghost function DirectedOne(c: Context, t: Name, sel: Selection): set<Name>
    requires c.Ok()
    decreases SizeOne(sel, c.weight), 0
  {
    match sel
    case Field(name, ds, sub) =>
      if name == "__typename" || t !in c.schema.types then {} else
      (set d | d in ds) + (match Find(FieldsOf(c.schema.types[t].kind), name)
                           case Some(f) => Directed(c, f.ty, sub)
                           case None => {})
    case FragmentSpread(g) =>
      if g in c.fragments then Directed(c, c.fragments[g].typeCondition, c.fragments[g].selectionSet) else {}
    case InlineFragment(condition, sub) => if condition.Some? then Directed(c, condition.value, sub) else {}
  }

  ghost function RequestOf(c: Context, t: Name, sels: seq<Selection>): Request
    requires c.Ok()
  {
    Request(Visited(c, t, sels), Selected(c, t, sels), Directed(c, t, sels))
  }

  /** It does not depend on the weights of the fragments. */
  lemma {:induction false} SameRequest(a: Context, b: Context, t: Name, sels: seq<Selection>)
    requires a.Ok() && b.Ok() && a.schema == b.schema && a.fragments == b.fragments
    ensures RequestOf(a, t, sels) == RequestOf(b, t, sels)
  {
    hide Context.Ok, Directed, Visited, Selected, Valid;
    SameMeaning(a, b, t, sels);
    SameVisited(a, b, t, sels);
    SameDirected(a, b, t, sels);
  }

  lemma {:induction false} SameDirected(a: Context, b: Context, t: Name, sels: seq<Selection>)
    requires a.Ok() && b.Ok() && a.schema == b.schema && a.fragments == b.fragments
    ensures Directed(a, t, sels) == Directed(b, t, sels)
    decreases Size(sels, a.weight), 1
  {
    hide Context.Ok;
    if sels != [] {
      var n := |sels| - 1;
      SameDirected(a, b, t, sels[..n]);
      SizeMember(sels, n, a.weight);
      SizeOfSub(sels[n], a.weight);
      match sels[n]
      case Field(name, _, sub) =>
        if t in a.schema.types && Find(FieldsOf(a.schema.types[t].kind), name).Some? {
          SameDirected(a, b, Find(FieldsOf(a.schema.types[t].kind), name).value.ty, sub);
        }
      case FragmentSpread(g) =>
        if g in a.fragments {
          SizeOfFragment(a, g);
          SameDirected(a, b, a.fragments[g].typeCondition, a.fragments[g].selectionSet);
        }
      case InlineFragment(condition, sub) =>
        if condition.Some? {
          SameDirected(a, b, condition.value, sub);
        }
    }
  }

  // ---------- The input types and directives that a request comes to ----------

  function OwnDirectives(s: Schema, t: Name): seq<Name> {
    if t in s.types then s.types[t].directives else []
  }

  /** The types of the arguments of a field, and the directives on it. */
  function FieldArguments(s: Schema, x: (Name, Name)): set<Name> {
    if x.0 !in s.types then {} else
    match Find(FieldsOf(s.types[x.0].kind), x.1)
    case Some(f) => Known(s, ArgTypes(f.args))
    case None => {}
  }

  function FieldDirectives(s: Schema, x: (Name, Name)): seq<Name> {
    if x.0 !in s.types then [] else
    match Find(FieldsOf(s.types[x.0].kind), x.1)
    case Some(f) => f.directives
    case None => []
  }

  /** The directives on the types visited, on the fields selected, and in the operation itself. */
  function Used(s: Schema, r: Request): set<Name> {
    (set t, d | t in r.visited && d in Defined(s, OwnDirectives(s, t)) :: d)
    + (set x, d | x in r.selected && d in Defined(s, FieldDirectives(s, x)) :: d)
    + (set d | d in r.directed && d in s.directives)
  }

  /** The input types visited, the argument types of the fields selected, and those of the directives used. */
  function InputsAsked(s: Schema, r: Request): set<Name> {
    (set t | t in r.visited && IsInput(s, t))
    + (set x, u | x in r.selected && u in FieldArguments(s, x) :: u)
    + (set d, u | d in Used(s, r) && u in DirectiveTypes(s, [d]) :: u)
  }

  /** What a shaker holds that was asked for `r`: the types visited, and all that the input types asked for reach; the
      field lists of the types visited, narrowed to the fields selected; the directives used, and those applied to what
      is reached. */
  ghost function Granted(s: Schema, r: Request): View {
    var inputs := Reach(UseGraph(s), InputsAsked(s, r));
    View(r.visited + inputs, r.visited, r.selected, Used(s, r) + WorldOf(s).AppliedTo(inputs))
  }

  lemma {:induction false} ReachBoth(g: Graph, a: set<Name>, b: set<Name>)
    ensures Reach(g, a + b) == Reach(g, a) + Reach(g, b)
  {
    ReachClosed(g, a);
    ReachClosed(g, b);
    ReachClosed(g, a + b);
    assert NextOf(g, Reach(g, a) + Reach(g, b)) == NextOf(g, Reach(g, a)) + NextOf(g, Reach(g, b));
    assert (a + b) * g.Keys == a * g.Keys + b * g.Keys;
  }

  lemma InputsAskedBoth(s: Schema, a: Request, b: Request)
    ensures Used(s, a.And(b)) == Used(s, a) + Used(s, b)
    ensures InputsAsked(s, a.And(b)) == InputsAsked(s, a) + InputsAsked(s, b)
  {
    hide IsInput, FieldArguments, FieldDirectives, Defined, DirectiveTypes, OwnDirectives;
    assert Used(s, a.And(b)) == Used(s, a) + Used(s, b);
  }

  /** Asking for two things grants what asking for each does. */
  lemma GrantedBoth(s: Schema, a: Request, b: Request)
    ensures Granted(s, a.And(b)) == Granted(s, a).Plus(Granted(s, b))
  {
    hide Reach, InputsAsked, Used, WorldOf, World.AppliedTo;
    InputsAskedBoth(s, a, b);
    ReachBoth(UseGraph(s), InputsAsked(s, a), InputsAsked(s, b));
    AppliedToBoth(WorldOf(s), Reach(UseGraph(s), InputsAsked(s, a)), Reach(UseGraph(s), InputsAsked(s, b)));
  }

  lemma DirectiveTypesEach(s: Schema, ds: seq<Name>)
    ensures (set d, u | d in Defined(s, ds) && u in DirectiveTypes(s, [d]) :: u) == DirectiveTypes(s, ds)
  {
    forall d
      ensures DirectiveTypes(s, [d]) == if d in s.directives then Known(s, ArgTypes(s.directives[d].args)) else {}
    {
      OneDirective(s, d);
    }
  }

  /** A composite type alone: its mark, and the directives on it. */
  lemma GrantedType(c: Context, t: Name)
    requires c.Ok() && IsComposite(c.schema, t)
    ensures Granted(c.schema, Request({t}, {}, {})) ==
            Marked(t, {}).Plus(DirectivesEffect(c, Unlimited, c.schema.types[t].directives))
  {
    hide Context.Ok, Expands, World.AppliedTo, Defined, DirectiveTypes, IsInput, WorldOf, UseGraph;
    var s, ds := c.schema, c.schema.types[t].directives;
    var r := Request({t}, {}, {});
    WorldIsOf(c);
    DirectiveTypesEach(s, ds);
    assert OwnDirectives(s, t) == ds && !IsInput(s, t);
    assert Used(s, r) == Defined(s, ds);
    assert InputsAsked(s, r) == DirectiveTypes(s, ds);
    assert Marked(t, {}).fields == {};
  }

  lemma WorldIsOf(c: Context)
    requires c.Ok()
    ensures c.world == WorldOf(c.schema) && c.world.uses == UseGraph(c.schema)
  {
  }

  /** Directives alone. */
  lemma GrantedDirectives(c: Context, ds: seq<Name>)
    requires c.Ok()
    ensures Granted(c.schema, Request({}, {}, set d | d in ds)) == DirectivesEffect(c, Unlimited, ds)
  {
    hide Context.Ok, Expands, World.AppliedTo, DirectiveTypes, IsInput, WorldOf, UseGraph;
    var s := c.schema;
    var r := Request({}, {}, set d | d in ds);
    WorldIsOf(c);
    DirectiveTypesEach(s, ds);
    assert Used(s, r) == Defined(s, ds);
    assert InputsAsked(s, r) == DirectiveTypes(s, ds);
  }

  /** A field alone: its name on the list of its type, its arguments, and the directives on it. */
  lemma GrantedField(c: Context, t: Name, name: Name)
    requires c.Ok() && t in c.schema.types && Find(FieldsOf(c.schema.types[t].kind), name).Some?
    ensures var f := Find(FieldsOf(c.schema.types[t].kind), name).value;
            Granted(c.schema, Request({}, {(t, name)}, {})) ==
            View({}, {}, {(t, name)}, {}).Plus(
              ArgumentsEffect(c, Unlimited, f.args).Plus(DirectivesEffect(c, Unlimited, f.directives)))
  {
    hide Context.Ok, Expands, World.AppliedTo, Defined, DirectiveTypes, Known, IsInput, WorldOf, UseGraph, ArgTypes;
    var s := c.schema;
    var f := Find(FieldsOf(s.types[t].kind), name).value;
    var r := Request({}, {(t, name)}, {});
    WorldIsOf(c);
    DirectiveTypesEach(s, f.directives);
    assert FieldDirectives(s, (t, name)) == f.directives && FieldArguments(s, (t, name)) == Known(s, ArgTypes(f.args));
    assert Used(s, r) == Defined(s, f.directives);
    assert InputsAsked(s, r) == Known(s, ArgTypes(f.args)) + DirectiveTypes(s, f.directives);
    CoverBoth(c.world, Known(s, ArgTypes(f.args)), DirectiveTypes(s, f.directives));
  }

  lemma CoverBoth(w: World, a: set<Name>, b: set<Name>)
    ensures Cover(w, Unlimited, a + b) == Cover(w, Unlimited, a).Plus(Cover(w, Unlimited, b))
    ensures Cover(w, Unlimited, a) == View(Reach(w.uses, a), {}, {}, w.AppliedTo(Reach(w.uses, a)))
    ensures Cover(w, Unlimited, b) == View(Reach(w.uses, b), {}, {}, w.AppliedTo(Reach(w.uses, b)))
    ensures Cover(w, Unlimited, a + b) == View(Reach(w.uses, a + b), {}, {}, w.AppliedTo(Reach(w.uses, a + b)))
  {
    hide Expands, World.AppliedTo;
    ReachBoth(w.uses, a, b);
    AppliedToBoth(w, Reach(w.uses, a), Reach(w.uses, b));
  }

  /** An input type alone: its mark, and all that it uses. */
  lemma GrantedInput(c: Context, t: Name)
    requires c.Ok() && IsInput(c.schema, t)
    ensures Granted(c.schema, Request({t}, {}, {})) == InputEffect(c.world, Unlimited, t, {})
  {
    hide Context.Ok, Expands, World.AppliedTo, World.Applied, Defined, DirectiveTypes, IsInput, WorldOf, UseGraph, Uses;
    var s, g := c.schema, UseGraph(c.schema);
    var r := Request({t}, {}, {});
    var own := OwnDirectives(s, t);
    WorldIsOf(c);
    WorldOfOk(s);
    DirectiveTypesEach(s, own);
    assert Used(s, r) == Defined(s, own);
    assert InputsAsked(s, r) == {t} + DirectiveTypes(s, own);
    InputReaches(c, t);
    assert Marked(t, {}).fields == {};
  }

  /** The directives on an input type are among those applied to it, and their arguments among what it uses. */
  lemma InputReaches(c: Context, t: Name)
    requires c.Ok() && IsInput(c.schema, t)
    ensures var s, w, own := c.schema, c.world, OwnDirectives(c.schema, t);
            && Reach(w.uses, {t} + DirectiveTypes(s, own)) == {t} + Reach(w.uses, Next(w.uses, t))
            && Defined(s, own) + w.AppliedTo({t} + Reach(w.uses, Next(w.uses, t)))
               == w.Applied(t) + w.AppliedTo(Reach(w.uses, Next(w.uses, t)))
  {
    hide Expands, World.AppliedTo, World.Applied, Defined, DirectiveTypes, IsInput, Uses, Applied, InputsTyped;
    hide UnionsOfObjects, Weighted, Reach, Next, KindUses, KindApplied;
    var s, w, own := c.schema, c.world, OwnDirectives(c.schema, t);
    WorldOfOk(s);
    IsKnown(s, t);
    assert t in w.uses;
    OwnAreUsed(s, t);
    ReachOne(w, t);
    ReachClosed(w.uses, {t});
    ReachBoth(w.uses, {t}, DirectiveTypes(s, own));
    ReachBoth(w.uses, DirectiveTypes(s, own), Next(w.uses, t));
    assert DirectiveTypes(s, own) + Next(w.uses, t) == Next(w.uses, t);
    AppliedToBoth(w, {t}, Reach(w.uses, Next(w.uses, t)));
    AppliedToOne(w, t);
  }

  lemma IsKnown(s: Schema, t: Name)
    requires IsInput(s, t)
    ensures t in s.types
  {
  }

  lemma OwnAreUsed(s: Schema, t: Name)
    requires t in s.types
    ensures DirectiveTypes(s, OwnDirectives(s, t)) <= Uses(s, t) && Defined(s, OwnDirectives(s, t)) <= Applied(s, t)
  {
    hide DirectiveTypes, Defined, KindUses, KindApplied;
  }

  // ---------- Retaining an operation grants what it asks for ----------

  lemma PlusMany(a: View, b: View, x: View)
    ensures a.Plus(b) == b.Plus(a) && a.Plus(b).Plus(x) == a.Plus(b.Plus(x)) && a.Plus(a) == a
  {
  }

  /** A selection on a composite type: everything but what a union hands on to its members. */
  ghost function PartsOf(c: Context, t: Name, sels: seq<Selection>): Request
    requires c.Ok()
  {
    Request({t} + VisitedBelow(c, t, sels), Selected(c, t, sels), Directed(c, t, sels))
  }

  ghost function PartOf(c: Context, t: Name, sel: Selection): Request
    requires c.Ok()
  {
    Request({t} + VisitedOne(c, t, sel), SelectedOne(c, t, sel), DirectedOne(c, t, sel))
  }

  ghost function TypeAlone(c: Context, t: Name): View
    requires c.Ok()
  {
    Granted(c.schema, Request({t}, {}, {}))
  }

  /** Retaining a valid selection grants exactly what it asks for. */
  lemma {:induction false} TypeGrants(c: Context, t: Name, sels: seq<Selection>)
    requires c.Ok() && t in c.schema.types && Valid(c, t, sels) && (IsInput(c.schema, t) ==> sels == [])
    ensures TypeEffect(c, Unlimited, t, sels) == Granted(c.schema, RequestOf(c, t, sels))
    decreases Size(sels, c.weight), IsUnion(c.schema, t), 3, 0
  {
    hide Context.Ok, FragmentsEffect, SelectedEffect, MembersEffect, TypeEffect, Valid, VisitedBelow, VisitedMembers;
    hide DirectivesEffect, InputEffect, Granted, Selected, Directed, Names;
    if IsInput(c.schema, t) {
      InputAsks(c, t);
      InputParts(c, t, sels);
      NoneOfNothing(c, t);
      GrantedInput(c, t);
    } else {
      CompositeGrants(c, t, sels);
    }
  }

  lemma InputAsks(c: Context, t: Name)
    requires c.Ok() && IsInput(c.schema, t)
    ensures RequestOf(c, t, []) == Request({t}, {}, {})
  {
    hide Context.Ok;
    NothingBelow(c, t);
  }

  lemma {:induction false} CompositeGrants(c: Context, t: Name, sels: seq<Selection>)
    requires c.Ok() && IsComposite(c.schema, t) && Valid(c, t, sels)
    ensures TypeEffect(c, Unlimited, t, sels) == Granted(c.schema, RequestOf(c, t, sels))
    decreases Size(sels, c.weight), IsUnion(c.schema, t), 2, 0
  {
    hide Context.Ok, FragmentsEffect, SelectedEffect, MembersEffect, TypeEffect, Valid, VisitedBelow, VisitedMembers;
    hide DirectivesEffect, Granted, Selected, Directed, Names, Marked;
    var s, def := c.schema, c.schema.types[t];
    CompositeParts(c, t, sels);
    PartsGrant(c, t, sels);
    GrantedType(c, t);
    MarkedTwice(t, Names(sels));
    var fragments, marked := FragmentsEffect(c, Unlimited, sels), Marked(t, Names(sels));
    var ds := DirectivesEffect(c, Unlimited, def.directives);
    var selected := SelectedEffect(c, Unlimited, FieldsOf(def.kind), sels);
    if IsUnion(s, t) == 1 {
      var members := MembersEffect(c, Unlimited, t, def.kind.members, sels);
      UnionNamesNothing(c, t, sels);
      NothingSelected(c, [], sels);
      var r := MembersGrant(c, t, def.kind.members, sels);
      GrantedBoth(s, PartsOf(c, t, sels), r);
      assert PartsOf(c, t, sels).And(r) == RequestOf(c, t, sels);
      UnionTogether(fragments, marked, Marked(t, {}), ds, members);
    } else {
      Together(fragments, marked, Marked(t, {}), ds, selected);
      assert PartsOf(c, t, sels) == RequestOf(c, t, sels);
    }
  }

  lemma MarkedTwice(t: Name, names: set<Name>)
    ensures Marked(t, names).Plus(Marked(t, {})) == Marked(t, names)
  {
  }

  lemma Together(fragments: View, marked: View, mark: View, ds: View, selected: View)
    requires marked.Plus(mark) == marked
    ensures fragments.Plus(marked.Plus(ds.Plus(selected)))
         == fragments.Plus(marked).Plus(selected).Plus(mark.Plus(ds))
  {
  }

  lemma UnionTogether(fragments: View, marked: View, mark: View, ds: View, members: View)
    requires marked.Plus(mark) == marked
    ensures fragments.Plus(marked.Plus(ds.Plus(members)))
         == fragments.Plus(marked).Plus(NOTHING).Plus(mark.Plus(ds)).Plus(members)
  {
  }

  lemma {:induction false} PartsGrant(c: Context, t: Name, sels: seq<Selection>)
    requires c.Ok() && IsComposite(c.schema, t) && Valid(c, t, sels)
    ensures PartsEffect(c, t, sels).Plus(TypeAlone(c, t)) == Granted(c.schema, PartsOf(c, t, sels))
    decreases Size(sels, c.weight), 0, 1, 0
  {
    hide Context.Ok, FragmentEffect, SelectionEffect, ValidOne, VisitedOne, SelectedOne, DirectedOne, Granted, Names;
    if sels == [] {
      NoneOfNothing(c, t);
      MarkGranted(c, t);
      assert PartsOf(c, t, []) == Request({t}, {}, {});
    } else {
      var n := |sels| - 1;
      PartsGrant(c, t, sels[..n]);
      SizeMember(sels, n, c.weight);
      PartGrants(c, t, sels[n]);
      PartsNext(c, t, sels);
      GrantedBoth(c.schema, PartsOf(c, t, sels[..n]), PartOf(c, t, sels[n]));
      assert PartsOf(c, t, sels[..n]).And(PartOf(c, t, sels[n])) == PartsOf(c, t, sels);
      Spread(PartsEffect(c, t, sels[..n]), PartEffect(c, t, sels[n]), TypeAlone(c, t));
    }
  }

  lemma Spread(a: View, b: View, x: View)
    ensures a.Plus(b).Plus(x) == a.Plus(x).Plus(b.Plus(x))
  {
  }

  lemma MarkGranted(c: Context, t: Name)
    requires c.Ok() && IsComposite(c.schema, t)
    ensures NOTHING.Plus(Marked(t, {})).Plus(NOTHING).Plus(TypeAlone(c, t)) == TypeAlone(c, t)
  {
    hide Context.Ok, Granted, DirectivesEffect;
    GrantedType(c, t);
    PlusMany(Marked(t, {}), DirectivesEffect(c, Unlimited, c.schema.types[t].directives), NOTHING);
  }

  lemma PartsNext(c: Context, t: Name, sels: seq<Selection>)
    requires c.Ok() && t in c.schema.types && sels != []
    ensures var n := |sels| - 1;
            PartsEffect(c, t, sels) == PartsEffect(c, t, sels[..n]).Plus(PartEffect(c, t, sels[n]))
  {
    hide Context.Ok, FragmentEffect, SelectionEffect, Names, NamesOne, Marked;
    var n := |sels| - 1;
    NamesOfLast(sels);
    MarkedSum(t, Names(sels[..n]), NamesOne(sels[n]));
  }

  lemma MarkedSum(t: Name, a: set<Name>, b: set<Name>)
    ensures Marked(t, a + b) == Marked(t, a).Plus(Marked(t, b))
  {
  }

  lemma {:induction false} PartGrants(c: Context, t: Name, sel: Selection)
    requires c.Ok() && IsComposite(c.schema, t) && ValidOne(c, t, sel)
    ensures PartEffect(c, t, sel).Plus(TypeAlone(c, t)) == Granted(c.schema, PartOf(c, t, sel))
    decreases SizeOne(sel, c.weight), 0, 0, 0
  {
    hide Context.Ok, FragmentsEffect, TypeEffect, FieldEffect, DirectivesEffect, Valid, Visited, Selected, Directed;
    hide Granted, Marked, PartEffect;
    SizeOfSub(sel, c.weight);
    match sel
    case Field(name, ds, sub) =>
      if name == "__typename" {
        TypenameGrants(c, t, sel);
      } else {
        TypeGrants(c, Find(FieldsOf(c.schema.types[t].kind), name).value.ty, sub);
        FieldGrants(c, t, sel);
      }
    case FragmentSpread(g) =>
      SizeOfFragment(c, g);
      TypeGrants(c, c.fragments[g].typeCondition, c.fragments[g].selectionSet);
      FragmentGrants(c, t, sel, c.fragments[g].typeCondition, c.fragments[g].selectionSet);
    case InlineFragment(condition, sub) =>
      TypeGrants(c, condition.value, sub);
      FragmentGrants(c, t, sel, condition.value, sub);
  }

  lemma TypenameGrants(c: Context, t: Name, sel: Selection)
    requires c.Ok() && IsComposite(c.schema, t) && ValidOne(c, t, sel) && sel.Field? && sel.name == "__typename"
    ensures PartEffect(c, t, sel).Plus(TypeAlone(c, t)) == Granted(c.schema, PartOf(c, t, sel))
  {
    hide Context.Ok, Granted, TypeEffect, FieldEffect, DirectivesEffect, Marked, FragmentsEffect;
    MarkGranted(c, t);
    assert PartOf(c, t, sel) == Request({t}, {}, {});
    assert PartEffect(c, t, sel) == NOTHING.Plus(Marked(t, {})).Plus(NOTHING);
  }

  lemma FragmentGrants(c: Context, t: Name, sel: Selection, condition: Name, sub: seq<Selection>)
    requires c.Ok() && IsComposite(c.schema, t) && ValidOne(c, t, sel)
    requires || (sel.InlineFragment? && sel.typeCondition == Some(condition) && sel.selectionSet == sub)
             || (sel.FragmentSpread? && sel.fragment in c.fragments
                 && c.fragments[sel.fragment] == Fragment(condition, sub))
    requires TypeEffect(c, Unlimited, condition, sub) == Granted(c.schema, RequestOf(c, condition, sub))
    ensures PartEffect(c, t, sel).Plus(TypeAlone(c, t)) == Granted(c.schema, PartOf(c, t, sel))
  {
    hide Context.Ok, Granted, TypeEffect, Marked, Visited, Selected, Directed, Valid;
    MarkGranted(c, t);
    var e := TypeEffect(c, Unlimited, condition, sub);
    assert PartEffect(c, t, sel) == e.Plus(Marked(t, {})).Plus(NOTHING);
    GrantedBoth(c.schema, RequestOf(c, condition, sub), Request({t}, {}, {}));
    assert RequestOf(c, condition, sub).And(Request({t}, {}, {})) == PartOf(c, t, sel);
    Regroup(e, Marked(t, {}), TypeAlone(c, t));
  }

  lemma Regroup(e: View, mark: View, alone: View)
    requires NOTHING.Plus(mark).Plus(NOTHING).Plus(alone) == alone
    ensures e.Plus(mark).Plus(NOTHING).Plus(alone) == e.Plus(alone)
  {
  }

  lemma FieldGrants(c: Context, t: Name, sel: Selection)
    requires c.Ok() && IsComposite(c.schema, t) && ValidOne(c, t, sel) && sel.Field? && sel.name != "__typename"
    requires var f := Find(FieldsOf(c.schema.types[t].kind), sel.name).value;
             TypeEffect(c, Unlimited, f.ty, sel.selectionSet) == Granted(c.schema, RequestOf(c, f.ty, sel.selectionSet))
    ensures PartEffect(c, t, sel).Plus(TypeAlone(c, t)) == Granted(c.schema, PartOf(c, t, sel))
  {
    hide Context.Ok, Granted, TypeEffect, Marked, Visited, Selected, Directed, Valid, FragmentsEffect, OwnEffect;
    hide DirectivesEffect, ArgumentsEffect, PartEffect;
    var s, name, ds, sub := c.schema, sel.name, sel.directives, sel.selectionSet;
    var f := Find(FieldsOf(s.types[t].kind), name).value;
    var inner, here, there := RequestOf(c, f.ty, sub), Request({}, {(t, name)}, {}), Request({}, {}, set d | d in ds);
    MarkGranted(c, t);
    GrantedField(c, t, name);
    GrantedDirectives(c, ds);
    GrantedBoth(s, inner, here);
    GrantedBoth(s, inner.And(here), there);
    GrantedBoth(s, inner.And(here).And(there), Request({t}, {}, {}));
    assert inner.And(here).And(there).And(Request({t}, {}, {})) == PartOf(c, t, sel);
    FieldParts(c, t, sel);
    MarkedName(t, name);
    FieldRegroup(TypeEffect(c, Unlimited, f.ty, sub), View({}, {}, {(t, name)}, {}), Marked(t, {}),
                 ArgumentsEffect(c, Unlimited, f.args), DirectivesEffect(c, Unlimited, f.directives),
                 DirectivesEffect(c, Unlimited, ds), TypeAlone(c, t));
  }

  lemma MarkedName(t: Name, name: Name)
    ensures Marked(t, {name}) == View({}, {}, {(t, name)}, {}).Plus(Marked(t, {}))
  {
  }

  /** The fragments within the selections of a field are retained with its type anyway. */
  lemma FieldParts(c: Context, t: Name, sel: Selection)
    requires c.Ok() && IsComposite(c.schema, t) && ValidOne(c, t, sel) && sel.Field? && sel.name != "__typename"
    ensures var f := Find(FieldsOf(c.schema.types[t].kind), sel.name).value;
            PartEffect(c, t, sel) ==
            Marked(t, {sel.name})
            .Plus(TypeEffect(c, Unlimited, f.ty, sel.selectionSet).Plus(ArgumentsEffect(c, Unlimited, f.args))
                  .Plus(DirectivesEffect(c, Unlimited, f.directives))
                  .Plus(DirectivesEffect(c, Unlimited, sel.directives)))
  {
    hide Context.Ok, Marked, Valid, FragmentsEffect, OwnEffect, DirectivesEffect, ArgumentsEffect, TypeEffect;
    var f := Find(FieldsOf(c.schema.types[t].kind), sel.name).value;
    var e := TypeEffect(c, Unlimited, f.ty, sel.selectionSet);
    var inner := FragmentEffect(c, Unlimited, sel);
    FragmentsInside(c, f.ty, sel.selectionSet);
    NoneOfNothing(c, t);
    assert inner == if sel.selectionSet == [] then NOTHING else FragmentsEffect(c, Unlimited, sel.selectionSet);
    assert inner.Plus(e) == e;
    var args, ds := ArgumentsEffect(c, Unlimited, f.args), DirectivesEffect(c, Unlimited, f.directives);
    var own := DirectivesEffect(c, Unlimited, sel.directives);
    assert FieldEffect(c, Unlimited, f, sel.selectionSet) == e.Plus(args).Plus(ds);
    assert SelectionEffect(c, Unlimited, FieldsOf(c.schema.types[t].kind), sel) == e.Plus(args).Plus(ds).Plus(own);
    assert NamesOne(sel) == {sel.name};
    Absorb(inner, Marked(t, {sel.name}), e, args, ds, own);
  }

  lemma FragmentsInside(c: Context, t: Name, sels: seq<Selection>)
    requires c.Ok() && t in c.schema.types
    ensures FragmentsEffect(c, Unlimited, sels).Plus(TypeEffect(c, Unlimited, t, sels))
         == TypeEffect(c, Unlimited, t, sels)
  {
    hide Context.Ok, FragmentsEffect, OwnEffect;
    var a, b := FragmentsEffect(c, Unlimited, sels), OwnEffect(c, Unlimited, t, sels);
    assert TypeEffect(c, Unlimited, t, sels) == a.Plus(b);
    assert a.Plus(a.Plus(b)) == a.Plus(b);
  }

  lemma Absorb(inner: View, marked: View, e: View, args: View, ds: View, own: View)
    requires inner.Plus(e) == e
    ensures inner.Plus(marked).Plus(e.Plus(args).Plus(ds).Plus(own)) == marked.Plus(e.Plus(args).Plus(ds).Plus(own))
  {
  }

  lemma FieldRegroup(e: View, listed: View, mark: View, args: View, ds: View, own: View, alone: View)
    requires NOTHING.Plus(mark).Plus(NOTHING).Plus(alone) == alone
    ensures listed.Plus(mark).Plus(e.Plus(args).Plus(ds).Plus(own)).Plus(alone)
         == e.Plus(listed.Plus(args.Plus(ds))).Plus(own).Plus(alone)
  {
  }

  // ---------- The members of a union ----------

  /** What a union hands on to a member selects and directs no more than the selection on the union. */
  lemma {:induction false} ForMemberAsksNoMore(c: Context, t: Name, m: Name, sels: seq<Selection>)
    requires c.Ok() && IsUnion(c.schema, t) == 1 && Valid(c, t, sels) && IsComposite(c.schema, m)
    ensures var kept := ForMember(c.fragments, sels, m);
            Selected(c, m, kept) <= Selected(c, t, sels) && Directed(c, m, kept) <= Directed(c, t, sels)
    decreases |sels|
  {
    hide Context.Ok, IsForMember;
    if sels != [] {
      var n := |sels| - 1;
      ForMemberAsksNoMore(c, t, m, sels[..n]);
      var kept := ForMember(c.fragments, sels[..n], m);
      assert (kept + [sels[n]])[..|kept|] == kept && kept + [] == kept;
      assert ValidOne(c, t, sels[n]);
      assert SelectedOne(c, m, sels[n]) == SelectedOne(c, t, sels[n]);
      assert DirectedOne(c, m, sels[n]) == DirectedOne(c, t, sels[n]);
    }
  }

  lemma {:induction false} MembersGrant(c: Context, t: Name, members: seq<Name>, sels: seq<Selection>)
    returns (r: Request)
    requires c.Ok() && IsUnion(c.schema, t) == 1 && Valid(c, t, sels)
    requires forall m :: m in members ==> m in c.schema.types[t].kind.members
    ensures MembersEffect(c, Unlimited, t, members, sels) == Granted(c.schema, r)
    ensures r.visited == VisitedMembers(c, t, members, sels)
    ensures r.selected <= Selected(c, t, sels) && r.directed <= Directed(c, t, sels)
    decreases Size(sels, c.weight), 1, 1, |members|
  {
    hide Context.Ok, IsInput, TypeEffect, Visited, ForMember, Valid, Granted, Selected, Directed;
    if members == [] {
      r := Request({}, {}, {});
      NothingGranted(c.schema);
    } else {
      var m := members[|members| - 1];
      var before := MembersGrant(c, t, members[..|members| - 1], sels);
      ForMemberSize(c.fragments, sels, m, c.weight);
      MemberIsObject(c, t, m);
      var kept := ForMember(c.fragments, sels, m);
      r := before;
      if kept != [] {
        if m in c.schema.types {
          MemberIsComposite(c, m);
          ForMemberValid(c, t, m, sels);
          ForMemberAsksNoMore(c, t, m, sels);
          TypeGrants(c, m, kept);
          r := before.And(RequestOf(c, m, kept));
          GrantedBoth(c.schema, before, RequestOf(c, m, kept));
        } else {
          UnknownAddsNothing(c, m, kept);
          UnknownVisitsNothing(c, m, kept);
        }
      }
      NothingMore(Granted(c.schema, before), r.visited, before.visited);
    }
  }

  lemma NothingMore(v: View, a: set<Name>, b: set<Name>)
    ensures v.Plus(NOTHING) == v && b + {} == b
  {
  }

  lemma NothingGranted(s: Schema)
    ensures Granted(s, Request({}, {}, {})) == NOTHING
  {
    hide WorldOf, Reach;
    assert InputsAsked(s, Request({}, {}, {})) == {};
    ReachClosed(UseGraph(s), {});
    assert NextOf(UseGraph(s), {}) == {};
    assert Reach(UseGraph(s), {}) == {};
    assert WorldOf(s).AppliedTo({}) == {};
  }
}

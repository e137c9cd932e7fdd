/** The edges of a schema read from its definitions, and what the walk does with them
    (crates/apollo-schema-index/src/traverse.rs). */
module SchemaEdges {
  import opened GraphQL
  import opened Sequences
  import opened Paths
  import opened Walk
  import opened EdgePaths
  import Traverse

  // ---------- What a type leads to ----------

  /** A field of this name, with these argument types, in order, and this result type. */
  ghost predicate FieldLeads(fields: seq<FieldDef>, name: Name, args: seq<Name>, t: Name) {
    exists f :: f in fields && f.name == name && f.ty == t && |args| == |f.args|
                && forall i :: 0 <= i < |args| ==> args[i] == f.args[i].ty
  }

  /** `u`, defined and not built in, leads to `t`: an object or interface type by each of its fields, a union to each
      member, and an interface to each object type that says that it implements it. */
  ghost predicate Leads(s: Schema, u: Name, field: Option<Name>, args: seq<Name>, t: Name) {
    && u in s.types && !s.types[u].builtIn
    && match s.types[u].kind
       case Object(fields, _) => field.Some? && FieldLeads(fields, field.value, args, t)
       case Interface(fields, _) =>
         || (field.Some? && FieldLeads(fields, field.value, args, t))
         || (field.None? && args == [] && t in s.types && s.types[t].kind.Object? && u in s.types[t].kind.implements)
       case Union(members) => field.None? && args == [] && t in members
       case _ => false
  }

  ghost predicate Follows(s: Schema, u: Name, t: Name) {
    exists field, args :: Leads(s, u, field, args, t)
  }

  /** From the root type of a requested operation type, each type leading to the next. */
  ghost predicate Way(s: Schema, requested: set<OperationType>, ts: seq<Name>) {
    && ts != []
    && (exists op :: op in requested && op in s.roots && s.roots[op] == ts[0])
    && forall i :: 0 <= i < |ts| - 1 ==> Follows(s, ts[i], ts[i + 1])
  }

  ghost predicate Reached(s: Schema, requested: set<OperationType>, t: Name) {
    exists ts :: Way(s, requested, ts) && ts[|ts| - 1] == t
  }

  // ---------- The lists that the walk pushes ----------

  lemma FieldEdgeIff(fields: seq<FieldDef>, e: Edge)
    ensures e in FieldEdges(fields) <==> e.field.Some? && FieldLeads(fields, e.field.value, e.args, e.target)
  {
    if e in FieldEdges(fields) {
      var i :| 0 <= i < |fields| && FieldEdges(fields)[i] == e;
      assert fields[i] in fields;
    }
    if e.field.Some? && FieldLeads(fields, e.field.value, e.args, e.target) {
      var f :| f in fields && f.name == e.field.value && f.ty == e.target && |e.args| == |f.args|
               && forall i :: 0 <= i < |e.args| ==> e.args[i] == f.args[i].ty;
      var i :| 0 <= i < |fields| && fields[i] == f;
      assert ArgTypes(f.args) == e.args;
      assert FieldEdges(fields)[i] == e;
    }
  }

  lemma {:induction false} ImplementerEdgeIff(s: Schema, order: seq<Name>, iface: Name, e: Edge)
    ensures e in ImplementerEdges(s, order, iface) <==>
              && e.field.None? && e.args == [] && e.target in order
              && e.target in s.types && s.types[e.target].kind.Object? && iface in s.types[e.target].kind.implements
  {
    if order != [] {
      ImplementerEdgeIff(s, order[1..], iface, e);
      assert order == [order[0]] + order[1..];
    }
  }

  lemma MemberEdgeIff(members: seq<Name>, e: Edge)
    ensures e in MemberEdges(members) <==> e.field.None? && e.args == [] && e.target in members
  {
    if e.field.None? && e.args == [] && e.target in members {
      var i :| 0 <= i < |members| && members[i] == e.target;
      assert MemberEdges(members)[i] == e;
    }
  }

  lemma EdgeLeads(s: Schema, u: Name, e: Edge)
    requires s.Indexed(u) && e in Edges(s, u)
    ensures Leads(s, u, e.field, e.args, e.target)
  {
    hide FieldEdges, FieldLeads, MemberEdges, ImplementerEdges;
    ImplementerEdgeIff(s, s.typeOrder, u, e);
    match s.types[u].kind {
      case Object(fields, _) => FieldEdgeIff(fields, e);
      case Interface(fields, _) => FieldEdgeIff(fields, e);
      case Union(members) => MemberEdgeIff(members, e);
      case _ =>
    }
  }

  /** What the walk pushes for a type is what the type leads to. */
  lemma EdgeIffLeads(s: Schema, u: Name, e: Edge)
    requires s.WellFormed()
    ensures s.Indexed(u) && e in Edges(s, u) <==> Leads(s, u, e.field, e.args, e.target)
  {
    hide FieldEdges, FieldLeads, MemberEdges, ImplementerEdges;
    if s.Indexed(u) {
      ImplementerEdgeIff(s, s.typeOrder, u, e);
      match s.types[u].kind {
        case Object(fields, _) => FieldEdgeIff(fields, e);
        case Interface(fields, _) => FieldEdgeIff(fields, e);
        case Union(members) => MemberEdgeIff(members, e);
        case _ =>
      }
      assert e.target in s.types ==> s.Defined(e.target);
    }
  }

  /** And it is pushed in the order of the definitions, and for an interface then in the order of the types. */
  lemma {:induction false} EdgesInOrder(s: Schema, u: Name) returns (at: seq<nat>)
    requires s.Indexed(u)
    ensures match s.types[u].kind
            case Object(fields, _) => FieldsInOrder(fields, Edges(s, u))
            case Interface(fields, _) =>
              && |fields| <= |Edges(s, u)| && FieldsInOrder(fields, Edges(s, u)[..|fields|])
              && Picked(Lasting(Edges(s, u)[|fields|..]), s.typeOrder, at)
              && forall k :: 0 <= k < |s.typeOrder| ==> (k in at <==> Implements(s, s.typeOrder[k], u))
            case Union(members) => Lasting(Edges(s, u)) == members
            case _ => Edges(s, u) == []
  {
    hide FieldEdges, MemberEdges, ImplementerEdges;
    at := [];
    match s.types[u].kind {
      case Object(fields, _) => FieldEdgesInOrder(fields);
      case Interface(fields, _) =>
        FieldEdgesInOrder(fields);
        at := ImplementersInOrder(s, s.typeOrder, u);
        var implementers := ImplementerEdges(s, s.typeOrder, u);
        assert Edges(s, u) == FieldEdges(fields) + implementers;
        assert Edges(s, u)[..|fields|] == FieldEdges(fields) && Edges(s, u)[|fields|..] == implementers;
      case Union(members) => assert Lasting(MemberEdges(members)) == members by { MembersInOrder(members); }
      case _ =>
    }
  }

  ghost predicate Implements(s: Schema, t: Name, iface: Name) {
    t in s.types && s.types[t].kind.Object? && iface in s.types[t].kind.implements
  }

  ghost predicate FieldsInOrder(fields: seq<FieldDef>, es: seq<Edge>) {
    |es| == |fields| && forall i :: 0 <= i < |es| ==>
                          && es[i].field == Some(fields[i].name) && es[i].target == fields[i].ty
                          && es[i].args == ArgTypes(fields[i].args)
  }

  /** The types to which the edges lead. */
  function Lasting(es: seq<Edge>): (r: seq<Name>)
    ensures |r| == |es|
    ensures forall i :: 0 <= i < |r| ==> r[i] == es[i].target
  {
    seq(|es|, i requires 0 <= i < |es| => es[i].target)
  }

  lemma FieldEdgesInOrder(fields: seq<FieldDef>)
    ensures FieldsInOrder(fields, FieldEdges(fields))
  {
  }

  lemma MembersInOrder(members: seq<Name>)
    ensures Lasting(MemberEdges(members)) == members
  {
  }

  lemma {:induction false} ImplementersInOrder(s: Schema, order: seq<Name>, iface: Name) returns (at: seq<nat>)
    ensures Picked(Lasting(ImplementerEdges(s, order, iface)), order, at)
    ensures forall k :: 0 <= k < |order| ==> (k in at <==> Implements(s, order[k], iface))
  {
    hide Implements, Picked, ImplementerEdges;
    ImplementersStep(s, order, iface);
    if order == [] {
      at := [];
      NothingPicked(order);
    } else {
      var rest := Lasting(ImplementerEdges(s, order[1..], iface));
      var below := ImplementersInOrder(s, order[1..], iface);
      var up: seq<nat> := seq(|below|, i requires 0 <= i < |below| => below[i] + 1);
      PickedBehind(rest, order, below, up);
      OneUp(below, up);
      at := if Implements(s, order[0], iface) then [0] + up else up;
      forall k | 0 <= k < |order|
        ensures k in at <==> Implements(s, order[k], iface)
      {
        assert k > 0 ==> order[1..][k - 1] == order[k];
      }
    }
  }

  lemma NothingPicked(all: seq<Name>)
    ensures Picked([], all, [])
  {
  }

  lemma ImplementersStep(s: Schema, order: seq<Name>, iface: Name)
    ensures order == [] ==> Lasting(ImplementerEdges(s, order, iface)) == []
    ensures order != [] ==>
              var rest := Lasting(ImplementerEdges(s, order[1..], iface));
              Lasting(ImplementerEdges(s, order, iface))
              == if Implements(s, order[0], iface) then [order[0]] + rest else rest
  {
  }

  lemma OneUp(below: seq<nat>, up: seq<nat>)
    requires |up| == |below| && forall i :: 0 <= i < |up| ==> up[i] == below[i] + 1
    ensures forall k :: k in up <==> k > 0 && k - 1 in below
  {
    forall k | k > 0 && k - 1 in below
      ensures k in up
    {
      var i :| 0 <= i < |below| && below[i] == k - 1;
      assert up[i] == k;
    }
  }

  lemma PickedBehind(kept: seq<Name>, all: seq<Name>, below: seq<nat>, up: seq<nat>)
    requires all != [] && Picked(kept, all[1..], below)
    requires |up| == |below| && forall i :: 0 <= i < |up| ==> up[i] == below[i] + 1
    ensures Picked(kept, all, up) && Picked([all[0]] + kept, all, [0] + up)
  {
  }

  // ---------- Reaching a type ----------

  lemma EdgeIffFollows(s: Schema, u: Name, t: Name)
    requires s.WellFormed()
    ensures HasEdge(s, u, t) <==> Follows(s, u, t)
  {
    hide Edges, Leads, Schema.WellFormed;
    if HasEdge(s, u, t) {
      var e :| e in Edges(s, u) && e.target == t;
      EdgeIffLeads(s, u, e);
    }
    if Follows(s, u, t) {
      var field, args :| Leads(s, u, field, args, t);
      EdgeIffLeads(s, u, Edge(field, args, t));
    }
  }

  /** The roots of the walk are the root types of the requested operation types. */
  lemma RootsAreRequested(s: Schema, requested: set<OperationType>, r: Name)
    ensures r in Traverse.RootTypes(s, requested) <==> exists op :: op in requested && op in s.roots && s.roots[op] == r
  {
    forall op | op in requested && op in s.roots && s.roots[op] == r
      ensures r in Traverse.RootTypes(s, requested)
    {
      match op
      case Query => assert r in Traverse.RootType(s, requested, Query);
      case Mutation => assert r in Traverse.RootType(s, requested, Mutation);
      case Subscription => assert r in Traverse.RootType(s, requested, Subscription);
    }
  }

  lemma {:induction false} ChainIffWay(s: Schema, requested: set<OperationType>, ts: seq<Name>)
    requires s.WellFormed() && ts != []
    ensures Chain(s, Traverse.RootTypes(s, requested), ts) <==> Way(s, requested, ts)
    decreases |ts|
  {
    hide Traverse.RootTypes, HasEdge, Follows, Schema.WellFormed;
    RootsAreRequested(s, requested, ts[0]);
    if |ts| > 1 {
      var front := ts[..|ts| - 1];
      ChainIffWay(s, requested, front);
      EdgeIffFollows(s, ts[|ts| - 2], ts[|ts| - 1]);
      assert forall i :: 0 <= i < |front| ==> front[i] == ts[i];
    }
  }

  lemma ReachableIffReached(s: Schema, requested: set<OperationType>, t: Name)
    requires s.WellFormed()
    ensures Reachable(s, Traverse.RootTypes(s, requested), t) <==> Reached(s, requested, t)
  {
    hide Traverse.RootTypes, Chain, Way, Schema.WellFormed;
    forall ts: seq<Name> | ts != []
      ensures Chain(s, Traverse.RootTypes(s, requested), ts) <==> Way(s, requested, ts)
    {
      ChainIffWay(s, requested, ts);
    }
    NoneIsEmpty(s, requested);
  }

  lemma NoneIsEmpty(s: Schema, requested: set<OperationType>)
    ensures !Chain(s, Traverse.RootTypes(s, requested), []) && !Way(s, requested, [])
  {
  }

  // ---------- What the walk yields ----------

  /** The types at which yielded paths end are exactly those that are defined, not built in, and reached from the root
      types of the requested operation types. */
  lemma YieldsReached(s: Schema, requested: set<OperationType>, r: Run, t: Name)
    requires s.WellFormed() && Done(s, Traverse.RootTypes(s, requested), r)
    ensures (exists p :: p in Yielded(s, r.popped) && p.Last() == t)
       <==> t in s.types && !s.types[t].builtIn && Reached(s, requested, t)
  {
    hide Done, Reachable, Reached, Traverse.RootTypes, Yielded, PathNode.Types, Schema.WellFormed;
    YieldsReachableTypes(s, Traverse.RootTypes(s, requested), r, t);
    ReachableIffReached(s, requested, t);
  }

  lemma StepLeads(s: Schema, st: Step)
    requires IsEdge(s, st)
    ensures Leads(s, st.from, st.field, st.args, st.to)
  {
    hide Edges, Leads;
    EdgeLeads(s, st.from, Edge(st.field, st.args, st.to));
  }

  /** Every step of a path from a root is one of the ways in which its start leads to its end. */
  lemma StepIffLeads(s: Schema, st: Step)
    requires s.WellFormed()
    ensures IsEdge(s, st) <==> Leads(s, st.from, st.field, st.args, st.to)
  {
    hide Edges, Leads, Schema.WellFormed;
    EdgeIffLeads(s, st.from, Edge(st.field, st.args, st.to));
  }

  /** Nothing is yielded but paths from a requested root along such steps, to a type that is defined and not built in,
      without a repeated type. */
  lemma YieldsPaths(s: Schema, requested: set<OperationType>, r: Run, p: PathNode)
    requires s.WellFormed() && Done(s, Traverse.RootTypes(s, requested), r) && p in Yielded(s, r.popped)
    ensures exists op :: op in requested && op in s.roots && s.roots[op] == p.nodeType
    ensures forall i :: 0 <= i < |p.Steps()| ==>
              var st := p.Steps()[i]; Leads(s, st.from, st.field, st.args, st.to)
    ensures p.Last() in s.types && !s.types[p.Last()].builtIn && Distinct(p.Types())
  {
    hide Traverse.RootTypes, Leads, Edges, Chained, Ordered, Expanded, Conserved, PathNode.HasCycle, Schema.WellFormed;
    hide PathNode.Types, PathNode.Steps;
    RootsAreRequested(s, requested, p.nodeType);
    HasCycleIffRepeats(p);
    assert FromRoot(s, Traverse.RootTypes(s, requested), p);
    forall i | 0 <= i < |p.Steps()|
      ensures var st := p.Steps()[i]; Leads(s, st.from, st.field, st.args, st.to)
    {
      StepIffLeads(s, p.Steps()[i]);
    }
  }

  /** In a schema without repeated names, each way in which a reached type leads to another ends exactly one yielded
      path, unless the other is on the first path to the type, or is not defined, or is built in. */
  lemma {:induction false} LeadYieldsOnePath(
    s: Schema, requested: set<OperationType>, r: Run, u: Name, field: Option<Name>, args: seq<Name>, t: Name)
    returns (p: PathNode)
    requires s.WellFormed() && NamesDiffer(s) && Done(s, Traverse.RootTypes(s, requested), r)
    requires Reached(s, requested, u) && Leads(s, u, field, args, t)
    ensures p in r.expanded && p.Last() == u && p in Yielded(s, r.popped)
    ensures EndingIn(Yielded(s, r.popped), Step(u, field, args, t))
         == if t in p.Types() || t !in s.types || s.types[t].builtIn then 0 else 1
  {
    hide Done, Reachable, Reached, Traverse.RootTypes, Yielded, PathNode.Types, Schema.WellFormed, Edges, NamesDiffer;
    hide FromRoot;
    var roots := Traverse.RootTypes(s, requested);
    ReachableIffReached(s, requested, u);
    var e := Edge(field, args, t);
    EdgeIffLeads(s, u, e);
    LeadsIndexed(s, u, field, args, t);
    var i :| 0 <= i < |Edges(s, u)| && Edges(s, u)[i] == e;
    p := EdgeYieldsOnePath(s, roots, r, u, i);
    ExpandedIsIndexed(s, roots, r, p);
  }

  lemma LeadsIndexed(s: Schema, u: Name, field: Option<Name>, args: seq<Name>, t: Name)
    requires Leads(s, u, field, args, t)
    ensures s.Indexed(u)
  {
  }
}

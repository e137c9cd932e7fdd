/** Which paths the walk yields for the edges of the schema, counted (crates/apollo-schema-index/src/traverse.rs). */
module EdgePaths {
  import opened GraphQL
  import opened Sequences
  import opened Paths
  import opened Walk

  // ---------- Expanded paths ----------

  lemma InLasts(paths: seq<PathNode>, p: PathNode)
    requires p in paths
    ensures p.Last() in Lasts(paths)
  {
    var i :| 0 <= i < |paths| && paths[i] == p;
    assert Lasts(paths)[i] == p.Last();
  }

  lemma OnlyOneExpanded(expanded: seq<PathNode>, p: PathNode, q: PathNode)
    requires Distinct(Lasts(expanded)) && p in expanded && q in expanded && p.Last() == q.Last()
    ensures p == q
  {
    var i :| 0 <= i < |expanded| && expanded[i] == p;
    var j :| 0 <= j < |expanded| && expanded[j] == q;
    assert Lasts(expanded)[i] == Lasts(expanded)[j];
  }

  lemma AfterIsDone(s: Schema, roots: seq<Name>, n: nat)
    requires After(s, roots, n).stack == []
    ensures Done(s, roots, After(s, roots, n))
  {
    hide After, Inv;
    AfterKeeps(s, roots, n);
  }

  lemma ExpandedIsIndexed(s: Schema, roots: seq<Name>, r: Run, p: PathNode)
    requires Done(s, roots, r) && p in r.expanded
    ensures s.Indexed(p.Last()) && FromRoot(s, roots, p) && p in Yielded(s, r.popped) && Distinct(Lasts(r.expanded))
  {
    hide Ordered, Conserved, Chained, FromRoot, PathNode.HasCycle;
    InLasts(r.expanded, p);
  }

  /** Every indexed type that can be reached is expanded, by a path from a root. */
  lemma ReachedIsExpanded(s: Schema, roots: seq<Name>, r: Run, t: Name) returns (p: PathNode)
    requires Done(s, roots, r) && Reachable(s, roots, t) && s.Indexed(t)
    ensures p in r.expanded && p.Last() == t && FromRoot(s, roots, p)
  {
    hide Ordered, Conserved, Chained, FromRoot, Reachable, PathNode.HasCycle;
    DoneIsClosed(s, roots, r);
    ReachableVisited(s, roots, r.visited, t);
    assert t in Lasts(r.expanded);
    var i :| 0 <= i < |r.expanded| && Lasts(r.expanded)[i] == t;
    p := r.expanded[i];
  }

  // ---------- The parent of a path ----------

  /** Every popped path but a root was pushed by the expanded path above it. */
  lemma {:induction false} PushedByParent(s: Schema, roots: seq<Name>, expanded: seq<PathNode>, x: Entry)
    requires x in Pushed(s, roots, expanded)
    ensures x in RootEntries(roots) || exists q, e :: q in expanded && e in Edges(s, q.Last()) && x == Child(q, e)
  {
    hide Edges, RootEntries;
    if expanded != [] {
      var n := |expanded| - 1;
      var q := expanded[n];
      if x in Pushed(s, roots, expanded[..n]) {
        PushedByParent(s, roots, expanded[..n], x);
      } else {
        var i :| 0 <= i < |Children(s, q)| && Children(s, q)[i] == x;
        assert Edges(s, q.Last())[i] in Edges(s, q.Last()) && x == Child(q, Edges(s, q.Last())[i]);
      }
    }
  }

  lemma ParentWasExpanded(s: Schema, roots: seq<Name>, r: Run, p: PathNode) returns (q: PathNode, e: Edge)
    requires Done(s, roots, r) && p in r.popped && p.Len() > 1
    ensures q in r.expanded && e in Edges(s, q.Last()) && p == Child(q, e).1
  {
    hide Edges, PathsOk, Ordered, Expanded, Chained;
    var all := Pushed(s, roots, r.expanded);
    assert PathsOf([]) == [];
    assert p in multiset(r.popped);
    assert p in multiset(PathsOf(all));
    var i :| 0 <= i < |all| && PathsOf(all)[i] == p;
    PushedByParent(s, roots, r.expanded, all[i]);
    if all[i] in RootEntries(roots) {
      RootsAreShort(roots, all[i]);
    }
    q, e :| q in r.expanded && e in Edges(s, q.Last()) && all[i] == Child(q, e);
  }

  lemma RootsAreShort(roots: seq<Name>, x: Entry)
    requires x in RootEntries(roots)
    ensures x.1.Len() == 1
  {
  }

  // ---------- Counting the paths of an edge ----------

  /** The last step of the path is this one. */
  predicate EndsIn(p: PathNode, st: Step) {
    p.Len() > 1 && p.Steps()[p.Len() - 2] == st
  }

  function EndingIn(paths: seq<PathNode>, st: Step): nat {
    if paths == [] then 0 else
    EndingIn(paths[..|paths| - 1], st) + if EndsIn(paths[|paths| - 1], st) then 1 else 0
  }

  function StepOf(t: Name, e: Edge): Step {
    Step(t, e.field, e.args, e.target)
  }

  lemma ChildEndsIn(p: PathNode, e: Edge)
    ensures forall st :: EndsIn(Child(p, e).1, st) <==> st == StepOf(p.Last(), e)
  {
    AddChildExtends(p, e.field, e.args, e.target);
  }

  lemma {:induction false} CountIsMultiplicity(paths: seq<PathNode>, st: Step, x: PathNode)
    requires forall q :: q in paths ==> (EndsIn(q, st) <==> q == x)
    ensures EndingIn(paths, st) == multiset(paths)[x]
  {
    hide EndsIn;
    if paths != [] {
      var n := |paths| - 1;
      CountIsMultiplicity(paths[..n], st, x);
      assert paths == paths[..n] + [paths[n]];
    }
  }

  function ChildPaths(p: PathNode, es: seq<Edge>): (r: seq<PathNode>)
    ensures |r| == |es|
    ensures forall i :: 0 <= i < |es| ==> r[i] == Child(p, es[i]).1
  {
    seq(|es|, i requires 0 <= i < |es| => Child(p, es[i]).1)
  }

  /** The children of one path count like the edges they are pushed for. */
  lemma {:induction false} ChildrenCount(p: PathNode, es: seq<Edge>, t: Name, e: Edge, x: PathNode)
    requires EndsIn(x, StepOf(t, e)) && (p.Last() == t ==> x == Child(p, e).1)
    ensures multiset(ChildPaths(p, es))[x] == if p.Last() == t then multiset(es)[e] else 0
  {
    hide EndsIn, Child;
    if es != [] {
      var n := |es| - 1;
      ChildrenCount(p, es[..n], t, e, x);
      assert ChildPaths(p, es) == ChildPaths(p, es[..n]) + [Child(p, es[n]).1];
      assert es == es[..n] + [es[n]];
      ChildEndsIn(p, es[n]);
      assert StepOf(p.Last(), es[n]) == StepOf(t, e) <==> p.Last() == t && es[n] == e;
    }
  }

  lemma {:induction false} PushedCountOf(
    s: Schema, roots: seq<Name>, expanded: seq<PathNode>, t: Name, e: Edge, x: PathNode)
    requires EndsIn(x, StepOf(t, e)) && Distinct(Lasts(expanded))
    requires forall q :: q in expanded && q.Last() == t ==> x == Child(q, e).1
    ensures multiset(PathsOf(Pushed(s, roots, expanded)))[x]
         == if t in Lasts(expanded) then multiset(Edges(s, t))[e] else 0
  {
    hide Edges, Child;
    if expanded == [] {
      forall i | 0 <= i < |roots|
        ensures PathsOf(RootEntries(roots))[i] != x
      {
        RootsAreShort(roots, RootEntries(roots)[i]);
      }
    } else {
      var n := |expanded| - 1;
      var q := expanded[n];
      assert Lasts(expanded) == Lasts(expanded[..n]) + [q.Last()];
      assert Lasts(expanded[..n]) == Lasts(expanded)[..n];
      PushedCountOf(s, roots, expanded[..n], t, e, x);
      ChildrenCount(q, Edges(s, q.Last()), t, e, x);
      PathsOfAppend(Pushed(s, roots, expanded[..n]), Children(s, q));
      assert PathsOf(Children(s, q)) == ChildPaths(q, Edges(s, q.Last()));
      LastIsNew(expanded);
    }
  }

  lemma LastIsNew(expanded: seq<PathNode>)
    requires expanded != [] && Distinct(Lasts(expanded))
    ensures expanded[|expanded| - 1].Last() !in Lasts(expanded[..|expanded| - 1])
  {
    var n := |expanded| - 1;
    assert forall i :: 0 <= i < n ==> Lasts(expanded[..n])[i] == Lasts(expanded)[i];
  }

  /** Each edge out of a reachable indexed type ends as many yielded paths as the type has that edge, or none: a back
      edge, whose target is on the first path to the type, and an edge to a type that is not indexed yield no path. */
  lemma {:induction false} EdgeYieldsItsPaths(
    s: Schema, roots: seq<Name>, r: Run, t: Name, i: nat) returns (p: PathNode)
    requires Done(s, roots, r) && Reachable(s, roots, t) && s.Indexed(t) && i < |Edges(s, t)|
    ensures p in r.expanded && p.Last() == t && FromRoot(s, roots, p)
    ensures var e := Edges(s, t)[i];
            EndingIn(Yielded(s, r.popped), StepOf(t, e)) ==
            if e.target in p.Types() || !s.Indexed(e.target) then 0 else multiset(Edges(s, t))[e]
  {
    hide Reachable, Edges, FromRoot, PathsOk, Ordered, Chained, PathNode.HasCycle, Child, EndsIn, PathNode.Types;
    p := ReachedIsExpanded(s, roots, r, t);
    var e := Edges(s, t)[i];
    var x := Child(p, e).1;
    ChildEndsIn(p, e);
    forall q | q in Yielded(s, r.popped) && EndsIn(q, StepOf(t, e))
      ensures q == x
    {
      OnlyChildEndsIn(s, roots, r, p, e, q);
    }
    CountIsMultiplicity(Yielded(s, r.popped), StepOf(t, e), x);
    YieldedCount(s, r.popped, x);
    forall q | q in r.expanded && q.Last() == t
      ensures x == Child(q, e).1
    {
      OnlyOneExpanded(r.expanded, q, p);
    }
    PushedCountOf(s, roots, r.expanded, t, e, x);
    InLasts(r.expanded, p);
    assert PathsOf([]) == [];
    EdgeDroppedIffBack(s, roots, r, p, e);
    assert e in multiset(Edges(s, t));
  }

  lemma OnlyChildEndsIn(s: Schema, roots: seq<Name>, r: Run, p: PathNode, e: Edge, q: PathNode)
    requires Done(s, roots, r) && p in r.expanded && q in r.popped && EndsIn(q, StepOf(p.Last(), e))
    ensures q == Child(p, e).1
  {
    hide Edges, PathsOk, Ordered, Chained, Conserved, Child;
    var above, e' := ParentWasExpanded(s, roots, r, q);
    ChildEndsIn(above, e');
    assert StepOf(above.Last(), e') == StepOf(p.Last(), e);
    OnlyOneExpanded(r.expanded, above, p);
  }

  // ---------- The edges of a schema without repeated names ----------

  /** Fields of one type have different names, and a union has each member once: section 3 of the GraphQL specification
      (October 2021). */
  ghost predicate NamesDiffer(s: Schema) {
    forall t :: t in s.types ==> KindNamesDiffer(s.types[t].kind)
  }

  ghost predicate KindNamesDiffer(kind: TypeKind) {
    match kind
    case Object(fields, _) => forall i, j :: 0 <= i < j < |fields| ==> fields[i].name != fields[j].name
    case Interface(fields, _) => forall i, j :: 0 <= i < j < |fields| ==> fields[i].name != fields[j].name
    case Union(members) => Distinct(members)
    case _ => true
  }

  lemma {:induction false} ImplementersDiffer(s: Schema, order: seq<Name>, iface: Name)
    requires Distinct(order)
    ensures Distinct(ImplementerEdges(s, order, iface))
    ensures forall e :: e in ImplementerEdges(s, order, iface) ==> e.field == None && e.target in order
  {
    if order != [] {
      ImplementersDiffer(s, order[1..], iface);
    }
  }

  lemma EdgesDiffer(s: Schema, t: Name)
    requires s.WellFormed() && NamesDiffer(s)
    ensures Distinct(Edges(s, t))
  {
    ImplementersDiffer(s, s.typeOrder, t);
  }

  /** In such a schema each edge that is no back edge ends exactly one yielded path. */
  lemma {:induction false} EdgeYieldsOnePath(s: Schema, roots: seq<Name>, r: Run, t: Name, i: nat) returns (p: PathNode)
    requires s.WellFormed() && NamesDiffer(s)
    requires Done(s, roots, r) && Reachable(s, roots, t) && s.Indexed(t) && i < |Edges(s, t)|
    ensures p in r.expanded && p.Last() == t && FromRoot(s, roots, p)
    ensures var e := Edges(s, t)[i];
            EndingIn(Yielded(s, r.popped), StepOf(t, e))
            == if e.target in p.Types() || !s.Indexed(e.target) then 0 else 1
  {
    hide Reachable, Edges, FromRoot, Done, EndingIn, Yielded, PathNode.Types, NamesDiffer;
    p := EdgeYieldsItsPaths(s, roots, r, t, i);
    EdgesDiffer(s, t);
    OnceInDistinct(Edges(s, t), i);
  }

  lemma {:induction false} OnceInDistinct(es: seq<Edge>, i: nat)
    requires Distinct(es) && i < |es|
    ensures multiset(es)[es[i]] == 1
  {
    var n := |es| - 1;
    assert es == es[..n] + [es[n]];
    if i < n {
      OnceInDistinct(es[..n], i);
    } else {
      assert es[n] !in es[..n];
      assert es[n] !in multiset(es[..n]);
    }
  }
}

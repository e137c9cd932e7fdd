/** When the first path found is a shortest one among the recorded paths from the requested roots, as a condition on the
    schema, for the operation types that the search tool asks for: queries, and queries with mutations
    (crates/apollo-mcp-server/src/introspection/tools/search.rs). */
module RootOrder {
  import opened GraphQL
  import opened Sequences
  import opened Paths
  import opened Walk
  import opened Indexing
  import opened RootPaths
  import opened EdgePaths
  import Traverse

  // ---------- The query type is walked first ----------

  /** The same state with one more entry at the bottom of the stack. */
  function Above(x: Entry, r: Run): Run {
    r.(stack := [x] + r.stack)
  }

  lemma PopAbove(s: Schema, x: Entry, r: Run)
    requires r.stack != []
    ensures Pop(s, Above(x, r)) == Above(x, Pop(s, r))
  {
    hide PathNode.HasCycle, Children;
    var top, rest := r.stack[|r.stack| - 1], r.stack[..|r.stack| - 1];
    var all := [x] + r.stack;
    assert all[|all| - 1] == top && all[..|all| - 1] == [x] + rest;
    assert OpenStart(Above(x, r)) == OpenStart(r);
    assert [x] + rest + Children(s, top.1) == [x] + (rest + Children(s, top.1));
  }

  /** As long as the walk from the query type alone goes on, the walk from both roots does the same above the entry of
      the mutation type. */
  lemma {:induction false} QueryFirst(s: Schema, m: Name, q: Name, n: nat)
    requires Live(s, [q], n)
    ensures After(s, [m, q], n) == Above((m, New(m)), After(s, [q], n))
  {
    hide Pop;
    if n == 0 {
      assert RootEntries([m, q]) == [(m, New(m))] + RootEntries([q]);
    } else {
      QueryFirst(s, m, q, n - 1);
      assert After(s, [q], n - 1).stack != [];
      PopAbove(s, (m, New(m)), After(s, [q], n - 1));
    }
  }

  lemma PopGrows(s: Schema, r: Run)
    requires r.stack != []
    ensures r.expanded <= Pop(s, r).expanded
  {
    hide PathNode.HasCycle, PathNode.Last, Children, Insert, OpenStart;
  }

  lemma {:induction false} ExpandedGrows(s: Schema, roots: seq<Name>, n: nat, k: nat)
    requires n <= k
    ensures After(s, roots, n).expanded <= After(s, roots, k).expanded
  {
    hide Pop;
    if n < k {
      ExpandedGrows(s, roots, n, k - 1);
      var r := After(s, roots, k - 1);
      if r.stack != [] {
        PopGrows(s, r);
      }
    }
  }

  /** What can be reached from the query type was first reached from there. */
  lemma {:induction false} FirstReachedFromQuery(s: Schema, m: Name, q: Name, n: nat, p: PathNode)
    requires s.WellFormed() && After(s, [m, q], n).stack == []
    requires p in After(s, [m, q], n).expanded && Reachable(s, [q], p.Last())
    ensures p.nodeType == q
  {
    hide After, Reachable, Done, Live, Inv;
    AfterIsDone(s, [m, q], n);
    var n0 := WalkEnds(s, [q]);
    AfterIsDone(s, [q], n0);
    ExpandedIsIndexed(s, [m, q], After(s, [m, q], n), p);
    var p0 := ReachedIsExpanded(s, [q], After(s, [q], n0), p.Last());
    QueryFirst(s, m, q, n0);
    EndsLater(s, m, q, n, n0);
    ExpandedGrows(s, [m, q], n0, n);
    assert p0 in After(s, [m, q], n0).expanded;
    assert p0 in After(s, [m, q], n).expanded;
    ExpandedIsIndexed(s, [m, q], After(s, [m, q], n), p0);
    OnlyOneExpanded(After(s, [m, q], n).expanded, p0, p);
  }

  lemma EndsLater(s: Schema, m: Name, q: Name, n: nat, n0: nat)
    requires After(s, [m, q], n).stack == [] && Live(s, [q], n0)
    ensures n0 <= n
  {
    hide After;
    if n < n0 {
      assert Live(s, [q], n);
      QueryFirst(s, m, q, n);
    }
  }

  // ---------- Paths ----------

  lemma PathEdge(s: Schema, roots: seq<Name>, p: PathNode, i: nat)
    requires FromRoot(s, roots, p) && i < p.Len() - 1
    ensures HasEdge(s, p.Types()[i], p.Types()[i + 1])
  {
    hide Edges;
    StepsJoinTypes(p);
    assert IsEdge(s, p.Steps()[i]);
  }

  lemma {:induction false} EdgesMakeChain(s: Schema, ts: seq<Name>, n: nat)
    requires 1 <= n <= |ts| && forall i :: 0 <= i < |ts| - 1 ==> HasEdge(s, ts[i], ts[i + 1])
    ensures Chain(s, [ts[0]], ts[..n])
  {
    hide HasEdge;
    if n > 1 {
      EdgesMakeChain(s, ts, n - 1);
      assert ts[..n][..n - 1] == ts[..n - 1];
      assert ts[..n][n - 2] == ts[n - 2] && ts[..n][n - 1] == ts[n - 1];
    }
  }

  /** The last type of a path is reachable from every type on it. */
  lemma LastIsReachable(s: Schema, roots: seq<Name>, p: PathNode, t: Name)
    requires FromRoot(s, roots, p) && t in p.Types()
    ensures Reachable(s, [t], p.Last())
  {
    hide Chain, FromRoot, HasEdge, PathNode.Types;
    var types := p.Types();
    var k :| 0 <= k < |types| && types[k] == t;
    var ts := types[k..];
    forall i | 0 <= i < |ts| - 1
      ensures HasEdge(s, ts[i], ts[i + 1])
    {
      PathEdge(s, roots, p, k + i);
      assert ts[i] == types[k + i] && ts[i + 1] == types[k + i + 1];
    }
    EdgesMakeChain(s, ts, |ts|);
    LastIsLast(p);
    assert ts[..|ts|] == ts;
  }

  lemma {:induction false} MoreRoots(s: Schema, some: seq<Name>, all: seq<Name>, ts: seq<Name>)
    requires Chain(s, some, ts) && forall r :: r in some ==> r in all
    ensures Chain(s, all, ts)
    decreases |ts|
  {
    if |ts| > 1 {
      MoreRoots(s, some, all, ts[..|ts| - 1]);
    }
  }

  lemma ReachableFromMore(s: Schema, some: seq<Name>, all: seq<Name>, t: Name)
    requires Reachable(s, some, t) && forall r :: r in some ==> r in all
    ensures Reachable(s, all, t)
  {
    var ts :| Chain(s, some, ts) && ts[|ts| - 1] == t;
    MoreRoots(s, some, all, ts);
  }

  // ---------- When a root is referenced ----------

  ghost predicate IsReferred(s: Schema, r: Run, t: Name) {
    exists p :: p in Yielded(s, r.popped) && p.Last() == t && p.Len() > 1
  }

  lemma ReferredIff(s: Schema, r: Run, t: Name)
    requires t in IndexOf(Yielded(s, r.popped))
    ensures IndexOf(Yielded(s, r.popped))[t] != [] <==> IsReferred(s, r, t)
  {
    hide Yielded, IndexOf;
    var paths := Yielded(s, r.popped);
    IndexOfHolds(paths);
    if IndexOf(paths)[t] != [] {
      var e := IndexOf(paths)[t][0];
      assert e in IndexOf(paths)[t];
      var p :| p in paths && HasReference(p, t, e);
      ReferencingTypeIsLastStep(p);
    }
  }

  /** A yielded path to a root starts at another one. */
  lemma StartsElsewhere(s: Schema, roots: seq<Name>, r: Run, p: PathNode)
    requires Done(s, roots, r) && p in Yielded(s, r.popped) && p.Len() > 1
    ensures FromRoot(s, roots, p) && p.nodeType != p.Last() && p.nodeType in p.Types()
  {
    hide Ordered, Conserved, Chained, Expanded;
    HasCycleIffRepeats(p);
    LastIsLast(p);
    assert p.Types()[0] == p.nodeType;
  }

  lemma {:induction false} MutationReferredIff(s: Schema, m: Name, q: Name, n: nat)
    requires s.WellFormed() && After(s, [m, q], n).stack == [] && m != q && s.Indexed(m)
    ensures IsReferred(s, After(s, [m, q], n), m) <==> Reachable(s, [q], m)
  {
    hide After, Reachable, Done, Yielded;
    var r := After(s, [m, q], n);
    AfterIsDone(s, [m, q], n);
    if IsReferred(s, r, m) {
      var p :| p in Yielded(s, r.popped) && p.Last() == m && p.Len() > 1;
      StartsElsewhere(s, [m, q], r, p);
      LastIsReachable(s, [m, q], p, q);
    }
    if Reachable(s, [q], m) {
      RootIsReachable(s, [m, q], m);
      var p := ReachedIsExpanded(s, [m, q], r, m);
      FirstReachedFromQuery(s, m, q, n, p);
      ExpandedIsIndexed(s, [m, q], r, p);
    }
  }

  lemma RootIsReachable(s: Schema, roots: seq<Name>, t: Name)
    requires t in roots
    ensures Reachable(s, roots, t)
  {
    assert Chain(s, roots, [t]) && [t][|[t]| - 1] == t;
  }

  /** A type that leads back to the query type, and is reached from the mutation type alone. */
  ghost predicate LeadsBack(s: Schema, m: Name, q: Name, u: Name) {
    Reachable(s, [m], u) && !Reachable(s, [q], u) && HasEdge(s, u, q)
  }

  lemma {:induction false} QueryReferredOnlyIf(s: Schema, m: Name, q: Name, n: nat)
    requires s.WellFormed() && After(s, [m, q], n).stack == [] && m != q
    requires IsReferred(s, After(s, [m, q], n), q)
    ensures exists u :: LeadsBack(s, m, q, u)
  {
    hide After, Reachable, Done, Yielded, Edges;
    var r := After(s, [m, q], n);
    AfterIsDone(s, [m, q], n);
    var p :| p in Yielded(s, r.popped) && p.Last() == q && p.Len() > 1;
    StartsElsewhere(s, [m, q], r, p);
    var above, e := ParentWasExpanded(s, [m, q], r, p);
    ChildLast(above, e);
    ExpandedIsIndexed(s, [m, q], r, above);
    assert above.Types()[0] == m;
    LastIsReachable(s, [m, q], above, m);
    if Reachable(s, [q], above.Last()) {
      FirstReachedFromQuery(s, m, q, n, above);
    }
    assert LeadsBack(s, m, q, above.Last());
  }

  lemma {:induction false} QueryReferredIf(s: Schema, m: Name, q: Name, n: nat, u: Name)
    requires s.WellFormed() && After(s, [m, q], n).stack == [] && s.Indexed(q) && LeadsBack(s, m, q, u)
    ensures IsReferred(s, After(s, [m, q], n), q)
  {
    hide After, Done, Yielded, Edges, PathNode.Types, Reachable;
    var r := After(s, [m, q], n);
    AfterIsDone(s, [m, q], n);
    ReachableFromMore(s, [m], [m, q], u);
    var p := ReachedIsExpanded(s, [m, q], r, u);
    if q in p.Types() {
      LastIsReachable(s, [m, q], p, q);
    }
    var e :| e in Edges(s, u) && e.target == q;
    EdgeDroppedIffBack(s, [m, q], r, p, e);
    ChildLast(p, e);
    ChildIsLonger(p, e);
  }

  lemma ChildIsLonger(p: PathNode, e: Edge)
    ensures Child(p, e).1.Len() > 1
  {
    AddChildExtends(p, e.field, e.args, e.target);
  }

  // ---------- The condition on the schema ----------

  /** Asked for queries and mutations, the index refers to no root exactly when the mutation type cannot be reached from
      the query type, and nothing that is reached from the mutation type alone leads back to the query type. */
  lemma {:induction false} RootsUnreferencedIff(s: Schema, m: Name, q: Name, index: Index)
    requires s.WellFormed() && IsIndexOf(s, [m, q], index) && m != q && s.Indexed(m) && s.Indexed(q)
    ensures RootsUnreferenced([m, q], index) <==> !Reachable(s, [q], m) && forall u :: !LeadsBack(s, m, q, u)
  {
    hide After, Reachable, Yielded, LeadsBack, IndexOf, IsReferred, Done;
    var n: nat :| After(s, [m, q], n).stack == [] && index == IndexOf(Yielded(s, After(s, [m, q], n).popped));
    var r := After(s, [m, q], n);
    RootInIndex(s, [m, q], index, m);
    RootInIndex(s, [m, q], index, q);
    ReferredIff(s, r, m);
    ReferredIff(s, r, q);
    MutationReferredIff(s, m, q, n);
    if IsReferred(s, r, q) {
      QueryReferredOnlyIf(s, m, q, n);
    }
    if u :| LeadsBack(s, m, q, u) {
      QueryReferredIf(s, m, q, n, u);
    }
  }

  lemma RootInIndex(s: Schema, roots: seq<Name>, index: Index, t: Name)
    requires IsIndexOf(s, roots, index) && t in roots && s.Indexed(t)
    ensures t in index
  {
    hide IsIndexOf, Reachable;
    IndexHoldsReachableTypes(s, roots, index, t);
    RootIsReachable(s, roots, t);
  }

  /** Asked for queries alone, the first path found is always a shortest recorded one from the root. */
  lemma {:induction false} QueriesAreShortest(s: Schema, index: Index)
    requires LegalNames(s) && Query in s.roots && IsIndexOf(s, Traverse.RootTypes(s, {Query}), index)
    ensures FirstIsShortestFromRoots(s, Traverse.RootTypes(s, {Query}), index)
  {
    hide LegalNames, IsIndexOf, FirstIsShortestFromRoots;
    var q := s.roots[Query];
    assert Traverse.RootTypes(s, {Query}) == [q];
    if q in index {
      OnlyRootIsUnreferenced(s, q, index);
    }
    ShortestFromRootsIff(s, [q], index);
  }

  /** Asked for queries and mutations, it is a shortest recorded one exactly when that holds of the schema. */
  lemma {:induction false} MutationsAreShortestIff(s: Schema, index: Index)
    requires s.WellFormed() && LegalNames(s) && Query in s.roots && Mutation in s.roots
    requires s.roots[Query] != s.roots[Mutation] && s.Indexed(s.roots[Query]) && s.Indexed(s.roots[Mutation])
    requires IsIndexOf(s, Traverse.RootTypes(s, {Query, Mutation}), index)
    ensures FirstIsShortestFromRoots(s, Traverse.RootTypes(s, {Query, Mutation}), index) <==>
            && !Reachable(s, [s.roots[Query]], s.roots[Mutation])
            && forall u :: !LeadsBack(s, s.roots[Mutation], s.roots[Query], u)
  {
    hide LegalNames, IsIndexOf, FirstIsShortestFromRoots, LeadsBack, Reachable, RootsUnreferenced;
    var m, q := s.roots[Mutation], s.roots[Query];
    assert Traverse.RootTypes(s, {Query, Mutation}) == [m, q];
    RootsUnreferencedIff(s, m, q, index);
    ShortestFromRootsIff(s, [m, q], index);
  }
}

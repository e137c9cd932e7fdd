/** Whether the first path that the search finds is a shortest one among all paths of the schema from a requested root
    (crates/apollo-schema-index/src/lib.rs). The index has no reference for a back edge of the walk, so a path that
    takes one is never found, however short it is. */
module SchemaPaths {
  import opened GraphQL
  import opened Sequences
  import opened Paths
  import opened Walk
  import opened References
  import opened Indexing
  import opened Upward
  import opened Search
  import opened EdgePaths
  import opened RootPaths
  import opened RootOrder
  import Traverse

  ghost predicate NoLongerInSchema(s: Schema, roots: seq<Name>, matched: Name, first: PathNode) {
    forall p :: FromRoot(s, roots, p) && p.Last() == matched ==> first.Len() <= p.Len()
  }

  /** Whatever is matched, the first path found is no longer than any path of the schema from a requested root. */
  ghost predicate FirstIsShortestInSchema(s: Schema, roots: seq<Name>, index: Index) {
    forall matched, found {:trigger Answers(s, roots, index, matched, 1, found)} ::
      matched in index && Answers(s, roots, index, matched, 1, found) ==>
        NoLongerInSchema(s, roots, matched, found[0])
  }

  // ---------- Dropped edges ----------

  function ReferenceBy(u: Name, e: Edge): string {
    Encode(Reference(u, e.field, e.args))
  }

  /** An edge between indexed types that the index does not record. */
  ghost predicate Dropped(s: Schema, index: Index, u: Name, e: Edge) {
    u in index && e in Edges(s, u) && e.target in index && ReferenceBy(u, e) !in index[e.target]
  }

  ghost predicate RootPathWithin(index: Index, t: Name, d: nat) {
    exists r :: RootPath(index, t, r) && r.Len() <= d
  }

  /** No dropped edge is a shortcut: its target has a recorded root path that is no longer than one that takes it. */
  ghost predicate NoShortcut(s: Schema, index: Index) {
    forall u, e, q :: Dropped(s, index, u, e) && RootPath(index, u, q) ==> RootPathWithin(index, e.target, q.Len() + 1)
  }

  /** The dropped edges are the back edges: those to a type on the first path to the type they leave. */
  lemma {:induction false} DroppedIffBack(s: Schema, roots: seq<Name>, n: nat, index: Index, p: PathNode, e: Edge)
    requires LegalNames(s) && After(s, roots, n).stack == []
    requires index == IndexOf(Yielded(s, After(s, roots, n).popped))
    requires p in After(s, roots, n).expanded && e in Edges(s, p.Last()) && e.target in index
    ensures Dropped(s, index, p.Last(), e) <==> e.target in p.Types()
  {
    hide After, LegalNames, Done, Edges, Yielded, IndexOf, PathNode.Types, Walk.Inv;
    var r := After(s, roots, n);
    AfterIsDone(s, roots, n);
    ExpandedIsIndexed(s, roots, r, p);
    IndexOfHolds(Yielded(s, r.popped));
    assert p.Last() in index;
    EdgeDroppedIffBack(s, roots, r, p, e);
    YieldedIsIndexed(s, r, e.target);
    RecordedIffYielded(s, roots, r, p, e);
  }

  lemma YieldedIsIndexed(s: Schema, r: Run, t: Name)
    requires t in IndexOf(Yielded(s, r.popped))
    ensures s.Indexed(t)
  {
    hide Yields;
    IndexOfHolds(Yielded(s, r.popped));
    var p :| p in Yielded(s, r.popped) && p.Last() == t;
    assert Yields(s, p) ==> s.Indexed(t) by { YieldsIndexed(s, p); }
  }

  lemma YieldsIndexed(s: Schema, p: PathNode)
    ensures Yields(s, p) ==> s.Indexed(p.Last())
  {
  }

  /** The reference of an edge is recorded exactly when the path that takes the edge is yielded. */
  lemma {:induction false} RecordedIffYielded(s: Schema, roots: seq<Name>, r: Run, p: PathNode, e: Edge)
    requires LegalNames(s) && Done(s, roots, r) && p in r.expanded && e in Edges(s, p.Last())
    requires e.target in IndexOf(Yielded(s, r.popped))
    ensures ReferenceBy(p.Last(), e) in IndexOf(Yielded(s, r.popped))[e.target] <==>
              Child(p, e).1 in Yielded(s, r.popped)
  {
    hide Edges, Done, Yielded, IndexOf, PathNode.Types, LegalNames, Encode, Decode, RecordedBy;
    var paths := Yielded(s, r.popped);
    IndexOfHolds(paths);
    ChildRecords(p, e);
    ChildLast(p, e);
    if Child(p, e).1 in paths {
      RecordsIn(paths, Child(p, e).1, ReferenceBy(p.Last(), e));
    }
    if ReferenceBy(p.Last(), e) in IndexOf(paths)[e.target] {
      var q :| q in paths && HasReference(q, e.target, ReferenceBy(p.Last(), e));
      RecordedComesFrom(s, roots, r, p, e, q);
    }
  }

  lemma ChildRecords(p: PathNode, e: Edge)
    ensures RecordedBy(Child(p, e).1) == [ReferenceBy(p.Last(), e)]
  {
    hide Encode;
    var c := Child(p, e).1;
    AddChildExtends(p, e.field, e.args, e.target);
    ReferencingTypeIsLastStep(c);
  }

  lemma {:induction false} RecordsIn(paths: seq<PathNode>, p: PathNode, e: string)
    requires p in paths && e in RecordedBy(p)
    ensures p.Last() in IndexOf(paths) && e in IndexOf(paths)[p.Last()]
  {
    hide RecordedBy;
    var n := |paths| - 1;
    assert paths == paths[..n] + [paths[n]];
    if p in paths[..n] {
      RecordsIn(paths[..n], p, e);
    }
  }

  lemma RecordedComesFrom(s: Schema, roots: seq<Name>, r: Run, p: PathNode, e: Edge, q: PathNode)
    requires LegalNames(s) && Done(s, roots, r) && p in r.expanded && e in Edges(s, p.Last())
    requires q in Yielded(s, r.popped) && HasReference(q, e.target, ReferenceBy(p.Last(), e))
    ensures q == Child(p, e).1
  {
    hide Edges, PathsOk, Ordered, Chained, Conserved, PathNode.Types, LegalNames, Encode, Decode, Child, Yields;
    ReferencingTypeIsLastStep(q);
    var above, e' := ParentWasExpanded(s, roots, r, q);
    ChildRecords(above, e');
    ChildLast(above, e');
    InLasts(r.expanded, above);
    InLasts(r.expanded, p);
    LegalReferenceBy(s, p.Last(), e);
    LegalReferenceBy(s, above.Last(), e');
    RoundTrip(Reference(p.Last(), e.field, e.args));
    RoundTrip(Reference(above.Last(), e'.field, e'.args));
    OnlyOneExpanded(r.expanded, above, p);
  }

  lemma LegalReferenceBy(s: Schema, u: Name, e: Edge)
    requires LegalNames(s) && s.Indexed(u) && e in Edges(s, u)
    ensures Legal(Reference(u, e.field, e.args))
  {
    hide Edges, IsName, LegalNames;
    LegalEdge(s, Step(u, e.field, e.args, e.target));
  }

  // ---------- Recorded paths, one edge longer ----------

  /** A recorded path goes on over a recorded edge. */
  lemma {:induction false} UpPathGoesOn(index: Index, q: PathNode, e: Edge)
    requires UpPath(index, q) && e.target in index && ReferenceBy(q.Last(), e) in index[e.target]
    requires Legal(Reference(q.Last(), e.field, e.args))
    ensures UpPath(index, Child(q, e).1)
  {
    hide Encode, Decode, Legal;
    var p := Child(q, e).1;
    match q.child
    case None =>
      RoundTrip(Reference(q.Last(), e.field, e.args));
      assert p == ParentBy(New(e.target), ReferenceBy(q.Last(), e));
    case Some(c) =>
      UpPathGoesOn(index, c, e);
      var x :| x in index[c.nodeType] && q == ParentBy(c, x);
      assert p == ParentBy(Child(c, e).1, x);
  }

  lemma ChildOfRootPath(index: Index, u: Name, q: PathNode, e: Edge)
    requires RootPath(index, u, q) && e.target in index && ReferenceBy(u, e) in index[e.target]
    requires Legal(Reference(u, e.field, e.args))
    ensures RootPathWithin(index, e.target, q.Len() + 1)
  {
    hide UpPath, Encode, Legal, PathNode.Types;
    UpPathGoesOn(index, q, e);
    ChildLast(q, e);
    ChildHasOneMore(q, e);
    assert RootPath(index, e.target, Child(q, e).1);
  }

  lemma ChildHasOneMore(q: PathNode, e: Edge)
    ensures Child(q, e).1.Len() == q.Len() + 1
  {
    AddChildExtends(q, e.field, e.args, e.target);
  }

  // ---------- The exact condition ----------

  /** Without shortcuts, every chain of types from an unreferenced root is matched by a recorded path. */
  lemma {:induction false} ChainIsMatched(s: Schema, roots: seq<Name>, index: Index, ts: seq<Name>)
    requires LegalNames(s) && IsIndexOf(s, roots, index) && RootsUnreferenced(roots, index) && NoShortcut(s, index)
    requires Chain(s, roots, ts) && ts[|ts| - 1] in index
    ensures RootPathWithin(index, ts[|ts| - 1], |ts|)
    decreases |ts|
  {
    hide LegalNames, IsIndexOf, Edges, RootPath, Encode, Legal;
    var n := |ts| - 1;
    if n == 0 {
      RootAlone(index, ts[0]);
    } else {
      var u := ts[n - 1];
      ChainInIndex(s, roots, index, ts);
      assert ts[..n][n - 1] == u;
      ChainIsMatched(s, roots, index, ts[..n]);
      var q :| RootPath(index, u, q) && q.Len() <= n;
      var e :| e in Edges(s, u) && e.target == ts[n];
      LegalReferenceBy(s, u, e);
      if ReferenceBy(u, e) in index[e.target] {
        ChildOfRootPath(index, u, q, e);
      } else {
        assert Dropped(s, index, u, e);
      }
      var r :| RootPath(index, e.target, r) && r.Len() <= q.Len() + 1;
    }
  }

  lemma RootAlone(index: Index, r: Name)
    requires r in index && index[r] == []
    ensures RootPathWithin(index, r, 1)
  {
    assert RootPath(index, r, New(r)) && New(r).Len() == 1;
  }

  lemma ChainInIndex(s: Schema, roots: seq<Name>, index: Index, ts: seq<Name>)
    requires IsIndexOf(s, roots, index) && Chain(s, roots, ts) && |ts| > 1
    ensures ts[|ts| - 2] in index && s.Indexed(ts[|ts| - 2])
  {
    hide IsIndexOf, Edges;
    var before := ts[..|ts| - 1];
    assert before[|before| - 1] == ts[|ts| - 2];
    assert Reachable(s, roots, ts[|ts| - 2]);
    IndexHoldsReachableTypes(s, roots, index, ts[|ts| - 2]);
  }

  lemma PathIsMatched(s: Schema, roots: seq<Name>, index: Index, p: PathNode)
    requires LegalNames(s) && IsIndexOf(s, roots, index) && RootsUnreferenced(roots, index) && NoShortcut(s, index)
    requires FromRoot(s, roots, p) && p.Last() in index
    ensures RootPathWithin(index, p.Last(), p.Len())
  {
    hide LegalNames, IsIndexOf, RootsUnreferenced, NoShortcut, RootPathWithin, Chain, FromRoot;
    PathIsChain(s, roots, p, p.Len());
    assert p.Types()[..p.Len()] == p.Types();
    LastIsLast(p);
    ChainIsMatched(s, roots, index, p.Types());
  }

  /** A recorded root path is a path of the schema from a requested root, and goes on over any edge. */
  lemma {:induction false} RootPathIsFromRoot(s: Schema, roots: seq<Name>, index: Index, u: Name, q: PathNode)
    requires LegalNames(s) && IsIndexOf(s, roots, index) && RootPath(index, u, q)
    ensures FromRoot(s, roots, q) && s.Indexed(u)
  {
    hide LegalNames, IsIndexOf, IsEdge, UpPath, PathNode.Steps, PathNode.Types, Recorded, Reachable;
    IndexIsAcyclic(s, roots, index);
    var order :| Ranked(s, roots, index, order);
    RankedIsAcyclic(s, roots, index, order);
    UpPathFollowsSchema(s, roots, index, order, q);
    HeadIsInIndex(index, q);
    MatchedIsInIndex(index, q);
    IndexHoldsReachableTypes(s, roots, index, u);
  }

  lemma HeadIsInIndex(index: Index, q: PathNode)
    requires UpPath(index, q)
    ensures q.nodeType in index
  {
  }

  lemma {:induction false} MatchedIsInIndex(index: Index, q: PathNode)
    requires UpPath(index, q)
    ensures q.Last() in index
  {
    if q.child.Some? {
      MatchedIsInIndex(index, q.child.value);
    }
  }

  lemma ChildFromRoot(s: Schema, roots: seq<Name>, q: PathNode, e: Edge)
    requires FromRoot(s, roots, q) && s.Indexed(q.Last()) && e in Edges(s, q.Last())
    ensures FromRoot(s, roots, Child(q, e).1) && Child(q, e).1.Last() == e.target && Child(q, e).1.Len() == q.Len() + 1
  {
    hide Edges;
    ChildLast(q, e);
    ChildHasOneMore(q, e);
    AddChildExtends(q, e.field, e.args, e.target);
  }

  /** For every schema: the first path found is always a shortest path of the schema if and only if no requested root
      has a recorded reference and no dropped edge is a shortcut. */
  lemma {:induction false} ShortestInSchemaIff(s: Schema, roots: seq<Name>, index: Index)
    requires LegalNames(s) && IsIndexOf(s, roots, index)
    ensures FirstIsShortestInSchema(s, roots, index) <==> RootsUnreferenced(roots, index) && NoShortcut(s, index)
  {
    hide LegalNames, IsIndexOf, FirstIsShortestInSchema, RootsUnreferenced, NoShortcut;
    if RootsUnreferenced(roots, index) && NoShortcut(s, index) {
      ShortestIf(s, roots, index);
    }
    if FirstIsShortestInSchema(s, roots, index) {
      ShortestOnlyIf(s, roots, index);
    }
  }

  lemma {:induction false} ShortestIf(s: Schema, roots: seq<Name>, index: Index)
    requires LegalNames(s) && IsIndexOf(s, roots, index)
    requires RootsUnreferenced(roots, index) && NoShortcut(s, index)
    ensures FirstIsShortestInSchema(s, roots, index)
  {
    hide LegalNames, IsIndexOf, RootsUnreferenced, NoShortcut, FromRoot, UpPath, PathNode.Types;
    forall matched, found: seq<PathNode>, p | matched in index && Answers(s, roots, index, matched, 1, found)
                               && FromRoot(s, roots, p) && p.Last() == matched
      ensures found != [] && found[0].Len() <= p.Len()
    {
      PathIsMatched(s, roots, index, p);
      var r :| RootPath(index, matched, r) && r.Len() <= p.Len();
    }
  }

  lemma {:induction false} ShortestOnlyIf(s: Schema, roots: seq<Name>, index: Index)
    requires LegalNames(s) && IsIndexOf(s, roots, index) && FirstIsShortestInSchema(s, roots, index)
    ensures RootsUnreferenced(roots, index) && NoShortcut(s, index)
  {
    hide LegalNames, IsIndexOf, FirstIsShortestInSchema, Edges, FromRoot, RootPath, Encode;
    forall r | r in roots && r in index
      ensures index[r] == []
    {
      RootIsItsOwnPath(s, roots, index, r);
    }
    forall u, e, q | Dropped(s, index, u, e) && RootPath(index, u, q)
      ensures RootPathWithin(index, e.target, q.Len() + 1)
    {
      RootPathIsFromRoot(s, roots, index, u, q);
      LastOfRootPath(index, u, q);
      ChildFromRoot(s, roots, q, e);
      FirstIsNoLonger(s, roots, index, Child(q, e).1);
    }
  }

  lemma LastOfRootPath(index: Index, u: Name, q: PathNode)
    requires RootPath(index, u, q)
    ensures q.Last() == u
  {
  }

  lemma {:induction false} FirstIsNoLonger(s: Schema, roots: seq<Name>, index: Index, p: PathNode)
    requires LegalNames(s) && IsIndexOf(s, roots, index) && FirstIsShortestInSchema(s, roots, index)
    requires FromRoot(s, roots, p) && p.Last() in index
    ensures RootPathWithin(index, p.Last(), p.Len())
  {
    hide LegalNames, IsIndexOf, FromRoot, RootPath, PathNode.Types;
    var found := AnswersExist(s, roots, index, p.Last(), 1);
    assert found != [] && RootPath(index, p.Last(), found[0]);
    assert NoLongerInSchema(s, roots, p.Last(), found[0]);
  }

  lemma {:induction false} RootIsItsOwnPath(s: Schema, roots: seq<Name>, index: Index, r: Name)
    requires LegalNames(s) && IsIndexOf(s, roots, index) && FirstIsShortestInSchema(s, roots, index)
    requires r in roots && r in index
    ensures index[r] == []
  {
    hide LegalNames, IsIndexOf, FirstIsShortestInSchema;
    assert FromRoot(s, roots, New(r)) && New(r).Last() == r;
    FirstIsNoLonger(s, roots, index, New(r));
    var q :| RootPath(index, r, q) && q.Len() <= 1;
    assert q == New(r);
  }

  // ---------- The two uses of the program ----------

  /** Asked for queries alone: exactly when no dropped edge is a shortcut. */
  lemma {:induction false} QueriesAreShortestInSchemaIff(s: Schema, index: Index)
    requires LegalNames(s) && Query in s.roots && IsIndexOf(s, Traverse.RootTypes(s, {Query}), index)
    ensures FirstIsShortestInSchema(s, Traverse.RootTypes(s, {Query}), index) <==> NoShortcut(s, index)
  {
    hide LegalNames, IsIndexOf, FirstIsShortestInSchema, NoShortcut;
    var q := s.roots[Query];
    assert Traverse.RootTypes(s, {Query}) == [q];
    if q in index {
      OnlyRootIsUnreferenced(s, q, index);
    }
    ShortestInSchemaIff(s, [q], index);
  }

  /** Asked for queries and mutations: if moreover the mutation type cannot be reached from the query type, and nothing
      that is reached from the mutation type alone leads back to the query type. */
  lemma {:induction false} MutationsAreShortestInSchemaIff(s: Schema, index: Index)
    requires s.WellFormed() && LegalNames(s) && Query in s.roots && Mutation in s.roots
    requires s.roots[Query] != s.roots[Mutation] && s.Indexed(s.roots[Query]) && s.Indexed(s.roots[Mutation])
    requires IsIndexOf(s, Traverse.RootTypes(s, {Query, Mutation}), index)
    ensures FirstIsShortestInSchema(s, Traverse.RootTypes(s, {Query, Mutation}), index) <==>
            && !Reachable(s, [s.roots[Query]], s.roots[Mutation])
            && (forall u :: !LeadsBack(s, s.roots[Mutation], s.roots[Query], u))
            && NoShortcut(s, index)
  {
    hide LegalNames, IsIndexOf, FirstIsShortestInSchema, LeadsBack, Reachable, RootsUnreferenced, NoShortcut;
    var m, q := s.roots[Mutation], s.roots[Query];
    assert Traverse.RootTypes(s, {Query, Mutation}) == [m, q];
    RootsUnreferencedIff(s, m, q, index);
    ShortestInSchemaIff(s, [m, q], index);
  }
}

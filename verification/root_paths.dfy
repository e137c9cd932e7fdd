/** Whether the first path that the search finds is a shortest one among the recorded paths from the requested roots
    (crates/apollo-schema-index/src/lib.rs). It is one among those from roots that have no recorded reference; a root
    that another root leads to is passed through. `SchemaPaths` compares it with all paths of the schema. */
module RootPaths {
  import opened GraphQL
  import opened Sequences
  import opened Paths
  import opened Walk
  import opened References
  import opened Indexing
  import opened Upward
  import opened Search
  import Traverse

  /** A path of recorded references from any requested root down to the matched type. */
  ghost predicate RequestedPath(roots: seq<Name>, index: Index, matched: Name, p: PathNode) {
    p.nodeType in roots && UpPath(index, p) && p.Last() == matched
  }

  ghost predicate NoLonger(roots: seq<Name>, index: Index, matched: Name, first: PathNode) {
    forall p :: RequestedPath(roots, index, matched, p) ==> first.Len() <= p.Len()
  }

  /** Whatever is matched, the first path found is a shortest one among the recorded paths from a requested root. */
  ghost predicate FirstIsShortestFromRoots(s: Schema, roots: seq<Name>, index: Index) {
    forall matched, found {:trigger Answers(s, roots, index, matched, 1, found)} ::
      matched in index && Answers(s, roots, index, matched, 1, found) ==> NoLonger(roots, index, matched, found[0])
  }

  ghost predicate RootsUnreferenced(roots: seq<Name>, index: Index) {
    forall r :: r in roots && r in index ==> index[r] == []
  }

  lemma {:induction false} AnswersExist(s: Schema, roots: seq<Name>, index: Index, matched: Name, maxPaths: nat)
    returns (found: seq<PathNode>)
    requires LegalNames(s) && IsIndexOf(s, roots, index) && matched in index
    ensures Answers(s, roots, index, matched, maxPaths, found)
  {
    hide Good, Pending, Acyclic, Ranked, Answers, IsIndexOf, LegalNames;
    IndexIsAcyclic(s, roots, index);
    var order :| Ranked(s, roots, index, order);
    RankedIsAcyclic(s, roots, index, order);
    var st := State([New(matched)], [], map[]);
    GoodStart(index, matched);
    while st.queue != [] && |st.found| < maxPaths
      invariant Good(index, matched, st) && Heads(index, st.queue) && |st.found| <= maxPaths
      decreases Pending(index, order, st.queue)
    {
      GoodTurn(index, order, matched, st);
      TurnDrops(index, order, st);
      st := Upward.Turn(index, st);
    }
    SearchEnds(s, roots, index, order, matched, maxPaths, st);
    found := st.found;
  }

  /** Among recorded paths, that is so for every match exactly when no requested root has a recorded reference. */
  lemma {:induction false} ShortestFromRootsIff(s: Schema, roots: seq<Name>, index: Index)
    requires LegalNames(s) && IsIndexOf(s, roots, index)
    ensures FirstIsShortestFromRoots(s, roots, index) <==> RootsUnreferenced(roots, index)
  {
    hide IsIndexOf, LegalNames, FromRoot;
    if !RootsUnreferenced(roots, index) {
      var r :| r in roots && r in index && index[r] != [];
      var found := AnswersExist(s, roots, index, r, 1);
      assert RequestedPath(roots, index, r, New(r));
      assert found != [] && RootPath(index, r, found[0]);
    }
  }

  /** With one requested operation type no requested root has one, on every schema: an edge back to the only root is a
      back edge. */
  lemma {:induction false} OnlyRootIsUnreferenced(s: Schema, root: Name, index: Index)
    requires IsIndexOf(s, [root], index) && root in index
    ensures index[root] == []
  {
    hide Edges, Encode, After, Yields, IndexOf, RecordedBy, Chained, Ordered, Expanded, Conserved;
    var n: nat :| After(s, [root], n).stack == [] && index == IndexOf(Yielded(s, After(s, [root], n).popped));
    AfterKeeps(s, [root], n);
    var paths := Yielded(s, After(s, [root], n).popped);
    IndexOfHolds(paths);
    if index[root] != [] {
      assert index[root][0] in index[root];
      var p :| p in paths && HasReference(p, root, index[root][0]);
      BackAtTheRoot(s, root, p);
    }
  }

  lemma BackAtTheRoot(s: Schema, root: Name, p: PathNode)
    requires FromRoot(s, [root], p) && Yields(s, p) && p.Last() == root
    ensures RecordedBy(p) == []
  {
    ReferencingTypeIsLastStep(p);
    HasCycleIffRepeats(p);
    LastIsLast(p);
    assert p.Types()[0] == root;
  }

  // ---------- Where the promise is broken ----------

  ghost function TwoRoots(): Schema {
    var query := TypeDef("Query", false, [], Object([FieldDef("name", "String", [], [])], []));
    var mutation := TypeDef("Mutation", false, [], Object([FieldDef("query", "Query", [], [])], []));
    var text := TypeDef("String", true, [], Scalar);
    Schema(map["Query" := query, "Mutation" := mutation, "String" := text], ["Query", "Mutation", "String"], map[],
           map[Query := "Query", Mutation := "Mutation"])
  }

  lemma {:induction false} WalkEnds(s: Schema, roots: seq<Name>) returns (n: nat)
    requires s.WellFormed()
    ensures Live(s, roots, n) && After(s, roots, n).stack == []
  {
    hide After, Budget;
    n := 0;
    while After(s, roots, n).stack != []
      invariant Live(s, roots, n)
      decreases Budget(s, roots) - n
    {
      LiveBounded(s, roots, n);
      Walk.Turn(s, roots, n);
      n := n + 1;
    }
  }

  /** The mutation type has a field of the query type: asked for both, the index records a reference to the query type,
      and a search for it finds the way from the mutation type first. */
  lemma {:induction false} QueryBelowMutation() returns (index: Index)
    ensures IsIndexOf(TwoRoots(), Traverse.RootTypes(TwoRoots(), {Query, Mutation}), index)
    ensures !FirstIsShortestFromRoots(TwoRoots(), Traverse.RootTypes(TwoRoots(), {Query, Mutation}), index)
  {
    hide TwoRoots, Traverse.RootTypes, LegalNames;
    var s := TwoRoots();
    var roots := Traverse.RootTypes(s, {Query, Mutation});
    TwoRootsLegal();
    TwoRootsDefined();
    TwoRootsRequested();
    var n := WalkEnds(s, roots);
    index := IndexOf(Yielded(s, After(s, roots, n).popped));
    MutationRefers(roots, n);
    WholeWalk(s, roots, n, index);
    ShortestFromRootsIff(s, roots, index);
  }

  lemma LastStepIsToLast(p: PathNode)
    ensures p.Len() == 1 ==> p.Types() == [p.Last()]
    ensures p.Len() > 1 ==> p.Steps()[p.Len() - 2].to == p.Last()
  {
    LastIsLast(p);
    StepsJoinTypes(p);
  }

  lemma TwoRootsDefined()
    ensures TwoRoots().WellFormed() && TwoRoots().types.Keys == {"Query", "Mutation", "String"}
    ensures TwoRoots().Indexed("Mutation") && TwoRoots().Indexed("Query")
    ensures TwoRoots().roots == map[Query := "Query", Mutation := "Mutation"]
  {
    var order := TwoRoots().typeOrder;
    assert order[0] == "Query" && order[1] == "Mutation" && order[2] == "String";
    assert order[0][0] == 'Q' && order[1][0] == 'M' && order[2][0] == 'S';
  }

  lemma TwoRootsEdges()
    ensures Edges(TwoRoots(), "Query") == [Edge(Some("name"), [], "String")]
    ensures Edges(TwoRoots(), "Mutation") == [Edge(Some("query"), [], "Query")]
    ensures Edges(TwoRoots(), "String") == []
  {
    assert ArgTypes([]) == [];
    var types := TwoRoots().types;
    assert "Query"[0] == 'Q' && "Mutation"[0] == 'M' && "String"[0] == 'S';
    assert types["Query"].kind.fields == [FieldDef("name", "String", [], [])];
    assert types["Mutation"].kind.fields == [FieldDef("query", "Query", [], [])];
  }

  lemma TwoRootsLegal()
    ensures LegalNames(TwoRoots())
  {
    hide TwoRoots, Edges;
    TwoRootsDefined();
    TwoRootsEdges();
    assert IsName("Query") && IsName("Mutation") && IsName("String") && IsName("name") && IsName("query");
  }

  lemma TwoRootsRequested()
    ensures "Query" in Traverse.RootTypes(TwoRoots(), {Query, Mutation})
    ensures "Mutation" in Traverse.RootTypes(TwoRoots(), {Query, Mutation})
  {
    hide TwoRoots;
    TwoRootsDefined();
  }

  lemma OnlyAtTheTop(roots: seq<Name>, p: PathNode)
    requires FromRoot(TwoRoots(), roots, p) && p.Last() == "Mutation"
    ensures p.Types() == ["Mutation"]
  {
    hide TwoRoots, Edges;
    TwoRootsDefined();
    TwoRootsEdges();
    LastStepIsToLast(p);
  }

  lemma MutationRefers(roots: seq<Name>, n: nat)
    requires After(TwoRoots(), roots, n).stack == [] && "Mutation" in roots
    ensures var index := IndexOf(Yielded(TwoRoots(), After(TwoRoots(), roots, n).popped));
            "Query" in index && index["Query"] != []
  {
    hide TwoRoots, Edges, Yielded, IndexOf, After, Chained, Ordered, Conserved;
    var s, r := TwoRoots(), After(TwoRoots(), roots, n);
    AfterKeeps(s, roots, n);
    TwoRootsDefined();
    TwoRootsEdges();
    RootVisited(s, roots, r, "Mutation");
    assert "Mutation" in Lasts(r.expanded);
    var i :| 0 <= i < |r.expanded| && Lasts(r.expanded)[i] == "Mutation";
    OnlyAtTheTop(roots, r.expanded[i]);
    QueryIsReferred(roots, r, r.expanded[i]);
  }

  lemma QueryIsReferred(roots: seq<Name>, r: Run, p: PathNode)
    requires Done(TwoRoots(), roots, r) && p in r.expanded && p.Types() == ["Mutation"]
    ensures var index := IndexOf(Yielded(TwoRoots(), r.popped)); "Query" in index && index["Query"] != []
  {
    hide TwoRoots, Edges, Yielded, IndexOf, Done;
    TwoRootsDefined();
    TwoRootsEdges();
    LastIsLast(p);
    var e := Edge(Some("query"), [], "Query");
    assert e in [e];
    assert "Query"[0] == 'Q' && "Mutation"[0] == 'M';
    EdgeDroppedIffBack(TwoRoots(), roots, r, p, e);
    ChildLast(p, e);
    AddChildExtends(p, e.field, e.args, e.target);
    IndexOfHolds(Yielded(TwoRoots(), r.popped));
  }

  lemma {:induction false} LastIsLast(p: PathNode)
    ensures p.Types()[p.Len() - 1] == p.Last()
  {
    if p.child.Some? {
      LastIsLast(p.child.value);
    }
  }
}

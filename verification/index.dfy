/** Building the index: which types refer to each type (crates/apollo-schema-index/src/lib.rs, `SchemaIndex::new`). */
module Indexing {
  import opened GraphQL
  import opened Sequences
  import opened Paths
  import opened Walk
  import opened Traverse
  import opened References
  import opened SchemaEdges

  /** The stored documents: for each indexed type the encoded references to it, in the order found. */
  type Index = map<Name, seq<string>>

  /** The reference that a path records for its last type, if it has a step. */
  function RecordedBy(p: PathNode): seq<string> {
    match p.ReferencingType()
    case Some((from, field, args)) => [Encode(Reference(from, field, args))]
    case None => []
  }

  /** The entry for a type is created at its first path, and grows by each path that refers to it. */
  function Record(before: Index, typeName: Name, p: PathNode): Index {
    before[typeName := (if typeName in before then before[typeName] else []) + RecordedBy(p)]
  }

  /** The map that the yielded paths fill. */
  function IndexOf(paths: seq<PathNode>): Index {
    if paths == [] then map[] else
    var p := paths[|paths| - 1];
    Record(IndexOf(paths[..|paths| - 1]), p.Last(), p)
  }

  /** `index` is what a whole walk over `s` from the requested roots records. */
  ghost predicate IsIndexOf(s: Schema, roots: seq<Name>, index: Index) {
    exists n: nat :: After(s, roots, n).stack == [] && index == IndexOf(Yielded(s, After(s, roots, n).popped))
  }

  method Build(s: Schema, requested: set<OperationType>) returns (typeReferences: Index)
    requires s.WellFormed()
    ensures IsIndexOf(s, RootTypes(s, requested), typeReferences)
    ensures forall t :: t in typeReferences <==> t in s.types && !s.types[t].builtIn && Reached(s, requested, t)
  {
    hide IsIndexOf, Reached;
    var walk := new Traversal(s, requested);
    typeReferences := map[];
    ghost var emitted: seq<PathNode> := [];
    var item := walk.Next();
    while item.Some?
      invariant walk.Valid() && walk.schema == s && walk.roots == RootTypes(s, requested) && fresh(walk)
      invariant walk.turns <= Budget(s, walk.roots)
      invariant Yielded(s, walk.Run().popped) == emitted + (if item.Some? then [item.value.1] else [])
      invariant typeReferences == IndexOf(emitted)
      invariant item.Some? ==> item.value.0.name == item.value.1.Last()
      invariant item.None? ==> walk.stack == []
      decreases item.Some?, Budget(s, walk.roots) - walk.turns
    {
      var (extendedType, path) := item.value;
      typeReferences := Record(typeReferences, extendedType.name, path);
      IndexOfAppend(emitted, path);
      emitted := emitted + [path];
      item := walk.Next();
    }
    assert emitted + [] == emitted;
    WholeWalk(s, walk.roots, walk.turns, typeReferences);
    forall t
      ensures t in typeReferences <==> t in s.types && !s.types[t].builtIn && Reached(s, requested, t)
    {
      IndexHoldsReached(s, requested, typeReferences, t);
    }
  }

  lemma IndexOfAppend(paths: seq<PathNode>, p: PathNode)
    ensures IndexOf(paths + [p]) == Record(IndexOf(paths), p.Last(), p)
  {
    assert (paths + [p])[..|paths|] == paths;
  }

  lemma WholeWalk(s: Schema, roots: seq<Name>, n: nat, index: Index)
    requires After(s, roots, n).stack == [] && index == IndexOf(Yielded(s, After(s, roots, n).popped))
    ensures IsIndexOf(s, roots, index)
  {
  }

  // ---------- What an index of a schema satisfies ----------

  ghost predicate LegalNames(s: Schema) {
    && (forall t :: t in s.types ==> IsName(t))
    && (forall t, e :: t in s.types && e in Edges(s, t) ==>
          && (e.field.Some? ==> IsName(e.field.value))
          && (forall i :: 0 <= i < |e.args| ==> IsName(e.args[i])))
  }

  /** One recorded reference: it decodes to a reference from an indexed type that finished later. */
  ghost predicate Recorded(s: Schema, index: Index, order: seq<Name>, t: Name, e: string) {
    var r := Decode(e);
    && Legal(r) && e == Encode(r)
    && r.from in index
    && IsEdge(s, Step(r.from, r.field, r.args, t))
    && Before(order, t, r.from)
  }

  /** The recorded relation goes from types to types that come later in `order`; what has no reference is a root. */
  ghost predicate Ranked(s: Schema, roots: seq<Name>, index: Index, order: seq<Name>) {
    && Distinct(order)
    && (forall t :: t in index ==> t in order && IsName(t))
    && (forall t, e :: t in index && e in index[t] ==> Recorded(s, index, order, t, e))
    && (forall t :: t in index && index[t] == [] ==> t in roots)
  }

  ghost predicate HasReference(p: PathNode, t: Name, e: string) {
    p.Last() == t && e in RecordedBy(p)
  }

  lemma {:induction false} IndexOfHolds(paths: seq<PathNode>)
    ensures forall t :: t in IndexOf(paths) <==> exists p :: p in paths && p.Last() == t
    ensures forall t, e :: t in IndexOf(paths) && e in IndexOf(paths)[t] ==>
              exists p :: p in paths && HasReference(p, t, e)
    ensures forall p :: p in paths && p.Len() > 1 ==> IndexOf(paths)[p.Last()] != []
  {
    if paths != [] {
      var n := |paths| - 1;
      var less, p := paths[..n], paths[n];
      IndexOfHolds(less);
      assert forall q :: q in paths <==> q in less || q == p;
      var index := IndexOf(paths);
      forall t | t in index
        ensures exists q :: q in paths && q.Last() == t
      {
        if t != p.Last() {
          assert t in IndexOf(less);
          var q :| q in less && q.Last() == t;
          assert q in paths;
        } else {
          assert p in paths;
        }
      }
      forall t, e | t in index && e in index[t]
        ensures exists q :: q in paths && HasReference(q, t, e)
      {
        if t != p.Last() || e !in RecordedBy(p) {
          assert t in IndexOf(less) && e in IndexOf(less)[t];
          var q :| q in less && HasReference(q, t, e);
          assert q in paths;
        } else {
          assert HasReference(p, t, e);
        }
      }
      ReferencingTypeIsLastStep(p);
    }
  }

  /** The reference in which a path records its last step. */
  ghost function LastReference(p: PathNode): string
    requires p.Len() > 1
  {
    var st := p.Steps()[p.Len() - 2];
    Encode(Reference(st.from, st.field, st.args))
  }

  lemma RecordsLast(p: PathNode)
    ensures RecordedBy(p) == if p.Len() > 1 then [LastReference(p)] else []
  {
    hide Encode;
    ReferencingTypeIsLastStep(p);
  }

  /** The references recorded for a type, if any. */
  function RefsOf(index: Index, t: Name): seq<string> {
    if t in index then index[t] else []
  }

  lemma RefsNext(paths: seq<PathNode>, t: Name)
    requires paths != []
    ensures var p, less := paths[|paths| - 1], IndexOf(paths[..|paths| - 1]);
            RefsOf(IndexOf(paths), t) == if StepsTo(p, t) then RefsOf(less, t) + [LastReference(p)] else RefsOf(less, t)
  {
    hide RecordedBy, LastReference, PathNode.Types;
    RecordsLast(paths[|paths| - 1]);
  }

  /** The references to a type are those of the yielded paths that step to it, in the order in which they are
      yielded. */
  lemma {:induction false} ReferencesInOrder(paths: seq<PathNode>, t: Name) returns (at: seq<nat>)
    ensures InOrder(paths, t, RefsOf(IndexOf(paths), t), at)
  {
    hide LastReference, StepsTo, IndexOf, RefsOf, InOrder;
    if paths == [] {
      at := [];
      NothingInOrder(t);
    } else {
      var n := |paths| - 1;
      var before := ReferencesInOrder(paths[..n], t);
      RefsNext(paths, t);
      OneMoreInOrder(paths[..n], t, RefsOf(IndexOf(paths[..n]), t), before, paths[n]);
      at := if StepsTo(paths[n], t) then before + [n] else before;
      assert paths == paths[..n] + [paths[n]];
    }
  }

  /** `refs` are the references in which the paths at these positions, and no others, record a step to `t`. */
  ghost predicate InOrder(paths: seq<PathNode>, t: Name, refs: seq<string>, at: seq<nat>) {
    && |at| == |refs|
    && (forall i, j :: 0 <= i < j < |at| ==> at[i] < at[j])
    && (forall i :: 0 <= i < |at| ==>
          at[i] < |paths| && StepsTo(paths[at[i]], t) && refs[i] == LastReference(paths[at[i]]))
    && forall k :: 0 <= k < |paths| && StepsTo(paths[k], t) ==> k in at
  }

  ghost predicate StepsTo(p: PathNode, t: Name) {
    p.Len() > 1 && p.Last() == t
  }

  lemma NothingInOrder(t: Name)
    ensures InOrder([], t, RefsOf(IndexOf([]), t), [])
  {
  }

  lemma OneMoreInOrder(paths: seq<PathNode>, t: Name, refs: seq<string>, at: seq<nat>, p: PathNode)
    requires InOrder(paths, t, refs, at)
    ensures if StepsTo(p, t) then InOrder(paths + [p], t, refs + [LastReference(p)], at + [|paths|])
            else InOrder(paths + [p], t, refs, at)
  {
    hide LastReference, StepsTo;
    assert (at + [|paths|])[|at|] == |paths|;
    assert forall k :: k in at ==> k in at + [|paths|];
  }

  lemma RecordedReference(s: Schema, roots: seq<Name>, r: Run, p: PathNode, e: string)
    requires Done(s, roots, r) && LegalNames(s)
    requires p in Yielded(s, r.popped) && e in RecordedBy(p)
    ensures Recorded(s, IndexOf(Yielded(s, r.popped)), r.order, p.Last(), e)
  {
    hide Legal, Encode, Decode, Edges, PathNode.HasCycle, Chained, Conserved;
    ReferencingTypeIsLastStep(p);
    StepsJoinTypes(p);
    var st := p.Steps()[p.Len() - 2];
    var ref := Reference(st.from, st.field, st.args);
    assert e == Encode(ref);
    assert IsEdge(s, st);
    LegalEdge(s, st);
    RoundTrip(ref);
    assert Before(r.order, st.to, st.from);
    ParentIsYielded(s, roots, r, p);
    IndexOfHolds(Yielded(s, r.popped));
  }

  lemma LegalEdge(s: Schema, st: Step)
    requires LegalNames(s) && IsEdge(s, st)
    ensures Legal(Reference(st.from, st.field, st.args))
  {
    var e := Edge(st.field, st.args, st.to);
    assert e in Edges(s, st.from);
    EdgesWithoutFieldHaveNoArgs(s, st.from);
  }

  lemma {:induction false} ImplementersHaveNoArgs(s: Schema, order: seq<Name>, iface: Name)
    ensures forall e :: e in ImplementerEdges(s, order, iface) ==> e.field.None? && e.args == []
  {
    if order != [] {
      ImplementersHaveNoArgs(s, order[1..], iface);
    }
  }

  lemma EdgesWithoutFieldHaveNoArgs(s: Schema, t: Name)
    ensures forall e :: e in Edges(s, t) && e.field.None? ==> e.args == []
  {
    ImplementersHaveNoArgs(s, s.typeOrder, t);
  }

  /** The referencing type of a recorded path is itself indexed. */
  lemma ParentIsYielded(s: Schema, roots: seq<Name>, r: Run, p: PathNode)
    requires Done(s, roots, r) && p in Yielded(s, r.popped) && p.Len() > 1
    ensures exists q :: q in Yielded(s, r.popped) && q.Last() == p.Types()[p.Len() - 2]
  {
    var u := p.Types()[p.Len() - 2];
    StepsJoinTypes(p);
    assert IsEdge(s, p.Steps()[p.Len() - 2]);
    assert Before(r.order, p.Last(), u);
    assert u in r.order;
    var q :| q in r.popped && !q.HasCycle() && q.Last() == u;
    assert Yields(s, q);
  }

  /** The index of any schema, however cyclic, is acyclic: the finishing order of the walk ranks every reference. */
  lemma IndexIsAcyclic(s: Schema, roots: seq<Name>, index: Index)
    requires LegalNames(s) && IsIndexOf(s, roots, index)
    ensures exists order :: Ranked(s, roots, index, order)
  {
    var n: nat :| After(s, roots, n).stack == [] && index == IndexOf(Yielded(s, After(s, roots, n).popped));
    var r := After(s, roots, n);
    AfterKeeps(s, roots, n);
    var paths := Yielded(s, r.popped);
    IndexOfHolds(paths);
    forall t | t in index
      ensures t in r.order && IsName(t)
    {
      var p :| p in paths && p.Last() == t;
      assert t in r.visited;
    }
    forall t, e | t in index && e in index[t]
      ensures Recorded(s, index, r.order, t, e)
    {
      var p :| p in paths && HasReference(p, t, e);
      RecordedReference(s, roots, r, p, e);
    }
    forall t | t in index && index[t] == []
      ensures t in roots
    {
      var p :| p in paths && p.Last() == t;
      assert p.Len() == 1;
      assert FromRoot(s, roots, p);
    }
    assert Ranked(s, roots, index, r.order);
  }

  /** The index holds exactly the types that can be reached from the requested roots and are not built in. */
  lemma IndexHoldsReachableTypes(s: Schema, roots: seq<Name>, index: Index, t: Name)
    requires IsIndexOf(s, roots, index)
    ensures t in index <==> s.Indexed(t) && Reachable(s, roots, t)
  {
    var n: nat :| After(s, roots, n).stack == [] && index == IndexOf(Yielded(s, After(s, roots, n).popped));
    AfterKeeps(s, roots, n);
    YieldsReachableTypes(s, roots, After(s, roots, n), t);
    IndexOfHolds(Yielded(s, After(s, roots, n).popped));
  }

  /** That is, those to which the definitions lead from the root types of the requested operation types. */
  lemma IndexHoldsReached(s: Schema, requested: set<OperationType>, index: Index, t: Name)
    requires s.WellFormed() && IsIndexOf(s, RootTypes(s, requested), index)
    ensures t in index <==> t in s.types && !s.types[t].builtIn && Reached(s, requested, t)
  {
    hide IsIndexOf, Reachable, Reached, RootTypes, Schema.WellFormed;
    IndexHoldsReachableTypes(s, RootTypes(s, requested), index, t);
    ReachableIffReached(s, requested, t);
  }
}

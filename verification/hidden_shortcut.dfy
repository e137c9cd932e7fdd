/** A schema in which a shortest path of the schema is never found, asked for queries alone
    (crates/apollo-schema-index/src/traverse.rs, crates/apollo-schema-index/src/lib.rs). */
module HiddenShortcut {
  import opened GraphQL
  import opened Sequences
  import opened Paths
  import opened Walk
  import opened References
  import opened Indexing
  import opened Upward
  import opened EdgePaths
  import opened RootPaths
  import opened RootOrder
  import opened SchemaPaths
  import Traverse

  function Fields(fields: seq<(Name, Name)>): seq<FieldDef> {
    seq(|fields|, i requires 0 <= i < |fields| => FieldDef(fields[i].0, fields[i].1, [], []))
  }

  function ObjectOf(name: Name, fields: seq<(Name, Name)>): TypeDef {
    TypeDef(name, false, [], Object(Fields(fields), []))
  }

  /** `type Q { u: U a: A } type A { b: B } type B { t: T } type T { u: U } type U { t: T }` */
  ghost function Looped(): Schema {
    Schema(map["Q" := ObjectOf("Q", [("u", "U"), ("a", "A")]),
               "A" := ObjectOf("A", [("b", "B")]),
               "B" := ObjectOf("B", [("t", "T")]),
               "T" := ObjectOf("T", [("u", "U")]),
               "U" := ObjectOf("U", [("t", "T")])],
           ["Q", "A", "B", "T", "U"], map[], map[Query := "Q"])
  }

  function To(field: Name, target: Name): Edge {
    Edge(Some(field), [], target)
  }

  lemma LoopedKeys()
    ensures Looped().types.Keys == {"Q", "A", "B", "T", "U"}
  {
  }

  lemma LoopedDefined()
    ensures Looped().WellFormed() && Looped().types.Keys == {"Q", "A", "B", "T", "U"}
    ensures forall t :: t in Looped().types ==> Looped().Indexed(t)
    ensures Traverse.RootTypes(Looped(), {Query}) == ["Q"] && Looped().roots == map[Query := "Q"]
  {
    hide Fields;
    var order := Looped().typeOrder;
    NamesAreDifferent();
    LoopedKeys();
    assert order[0] == "Q" && order[1] == "A" && order[2] == "B" && order[3] == "T" && order[4] == "U";
    assert forall t :: t in Looped().types ==> Looped().types[t].name == t && !Looped().types[t].builtIn;
  }

  lemma NamesAreDifferent()
    ensures "Q" != "A" && "Q" != "B" && "Q" != "T" && "Q" != "U" && "A" != "B" && "A" != "T" && "A" != "U"
    ensures "B" != "T" && "B" != "U" && "T" != "U"
  {
    assert "Q"[0] == 'Q' && "A"[0] == 'A' && "B"[0] == 'B' && "T"[0] == 'T' && "U"[0] == 'U';
  }

  lemma OneEdge(t: Name, field: Name, target: Name)
    requires t in Looped().types && Looped().types[t] == ObjectOf(t, [(field, target)])
    ensures Edges(Looped(), t) == [To(field, target)]
  {
    hide Looped;
    assert ArgTypes([]) == [];
  }

  lemma LoopedEdges()
    ensures Edges(Looped(), "Q") == [To("u", "U"), To("a", "A")]
    ensures Edges(Looped(), "A") == [To("b", "B")]
    ensures Edges(Looped(), "B") == [To("t", "T")]
    ensures Edges(Looped(), "T") == [To("u", "U")]
    ensures Edges(Looped(), "U") == [To("t", "T")]
  {
    hide Edges;
    NamesAreDifferent();
    LoopedQuery();
    OneEdge("A", "b", "B");
    OneEdge("B", "t", "T");
    OneEdge("T", "u", "U");
    OneEdge("U", "t", "T");
  }

  lemma LoopedQuery()
    ensures Edges(Looped(), "Q") == [To("u", "U"), To("a", "A")]
  {
    NamesAreDifferent();
    assert ArgTypes([]) == [];
    assert Looped().types["Q"] == ObjectOf("Q", [("u", "U"), ("a", "A")]);
  }

  lemma LoopedLegal()
    ensures LegalNames(Looped())
  {
    hide Looped, Edges, IsName, IsNameStart;
    LoopedKeys();
    LettersAreNames();
    forall u, e | u in Looped().types && e in Edges(Looped(), u)
      ensures e.field.Some? && IsName(e.field.value) && e.args == []
    {
      EdgeIsNamed(u, e);
    }
  }

  lemma EdgeIsNamed(u: Name, e: Edge)
    requires u in Looped().types && e in Edges(Looped(), u)
    ensures e.field.Some? && IsName(e.field.value) && e.args == []
  {
    hide Looped, Edges, IsName;
    LoopedKeys();
    LoopedEdges();
    LettersAreNames();
  }

  lemma LettersAreNames()
    ensures IsName("Q") && IsName("A") && IsName("B") && IsName("T") && IsName("U")
    ensures IsName("u") && IsName("a") && IsName("b") && IsName("t")
  {
    hide IsName;
    LetterIsName("Q");
    LetterIsName("A");
    LetterIsName("B");
    LetterIsName("T");
    LetterIsName("U");
    LetterIsName("u");
    LetterIsName("a");
    LetterIsName("b");
    LetterIsName("t");
  }

  lemma LetterIsName(t: Name)
    requires |t| == 1 && IsNameStart(t[0])
    ensures IsName(t)
  {
  }

  /** The types with an edge to each type. */
  lemma EdgesInto(u: Name, e: Edge)
    requires u in Looped().types && e in Edges(Looped(), u)
    ensures e.target == "A" ==> u == "Q"
    ensures e.target == "B" ==> u == "A"
    ensures e.target == "T" ==> u == "B" || u == "U"
  {
    hide Looped, Edges;
    LoopedKeys();
    LoopedEdges();
    NamesAreDifferent();
  }

  // ---------- The walk ----------

  lemma PopNew(s: Schema, r: Run, rest: seq<Entry>, p: PathNode, es: seq<Edge>, children: seq<Entry>)
    requires r.stack == rest + [(p.Last(), p)] && Distinct(p.Types()) && p.Last() !in r.visited && s.Indexed(p.Last())
    requires Edges(s, p.Last()) == es && |children| == |es|
    requires forall i :: 0 <= i < |es| ==> children[i] == Child(p, es[i])
    ensures Pop(s, r).stack == rest + children && Pop(s, r).visited == r.visited + {p.Last()}
    ensures Pop(s, r).expanded == r.expanded + [p]
  {
    hide PathNode.HasCycle, PathNode.Types, PathNode.Last, Edges, Child;
    HasCycleIffRepeats(p);
    assert r.stack[..|r.stack| - 1] == rest;
    assert Children(s, p) == children;
    PopParts(s, r);
  }

  /** The path that the walk takes first: to `U` by way of `T`. */
  ghost function ToA(): PathNode {
    Child(New("Q"), To("a", "A")).1
  }

  ghost function ToB(): PathNode {
    Child(ToA(), To("b", "B")).1
  }

  ghost function ToT(): PathNode {
    Child(ToB(), To("t", "T")).1
  }

  ghost function ToU(): PathNode {
    Child(ToT(), To("u", "U")).1
  }

  lemma FirstPathTypes()
    ensures New("Q").Types() == ["Q"] && ToA().Types() == ["Q", "A"] && ToB().Types() == ["Q", "A", "B"]
    ensures ToT().Types() == ["Q", "A", "B", "T"] && ToU().Types() == ["Q", "A", "B", "T", "U"]
    ensures New("Q").Last() == "Q" && ToA().Last() == "A" && ToB().Last() == "B" && ToT().Last() == "T"
    ensures ToU().Last() == "U"
  {
    AddChildExtends(New("Q"), Some("a"), [], "A");
    AddChildExtends(ToA(), Some("b"), [], "B");
    AddChildExtends(ToB(), Some("t"), [], "T");
    AddChildExtends(ToT(), Some("u"), [], "U");
  }

  lemma NextState(s: Schema, roots: seq<Name>, n: nat)
    requires After(s, roots, n).stack != []
    ensures After(s, roots, n + 1) == Pop(s, After(s, roots, n))
  {
    hide Pop;
  }

  lemma ChildEntry(p: PathNode, e: Edge)
    ensures Child(p, e) == (e.target, Child(p, e).1)
  {
  }

  /** One turn on a new type with one edge. */
  lemma PopOnly(n: nat, up: Entry, p: PathNode, visited: set<Name>, e: Edge)
    requires After(Looped(), ["Q"], n).stack == [up] + [(p.Last(), p)] && After(Looped(), ["Q"], n).visited == visited
    requires p.Last() in Looped().types && p.Last() !in visited && Distinct(p.Types())
    requires Edges(Looped(), p.Last()) == [e]
    ensures After(Looped(), ["Q"], n + 1).stack == [up] + [(e.target, Child(p, e).1)]
    ensures After(Looped(), ["Q"], n + 1).visited == visited + {p.Last()}
    ensures p in After(Looped(), ["Q"], n + 1).expanded
  {
    hide Looped, Edges, Pop, Child, After, PathNode.Types, PathNode.Last;
    LoopedDefined();
    NextState(Looped(), ["Q"], n);
    ChildEntry(p, e);
    PopNew(Looped(), After(Looped(), ["Q"], n), [up], p, [e], [Child(p, e)]);
  }

  /** The entry of `U` below the query type stays at the bottom of the stack. */
  ghost function Below(): Entry {
    ("U", Child(New("Q"), To("u", "U")).1)
  }

  lemma WalkToA()
    ensures After(Looped(), ["Q"], 1).stack == [Below()] + [("A", ToA())] && After(Looped(), ["Q"], 1).visited == {"Q"}
  {
    hide Looped, Edges, Pop, Child;
    var s := Looped();
    LoopedDefined();
    LoopedEdges();
    assert After(s, ["Q"], 0).stack == [] + [("Q", New("Q"))];
    NextState(s, ["Q"], 0);
    ChildEntry(New("Q"), To("a", "A"));
    ChildEntry(New("Q"), To("u", "U"));
    PopNew(s, After(s, ["Q"], 0), [], New("Q"), Edges(s, "Q"), [Below(), ("A", ToA())]);
    assert [Below()] + [("A", ToA())] == [Below(), ("A", ToA())];
  }

  lemma WalkToT()
    ensures After(Looped(), ["Q"], 3).stack == [Below()] + [("T", ToT())]
    ensures After(Looped(), ["Q"], 3).visited == {"Q", "A", "B"}
  {
    hide Looped, Edges, After, Child, Below, PathNode.Types, PathNode.Last, Pop, Distinct;
    LoopedKeys();
    LoopedEdges();
    FirstPathTypes();
    FirstPathDiffers();
    NamesAreDifferent();
    WalkToA();
    PopOnly(1, Below(), ToA(), {"Q"}, To("b", "B"));
    PopOnly(2, Below(), ToB(), {"Q", "A"}, To("t", "T"));
    assert {"Q", "A"} + {"B"} == {"Q", "A", "B"};
  }

  /** `U` is expanded below `T`. */
  lemma WalkToU()
    ensures ToU() in After(Looped(), ["Q"], 5).expanded && After(Looped(), ["Q"], 4).stack != []
  {
    hide Looped, Edges, After, Child, Below, PathNode.Types, PathNode.Last, Pop, Distinct;
    LoopedKeys();
    LoopedEdges();
    FirstPathTypes();
    FirstPathDiffers();
    NamesAreDifferent();
    WalkToT();
    PopOnly(3, Below(), ToT(), {"Q", "A", "B"}, To("u", "U"));
    PopOnly(4, Below(), ToU(), {"Q", "A", "B", "T"}, To("t", "T"));
  }

  lemma FirstPathDiffers()
    ensures Distinct(ToA().Types()) && Distinct(ToB().Types()) && Distinct(ToT().Types()) && Distinct(ToU().Types())
  {
    hide ToA, ToB, ToT, ToU, PathNode.Types;
    FirstPathTypes();
    NamesAreDifferent();
  }

  // ---------- The index ----------

  lemma ExpandedAtTheEnd(n: nat)
    requires After(Looped(), ["Q"], n).stack == []
    ensures ToU() in After(Looped(), ["Q"], n).expanded
  {
    hide Looped, After;
    WalkToU();
    EndsAfter(n, 4);
    ExpandedGrows(Looped(), ["Q"], 5, n);
  }

  lemma {:induction false} EndsAfter(n: nat, k: nat)
    requires After(Looped(), ["Q"], n).stack == [] && After(Looped(), ["Q"], k).stack != []
    ensures k < n
  {
    hide Looped, Pop;
    if n <= k {
      StaysEnded(n, k);
    }
  }

  lemma {:induction false} StaysEnded(n: nat, k: nat)
    requires After(Looped(), ["Q"], n).stack == [] && n <= k
    ensures After(Looped(), ["Q"], k).stack == []
  {
    hide Looped, Pop;
    if n < k {
      StaysEnded(n, k - 1);
    }
  }

  /** The only recorded reference to a type with one edge into it is that edge; of `T`, the one from `B`. */
  lemma {:induction false} ReferencesOf(n: nat, index: Index, t: Name, x: string)
    requires After(Looped(), ["Q"], n).stack == []
    requires index == IndexOf(Yielded(Looped(), After(Looped(), ["Q"], n).popped))
    requires t in {"A", "B", "T"} && t in index && x in index[t]
    ensures Decode(x).from == if t == "A" then "Q" else if t == "B" then "A" else "B"
  {
    hide Looped, After, Edges, LegalNames, Encode, Decode, IndexOf, Yielded, IsIndexOf;
    NamesAreDifferent();
    WholeWalk(Looped(), ["Q"], n, index);
    RecordedIsEdge(index, t, x);
    var e := Edge(Decode(x).field, Decode(x).args, t);
    LoopedDefined();
    EdgesInto(Decode(x).from, e);
    if t == "T" && e in Edges(Looped(), "U") && "U" in Looped().types {
      BackEdgeIsDropped(n, index, e);
    }
  }

  lemma {:induction false} RecordedIsEdge(index: Index, t: Name, x: string)
    requires IsIndexOf(Looped(), ["Q"], index) && t in index && x in index[t]
    ensures var r := Decode(x);
            && Looped().Indexed(r.from) && Edge(r.field, r.args, t) in Edges(Looped(), r.from)
            && x == ReferenceBy(r.from, Edge(r.field, r.args, t))
  {
    hide Looped, Edges, LegalNames, Encode, Decode, IsIndexOf, Legal;
    LoopedLegal();
    IndexIsAcyclic(Looped(), ["Q"], index);
    var order :| Ranked(Looped(), ["Q"], index, order);
    assert Recorded(Looped(), index, order, t, x);
  }

  lemma {:induction false} BackEdgeIsDropped(n: nat, index: Index, e: Edge)
    requires After(Looped(), ["Q"], n).stack == [] && "T" in index
    requires index == IndexOf(Yielded(Looped(), After(Looped(), ["Q"], n).popped))
    requires e in Edges(Looped(), "U") && e.target == "T"
    ensures ReferenceBy("U", e) !in index["T"]
  {
    hide Looped, After, Edges, LegalNames, Encode, Decode, IndexOf, Yielded, PathNode.Types, PathNode.Last, ToU;
    LoopedLegal();
    ExpandedAtTheEnd(n);
    FirstPathTypes();
    assert ToU().Types()[3] == "T";
    DroppedIffBack(Looped(), ["Q"], n, index, ToU(), e);
  }

  /** A recorded path from the root to `T` has four types. */
  lemma {:induction false} OnlyTheLongWay(n: nat, index: Index, r: PathNode)
    requires After(Looped(), ["Q"], n).stack == []
    requires index == IndexOf(Yielded(Looped(), After(Looped(), ["Q"], n).popped))
    requires RootPath(index, "T", r)
    ensures r.Len() >= 4
  {
    hide Looped, After, LegalNames, Encode, Decode, IndexOf, Yielded;
    var s := Looped();
    LoopedLegal();
    WholeWalk(s, ["Q"], n, index);
    RootPathIsFromRoot(s, ["Q"], index, "T", r);
    NamesAreDifferent();
    if r.Len() < 4 {
      UpFrom(n, index, r);
    }
  }

  lemma {:induction false} UpFrom(n: nat, index: Index, r: PathNode)
    requires After(Looped(), ["Q"], n).stack == []
    requires index == IndexOf(Yielded(Looped(), After(Looped(), ["Q"], n).popped))
    requires UpPath(index, r) && r.Last() == "T" && r.Len() <= 3
    ensures r.nodeType == if r.Len() == 1 then "T" else if r.Len() == 2 then "B" else "A"
  {
    hide Looped, After, Encode, Decode, IndexOf, Yielded;
    if r.child.Some? {
      var c := r.child.value;
      UpFrom(n, index, c);
      var x :| x in index[c.nodeType] && r == ParentBy(c, x);
      ReferencesOf(n, index, c.nodeType, x);
    }
  }

  /** The path from the query type to `T` by way of `U` has three types, and the first answer for `T` has four. */
  lemma {:induction false} ShortestIsNeverFound() returns (index: Index)
    ensures IsIndexOf(Looped(), Traverse.RootTypes(Looped(), {Query}), index)
    ensures !FirstIsShortestInSchema(Looped(), Traverse.RootTypes(Looped(), {Query}), index)
    ensures FirstIsShortestFromRoots(Looped(), Traverse.RootTypes(Looped(), {Query}), index)
  {
    hide Looped, After, LegalNames, Traverse.RootTypes, IndexOf, Yielded, IsIndexOf, FirstIsShortestFromRoots;
    var s := Looped();
    LoopedDefined();
    LoopedLegal();
    var n := WalkEnds(s, ["Q"]);
    index := IndexOf(Yielded(s, After(s, ["Q"], n).popped));
    WholeWalk(s, ["Q"], n, index);
    QueriesAreShortest(s, index);
    if FirstIsShortestInSchema(s, ["Q"], index) {
      TInIndex(index);
      ShortWay();
      FirstIsNoLonger(s, ["Q"], index, ShortPath());
      var r :| RootPath(index, "T", r) && r.Len() <= 3;
      OnlyTheLongWay(n, index, r);
    }
  }

  /** `Q { u { t } }` */
  ghost function ShortPath(): PathNode {
    Child(Child(New("Q"), To("u", "U")).1, To("t", "T")).1
  }

  lemma ShortWay()
    ensures FromRoot(Looped(), ["Q"], ShortPath()) && ShortPath().Last() == "T" && ShortPath().Len() == 3
  {
    hide Looped, Edges, Child;
    LoopedDefined();
    LoopedEdges();
    assert FromRoot(Looped(), ["Q"], New("Q")) && New("Q").Last() == "Q" && New("Q").Len() == 1;
    ChildFromRoot(Looped(), ["Q"], New("Q"), To("u", "U"));
    ChildFromRoot(Looped(), ["Q"], Child(New("Q"), To("u", "U")).1, To("t", "T"));
  }

  lemma TInIndex(index: Index)
    requires IsIndexOf(Looped(), ["Q"], index)
    ensures "T" in index
  {
    hide Looped, IsIndexOf, Chain, FromRoot, PathNode.Types, PathNode.Last;
    LoopedDefined();
    ShortWay();
    var p := ShortPath();
    PathIsChain(Looped(), ["Q"], p, p.Len());
    assert p.Types()[..p.Len()] == p.Types();
    LastIsLast(p);
    IndexHoldsReachableTypes(Looped(), ["Q"], index, "T");
  }
}

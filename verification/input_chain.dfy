/** When the search tool keeps every input object in full (crates/apollo-mcp-server/src/introspection/tools/search.rs):
    exactly at a leaf depth of at most one. */
module InputChain {
  import opened GraphQL
  import opened Sequences
  import opened Graphs
  import opened ShakeViews
  import opened ShakeGraph
  import opened ShakeSpec
  import opened Paths
  import opened Walk
  import opened References
  import opened Indexing
  import opened Upward
  import opened Search
  import opened RootPaths
  import opened ShownTypes
  import opened SearchTool
  import Traverse

  /** Root paths that a search of a valid schema can return for some matches, of which sorting and truncation leave some
      in some order. */
  ghost predicate Answered(s: Schema, rootPaths: seq<PathNode>) {
    exists requested, index, matches, maxPaths, found ::
      AnsweredBy(s, Traverse.RootTypes(s, requested), index, matches, maxPaths, found, rootPaths)
  }

  ghost predicate AnsweredBy(
    s: Schema, roots: seq<Name>, index: Index, matches: seq<Name>, maxPaths: nat, found: seq<PathNode>,
    rootPaths: seq<PathNode>)
  {
    && s.WellFormed() && LegalNames(s) && UnionsOfObjects(s) && InputsTyped(s) && OutputsTyped(s, roots)
    && NoFieldReserved(s) && IsIndexOf(s, roots, index) && (forall t :: t in matches ==> t in index)
    && AnswersInTurn(s, roots, index, matches, maxPaths, found) && forall p :: p in rootPaths ==> p in found
  }

  // ---------- A chain of input objects ----------

  function In(i: nat): (t: Name)
    ensures |t| == i + 1 && IsName(t)
    ensures forall k :: 0 <= k < |t| ==> t[k] == 'I'
  {
    seq(i + 1, k => 'I')
  }

  function InputDef(d: nat, i: nat): TypeDef {
    TypeDef(In(i), false, [], InputObject([InputValue("x", if i < d then In(i + 1) else "S", [])]))
  }

  ghost function Inputs(d: nat): set<Name> {
    set i | 0 <= i <= d :: In(i)
  }

  function QueryDef(): TypeDef {
    TypeDef("Query", false, [], Object([TheField()], []))
  }

  function TheField(): FieldDef {
    FieldDef("f", "S", [InputValue("a", In(0), [])], [])
  }

  /** A query field with an argument of the first of `d + 1` input objects, each of which uses the next. */
  ghost function ChainOf(d: nat): Schema {
    Schema((map t | t in Inputs(d) :: InputDef(d, |t| - 1))
           + map["Query" := QueryDef(), "S" := TypeDef("S", false, [], Scalar)],
           ["Query", "S"] + seq(d + 1, i requires i >= 0 => In(i)), map[], map[Query := "Query"])
  }

  lemma InputsDiffer(i: nat)
    ensures In(i) != "Query" && In(i) != "S" && "Query" != "S"
  {
    assert In(i)[0] == 'I' && "Query"[0] == 'Q' && "S"[0] == 'S';
  }

  lemma ChainTypes(d: nat)
    ensures ChainOf(d).types.Keys == Inputs(d) + {"Query", "S"}
    ensures ChainOf(d).types["Query"] == QueryDef() && ChainOf(d).types["S"] == TypeDef("S", false, [], Scalar)
    ensures forall i: nat :: i <= d ==> In(i) in ChainOf(d).types && ChainOf(d).types[In(i)] == InputDef(d, i)
    ensures ChainOf(d).directives == map[] && ChainOf(d).roots == map[Query := "Query"]
    ensures ChainOf(d).typeOrder == ["Query", "S"] + seq(d + 1, i requires i >= 0 => In(i))
  {
    hide InputDef, QueryDef, In;
    InputsDiffer(0);
    forall i: nat | i <= d
      ensures In(i) in ChainOf(d).types && ChainOf(d).types[In(i)] == InputDef(d, i)
    {
      InputsDiffer(i);
      assert In(i) in Inputs(d);
    }
  }

  /** Every type of the chain is one of these. */
  lemma TypeIs(d: nat, t: Name) returns (i: nat)
    requires t in ChainOf(d).types
    ensures t == "Query" || t == "S" || (i <= d && t == In(i))
  {
    hide ChainOf, In;
    ChainTypes(d);
    i := 0;
    if t in Inputs(d) {
      i :| 0 <= i <= d && t == In(i);
    }
  }

  lemma OrderAt(d: nat, i: nat)
    requires i < d + 3
    ensures var order := ChainOf(d).typeOrder;
            |order| == d + 3 && order[i] == (if i == 0 then "Query" else if i == 1 then "S" else In(i - 2))
            && order[i] in ChainOf(d).types
  {
    hide ChainOf, InputDef, QueryDef, In;
    ChainTypes(d);
  }

  lemma OrderDiffers(d: nat, i: nat, j: nat)
    requires i < j < d + 3
    ensures |ChainOf(d).typeOrder| == d + 3 && ChainOf(d).typeOrder[i] != ChainOf(d).typeOrder[j]
  {
    hide ChainOf, In;
    OrderAt(d, i);
    OrderAt(d, j);
    InputsDiffer(0);
    if j >= 2 {
      InputsDiffer(j - 2);
      assert i >= 2 ==> |In(i - 2)| != |In(j - 2)|;
    }
  }

  lemma ChainIsWellFormed(d: nat)
    ensures ChainOf(d).WellFormed()
  {
    hide ChainOf, InputDef, QueryDef, In, Schema.Defined, Inputs;
    var s := ChainOf(d);
    OrderAt(d, 0);
    forall i, j | 0 <= i < j < |s.typeOrder|
      ensures s.typeOrder[i] != s.typeOrder[j]
    {
      OrderDiffers(d, i, j);
    }
    forall t | t in s.types
      ensures s.Defined(t)
    {
      ChainDefines(d, t);
    }
    forall i | 0 <= i < |s.typeOrder|
      ensures s.typeOrder[i] in s.types
    {
      OrderAt(d, i);
    }
  }

  lemma ChainDefines(d: nat, t: Name)
    requires t in ChainOf(d).types
    ensures ChainOf(d).Defined(t)
  {
    hide ChainOf, In;
    ChainTypes(d);
    var s := ChainOf(d);
    var i := TypeIs(d, t);
    if t == In(i) {
      InputsDiffer(i);
      assert s.typeOrder[i + 2] == In(i);
    } else {
      assert s.typeOrder[0] == "Query" && s.typeOrder[1] == "S";
    }
  }

  lemma ChainEdges(d: nat)
    ensures Edges(ChainOf(d), "Query") == [Edge(Some("f"), [In(0)], "S")]
    ensures forall t :: t != "Query" ==> Edges(ChainOf(d), t) == []
    ensures forall t :: t in ChainOf(d).types ==> ChainOf(d).Indexed(t)
  {
    hide ChainOf, In, Edges;
    QueryEdges(d);
    forall t | t in ChainOf(d).types
      ensures (t != "Query" ==> Edges(ChainOf(d), t) == []) && ChainOf(d).Indexed(t)
    {
      OnlyQueryHasEdges(d, t);
    }
    forall t | t !in ChainOf(d).types
      ensures Edges(ChainOf(d), t) == []
    {
      UnknownHasNoEdges(d, t);
    }
  }

  lemma QueryEdges(d: nat)
    ensures Edges(ChainOf(d), "Query") == [Edge(Some("f"), [In(0)], "S")]
  {
    hide ChainOf, In, ImplementerEdges, InputDef, Inputs;
    ChainTypes(d);
    assert ArgTypes(TheField().args) == [In(0)];
    assert FieldEdges([TheField()]) == [Edge(Some("f"), [In(0)], "S")];
  }

  lemma OnlyQueryHasEdges(d: nat, t: Name)
    requires t in ChainOf(d).types
    ensures (t != "Query" ==> Edges(ChainOf(d), t) == []) && ChainOf(d).Indexed(t)
  {
    hide ChainOf, In, ImplementerEdges, FieldEdges, MemberEdges, Inputs;
    ChainTypes(d);
    var i := TypeIs(d, t);
  }

  lemma UnknownHasNoEdges(d: nat, t: Name)
    requires t !in ChainOf(d).types
    ensures Edges(ChainOf(d), t) == []
  {
    hide ChainOf;
  }

  lemma ChainIsLegal(d: nat)
    ensures LegalNames(ChainOf(d))
  {
    hide ChainOf, Edges, IsName, In;
    ChainEdges(d);
    LettersAreNames();
    forall t | t in ChainOf(d).types
      ensures IsName(t)
    {
      var i := TypeIs(d, t);
      assert IsName(In(i));
    }
    assert IsName(In(0));
  }

  lemma LettersAreNames()
    ensures IsName("Query") && IsName("S") && IsName("f")
  {
  }

  /** A type is the query type, or has no fields and, if it is an input object, one input of an input type. */
  ghost predicate KindOk(s: Schema, kind: TypeKind) {
    && (kind.Scalar? || kind.InputObject?)
    && (kind.InputObject? ==> |kind.inputs| == 1 && AllInput(s, Known(s, [kind.inputs[0].ty])))
  }

  lemma InputKind(d: nat, i: nat)
    requires i <= d
    ensures In(i) in ChainOf(d).types && KindOk(ChainOf(d), ChainOf(d).types[In(i)].kind)
  {
    hide ChainOf, In, Known, IsInput, Inputs, QueryDef;
    ChainTypes(d);
    KnownOne(ChainOf(d), if i < d then In(i + 1) else "S");
    ChainInput(d, i);
  }

  lemma ChainKind(d: nat, t: Name)
    requires t in ChainOf(d).types && t != "Query"
    ensures KindOk(ChainOf(d), ChainOf(d).types[t].kind)
  {
    hide ChainOf, In, Known, IsInput, Inputs, InputDef, QueryDef, AllInput;
    ChainTypes(d);
    var i := TypeIs(d, t);
    if t == In(i) && i <= d {
      InputKind(d, i);
    }
  }

  lemma ChainInput(d: nat, i: nat)
    ensures i < d ==> IsInput(ChainOf(d), In(i + 1))
    ensures IsInput(ChainOf(d), "S") && IsInput(ChainOf(d), In(0))
  {
    hide ChainOf, In;
    ChainTypes(d);
  }

  lemma ChainIsTyped(d: nat)
    ensures UnionsOfObjects(ChainOf(d)) && InputsTyped(ChainOf(d)) && OutputsTyped(ChainOf(d), ["Query"])
    ensures NoFieldReserved(ChainOf(d))
  {
    hide ChainOf, In, Known, IsInput, InputDef, Inputs, KindOk, UnionsOfObjects, InputsTyped, OutputsTyped;
    hide NoFieldReserved;
    ChainTypes(d);
    var s := ChainOf(d);
    forall t | t in s.types && t != "Query"
      ensures KindOk(s, s.types[t].kind)
    {
      ChainKind(d, t);
    }
    assert ArgTypes(TheField().args) == [In(0)];
    KnownOne(s, In(0));
    ChainInput(d, 0);
    ArgumentsTyped(s);
    ResultsTyped(s);
  }

  lemma ArgumentsTyped(s: Schema)
    requires "Query" in s.types && s.types["Query"] == QueryDef() && s.directives == map[]
    requires forall t :: t in s.types && t != "Query" ==> KindOk(s, s.types[t].kind)
    requires Known(s, ArgTypes(TheField().args)) <= {In(0)} && IsInput(s, In(0))
    ensures InputsTyped(s) && UnionsOfObjects(s)
  {
    hide In, Known, IsInput;
  }

  lemma ResultsTyped(s: Schema)
    requires "Query" in s.types && s.types["Query"] == QueryDef()
    requires "S" in s.types && s.types["S"].kind.Scalar?
    requires forall t :: t in s.types && t != "Query" ==> KindOk(s, s.types[t].kind)
    ensures OutputsTyped(s, ["Query"]) && NoFieldReserved(s)
  {
    hide In, Known;
  }

  // ---------- What is within a distance ----------

  lemma ChainUses(d: nat)
    ensures Uses(ChainOf(d), "Query") == {"S", In(0)} && Uses(ChainOf(d), "S") == {}
    ensures forall i: nat :: i < d ==> Uses(ChainOf(d), In(i)) == {In(i + 1)}
  {
    hide ChainOf, In, Uses;
    QueryUses(d);
    forall i: nat | i < d
      ensures Uses(ChainOf(d), In(i)) == {In(i + 1)}
    {
      InputUses(d, i);
    }
  }

  lemma QueryUses(d: nat)
    ensures Uses(ChainOf(d), "Query") == {"S", In(0)} && Uses(ChainOf(d), "S") == {}
  {
    hide ChainOf, In, Known, DirectiveTypes, FieldTypes, FieldsTypes, InputDef, Inputs;
    var s := ChainOf(d);
    ChainTypes(d);
    NoDirectives(s);
    KnownOne(s, "S");
    KnownOne(s, In(0));
    assert ArgTypes(TheField().args) == [In(0)];
    OneFieldType(s, TheField());
    FieldTypesAre(s, TheField());
  }

  lemma InputUses(d: nat, i: nat)
    requires i < d
    ensures Uses(ChainOf(d), In(i)) == {In(i + 1)}
  {
    hide ChainOf, In, Known, DirectiveTypes, InputsTypes, QueryDef, Inputs;
    var s := ChainOf(d);
    ChainTypes(d);
    NoDirectives(s);
    OneInputType(s, InputValue("x", In(i + 1), []));
    KnownOne(s, In(i + 1));
  }

  lemma FieldTypesAre(s: Schema, f: FieldDef)
    ensures FieldTypes(s, f) == Known(s, [f.ty]) + Known(s, ArgTypes(f.args)) + DirectiveTypes(s, f.directives)
  {
  }

  lemma NoDirectives(s: Schema)
    ensures DirectiveTypes(s, []) == {}
  {
  }

  lemma OneFieldType(s: Schema, f: FieldDef)
    ensures FieldsTypes(s, [f]) == FieldTypes(s, f)
  {
    hide FieldTypes;
    assert f in [f];
  }

  lemma OneInputType(s: Schema, i: InputValue)
    ensures InputsTypes(s, [i]) == Known(s, [i.ty]) + DirectiveTypes(s, i.directives)
  {
    hide Known, DirectiveTypes;
    assert i in [i];
  }

  /** Within `k` of the query type: the input object `In(i)` if `i + 2 <= k`. */
  ghost predicate Near(k: nat, u: Name) {
    (k > 0 && (u == "Query" || u == "S")) || exists i: nat :: i + 2 <= k && u == In(i)
  }

  lemma {:induction false} BallIsNear(d: nat, k: nat)
    requires k <= d
    ensures forall u :: u in Ball(UseGraph(ChainOf(d)), {"Query"}, k) ==> Near(k, u)
  {
    hide ChainOf, Uses, In, Ball, UseGraph, Next;
    var g := UseGraph(ChainOf(d));
    if k == 0 {
      NothingNear(g);
    } else {
      BallIsNear(d, k - 1);
      BallLayers(g, {"Query"}, k - 1);
      ChainUses(d);
      forall u | u in NextOf(g, Ball(g, {"Query"}, k - 1))
        ensures Near(k, u)
      {
        var t :| t in Ball(g, {"Query"}, k - 1) && u in Next(g, t);
        UsesAreNext(ChainOf(d), t);
        if t == "Query" {
          assert u == "S" || 0 + 2 <= k;
        } else if t != "S" {
          var i: nat :| i + 2 <= k - 1 && t == In(i);
          assert (i + 1) + 2 <= k && u == In(i + 1);
        }
      }
    }
  }

  lemma NothingNear(g: Graph)
    ensures Ball(g, {"Query"}, 0) == {}
  {
  }

  lemma {:induction false} NearIsInBall(d: nat, i: nat)
    requires i + 2 <= d
    ensures In(i) in Ball(UseGraph(ChainOf(d)), {"Query"}, i + 2)
    ensures "Query" in Ball(UseGraph(ChainOf(d)), {"Query"}, i + 2)
  {
    hide ChainOf, Uses, In, Ball, UseGraph, Next;
    var s, g := ChainOf(d), UseGraph(ChainOf(d));
    ChainUses(d);
    QueryIsNode(d);
    BallLayers(g, {"Query"}, i);
    BallLayers(g, {"Query"}, i + 1);
    if i == 0 {
      UsesAreNext(s, "Query");
    } else {
      NearIsInBall(d, i - 1);
      UsesAreNext(s, In(i - 1));
    }
  }

  lemma QueryIsNode(d: nat)
    ensures "Query" in UseGraph(ChainOf(d)) && "S" in UseGraph(ChainOf(d))
  {
    hide ChainOf;
    ChainTypes(d);
  }

  /** All between grow. */
  lemma {:induction false} BallsGrow(g: Graph, from: set<Name>, k: nat, d: nat)
    requires k <= d
    ensures Ball(g, from, k) <= Ball(g, from, d)
  {
    hide Ball;
    if k < d {
      BallsGrow(g, from, k, d - 1);
      BallGrows(g, from, d - 1);
    }
  }

  lemma ScalarAlone(d: nat, k: nat)
    requires k > 0
    ensures Ball(UseGraph(ChainOf(d)), {"S"}, k) == {"S"}
  {
    hide ChainOf, Uses, In, UseGraph, Next;
    var g := UseGraph(ChainOf(d));
    ChainUses(d);
    QueryIsNode(d);
    UsesAreNext(ChainOf(d), "S");
    assert {"S"} * g.Keys == {"S"};
    assert NextOf(g, {"S"}) == {};
    BallEmpty(g, k - 1);
  }

  // ---------- What the tool shows of it ----------

  /** `Query { f(a: In(0)) }` */
  function ThePath(): PathNode {
    PathNode("Query", Some("f"), [In(0)], Some(New("S")))
  }

  lemma ChainNodes()
    ensures AllNodes([New("Query"), ThePath()]) == [New("Query"), ThePath(), New("S")]
  {
    hide In;
    var paths := [New("Query"), ThePath()];
    assert paths[..1] == [New("Query")] && [New("Query")][..0] == [];
    assert Nodes(ThePath()) == [ThePath(), New("S")];
  }

  /** A match on the query type retains the first input objects, and none of the others is retained later: the argument
      finds its type retained. */
  lemma ChainShown(d: nat)
    requires d >= 2
    ensures Shown(ChainOf(d), d, [New("Query"), ThePath(), New("S")])
         == Ball(UseGraph(ChainOf(d)), {"Query"}, d) + {"S"}
  {
    hide ChainOf, UseGraph, Ball, In, AfterNode;
    var s, g := ChainOf(d), UseGraph(ChainOf(d));
    var ball := Ball(g, {"Query"}, d);
    assert [New("Query"), ThePath(), New("S")] == ([New("Query")] + [ThePath()]) + [New("S")];
    assert [] + [New("Query")] == [New("Query")];
    ShownNext(s, d, [New("Query")] + [ThePath()], New("S"));
    ShownNext(s, d, [New("Query")], ThePath());
    ShownNext(s, d, [], New("Query"));
    AfterLeaf(s, d, "Query", {});
    assert Shown(s, d, []) + ball == ball;
    assert Shown(s, d, [New("Query")]) == ball;
    AfterThePath(d);
    ScalarAlone(d, d);
    AfterLeaf(s, d, "S", ball);
  }

  lemma AfterLeaf(s: Schema, d: nat, t: Name, types: set<Name>)
    ensures AfterNode(s, d, New(t), types) == types + Ball(UseGraph(s), {t}, d)
  {
    hide UseGraph, Ball;
  }

  /** The query type and the first input object are retained by then. */
  lemma AfterThePath(d: nat)
    requires d >= 2
    ensures var ball := Ball(UseGraph(ChainOf(d)), {"Query"}, d); AfterNode(ChainOf(d), d, ThePath(), ball) == ball
  {
    hide ChainOf, UseGraph, Ball, Expands, In, AfterArguments;
    var s, g := ChainOf(d), UseGraph(ChainOf(d));
    var ball := Ball(g, {"Query"}, d);
    NearIsInBall(d, 0);
    BallsGrow(g, {"Query"}, 2, d);
    assert ball + {"Query"} * s.types.Keys == ball;
    ExpandsNothing(g, ball, {In(0)});
    OneArgument(s, In(0), ball);
  }

  lemma OneArgument(s: Schema, a: Name, types: set<Name>)
    ensures AfterArguments(s, [a], types) == types + Expands(UseGraph(s), Unlimited, types, {a})
  {
    hide Expands, UseGraph;
    assert [a][..0] == [];
  }

  /** The last input object within the leaf depth is shown without the one that it uses. */
  lemma ChainLeftInPart(d: nat)
    requires d >= 2
    ensures var s, shown := ChainOf(d), Shown(ChainOf(d), d, AllNodes([New("Query"), ThePath()]));
            && IsInputObject(s, In(d - 2)) && s.Indexed(In(d - 2)) && s.Indexed(In(d - 1))
            && In(d - 1) in Uses(s, In(d - 2)) && In(d - 2) in shown && In(d - 1) !in shown
  {
    hide ChainOf, UseGraph, Ball, In, Shown, Uses, AllNodes, ThePath, QueryDef, Inputs, Near;
    ChainNodes();
    ChainShown(d);
    ChainTypes(d);
    ChainUses(d);
    NearIsInBall(d, d - 2);
    BallIsNear(d, d);
    InputsDiffer(d - 1);
    NotNear(d);
  }

  lemma NotNear(d: nat)
    requires d > 0
    ensures !Near(d, In(d - 1))
  {
    InputsDiffer(d - 1);
    assert forall i: nat :: In(i) == In(d - 1) ==> |In(i)| == |In(d - 1)|;
  }

  // ---------- The search finds these paths ----------

  lemma QueryAlone(d: nat, p: PathNode)
    requires FromRoot(ChainOf(d), ["Query"], p) && p.Last() == "Query" && Distinct(p.Types())
    requires p.child.None? ==> p == New(p.nodeType)
    ensures p == New("Query")
  {
    hide ChainOf, IsEdge;
    var ts := p.Types();
    assert ts[0] == p.nodeType && ts[|ts| - 1] == p.Last();
  }

  lemma ScalarByField(d: nat, index: Index, p: PathNode)
    requires FromRoot(ChainOf(d), ["Query"], p) && p.Last() == "S" && UpPath(index, p)
    ensures p == ThePath()
  {
    hide ChainOf, Edges, In, ParentBy;
    ChainEdges(d);
    InputsDiffer(0);
    StepsJoinTypes(p);
    var steps := p.Steps();
    LastIsLast(p);
    assert |steps| > 0 ==> IsEdge(ChainOf(d), steps[0]) && steps[0].to == "S";
    assert |steps| > 1 ==> steps[1].from == steps[0].to && IsEdge(ChainOf(d), steps[1]);
    assert |steps| <= 1;
  }

  lemma {:induction false} ChainIsIndexed(d: nat, index: Index)
    requires IsIndexOf(ChainOf(d), ["Query"], index)
    ensures "Query" in index && "S" in index
  {
    hide ChainOf, Edges, IsIndexOf, In;
    var s := ChainOf(d);
    ChainTypes(d);
    ChainEdges(d);
    assert Chain(s, ["Query"], ["Query"]) && ["Query"][|["Query"]| - 1] == "Query";
    var ts := ["Query", "S"];
    assert ts[..1] == ["Query"];
    assert Edges(s, "Query")[0] in Edges(s, "Query");
    assert HasEdge(s, "Query", "S");
    assert Chain(s, ["Query"], ts) && ts[|ts| - 1] == "S";
    IndexHoldsReachableTypes(s, ["Query"], index, "Query");
    IndexHoldsReachableTypes(s, ["Query"], index, "S");
  }

  lemma {:induction false} ChainIsAnswered(d: nat)
    ensures Answered(ChainOf(d), [New("Query"), ThePath()])
  {
    hide ChainOf, IsIndexOf, LegalNames, AnswersInTurn, After, IndexOf, Yielded, ThePath, UnionsOfObjects, InputsTyped;
    hide OutputsTyped, NoFieldReserved;
    var s, roots := ChainOf(d), ["Query"];
    ChainIsWellFormed(d);
    ChainIsLegal(d);
    ChainIsTyped(d);
    ChainRoots(d);
    var n := WalkEnds(s, roots);
    var index := IndexOf(Yielded(s, After(s, roots, n).popped));
    WholeWalk(s, roots, n, index);
    ChainIsIndexed(d, index);
    var matches := ["Query", "S"];
    var found := ChainAnswers(d, index);
    assert AnsweredBy(s, Traverse.RootTypes(s, {Query}), index, matches, 1, found, [New("Query"), ThePath()]);
  }

  lemma ChainRoots(d: nat)
    ensures Traverse.RootTypes(ChainOf(d), {Query}) == ["Query"]
  {
    hide ChainOf;
    ChainTypes(d);
  }

  lemma {:induction false} ChainAnswers(d: nat, index: Index) returns (found: seq<PathNode>)
    requires LegalNames(ChainOf(d)) && IsIndexOf(ChainOf(d), ["Query"], index) && "Query" in index && "S" in index
    ensures AnswersInTurn(ChainOf(d), ["Query"], index, ["Query", "S"], 1, found)
    ensures New("Query") in found && ThePath() in found
  {
    hide ChainOf, IsIndexOf, LegalNames, Answers, ThePath;
    var s, roots := ChainOf(d), ["Query"];
    var first := AnswersExist(s, roots, index, "Query", 1);
    var second := AnswersExist(s, roots, index, "S", 1);
    assert ["Query"][..0] == [] && ["Query", "S"][..1] == ["Query"];
    AnswersNext(s, roots, index, ["Query"], 1, [], first);
    AnswersNext(s, roots, index, ["Query", "S"], 1, [] + first, second);
    found := [] + first + second;
    FirstAnswer(d, index, "Query", first);
    FirstAnswer(d, index, "S", second);
    assert first[0] in found && second[0] in found;
  }

  lemma FirstAnswer(d: nat, index: Index, matched: Name, found: seq<PathNode>)
    requires Answers(ChainOf(d), ["Query"], index, matched, 1, found) && matched in {"Query", "S"}
    ensures found != [] && found[0] == if matched == "Query" then New("Query") else ThePath()
  {
    hide ChainOf, FromRoot, ThePath, PathNode.Types;
    if matched == "Query" {
      QueryAlone(d, found[0]);
    } else {
      ScalarByField(d, index, found[0]);
    }
  }

  // ---------- The exact condition ----------

  lemma {:induction false} AnsweredInFull(s: Schema, rootPaths: seq<PathNode>, leafDepth: nat)
    requires Answered(s, rootPaths) && leafDepth <= 1
    ensures InputsInFull(s, Shown(s, leafDepth, AllNodes(rootPaths)))
  {
    hide UnionsOfObjects, InputsTyped, OutputsTyped, NoFieldReserved, IsIndexOf, LegalNames, AnswersInTurn, OutputsOnly;
    hide InputsInFull, Shown, AllNodes, Traverse.RootTypes, IsEdge;
    var requested, index, matches, maxPaths, found :|
      AnsweredBy(s, Traverse.RootTypes(s, requested), index, matches, maxPaths, found, rootPaths);
    var roots := Traverse.RootTypes(s, requested);
    forall p | p in rootPaths
      ensures OutputsOnly(s, p)
    {
      AnswersAreOutputs(s, roots, index, matches, maxPaths, found, p);
    }
    PathsInFull(s, leafDepth, rootPaths);
  }

  /** The tool keeps every input object in full, for all answers of the search on all schemas, if and only if the leaf
      depth is at most one. */
  lemma {:induction false} FullInputsIff(leafDepth: nat)
    ensures (forall s, rootPaths :: Answered(s, rootPaths) ==>
               InputsInFull(s, Shown(s, leafDepth, AllNodes(rootPaths))))
       <==> leafDepth <= 1
  {
    hide Answered, InputsInFull, Shown, AllNodes, ChainOf, ThePath, In;
    if leafDepth <= 1 {
      forall s, rootPaths | Answered(s, rootPaths)
        ensures InputsInFull(s, Shown(s, leafDepth, AllNodes(rootPaths)))
      {
        AnsweredInFull(s, rootPaths, leafDepth);
      }
    } else {
      var s, rootPaths := ChainOf(leafDepth), [New("Query"), ThePath()];
      ChainIsAnswered(leafDepth);
      ChainLeftInPart(leafDepth);
      if InputsInFull(s, Shown(s, leafDepth, AllNodes(rootPaths))) {
        InFullHolds(s, Shown(s, leafDepth, AllNodes(rootPaths)), In(leafDepth - 2));
        assert false;
      }
    }
  }

  lemma InFullHolds(s: Schema, types: set<Name>, u: Name)
    requires InputsInFull(s, types) && u in types && IsInputObject(s, u)
    ensures Uses(s, u) <= types
  {
  }
}

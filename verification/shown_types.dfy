/** Which types the search tool retains for a list of root paths, as sets
    (crates/apollo-mcp-server/src/introspection/tools/search.rs). */
module ShownTypes {
  import opened GraphQL
  import opened Graphs
  import opened ShakeGraph
  import opened Paths

  /** The nodes of a path, from the top. */
  function Nodes(p: PathNode): (r: seq<PathNode>)
    ensures |r| == p.Len()
  {
    [p] + match p.child { case Some(c) => Nodes(c) case None => [] }
  }

  function AllNodes(paths: seq<PathNode>): seq<PathNode> {
    if paths == [] then [] else AllNodes(paths[..|paths| - 1]) + Nodes(paths[|paths| - 1])
  }

  // ---------- The types retained, one node after another ----------

  /** Each argument type with all that a walk from it reaches around the types retained before. */
  ghost function AfterArguments(s: Schema, args: seq<Name>, types: set<Name>): set<Name> {
    if args == [] then types else
    var before := AfterArguments(s, args[..|args| - 1], types);
    before + Expands(UseGraph(s), Unlimited, before, {args[|args| - 1]})
  }

  /** The last type of a path with what lies within the leaf depth of it, and the others alone. */
  ghost function OfNode(s: Schema, leafDepth: nat, n: PathNode): set<Name> {
    if n.child.Some? then {n.nodeType} * s.types.Keys else Ball(UseGraph(s), {n.nodeType}, leafDepth)
  }

  ghost function AfterNode(s: Schema, leafDepth: nat, n: PathNode, types: set<Name>): set<Name> {
    AfterArguments(s, n.fieldArgs, types + OfNode(s, leafDepth, n))
  }

  /** The types retained after some nodes, in their order. */
  ghost function Shown(s: Schema, leafDepth: nat, nodes: seq<PathNode>): set<Name> {
    if nodes == [] then {} else
    AfterNode(s, leafDepth, nodes[|nodes| - 1], Shown(s, leafDepth, nodes[..|nodes| - 1]))
  }

  lemma ShownNext(s: Schema, leafDepth: nat, nodes: seq<PathNode>, n: PathNode)
    ensures Shown(s, leafDepth, nodes + [n]) == AfterNode(s, leafDepth, n, Shown(s, leafDepth, nodes))
  {
    hide AfterNode;
    assert (nodes + [n])[..|nodes|] == nodes;
  }

  lemma ArgumentsNext(s: Schema, args: seq<Name>, i: nat, types: set<Name>)
    requires i < |args|
    ensures var before := AfterArguments(s, args[..i], types);
            AfterArguments(s, args[..i + 1], types) == before + Expands(UseGraph(s), Unlimited, before, {args[i]})
  {
    hide Expands;
    assert args[..i + 1][..i] == args[..i];
  }

  // ---------- Bounds ----------

  /** What the tool asks for at a node: a type on the way alone, the last type with all at distance below the leaf
      depth, and all that the types of its arguments reach. */
  ghost predicate AskedFor(s: Schema, leafDepth: nat, n: PathNode, u: Name) {
    || (n.child.Some? && u == n.nodeType)
    || (n.child.None? && Within(UseGraph(s), {n.nodeType}, leafDepth, u))
    || exists a :: a in n.fieldArgs && u in Reach(UseGraph(s), {a})
  }

  lemma {:induction false} ArgumentsBound(s: Schema, args: seq<Name>, types: set<Name>)
    ensures types <= AfterArguments(s, args, types)
    ensures forall a :: a in args && a in s.types ==> a in AfterArguments(s, args, types)
    ensures forall u :: u in AfterArguments(s, args, types) ==>
              u in types || exists a :: a in args && u in Reach(UseGraph(s), {a})
  {
    hide Expands, UseGraph;
    if args != [] {
      var k := |args| - 1;
      var g, before := UseGraph(s), AfterArguments(s, args[..k], types);
      ArgumentsBound(s, args[..k], types);
      ExpandsMonotone(g, before, {}, {args[k]}, {args[k]});
      assert args == args[..k] + [args[k]];
      ArgumentIsRetained(s, before, args[k]);
    }
  }

  lemma ArgumentIsRetained(s: Schema, before: set<Name>, a: Name)
    ensures a in s.types ==> a in before + Expands(UseGraph(s), Unlimited, before, {a})
  {
    hide Walk;
    if a in s.types && a !in before {
      WalkStart(UseGraph(s), before, {a}, a);
    }
  }

  lemma OfNodeIs(s: Schema, leafDepth: nat, n: PathNode, u: Name)
    ensures u in OfNode(s, leafDepth, n) <==>
              u in s.types && if n.child.Some? then u == n.nodeType else Within(UseGraph(s), {n.nodeType}, leafDepth, u)
  {
    BallIsDistance(UseGraph(s), {n.nodeType}, leafDepth, u);
    BallKnown(UseGraph(s), {n.nodeType}, leafDepth);
  }

  /** Nothing is retained but what some node asks for, and all of it is but for what the arguments' types reach; of
      that, the types of the arguments themselves always are. */
  lemma {:induction false} ShownBounds(s: Schema, leafDepth: nat, nodes: seq<PathNode>)
    ensures forall u :: u in Shown(s, leafDepth, nodes) ==> exists n :: n in nodes && AskedFor(s, leafDepth, n, u)
    ensures forall n :: n in nodes && n.child.Some? && n.nodeType in s.types ==>
              n.nodeType in Shown(s, leafDepth, nodes)
    ensures forall n, u :: n in nodes && n.child.None? && u in s.types ==>
              (Within(UseGraph(s), {n.nodeType}, leafDepth, u) ==> u in Shown(s, leafDepth, nodes))
    ensures forall n, a :: n in nodes && a in n.fieldArgs && a in s.types ==> a in Shown(s, leafDepth, nodes)
  {
    hide OfNode, Expands, UseGraph, AfterArguments, Within;
    if nodes != [] {
      var k := |nodes| - 1;
      ShownBounds(s, leafDepth, nodes[..k]);
      assert nodes == nodes[..k] + [nodes[k]];
      var types := Shown(s, leafDepth, nodes[..k]) + OfNode(s, leafDepth, nodes[k]);
      ArgumentsBound(s, nodes[k].fieldArgs, types);
      forall u
        ensures u in OfNode(s, leafDepth, nodes[k]) <==>
                  && u in s.types
                  && if nodes[k].child.Some? then u == nodes[k].nodeType
                     else Within(UseGraph(s), {nodes[k].nodeType}, leafDepth, u)
      {
        OfNodeIs(s, leafDepth, nodes[k], u);
      }
      forall u | u in Shown(s, leafDepth, nodes)
        ensures exists n :: n in nodes && AskedFor(s, leafDepth, n, u)
      {
        if u in Shown(s, leafDepth, nodes[..k]) {
          var n :| n in nodes[..k] && AskedFor(s, leafDepth, n, u);
          assert n in nodes;
        } else {
          assert AskedFor(s, leafDepth, nodes[k], u);
          assert nodes[k] in nodes;
        }
      }
    }
  }

  lemma NodeIsShown(s: Schema, leafDepth: nat, nodes: seq<PathNode>, n: PathNode)
    requires n in nodes && n.nodeType in s.types && (n.child.Some? || leafDepth > 0)
    ensures n.nodeType in Shown(s, leafDepth, nodes)
  {
    hide Shown;
    ShownBounds(s, leafDepth, nodes);
    if n.child.None? {
      var g := UseGraph(s);
      assert Walk(g, {}, {n.nodeType}, [n.nodeType]) && [n.nodeType][|[n.nodeType]| - 1] == n.nodeType;
      assert Within(g, {n.nodeType}, leafDepth, n.nodeType);
    }
  }

  // ---------- Input objects in full ----------

  predicate IsInputObject(s: Schema, t: Name) {
    t in s.types && s.types[t].kind.InputObject?
  }

  /** Every retained input object has all that it uses retained. */
  ghost predicate InputsInFull(s: Schema, types: set<Name>) {
    forall u :: u in types && IsInputObject(s, u) ==> Uses(s, u) <= types
  }

  /** A retention without a limit keeps input objects in full, whatever was retained before. */
  lemma FullAfterAll(s: Schema, types: set<Name>, t: Name)
    requires InputsInFull(s, types)
    ensures InputsInFull(s, types + Expands(UseGraph(s), Unlimited, types, {t}))
  {
    hide Uses, WalkTo;
    var g := UseGraph(s);
    var x := Expands(g, Unlimited, types, {t});
    forall u, w | u in x && w in Uses(s, u) && w !in types
      ensures w in x
    {
      UsesAreNext(s, u);
      NextAreKnown(g, u);
      WalkExtend(g, types, {t}, u, w);
    }
  }

  lemma UsesAreNext(s: Schema, u: Name)
    ensures Next(UseGraph(s), u) == Uses(s, u)
  {
    UsesAreKnown(s, u);
    assert UseGraph(s).Keys == s.types.Keys;
  }

  lemma {:induction false} FullAfterArguments(s: Schema, args: seq<Name>, types: set<Name>)
    requires InputsInFull(s, types)
    ensures InputsInFull(s, AfterArguments(s, args, types))
  {
    hide Expands, UseGraph, InputsInFull;
    if args != [] {
      var k := |args| - 1;
      FullAfterArguments(s, args[..k], types);
      FullAfterAll(s, AfterArguments(s, args[..k], types), args[k]);
    }
  }

  /** At a leaf depth of at most one a node retains its own type alone. */
  lemma OnlyItself(s: Schema, leafDepth: nat, n: PathNode)
    requires leafDepth <= 1
    ensures OfNode(s, leafDepth, n) <= {n.nodeType}
  {
    var g := UseGraph(s);
    assert Ball(g, NextOf(g, {n.nodeType} * g.Keys), 0) == {};
  }

  /** At a leaf depth of at most one, paths through output types keep every input object in full. */
  lemma {:induction false} FullWhenShallow(s: Schema, leafDepth: nat, nodes: seq<PathNode>)
    requires leafDepth <= 1 && forall n :: n in nodes ==> !IsInputObject(s, n.nodeType)
    ensures InputsInFull(s, Shown(s, leafDepth, nodes))
  {
    hide OfNode, UseGraph, IsInputObject, Uses, AfterArguments;
    if nodes != [] {
      var k := |nodes| - 1;
      FullWhenShallow(s, leafDepth, nodes[..k]);
      OnlyItself(s, leafDepth, nodes[k]);
      FullAfterArguments(s, nodes[k].fieldArgs, Shown(s, leafDepth, nodes[..k]) + OfNode(s, leafDepth, nodes[k]));
    }
  }
}

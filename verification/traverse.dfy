/** The depth-first walk over the types of a schema (crates/apollo-schema-index/src/traverse.rs), on values:
    what one pop of the stack does, and what every pop keeps. */
module Walk {
  import opened GraphQL
  import opened Sequences
  import opened Paths

  type Entry = (Name, PathNode)

  /** An edge out of a type, as the walk pushes it. */
  datatype Edge = Edge(field: Option<Name>, args: seq<Name>, target: Name)

  function FieldEdges(fields: seq<FieldDef>): (r: seq<Edge>)
    ensures |r| == |fields|
  {
    seq(|fields|, i requires 0 <= i < |fields| => Edge(Some(fields[i].name), ArgTypes(fields[i].args), fields[i].ty))
  }

  /** The object types, in schema order, that declare that they implement `iface`. */
  function ImplementerEdges(s: Schema, order: seq<Name>, iface: Name): seq<Edge> {
    if order == [] then [] else
    var n := order[0];
    var rest := ImplementerEdges(s, order[1..], iface);
    if n in s.types && s.types[n].kind.Object? && iface in s.types[n].kind.implements
    then [Edge(None, [], n)] + rest
    else rest
  }

  function MemberEdges(members: seq<Name>): (r: seq<Edge>)
    ensures |r| == |members|
  {
    seq(|members|, i requires 0 <= i < |members| => Edge(None, [], members[i]))
  }

  /** Every edge out of `t`, in the order in which the walk pushes them. */
  function Edges(s: Schema, t: Name): seq<Edge> {
    if t !in s.types then [] else
    match s.types[t].kind
    case Object(fields, _) => FieldEdges(fields)
    case Interface(fields, _) => FieldEdges(fields) + ImplementerEdges(s, s.typeOrder, t)
    case Union(members) => MemberEdges(members)
    case _ => []
  }

  function Child(p: PathNode, e: Edge): Entry {
    (e.target, p.AddChild(e.field, e.args, e.target))
  }

  function Children(s: Schema, p: PathNode): (r: seq<Entry>)
    ensures |r| == |Edges(s, p.Last())|
  {
    var es := Edges(s, p.Last());
    seq(|es|, i requires 0 <= i < |es| => Child(p, es[i]))
  }

  /** The walk yields the paths without a cycle that end at an indexed type. */
  predicate Yields(s: Schema, p: PathNode) {
    !p.HasCycle() && s.Indexed(p.Last())
  }

  function Yielded(s: Schema, popped: seq<PathNode>): (r: seq<PathNode>)
    ensures forall p :: p in r <==> p in popped && Yields(s, p)
  {
    if popped == [] then [] else
    var p := popped[|popped| - 1];
    Yielded(s, popped[..|popped| - 1]) + (if Yields(s, p) then [p] else [])
  }

  lemma {:induction false} YieldedCount(s: Schema, popped: seq<PathNode>, p: PathNode)
    ensures multiset(Yielded(s, popped))[p] == if Yields(s, p) then multiset(popped)[p] else 0
  {
    if popped != [] {
      var n := |popped| - 1;
      YieldedCount(s, popped[..n], p);
      assert popped == popped[..n] + [popped[n]];
    }
  }

  /** A state of the walk. `stack` and `visited` are what the program keeps. The rest is history: the paths
      `popped` so far, the first paths `expanded` to an indexed type, and a finishing `order` in which every
      open type comes after all types that finished before it. */
  datatype Run = Run(
    stack: seq<Entry>,
    visited: set<Name>,
    popped: seq<PathNode>,
    expanded: seq<PathNode>,
    order: seq<Name>)

  function Start(roots: seq<Name>): Run {
    Run(RootEntries(roots), {}, [], [], [])
  }

  function RootEntries(roots: seq<Name>): (r: seq<Entry>)
    ensures |r| == |roots|
  {
    seq(|roots|, i requires 0 <= i < |roots| => (roots[i], New(roots[i])))
  }

  /** The path on which the entry at the top of the stack hangs: the types that are still open. */
  function Open(stack: seq<Entry>): seq<Name> {
    if stack == [] then [] else stack[|stack| - 1].1.ParentTypes()
  }

  /** Where the open types begin in the finishing order. */
  function OpenStart(r: Run): (k: nat)
    ensures k <= |r.order|
  {
    if |Open(r.stack)| <= |r.order| then |r.order| - |Open(r.stack)| else 0
  }

  /** One turn of the loop: pop a path, and expand its last type when it is new and indexed. */
  function Pop(s: Schema, r: Run): Run
    requires r.stack != []
  {
    var (t, p) := r.stack[|r.stack| - 1];
    var rest := r.stack[..|r.stack| - 1];
    if p.HasCycle() then
      r.(stack := rest, popped := r.popped + [p])
    else if t in r.visited then
      r.(stack := rest, popped := r.popped + [p])
    else
      var order := Insert(r.order, OpenStart(r), t);
      if s.Indexed(t) then
        Run(rest + Children(s, p), r.visited + {t}, r.popped + [p], r.expanded + [p], order)
      else
        Run(rest, r.visited + {t}, r.popped + [p], r.expanded, order)
  }

  /** The state after `n` turns of the loop, or at its end if that comes first. */
  function After(s: Schema, roots: seq<Name>, n: nat): Run {
    if n == 0 then Start(roots) else
    var r := After(s, roots, n - 1);
    if r.stack == [] then r else Pop(s, r)
  }

  // ---------- What every pop keeps ----------

  ghost predicate IsEdge(s: Schema, st: Step) {
    s.Indexed(st.from) && Edge(st.field, st.args, st.to) in Edges(s, st.from)
  }

  /** A path from a requested root along edges of the schema. */
  ghost predicate FromRoot(s: Schema, roots: seq<Name>, p: PathNode) {
    && p.nodeType in roots
    && forall i :: 0 <= i < |p.Steps()| ==> IsEdge(s, p.Steps()[i])
  }

  function Lasts(paths: seq<PathNode>): (r: seq<Name>)
    ensures |r| == |paths|
    ensures forall i :: 0 <= i < |r| ==> r[i] == paths[i].Last()
  {
    seq(|paths|, i requires 0 <= i < |paths| => paths[i].Last())
  }

  ghost predicate PathsOk(s: Schema, roots: seq<Name>, r: Run) {
    && (forall i :: 0 <= i < |r.stack| ==> r.stack[i].0 == r.stack[i].1.Last() && FromRoot(s, roots, r.stack[i].1))
    && (forall p :: p in r.popped ==> FromRoot(s, roots, p) && p.Last() in r.visited)
    && (forall t :: t in r.visited ==> exists p :: p in r.popped && !p.HasCycle() && p.Last() == t)
  }

  /** The parent paths of the stack entries are prefixes of one another, upward, and consist of expanded types. */
  ghost predicate Chained(stack: seq<Entry>, visited: set<Name>) {
    && (forall i, j :: 0 <= i <= j < |stack| ==> stack[i].1.ParentTypes() <= stack[j].1.ParentTypes())
    && (forall t :: t in Open(stack) ==> t in visited)
    && Distinct(Open(stack))
  }

  /** The open types, innermost first, are the end of the finishing order. */
  ghost predicate OpenIsSuffix(order: seq<Name>, open: seq<Name>) {
    |open| <= |order| && order[|order| - |open|..] == Reverse(open)
  }

  ghost predicate Ordered(s: Schema, r: Run) {
    && Distinct(r.order)
    && (forall t :: t in r.order <==> t in r.visited)
    && OpenIsSuffix(r.order, Open(r.stack))
    && (forall p :: p in r.popped && !p.HasCycle() && p.Len() > 1 ==>
          Before(r.order, p.Last(), p.Types()[p.Len() - 2]))
  }

  ghost predicate Expanded(s: Schema, r: Run) {
    && Distinct(Lasts(r.expanded))
    && (forall t :: t in Lasts(r.expanded) <==> t in r.visited && s.Indexed(t))
    && (forall p :: p in r.expanded ==> p in r.popped && !p.HasCycle())
  }

  /** All that was ever pushed: the roots, and the children of each expanded path. */
  function Pushed(s: Schema, roots: seq<Name>, expanded: seq<PathNode>): seq<Entry> {
    if expanded == [] then RootEntries(roots) else
    Pushed(s, roots, expanded[..|expanded| - 1]) + Children(s, expanded[|expanded| - 1])
  }

  function PathsOf(entries: seq<Entry>): (r: seq<PathNode>)
    ensures |r| == |entries|
    ensures forall i :: 0 <= i < |r| ==> r[i] == entries[i].1
  {
    seq(|entries|, i requires 0 <= i < |entries| => entries[i].1)
  }

  /** Nothing pushed is lost and nothing is popped twice. */
  ghost predicate Conserved(
    s: Schema, roots: seq<Name>, expanded: seq<PathNode>, popped: seq<PathNode>, stack: seq<Entry>)
  {
    multiset(PathsOf(Pushed(s, roots, expanded))) == multiset(popped) + multiset(PathsOf(stack))
  }

  ghost predicate Inv(s: Schema, roots: seq<Name>, r: Run) {
    && PathsOk(s, roots, r)
    && Chained(r.stack, r.visited)
    && Ordered(s, r)
    && Expanded(s, r)
    && Conserved(s, roots, r.expanded, r.popped, r.stack)
  }

  lemma StartKeeps(s: Schema, roots: seq<Name>)
    ensures Inv(s, roots, Start(roots))
  {
    var r := Start(roots);
    assert forall i :: 0 <= i < |r.stack| ==> r.stack[i].1.ParentTypes() == [];
    assert r.order[|r.order| - |Open(r.stack)|..] == Reverse(Open(r.stack));
    assert PathsOf(Pushed(s, roots, [])) == PathsOf(r.stack);
  }

  /** What a pop does to each part of the state. */
  lemma PopParts(s: Schema, r: Run)
    requires r.stack != []
    ensures var r', (t, p), rest := Pop(s, r), r.stack[|r.stack| - 1], r.stack[..|r.stack| - 1];
            var isNew := !p.HasCycle() && t !in r.visited;
            && r'.popped == r.popped + [p]
            && r'.order == (if isNew then Insert(r.order, OpenStart(r), t) else r.order)
            && r'.visited == (if isNew then r.visited + {t} else r.visited)
            && r'.stack == (if isNew && s.Indexed(t) then rest + Children(s, p) else rest)
            && r'.expanded == (if isNew && s.Indexed(t) then r.expanded + [p] else r.expanded)
  {
  }

  lemma PathsOkKept(s: Schema, roots: seq<Name>, r: Run)
    requires PathsOk(s, roots, r) && Chained(r.stack, r.visited) && r.stack != []
    ensures PathsOk(s, roots, Pop(s, r))
  {
    hide PathNode.HasCycle, PathNode.Types, PathNode.Last, Pop, Children, FromRoot, Chained;
    var p := r.stack[|r.stack| - 1].1;
    var r' := Pop(s, r);
    PopParts(s, r);
    ChildrenFromRoot(s, roots, p);
    CycleTargetIsOpen(r);
    OpenIsVisited(r);
    forall x | x in r'.visited
      ensures exists q :: q in r'.popped && !q.HasCycle() && q.Last() == x
    {
      if x in r.visited {
        var q :| q in r.popped && !q.HasCycle() && q.Last() == x;
        assert q in r'.popped;
      } else {
        assert p in r'.popped && !p.HasCycle() && p.Last() == x;
      }
    }
  }

  lemma OpenIsVisited(r: Run)
    requires Chained(r.stack, r.visited)
    ensures forall x :: x in Open(r.stack) ==> x in r.visited
  {
  }

  lemma ChildrenFromRoot(s: Schema, roots: seq<Name>, p: PathNode)
    requires FromRoot(s, roots, p)
    ensures s.Indexed(p.Last()) ==> forall i :: 0 <= i < |Children(s, p)| ==>
              Children(s, p)[i].0 == Children(s, p)[i].1.Last() && FromRoot(s, roots, Children(s, p)[i].1)
  {
    hide PathNode.Types, PathNode.Last, PathNode.Steps, Edges;
    var es := Edges(s, p.Last());
    if s.Indexed(p.Last()) {
      forall i | 0 <= i < |es|
        ensures Child(p, es[i]).0 == Child(p, es[i]).1.Last() && FromRoot(s, roots, Child(p, es[i]).1)
      {
        var e := es[i];
        AddChildExtends(p, e.field, e.args, e.target);
        ChildLast(p, e);
        var c := Child(p, e).1;
        assert c.Steps() == p.Steps() + [Step(p.Last(), e.field, e.args, e.target)];
        assert Edge(e.field, e.args, e.target) == e;
      }
    }
  }

  lemma ChildLast(p: PathNode, e: Edge)
    ensures Child(p, e).1.Last() == e.target && Child(p, e).1.nodeType == p.nodeType
  {
    AddChildExtends(p, e.field, e.args, e.target);
  }

  /** When the top path closes a cycle, the type it repeats is one of the open types. */
  lemma CycleTargetIsOpen(r: Run)
    requires r.stack != [] && Chained(r.stack, r.visited)
    ensures r.stack[|r.stack| - 1].1.HasCycle() <==> r.stack[|r.stack| - 1].1.Last() in Open(r.stack)
  {
    var p := r.stack[|r.stack| - 1].1;
    HasCycleIffRepeats(p);
    var ts := p.Types();
    assert ts == Open(r.stack) + [p.Last()];
    if !Distinct(ts) {
      var i, j :| 0 <= i < j < |ts| && ts[i] == ts[j];
      assert j == |ts| - 1 && ts[i] == Open(r.stack)[i];
    }
    if p.Last() in Open(r.stack) {
      var i :| 0 <= i < |Open(r.stack)| && Open(r.stack)[i] == p.Last();
      assert ts[i] == ts[|ts| - 1];
    }
  }

  lemma ChildrenParents(s: Schema, p: PathNode)
    ensures forall i :: 0 <= i < |Children(s, p)| ==> Children(s, p)[i].1.ParentTypes() == p.Types()
  {
    var es := Edges(s, p.Last());
    forall i | 0 <= i < |es|
      ensures Children(s, p)[i].1.ParentTypes() == p.Types()
    {
      AddChildExtends(p, es[i].field, es[i].args, es[i].target);
    }
  }

  /** The stack below the top entry is still chained, and hangs on a prefix of the open path. */
  lemma ChainedBelow(stack: seq<Entry>, visited: set<Name>)
    requires Chained(stack, visited) && stack != []
    ensures Chained(stack[..|stack| - 1], visited)
    ensures Open(stack[..|stack| - 1]) <= Open(stack)
  {
    var rest := stack[..|stack| - 1];
    assert forall i :: 0 <= i < |rest| ==> rest[i] == stack[i];
    assert Open(rest) <= Open(stack);
    assert forall x :: x in Open(rest) ==> x in Open(stack);
  }

  lemma ChainedAfterPush(s: Schema, rest: seq<Entry>, p: PathNode, visited: set<Name>)
    requires Chained(rest, visited) && Open(rest) <= p.Types()
    requires Distinct(p.Types()) && forall x :: x in p.Types() ==> x in visited
    ensures Chained(rest + Children(s, p), visited)
    ensures Open(rest + Children(s, p)) == if Edges(s, p.Last()) == [] then Open(rest) else p.Types()
  {
    ChildrenParents(s, p);
    var kids := Children(s, p);
    var stack := rest + kids;
    forall i, j | 0 <= i <= j < |stack|
      ensures stack[i].1.ParentTypes() <= stack[j].1.ParentTypes()
    {
      if j >= |rest| {
        assert stack[j].1.ParentTypes() == p.Types();
        if i < |rest| {
          assert rest[i].1.ParentTypes() <= rest[|rest| - 1].1.ParentTypes() == Open(rest);
        }
      }
    }
  }

  lemma ChainedKept(s: Schema, r: Run)
    requires Chained(r.stack, r.visited) && r.stack != []
    requires r.stack[|r.stack| - 1].0 == r.stack[|r.stack| - 1].1.Last()
    ensures var r' := Pop(s, r);
            Chained(r'.stack, r'.visited) &&
            (Open(r'.stack) <= Open(r.stack) || Open(r'.stack) == r.stack[|r.stack| - 1].1.Types())
  {
    hide PathNode.HasCycle, PathNode.Types, Children, Chained;
    var top := r.stack[|r.stack| - 1];
    var p := top.1;
    var rest := r.stack[..|r.stack| - 1];
    ChainedBelow(r.stack, r.visited);
    OpenThenLast(p);
    OpenIsVisited(r);
    ChainedAfter(s, rest, r.visited, Open(r.stack), p);
    var r' := Pop(s, r);
    if p.HasCycle() || top.0 in r.visited {
      assert r'.stack == rest && r'.visited == r.visited;
    } else if s.Indexed(top.0) {
      assert r'.stack == rest + Children(s, p) && r'.visited == r.visited + {p.Last()};
    } else {
      assert r'.stack == rest && r'.visited == r.visited + {p.Last()};
    }
  }

  lemma ChainedAfter(s: Schema, rest: seq<Entry>, visited: set<Name>, open: seq<Name>, p: PathNode)
    requires Chained(rest, visited) && Open(rest) <= open && p.Types() == open + [p.Last()]
    requires forall x :: x in open ==> x in visited
    ensures Chained(rest, visited + {p.Last()})
    ensures !p.HasCycle() ==> Chained(rest + Children(s, p), visited + {p.Last()})
    ensures Open(rest + Children(s, p)) == if Edges(s, p.Last()) == [] then Open(rest) else p.Types()
  {
    HasCycleIffRepeats(p);
    ChildrenParents(s, p);
    if !p.HasCycle() {
      ChainedAfterPush(s, rest, p, visited + {p.Last()});
    }
  }

  lemma SuffixOfPrefix(order: seq<Name>, open: seq<Name>, shorter: seq<Name>)
    requires OpenIsSuffix(order, open) && shorter <= open
    ensures OpenIsSuffix(order, shorter)
  {
    var k := |order| - |shorter|;
    forall i | 0 <= i < |shorter|
      ensures order[k..][i] == Reverse(shorter)[i]
    {
      assert order[k..][i] == order[|order| - |open|..][|open| - |shorter| + i];
    }
  }

  lemma SuffixAfterInsert(order: seq<Name>, open: seq<Name>, t: Name)
    requires OpenIsSuffix(order, open)
    ensures OpenIsSuffix(Insert(order, |order| - |open|, t), open)
    ensures OpenIsSuffix(Insert(order, |order| - |open|, t), open + [t])
  {
    var order' := Insert(order, |order| - |open|, t);
    assert order'[|order'| - |open|..] == order[|order| - |open|..];
    assert order'[|order'| - |open| - 1..] == [t] + Reverse(open) == Reverse(open + [t]);
  }

  /** A type that is visited and not open has finished: it stands before every open type. */
  lemma FinishedBeforeOpen(order: seq<Name>, open: seq<Name>, t: Name, u: Name)
    requires OpenIsSuffix(order, open)
    requires t in order && t !in open && u in open
    ensures Before(order, t, u)
  {
    var k := |order| - |open|;
    var i :| 0 <= i < |order| && order[i] == t;
    var j :| 0 <= j < |open| && open[j] == u;
    assert forall m :: k <= m < |order| ==> order[m] == order[k..][m - k] == open[|open| - 1 - (m - k)];
    assert order[k..][|open| - 1 - j] == u;
    assert order[k + |open| - 1 - j] == u;
  }

  /** A new type goes in between the finished types and the open ones. */
  lemma InsertAtOpen(order: seq<Name>, open: seq<Name>, t: Name)
    requires Distinct(order) && OpenIsSuffix(order, open) && t !in order
    ensures var order' := Insert(order, |order| - |open|, t);
            && Distinct(order') && (forall x :: x in order' <==> x == t || x in order)
            && OpenIsSuffix(order', open) && OpenIsSuffix(order', open + [t])
  {
    InsertKeepsDistinct(order, |order| - |open|, t);
    InsertMembers(order, |order| - |open|, t);
    SuffixAfterInsert(order, open, t);
  }

  /** The finishing order after a pop, whichever stack is left. */
  lemma OrderedAfter(s: Schema, r: Run, p: PathNode, order': seq<Name>, visited': set<Name>)
    requires Ordered(s, r) && r.stack != [] && p == r.stack[|r.stack| - 1].1
    requires p.HasCycle() || p.Last() !in Open(r.stack)
    requires
      if p.HasCycle() || p.Last() in r.visited
      then order' == r.order && visited' == r.visited
      else order' == Insert(r.order, |r.order| - |Open(r.stack)|, p.Last()) && visited' == r.visited + {p.Last()}
    ensures Distinct(order') && (forall x :: x in order' <==> x in visited')
    ensures OpenIsSuffix(order', Open(r.stack))
    ensures !p.HasCycle() && p.Last() !in r.visited ==> OpenIsSuffix(order', p.Types())
    ensures forall q :: (q in r.popped || q == p) && !q.HasCycle() && q.Len() > 1 ==>
              Before(order', q.Last(), q.Types()[q.Len() - 2])
  {
    hide PathNode.HasCycle, PathNode.Types, PathNode.Last, PathNode.Len, OpenIsSuffix, Distinct, Insert, Before;
    var open, t := Open(r.stack), p.Last();
    OpenThenLast(p);
    if !p.HasCycle() && t !in r.visited {
      InsertAtOpen(r.order, open, t);
    }
    forall q | (q in r.popped || q == p) && !q.HasCycle() && q.Len() > 1
      ensures Before(order', q.Last(), q.Types()[q.Len() - 2])
    {
      if q == p {
        FinishedBeforeOpen(order', open, t, p.Types()[p.Len() - 2]);
      } else if order' != r.order {
        SuffixFits(r.order, open);
        InsertKeepsBefore(r.order, |r.order| - |open|, t, q.Last(), q.Types()[q.Len() - 2]);
      }
    }
  }

  lemma SuffixFits(order: seq<Name>, open: seq<Name>)
    requires OpenIsSuffix(order, open)
    ensures |open| <= |order|
  {
  }

  lemma OpenThenLast(p: PathNode)
    ensures p.Types() == p.ParentTypes() + [p.Last()]
    ensures p.Len() > 1 ==> p.Types()[p.Len() - 2] in p.ParentTypes()
  {
    hide PathNode.Types;
    if p.Len() > 1 {
      assert p.ParentTypes()[p.Len() - 2] == p.Types()[p.Len() - 2];
    }
  }

  lemma OpenKeptSuffix(s: Schema, r: Run)
    requires Chained(r.stack, r.visited) && Ordered(s, r) && r.stack != []
    requires r.stack[|r.stack| - 1].0 == r.stack[|r.stack| - 1].1.Last()
    ensures OpenIsSuffix(Pop(s, r).order, Open(Pop(s, r).stack))
  {
    hide PathNode.HasCycle, PathNode.Types, PathNode.Last, PathNode.ParentTypes;
    hide Pop, Children, Chained, OpenIsSuffix, Insert, Before, Distinct;
    var p := r.stack[|r.stack| - 1].1;
    PopParts(s, r);
    ChainedKept(s, r);
    CycleTargetIsOpen(r);
    SuffixFits(r.order, Open(r.stack));
    OrderedAfter(s, r, p, Pop(s, r).order, Pop(s, r).visited);
    ChainedBelow(r.stack, r.visited);
    if Open(Pop(s, r).stack) <= Open(r.stack) {
      SuffixOfPrefix(Pop(s, r).order, Open(r.stack), Open(Pop(s, r).stack));
    }
  }

  lemma OrderedKept(s: Schema, r: Run)
    requires Chained(r.stack, r.visited) && Ordered(s, r) && r.stack != []
    requires r.stack[|r.stack| - 1].0 == r.stack[|r.stack| - 1].1.Last()
    ensures Ordered(s, Pop(s, r))
  {
    hide PathNode.HasCycle, PathNode.Types, PathNode.Last, Pop, Children, Chained, OpenIsSuffix, Insert, Before;
    hide Distinct;
    PopParts(s, r);
    CycleTargetIsOpen(r);
    SuffixFits(r.order, Open(r.stack));
    OrderedAfter(s, r, r.stack[|r.stack| - 1].1, Pop(s, r).order, Pop(s, r).visited);
    OpenKeptSuffix(s, r);
  }

  lemma ExpandedKept(s: Schema, r: Run)
    requires Expanded(s, r) && r.stack != []
    requires r.stack[|r.stack| - 1].0 == r.stack[|r.stack| - 1].1.Last()
    ensures Expanded(s, Pop(s, r))
  {
    hide PathNode.HasCycle, PathNode.Types, PathNode.Last, Pop, Children, Insert;
    PopParts(s, r);
    var r' := Pop(s, r);
    var (t, p) := r.stack[|r.stack| - 1];
    assert p in r'.popped;
    if r'.expanded != r.expanded {
      assert Lasts(r'.expanded) == Lasts(r.expanded) + [t];
      assert t !in Lasts(r.expanded);
    }
  }

  lemma PathsOfAppend(a: seq<Entry>, b: seq<Entry>)
    ensures PathsOf(a + b) == PathsOf(a) + PathsOf(b)
  {
  }

  lemma ConservedPop(
    s: Schema, roots: seq<Name>, expanded: seq<PathNode>, popped: seq<PathNode>, rest: seq<Entry>, top: Entry)
    requires Conserved(s, roots, expanded, popped, rest + [top])
    ensures Conserved(s, roots, expanded, popped + [top.1], rest)
  {
    PathsOfAppend(rest, [top]);
    assert PathsOf([top]) == [top.1];
  }

  lemma ConservedPush(
    s: Schema, roots: seq<Name>, expanded: seq<PathNode>, popped: seq<PathNode>, rest: seq<Entry>, p: PathNode)
    requires Conserved(s, roots, expanded, popped, rest)
    ensures Conserved(s, roots, expanded + [p], popped, rest + Children(s, p))
  {
    assert (expanded + [p])[..|expanded|] == expanded;
    PathsOfAppend(Pushed(s, roots, expanded), Children(s, p));
    PathsOfAppend(rest, Children(s, p));
  }

  lemma ConservedKept(s: Schema, roots: seq<Name>, r: Run)
    requires Conserved(s, roots, r.expanded, r.popped, r.stack) && r.stack != []
    ensures var r' := Pop(s, r); Conserved(s, roots, r'.expanded, r'.popped, r'.stack)
  {
    hide Conserved, Children, PathNode.HasCycle;
    var top := r.stack[|r.stack| - 1];
    var rest := r.stack[..|r.stack| - 1];
    assert r.stack == rest + [top];
    ConservedPop(s, roots, r.expanded, r.popped, rest, top);
    ConservedPush(s, roots, r.expanded, r.popped + [top.1], rest, top.1);
  }

  /** Every pop keeps the invariant. */
  lemma PopKeeps(s: Schema, roots: seq<Name>, r: Run)
    requires Inv(s, roots, r) && r.stack != []
    ensures Inv(s, roots, Pop(s, r))
  {
    PathsOkKept(s, roots, r);
    ChainedKept(s, r);
    OrderedKept(s, r);
    ExpandedKept(s, r);
    ConservedKept(s, roots, r);
  }

  lemma {:induction false} AfterKeeps(s: Schema, roots: seq<Name>, n: nat)
    ensures Inv(s, roots, After(s, roots, n))
  {
    hide PathsOk, Chained, Ordered, Expanded, Conserved, Pop;
    if n == 0 {
      StartKeeps(s, roots);
    } else {
      AfterKeeps(s, roots, n - 1);
      if After(s, roots, n - 1).stack != [] {
        PopKeeps(s, roots, After(s, roots, n - 1));
      }
    }
  }

  // ---------- What the whole walk has done once the stack is empty ----------

  ghost predicate Done(s: Schema, roots: seq<Name>, r: Run) {
    Inv(s, roots, r) && r.stack == []
  }

  ghost predicate HasEdge(s: Schema, t: Name, u: Name) {
    s.Indexed(t) && exists e :: e in Edges(s, t) && e.target == u
  }

  /** A chain of types from a root, each the target of an edge of the one before. */
  ghost predicate Chain(s: Schema, roots: seq<Name>, ts: seq<Name>) {
    && ts != []
    && if |ts| == 1 then ts[0] in roots
       else Chain(s, roots, ts[..|ts| - 1]) && HasEdge(s, ts[|ts| - 2], ts[|ts| - 1])
  }

  ghost predicate Reachable(s: Schema, roots: seq<Name>, t: Name) {
    exists ts :: Chain(s, roots, ts) && ts[|ts| - 1] == t
  }

  /** The walk yields exactly: each root, and for each expanded type each child path, as often as the schema has
      that edge, save those that close a cycle or end outside the indexed types. */
  lemma YieldsEveryEdgeOnce(s: Schema, roots: seq<Name>, r: Run)
    requires Done(s, roots, r)
    ensures multiset(Yielded(s, r.popped)) == multiset(Yielded(s, PathsOf(Pushed(s, roots, r.expanded))))
  {
    assert PathsOf([]) == [];
    var pushed := PathsOf(Pushed(s, roots, r.expanded));
    forall p
      ensures multiset(Yielded(s, r.popped))[p] == multiset(Yielded(s, pushed))[p]
    {
      YieldedCount(s, r.popped, p);
      YieldedCount(s, pushed, p);
    }
  }

  lemma {:induction false} PushedHolds(s: Schema, roots: seq<Name>, expanded: seq<PathNode>)
    ensures forall x :: x in RootEntries(roots) ==> x in Pushed(s, roots, expanded)
    ensures forall p, e :: p in expanded && e in Edges(s, p.Last()) ==> Child(p, e) in Pushed(s, roots, expanded)
  {
    hide Edges, PathNode.Types, RootEntries;
    if expanded != [] {
      var n := |expanded| - 1;
      PushedHolds(s, roots, expanded[..n]);
      forall p, e | p in expanded && e in Edges(s, p.Last())
        ensures Child(p, e) in Pushed(s, roots, expanded)
      {
        if p in expanded[..n] {
          assert Child(p, e) in Pushed(s, roots, expanded[..n]);
        } else {
          var i :| 0 <= i < |Edges(s, p.Last())| && Edges(s, p.Last())[i] == e;
          assert Children(s, p)[i] == Child(p, e);
        }
      }
    }
  }

  lemma PushedWasPopped(s: Schema, roots: seq<Name>, r: Run, x: Entry)
    requires Done(s, roots, r) && x in Pushed(s, roots, r.expanded)
    ensures x.1 in r.popped
  {
    var all := Pushed(s, roots, r.expanded);
    var i :| 0 <= i < |all| && all[i] == x;
    assert PathsOf(all)[i] in multiset(PathsOf(all));
    assert PathsOf([]) == [];
    assert x.1 in multiset(r.popped);
  }

  /** An edge out of an expanded type is dropped exactly when it is a back edge or leaves the indexed types. */
  lemma EdgeDroppedIffBack(s: Schema, roots: seq<Name>, r: Run, p: PathNode, e: Edge)
    requires Done(s, roots, r) && p in r.expanded && e in Edges(s, p.Last())
    ensures Child(p, e).1 in Yielded(s, r.popped) <==> e.target !in p.Types() && s.Indexed(e.target)
  {
    hide PathNode.HasCycle, PathNode.AddChild, Pushed, Edges;
    PushedHolds(s, roots, r.expanded);
    PushedWasPopped(s, roots, r, Child(p, e));
    var c := Child(p, e).1;
    AddChildExtends(p, e.field, e.args, e.target);
    HasCycleIffRepeats(c);
    HasCycleIffRepeats(p);
    var ts := c.Types();
    assert ts == p.Types() + [e.target];
    if e.target in p.Types() {
      var i :| 0 <= i < |p.Types()| && p.Types()[i] == e.target;
      assert ts[i] == ts[|ts| - 1];
    }
  }

  lemma RootVisited(s: Schema, roots: seq<Name>, r: Run, t: Name)
    requires Done(s, roots, r) && t in roots
    ensures t in r.visited
  {
    PushedHolds(s, roots, r.expanded);
    var i :| 0 <= i < |roots| && roots[i] == t;
    PushedWasPopped(s, roots, r, RootEntries(roots)[i]);
    assert New(t).Last() == t;
  }

  lemma TargetVisited(s: Schema, roots: seq<Name>, r: Run, t: Name, e: Edge)
    requires Done(s, roots, r) && t in r.visited && s.Indexed(t) && e in Edges(s, t)
    ensures e.target in r.visited
  {
    assert t in Lasts(r.expanded);
    var i :| 0 <= i < |r.expanded| && Lasts(r.expanded)[i] == t;
    PushedHolds(s, roots, r.expanded);
    PushedWasPopped(s, roots, r, Child(r.expanded[i], e));
    AddChildExtends(r.expanded[i], e.field, e.args, e.target);
  }

  ghost predicate ClosedUnderEdges(s: Schema, roots: seq<Name>, visited: set<Name>) {
    && (forall t :: t in roots ==> t in visited)
    && (forall t, e :: t in visited && s.Indexed(t) && e in Edges(s, t) ==> e.target in visited)
  }

  lemma DoneIsClosed(s: Schema, roots: seq<Name>, r: Run)
    requires Done(s, roots, r)
    ensures ClosedUnderEdges(s, roots, r.visited)
  {
    forall t | t in roots
      ensures t in r.visited
    {
      RootVisited(s, roots, r, t);
    }
    forall t, e | t in r.visited && s.Indexed(t) && e in Edges(s, t)
      ensures e.target in r.visited
    {
      TargetVisited(s, roots, r, t, e);
    }
  }

  lemma {:induction false} ChainVisited(s: Schema, roots: seq<Name>, visited: set<Name>, ts: seq<Name>)
    requires ClosedUnderEdges(s, roots, visited) && Chain(s, roots, ts)
    ensures ts[|ts| - 1] in visited
    decreases |ts|
  {
    var n := |ts| - 1;
    if n > 0 {
      ChainVisited(s, roots, visited, ts[..n]);
      var e :| e in Edges(s, ts[n - 1]) && e.target == ts[n];
      assert ts[..n][n - 1] in visited;
    }
  }

  lemma ReachableVisited(s: Schema, roots: seq<Name>, visited: set<Name>, t: Name)
    requires ClosedUnderEdges(s, roots, visited) && Reachable(s, roots, t)
    ensures t in visited
  {
    var ts :| Chain(s, roots, ts) && ts[|ts| - 1] == t;
    ChainVisited(s, roots, visited, ts);
  }

  lemma {:induction false} PathIsChain(s: Schema, roots: seq<Name>, p: PathNode, k: nat)
    requires FromRoot(s, roots, p) && 1 <= k <= p.Len()
    ensures Chain(s, roots, p.Types()[..k])
  {
    var ts := p.Types()[..k];
    if k > 1 {
      PathIsChain(s, roots, p, k - 1);
      assert ts[..k - 1] == p.Types()[..k - 1];
      StepsJoinTypes(p);
      var st := p.Steps()[k - 2];
      assert IsEdge(s, st);
      assert HasEdge(s, ts[k - 2], ts[k - 1]);
    }
  }

  /** The types at which yielded paths end are exactly the indexed types that can be reached from the roots. */
  lemma YieldsReachableTypes(s: Schema, roots: seq<Name>, r: Run, t: Name)
    requires Done(s, roots, r)
    ensures (exists p :: p in Yielded(s, r.popped) && p.Last() == t) <==> s.Indexed(t) && Reachable(s, roots, t)
  {
    hide PathNode.HasCycle, Chain, FromRoot, Ordered, Conserved, Chained, Expanded;
    if p :| p in Yielded(s, r.popped) && p.Last() == t {
      PathIsChain(s, roots, p, p.Len());
      assert p.Types()[..p.Len()] == p.Types();
    }
    if s.Indexed(t) && Reachable(s, roots, t) {
      DoneIsClosed(s, roots, r);
      ReachableVisited(s, roots, r.visited, t);
      var p :| p in r.popped && !p.HasCycle() && p.Last() == t;
      assert p in Yielded(s, r.popped);
    }
  }

  // ---------- How long the walk takes ----------

  /** The number of edges out of the types listed. */
  function EdgeCount(s: Schema, names: seq<Name>): nat {
    if names == [] then 0 else EdgeCount(s, names[..|names| - 1]) + |Edges(s, names[|names| - 1])|
  }

  lemma {:induction false} PushedCount(s: Schema, roots: seq<Name>, expanded: seq<PathNode>)
    ensures |Pushed(s, roots, expanded)| == |roots| + EdgeCount(s, Lasts(expanded))
  {
    if expanded != [] {
      var n := |expanded| - 1;
      PushedCount(s, roots, expanded[..n]);
      assert Lasts(expanded)[..n] == Lasts(expanded[..n]);
    }
  }

  lemma {:induction false} EdgeCountRemove(s: Schema, names: seq<Name>, k: nat)
    requires k < |names|
    ensures EdgeCount(s, names) == EdgeCount(s, names[..k] + names[k + 1..]) + |Edges(s, names[k])|
  {
    var n := |names| - 1;
    var less := names[..k] + names[k + 1..];
    if k < n {
      EdgeCountRemove(s, names[..n], k);
      assert less[..|less| - 1] == names[..n][..k] + names[..n][k + 1..];
      assert names[..n][k] == names[k];
    } else {
      assert less == names[..n];
    }
  }

  lemma {:induction false} EdgeCountSubset(s: Schema, some: seq<Name>, all: seq<Name>)
    requires Distinct(some) && forall t :: t in some ==> t in all
    ensures EdgeCount(s, some) <= EdgeCount(s, all)
  {
    if some != [] {
      var n := |some| - 1;
      var t := some[n];
      assert t in some;
      var k :| 0 <= k < |all| && all[k] == t;
      var less := all[..k] + all[k + 1..];
      forall x | x in some[..n]
        ensures x in less
      {
        var i :| 0 <= i < n && some[i] == x;
        assert x in all && x != t;
        var j :| 0 <= j < |all| && all[j] == x;
        assert less[if j < k then j else j - 1] == x;
      }
      EdgeCountSubset(s, some[..n], less);
      EdgeCountRemove(s, all, k);
    }
  }

  function Budget(s: Schema, roots: seq<Name>): nat {
    |roots| + EdgeCount(s, s.typeOrder)
  }

  /** At any time at most one path has been popped for each root and each edge of the schema. */
  lemma PopsBounded(s: Schema, roots: seq<Name>, r: Run)
    requires s.WellFormed() && Inv(s, roots, r)
    ensures |r.popped| + |r.stack| <= Budget(s, roots)
  {
    PushedCount(s, roots, r.expanded);
    forall t | t in Lasts(r.expanded)
      ensures t in s.typeOrder
    {
    }
    EdgeCountSubset(s, Lasts(r.expanded), s.typeOrder);
    assert |multiset(PathsOf(Pushed(s, roots, r.expanded)))| == |Pushed(s, roots, r.expanded)|;
    assert |multiset(r.popped) + multiset(PathsOf(r.stack))| == |r.popped| + |r.stack|;
  }

  /** The first `n` turns of the loop all found a path to pop. */
  ghost predicate Live(s: Schema, roots: seq<Name>, n: nat) {
    forall m: nat {:trigger After(s, roots, m)} :: m < n ==> After(s, roots, m).stack != []
  }

  lemma {:induction false} LivePops(s: Schema, roots: seq<Name>, n: nat)
    requires Live(s, roots, n)
    ensures |After(s, roots, n).popped| == n
  {
    hide PathNode.HasCycle, PathNode.Types, Children, Pop;
    if n > 0 {
      LivePops(s, roots, n - 1);
      PopParts(s, After(s, roots, n - 1));
    }
  }

  /** The walk stops: no more turns find work than there are roots and edges. */
  lemma LiveBounded(s: Schema, roots: seq<Name>, n: nat)
    requires s.WellFormed() && Live(s, roots, n)
    ensures n + |After(s, roots, n).stack| <= Budget(s, roots)
  {
    LivePops(s, roots, n);
    AfterKeeps(s, roots, n);
    PopsBounded(s, roots, After(s, roots, n));
  }

  /** What one more turn of the loop does, case by case. */
  lemma Turn(s: Schema, roots: seq<Name>, n: nat)
    requires After(s, roots, n).stack != []
    ensures var r, r' := After(s, roots, n), After(s, roots, n + 1);
            var (t, p), rest := r.stack[|r.stack| - 1], r.stack[..|r.stack| - 1];
            && t == p.Last() && r'.popped == r.popped + [p]
            && Yielded(s, r'.popped) == Yielded(s, r.popped) + (if Yields(s, p) then [p] else [])
            && r'.visited == (if p.HasCycle() then r.visited else r.visited + {t})
            && r'.stack == (if !p.HasCycle() && t !in r.visited && s.Indexed(t) then rest + Children(s, p) else rest)
            && (Live(s, roots, n) ==> Live(s, roots, n + 1))
  {
    var r := After(s, roots, n);
    PopParts(s, r);
    assert (r.popped + [r.stack[|r.stack| - 1].1])[..|r.popped|] == r.popped;
    TopIsLast(s, roots, n);
  }

  lemma TopIsLast(s: Schema, roots: seq<Name>, n: nat)
    requires After(s, roots, n).stack != []
    ensures var stack := After(s, roots, n).stack; stack[|stack| - 1].0 == stack[|stack| - 1].1.Last()
  {
    AfterKeeps(s, roots, n);
  }
}

/** The walk as the program runs it: a stack and a map of references, advanced one yielded path at a time. */
module Traverse {
  import opened GraphQL
  import opened Sequences
  import opened Paths
  import opened Walk

  /** The root types of the requested operations, in the order in which they are pushed: the query type on top. */
  function RootTypes(s: Schema, requested: set<OperationType>): seq<Name> {
    RootType(s, requested, Subscription) + RootType(s, requested, Mutation) + RootType(s, requested, Query)
  }

  function RootType(s: Schema, requested: set<OperationType>, op: OperationType): (r: seq<Name>)
    ensures |r| <= 1
  {
    if op in requested && op in s.roots then [s.roots[op]] else []
  }

  class Traversal {
    const schema: Schema
    ghost const roots: seq<Name>
    var stack: seq<Entry>
    var references: map<Name, seq<Name>>
    /** The number of paths popped so far. */
    ghost var turns: nat

    ghost function Run(): Run
      reads this
    {
      After(schema, roots, turns)
    }

    ghost predicate Valid()
      reads this
    {
      && schema.WellFormed()
      && stack == Run().stack
      && references.Keys == Run().visited
      && Live(schema, roots, turns)
    }

    constructor (schema: Schema, requested: set<OperationType>)
      requires schema.WellFormed()
      ensures Valid() && this.schema == schema && roots == RootTypes(schema, requested)
      ensures turns == 0
    {
      this.schema := schema;
      roots := RootTypes(schema, requested);
      stack := RootEntries(RootTypes(schema, requested));
      references := map[];
      turns := 0;
    }

    /** One turn of the loop: the popped path with the definition of its last type, if the walk yields it. */
    method PopOne() returns (item: Option<(TypeDef, PathNode)>)
      requires Valid() && stack != []
      modifies this
      ensures Valid() && turns == old(turns) + 1
      ensures item.Some? ==>
                && Yields(schema, item.value.1) && item.value.0 == schema.types[item.value.1.Last()]
                && item.value.0.name == item.value.1.Last()
      ensures Yielded(schema, Run().popped) ==
              Yielded(schema, old(Run()).popped) + (if item.Some? then [item.value.1] else [])
    {
      hide After, Pop, Yielded, EdgeCount, Children, PathNode.HasCycle, PathNode.Types, PathNode.Last;
      hide PathNode.ReferencingType;
      Turn(schema, roots, turns);
      ghost var next := After(schema, roots, turns + 1);
      var (namedType, currentPath) := stack[|stack| - 1];
      stack := stack[..|stack| - 1];
      turns := turns + 1;
      assert Run() == next && Live(schema, roots, turns);
      if currentPath.HasCycle() {
        return None;
      }
      // Only the first visit to a type goes on to its children.
      var traverseChildren := namedType !in references;
      if traverseChildren {
        var referencing := currentPath.ReferencingType();
        references := references[namedType := if referencing.Some? then [referencing.value.0] else []];
      }
      assert references.Keys == next.visited;
      if namedType in schema.types && !schema.types[namedType].builtIn {
        if traverseChildren {
          stack := stack + Children(schema, currentPath);
        }
        assert stack == next.stack;
        return Some((schema.types[namedType], currentPath));
      }
      return None;
    }

    /** The next path of the walk, with the definition of the type at which it ends. */
    method Next() returns (item: Option<(TypeDef, PathNode)>)
      requires Valid()
      modifies this
      ensures Valid() && old(turns) <= turns <= Budget(schema, roots)
      ensures item.None? ==> stack == []
      ensures item.Some? ==>
                && Yields(schema, item.value.1) && item.value.0 == schema.types[item.value.1.Last()]
                && item.value.0.name == item.value.1.Last()
                && old(turns) < turns
      ensures Yielded(schema, Run().popped) ==
              Yielded(schema, old(Run()).popped) + (if item.Some? then [item.value.1] else [])
    {
      LiveBounded(schema, roots, turns);
      while stack != []
        invariant Valid() && old(turns) <= turns <= Budget(schema, roots)
        invariant Yielded(schema, Run().popped) == Yielded(schema, old(Run()).popped)
        decreases Budget(schema, roots) - turns
      {
        LiveBounded(schema, roots, turns);
        item := PopOne();
        if item.Some? {
          return;
        }
      }
      return None;
    }
  }
}

/** The upward breadth-first search from a matched type to the roots (crates/apollo-schema-index/src/lib.rs,
    `SchemaIndex::search`), on values: one turn of its loop, and what every turn keeps. */
module Upward {
  import opened GraphQL
  import opened Sequences
  import opened Paths
  import opened Walk
  import opened References
  import opened Indexing

  /** The parts of a ranked index that the search relies on. */
  ghost predicate Acyclic(index: Index, order: seq<Name>) {
    && Distinct(order)
    && (forall t :: t in index ==> t in order && IsName(t))
    && (forall t, e :: t in index && e in index[t] ==> LeadsUp(index, order, t, e))
  }

  ghost predicate LeadsUp(index: Index, order: seq<Name>, t: Name, e: string) {
    Legal(Decode(e)) && e == Encode(Decode(e)) && Decode(e).from in index && Before(order, t, Decode(e).from)
  }

  /** How many types of `order` come after `t`. */
  ghost function Rank(order: seq<Name>, t: Name): nat
    requires t in order
  {
    var i :| 0 <= i < |order| && order[i] == t;
    |order| - i
  }

  lemma RankDrops(order: seq<Name>, t: Name, u: Name)
    requires Distinct(order) && Before(order, t, u)
    ensures t in order && u in order && Rank(order, u) < Rank(order, t)
  {
  }

  // ---------- Termination: the number of upward paths ----------

  /** The number of paths upward from `t`, counting every prefix. */
  ghost function UpCount(index: Index, order: seq<Name>, t: Name): nat
    requires Acyclic(index, order) && t in index
    decreases Rank(order, t), 1, 0
  {
    1 + UpCounts(index, order, t, index[t])
  }

  ghost function UpCounts(index: Index, order: seq<Name>, t: Name, refs: seq<string>): nat
    requires Acyclic(index, order) && t in index && forall e :: e in refs ==> e in index[t]
    decreases Rank(order, t), 0, |refs|
  {
    if refs == [] then 0 else
    var n := |refs| - 1;
    assert LeadsUp(index, order, t, refs[n]);
    RankDrops(order, t, Decode(refs[n]).from);
    UpCounts(index, order, t, refs[..n]) + UpCount(index, order, Decode(refs[n]).from)
  }

  ghost predicate Heads(index: Index, queue: seq<PathNode>) {
    forall i :: 0 <= i < |queue| ==> queue[i].nodeType in index
  }

  ghost function Pending(index: Index, order: seq<Name>, queue: seq<PathNode>): nat
    requires Acyclic(index, order) && Heads(index, queue)
  {
    if queue == [] then 0 else
    Pending(index, order, queue[..|queue| - 1]) + UpCount(index, order, queue[|queue| - 1].nodeType)
  }

  lemma {:induction false} PendingAppend(index: Index, order: seq<Name>, a: seq<PathNode>, b: seq<PathNode>)
    requires Acyclic(index, order) && Heads(index, a) && Heads(index, b)
    ensures Pending(index, order, a + b) == Pending(index, order, a) + Pending(index, order, b)
  {
    if b == [] {
      assert a + b == a;
    } else {
      var n := |b| - 1;
      PendingAppend(index, order, a, b[..n]);
      assert (a + b)[..|a + b| - 1] == a + b[..n];
    }
  }

  // ---------- One turn of the loop ----------

  /** The paths that the search pushes: one for each reference that, as a string, is not a visited type. */
  function Parents(visited: set<string>, current: PathNode, refs: seq<string>): seq<PathNode> {
    if refs == [] then [] else
    var n := |refs| - 1;
    Parents(visited, current, refs[..n]) + (if refs[n] in visited then [] else [ParentBy(current, refs[n])])
  }

  function ParentBy(current: PathNode, e: string): PathNode {
    var r := Decode(e);
    current.AddParent(r.field, r.args, r.from)
  }

  lemma {:induction false} ParentsHold(visited: set<string>, current: PathNode, refs: seq<string>)
    ensures forall q :: q in Parents(visited, current, refs) ==>
              exists e :: e in refs && e !in visited && q == ParentBy(current, e)
    ensures forall e :: e in refs && e !in visited ==> ParentBy(current, e) in Parents(visited, current, refs)
  {
    if refs != [] {
      var n := |refs| - 1;
      ParentsHold(visited, current, refs[..n]);
      assert refs == refs[..n] + [refs[n]];
    }
  }

  lemma {:induction false} ParentsCount(
    index: Index, order: seq<Name>, visited: set<string>, current: PathNode, refs: seq<string>)
    requires Acyclic(index, order) && current.nodeType in index
    requires forall e :: e in refs ==> e in index[current.nodeType]
    ensures Heads(index, Parents(visited, current, refs))
    ensures Pending(index, order, Parents(visited, current, refs)) <= UpCounts(index, order, current.nodeType, refs)
  {
    if refs != [] {
      var n := |refs| - 1;
      ParentsCount(index, order, visited, current, refs[..n]);
      assert LeadsUp(index, order, current.nodeType, refs[n]);
      var one := if refs[n] in visited then [] else [ParentBy(current, refs[n])];
      PendingAppend(index, order, Parents(visited, current, refs[..n]), one);
      assert one != [] ==> one[..0] == [];
    }
  }

  /** The state of the search. `dist` gives, for each visited type, the length of the path with which it was first
      taken from the queue. */
  datatype State = State(queue: seq<PathNode>, found: seq<PathNode>, dist: map<Name, nat>)

  function Visit(dist: map<Name, nat>, p: PathNode): (r: map<Name, nat>)
    ensures r.Keys == dist.Keys + {p.nodeType}
  {
    if p.nodeType in dist then dist else dist[p.nodeType := p.Len()]
  }

  function Turn(index: Index, st: State): State
    requires st.queue != []
  {
    var current := st.queue[0];
    var refs := if current.nodeType in index then index[current.nodeType] else [];
    var dist := Visit(st.dist, current);
    if refs == [] then State(st.queue[1..], st.found + [current], dist)
    else State(st.queue[1..] + Parents(dist.Keys, current, refs), st.found, dist)
  }

  // ---------- What every turn keeps ----------

  /** A path whose every step is a recorded reference. */
  ghost predicate UpPath(index: Index, p: PathNode) {
    && p.nodeType in index
    && match p.child
       case Some(c) => UpPath(index, c) && exists e :: e in index[c.nodeType] && p == ParentBy(c, e)
       case None => p == New(p.nodeType)
  }

  /** A path from a type without references down to the matched type. */
  ghost predicate RootPath(index: Index, matched: Name, p: PathNode) {
    UpPath(index, p) && p.Last() == matched && index[p.nodeType] == []
  }

  ghost predicate PathsUp(index: Index, matched: Name, st: State) {
    && (forall i :: 0 <= i < |st.queue| ==> UpPath(index, st.queue[i]) && st.queue[i].Last() == matched)
    && (forall i :: 0 <= i < |st.found| ==> RootPath(index, matched, st.found[i]))
    && (forall u :: u in st.dist ==> u in index)
  }

  /** The queue holds paths of at most two lengths, the shorter ones first; what was taken from it is no longer. */
  ghost predicate Levels(st: State) {
    && (forall i, j :: 0 <= i <= j < |st.queue| ==> st.queue[i].Len() <= st.queue[j].Len() <= st.queue[0].Len() + 1)
    && (forall i, j :: 0 <= i <= j < |st.found| ==> st.found[i].Len() <= st.found[j].Len())
    && (forall i :: 0 <= i < |st.found| && st.queue != [] ==> st.found[i].Len() <= st.queue[0].Len())
    && (forall u :: u in st.dist && st.queue != [] ==> st.dist[u] <= st.queue[0].Len())
  }

  /** `t` was reached, or is about to be, by a path of length at most `d`. */
  ghost predicate Covered(st: State, t: Name, d: nat) {
    (t in st.dist && st.dist[t] <= d) || exists q :: q in st.queue && q.nodeType == t && q.Len() <= d
  }

  ghost predicate Covering(index: Index, matched: Name, st: State) {
    && Covered(st, matched, 1)
    && (forall u, e :: u in st.dist && u in index && e in index[u] ==> Covered(st, Decode(e).from, st.dist[u] + 1))
    && (forall u :: u in st.dist && u in index && index[u] == [] ==> st.found != [] && st.found[0].Len() <= st.dist[u])
  }

  /** No path from a type without references down to the matched type is shorter than the first one found. */
  ghost predicate FirstIsShortest(index: Index, matched: Name, st: State) {
    st.found != [] ==> forall p :: RootPath(index, matched, p) ==> st.found[0].Len() <= p.Len()
  }

  ghost predicate Inv(index: Index, matched: Name, st: State) {
    PathsUp(index, matched, st) && Levels(st) && Covering(index, matched, st) && FirstIsShortest(index, matched, st)
  }

  lemma PathsUpKept(index: Index, order: seq<Name>, matched: Name, st: State)
    requires Acyclic(index, order) && PathsUp(index, matched, st) && st.queue != []
    ensures PathsUp(index, matched, Turn(index, st))
  {
    hide Decode, Encode;
    var current := st.queue[0];
    var dist := Visit(st.dist, current);
    ParentsHold(dist.Keys, current, index[current.nodeType]);
    var ps := Parents(dist.Keys, current, index[current.nodeType]);
    forall i | 0 <= i < |ps|
      ensures UpPath(index, ps[i]) && ps[i].Last() == matched
    {
      assert ps[i] in ps;
      var e :| e in index[current.nodeType] && ps[i] == ParentBy(current, e);
      assert LeadsUp(index, order, current.nodeType, e);
    }
  }

  lemma LevelsKept(index: Index, st: State)
    requires Levels(st) && st.queue != []
    ensures Levels(Turn(index, st))
  {
    hide PathNode.Types, PathNode.Len, Decode, Parents;
    var current := st.queue[0];
    if current.nodeType in index {
      ParentsAreLonger(Visit(st.dist, current).Keys, current, index[current.nodeType]);
    }
  }

  lemma ParentsAreLonger(visited: set<string>, current: PathNode, refs: seq<string>)
    ensures forall i :: 0 <= i < |Parents(visited, current, refs)| ==>
              Parents(visited, current, refs)[i].Len() == current.Len() + 1
  {
    hide Decode;
    var ps := Parents(visited, current, refs);
    ParentsHold(visited, current, refs);
    forall i | 0 <= i < |ps|
      ensures ps[i].Len() == current.Len() + 1
    {
      assert ps[i] in ps;
    }
  }

  /** A reference that is pruned is a bare type name, and that type was visited no later. */
  lemma PrunedIsVisited(index: Index, order: seq<Name>, t: Name, e: string, visited: set<string>)
    requires Acyclic(index, order) && t in index && e in index[t] && e in visited
    requires forall u :: u in visited ==> u in index
    ensures Decode(e).from == e && Decode(e).field.None?
  {
    assert LeadsUp(index, order, t, e);
    EncodedIsNameIffNoField(Decode(e));
  }

  lemma CoveredKept(index: Index, st: State, t: Name, d: nat)
    requires st.queue != [] && Covered(st, t, d) && Levels(st)
    ensures Covered(Turn(index, st), t, d)
  {
    var st' := Turn(index, st);
    if !(t in st.dist && st.dist[t] <= d) {
      var q :| q in st.queue && q.nodeType == t && q.Len() <= d;
      if q != st.queue[0] {
        assert q in st.queue[1..];
        assert q in st'.queue;
      }
    }
  }

  lemma CoveringKept(index: Index, order: seq<Name>, matched: Name, st: State)
    requires Acyclic(index, order) && st.queue != []
    requires PathsUp(index, matched, st) && Levels(st) && Covering(index, matched, st)
    ensures Covering(index, matched, Turn(index, st))
  {
    var st' := Turn(index, st);
    CoveredKept(index, st, matched, 1);
    forall u, e | u in st'.dist && u in index && e in index[u]
      ensures Covered(st', Decode(e).from, st'.dist[u] + 1)
    {
      VisitedCovered(index, order, matched, st, u, e);
    }
    forall u | u in st'.dist && u in index && index[u] == []
      ensures st'.found != [] && st'.found[0].Len() <= st'.dist[u]
    {
      RootFound(index, matched, st, u);
    }
  }

  lemma VisitedCovered(index: Index, order: seq<Name>, matched: Name, st: State, u: Name, e: string)
    requires Acyclic(index, order) && st.queue != []
    requires PathsUp(index, matched, st) && Levels(st) && Covering(index, matched, st)
    requires u in Turn(index, st).dist && u in index && e in index[u]
    ensures Covered(Turn(index, st), Decode(e).from, Turn(index, st).dist[u] + 1)
  {
    hide PathsUp, Levels;
    if u in st.dist {
      CoveredKept(index, st, Decode(e).from, st.dist[u] + 1);
    } else {
      NewlyCovered(index, order, matched, st, e);
    }
  }

  lemma RootFound(index: Index, matched: Name, st: State, u: Name)
    requires st.queue != [] && Levels(st) && Covering(index, matched, st)
    requires u in Turn(index, st).dist && u in index && index[u] == []
    ensures Turn(index, st).found != [] && Turn(index, st).found[0].Len() <= Turn(index, st).dist[u]
  {
    var st' := Turn(index, st);
    if u in st.dist {
      assert st'.found[0] == st.found[0];
    } else {
      assert u == st.queue[0].nodeType && st'.found == st.found + [st.queue[0]];
    }
  }

  lemma NewlyCovered(index: Index, order: seq<Name>, matched: Name, st: State, e: string)
    requires Acyclic(index, order) && st.queue != [] && PathsUp(index, matched, st) && Levels(st)
    requires e in index[st.queue[0].nodeType]
    ensures Covered(Turn(index, st), Decode(e).from, st.queue[0].Len() + 1)
  {
    var st' := Turn(index, st);
    var current := st.queue[0];
    if e in st'.dist {
      PrunedIsVisited(index, order, current.nodeType, e, st'.dist.Keys);
      assert st'.dist[e] <= current.Len();
    } else {
      ParentsHold(st'.dist.Keys, current, index[current.nodeType]);
      assert ParentBy(current, e) in st'.queue;
    }
  }

  /** The head of every recorded path was visited by then, or the queue still holds a path that is no longer. */
  lemma {:induction false} HeadReached(index: Index, order: seq<Name>, matched: Name, st: State, p: PathNode)
    requires Acyclic(index, order) && Covering(index, matched, st)
    requires UpPath(index, p) && p.Last() == matched
    ensures (p.nodeType in st.dist && st.dist[p.nodeType] <= p.Len()) || exists q :: q in st.queue && q.Len() <= p.Len()
  {
    if p.child.Some? {
      var c := p.child.value;
      HeadReached(index, order, matched, st, c);
      if c.nodeType in st.dist && st.dist[c.nodeType] <= c.Len() {
        var e :| e in index[c.nodeType] && p == ParentBy(c, e);
        assert Covered(st, Decode(e).from, st.dist[c.nodeType] + 1);
      }
    }
  }

  lemma FirstIsShortestKept(index: Index, order: seq<Name>, matched: Name, st: State)
    requires Acyclic(index, order) && Inv(index, matched, st) && st.queue != []
    ensures FirstIsShortest(index, matched, Turn(index, st))
  {
    var current := st.queue[0];
    if index[current.nodeType] == [] && st.found == [] {
      forall p | RootPath(index, matched, p)
        ensures current.Len() <= p.Len()
      {
        HeadReached(index, order, matched, st, p);
      }
    }
  }

  lemma TurnKeeps(index: Index, order: seq<Name>, matched: Name, st: State)
    requires Acyclic(index, order) && Inv(index, matched, st) && st.queue != []
    ensures Inv(index, matched, Turn(index, st))
  {
    PathsUpKept(index, order, matched, st);
    LevelsKept(index, st);
    CoveringKept(index, order, matched, st);
    FirstIsShortestKept(index, order, matched, st);
  }

  lemma StartKeeps(index: Index, matched: Name)
    requires matched in index
    ensures Inv(index, matched, State([New(matched)], [], map[]))
  {
    var st := State([New(matched)], [], map[]);
    assert New(matched) in st.queue && New(matched).Len() == 1;
  }

  /** Each turn takes one path off the queue and pushes fewer upward paths than it had: the count strictly drops. */
  lemma TurnDrops(index: Index, order: seq<Name>, st: State)
    requires Acyclic(index, order) && st.queue != [] && Heads(index, st.queue)
    ensures Heads(index, Turn(index, st).queue)
    ensures Pending(index, order, Turn(index, st).queue) < Pending(index, order, st.queue)
  {
    var current := st.queue[0];
    assert st.queue == [current] + st.queue[1..];
    PendingAppend(index, order, [current], st.queue[1..]);
    assert [current][..0] == [];
    ParentsCount(index, order, Visit(st.dist, current).Keys, current, index[current.nodeType]);
    PendingAppend(index, order, st.queue[1..], Parents(Visit(st.dist, current).Keys, current, index[current.nodeType]));
  }

  /** A search that ran dry found a root: the visited types are closed upward, and upward ends at a root. */
  lemma {:induction false} DryHasFound(index: Index, order: seq<Name>, matched: Name, st: State, t: Name)
    requires Acyclic(index, order) && Covering(index, matched, st) && st.queue == []
    requires t in st.dist && t in index
    ensures st.found != []
    decreases Rank(order, t)
  {
    if index[t] != [] {
      var e := index[t][0];
      assert LeadsUp(index, order, t, e);
      assert Covered(st, Decode(e).from, st.dist[t] + 1);
      RankDrops(order, t, Decode(e).from);
      DryHasFound(index, order, matched, st, Decode(e).from);
    }
  }

  // ---------- Which root paths are lost ----------

  /** `q` is a lower part of `p`, or all of it. */
  ghost predicate Tail(q: PathNode, p: PathNode) {
    q == p || (p.child.Some? && Tail(q, p.child.value))
  }

  /** `w` leads up by a reference without a field to a type to which a recorded path with `lead` types fewer leads. */
  ghost predicate OvertakenAt(index: Index, matched: Name, w: PathNode, lead: nat) {
    && w.child.Some? && w.fieldName.None?
    && exists x :: UpPath(index, x) && x.nodeType == w.nodeType && x.Last() == matched && x.Len() + lead <= w.Len()
  }

  ghost predicate Overtaken(index: Index, matched: Name, p: PathNode, lead: nat) {
    exists w :: Tail(w, p) && OvertakenAt(index, matched, w, lead)
  }

  /** `dist` holds lengths of recorded paths. */
  ghost predicate Reached(index: Index, matched: Name, st: State) {
    forall u :: u in st.dist ==>
      exists x :: UpPath(index, x) && x.nodeType == u && x.Last() == matched && x.Len() == st.dist[u]
  }

  /** Every root path is found, or about to be, or overtaken by some path. */
  ghost predicate NoneLost(index: Index, matched: Name, st: State) {
    forall p :: RootPath(index, matched, p) ==>
      p in st.found || (exists q :: q in st.queue && Tail(q, p)) || Overtaken(index, matched, p, 1)
  }

  /** What is overtaken by a lead of two is gone for good. */
  ghost predicate NoneLate(index: Index, matched: Name, st: State) {
    && (forall p :: p in st.queue ==> !Overtaken(index, matched, p, 2))
    && (forall p :: p in st.found ==> !Overtaken(index, matched, p, 2))
  }

  lemma {:induction false} TailContinues(index: Index, q: PathNode, p: PathNode) returns (e: string)
    requires UpPath(index, p) && Tail(q, p) && q != p
    ensures q.nodeType in index && e in index[q.nodeType] && Tail(ParentBy(q, e), p)
  {
    if p.child.value == q {
      e :| e in index[q.nodeType] && p == ParentBy(q, e);
    } else {
      e := TailContinues(index, q, p.child.value);
    }
  }

  lemma ReachedKept(index: Index, matched: Name, st: State)
    requires PathsUp(index, matched, st) && Reached(index, matched, st) && st.queue != []
    ensures Reached(index, matched, Turn(index, st))
  {
    hide UpPath, PathNode.Types, Parents;
    var current := st.queue[0];
    assert UpPath(index, current) && current.Last() == matched;
  }

  /** The path that would be pushed for a pruned reference is overtaken by the one that visited its type. */
  lemma PrunedIsOvertaken(index: Index, order: seq<Name>, matched: Name, st: State, e: string)
    requires Acyclic(index, order) && Heads(index, st.queue) && st.queue != [] && PathsUp(index, matched, st)
    requires Levels(st)
    requires Reached(index, matched, st)
    requires e in index[st.queue[0].nodeType] && e in Turn(index, st).dist
    ensures OvertakenAt(index, matched, ParentBy(st.queue[0], e), 1)
  {
    hide UpPath, PathNode.Types, Parents, Acyclic, Reached;
    var current, st' := st.queue[0], Turn(index, st);
    PrunedIsVisited(index, order, current.nodeType, e, st'.dist.Keys);
    assert st'.dist[e] <= current.Len();
    ReachedKept(index, matched, st);
    ReachedBy(index, matched, st', e);
  }

  lemma ReachedBy(index: Index, matched: Name, st: State, u: Name)
    requires Reached(index, matched, st) && u in st.dist
    ensures exists x :: UpPath(index, x) && x.nodeType == u && x.Last() == matched && x.Len() == st.dist[u]
  {
    hide UpPath, PathNode.Types;
  }

  lemma NoneLostKept(index: Index, order: seq<Name>, matched: Name, st: State)
    requires Acyclic(index, order) && Heads(index, st.queue) && PathsUp(index, matched, st) && Levels(st)
    requires st.queue != []
    requires Reached(index, matched, st) && NoneLost(index, matched, st)
    ensures NoneLost(index, matched, Turn(index, st))
  {
    hide Levels, Reached, Overtaken, Acyclic, UpPath;
    var st' := Turn(index, st);
    forall p | RootPath(index, matched, p) && !Overtaken(index, matched, p, 1)
      ensures p in st'.found || exists q :: q in st'.queue && Tail(q, p)
    {
      if p !in st.found {
        var q :| q in st.queue && Tail(q, p);
        if q in st.queue[1..] {
          assert q in st'.queue;
        } else if q == p {
          assert q == st.queue[0];
        } else {
          GoesOnUpward(index, order, matched, st, p);
        }
      }
    }
  }

  lemma GoesOnUpward(index: Index, order: seq<Name>, matched: Name, st: State, p: PathNode)
    requires Acyclic(index, order) && Heads(index, st.queue) && PathsUp(index, matched, st) && Levels(st)
    requires st.queue != []
    requires Reached(index, matched, st) && RootPath(index, matched, p) && !Overtaken(index, matched, p, 1)
    requires Tail(st.queue[0], p) && st.queue[0] != p
    ensures exists q :: q in Turn(index, st).queue && Tail(q, p)
  {
    hide Levels, Reached, OvertakenAt, Acyclic, Decode;
    var q, st' := st.queue[0], Turn(index, st);
    var e := TailContinues(index, q, p);
    TailNotOvertaken(index, matched, ParentBy(q, e), p);
    if e in st'.dist {
      PrunedIsOvertaken(index, order, matched, st, e);
    } else {
      ParentsHold(st'.dist.Keys, q, index[q.nodeType]);
      assert ParentBy(q, e) in st'.queue;
    }
  }

  lemma TailNotOvertaken(index: Index, matched: Name, w: PathNode, p: PathNode)
    requires Tail(w, p) && !Overtaken(index, matched, p, 1)
    ensures !OvertakenAt(index, matched, w, 1)
  {
    hide OvertakenAt;
  }

  /** A reference whose type a shorter path leads to was visited by then, so it is not followed. */
  lemma PushedInTime(index: Index, order: seq<Name>, matched: Name, st: State, e: string)
    requires Acyclic(index, order) && Heads(index, st.queue) && Inv(index, matched, st) && st.queue != []
    requires e in index[st.queue[0].nodeType] && e !in Turn(index, st).dist
    ensures !OvertakenAt(index, matched, ParentBy(st.queue[0], e), 2)
  {
    hide PathsUp, FirstIsShortest, UpPath, PathNode.Types, Covering, Encode, Decode;
    var current := st.queue[0];
    var w := ParentBy(current, e);
    if OvertakenAt(index, matched, w, 2) {
      var x :| UpPath(index, x) && x.nodeType == w.nodeType && x.Last() == matched && x.Len() + 2 <= w.Len();
      HeadReached(index, order, matched, st, x);
      FieldlessIsName(index, order, current, e);
    }
  }

  lemma FieldlessIsName(index: Index, order: seq<Name>, current: PathNode, e: string)
    requires Acyclic(index, order) && current.nodeType in index && e in index[current.nodeType]
    ensures Decode(e).field.None? ==> e == Decode(e).from
  {
    hide Decode, Legal;
    assert LeadsUp(index, order, current.nodeType, e);
    EncodedIsNameIffNoField(Decode(e));
  }

  lemma NoneLateKept(index: Index, order: seq<Name>, matched: Name, st: State)
    requires Acyclic(index, order) && Heads(index, st.queue) && Inv(index, matched, st) && st.queue != []
    requires NoneLate(index, matched, st)
    ensures NoneLate(index, matched, Turn(index, st))
  {
    hide Acyclic, Levels, Covering, FirstIsShortest, OvertakenAt, UpPath, Decode;
    var current, st' := st.queue[0], Turn(index, st);
    ParentsHold(st'.dist.Keys, current, index[current.nodeType]);
    forall p | p in Parents(st'.dist.Keys, current, index[current.nodeType])
      ensures !Overtaken(index, matched, p, 2)
    {
      var e :| e in index[current.nodeType] && e !in st'.dist.Keys && p == ParentBy(current, e);
      PushedInTime(index, order, matched, st, e);
      assert current in st.queue;
      assert forall w :: Tail(w, p) ==> w == p || Tail(w, current);
    }
  }

  // ---------- When every reference has a field ----------

  ghost predicate AllHaveFields(index: Index) {
    forall t, e :: t in index && e in index[t] ==> Decode(e).field.Some?
  }

  /** Then no path is overtaken. */
  lemma {:induction false} FieldsAreNotOvertaken(index: Index, matched: Name, p: PathNode, w: PathNode, lead: nat)
    requires AllHaveFields(index) && UpPath(index, p) && Tail(w, p)
    ensures !OvertakenAt(index, matched, w, lead)
  {
    hide Decode;
    if w == p {
      if p.child.Some? {
        var e :| e in index[p.child.value.nodeType] && p == ParentBy(p.child.value, e);
      }
    } else {
      FieldsAreNotOvertaken(index, matched, p.child.value, w, lead);
    }
  }

  // ---------- All of it ----------

  ghost predicate Good(index: Index, matched: Name, st: State) {
    && Inv(index, matched, st) && Heads(index, st.queue)
    && Reached(index, matched, st) && NoneLost(index, matched, st) && NoneLate(index, matched, st)
  }

  lemma GoodStart(index: Index, matched: Name)
    requires matched in index
    ensures Good(index, matched, State([New(matched)], [], map[]))
  {
    StartKeeps(index, matched);
    var st := State([New(matched)], [], map[]);
    forall p | RootPath(index, matched, p)
      ensures exists q :: q in st.queue && Tail(q, p)
    {
      TailIsLast(index, p);
      assert New(matched) in st.queue;
    }
    assert forall w :: Tail(w, New(matched)) ==> w == New(matched);
  }

  lemma {:induction false} TailIsLast(index: Index, p: PathNode)
    requires UpPath(index, p)
    ensures Tail(New(p.Last()), p)
  {
    if p.child.Some? {
      TailIsLast(index, p.child.value);
    }
  }

  lemma GoodTurn(index: Index, order: seq<Name>, matched: Name, st: State)
    requires Acyclic(index, order) && Good(index, matched, st) && st.queue != []
    ensures Good(index, matched, Turn(index, st))
    ensures Pending(index, order, Turn(index, st).queue) < Pending(index, order, st.queue)
  {
    TurnKeeps(index, order, matched, st);
    TurnDrops(index, order, st);
    ReachedKept(index, matched, st);
    NoneLostKept(index, order, matched, st);
    NoneLateKept(index, order, matched, st);
  }
}

/** The search as the program runs it. */
module Search {
  import opened GraphQL
  import opened Sequences
  import opened Paths
  import opened Walk
  import opened References
  import opened Indexing
  import opened Upward

  /** The paths that the search returns for one matched type, in the order found. */
  ghost predicate Answers(
    s: Schema, roots: seq<Name>, index: Index, matched: Name, maxPaths: nat, found: seq<PathNode>)
  {
    // each is a repeat-free path along edges of the schema from a requested root to the matched type
    && (forall i :: 0 <= i < |found| ==>
          && RootPath(index, matched, found[i]) && FromRoot(s, roots, found[i]) && Distinct(found[i].Types()))
    // shorter paths come first, and none is shorter than the first
    && (forall i, j :: 0 <= i <= j < |found| ==> found[i].Len() <= found[j].Len())
    && (found != [] ==> forall p :: RootPath(index, matched, p) ==> found[0].Len() <= p.Len())
    // as many as asked for, or as there are
    && |found| <= maxPaths
    && (maxPaths > 0 ==> found != [])
    // a root path that is not found is no shorter than the last one found, or overtaken by some path; when fewer are
    // found than asked for, all are that no path overtakes; none is that is overtaken by a lead of two
    && (forall p, i :: RootPath(index, matched, p) && 0 <= i < |found| ==>
          p in found || Overtaken(index, matched, p, 1) || found[i].Len() <= p.Len())
    && (|found| < maxPaths ==>
          forall p :: RootPath(index, matched, p) ==> p in found || Overtaken(index, matched, p, 1))
    && (|found| < maxPaths && AllHaveFields(index) ==> forall p :: RootPath(index, matched, p) ==> p in found)
    && (forall p :: p in found ==> !Overtaken(index, matched, p, 2))
  }

  lemma RankedIsAcyclic(s: Schema, roots: seq<Name>, index: Index, order: seq<Name>)
    requires Ranked(s, roots, index, order)
    ensures Acyclic(index, order)
  {
    forall t, e | t in index && e in index[t]
      ensures LeadsUp(index, order, t, e)
    {
      assert Recorded(s, index, order, t, e);
    }
  }

  /** A path of recorded references runs along the schema, and never meets a type twice. */
  lemma {:induction false} UpPathFollowsSchema(s: Schema, roots: seq<Name>, index: Index, order: seq<Name>, p: PathNode)
    requires Ranked(s, roots, index, order) && Acyclic(index, order) && UpPath(index, p)
    ensures forall i :: 0 <= i < |p.Steps()| ==> IsEdge(s, p.Steps()[i])
    ensures forall i :: 0 <= i < p.Len() ==>
              p.Types()[i] in order && Rank(order, p.nodeType) <= Rank(order, p.Types()[i])
    ensures Distinct(p.Types())
  {
    hide Decode, Encode, Legal, Rank, Edges;
    if p.child.Some? {
      var c := p.child.value;
      UpPathFollowsSchema(s, roots, index, order, c);
      var e :| e in index[c.nodeType] && p == ParentBy(c, e);
      assert Recorded(s, index, order, c.nodeType, e);
      RankDrops(order, c.nodeType, p.nodeType);
      var ts := p.Types();
      assert ts == [p.nodeType] + c.Types();
      assert forall i :: 0 < i < |ts| ==> ts[i] == c.Types()[i - 1];
    }
  }

  lemma NoneOvertaken(index: Index, matched: Name)
    requires AllHaveFields(index)
    ensures forall p :: RootPath(index, matched, p) ==> !Overtaken(index, matched, p, 1)
  {
    hide AllHaveFields, UpPath, OvertakenAt;
    forall p, w | RootPath(index, matched, p) && Tail(w, p)
      ensures !OvertakenAt(index, matched, w, 1)
    {
      FieldsAreNotOvertaken(index, matched, p, w, 1);
    }
  }

  /** What is still to come is no shorter than what was found. */
  lemma FoundFirst(index: Index, matched: Name, st: State)
    requires Levels(st) && NoneLost(index, matched, st)
    ensures forall p, i :: RootPath(index, matched, p) && 0 <= i < |st.found| ==>
              p in st.found || Overtaken(index, matched, p, 1) || st.found[i].Len() <= p.Len()
  {
    hide RootPath, Overtaken, Tail;
    forall p, i | RootPath(index, matched, p) && 0 <= i < |st.found| && p !in st.found
                  && !Overtaken(index, matched, p, 1)
      ensures st.found[i].Len() <= p.Len()
    {
      var q :| q in st.queue && Tail(q, p);
      TailIsNoLonger(q, p);
    }
  }

  lemma {:induction false} TailIsNoLonger(q: PathNode, p: PathNode)
    requires Tail(q, p)
    ensures q.Len() <= p.Len()
  {
    if q != p {
      TailIsNoLonger(q, p.child.value);
    }
  }

  lemma SearchEnds(
    s: Schema, roots: seq<Name>, index: Index, order: seq<Name>, matched: Name, maxPaths: nat, st: State)
    requires Ranked(s, roots, index, order) && Acyclic(index, order) && matched in index
    requires Good(index, matched, st) && |st.found| <= maxPaths
    requires st.queue == [] || |st.found| == maxPaths
    ensures Answers(s, roots, index, matched, maxPaths, st.found)
  {
    FoundFirst(index, matched, st);
    forall i | 0 <= i < |st.found|
      ensures FromRoot(s, roots, st.found[i]) && Distinct(st.found[i].Types())
    {
      UpPathFollowsSchema(s, roots, index, order, st.found[i]);
    }
    if st.queue == [] {
      assert Covered(st, matched, 1);
      DryHasFound(index, order, matched, st, matched);
      if AllHaveFields(index) {
        NoneOvertaken(index, matched);
      }
    }
  }

  /** Continue upward along every reference that is not, as a string, a visited type. */
  method PushReferences(queue: seq<PathNode>, visited: set<string>, current: PathNode, referencing: seq<string>)
    returns (pushed: seq<PathNode>)
    ensures pushed == queue + Parents(visited, current, referencing)
  {
    pushed := queue;
    var i := 0;
    while i < |referencing|
      invariant 0 <= i <= |referencing|
      invariant pushed == queue + Parents(visited, current, referencing[..i])
    {
      var r := Decode(referencing[i]);
      assert referencing[..i + 1][..i] == referencing[..i];
      if referencing[i] !in visited {
        pushed := pushed + [current.AddParent(r.field, r.args, r.from)];
      }
      i := i + 1;
    }
    assert referencing[..i] == referencing;
  }

  method SearchType(index: Index, matched: Name, maxPaths: nat, ghost s: Schema, ghost roots: seq<Name>)
    returns (rootPaths: seq<PathNode>)
    requires LegalNames(s) && IsIndexOf(s, roots, index) && matched in index
    ensures Answers(s, roots, index, matched, maxPaths, rootPaths)
  {
    IndexIsAcyclic(s, roots, index);
    ghost var order :| Ranked(s, roots, index, order);
    RankedIsAcyclic(s, roots, index, order);
    var visited: set<string> := {};
    var queue := [New(matched)];
    rootPaths := [];
    ghost var st := State(queue, rootPaths, map[]);
    GoodStart(index, matched);
    while queue != []
      invariant st.found == rootPaths && st.dist.Keys == visited && st.queue == queue
      invariant Good(index, matched, st) && |rootPaths| <= maxPaths
      decreases Pending(index, order, queue)
    {
      GoodTurn(index, order, matched, st);
      var current := queue[0];
      queue := queue[1..];
      if |rootPaths| >= maxPaths {
        break;
      }
      visited := visited + {current.nodeType};
      var referencing := if current.nodeType in index then index[current.nodeType] else [];
      if referencing == [] {
        rootPaths := rootPaths + [current];
      } else {
        queue := PushReferences(queue, visited, current, referencing);
      }
      st := Upward.Turn(index, st);
    }
    SearchEnds(s, roots, index, order, matched, maxPaths, st);
  }

  /** The answers for each match, one after another. */
  ghost predicate AnswersInTurn(
    s: Schema, roots: seq<Name>, index: Index, matches: seq<Name>, maxPaths: nat, found: seq<PathNode>)
  {
    if matches == [] then found == [] else
    var n := |matches| - 1;
    exists k: nat :: k <= |found|
      && AnswersInTurn(s, roots, index, matches[..n], maxPaths, found[..k])
      && Answers(s, roots, index, matches[n], maxPaths, found[k..])
  }

  lemma AnswersNext(s: Schema, roots: seq<Name>, index: Index, matches: seq<Name>, maxPaths: nat, before: seq<PathNode>,
                    found: seq<PathNode>)
    requires matches != [] && AnswersInTurn(s, roots, index, matches[..|matches| - 1], maxPaths, before)
    requires Answers(s, roots, index, matches[|matches| - 1], maxPaths, found)
    ensures AnswersInTurn(s, roots, index, matches, maxPaths, before + found)
  {
    hide Answers;
    var all := before + found;
    assert all[..|before|] == before && all[|before|..] == found;
  }

  /** The root paths of the first `maxTypes` matches, before they are sorted by score. */
  method SearchAll(
    index: Index, matches: seq<Name>, maxTypes: nat, maxPaths: nat, ghost s: Schema, ghost roots: seq<Name>)
    returns (rootPaths: seq<PathNode>)
    requires LegalNames(s) && IsIndexOf(s, roots, index)
    requires forall i :: 0 <= i < |matches| ==> matches[i] in index
    ensures var searched := if |matches| < maxTypes then |matches| else maxTypes;
            AnswersInTurn(s, roots, index, matches[..searched], maxPaths, rootPaths)
  {
    hide Answers, IsIndexOf, LegalNames;
    rootPaths := [];
    var i := 0;
    while i < |matches| && i < maxTypes
      invariant 0 <= i <= |matches| && i <= maxTypes
      invariant AnswersInTurn(s, roots, index, matches[..i], maxPaths, rootPaths)
    {
      var found := SearchType(index, matches[i], maxPaths, s, roots);
      assert matches[..i + 1][..i] == matches[..i];
      AnswersNext(s, roots, index, matches[..i + 1], maxPaths, rootPaths, found);
      rootPaths := rootPaths + found;
      i := i + 1;
    }
  }
}

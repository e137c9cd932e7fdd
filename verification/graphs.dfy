/** Walks over a finite graph: what a depth-first marking reaches around the nodes already marked, and what lies
    within a distance. The tree shaker runs both over the types of a schema. */
module Graphs {
  import opened GraphQL

  /** The successors of each node. Only the keys are nodes. */
  type Graph = map<Name, set<Name>>

  datatype DepthLimit = Unlimited | Limited(depth: nat) {
    predicate Reached() {
      Limited? && depth == 0
    }

    /** The program subtracts from an unsigned number: at zero that is an overflow, which no caller may cause. */
    function Decrement(): DepthLimit
      requires !Reached()
    {
      match this
      case Unlimited => this
      case Limited(depth) => Limited(depth - 1)
    }
  }

  function Next(g: Graph, t: Name): set<Name> {
    if t in g then g[t] * g.Keys else {}
  }

  function NextOf(g: Graph, ts: set<Name>): set<Name> {
    set t, u | t in ts && u in Next(g, t) :: u
  }

  lemma NextAreKnown(g: Graph, t: Name)
    ensures forall u :: u in Next(g, t) ==> u in g
  {
  }

  // ---------- Walks ----------

  /** `p` leads from a type of `from` over uses, without touching `avoid`. */
  ghost predicate Walk(g: Graph, avoid: set<Name>, from: set<Name>, p: seq<Name>) {
    && p != [] && p[|p| - 1] in g && p[|p| - 1] !in avoid
    && if |p| == 1 then p[0] in from else Walk(g, avoid, from, p[..|p| - 1]) && p[|p| - 1] in Next(g, p[|p| - 2])
  }

  ghost predicate WalkTo(g: Graph, avoid: set<Name>, from: set<Name>, u: Name) {
    exists p :: Walk(g, avoid, from, p) && p[|p| - 1] == u
  }

  /** The types at distance less than `d` from `from`. */
  ghost function Ball(g: Graph, from: set<Name>, d: nat): set<Name>
    decreases d
  {
    if d == 0 then {} else (from * g.Keys) + Ball(g, NextOf(g, from * g.Keys), d - 1)
  }

  /** The types that a retention with no selection, starting from `from` with `avoid` retained already, goes through:
      without a limit all it can reach around `avoid`, with a limit all within that distance. */
  ghost function Expands(g: Graph, limit: DepthLimit, avoid: set<Name>, from: set<Name>): set<Name> {
    match limit
    case Unlimited => set u | u in g && WalkTo(g, avoid, from, u)
    case Limited(d) => Ball(g, from, d)
  }

  lemma WalkStart(g: Graph, avoid: set<Name>, from: set<Name>, u: Name)
    requires u in from && u in g && u !in avoid
    ensures WalkTo(g, avoid, from, u)
  {
    assert Walk(g, avoid, from, [u]);
    assert [u][|[u]| - 1] == u;
  }

  lemma WalkExtend(g: Graph, avoid: set<Name>, from: set<Name>, u: Name, v: Name)
    requires WalkTo(g, avoid, from, u) && v in Next(g, u) && v !in avoid
    ensures WalkTo(g, avoid, from, v)
  {
    var p :| Walk(g, avoid, from, p) && p[|p| - 1] == u;
    NextAreKnown(g, u);
    var q := p + [v];
    assert q[..|q| - 1] == p;
    assert Walk(g, avoid, from, q) && q[|q| - 1] == v;
  }

  /** A set with the starting types that is closed under uses, both up to `avoid`, holds all that walks reach. */
  lemma WalkLeast(g: Graph, avoid: set<Name>, from: set<Name>, closed: set<Name>)
    requires forall u :: u in from && u in g && u !in avoid ==> u in closed
    requires forall u, v :: u in closed && v in Next(g, u) && v !in avoid ==> v in closed
    ensures Expands(g, Unlimited, avoid, from) <= closed
  {
    forall u | u in Expands(g, Unlimited, avoid, from)
      ensures u in closed
    {
      var p :| Walk(g, avoid, from, p) && p[|p| - 1] == u;
      WalkStays(g, avoid, from, closed, p);
    }
  }

  lemma {:induction false} WalkStays(g: Graph, avoid: set<Name>, from: set<Name>, closed: set<Name>, p: seq<Name>)
    requires forall u :: u in from && u in g && u !in avoid ==> u in closed
    requires forall u, v :: u in closed && v in Next(g, u) && v !in avoid ==> v in closed
    requires Walk(g, avoid, from, p)
    ensures p[|p| - 1] in closed
    decreases |p|
  {
    if |p| > 1 {
      WalkStays(g, avoid, from, closed, p[..|p| - 1]);
      assert p[..|p| - 1][|p| - 2] == p[|p| - 2];
    }
  }

  // ---------- How expansions compose ----------

  /** Retaining `a` and then `b` goes through the same types as retaining both: an early return loses nothing. */
  lemma ExpandsBoth(g: Graph, limit: DepthLimit, avoid: set<Name>, a: set<Name>, b: set<Name>)
    ensures var first := Expands(g, limit, avoid, a);
            Expands(g, limit, avoid, a + b) == first + Expands(g, limit, avoid + first, b)
  {
    match limit
    case Limited(d) => BallBoth(g, a, b, d);
    case Unlimited =>
      var first := Expands(g, limit, avoid, a);
      var second := Expands(g, limit, avoid + first, b);
      var both := Expands(g, limit, avoid, a + b);
      forall u | u in a && u in g && u !in avoid ensures WalkTo(g, avoid, a, u) { WalkStart(g, avoid, a, u); }
      forall u, v | u in first && v in Next(g, u) && v !in avoid ensures v in first
      {
        WalkExtend(g, avoid, a, u, v);
        NextAreKnown(g, u);
      }
      forall u | u in b && u in g && u !in avoid + first ensures u in second { WalkStart(g, avoid + first, b, u); }
      forall u, v | u in second && v in Next(g, u) && v !in avoid + first ensures v in second
      {
        WalkExtend(g, avoid + first, b, u, v);
        NextAreKnown(g, u);
      }
      WalkLeast(g, avoid, a + b, first + second);
      ExpandsMonotone(g, avoid, avoid, a, a + b);
      ExpandsMonotone(g, avoid + first, avoid, b, a + b);
  }

  lemma ExpandsMonotone(g: Graph, more: set<Name>, less: set<Name>, from: set<Name>, wider: set<Name>)
    requires less <= more && from <= wider
    ensures Expands(g, Unlimited, more, from) <= Expands(g, Unlimited, less, wider)
  {
    var all := Expands(g, Unlimited, less, wider);
    forall u | u in from && u in g && u !in more ensures u in all { WalkStart(g, less, wider, u); }
    forall u, v | u in all && v in Next(g, u) && v !in more && v !in less ensures v in all
    {
      WalkExtend(g, less, wider, u, v);
      NextAreKnown(g, u);
    }
    WalkLeast(g, more, from, all);
  }

  lemma {:induction false} BallBoth(g: Graph, a: set<Name>, b: set<Name>, d: nat)
    ensures Ball(g, a + b, d) == Ball(g, a, d) + Ball(g, b, d)
    decreases d
  {
    if d > 0 {
      var ka, kb := a * g.Keys, b * g.Keys;
      assert (a + b) * g.Keys == ka + kb;
      assert NextOf(g, ka + kb) == NextOf(g, ka) + NextOf(g, kb);
      BallBoth(g, NextOf(g, ka), NextOf(g, kb), d - 1);
    }
  }

  /** Retaining one type that is not retained yet: mark it, then retain what it uses one level down. */
  lemma ExpandsOne(g: Graph, limit: DepthLimit, avoid: set<Name>, t: Name)
    requires t in g && !limit.Reached() && (limit.Unlimited? ==> t !in avoid)
    ensures Expands(g, limit, avoid, {t}) == {t} + Expands(g, limit.Decrement(), avoid + {t}, Next(g, t))
  {
    match limit
    case Limited(d) =>
      assert {t} * g.Keys == {t};
      assert NextOf(g, {t}) == Next(g, t);
    case Unlimited =>
      var rest := Expands(g, limit, avoid + {t}, Next(g, t));
      var all := Expands(g, limit, avoid, {t});
      WalkStart(g, avoid, {t}, t);
      forall u | u in Next(g, t) && u !in avoid + {t} ensures u in rest
      {
        NextAreKnown(g, t);
        WalkStart(g, avoid + {t}, Next(g, t), u);
      }
      forall u, v | u in {t} + rest && v in Next(g, u) && v !in avoid ensures v in {t} + rest
      {
        if u != t && v != t {
          WalkExtend(g, avoid + {t}, Next(g, t), u, v);
          NextAreKnown(g, u);
        }
      }
      WalkLeast(g, avoid, {t}, {t} + rest);
      forall u | u in Next(g, t) && u in g && u !in avoid + {t} ensures u in all { WalkExtend(g, avoid, {t}, t, u); }
      forall u, v | u in all && v in Next(g, u) && v !in avoid + {t} ensures v in all
      {
        WalkExtend(g, avoid, {t}, u, v);
        NextAreKnown(g, u);
      }
      WalkLeast(g, avoid + {t}, Next(g, t), all);
  }

  /** A retained type is not gone through again when there is no limit. */
  lemma ExpandsNothing(g: Graph, avoid: set<Name>, from: set<Name>)
    requires from <= avoid
    ensures Expands(g, Unlimited, avoid, from) == {}
  {
    WalkLeast(g, avoid, from, {});
  }

  // ---------- Reach and distance ----------

  ghost function Reach(g: Graph, from: set<Name>): set<Name> {
    Expands(g, Unlimited, {}, from)
  }

  /** `Reach` is the least set of known types that holds `from` and is closed under uses. */
  lemma ReachClosed(g: Graph, from: set<Name>)
    ensures from * g.Keys <= Reach(g, from)
    ensures NextOf(g, Reach(g, from)) <= Reach(g, from)
    ensures forall closed: set<Name> :: from * g.Keys <= closed && NextOf(g, closed) <= closed ==>
              Reach(g, from) <= closed
  {
    forall u | u in from * g.Keys ensures u in Reach(g, from) { WalkStart(g, {}, from, u); }
    forall u, v | u in Reach(g, from) && v in Next(g, u) ensures v in Reach(g, from)
    {
      WalkExtend(g, {}, from, u, v);
      NextAreKnown(g, u);
    }
    forall closed: set<Name> | from * g.Keys <= closed && NextOf(g, closed) <= closed ensures Reach(g, from) <= closed
    {
      forall u, v | u in closed && v in Next(g, u) ensures v in closed { assert v in NextOf(g, closed); }
      WalkLeast(g, {}, from, closed);
    }
  }

  /** `u` ends a walk of at most `d` types: it is at distance below `d`. */
  ghost predicate Within(g: Graph, from: set<Name>, d: nat, u: Name) {
    exists p :: Walk(g, {}, from, p) && |p| <= d && p[|p| - 1] == u
  }

  /** The ball of radius `d` holds exactly the types at distance below `d`. */
  lemma {:induction false} BallIsDistance(g: Graph, from: set<Name>, d: nat, u: Name)
    ensures u in Ball(g, from, d) <==> Within(g, from, d, u)
  {
    if u in Ball(g, from, d) {
      var p := BallWalk(g, from, d, u);
    }
    if Within(g, from, d, u) {
      var p :| Walk(g, {}, from, p) && |p| <= d && p[|p| - 1] == u;
      WalkInBall(g, from, d, p);
    }
  }

  lemma {:induction false} WalkInBall(g: Graph, from: set<Name>, d: nat, p: seq<Name>)
    requires Walk(g, {}, from, p) && |p| <= d
    ensures p[|p| - 1] in Ball(g, from, d)
    decreases |p|
  {
    if |p| > 1 {
      WalkInBall(g, from, d - 1, p[..|p| - 1]);
      BallLayers(g, from, d - 1);
      assert p[..|p| - 1][|p| - 2] == p[|p| - 2];
    }
  }

  lemma {:induction false} BallWalk(g: Graph, from: set<Name>, d: nat, u: Name) returns (p: seq<Name>)
    requires u in Ball(g, from, d)
    ensures Walk(g, {}, from, p) && |p| <= d && p[|p| - 1] == u
    decreases d
  {
    BallLayers(g, from, d - 1);
    if u in from && u in g {
      p := [u];
    } else {
      var t :| t in Ball(g, from, d - 1) && u in Next(g, t);
      var q := BallWalk(g, from, d - 1, t);
      NextAreKnown(g, t);
      p := q + [u];
      assert p[..|p| - 1] == q;
    }
  }

  /** One more step of distance adds what the ball uses. */
  lemma {:induction false} BallLayers(g: Graph, from: set<Name>, d: nat)
    ensures Ball(g, from, d + 1) == (from * g.Keys) + NextOf(g, Ball(g, from, d))
    decreases d
  {
    var known := from * g.Keys;
    if d == 0 {
      assert NextOf(g, {}) == {};
    } else {
      BallLayers(g, NextOf(g, known), d - 1);
      var next := NextOf(g, known);
      assert next * g.Keys == next by {
        forall u | u in next ensures u in g
        {
          var t :| t in known && u in Next(g, t);
          NextAreKnown(g, t);
        }
      }
      assert Ball(g, from, d) == known + Ball(g, next, d - 1);
      assert NextOf(g, Ball(g, from, d)) == next + NextOf(g, Ball(g, next, d - 1));
    }
  }

  lemma {:induction false} BallKnown(g: Graph, from: set<Name>, d: nat)
    ensures Ball(g, from, d) <= g.Keys
    decreases d
  {
    if d > 0 {
      BallKnown(g, NextOf(g, from * g.Keys), d - 1);
    }
  }

  lemma {:induction false} BallGrows(g: Graph, from: set<Name>, d: nat)
    ensures Ball(g, from, d) <= Ball(g, from, d + 1)
    decreases d
  {
    if d > 0 {
      BallGrows(g, NextOf(g, from * g.Keys), d - 1);
    }
  }

  lemma BallStaysFull(g: Graph, from: set<Name>, d: nat)
    requires Ball(g, from, d + 1) == Ball(g, from, d)
    ensures Ball(g, from, d + 2) == Ball(g, from, d + 1)
  {
    hide Ball, NextOf;
    BallLayers(g, from, d + 1);
    BallLayers(g, from, d);
  }

  /** A ball that stops growing has stopped for good; until then each step adds at least one type. */
  lemma {:induction false} BallGrowsOrIsFull(g: Graph, from: set<Name>, d: nat)
    ensures Ball(g, from, d + 1) == Ball(g, from, d) || |Ball(g, from, d + 1)| > d
    decreases d
  {
    hide Ball;
    BallGrows(g, from, d);
    if Ball(g, from, d + 1) != Ball(g, from, d) {
      Smaller(Ball(g, from, d), Ball(g, from, d + 1));
      if d > 0 {
        var e: nat := d - 1;
        BallGrowsOrIsFull(g, from, e);
        if Ball(g, from, e + 1) == Ball(g, from, e) {
          BallStaysFull(g, from, e);
        }
      }
    }
  }

  lemma Smaller(a: set<Name>, b: set<Name>)
    requires a < b
    ensures |a| < |b|
  {
    var x :| x in b && x !in a;
    assert x in b - a;
    assert |b| == |a| + |b - a| by {
      assert b == a + (b - a);
    }
  }

  lemma NotLarger(a: set<Name>, b: set<Name>)
    requires a <= b
    ensures |a| <= |b|
  {
    if a != b {
      Smaller(a, b);
    }
  }

  lemma BallInReach(g: Graph, from: set<Name>, d: nat)
    ensures Ball(g, from, d) <= Reach(g, from)
  {
    hide Ball, Next, NextOf;
    BallKnown(g, from, d);
    forall u | u in Ball(g, from, d)
      ensures WalkTo(g, {}, from, u)
    {
      BallIsDistance(g, from, d, u);
    }
  }

  /** A limit of at least the number of types of the schema is no limit. */
  lemma BallIsReach(g: Graph, from: set<Name>, d: nat)
    requires d >= |g|
    ensures Ball(g, from, d) == Reach(g, from)
  {
    hide Ball, NextOf, Reach;
    BallGrowsOrIsFull(g, from, d);
    BallKnown(g, from, d + 1);
    NotLarger(Ball(g, from, d + 1), g.Keys);
    BallLayers(g, from, d);
    ReachClosed(g, from);
    BallInReach(g, from, d);
  }

  /** A closed set that holds the start holds all that a walk from it goes through, with or without a limit. */
  lemma ExpandsStays(g: Graph, limit: DepthLimit, from: set<Name>, closed: set<Name>)
    requires from * g.Keys <= closed && NextOf(g, closed) <= closed
    ensures Expands(g, limit, {}, from) <= closed
  {
    ReachClosed(g, from);
    match limit
    case Unlimited =>
    case Limited(d) => BallInReach(g, from, d);
  }
}

/** What a retention adds to the retained schema, as sets: the algebra of additions, over any graph of uses. */
module ShakeViews {
  import opened GraphQL
  import opened Graphs

  /** What the tree shaker sees of a schema: the uses of each type, the directives applied to it, and the input types.
      `typed` says that input types use only input types. */
  datatype World = World(uses: Graph, applied: map<Name, set<Name>>, inputs: set<Name>, typed: bool)
  {
    ghost predicate Ok() {
      && inputs <= uses.Keys
      && (typed ==> forall t, u :: t in inputs && u in Next(uses, t) ==> u in inputs)
    }

    function Applied(t: Name): set<Name> {
      if t in applied then applied[t] else {}
    }

    function AppliedTo(ts: set<Name>): set<Name> {
      set t, d | t in ts && d in Applied(t) :: d
    }
  }

  /** The retained types, those whose field list is narrowed, the fields on those lists, and the directives. */
  datatype View = View(types: set<Name>, narrowed: set<Name>, fields: set<(Name, Name)>, directives: set<Name>)
  {
    function Plus(more: View): View {
      View(types + more.types, narrowed + more.narrowed, fields + more.fields, directives + more.directives)
    }
  }

  const NOTHING := View({}, {}, {}, {})

  function OnlyDirectives(ds: set<Name>): View {
    View({}, {}, {}, ds)
  }

  // ---------- Retaining without a selection ----------

  /** What retaining `from` without a selection adds to a fresh shaker. */
  ghost function Cover(w: World, limit: DepthLimit, from: set<Name>): View {
    var x := Expands(w.uses, limit, {}, from);
    View(x, {}, {}, w.AppliedTo(x))
  }

  /** Exactly the types that the walk from `from` goes through around the types retained before are added, with the
      directives applied to them, and the directives `ds`. */
  ghost predicate RetainsAll(w: World, limit: DepthLimit, v: View, from: set<Name>, ds: set<Name>, v': View) {
    var x := Expands(w.uses, limit, v.types, from);
    v' == View(v.types + x, v.narrowed, v.fields, v.directives + w.AppliedTo(x) + ds)
  }

  lemma AppliedToBoth(w: World, a: set<Name>, b: set<Name>)
    ensures w.AppliedTo(a + b) == w.AppliedTo(a) + w.AppliedTo(b)
  {
  }

  lemma AppliedToOne(w: World, t: Name)
    ensures w.AppliedTo({t}) == w.Applied(t)
  {
  }

  lemma RetainsNone(w: World, limit: DepthLimit, v: View, ds: set<Name>)
    ensures RetainsAll(w, limit, v, {}, ds, v.(directives := v.directives + ds))
  {
    var g := w.uses;
    assert Expands(g, limit, v.types, {}) == {} by {
      match limit {
        case Unlimited => ExpandsNothing(g, v.types, {});
        case Limited(d) => BallEmpty(g, d);
      }
    }
    assert w.AppliedTo({}) == {};
  }

  lemma {:induction false} BallEmpty(g: Graph, d: nat)
    ensures Ball(g, {}, d) == {}
    decreases d
  {
    if d > 0 {
      assert {} * g.Keys == {};
      assert NextOf(g, {}) == {};
      BallEmpty(g, d - 1);
    }
  }

  lemma RetainsThen(
    w: World, limit: DepthLimit, v: View, a: set<Name>, da: set<Name>, v1: View, b: set<Name>, db: set<Name>, v2: View)
    requires RetainsAll(w, limit, v, a, da, v1) && RetainsAll(w, limit, v1, b, db, v2)
    ensures RetainsAll(w, limit, v, a + b, da + db, v2)
  {
    var g := w.uses;
    ExpandsBoth(g, limit, v.types, a, b);
    AppliedToBoth(w, Expands(g, limit, v.types, a), Expands(g, limit, v1.types, b));
  }

  lemma RetainsNothing(w: World, limit: DepthLimit, v: View)
    ensures RetainsAll(w, limit, v, {}, {}, v)
  {
    RetainsNone(w, limit, v, {});
    assert v.(directives := v.directives + {}) == v;
  }

  lemma RetainsStep(
    w: World, limit: DepthLimit, v: View, a: set<Name>, da: set<Name>, v1: View, b: set<Name>, db: set<Name>, v2: View,
    all: set<Name>, dall: set<Name>)
    requires RetainsAll(w, limit, v, a, da, v1) && RetainsAll(w, limit, v1, b, db, v2)
    requires all == a + b && dall == da + db
    ensures RetainsAll(w, limit, v, all, dall, v2)
  {
    RetainsThen(w, limit, v, a, da, v1, b, db, v2);
  }

  lemma RetainsGrows(w: World, limit: DepthLimit, v: View, from: set<Name>, ds: set<Name>, v': View)
    requires RetainsAll(w, limit, v, from, ds, v')
    ensures v.types <= v'.types && v.directives <= v'.directives
  {
  }

  lemma RetainsOne(w: World, limit: DepthLimit, v: View, t: Name, v': View)
    requires t in w.uses && !limit.Reached() && (limit.Unlimited? ==> t !in v.types)
    requires RetainsAll(w, limit.Decrement(), v.(types := v.types + {t}), Next(w.uses, t), w.Applied(t), v')
    ensures RetainsAll(w, limit, v, {t}, {}, v')
  {
    var g := w.uses;
    ExpandsOne(g, limit, v.types, t);
    var rest := Expands(g, limit.Decrement(), v.types + {t}, Next(w.uses, t));
    OneMoreApplied(w, t, rest, Expands(g, limit, v.types, {t}));
    assert v'.types == v.types + Expands(g, limit, v.types, {t});
    assert v'.directives == v.directives + w.AppliedTo(Expands(g, limit, v.types, {t})) + {};
  }

  lemma OneMoreApplied(w: World, t: Name, rest: set<Name>, all: set<Name>)
    requires all == {t} + rest
    ensures w.AppliedTo(all) == w.Applied(t) + w.AppliedTo(rest)
  {
    AppliedToBoth(w, {t}, rest);
    AppliedToOne(w, t);
  }

  lemma RetainsReached(w: World, limit: DepthLimit, v: View, from: set<Name>)
    requires limit.Reached()
    ensures RetainsAll(w, limit, v, from, {}, v)
  {
    assert w.AppliedTo({}) == {};
  }

  lemma RetainsAgain(w: World, v: View, t: Name)
    requires t in v.types
    ensures RetainsAll(w, Unlimited, v, {t}, {}, v)
  {
    ExpandsNothing(w.uses, v.types, {t});
    assert w.AppliedTo({}) == {};
  }

  /** Every retained input type has all that it uses retained, and all that is applied to it. */
  ghost predicate Settled(w: World, v: View) {
    && w.typed
    && forall t :: t in v.types && t in w.inputs ==> Next(w.uses, t) <= v.types && w.Applied(t) <= v.directives
  }

  /** What a retention with a selection adds. From every state the retained types and directives grow by no more than
      `more`, every narrowed type is retained, and so are all types of `more` but input types; under a limit, or from a
      settled state, exactly `more` is added. */
  ghost predicate Adds(w: World, limited: bool, v: View, more: View, v': View) {
    && v.types + more.narrowed <= v'.types <= v.types + more.types
    && v.directives <= v'.directives <= v.directives + more.directives
    && (w.typed ==> more.types - w.inputs <= v'.types)
    && v'.narrowed == v.narrowed + more.narrowed && v'.fields == v.fields + more.fields
    && (limited || Settled(w, v) ==> v' == v.Plus(more))
    && (!limited && Settled(w, v) ==> Settled(w, v'))
  }

  lemma AddsNothing(w: World, limited: bool, v: View)
    ensures Adds(w, limited, v, NOTHING, v)
  {
    assert v.Plus(NOTHING) == v;
  }

  lemma AddsThen(w: World, limited: bool, v: View, a: View, v1: View, b: View, v2: View)
    requires Adds(w, limited, v, a, v1) && Adds(w, limited, v1, b, v2)
    ensures Adds(w, limited, v, a.Plus(b), v2)
  {
    assert v.Plus(a).Plus(b) == v.Plus(a.Plus(b));
  }

  lemma AddsGrows(w: World, limited: bool, v: View, more: View, v': View)
    requires Adds(w, limited, v, more, v')
    ensures v.types <= v'.types && v.directives <= v'.directives
  {
  }

  lemma AddsSettles(w: World, v: View, more: View, v': View)
    requires Adds(w, false, v, more, v') && Settled(w, v)
    ensures Settled(w, v')
  {
  }

  /** From a settled state, walking around the retained types adds as much as walking from scratch. */
  lemma ExpandsFromSettled(w: World, v: View, from: set<Name>)
    requires w.Ok() && Settled(w, v) && from <= w.inputs
    ensures var x := Expands(w.uses, Unlimited, v.types, from);
            && x <= w.inputs
            && v.types + x == v.types + Reach(w.uses, from)
            && v.directives + w.AppliedTo(x) == v.directives + w.AppliedTo(Reach(w.uses, from))
            && (forall t :: t in x ==> Next(w.uses, t) <= v.types + x)
  {
    var g := w.uses;
    var x := Expands(g, Unlimited, v.types, from);
    WalkLeast(g, v.types, from, w.inputs);
    forall u | u in from && u in g && u !in v.types ensures u in x { WalkStart(g, v.types, from, u); }
    forall t | t in x
      ensures Next(g, t) <= v.types + x
    {
      forall u | u in Next(g, t) && u !in v.types ensures u in x
      {
        NextAreKnown(g, t);
        WalkExtend(g, v.types, from, t, u);
      }
    }
    var closed := (v.types + x) * w.inputs;
    WalkLeast(g, {}, from, closed);
    ExpandsMonotone(g, v.types, {}, from, from);
  }

  /** From a settled state, a retention without a limit and a selection leaves a settled one, whatever it starts
      from. */
  lemma RetainsSettles(w: World, v: View, from: set<Name>, ds: set<Name>, v': View)
    requires Settled(w, v) && RetainsAll(w, Unlimited, v, from, ds, v')
    ensures Settled(w, v')
  {
    hide Walk;
    var x := Expands(w.uses, Unlimited, v.types, from);
    forall t | t in v'.types && t in w.inputs
      ensures Next(w.uses, t) <= v'.types && w.Applied(t) <= v'.directives
    {
      if t in x {
        assert w.Applied(t) <= w.AppliedTo(x);
        forall u | u in Next(w.uses, t) && u !in v.types ensures u in x
        {
          NextAreKnown(w.uses, t);
          WalkExtend(w.uses, v.types, from, t, u);
        }
      }
    }
  }

  lemma CoverBounds(w: World, limit: DepthLimit, v: View, from: set<Name>, ds: set<Name>, v': View)
    requires RetainsAll(w, limit, v, from, ds, v')
    requires w.Ok() && (w.typed ==> from <= w.inputs)
    ensures var more := Cover(w, limit, from).Plus(OnlyDirectives(ds));
            && v.types <= v'.types <= v.types + more.types
            && v.directives <= v'.directives <= v.directives + more.directives
            && (w.typed ==> more.types <= w.inputs)
  {
    var x, all := Expands(w.uses, limit, v.types, from), Expands(w.uses, limit, {}, from);
    if limit.Unlimited? {
      ExpandsMonotone(w.uses, v.types, {}, from, from);
    }
    assert w.AppliedTo(x) <= w.AppliedTo(all);
    if w.typed {
      ExpandsStays(w.uses, limit, from, w.inputs);
    }
  }

  /** A retention without a selection, as an addition. */
  lemma RetainsAdds(w: World, limit: DepthLimit, v: View, from: set<Name>, ds: set<Name>, v': View)
    requires RetainsAll(w, limit, v, from, ds, v')
    requires w.Ok() && (w.typed ==> from <= w.inputs)
    ensures Adds(w, limit.Limited?, v, Cover(w, limit, from).Plus(OnlyDirectives(ds)), v')
  {
    hide Expands, World.AppliedTo, World.Applied;
    CoverBounds(w, limit, v, from, ds, v');
    if limit.Unlimited? && Settled(w, v) {
      ExpandsFromSettled(w, v, from);
      RetainsSettles(w, v, from, ds, v');
    } else if limit.Limited? {
      CoverUnderLimit(w, limit, v, from);
    }
  }

  /** Under a limit, what is retained before does not matter. */
  lemma CoverUnderLimit(w: World, limit: DepthLimit, v: View, from: set<Name>)
    requires limit.Limited?
    ensures Expands(w.uses, limit, v.types, from) == Expands(w.uses, limit, {}, from)
  {
  }

  // ---------- Marking a type ----------

  ghost function Marked(t: Name, names: set<Name>): View {
    View({t}, {t}, set n | n in names :: (t, n), {})
  }

  /** Marking a composite type leaves the input types settled. */
  lemma MarkAdds(w: World, limited: bool, v: View, t: Name, names: set<Name>)
    requires t !in w.inputs
    ensures Adds(w, limited, v, Marked(t, names), v.Plus(Marked(t, names)))
  {
  }

  /** What retaining an input type with a selection adds, besides fragments: its mark and all that it uses. */
  ghost function InputEffect(w: World, limit: DepthLimit, t: Name, names: set<Name>): View
    requires !limit.Reached()
  {
    Marked(t, names).Plus(Cover(w, limit.Decrement(), Next(w.uses, t)).Plus(OnlyDirectives(w.Applied(t))))
  }

  /** Marking an input type and then retaining what it uses is again an addition. */
  lemma MarkInputAdds(w: World, limit: DepthLimit, v: View, t: Name, names: set<Name>, v': View)
    requires w.Ok() && t in w.inputs && !limit.Reached()
    requires RetainsAll(w, limit.Decrement(), v.Plus(Marked(t, names)), Next(w.uses, t), w.Applied(t), v')
    ensures Adds(w, limit.Limited?, v, InputEffect(w, limit, t, names), v')
  {
    hide Expands, World.AppliedTo, World.Applied, Next, Settled;
    CoverBounds(w, limit.Decrement(), v.Plus(Marked(t, names)), Next(w.uses, t), w.Applied(t), v');
    if limit.Limited? {
      CoverUnderLimit(w, limit.Decrement(), v.Plus(Marked(t, names)), Next(w.uses, t));
      assert v' == v.Plus(InputEffect(w, limit, t, names));
    } else if Settled(w, v) {
      if t in v.types {
        MarkKnownInput(w, v, t, names, v');
      } else {
        MarkUnknownInput(w, v, t, names, v');
      }
    }
  }

  lemma MarkUnknownInput(w: World, v: View, t: Name, names: set<Name>, v': View)
    requires w.Ok() && Settled(w, v) && t in w.inputs && t !in v.types
    requires RetainsAll(w, Unlimited, v.Plus(Marked(t, names)), Next(w.uses, t), w.Applied(t), v')
    ensures v' == v.Plus(InputEffect(w, Unlimited, t, names)) && Settled(w, v')
  {
    hide Expands, World.AppliedTo, World.Applied, Next, World.Ok;
    MarkNewInput(w, v, t);
    NewInputSettles(w, v, t, Expands(w.uses, Unlimited, v.types + {t}, Next(w.uses, t)), v');
  }

  lemma MarkKnownInput(w: World, v: View, t: Name, names: set<Name>, v': View)
    requires w.Ok() && Settled(w, v) && t in w.inputs && t in v.types
    requires RetainsAll(w, Unlimited, v.Plus(Marked(t, names)), Next(w.uses, t), w.Applied(t), v')
    ensures v' == v.Plus(InputEffect(w, Unlimited, t, names)) && Settled(w, v')
  {
    hide Expands, World.AppliedTo, Next;
    var v1 := v.Plus(Marked(t, names));
    assert v1.types == v.types && v1.directives == v.directives;
    assert Settled(w, v1);
    RetainsAdds(w, Unlimited, v1, Next(w.uses, t), w.Applied(t), v');
    var more := Cover(w, Unlimited, Next(w.uses, t)).Plus(OnlyDirectives(w.Applied(t)));
    assert v1.Plus(more) == v.Plus(Marked(t, names).Plus(more));
  }

  lemma MarkNewInput(w: World, v: View, t: Name)
    requires w.Ok() && Settled(w, v) && t in w.inputs && t !in v.types
    ensures var x, r := Expands(w.uses, Unlimited, v.types + {t}, Next(w.uses, t)), Reach(w.uses, Next(w.uses, t));
            && v.types + {t} + x == v.types + {t} + r
            && v.directives + w.Applied(t) + w.AppliedTo(x) == v.directives + w.Applied(t) + w.AppliedTo(r)
            && (forall u :: u in {t} + x ==> Next(w.uses, u) <= v.types + {t} + x)
  {
    var g := w.uses;
    var x, r := Expands(g, Unlimited, v.types + {t}, Next(w.uses, t)), Reach(g, Next(w.uses, t));
    ExpandsOne(g, Unlimited, v.types, t);
    ExpandsFromSettled(w, v, {t});
    ReachOne(w, t);
    OneMoreApplied(w, t, x, {t} + x);
    OneMoreApplied(w, t, r, {t} + r);
  }

  lemma ReachOne(w: World, t: Name)
    requires t in w.uses
    ensures Reach(w.uses, {t}) == {t} + Reach(w.uses, Next(w.uses, t))
  {
    var g := w.uses;
    ExpandsOne(g, Unlimited, {}, t);
    ExpandsMonotone(g, {} + {t}, {}, Next(w.uses, t), Next(w.uses, t));
    ReachClosed(g, {t});
    ReachClosed(g, Next(w.uses, t));
    forall u | u in Next(w.uses, t) * g.Keys
      ensures u in Reach(g, {t})
    {
      assert u in NextOf(g, Reach(g, {t}));
    }
  }

  lemma NewInputSettles(w: World, v: View, t: Name, x: set<Name>, v': View)
    requires Settled(w, v)
    requires v'.types == v.types + {t} + x && v'.directives == v.directives + w.AppliedTo(x) + w.Applied(t)
    requires forall u :: u in {t} + x ==> Next(w.uses, u) <= v.types + {t} + x
    ensures Settled(w, v')
  {
    forall u | u in v'.types && u in w.inputs
      ensures Next(w.uses, u) <= v'.types && w.Applied(u) <= v'.directives
    {
      if u in x {
        assert w.Applied(u) <= w.AppliedTo(x);
      }
    }
  }
}

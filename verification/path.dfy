/** Paths from a root operation type down to another type (crates/apollo-schema-index/src/path.rs). */
module Paths {
  import opened GraphQL
  import opened Sequences

  /** One step of a path: the field of `from` whose type is `to`, or no field for a union member or an implementer. */
  datatype Step = Step(from: Name, field: Option<Name>, args: seq<Name>, to: Name)

  datatype PathNode = PathNode(nodeType: Name, fieldName: Option<Name>, fieldArgs: seq<Name>, child: Option<PathNode>)
  {
    function AddChild(field: Option<Name>, args: seq<Name>, childType: Name): PathNode {
      match child
      case Some(c) => PathNode(nodeType, fieldName, fieldArgs, Some(c.AddChild(field, args, childType)))
      case None => PathNode(nodeType, field, args, Some(New(childType)))
    }

    function AddParent(field: Option<Name>, args: seq<Name>, parentType: Name): PathNode {
      PathNode(parentType, field, args, Some(this))
    }

    /** The penultimate node of a path, with the field that leads to the last one. */
    function ReferencingType(): Option<(Name, Option<Name>, seq<Name>)> {
      match child
      case Some(c) => Some(c.ReferencingTypeInner(this))
      case None => None
    }

    function ReferencingTypeInner(referencing: PathNode): (Name, Option<Name>, seq<Name>) {
      match child
      case Some(c) => c.ReferencingTypeInner(this)
      case None => (referencing.nodeType, referencing.fieldName, referencing.fieldArgs)
    }

    predicate HasCycle() {
      HasCycleInner({})
    }

    predicate HasCycleInner(visited: set<Name>) {
      nodeType in visited || (child.Some? && child.value.HasCycleInner(visited + {nodeType}))
    }

    function Len(): nat {
      match child
      case Some(c) => c.Len() + 1
      case None => 1
    }

    /** The types along the path, from the top. */
    function Types(): (r: seq<Name>)
      ensures |r| == Len() && r[0] == nodeType
    {
      [nodeType] + (if child.Some? then child.value.Types() else [])
    }

    /** The steps along the path, from the top. */
    function Steps(): (r: seq<Step>)
      ensures |r| == Len() - 1
    {
      match child
      case Some(c) => [Step(nodeType, fieldName, fieldArgs, c.nodeType)] + c.Steps()
      case None => []
    }

    function Last(): Name {
      Types()[Len() - 1]
    }

    /** The types along the path, except the last one. */
    function ParentTypes(): seq<Name> {
      Types()[..Len() - 1]
    }
  }

  function New(t: Name): PathNode {
    PathNode(t, None, [], None)
  }

  lemma {:induction false} AddChildExtends(p: PathNode, field: Option<Name>, args: seq<Name>, t: Name)
    ensures p.AddChild(field, args, t).Types() == p.Types() + [t]
    ensures p.AddChild(field, args, t).Steps() == p.Steps() + [Step(p.Last(), field, args, t)]
  {
    match p.child
    case Some(c) =>
      AddChildExtends(c, field, args, t);
      assert c.AddChild(field, args, t).nodeType == c.nodeType;
    case None =>
  }

  lemma {:induction false} StepsJoinTypes(p: PathNode)
    ensures forall i :: 0 <= i < p.Len() - 1 ==>
              p.Steps()[i].from == p.Types()[i] && p.Steps()[i].to == p.Types()[i + 1]
  {
    if p.child.Some? {
      StepsJoinTypes(p.child.value);
    }
  }

  lemma {:induction false} ReferencingTypeIsLastStep(p: PathNode)
    ensures p.ReferencingType().None? <==> p.Len() == 1
    ensures p.Len() > 1 ==>
              var s := p.Steps()[p.Len() - 2];
              p.ReferencingType() == Some((s.from, s.field, s.args)) && s.to == p.Last()
  {
    StepsJoinTypes(p);
    if p.child.Some? {
      ReferencingTypeInnerIsLastStep(p.child.value, p);
    }
  }

  lemma {:induction false} ReferencingTypeInnerIsLastStep(p: PathNode, above: PathNode)
    requires above.child == Some(p)
    ensures above.Len() == p.Len() + 1
    ensures var s := above.Steps()[above.Len() - 2];
            p.ReferencingTypeInner(above) == (s.from, s.field, s.args)
  {
    if p.child.Some? {
      ReferencingTypeInnerIsLastStep(p.child.value, p);
    }
  }

  /** `HasCycle` finds exactly the paths that repeat a type. */
  lemma HasCycleIffRepeats(p: PathNode)
    ensures p.HasCycle() <==> !Distinct(p.Types())
  {
    HasCycleInnerIff(p, {});
  }

  lemma {:induction false} HasCycleInnerIff(p: PathNode, visited: set<Name>)
    ensures p.HasCycleInner(visited) <==> !Distinct(p.Types()) || exists t :: t in p.Types() && t in visited
  {
    if p.child.Some? {
      var c := p.child.value;
      HasCycleInnerIff(c, visited + {p.nodeType});
      var ts := p.Types();
      assert ts == [p.nodeType] + c.Types();
      if p.nodeType in c.Types() {
        var k :| 0 <= k < |c.Types()| && c.Types()[k] == p.nodeType;
        assert ts[0] == ts[k + 1];
      }
      if !Distinct(c.Types()) {
        var i, j :| 0 <= i < j < |c.Types()| && c.Types()[i] == c.Types()[j];
        assert ts[i + 1] == ts[j + 1];
      }
      if Distinct(c.Types()) && p.nodeType !in c.Types() {
        assert Distinct(ts);
      }
      assert forall t :: t in ts <==> t == p.nodeType || t in c.Types();
    } else {
      assert p.Types() == [p.nodeType];
      assert p.nodeType in p.Types();
    }
  }
}

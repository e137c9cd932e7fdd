/** The graph that the schema tree shaker follows (crates/apollo-mcp-server/src/schema_tree_shake.rs): which types a
    type uses, and which directives are applied to it. */
module ShakeGraph {
  import opened GraphQL
  import opened Graphs
  import opened ShakeViews

  // ---------- Uses ----------

  function Known(s: Schema, names: seq<Name>): set<Name> {
    set n | n in names && n in s.types
  }

  function Defined(s: Schema, directives: seq<Name>): set<Name> {
    set d | d in directives && d in s.directives
  }

  /** The types of the arguments of the given directives. */
  function DirectiveTypes(s: Schema, directives: seq<Name>): set<Name> {
    set d, u | d in directives && d in s.directives && u in Known(s, ArgTypes(s.directives[d].args)) :: u
  }

  function FieldTypes(s: Schema, f: FieldDef): set<Name> {
    Known(s, [f.ty]) + Known(s, ArgTypes(f.args)) + DirectiveTypes(s, f.directives)
  }

  function FieldsTypes(s: Schema, fields: seq<FieldDef>): set<Name> {
    set f, u | f in fields && u in FieldTypes(s, f) :: u
  }

  function FieldsDirectives(s: Schema, fields: seq<FieldDef>): set<Name> {
    set f, d | f in fields && d in Defined(s, f.directives) :: d
  }

  function InputsTypes(s: Schema, inputs: seq<InputValue>): set<Name> {
    set i, u | i in inputs && u in Known(s, [i.ty]) + DirectiveTypes(s, i.directives) :: u
  }

  function InputsDirectives(s: Schema, inputs: seq<InputValue>): set<Name> {
    set i, d | i in inputs && d in Defined(s, i.directives) :: d
  }

  function ValuesTypes(s: Schema, values: seq<EnumValue>): set<Name> {
    set v, u | v in values && u in DirectiveTypes(s, v.directives) :: u
  }

  function ValuesDirectives(s: Schema, values: seq<EnumValue>): set<Name> {
    set v, d | v in values && d in Defined(s, v.directives) :: d
  }

  function KindUses(s: Schema, kind: TypeKind): set<Name> {
    match kind
    case Object(fields, _) => FieldsTypes(s, fields)
    case Interface(fields, _) => FieldsTypes(s, fields)
    case Union(members) => Known(s, members)
    case Enum(values) => ValuesTypes(s, values)
    case Scalar => {}
    case InputObject(inputs) => InputsTypes(s, inputs)
  }

  function KindApplied(s: Schema, kind: TypeKind): set<Name> {
    match kind
    case Object(fields, _) => FieldsDirectives(s, fields)
    case Interface(fields, _) => FieldsDirectives(s, fields)
    case Union(_) => {}
    case Enum(values) => ValuesDirectives(s, values)
    case Scalar => {}
    case InputObject(inputs) => InputsDirectives(s, inputs)
  }

  /** The types that `t` uses through its fields, arguments, input fields, members and applied directives.
      The interfaces that it implements are not among them. */
  function Uses(s: Schema, t: Name): set<Name> {
    if t in s.types then DirectiveTypes(s, s.types[t].directives) + KindUses(s, s.types[t].kind) else {}
  }

  /** The directives applied to `t`, to its fields, and to its values. */
  function Applied(s: Schema, t: Name): set<Name> {
    if t in s.types then Defined(s, s.types[t].directives) + KindApplied(s, s.types[t].kind) else {}
  }

  lemma UsesAreKnown(s: Schema, t: Name)
    ensures forall u :: u in Uses(s, t) ==> u in s.types
  {
  }

  // ---------- Uses, read from the definitions ----------

  /** One of these directives has an argument of type `u`. */
  ghost predicate Argues(s: Schema, directives: seq<Name>, u: Name) {
    exists d, a :: d in directives && d in s.directives && a in s.directives[d].args && a.ty == u
  }

  ghost predicate FieldMentions(s: Schema, f: FieldDef, u: Name) {
    f.ty == u || (exists a :: a in f.args && a.ty == u) || Argues(s, f.directives, u)
  }

  /** The definition of `t` names `u`: as the result or an argument of a field, as a member, as the type of an input
      field, or as an argument of a directive applied to the type, to a field, to an input field or to an enum value. */
  ghost predicate Mentions(s: Schema, t: Name, u: Name) {
    && t in s.types
    && (|| Argues(s, s.types[t].directives, u)
        || match s.types[t].kind
           case Object(fields, _) => exists f :: f in fields && FieldMentions(s, f, u)
           case Interface(fields, _) => exists f :: f in fields && FieldMentions(s, f, u)
           case Union(members) => u in members
           case Enum(values) => exists v :: v in values && Argues(s, v.directives, u)
           case InputObject(inputs) => exists i :: i in inputs && (i.ty == u || Argues(s, i.directives, u))
           case Scalar => false)
  }

  /** The directive is applied to `t`, or to a field, an input field or an enum value of it. */
  ghost predicate Carries(s: Schema, t: Name, d: Name) {
    && t in s.types
    && (|| d in s.types[t].directives
        || match s.types[t].kind
           case Object(fields, _) => exists f :: f in fields && d in f.directives
           case Interface(fields, _) => exists f :: f in fields && d in f.directives
           case Enum(values) => exists v :: v in values && d in v.directives
           case InputObject(inputs) => exists i :: i in inputs && d in i.directives
           case _ => false)
  }

  lemma ArgTypesHold(args: seq<InputValue>, u: Name)
    ensures u in ArgTypes(args) <==> exists a :: a in args && a.ty == u
  {
    if u in ArgTypes(args) {
      var i :| 0 <= i < |args| && ArgTypes(args)[i] == u;
      assert args[i] in args;
    }
    if a :| a in args && a.ty == u {
      var i :| 0 <= i < |args| && args[i] == a;
      assert ArgTypes(args)[i] == u;
    }
  }

  lemma DirectiveTypesHold(s: Schema, directives: seq<Name>, u: Name)
    ensures u in DirectiveTypes(s, directives) <==> u in s.types && Argues(s, directives, u)
  {
    hide ArgTypes;
    if u in DirectiveTypes(s, directives) {
      var d :| d in directives && d in s.directives && u in Known(s, ArgTypes(s.directives[d].args));
      ArgTypesHold(s.directives[d].args, u);
      var a :| a in s.directives[d].args && a.ty == u;
    }
    if u in s.types && Argues(s, directives, u) {
      var d, a :| d in directives && d in s.directives && a in s.directives[d].args && a.ty == u;
      ArgTypesHold(s.directives[d].args, u);
      assert u in Known(s, ArgTypes(s.directives[d].args));
    }
  }

  lemma FieldTypesHold(s: Schema, f: FieldDef, u: Name)
    ensures u in FieldTypes(s, f) <==> u in s.types && FieldMentions(s, f, u)
  {
    hide ArgTypes, DirectiveTypes, Argues;
    DirectiveTypesHold(s, f.directives, u);
    ArgTypesHold(f.args, u);
    assert f.ty in [f.ty];
  }

  lemma FieldsTypesHold(s: Schema, fields: seq<FieldDef>, u: Name)
    ensures u in FieldsTypes(s, fields) <==> u in s.types && exists f :: f in fields && FieldMentions(s, f, u)
  {
    hide FieldTypes, FieldMentions;
    forall f | f in fields
      ensures u in FieldTypes(s, f) <==> u in s.types && FieldMentions(s, f, u)
    {
      FieldTypesHold(s, f, u);
    }
  }

  lemma InputsTypesHold(s: Schema, inputs: seq<InputValue>, u: Name)
    ensures u in InputsTypes(s, inputs)
       <==> u in s.types && exists i :: i in inputs && (i.ty == u || Argues(s, i.directives, u))
  {
    hide DirectiveTypes, Argues;
    forall i | i in inputs
      ensures u in Known(s, [i.ty]) + DirectiveTypes(s, i.directives)
         <==> u in s.types && (i.ty == u || Argues(s, i.directives, u))
    {
      DirectiveTypesHold(s, i.directives, u);
      assert i.ty in [i.ty];
    }
  }

  lemma ValuesTypesHold(s: Schema, values: seq<EnumValue>, u: Name)
    ensures u in ValuesTypes(s, values) <==> u in s.types && exists v :: v in values && Argues(s, v.directives, u)
  {
    hide DirectiveTypes, Argues;
    forall v | v in values
      ensures u in DirectiveTypes(s, v.directives) <==> u in s.types && Argues(s, v.directives, u)
    {
      DirectiveTypesHold(s, v.directives, u);
    }
  }

  /** A type uses exactly the defined types that its definition names. */
  lemma UsesIffMentions(s: Schema, t: Name, u: Name)
    ensures u in Uses(s, t) <==> u in s.types && Mentions(s, t, u)
  {
    hide FieldsTypes, InputsTypes, ValuesTypes, DirectiveTypes, Argues, FieldMentions;
    if t in s.types {
      DirectiveTypesHold(s, s.types[t].directives, u);
      match s.types[t].kind {
        case Object(fields, _) => FieldsTypesHold(s, fields, u);
        case Interface(fields, _) => FieldsTypesHold(s, fields, u);
        case Enum(values) => ValuesTypesHold(s, values, u);
        case InputObject(inputs) => InputsTypesHold(s, inputs, u);
        case _ =>
      }
    }
  }

  lemma DefinedOne(s: Schema, ds: seq<Name>, d: Name)
    ensures d in Defined(s, ds) <==> d in ds && d in s.directives
  {
  }

  /** The directives applied to it are exactly the defined ones that its definition carries. */
  lemma AppliedIffCarries(s: Schema, t: Name, d: Name)
    ensures d in Applied(s, t) <==> d in s.directives && Carries(s, t, d)
  {
    hide Defined;
    if t in s.types {
      DefinedOne(s, s.types[t].directives, d);
      forall ds
        ensures d in Defined(s, ds) <==> d in ds && d in s.directives
      {
        DefinedOne(s, ds, d);
      }
      match s.types[t].kind {
        case Object(fields, _) => FieldsCarry(s, fields, d);
        case Interface(fields, _) => FieldsCarry(s, fields, d);
        case _ =>
      }
    }
  }

  lemma FieldsCarry(s: Schema, fields: seq<FieldDef>, d: Name)
    ensures d in FieldsDirectives(s, fields) <==> d in s.directives && exists f :: f in fields && d in f.directives
  {
    forall f | f in fields
      ensures d in Defined(s, f.directives) <==> d in f.directives && d in s.directives
    {
    }
  }

  // ---------- Uses, one element at a time ----------

  lemma KnownNext(s: Schema, names: seq<Name>, i: nat)
    requires i < |names|
    ensures Known(s, names[..i + 1]) == Known(s, names[..i]) + (if names[i] in s.types then {names[i]} else {})
  {
  }

  lemma ArgTypesNext(s: Schema, args: seq<InputValue>, i: nat)
    requires i < |args|
    ensures Known(s, ArgTypes(args[..i + 1])) ==
            Known(s, ArgTypes(args[..i])) + (if args[i].ty in s.types then {args[i].ty} else {})
  {
    assert ArgTypes(args[..i + 1]) == ArgTypes(args[..i]) + [args[i].ty];
  }

  lemma DirectivesNext(s: Schema, ds: seq<Name>, i: nat)
    requires i < |ds|
    ensures DirectiveTypes(s, ds[..i + 1]) == DirectiveTypes(s, ds[..i]) + DirectiveTypes(s, [ds[i]])
    ensures Defined(s, ds[..i + 1]) == Defined(s, ds[..i]) + Defined(s, [ds[i]])
  {
  }

  lemma OneDirective(s: Schema, d: Name)
    ensures Defined(s, [d]) == if d in s.directives then {d} else {}
    ensures DirectiveTypes(s, [d]) == if d in s.directives then Known(s, ArgTypes(s.directives[d].args)) else {}
  {
    assert d in [d];
  }

  lemma FieldsNext(s: Schema, fields: seq<FieldDef>, i: nat)
    requires i < |fields|
    ensures FieldsTypes(s, fields[..i + 1]) == FieldsTypes(s, fields[..i]) + FieldTypes(s, fields[i])
    ensures FieldsDirectives(s, fields[..i + 1]) == FieldsDirectives(s, fields[..i]) + Defined(s, fields[i].directives)
  {
    assert fields[..i + 1] == fields[..i] + [fields[i]];
  }

  lemma InputsNext(s: Schema, inputs: seq<InputValue>, i: nat)
    requires i < |inputs|
    ensures InputsTypes(s, inputs[..i + 1]) ==
            InputsTypes(s, inputs[..i]) + (Known(s, [inputs[i].ty]) + DirectiveTypes(s, inputs[i].directives))
    ensures InputsDirectives(s, inputs[..i + 1]) == InputsDirectives(s, inputs[..i]) + Defined(s, inputs[i].directives)
  {
    assert inputs[..i + 1] == inputs[..i] + [inputs[i]];
  }

  lemma ValuesNext(s: Schema, values: seq<EnumValue>, i: nat)
    requires i < |values|
    ensures ValuesTypes(s, values[..i + 1]) == ValuesTypes(s, values[..i]) + DirectiveTypes(s, values[i].directives)
    ensures ValuesDirectives(s, values[..i + 1]) == ValuesDirectives(s, values[..i]) + Defined(s, values[i].directives)
  {
    assert values[..i + 1] == values[..i] + [values[i]];
  }

  lemma UsesOfNothing(s: Schema)
    ensures Known(s, []) == {} && Known(s, ArgTypes([])) == {} && DirectiveTypes(s, []) == {} && Defined(s, []) == {}
    ensures FieldsTypes(s, []) == {} && FieldsDirectives(s, []) == {}
    ensures InputsTypes(s, []) == {} && InputsDirectives(s, []) == {}
    ensures ValuesTypes(s, []) == {} && ValuesDirectives(s, []) == {}
  {
  }

  lemma KnownOne(s: Schema, t: Name)
    ensures Known(s, [t]) == if t in s.types then {t} else {}
  {
    assert t in [t];
  }

  // ---------- Input types ----------

  /** Scalars, enums and input objects: what arguments and input fields may have. */
  predicate IsInput(s: Schema, t: Name) {
    t in s.types && (s.types[t].kind.Scalar? || s.types[t].kind.Enum? || s.types[t].kind.InputObject?)
  }

  ghost predicate AllInput(s: Schema, ts: set<Name>) {
    forall t :: t in ts ==> IsInput(s, t)
  }

  /** The fields of an object or interface type. */
  function FieldsOf(kind: TypeKind): seq<FieldDef> {
    match kind
    case Object(fields, _) => fields
    case Interface(fields, _) => fields
    case _ => []
  }

  /** Sections 3.6.1 and 3.10 of the GraphQL specification (October 2021): arguments and input fields have input
      types. */
  ghost predicate InputsTyped(s: Schema) {
    && (forall d :: d in s.directives ==> AllInput(s, Known(s, ArgTypes(s.directives[d].args))))
    && (forall t, f :: t in s.types && f in FieldsOf(s.types[t].kind) ==> AllInput(s, Known(s, ArgTypes(f.args))))
    && (forall t, i :: t in s.types && s.types[t].kind.InputObject? && i in s.types[t].kind.inputs ==>
          AllInput(s, Known(s, [i.ty])))
  }

  lemma DirectiveTypesAreInput(s: Schema, ds: seq<Name>)
    requires InputsTyped(s)
    ensures AllInput(s, DirectiveTypes(s, ds))
  {
  }

  lemma InputsUseInputs(s: Schema, t: Name)
    requires InputsTyped(s) && IsInput(s, t)
    ensures AllInput(s, Uses(s, t))
  {
    DirectiveTypesAreInput(s, s.types[t].directives);
    forall u | u in Uses(s, t) && u !in DirectiveTypes(s, s.types[t].directives)
      ensures IsInput(s, u)
    {
      match s.types[t].kind
      case Enum(values) =>
        var v :| v in values && u in DirectiveTypes(s, v.directives);
        DirectiveTypesAreInput(s, v.directives);
      case InputObject(inputs) =>
        var i :| i in inputs && u in Known(s, [i.ty]) + DirectiveTypes(s, i.directives);
        DirectiveTypesAreInput(s, i.directives);
    }
  }

  // ---------- The schema as the tree shaker sees it ----------

  /** The graph of uses. */
  function UseGraph(s: Schema): Graph {
    map t | t in s.types :: Uses(s, t)
  }

  ghost function WorldOf(s: Schema): World {
    World(UseGraph(s), (map t | t in s.types :: Applied(s, t)),
          (set t | t in s.types && IsInput(s, t)), InputsTyped(s))
  }

  lemma WorldOfOk(s: Schema)
    ensures WorldOf(s).Ok()
    ensures forall t :: Next(WorldOf(s).uses, t) == Uses(s, t) && WorldOf(s).Applied(t) == Applied(s, t)
  {
    forall t
      ensures Next(WorldOf(s).uses, t) == Uses(s, t)
    {
      UsesAreKnown(s, t);
    }
    if InputsTyped(s) {
      forall t, u | IsInput(s, t) && u in Uses(s, t)
        ensures IsInput(s, u)
      {
        InputsUseInputs(s, t);
      }
    }
  }

  lemma DirectivesAreInput(s: Schema, ds: seq<Name>)
    ensures WorldOf(s).typed ==> DirectiveTypes(s, ds) <= WorldOf(s).inputs
  {
    if InputsTyped(s) {
      DirectiveTypesAreInput(s, ds);
    }
  }

  lemma ArgumentsAreInput(s: Schema, t: Name, f: FieldDef)
    requires t in s.types && f in FieldsOf(s.types[t].kind)
    ensures WorldOf(s).typed ==> Known(s, ArgTypes(f.args)) <= WorldOf(s).inputs
  {
  }
}

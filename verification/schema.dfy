/** The parts of a GraphQL schema that the schema index and the tree shaker read.
    Types are reduced to their inner named type: list and non-null wrappers play no part in either algorithm. */
module GraphQL {

  type Name = string

  datatype Option<+T> = None | Some(value: T)

  datatype OperationType = Query | Mutation | Subscription

  /** An argument definition, or a field of an input object. */
  datatype InputValue = InputValue(name: Name, ty: Name, directives: seq<Name>)

  datatype FieldDef = FieldDef(name: Name, ty: Name, args: seq<InputValue>, directives: seq<Name>)

  datatype EnumValue = EnumValue(name: Name, directives: seq<Name>)

  datatype TypeKind =
    | Scalar
    | Object(fields: seq<FieldDef>, implements: seq<Name>)
    | Interface(fields: seq<FieldDef>, implements: seq<Name>)
    | Union(members: seq<Name>)
    | Enum(values: seq<EnumValue>)
    | InputObject(inputs: seq<InputValue>)

  datatype TypeDef = TypeDef(name: Name, builtIn: bool, directives: seq<Name>, kind: TypeKind)

  datatype DirectiveDef = DirectiveDef(args: seq<InputValue>, builtIn: bool)

  /** `typeOrder` is the insertion order of the index map that holds the types. */
  datatype Schema = Schema(
    types: map<Name, TypeDef>,
    typeOrder: seq<Name>,
    directives: map<Name, DirectiveDef>,
    roots: map<OperationType, Name>)
  {
    ghost predicate WellFormed() {
      && (forall i, j :: 0 <= i < j < |typeOrder| ==> typeOrder[i] != typeOrder[j])
      && (forall i :: 0 <= i < |typeOrder| ==> typeOrder[i] in types)
      && (forall n :: n in types ==> Defined(n))
    }

    ghost predicate Defined(n: Name)
      requires n in types
    {
      types[n].name == n && n in typeOrder
    }

    /** A type that the index keeps: defined by the schema and not built in. */
    predicate Indexed(t: Name) {
      t in types && !types[t].builtIn
    }
  }

  function ArgTypes(args: seq<InputValue>): (r: seq<Name>)
    ensures |r| == |args|
    ensures forall i :: 0 <= i < |r| ==> r[i] == args[i].ty
  {
    seq(|args|, i requires 0 <= i < |args| => args[i].ty)
  }
}

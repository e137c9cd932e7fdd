/** The script scope of the Rhai engine (crates/apollo-mcp-rhai/src/engine.rs). A closure that captures a variable turns
    it into a shared cell, and a copy of a scope points at the same cells. */
module Rhai {
  import opened GraphQL

  type Cell = nat

  datatype Value =
    | Leaf(text: string)
    | Array(items: seq<Value>)
    | Map(keys: seq<string>, values: seq<Value>)
    | FnPtr(name: string, curry: seq<Value>)
    | Shared(cell: Cell)
  {
    function Parts(): seq<Value> {
      match this
      case Array(items) => items
      case Map(_, values) => values
      case FnPtr(_, curry) => curry
      case _ => []
    }

    function Shape(): Shape {
      match this
      case Leaf(text) => Text(text)
      case Array(items) => Items(|items|)
      case Map(keys, values) => Entries(keys, |values|)
      case FnPtr(name, curry) => Function(name, |curry|)
      case Shared(_) => Alias
    }
  }

  datatype Shape = Text(text: string) | Items(count: nat) | Entries(keys: seq<string>, count: nat)
                 | Function(name: string, count: nat) | Alias

  /** What the shared cells hold. */
  type Store = map<Cell, Value>

  // ---------- Sharing ----------

  /** No shared cell anywhere in the value. */
  predicate Unshared(v: Value) {
    !v.Shared? && forall i :: 0 <= i < |v.Parts()| ==> Unshared(v.Parts()[i])
  }

  /** Every cell in the value ranks below the bound. */
  ghost predicate Below(v: Value, rank: map<Cell, nat>, bound: nat) {
    if v.Shared? then v.cell in rank && rank[v.cell] < bound
    else forall i :: 0 <= i < |v.Parts()| ==> Below(v.Parts()[i], rank, bound)
  }

  /** The cells are acyclic, and none directly holds another shared value. */
  ghost predicate Acyclic(store: Store, rank: map<Cell, nat>) {
    forall c :: c in rank ==> c in store && !store[c].Shared? && Below(store[c], rank, rank[c])
  }

  /** The shape of what a script finds at the end of a path into the value, reading through shared cells. */
  function Observe(store: Store, v: Value, path: seq<nat>): Option<Shape>
    decreases path
  {
    if v.Shared? && v.cell !in store then None else
    var w := if v.Shared? then store[v.cell] else v;
    if path == [] then Some(w.Shape())
    else if path[0] < |w.Parts()| then Observe(store, w.Parts()[path[0]], path[1..])
    else None
  }

  lemma {:induction false} UnsharedIsIndependent(v: Value, path: seq<nat>, now: Store, later: Store)
    requires Unshared(v)
    ensures Observe(later, v, path) == Observe(now, v, path)
  {
    if path != [] && path[0] < |v.Parts()| {
      UnsharedIsIndependent(v.Parts()[path[0]], path[1..], now, later);
    }
  }

  /** Two stores and a path that tell a value with a shared cell in it apart from itself. */
  lemma {:induction false} SharedLeaks(v: Value) returns (path: seq<nat>, now: Store, later: Store)
    requires !Unshared(v)
    ensures Observe(later, v, path) != Observe(now, v, path)
  {
    if v.Shared? {
      path, now, later := [], map[v.cell := Leaf("")], map[v.cell := Leaf("written")];
    } else {
      var i :| 0 <= i < |v.Parts()| && !Unshared(v.Parts()[i]);
      path, now, later := SharedLeaks(v.Parts()[i]);
      assert ([i] + path)[1..] == path;
      path := [i] + path;
    }
  }

  /** What a script finds in a value is safe from every write to a cell exactly when the value has no shared cell. */
  lemma IndependentIffUnshared(v: Value)
    ensures Unshared(v) <==> forall path, now, later :: Observe(later, v, path) == Observe(now, v, path)
  {
    if Unshared(v) {
      forall path, now, later
        ensures Observe(later, v, path) == Observe(now, v, path)
      {
        UnsharedIsIndependent(v, path, now, later);
      }
    } else {
      var path, now, later := SharedLeaks(v);
    }
  }

  // ---------- Detaching ----------

  /** A copy of the value with the contents of every cell in its place. */
  function Detach(store: Store, ghost rank: map<Cell, nat>, ghost bound: nat, v: Value): Value
    requires Acyclic(store, rank) && Below(v, rank, bound)
    decreases bound, v
  {
    var flat := if v.Shared? then store[v.cell] else v;
    ghost var limit := if v.Shared? then rank[v.cell] else bound;
    match flat
    case Array(items) => Array(seq(|items|, i requires 0 <= i < |items| => Detach(store, rank, limit, flat.Parts()[i])))
    case Map(keys, values) =>
      Map(keys, seq(|values|, i requires 0 <= i < |values| => Detach(store, rank, limit, flat.Parts()[i])))
    case FnPtr(name, curry) =>
      FnPtr(name, seq(|curry|, i requires 0 <= i < |curry| => Detach(store, rank, limit, flat.Parts()[i])))
    case _ => flat
  }

  lemma {:induction false} DetachIsUnshared(store: Store, rank: map<Cell, nat>, bound: nat, v: Value)
    requires Acyclic(store, rank) && Below(v, rank, bound)
    ensures Unshared(Detach(store, rank, bound, v))
    decreases bound, v
  {
    var flat := if v.Shared? then store[v.cell] else v;
    var limit := if v.Shared? then rank[v.cell] else bound;
    forall i | 0 <= i < |flat.Parts()|
      ensures Unshared(Detach(store, rank, limit, flat.Parts()[i]))
    {
      DetachIsUnshared(store, rank, limit, flat.Parts()[i]);
    }
  }

  /** Whatever is later written to the cells, the copy holds what the value held. */
  lemma {:induction false} DetachKeepsContents(store: Store, rank: map<Cell, nat>, bound: nat, v: Value, path: seq<nat>,
                                               later: Store)
    requires Acyclic(store, rank) && Below(v, rank, bound)
    ensures Observe(later, Detach(store, rank, bound, v), path) == Observe(store, v, path)
    decreases path
  {
    var flat := if v.Shared? then store[v.cell] else v;
    var limit := if v.Shared? then rank[v.cell] else bound;
    if path != [] && path[0] < |flat.Parts()| {
      DetachKeepsContents(store, rank, limit, flat.Parts()[path[0]], path[1..], later);
    }
  }

  // ---------- The engine ----------

  datatype Variable = Variable(name: string, isConstant: bool, value: Value)

  type Scope = seq<Variable>

  ghost predicate ScopeBelow(scope: Scope, rank: map<Cell, nat>, bound: nat) {
    forall i :: 0 <= i < |scope| ==> Below(scope[i].value, rank, bound)
  }

  ghost predicate ScopeUnshared(scope: Scope) {
    forall i :: 0 <= i < |scope| ==> Unshared(scope[i].value)
  }

  /** The same variables, each with the same contents: one scope over one store, the other over another. */
  ghost predicate SameContents(a: Scope, inA: Store, b: Scope, inB: Store) {
    && |a| == |b|
    && (forall i :: 0 <= i < |a| ==> a[i].name == b[i].name && a[i].isConstant == b[i].isConstant)
    && forall i, path :: 0 <= i < |a| ==> Observe(inA, a[i].value, path) == Observe(inB, b[i].value, path)
  }

  lemma UnsharedScopeIsIndependent(scope: Scope, now: Store, later: Store)
    requires ScopeUnshared(scope)
    ensures SameContents(scope, later, scope, now)
  {
    hide Observe, Unshared;
    forall i, path | 0 <= i < |scope|
      ensures Observe(later, scope[i].value, path) == Observe(now, scope[i].value, path)
    {
      UnsharedIsIndependent(scope[i].value, path, now, later);
    }
  }

  /** The shared cells, which live as long as anything points at them. */
  class Cells {
    var store: Store

    constructor ()
      ensures store == map[]
    {
      store := map[];
    }
  }

  /** What one run of a hook does: it may leave anything in the cells. What it does to its copy of the scope is lost. */
  datatype Call = Call(hook: string, written: Store)

  class RhaiEngine {
    var scope: Scope
    var functions: set<string>

    /** The engine after its script has run and left the scope and the functions. */
    constructor Loaded(cells: Cells, scope: Scope, functions: set<string>, ghost rank: map<Cell, nat>, ghost bound: nat)
      requires Acyclic(cells.store, rank) && ScopeBelow(scope, rank, bound)
      ensures ScopeUnshared(this.scope) && this.functions == functions
      ensures forall later :: SameContents(this.scope, later, scope, cells.store)
    {
      this.scope, this.functions := scope, functions;
      new;
      DetachSharedValues(cells, rank, bound);
    }

    method DetachSharedValues(cells: Cells, ghost rank: map<Cell, nat>, ghost bound: nat)
      requires Acyclic(cells.store, rank) && ScopeBelow(scope, rank, bound)
      modifies this`scope
      ensures ScopeUnshared(scope)
      ensures forall later :: SameContents(scope, later, old(scope), cells.store)
    {
      hide Observe, Unshared, Detach, Below, Acyclic;
      var detached: Scope := [];
      var k := 0;
      while k < |scope|
        invariant 0 <= k <= |scope| && |detached| == k && scope == old(scope)
        invariant forall i :: 0 <= i < k ==>
                                && detached[i].name == scope[i].name && detached[i].isConstant == scope[i].isConstant
                                && detached[i].value == Detach(cells.store, rank, bound, scope[i].value)
      {
        var v := scope[k];
        detached := detached + [v.(value := Detach(cells.store, rank, bound, v.value))];
        k := k + 1;
      }
      forall i | 0 <= i < |scope|
        ensures Unshared(detached[i].value)
      {
        DetachIsUnshared(cells.store, rank, bound, scope[i].value);
      }
      forall later: Store, i, path | 0 <= i < |scope|
        ensures Observe(later, detached[i].value, path) == Observe(cells.store, scope[i].value, path)
      {
        DetachKeepsContents(cells.store, rank, bound, scope[i].value, path, later);
      }
      scope := detached;
    }

    /** Run a hook against a copy of the scope; without such a function there is nothing to run. */
    method ExecuteHook(cells: Cells, call: Call) returns (copy: Option<Scope>)
      modifies cells
      ensures copy.Some? <==> call.hook in functions
      ensures copy.Some? ==> copy.value == scope && cells.store == call.written
      ensures copy.None? ==> cells.store == old(cells.store)
    {
      if call.hook in functions {
        copy := Some(scope);
        cells.store := call.written;
      } else {
        copy := None;
      }
    }

    /** Over any sequence of calls that write anything, each call starts from the contents the script left. */
    method ExecuteHooks(cells: Cells, calls: seq<Call>) returns (copies: seq<Option<Scope>>, stores: seq<Store>)
      requires ScopeUnshared(scope)
      modifies cells
      ensures |copies| == |stores| == |calls|
      ensures forall i :: 0 <= i < |calls| ==> (copies[i].Some? <==> calls[i].hook in functions)
      ensures forall i :: 0 <= i < |calls| && copies[i].Some? ==>
                            SameContents(copies[i].value, stores[i], scope, old(cells.store))
    {
      hide SameContents, ScopeUnshared;
      copies, stores := [], [];
      while |copies| < |calls|
        invariant |copies| == |stores| <= |calls|
        invariant forall i :: 0 <= i < |copies| ==> (copies[i].Some? <==> calls[i].hook in functions)
        invariant forall i :: 0 <= i < |copies| && copies[i].Some? ==>
                                SameContents(copies[i].value, stores[i], scope, old(cells.store))
        decreases |calls| - |copies|
      {
        UnsharedScopeIsIndependent(scope, old(cells.store), cells.store);
        stores := stores + [cells.store];
        var copy := ExecuteHook(cells, calls[|copies|]);
        copies := copies + [copy];
      }
    }
  }
}

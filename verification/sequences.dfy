/** Facts about sequences that several modules share. */
module Sequences {

  ghost predicate Distinct<T>(s: seq<T>) {
    forall i, j :: 0 <= i < j < |s| ==> s[i] != s[j]
  }

  /** `a` occurs in `s` at an earlier index than `b`. */
  ghost predicate Before<T>(s: seq<T>, a: T, b: T) {
    exists i, j :: 0 <= i < j < |s| && s[i] == a && s[j] == b
  }

  function Reverse<T>(s: seq<T>): (r: seq<T>)
    ensures |r| == |s|
    ensures forall i :: 0 <= i < |s| ==> r[i] == s[|s| - 1 - i]
  {
    seq(|s|, i requires 0 <= i < |s| => s[|s| - 1 - i])
  }

  function Insert<T>(s: seq<T>, k: nat, x: T): seq<T>
    requires k <= |s|
  {
    s[..k] + [x] + s[k..]
  }

  lemma InsertKeepsBefore<T>(s: seq<T>, k: nat, x: T, a: T, b: T)
    requires k <= |s|
    requires Before(s, a, b)
    ensures Before(Insert(s, k, x), a, b)
  {
    var i, j :| 0 <= i < j < |s| && s[i] == a && s[j] == b;
    var r := Insert(s, k, x);
    assert r[if i < k then i else i + 1] == a;
    assert r[if j < k then j else j + 1] == b;
  }

  lemma InsertKeepsDistinct<T>(s: seq<T>, k: nat, x: T)
    requires k <= |s|
    requires Distinct(s)
    requires x !in s
    ensures Distinct(Insert(s, k, x))
  {
  }

  lemma InsertMembers<T>(s: seq<T>, k: nat, x: T)
    requires k <= |s|
    ensures forall y :: y in Insert(s, k, x) <==> y == x || y in s
  {
    assert s == s[..k] + s[k..];
  }

  /** `kept` is what stands at the positions `at` of `all`, in the same order. */
  ghost predicate Picked<T>(kept: seq<T>, all: seq<T>, at: seq<nat>) {
    && |at| == |kept|
    && (forall i, j :: 0 <= i < j < |at| ==> at[i] < at[j])
    && forall i :: 0 <= i < |at| ==> at[i] < |all| && kept[i] == all[at[i]]
  }

  lemma PickedNext<T>(kept: seq<T>, all: seq<T>, at: seq<nat>, x: T)
    requires Picked(kept, all, at)
    ensures Picked(kept, all + [x], at) && Picked(kept + [x], all + [x], at + [|all|])
    ensures forall k :: k in at + [|all|] <==> k in at || k == |all|
  {
  }

  /** Some of the elements, in the same order. */
  ghost predicate SomeOf<T>(kept: seq<T>, all: seq<T>) {
    exists at :: Picked(kept, all, at)
  }

  lemma SomeNext<T>(kept: seq<T>, all: seq<T>, x: T)
    requires SomeOf(kept, all)
    ensures SomeOf(kept, all + [x]) && SomeOf(kept + [x], all + [x])
  {
    var at :| Picked(kept, all, at);
    PickedNext(kept, all, at, x);
  }

  lemma AllOf<T>(all: seq<T>)
    ensures SomeOf(all, all)
  {
    var at: seq<nat> := seq(|all|, i requires 0 <= i < |all| => i);
    assert Picked(all, all, at);
  }
}

/** How the index stores which field of which type refers to a type: as one string
    (crates/apollo-schema-index/src/lib.rs, `SchemaIndex::new` and `SchemaIndex::search`). */
module References {
  import opened GraphQL

  datatype Reference = Reference(from: Name, field: Option<Name>, args: seq<Name>)

  function Encode(r: Reference): string {
    match r.field
    case None => r.from
    case Some(f) => r.from + "#" + f + (if r.args == [] then "" else "#" + Join(r.args))
  }

  function Decode(s: string): Reference {
    match SplitOnce(s, '#')
    case None => Reference(s, None, [])
    case Some((from, rest)) =>
      match SplitOnce(rest, '#')
      case None => Reference(from, Some(rest), [])
      case Some((field, args)) => Reference(from, Some(field), TrimAll(Split(args)))
  }

  function Join(names: seq<string>): string {
    if names == [] then "" else
    if |names| == 1 then names[0] else
    names[0] + "," + Join(names[1..])
  }

  /** The text before and after the first `c`. */
  function SplitOnce(s: string, c: char): Option<(string, string)> {
    if s == [] then None else
    if s[0] == c then Some(([], s[1..])) else
    match SplitOnce(s[1..], c)
    case None => None
    case Some((a, b)) => Some(([s[0]] + a, b))
  }

  /** The texts between the commas. */
  function Split(s: string): seq<string>
    decreases |s|
  {
    match SplitOnce(s, ',')
    case None => [s]
    case Some((a, b)) => SplitOnceShorter(s, ','); [a] + Split(b)
  }

  lemma SplitOnceShorter(s: string, c: char)
    ensures SplitOnce(s, c).Some? ==> |SplitOnce(s, c).value.1| < |s|
  {
  }

  /** The white space of the Unicode standard, which trimming removes. */
  predicate IsSpace(c: char) {
    var n := c as int;
    || 9 <= n <= 13 || n == 32 || n == 0x85 || n == 0xa0 || n == 0x1680 || 0x2000 <= n <= 0x200a
    || n == 0x2028 || n == 0x2029 || n == 0x202f || n == 0x205f || n == 0x3000
  }

  /** One by one: the tab, the line breaks, the space, and the others that the standard lists. */
  lemma SpacesAre(c: char)
    ensures IsSpace(c) <==>
            c as int in {0x9, 0xa, 0xb, 0xc, 0xd, 0x20, 0x85, 0xa0, 0x1680,
                         0x2000, 0x2001, 0x2002, 0x2003, 0x2004, 0x2005, 0x2006, 0x2007, 0x2008, 0x2009, 0x200a,
                         0x2028, 0x2029, 0x202f, 0x205f, 0x3000}
  {
  }

  function TrimStart(s: string): string {
    if s != [] && IsSpace(s[0]) then TrimStart(s[1..]) else s
  }

  function TrimEnd(s: string): string {
    if s != [] && IsSpace(s[|s| - 1]) then TrimEnd(s[..|s| - 1]) else s
  }

  function TrimAll(ss: seq<string>): seq<string> {
    if ss == [] then [] else [TrimEnd(TrimStart(ss[0]))] + TrimAll(ss[1..])
  }

  // ---------- Round trip ----------

  predicate IsNameStart(c: char) {
    'a' <= c <= 'z' || 'A' <= c <= 'Z' || c == '_'
  }

  /** A name in the sense of section 2.1.9 of the GraphQL specification (October 2021). */
  predicate IsName(s: string) {
    && s != [] && IsNameStart(s[0])
    && forall i :: 0 <= i < |s| ==> IsNameStart(s[i]) || '0' <= s[i] <= '9'
  }

  ghost predicate Legal(r: Reference) {
    && IsName(r.from)
    && (r.field.Some? ==> IsName(r.field.value))
    && (r.field.None? ==> r.args == [])
    && forall i :: 0 <= i < |r.args| ==> IsName(r.args[i])
  }

  lemma {:induction false} SplitOnceAbsent(s: string, c: char)
    requires c !in s
    ensures SplitOnce(s, c) == None
  {
    if s != [] {
      SplitOnceAbsent(s[1..], c);
    }
  }

  lemma {:induction false} SplitOnceAt(a: string, c: char, b: string)
    requires c !in a
    ensures SplitOnce(a + [c] + b, c) == Some((a, b))
  {
    var s := a + [c] + b;
    if a == [] {
      assert s[1..] == b;
    } else {
      SplitOnceAt(a[1..], c, b);
      assert s[1..] == a[1..] + [c] + b;
      assert [a[0]] + a[1..] == a;
    }
  }

  lemma {:induction false} SplitJoin(names: seq<string>)
    requires names != [] && forall i :: 0 <= i < |names| ==> IsName(names[i])
    ensures TrimAll(Split(Join(names))) == names
    ensures '#' !in Join(names)
  {
    var n := names[0];
    assert TrimEnd(TrimStart(n)) == n;
    if |names| == 1 {
      SplitOnceAbsent(n, ',');
      assert TrimAll([n]) == [n];
    } else {
      SplitJoin(names[1..]);
      SplitOnceAt(n, ',', Join(names[1..]));
      assert Join(names) == n + [','] + Join(names[1..]);
      assert TrimAll([n] + Split(Join(names[1..])))[1..] == names[1..];
    }
  }

  /** Decoding an encoded reference gives the reference back. */
  lemma RoundTrip(r: Reference)
    requires Legal(r)
    ensures Decode(Encode(r)) == r
  {
    match r.field
    case None => SplitOnceAbsent(r.from, '#');
    case Some(f) =>
      var args := if r.args == [] then "" else "#" + Join(r.args);
      assert Encode(r) == r.from + ['#'] + (f + args);
      SplitOnceAt(r.from, '#', f + args);
      if r.args == [] {
        assert f + args == f;
        SplitOnceAbsent(f, '#');
      } else {
        assert f + args == f + ['#'] + Join(r.args);
        SplitOnceAt(f, '#', Join(r.args));
        SplitJoin(r.args);
      }
  }

  /** An encoded reference reads like a bare type name exactly when it has no field. */
  lemma EncodedIsNameIffNoField(r: Reference)
    requires Legal(r)
    ensures IsName(Encode(r)) <==> r.field.None?
  {
    if r.field.Some? {
      assert Encode(r)[|r.from|] == '#';
    }
  }
}

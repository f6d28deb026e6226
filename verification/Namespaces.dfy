// Hierarchical dotted names: segment-aware containment, the byte order the index sorts
// by, and the range scan that lists a namespace.
module Namespaces {

  /** `ns` covers `name` when they are equal, or `name` continues `ns` after a dot. */
  predicate NamespaceCovers(ns: string, name: string) {
    name == ns || (|name| > |ns| && name[..|ns|] == ns && name[|ns|] == '.')
  }

  lemma CoversTransitive(a: string, b: string, c: string)
    requires NamespaceCovers(a, b) && NamespaceCovers(b, c)
    ensures NamespaceCovers(a, c)
  {
    if b != a && c != b {
      assert c[..|a|] == c[..|b|][..|a|] == a;
      assert c[|a|] == c[..|b|][|a|] == '.';
    }
  }

  /** Lexicographic order by code point, which is also the order of the UTF-8 bytes. */
  predicate Less(a: string, b: string) {
    b != [] && (a == [] || a[0] < b[0] || (a[0] == b[0] && Less(a[1..], b[1..])))
  }

  lemma {:induction false} LessIrreflexive(a: string)
    ensures !Less(a, a)
  {
    if a != [] { LessIrreflexive(a[1..]); }
  }

  lemma {:induction false} LessTransitive(a: string, b: string, c: string)
    requires Less(a, b) && Less(b, c)
    ensures Less(a, c)
  {
    if a != [] && a[0] == b[0] && b[0] == c[0] { LessTransitive(a[1..], b[1..], c[1..]); }
  }

  lemma {:induction false} LessTotal(a: string, b: string)
    ensures a == b || Less(a, b) || Less(b, a)
  {
    if a != [] && b != [] && a[0] == b[0] {
      LessTotal(a[1..], b[1..]);
      assert a == [a[0]] + a[1..] && b == [b[0]] + b[1..];
    }
  }

  /** The scan's bounds: from `prefix.` (included) up to `prefix/` (excluded). */
  predicate InRange(prefix: string, name: string) {
    !Less(name, prefix + ".") && Less(name, prefix + "/")
  }

  /** The range holds exactly the strict descendants: '/' is the code point after '.', so
      nothing else fits between the bounds. */
  lemma {:induction false} RangeIsDescendants(prefix: string, name: string)
    ensures InRange(prefix, name) <==> NamespaceCovers(prefix, name) && name != prefix
    decreases |prefix|
  {
    if prefix == [] {
      assert prefix + "." == "." && prefix + "/" == "/";
      if name != [] {
        assert ('.' as int) + 1 == '/' as int;
        assert Less(name, "/") <==> name[0] < '/';
        assert Less(name, ".") <==> name[0] < '.';
        assert name[..0] == prefix;
      }
    } else if name != [] {
      assert (prefix + ".")[1..] == prefix[1..] + "." && (prefix + "/")[1..] == prefix[1..] + "/";
      RangeIsDescendants(prefix[1..], name[1..]);
      if name[0] == prefix[0] { CoversTail(prefix, name); }
    }
  }

  lemma CoversTail(prefix: string, name: string)
    requires prefix != [] && name != [] && name[0] == prefix[0]
    ensures NamespaceCovers(prefix, name) <==> NamespaceCovers(prefix[1..], name[1..])
    ensures name == prefix <==> name[1..] == prefix[1..]
  {
    assert name == [name[0]] + name[1..] && prefix == [prefix[0]] + prefix[1..];
    if |name| > |prefix| {
      assert name[..|prefix|] == [name[0]] + name[1..][..|prefix| - 1];
      assert name[..|prefix|][1..] == name[1..][..|prefix| - 1];
    }
  }

  /** What a listing of `prefix` selects; the empty prefix selects everything. */
  predicate Selects(prefix: string, name: string) {
    prefix == [] || name == prefix || InRange(prefix, name)
  }

  lemma SelectsIsCovers(prefix: string, name: string)
    requires prefix != []
    ensures Selects(prefix, name) <==> NamespaceCovers(prefix, name)
  {
    RangeIsDescendants(prefix, name);
  }

  predicate Sorted(names: seq<string>) {
    forall i, j | 0 <= i < j < |names| :: Less(names[i], names[j])
  }

  /** Inserts `name` into a sorted listing. */
  method Insert(names: seq<string>, name: string) returns (r: seq<string>)
    requires Sorted(names) && name !in names
    ensures Sorted(r)
    ensures forall x :: x in r <==> x in names || x == name
  {
    var i := 0;
    while i < |names| && Less(names[i], name)
      invariant 0 <= i <= |names|
      invariant forall j | 0 <= j < i :: Less(names[j], name)
    {
      i := i + 1;
    }
    forall j | i <= j < |names| ensures Less(name, names[j]) {
      LessTotal(names[i], name);
      assert names[i] in names;
      if i < j { LessTransitive(name, names[i], names[j]); }
    }
    r := names[..i] + [name] + names[i..];
  }
}

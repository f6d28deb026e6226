// The name_versions table: every name keeps the sequence of objects it has been
// bound to, oldest first. An object's references are the versions that name it.
module Versions {
  import opened Prelude

  type Name = string

  type Versions = map<Name, seq<Cid>>

  /** One row of the table. */
  datatype Version = Version(name: Name, index: int)

  function History(names: Versions, n: Name): seq<Cid> {
    if n in names then names[n] else []
  }

  function Current(names: Versions, n: Name): Option<Cid> {
    var h := History(names, n);
    if h == [] then None else Some(h[|h| - 1])
  }

  function Append(names: Versions, n: Name, c: Cid): Versions {
    names[n := History(names, n) + [c]]
  }

  /** The versions of `n` that name `c`. */
  function RefsOf(names: Versions, n: Name, c: Cid): set<Version> {
    set i | 0 <= i < |History(names, n)| && History(names, n)[i] == c :: Version(n, i)
  }

  /** Every version of every name that names `c`. */
  function Refs(names: Versions, c: Cid): set<Version> {
    set n, i | n in names && 0 <= i < |names[n]| && names[n][i] == c :: Version(n, i)
  }

  predicate RefersAt(names: Versions, v: Version, c: Cid) {
    v.name in names && 0 <= v.index < |names[v.name]| && names[v.name][v.index] == c
  }

  lemma RefsMember(names: Versions, v: Version, c: Cid)
    ensures v in Refs(names, c) <==> RefersAt(names, v, c)
  {
    if RefersAt(names, v, c) {
      assert v == Version(v.name, v.index);
    }
  }

  /** Appending a version adds one reference, to that object only. */
  lemma RefsAppend(names: Versions, n: Name, c: Cid, d: Cid)
    ensures |Refs(Append(names, n, c), d)| == |Refs(names, d)| + if d == c then 1 else 0
  {
    var names', v := Append(names, n, c), Version(n, |History(names, n)|);
    forall u ensures u in Refs(names', d) <==> u in Refs(names, d) || (u == v && d == c) {
      RefsMember(names, u, d);
      RefsMember(names', u, d);
    }
    RefsMember(names, v, d);
    if d == c {
      assert Refs(names', d) == Refs(names, d) + {v};
    } else {
      assert Refs(names', d) == Refs(names, d);
    }
  }

  /** Removing a name drops exactly the references its versions held. */
  lemma RefsRemove(names: Versions, n: Name, d: Cid)
    ensures |Refs(names, d)| == |Refs(names - {n}, d)| + |RefsOf(names, n, d)|
  {
    assert Refs(names, d) == Refs(names - {n}, d) + RefsOf(names, n, d);
    assert Refs(names - {n}, d) !! RefsOf(names, n, d);
  }

  /** No name has one object in two versions running. */
  ghost predicate NoRepeats(names: Versions) {
    forall n, i, j | n in names && 0 <= i < |names[n]| && j == i + 1 < |names[n]| :: names[n][i] != names[n][j]
  }

  lemma AppendHasNoRepeats(names: Versions, n: Name, c: Cid)
    requires NoRepeats(names) && Current(names, n) != Some(c)
    ensures NoRepeats(Append(names, n, c))
  {
  }
}

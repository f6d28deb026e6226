// Shared vocabulary: options, bytes, content identifiers, and facts about the
// size of finite sets that the reference-counting proofs lean on.
module Prelude {

  datatype Option<+T> = None | Some(value: T)

  type Bytes = seq<bv8>

  /** A content identifier. The store names content by its BLAKE3 hash; the hash is
      taken to be collision-free, so it is modelled as a free constructor. No
      operation looks inside a `Cid`: only specifications mention `preimage`. */
  datatype Cid = Cid(preimage: Bytes)

  /** A block generation: the block's hash, and which physical copy of it. */
  datatype Key = Key(hash: Cid, generation: nat)

  lemma SubsetSize<T>(a: set<T>, b: set<T>)
    requires a <= b
    ensures |a| <= |b|
    ensures |a| == |b| ==> a == b
  {
    assert b == a + (b - a);
  }

  lemma SliceOfSlice<T>(s: seq<T>, a: nat, b: nat, c: nat, d: nat)
    requires a <= b <= |s| && c <= d <= b - a
    ensures s[a..b][c..d] == s[a + c..a + d]
  {
    forall i | 0 <= i < d - c ensures s[a..b][c..d][i] == s[a + c..a + d][i] {
      assert s[a..b][c..d][i] == s[a..b][c + i];
    }
  }

  lemma JoinSlices<T>(s: seq<T>, a: nat, b: nat, c: nat)
    requires a <= b <= c <= |s|
    ensures s[a..b] + s[b..c] == s[a..c]
  {
  }
}

// The reference collector: objects first, then blocks, each claimed, unlinked and
// deleted. A pass may be cut short after any of these steps.
module Collector {
  import opened Prelude
  import opened Versions
  import opened FileStore
  import opened StoreModel
  import R = Repository

  datatype Reclaimed = Reclaimed(objects: nat, blocks: nat)

  // ---- What a pass, complete or cut short, may have done ------------------

  predicate DeadObject(s: Store, c: Cid) {
    c in s.objects && s.objects[c].refcount == 0
  }

  predicate DeadBlock(s: Store, b: Key) {
    b in s.blocks && s.blocks[b].refcount == 0
  }

  /** Only a dead object loses its manifest or its row, the manifest goes first, and neither
      goes before the claim. */
  predicate ObjectCollected(s: Store, s': Store, c: Cid) {
    if DeadObject(s, c) then
      && (c in s'.objects ==> s'.objects[c] == s.objects[c] || s'.objects[c] == s.objects[c].(available := false))
      && (c in s'.manifests ==> c in s'.objects && c in s.manifests && s'.manifests[c] == s.manifests[c])
      && (c in s.manifests && c in s'.objects && s'.objects[c].available ==> c in s'.manifests)
    else
      && (c in s'.objects <==> c in s.objects) && (c in s.objects ==> s'.objects[c] == s.objects[c])
      && (c in s'.manifests <==> c in s.manifests) && (c in s.manifests ==> s'.manifests[c] == s.manifests[c])
  }

  /** The same for a block generation and its file. */
  predicate BlockCollected(s: Store, s': Store, b: Key) {
    if DeadBlock(s, b) then
      && (b in s'.blocks ==> s'.blocks[b] == s.blocks[b] || s'.blocks[b] == s.blocks[b].(available := false))
      && (b in s'.files ==> b in s'.blocks && b in s.files && s'.files[b] == s.files[b])
      && (b in s.files && b in s'.blocks && s'.blocks[b].available ==> b in s'.files)
    else
      && (b in s'.blocks <==> b in s.blocks) && (b in s.blocks ==> s'.blocks[b] == s.blocks[b])
      && (b in s'.files <==> b in s.files) && (b in s.files ==> s'.files[b] == s.files[b])
  }

  ghost predicate Collected(s: Store, s': Store) {
    && s'.names == s.names
    && (forall c :: ObjectCollected(s, s', c))
    && (forall b :: BlockCollected(s, s', b))
    && s'.edges == s.edges - EdgesOf(s.edges, s.objects.Keys - s'.objects.Keys)
    // Blocks are touched only once every dead object is gone.
    && (DeadObjects(s'.objects) == {} || (s'.blocks == s.blocks && s'.files == s.files))
  }

  lemma CollectedStart(s: Store)
    ensures Collected(s, s)
  {
    assert EdgesOf(s.edges, s.objects.Keys - s.objects.Keys) == {};
    assert s.edges - {} == s.edges;
  }

  lemma ObjectClaimed(s: Store, s1: Store, s2: Store, c: Cid)
    requires Collected(s, s1) && s1.blocks == s.blocks && s1.files == s.files
    requires DeadObject(s, c) && c in s1.objects
    requires s2 == s1.(objects := s1.objects[c := s1.objects[c].(available := false)])
    ensures Collected(s, s2)
  {
    forall d ensures ObjectCollected(s, s2, d) { assert ObjectCollected(s, s1, d); }
    forall b ensures BlockCollected(s, s2, b) { assert BlockCollected(s, s1, b); }
    assert s2.objects.Keys == s1.objects.Keys;
  }

  lemma ObjectUnlinked(s: Store, s1: Store, s2: Store, c: Cid)
    requires Collected(s, s1) && s1.blocks == s.blocks && s1.files == s.files
    requires DeadObject(s, c) && c in s1.objects && !s1.objects[c].available
    requires s2 == s1.(manifests := s1.manifests - {c})
    ensures Collected(s, s2)
  {
    forall d ensures ObjectCollected(s, s2, d) { assert ObjectCollected(s, s1, d); }
    forall b ensures BlockCollected(s, s2, b) { assert BlockCollected(s, s1, b); }
  }

  lemma ObjectDeleted(s: Store, s1: Store, s2: Store, c: Cid)
    requires Collected(s, s1) && s1.blocks == s.blocks && s1.files == s.files
    requires DeadObject(s, c) && c in s1.objects && c !in s1.manifests
    requires s2 == s1.(objects := s1.objects - {c}, edges := s1.edges - EdgesOf(s1.edges, {c}))
    ensures Collected(s, s2)
  {
    forall d ensures ObjectCollected(s, s2, d) { assert ObjectCollected(s, s1, d); }
    forall b ensures BlockCollected(s, s2, b) { assert BlockCollected(s, s1, b); }
    var gone, gone' := s.objects.Keys - s1.objects.Keys, s.objects.Keys - s2.objects.Keys;
    assert gone' == gone + {c};
    assert EdgesOf(s.edges, gone') == EdgesOf(s.edges, gone) + EdgesOf(s1.edges, {c});
    assert s.edges - EdgesOf(s.edges, gone') == s1.edges - EdgesOf(s1.edges, {c});
  }

  lemma BlockClaimed(s: Store, s1: Store, s2: Store, b: Key)
    requires Collected(s, s1) && DeadObjects(s1.objects) == {} && DeadBlock(s, b) && b in s1.blocks
    requires s2 == s1.(blocks := s1.blocks[b := s1.blocks[b].(available := false)])
    ensures Collected(s, s2) && DeadObjects(s2.objects) == {}
  {
    forall c ensures ObjectCollected(s, s2, c) { assert ObjectCollected(s, s1, c); }
    forall k ensures BlockCollected(s, s2, k) { assert BlockCollected(s, s1, k); }
  }

  lemma BlockUnlinked(s: Store, s1: Store, s2: Store, b: Key)
    requires Collected(s, s1) && DeadObjects(s1.objects) == {} && DeadBlock(s, b) && b in s1.blocks && !s1.blocks[b].available
    requires s2 == s1.(files := s1.files - {b})
    ensures Collected(s, s2) && DeadObjects(s2.objects) == {}
  {
    forall c ensures ObjectCollected(s, s2, c) { assert ObjectCollected(s, s1, c); }
    forall k ensures BlockCollected(s, s2, k) { assert BlockCollected(s, s1, k); }
  }

  lemma BlockDeleted(s: Store, s1: Store, s2: Store, b: Key)
    requires Collected(s, s1) && DeadObjects(s1.objects) == {} && DeadBlock(s, b) && b in s1.blocks && b !in s1.files
    requires s2 == s1.(blocks := s1.blocks - {b})
    ensures Collected(s, s2) && DeadObjects(s2.objects) == {}
  {
    forall c ensures ObjectCollected(s, s2, c) { assert ObjectCollected(s, s1, c); }
    forall k ensures BlockCollected(s, s2, k) { assert BlockCollected(s, s1, k); }
  }

  // ---- The pass ------------------------------------------------------------

  /** Claims, unlinks and deletes one dead object, as far as `budget` steps allow. `done`
      means the object is gone. */
  method ReclaimObject(repo: R.Repository, c: Cid, available: bool, budget: nat, ghost s: Store)
    returns (done: bool, left: nat)
    requires Collected(s, repo.Snapshot()) && repo.index.blocks == s.blocks && repo.content.files == s.files
    requires DeadObject(s, c) && c in repo.index.objects
    requires repo.index.objects[c].refcount == 0 && repo.index.objects[c].available == available
    modifies repo.index`objects, repo.index`edges, repo.content`manifests
    ensures Collected(s, repo.Snapshot())
    ensures done ==> repo.index.objects == old(repo.index.objects) - {c}
    ensures !done ==> repo.index.objects.Keys == old(repo.index.objects).Keys
    ensures budget >= 3 ==> done && left == budget - if available then 3 else 2
  {
    done, left := false, budget;
    ghost var s1 := repo.Snapshot();
    if available {
      if left == 0 { return; }
      left := left - 1;
      var owned := repo.index.ClaimObject(c);
      assert owned;
      ObjectClaimed(s, s1, repo.Snapshot(), c);
    }
    if left == 0 { return; }
    left := left - 1;
    s1 := repo.Snapshot();
    repo.content.Remove(c);
    ObjectUnlinked(s, s1, repo.Snapshot(), c);
    if left == 0 { return; }
    left := left - 1;
    s1 := repo.Snapshot();
    repo.index.DeleteObject(c);
    ObjectDeleted(s, s1, repo.Snapshot(), c);
    assert repo.index.objects == old(repo.index.objects) - {c};
    done := true;
  }

  method ReclaimBlock(repo: R.Repository, b: Key, available: bool, budget: nat, ghost s: Store)
    returns (done: bool, left: nat)
    requires Collected(s, repo.Snapshot()) && DeadObjects(repo.index.objects) == {}
    requires DeadBlock(s, b) && b in repo.index.blocks
    requires repo.index.blocks[b].refcount == 0 && repo.index.blocks[b].available == available
    modifies repo.index`blocks, repo.content`files
    ensures Collected(s, repo.Snapshot()) && DeadObjects(repo.index.objects) == {}
    ensures done ==> repo.index.blocks == old(repo.index.blocks) - {b}
    ensures !done ==> repo.index.blocks.Keys == old(repo.index.blocks).Keys
    ensures budget >= 3 ==> done && left == budget - if available then 3 else 2
  {
    done, left := false, budget;
    ghost var s1 := repo.Snapshot();
    if available {
      if left == 0 { return; }
      left := left - 1;
      var owned := repo.index.ClaimBlock(b);
      assert owned;
      BlockClaimed(s, s1, repo.Snapshot(), b);
    }
    if left == 0 { return; }
    left := left - 1;
    s1 := repo.Snapshot();
    repo.content.RemoveBlock(b);
    BlockUnlinked(s, s1, repo.Snapshot(), b);
    if left == 0 { return; }
    left := left - 1;
    s1 := repo.Snapshot();
    repo.index.DeleteBlock(b);
    BlockDeleted(s, s1, repo.Snapshot(), b);
    assert repo.index.blocks == old(repo.index.blocks) - {b};
    done := true;
  }

  lemma RemoveKey<K, V>(m: map<K, V>, gone: set<K>, k: K)
    requires gone <= m.Keys && k in m && k !in gone
    ensures k in m - gone && (m - gone)[k] == m[k]
    ensures m - (gone + {k}) == m - gone - {k}
    ensures |gone + {k}| == |gone| + 1
  {
  }

  lemma RemainingKeys<K, V>(m: map<K, V>, gone: set<K>)
    requires gone <= m.Keys
    ensures |gone| + |(m - gone).Keys| == |m.Keys|
  {
    assert (m - gone).Keys == m.Keys - gone;
  }

  /** `gone` holds the first `i` of the listed keys and none of the others. */
  ghost predicate Handled<K>(rows: seq<(K, bool)>, gone: set<K>, i: nat) {
    forall j | 0 <= j < |rows| :: rows[j].0 in gone <==> j < i
  }

  lemma HandledNext<K>(rows: seq<(K, bool)>, gone: set<K>, i: nat)
    requires Handled(rows, gone, i) && i < |rows| && forall i, j | 0 <= i < j < |rows| :: rows[i].0 != rows[j].0
    ensures rows[i].0 !in gone && Handled(rows, gone + {rows[i].0}, i + 1)
  {
  }

  /** Once every listed row is handled, no dead row is left. */
  lemma AllGone<K, V>(m: map<K, V>, dead: set<K>, rows: seq<(K, bool)>, gone: set<K>)
    requires Handled(rows, gone, |rows|) && forall k | k in dead :: exists f :: (k, f) in rows
    ensures dead !! (m - gone).Keys
  {
    forall k | k in dead ensures k in gone {
      var f :| (k, f) in rows;
      var j :| 0 <= j < |rows| && rows[j] == (k, f);
      assert rows[j].0 in gone;
    }
  }

  /** The object half of a pass. A budget of three steps per dead object completes it. */
  method CollectObjects(repo: R.Repository, budget: nat) returns (done: bool, reclaimed: nat, left: nat)
    modifies repo.index`objects, repo.index`edges, repo.content`manifests
    ensures Collected(old(repo.Snapshot()), repo.Snapshot())
    ensures done ==> DeadObjects(repo.index.objects) == {}
    ensures reclaimed + |repo.index.objects.Keys| == |old(repo.index.objects).Keys|
    ensures budget >= 3 * |DeadObjects(old(repo.index.objects))| ==>
              done && left >= budget - 3 * |DeadObjects(old(repo.index.objects))|
  {
    ghost var s := repo.Snapshot();
    CollectedStart(s);
    var rows := repo.index.ClaimableObjects();
    ghost var gone: set<Cid> := {};
    reclaimed, left := 0, budget;
    for i := 0 to |rows|
      invariant Collected(s, repo.Snapshot())
      invariant gone <= s.objects.Keys && repo.index.objects == s.objects - gone
      invariant Handled(rows, gone, i)
      invariant reclaimed == i == |gone|
      invariant budget >= 3 * |rows| ==> left >= budget - 3 * i
    {
      var c := rows[i].0;
      assert rows[i] in rows;
      HandledNext(rows, gone, i);
      RemoveKey(s.objects, gone, c);
      RemainingKeys(s.objects, gone);
      done, left := ReclaimObject(repo, c, rows[i].1, left, s);
      if !done {
        return;
      }
      gone, reclaimed := gone + {c}, reclaimed + 1;
    }
    done := true;
    RemainingKeys(s.objects, gone);
    AllGone(s.objects, DeadObjects(s.objects), rows, gone);
  }

  /** The block half of a pass that has finished with the objects. */
  method CollectBlocks(repo: R.Repository, budget: nat, ghost s: Store) returns (done: bool, reclaimed: nat)
    requires Collected(s, repo.Snapshot()) && DeadObjects(repo.index.objects) == {} && repo.index.blocks == s.blocks
    modifies repo.index`blocks, repo.content`files
    ensures Collected(s, repo.Snapshot()) && DeadObjects(repo.index.objects) == {}
    ensures done ==> DeadBlocks(repo.index.blocks) == {}
    ensures reclaimed + |repo.index.blocks.Keys| == |s.blocks.Keys|
    ensures budget >= 3 * |DeadBlocks(s.blocks)| ==> done
  {
    var rows := repo.index.ClaimableBlocks();
    ghost var gone: set<Key> := {};
    var left: nat := budget;
    reclaimed := 0;
    for i := 0 to |rows|
      invariant Collected(s, repo.Snapshot()) && DeadObjects(repo.index.objects) == {}
      invariant gone <= s.blocks.Keys && repo.index.blocks == s.blocks - gone
      invariant Handled(rows, gone, i)
      invariant reclaimed == i == |gone|
      invariant budget >= 3 * |rows| ==> left >= budget - 3 * i
    {
      var b := rows[i].0;
      assert rows[i] in rows;
      HandledNext(rows, gone, i);
      RemoveKey(s.blocks, gone, b);
      RemainingKeys(s.blocks, gone);
      done, left := ReclaimBlock(repo, b, rows[i].1, left, s);
      if !done {
        return;
      }
      gone, reclaimed := gone + {b}, reclaimed + 1;
    }
    done := true;
    RemainingKeys(s.blocks, gone);
    AllGone(s.blocks, DeadBlocks(s.blocks), rows, gone);
  }

  /** One pass, cut short after `budget` steps. Three steps per dead row complete it. */
  method Collect(repo: R.Repository, budget: nat) returns (done: bool, reclaimed: Reclaimed)
    modifies repo.index, repo.content
    ensures Collected(old(repo.Snapshot()), repo.Snapshot())
    ensures done ==> DeadObjects(repo.index.objects) == {} && DeadBlocks(repo.index.blocks) == {}
    ensures reclaimed.objects + |repo.index.objects.Keys| == |old(repo.index.objects).Keys|
    ensures reclaimed.blocks + |repo.index.blocks.Keys| == |old(repo.index.blocks).Keys|
    ensures budget >= 3 * (|DeadObjects(old(repo.index.objects))| + |DeadBlocks(old(repo.index.blocks))|) ==> done
  {
    ghost var s := repo.Snapshot();
    var objects, blocks, left;
    done, objects, left := CollectObjects(repo, budget);
    if !done {
      return false, Reclaimed(objects, 0);
    }
    done, blocks := CollectBlocks(repo, left, s);
    reclaimed := Reclaimed(objects, blocks);
  }

  // ---- A pass is invisible -------------------------------------------------

  lemma CollectedKeepsEdges(s: Store, s': Store, chunk: Chunker, leak: multiset<Key>, held: Option<Cid>)
    requires InFlight(s, chunk, leak, held) && Collected(s, s')
    ensures s'.edges == s.edges
  {
    var gone := s.objects.Keys - s'.objects.Keys;
    forall e | e in s.edges ensures e.owner !in gone {
      assert ObjectInv(s, chunk, held, e.owner) && ObjectCollected(s, s', e.owner);
    }
    assert EdgesOf(s.edges, gone) == {};
    assert s.edges - {} == s.edges;
  }

  /** A block that a live object's edge pins is left alone. */
  lemma PinnedKept(s: Store, s': Store, leak: multiset<Key>, e: Edge)
    requires e in s.edges && BlockInv(s, leak, Key(e.block, s.edges[e])) && Collected(s, s')
    ensures
      var b := Key(e.block, s.edges[e]);
      b in s.blocks && b in s'.blocks && s'.blocks[b] == s.blocks[b]
  {
    var b := Key(e.block, s.edges[e]);
    assert e in EdgesTo(s.edges, b);
    assert BlockCollected(s, s', b);
  }

  /** A block that a call holds is left alone. */
  lemma HeldKept(s: Store, s': Store, leak: multiset<Key>, b: Key)
    requires leak[b] > 0 && BlockInv(s, leak, b) && Collected(s, s')
    ensures b in s.blocks && b in s'.blocks && s'.blocks[b] == s.blocks[b]
  {
    assert BlockCollected(s, s', b);
  }

  /** The call that holds an object holds the blocks its manifest lists. */
  ghost predicate HoldsBlocks(s: Store, leak: multiset<Key>, held: Option<Cid>) {
    held.Some? && held.value in s.manifests ==>
      forall i | 0 <= i < |s.manifests[held.value].blocks| :: leak[Block(s.manifests[held.value].blocks[i])] > 0
  }

  lemma CollectedKeepsManifest(s: Store, s': Store, chunk: Chunker, leak: multiset<Key>, held: Option<Cid>, c: Cid)
    requires InFlight(s, chunk, leak, held) && HoldsBlocks(s, leak, held) && Collected(s, s')
    requires c in s.manifests && (|Refs(s.names, c)| > 0 || held == Some(c))
    ensures ManifestInv(s'.blocks, chunk, c, s.manifests[c])
  {
    var m := s.manifests[c];
    assert ObjectInv(s, chunk, held, c);
    forall i | 0 <= i < |m.blocks| ensures Available(s'.blocks, Block(m.blocks[i])) {
      assert Available(s.blocks, Block(m.blocks[i]));
      if held == Some(c) {
        assert BlockInv(s, leak, Block(m.blocks[i]));
        HeldKept(s, s', leak, Block(m.blocks[i]));
      } else {
        var e := Edge(c, m.blocks[i].hash);
        assert BlockInv(s, leak, Key(e.block, s.edges[e]));
        PinnedKept(s, s', leak, e);
      }
    }
  }

  lemma CollectedKeepsObject(s: Store, s': Store, chunk: Chunker, leak: multiset<Key>, held: Option<Cid>, c: Cid)
    requires InFlight(s, chunk, leak, held) && HoldsBlocks(s, leak, held) && Collected(s, s') && s'.edges == s.edges
    ensures ObjectInv(s', chunk, held, c)
  {
    assert ObjectInv(s, chunk, held, c) && ObjectCollected(s, s', c);
    if c in s'.manifests && DeadObjects(s'.objects) == {} {
      assert c in s'.objects && c !in DeadObjects(s'.objects);
      CollectedKeepsManifest(s, s', chunk, leak, held, c);
    }
  }

  /** Wherever a pass is cut short, everything the store promises still holds, with or without
      a call in progress, and no name has changed. */
  lemma CollectedKeepsInFlight(s: Store, s': Store, chunk: Chunker, leak: multiset<Key>, held: Option<Cid>)
    requires InFlight(s, chunk, leak, held) && HoldsBlocks(s, leak, held) && Collected(s, s')
    ensures InFlight(s', chunk, leak, held) && s'.names == s.names
  {
    CollectedKeepsEdges(s, s', chunk, leak, held);
    forall b ensures BlockInv(s', leak, b) {
      assert BlockInv(s, leak, b) && BlockCollected(s, s', b);
    }
    forall c ensures ObjectInv(s', chunk, held, c) { CollectedKeepsObject(s, s', chunk, leak, held, c); }
    forall b, b' | Available(s'.blocks, b) && Available(s'.blocks, b') && b.hash == b'.hash ensures b == b' {
      assert BlockCollected(s, s', b) && BlockCollected(s, s', b');
      assert Available(s.blocks, b) && Available(s.blocks, b');
    }
    forall b | b in s'.files ensures Cid(s'.files[b]) == b.hash { assert BlockCollected(s, s', b); }
  }

  /** And between calls. */
  lemma CollectedKeepsAtRest(s: Store, s': Store, chunk: Chunker, leak: multiset<Key>)
    requires AtRest(s, chunk, leak) && Collected(s, s')
    ensures AtRest(s', chunk, leak) && s'.names == s.names
  {
    CollectedKeepsInFlight(s, s', chunk, leak, None);
  }
}

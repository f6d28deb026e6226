// Concrete runs in which the store promises less than one might hope, on the operations
// themselves: a failed put that leaks, a drift one audit pass does not repair, an abandoned
// put that costs a later one its bytes, and an alias of a dead object that cannot be read.
module Incidents {
  import opened Prelude
  import opened Versions
  import opened FileStore
  import opened StoreModel
  import R = Repository
  import A = Audit

  /** Content is one chunk, except that `a + b` is cut in two. */
  function TwoChunks(a: Bytes, b: Bytes): Chunker {
    (content: Bytes) =>
      if content == a + b then [Chunk(Cid(a), 0, |a|), Chunk(Cid(b), |a|, |b|)]
      else [Chunk(Cid(content), 0, |content|)]
  }

  lemma TwoChunksPartition(a: Bytes, b: Bytes)
    ensures Partitions(TwoChunks(a, b))
  {
    var chunk := TwoChunks(a, b);
    forall content ensures IsPartition(chunk(content), content) {
      if content == a + b {
        assert content[0..|a|] == a && content[|a|..|a| + |b|] == b;
        assert IsPiece(chunk(content), content, 0) && IsPiece(chunk(content), content, 1);
      } else {
        assert content[0..|content|] == content;
      }
    }
  }

  /** The write of the second block fails: the put is refused and the reservation of the first
      block is never given back. */
  method FailedPutLeaks(n: Name, a: Bytes, b: Bytes, digest: R.Digest, now: int) returns (repo: R.Repository)
    requires R.Injective(digest)
    requires a != b && |a + b| < U64_LIMIT
    ensures repo.Valid() && repo.Contents() == map[]
    ensures exists g :: repo.leaked == multiset{Key(Cid(a), g)}
    ensures forall k | k in repo.leaked :: Available(repo.index.blocks, k) && repo.index.blocks[k].refcount == 1
  {
    TwoChunksPartition(a, b);
    repo := new R.Repository(TwoChunks(a, b), digest);
    var fault := R.BlockWrite(Cid(b), false);
    ghost var chunks := TwoChunks(a, b)(a + b);
    assert chunks[1] in chunks && R.Hashes(chunks) == {Cid(a), Cid(b)};
    assert R.Before(chunks, Cid(b)) == [chunks[0]] by { assert chunks[1..][0].hash == Cid(b); }
    assert R.Hashes([chunks[0]]) == {Cid(a)};
    var r, lost := repo.Put(n, a + b, now, fault);
    OneKey(repo.index.blocks, lost, Cid(a));
    assert BlockInv(repo.Snapshot(), repo.leaked, lost[0]);
    NoHistoriesNoNames(repo.index.names);
    NoNamesNoEdges(repo.Snapshot(), repo.content.chunk, repo.leaked, None, lost[0]);
  }

  lemma TwoDiffer(keys: seq<Key>)
    requires |keys| > 1 && forall i, j | 0 <= i < j < |keys| :: keys[i].hash != keys[j].hash
    ensures keys[0].hash != keys[1].hash
  {
  }

  lemma OneKey(blocks: Blocks, keys: seq<Key>, h: Cid)
    requires R.Reserves(blocks, keys, {h})
    ensures |keys| == 1 && keys[0] == Key(h, keys[0].generation) && multiset(keys) == multiset{keys[0]}
    ensures Available(blocks, keys[0])
  {
    var k :| k in keys && k.hash == h;
    assert forall i | 0 <= i < |keys| :: keys[i] in keys;
    if |keys| > 1 { TwoDiffer(keys); }
    assert keys == [keys[0]];
  }

  lemma EdgeIsNamed(s: Store, chunk: Chunker, leak: multiset<Key>, held: Option<Cid>, e: Edge)
    requires InFlight(s, chunk, leak, held) && e in s.edges
    ensures |Refs(s.names, e.owner)| > 0
  {
    assert ObjectInv(s, chunk, held, e.owner);
  }

  lemma NoNamesNoEdges(s: Store, chunk: Chunker, leak: multiset<Key>, held: Option<Cid>, b: Key)
    requires InFlight(s, chunk, leak, held) && s.names == map[]
    ensures EdgesTo(s.edges, b) == {}
  {
    forall e | e in s.edges ensures |Refs(s.names, e.owner)| > 0 { EdgeIsNamed(s, chunk, leak, held, e); }
    assert forall e | e in s.edges :: Refs(s.names, e.owner) == {};
  }

  lemma NoHistoriesNoNames(names: Versions)
    requires R.Decode(names) == map[]
    ensures names == map[]
  {
    assert forall n | n in names :: n in R.Decode(names);
  }

  // ---- One audit pass is not always enough ------------------------------------------------

  /** When the store was last touched. */
  method LatestTouch(repo: R.Repository) returns (t: int)
    ensures A.Quiescent(repo.Snapshot(), t)
  {
    t := 0;
    var objects, blocks := repo.index.objects.Keys, repo.index.blocks.Keys;
    while objects != {}
      invariant objects <= repo.index.objects.Keys
      invariant forall c | c in repo.index.objects && c !in objects :: repo.index.objects[c].touchedAt <= t
      decreases objects
    {
      var c :| c in objects;
      if repo.index.objects[c].touchedAt > t { t := repo.index.objects[c].touchedAt; }
      objects := objects - {c};
    }
    while blocks != {}
      invariant blocks <= repo.index.blocks.Keys
      invariant forall c | c in repo.index.objects :: repo.index.objects[c].touchedAt <= t
      invariant forall b | b in repo.index.blocks && b !in blocks :: repo.index.blocks[b].touchedAt <= t
      decreases blocks
    {
      var b :| b in blocks;
      if repo.index.blocks[b].touchedAt > t { t := repo.index.blocks[b].touchedAt; }
      blocks := blocks - {b};
    }
  }

  lemma OnlyName(names: Versions, n: Name, bytes: Bytes)
    requires R.Decode(names) == map[n := [bytes]]
    ensures names == map[n := [Cid(bytes)]]
    ensures |Refs(names, Cid(bytes))| == |RefsOf(names, n, Cid(bytes))| > 0
  {
    assert names.Keys == R.Decode(names).Keys;
    assert |R.Preimages(names[n])| == 1 && R.Preimages(names[n])[0] == names[n][0].preimage;
    assert names[n] == [Cid(bytes)];
    RefsRemove(names, n, Cid(bytes));
    assert Refs(names - {n}, Cid(bytes)) == {};
    RefsMember(names, Version(n, 0), Cid(bytes));
  }

  lemma HasBlocks(s: Store, chunk: Chunker, leak: multiset<Key>, held: Option<Cid>, c: Cid)
    requires InFlight(s, chunk, leak, held) && c in s.manifests && chunk(c.preimage) != []
    ensures s.manifests[c].blocks != []
  {
    assert ObjectInv(s, chunk, held, c);
  }

  lemma NamedIsStored(s: Store, chunk: Chunker, leak: multiset<Key>, held: Option<Cid>, c: Cid)
    requires InFlight(s, chunk, leak, held) && |Refs(s.names, c)| > 0
    ensures c in s.manifests && c in s.objects && s.objects[c].available
  {
    assert ObjectInv(s, chunk, held, c);
  }

  /** A put, and the same content put again by a process that dies after reserving it. */
  method PutThenCrash(n: Name, bytes: Bytes, digest: R.Digest, now: int) returns (repo: R.Repository)
    requires R.Injective(digest) && |bytes| < U64_LIMIT
    ensures fresh(repo) && fresh(repo.index) && fresh(repo.content)
    ensures InFlight(repo.Snapshot(), repo.content.chunk, repo.leaked, Some(Cid(bytes)))
    ensures repo.index.names == map[n := [Cid(bytes)]]
    ensures Cid(bytes) in repo.content.manifests && repo.content.manifests[Cid(bytes)].blocks != []
  {
    TwoChunksPartition(bytes, bytes);
    repo := new R.Repository(TwoChunks(bytes, bytes), digest);
    var _, _ := repo.Put(n, bytes, now, R.NoFault);
    OnlyName(repo.index.names, n, bytes);
    NamedIsStored(repo.Snapshot(), repo.content.chunk, repo.leaked, None, Cid(bytes));
    ghost var held := repo.CrashPut(bytes, now, false);
    NamedIsStored(repo.Snapshot(), repo.content.chunk, repo.leaked, held, Cid(bytes));
    HasBlocks(repo.Snapshot(), repo.content.chunk, repo.leaked, held, Cid(bytes));
  }

  /** Then the name is unbound and an audit runs at rest: block counts are still above the
      truth. */
  method OnePassLeavesDrift(n: Name, bytes: Bytes, digest: R.Digest, now: int) returns (repo: R.Repository)
    requires R.Injective(digest) && |bytes| < U64_LIMIT
    ensures A.ObjectsExact(repo.Snapshot()) && !A.BlocksExact(repo.Snapshot())
  {
    repo := PutThenCrash(n, bytes, digest, now);
    ghost var s := repo.Snapshot();
    assert R.Decode(s.names) == map[n := [bytes]] by { assert R.Preimages([Cid(bytes)]) == [bytes]; }
    OnlyName(s.names, n, bytes);
    var cutoff := LatestTouch(repo);
    UnbindAbandoned(repo, n, Some(Cid(bytes)));
    var _, _ := A.Audit(repo, cutoff);
    A.OnePassFallsShort(s, repo.content.chunk, repo.leaked, n, Cid(bytes), repo.Snapshot(), cutoff);
  }

  /** An unbind while a reservation of an abandoned call is outstanding. */
  method UnbindAbandoned(repo: R.Repository, n: Name, ghost held: Option<Cid>)
    requires InFlight(repo.Snapshot(), repo.content.chunk, repo.leaked, held)
    modifies repo.index
    ensures repo.Snapshot() == Unbound(old(repo.Snapshot()), n)
  {
    ghost var s := repo.Snapshot();
    forall i | 0 <= i < |History(s.names, n)| ensures History(s.names, n)[i] in s.objects {
      var c := History(s.names, n)[i];
      RefsMember(s.names, Version(n, i), c);
      assert ObjectInv(s, repo.content.chunk, held, c);
    }
    var ok := repo.index.Unbind(n);
    assert ok;
    R.UnbindIgnoresFiles(s, n);
  }

  // ---- An abandoned put costs the next one its bytes ------------------------------------------

  /** The index calls of a put of content that is already stored: a reserve of each block, one
      of the object, and the bind, with no audit in between. */
  method PutStored(repo: R.Repository, n: Name, c: Cid, now: int, ghost held: Option<Cid>) returns (ghost keys: seq<Key>)
    requires InFlight(repo.Snapshot(), repo.content.chunk, repo.leaked, held) && c in repo.content.manifests
    requires c in repo.index.objects && repo.index.objects[c].available && R.Injective(repo.digest)
    modifies repo.index
    ensures Covers(keys, repo.content.manifests[c])
    ensures repo.Snapshot() == A.PutAgain(old(repo.Snapshot()), keys, n, c, now)
  {
    var reserved := ReserveStored(repo, c, now, held);
    var prevRc := repo.index.ReserveObject(c, true, now);
    repo.index.Bind(n, c, reserved, prevRc.value);
    keys := reserved;
  }

  method ReserveOne(repo: R.Repository, h: Cid, now: int) returns (b: Key)
    requires OneAvailable(repo.index.blocks) && R.HasAvailable(repo.index.blocks, h)
    modifies repo.index`blocks
    ensures b.hash == h && Available(old(repo.index.blocks), b)
    ensures repo.index.blocks == old(repo.index.blocks)[b := BlockRow(old(repo.index.blocks)[b].refcount + 1, true, now)]
  {
    var g := repo.index.ReserveBlock(h, now);
    b := Key(h, g.value);
  }

  lemma ReservingKeeps(blocks: Blocks, b: Key, now: int)
    requires OneAvailable(blocks) && Available(blocks, b)
    ensures var blocks' := blocks[b := BlockRow(blocks[b].refcount + 1, true, now)];
            OneAvailable(blocks') && forall k :: Available(blocks', k) <==> Available(blocks, k)
  {
    var blocks' := blocks[b := BlockRow(blocks[b].refcount + 1, true, now)];
    forall k ensures Available(blocks', k) <==> Available(blocks, k) {}
  }

  method ReserveStored(repo: R.Repository, c: Cid, now: int, ghost held: Option<Cid>) returns (reserved: seq<Key>)
    requires InFlight(repo.Snapshot(), repo.content.chunk, repo.leaked, held) && c in repo.content.manifests
    requires R.Injective(repo.digest)
    modifies repo.index`blocks
    ensures Covers(reserved, repo.content.manifests[c])
    ensures repo.index.blocks == A.ReservedAll(old(repo.index.blocks), reserved, now)
  {
    var m := repo.content.manifests[c];
    assert ObjectInv(repo.Snapshot(), repo.content.chunk, held, c);
    var listed := repo.content.Blocks(c);
    forall h ensures h in listed.value <==> R.Lists(m, h) {}
    var hashes := R.Dedup(repo.digest, listed.value);
    reserved := ReserveHashes(repo, c, m, hashes, now);
    R.CoversListed(old(repo.index.blocks), repo.content.chunk, c, m, hashes, reserved);
  }

  method ReserveHashes(repo: R.Repository, c: Cid, m: Manifest, hashes: seq<Cid>, now: int) returns (reserved: seq<Key>)
    requires ManifestInv(repo.index.blocks, repo.content.chunk, c, m) && OneAvailable(repo.index.blocks)
    requires forall h | h in hashes :: R.Lists(m, h)
    modifies repo.index`blocks
    ensures repo.index.blocks == A.ReservedAll(old(repo.index.blocks), reserved, now) && |reserved| == |hashes|
    ensures forall j | 0 <= j < |hashes| :: reserved[j].hash == hashes[j] && Available(old(repo.index.blocks), reserved[j])
  {
    ghost var blocks := repo.index.blocks;
    reserved := [];
    for i := 0 to |hashes|
      invariant |reserved| == i && repo.index.blocks == A.ReservedAll(blocks, reserved, now)
      invariant OneAvailable(repo.index.blocks) && forall b :: Available(repo.index.blocks, b) <==> Available(blocks, b)
      invariant forall j | 0 <= j < i :: reserved[j].hash == hashes[j] && Available(blocks, reserved[j])
    {
      assert hashes[i] in hashes;
      R.ListedAvailable(blocks, repo.content.chunk, c, m, hashes[i]);
      R.SameAvailable(blocks, repo.index.blocks, hashes[i]);
      ghost var before := repo.index.blocks;
      var b := ReserveOne(repo, hashes[i], now);
      ReservingKeeps(before, b, now);
      assert (reserved + [b])[..i] == reserved;
      reserved := reserved + [b];
    }
  }

  /** An empty store on which a put has died after writing its manifest. */
  method CrashAfterManifest(bytes: Bytes, digest: R.Digest, now: int) returns (repo: R.Repository)
    requires R.Injective(digest) && |bytes| < U64_LIMIT
    ensures fresh(repo) && fresh(repo.index) && fresh(repo.content) && repo.content.chunk == TwoChunks(bytes, bytes)
    ensures repo.digest == digest
    ensures InFlight(repo.Snapshot(), repo.content.chunk, repo.leaked, Some(Cid(bytes))) && repo.index.names == map[]
    ensures Cid(bytes) in repo.content.manifests && repo.content.manifests[Cid(bytes)].blocks != []
    ensures Cid(bytes) in repo.index.objects && repo.index.objects[Cid(bytes)].available
    ensures ManifestOfContent(repo.content.chunk, bytes, repo.content.manifests[Cid(bytes)])
  {
    TwoChunksPartition(bytes, bytes);
    repo := new R.Repository(TwoChunks(bytes, bytes), digest);
    ghost var held := repo.CrashPut(bytes, now, true);
    assert ObjectInv(repo.Snapshot(), repo.content.chunk, held, Cid(bytes));
    HasBlocks(repo.Snapshot(), repo.content.chunk, repo.leaked, held, Cid(bytes));
  }

  /** A put dies after writing its manifest. The same content is put again, which reports
      success. An audit at rest then deletes a block of the content the name now has. */
  method AbandonedPutCostsBytes(n: Name, bytes: Bytes, digest: R.Digest, now: int) returns (repo: R.Repository)
    requires R.Injective(digest) && |bytes| < U64_LIMIT
    ensures Current(repo.index.names, n) == Some(Cid(bytes))
    ensures exists m: Manifest ::
              ManifestOfContent(repo.content.chunk, bytes, m) && m.blocks != [] && Block(m.blocks[0]) !in repo.content.files
  {
    repo := CrashAfterManifest(bytes, digest, now);
    ghost var s, held := repo.Snapshot(), Some(Cid(bytes));
    ghost var m := s.manifests[Cid(bytes)];
    NoNamesNoEdges(s, repo.content.chunk, repo.leaked, held, Block(m.blocks[0]));
    assert Refs(s.names, Cid(bytes)) == {};
    ghost var keys := PutStored(repo, n, Cid(bytes), now, held);
    var cutoff := LatestTouch(repo);
    var _, _ := A.Audit(repo, cutoff);
    A.StrayReservationLosesBytes(s, repo.content.chunk, repo.leaked, keys, n, Cid(bytes), now, repo.Snapshot(), cutoff);
    assert ManifestOfContent(repo.content.chunk, bytes, m);
  }

  /** `m` lists the chunks of `bytes`. */
  ghost predicate ManifestOfContent(chunk: Chunker, bytes: Bytes, m: Manifest) {
    |m.blocks| == |chunk(bytes)| && forall i | 0 <= i < |m.blocks| :: m.blocks[i].hash == chunk(bytes)[i].hash
  }

  // ---- An alias of a dead object cannot be read ------------------------------------------------

  /** The object of `a` is dead but not yet collected, and its one block `k` is claimed. */
  ghost predicate Dying(repo: R.Repository, a: Bytes, k: Key)
    reads repo, repo.index, repo.content
  {
    && (forall c | c in repo.index.objects :: repo.index.objects[c].available)
    && Cid(a) in repo.index.objects && repo.index.objects[Cid(a)].refcount == 0 && Cid(a) in repo.content.manifests
    && |repo.content.manifests[Cid(a)].blocks| == 1 && Block(repo.content.manifests[Cid(a)].blocks[0]) == k
    && k.hash == Cid(a) && k in repo.index.blocks && !repo.index.blocks[k].available && repo.index.blocks[k].refcount == 0
  }

  predicate AllDead(objects: Objects) {
    forall c | c in objects :: objects[c].refcount == 0
  }

  /** A put and an unbind. `k` is the block of the dead object. */
  method PutThenUnbind(n: Name, a: Bytes, b: Bytes, digest: R.Digest, now: int) returns (repo: R.Repository, k: Key)
    requires R.Injective(digest) && b != [] && |a + b| < U64_LIMIT
    ensures fresh(repo) && fresh(repo.index) && fresh(repo.content) && repo.content.chunk == TwoChunks(a, b)
    ensures repo.Valid() && repo.index.names == map[] && repo.leaked == multiset{}
    ensures forall c :: !repo.Claimed(c)
    ensures Cid(a) in repo.content.manifests && repo.content.manifests[Cid(a)].blocks != []
    ensures k == Block(repo.content.manifests[Cid(a)].blocks[0])
  {
    TwoChunksPartition(a, b);
    repo := new R.Repository(TwoChunks(a, b), digest);
    var _, _ := repo.Put(n, a, now, R.NoFault);
    OnlyName(repo.index.names, n, a);
    NamedIsStored(repo.Snapshot(), repo.content.chunk, repo.leaked, None, Cid(a));
    HasBlocks(repo.Snapshot(), repo.content.chunk, repo.leaked, None, Cid(a));
    k := Block(repo.content.manifests[Cid(a)].blocks[0]);
    repo.Unbind(n);
    NoHistoriesNoNames(repo.index.names);
  }

  /** A collector pass then claims the block. */
  method PutThenClaim(n: Name, a: Bytes, b: Bytes, digest: R.Digest, now: int) returns (repo: R.Repository, k: Key)
    requires R.Injective(digest) && b != [] && |a + b| < U64_LIMIT
    ensures fresh(repo) && fresh(repo.index) && fresh(repo.content)
    ensures repo.index.names == map[] && AllDead(repo.index.objects) && Dying(repo, a, k)
  {
    repo, k := PutThenUnbind(n, a, b, digest, now);
    ghost var s := repo.Snapshot();
    assert ObjectInv(s, repo.content.chunk, None, Cid(a)) && BlockInv(s, repo.leaked, k);
    NoNamesNoEdges(s, repo.content.chunk, repo.leaked, None, k);
    forall c | c in repo.index.objects ensures repo.index.objects[c].available && repo.index.objects[c].refcount == 0 {
      assert !repo.Claimed(c) && ObjectInv(s, repo.content.chunk, None, c) && Refs(s.names, c) == {};
    }
    assert TwoChunks(a, b)(a)[0].hash == Cid(a);
    var ok := repo.index.ClaimBlock(k);
    assert ok;
  }

  /** The block half of a put: the available generation, or the next one, written and minted. */
  method Take(repo: R.Repository, bytes: Bytes, now: int) returns (k: Key)
    modifies repo.index`blocks, repo.content`files
    ensures k.hash == Cid(bytes) && Available(repo.index.blocks, k)
    ensures forall b | b in old(repo.index.blocks) :: b in repo.index.blocks &&
              if old(repo.index.blocks)[b].available then repo.index.blocks[b].available
              else repo.index.blocks[b] == old(repo.index.blocks)[b]
  {
    var g := repo.index.ReserveBlock(Cid(bytes), now);
    if g.Some? {
      return Key(Cid(bytes), g.value);
    }
    var next := repo.index.NextGeneration(Cid(bytes));
    k := Key(Cid(bytes), next);
    repo.content.WriteBlock(k, bytes);
    var minted := repo.index.MintBlock(k, now);
    assert minted;
  }

  /** A put of content that shares the claimed block. */
  method PutBeside(repo: R.Repository, m: Name, a: Bytes, b: Bytes, now: int, ghost k: Key)
    requires a != b && b != [] && |a + b| < U64_LIMIT && repo.index.names == map[]
    requires AllDead(repo.index.objects) && Dying(repo, a, k)
    modifies repo.index, repo.content
    ensures repo.index.names == map[m := [Cid(a + b)]] && Dying(repo, a, k)
    ensures R.HasAvailable(repo.index.blocks, Cid(a))
  {
    var first := Take(repo, a, now);
    var second := Take(repo, b, now);
    assert Available(repo.index.blocks, first);
    var prevRc := repo.index.ReserveObject(Cid(a + b), true, now);
    var manifest := Manifest(|a + b|, [BlockRef(Cid(a), first.generation, |a|), BlockRef(Cid(b), second.generation, |b|)]);
    repo.content.WriteObject(Cid(a + b), manifest);
    repo.index.Bind(m, Cid(a + b), [first, second], prevRc.value);
    assert History(map[], m) + [Cid(a + b)] == [Cid(a + b)];
  }

  /** The pass carries out its claim. */
  method FinishClaim(repo: R.Repository, k: Key)
    requires k in repo.index.blocks && !repo.index.blocks[k].available && repo.index.blocks[k].refcount == 0
    modifies repo.index`blocks, repo.content`files
    ensures k !in repo.content.files && repo.index.blocks == old(repo.index.blocks) - {k}
  {
    repo.content.RemoveBlock(k);
    repo.index.DeleteBlock(k);
  }

  /** An alias whose object has one block, which has an available generation. */
  method Alias(repo: R.Repository, n: Name, c: Cid, now: int) returns (ok: bool)
    requires c in repo.content.manifests && |repo.content.manifests[c].blocks| == 1
    requires R.HasAvailable(repo.index.blocks, repo.content.manifests[c].blocks[0].hash)
    requires c in repo.index.objects && repo.index.objects[c].available
    modifies repo.index
    ensures ok && Current(repo.index.names, n) == Some(c)
  {
    var listed := repo.content.Blocks(c);
    var g := repo.index.ReserveBlock(listed.value[0], now);
    var prevRc := repo.index.ReserveObject(c, false, now);
    ok := repo.content.Has(c);
    repo.index.Bind(n, c, [Key(listed.value[0], g.value)], prevRc.value);
  }

  /** The object of `a` dies and its block is claimed; content that shares the block mints it
      anew; the claim is carried out. An alias of `a` then succeeds, and reads as corrupt. No
      two calls overlap, and nothing fails or dies. */
  method AliasReadsCorrupt(n: Name, m: Name, a: Bytes, b: Bytes, digest: R.Digest, now: int)
    returns (repo: R.Repository, aliased: bool, read: Result<Bytes>)
    requires R.Injective(digest) && a != b && b != [] && |a + b| < U64_LIMIT
    ensures aliased && Current(repo.index.names, n) == Some(Cid(a)) && read == Err(Corrupt)
  {
    var k;
    repo, k := PutThenClaim(n, a, b, digest, now);
    PutBeside(repo, m, a, b, now, k);
    ghost var shared :| shared in repo.index.blocks && shared.hash == Cid(a) && repo.index.blocks[shared].available;
    FinishClaim(repo, k);
    assert shared in repo.index.blocks;
    aliased := Alias(repo, n, Cid(a), now);
    read := repo.content.Get(Cid(a));
    OneMissing(repo.content.files, repo.content.manifests[Cid(a)].blocks);
  }

  lemma OneMissing(files: Files, blocks: seq<BlockRef>)
    requires |blocks| == 1 && Block(blocks[0]) !in files
    ensures Contents(files, blocks) == None
  {
  }
}

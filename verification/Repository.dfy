// The named object store: a content store composed with a name index. Calls run one
// after another here; a call may fail at a write or at an index call, except one that gives
// a reservation back, or its process may die once it has reserved its object.
module Repository {
  import opened Prelude
  import opened Versions
  import opened FileStore
  import opened StoreModel
  import Index

  /** Where a call is made to fail, if anywhere. A failed write may or may not have left its
      file behind: the directory sync comes after the rename. A failed index call has had no
      effect, but the mint of a block comes after its file. */
  datatype Fault =
    | NoFault
    | BlockWrite(hash: Cid, written: bool)
    | BlockCall(hash: Cid, written: bool)
    | ObjectCall
    | AfterReserve
    | ManifestWrite(written: bool)
    | BeforeBind
    | Commit
  {
    predicate OnBlock() { BlockWrite? || BlockCall? }
  }

  const MAX_RESERVE_ATTEMPTS := 128

  // ---- The reference model: names to content histories -------------------

  type Histories = map<Name, seq<Bytes>>

  function Preimages(cids: seq<Cid>): seq<Bytes> {
    seq(|cids|, i requires 0 <= i < |cids| => cids[i].preimage)
  }

  function Decode(names: Versions): Histories {
    map n | n in names :: Preimages(names[n])
  }

  /** Binding the current content again adds no version. */
  function Extended(h: Histories, n: Name, content: Bytes): Histories {
    if n !in h then h[n := [content]]
    else if h[n] != [] && h[n][|h[n]| - 1] == content then h
    else h[n := h[n] + [content]]
  }

  lemma DecodeExtends(names: Versions, n: Name, c: Cid)
    requires NamesInv(names)
    ensures Decode(if Current(names, n) == Some(c) then names else Append(names, n, c))
         == Extended(Decode(names), n, c.preimage)
  {
    if n in names {
      assert Preimages(names[n] + [c]) == Preimages(names[n]) + [c.preimage];
      assert Preimages(names[n])[|names[n]| - 1] == names[n][|names[n]| - 1].preimage;
    } else {
      assert Preimages([] + [c]) == [c.preimage];
    }
  }

  // ---- Where a call's blocks were placed ---------------------------------

  function Hashes(chunks: seq<Chunk>): set<Cid> {
    set c | c in chunks :: c.hash
  }

  lemma HashesAdd(chunks: seq<Chunk>, i: nat)
    requires i < |chunks|
    ensures Hashes(chunks[..i + 1]) == Hashes(chunks[..i]) + {chunks[i].hash}
  {
    assert chunks[..i + 1] == chunks[..i] + [chunks[i]];
  }

  predicate HasAvailable(blocks: Blocks, h: Cid) {
    exists b | b in blocks :: b.hash == h && blocks[b].available
  }

  /** Reserving or materialising block `h` fails: the index call does, or there is a file to
      write and the write does. */
  predicate FailsAt(blocks: Blocks, fault: Fault, h: Cid) {
    fault.OnBlock() && fault.hash == h && (fault.BlockCall? || !HasAvailable(blocks, h))
  }

  /** The chunks before the first one named `h`. */
  function Before(chunks: seq<Chunk>, h: Cid): seq<Chunk> {
    if chunks == [] || chunks[0].hash == h then [] else [chunks[0]] + Before(chunks[1..], h)
  }

  lemma {:induction false} BeforeIs(chunks: seq<Chunk>, i: nat, h: Cid)
    requires i < |chunks| && chunks[i].hash == h && h !in Hashes(chunks[..i])
    ensures Before(chunks, h) == chunks[..i]
    decreases i
  {
    if i > 0 {
      assert chunks[..i][0] in chunks[..i] && chunks[0].hash in Hashes(chunks[..i]);
      assert chunks[1..][..i - 1] == chunks[1..i] == chunks[..i][1..];
      forall x | x in chunks[1..][..i - 1] ensures x in chunks[..i] {
        var k :| 0 <= k < i - 1 && chunks[1..][k] == x;
        assert chunks[..i][k + 1] == x;
      }
      BeforeIs(chunks[1..], i - 1, h);
    }
  }

  /** Reserving the blocks of a put stops short. */
  predicate Stops(blocks: Blocks, chunks: seq<Chunk>, fault: Fault) {
    fault.OnBlock() && fault.hash in Hashes(chunks) && FailsAt(blocks, fault, fault.hash)
  }

  /** The blocks whose reservations a put never gives back. */
  function LostHashes(blocks: Blocks, chunks: seq<Chunk>, fault: Fault): set<Cid> {
    if Stops(blocks, chunks, fault) then Hashes(Before(chunks, fault.hash))
    else if fault.ObjectCall? then Hashes(chunks)
    else {}
  }

  /** A put leaks if and only if a block past its first fails, or its object call fails after
      it has reserved a block. */
  lemma LeaksIff(blocks: Blocks, chunks: seq<Chunk>, fault: Fault)
    ensures LostHashes(blocks, chunks, fault) != {} <==>
              chunks != [] && (if Stops(blocks, chunks, fault) then chunks[0].hash != fault.hash else fault.ObjectCall?)
  {
    var before := Before(chunks, if fault.OnBlock() then fault.hash else Cid([]));
    if chunks != [] { assert chunks[0].hash in Hashes(chunks); }
    if before != [] { assert before[0].hash in Hashes(before); }
  }

  /** `keys` reserves each of `hashes` once, on an available generation. */
  ghost predicate Reserves(blocks: Blocks, keys: seq<Key>, hashes: set<Cid>) {
    && (forall k | k in keys :: k.hash in hashes && Available(blocks, k))
    && (forall h | h in hashes :: exists k | k in keys :: k.hash == h)
    && (forall i, j | 0 <= i < j < |keys| :: keys[i].hash != keys[j].hash)
  }

  /** The rows of `keys` were last touched at `now`. */
  predicate Touched(blocks: Blocks, keys: seq<Key>, now: int) {
    forall k | k in keys :: k in blocks && blocks[k].touchedAt == now
  }

  /** Every row is still there, last touched when it was. */
  predicate SameTouches(blocks: Blocks, blocks': Blocks) {
    forall b | b in blocks :: b in blocks' && blocks'[b].touchedAt == blocks[b].touchedAt
  }

  predicate TouchedOrSame(blocks: Blocks, blocks': Blocks, now: int) {
    forall b | b in blocks :: b in blocks' && (blocks'[b] == blocks[b] || blocks'[b].touchedAt == now)
  }

  /** `reserved` holds an available generation of each of the first hashes, touched at `now`. */
  ghost predicate Follows(blocks: Blocks, hashes: seq<Cid>, reserved: seq<Key>, now: int) {
    |reserved| <= |hashes| && forall j | 0 <= j < |reserved| ::
      reserved[j].hash == hashes[j] && Available(blocks, reserved[j]) && blocks[reserved[j]].touchedAt == now
  }

  lemma FollowsAdd(blocks: Blocks, blocks': Blocks, hashes: seq<Cid>, reserved: seq<Key>, b: Key, now: int)
    requires Follows(blocks, hashes, reserved, now) && TouchedOrSame(blocks, blocks', now)
    requires |reserved| < |hashes| && b.hash == hashes[|reserved|] && Available(blocks', b) && blocks'[b].touchedAt == now
    requires forall k | Available(blocks, k) :: Available(blocks', k)
    ensures Follows(blocks', hashes, reserved + [b], now)
  {
  }

  lemma {:induction false} ReleasedKeepsTouches(blocks: Blocks, keys: seq<Key>)
    ensures SameTouches(blocks, Released(blocks, keys))
    decreases |keys|
  {
    if keys != [] { ReleasedKeepsTouches(blocks, keys[..|keys| - 1]); }
  }

  lemma StillTouched(blocks: Blocks, blocks': Blocks, keys: seq<Key>, hashes: set<Cid>, now: int)
    requires Reserves(blocks, keys, hashes) && Touched(blocks, keys, now) && SameTouches(blocks, blocks')
    ensures forall h | h in hashes :: exists b | b in blocks' :: b.hash == h && blocks'[b].touchedAt == now
  {
    forall h | h in hashes ensures exists b | b in blocks' :: b.hash == h && blocks'[b].touchedAt == now {
      var k :| k in keys && k.hash == h;
      assert k in blocks';
    }
  }

  lemma LosesNothing(blocks: Blocks, keys: seq<Key>, hashes: set<Cid>)
    requires Reserves(blocks, keys, hashes)
    ensures keys == [] <==> hashes == {}
  {
    if keys != [] { assert keys[0] in keys; }
  }

  lemma PlacedReserves(blocks: Blocks, generations: map<Cid, nat>, reserved: seq<Key>)
    requires Placed(blocks, generations, reserved)
    ensures Reserves(blocks, reserved, generations.Keys)
  {
    forall h | h in generations ensures exists k | k in reserved :: k.hash == h {
      assert Key(h, generations[h]) in reserved;
    }
  }

  /** `reserved` lists the placements in `generations`, each once and on an available row. */
  ghost predicate Placed(blocks: Blocks, generations: map<Cid, nat>, reserved: seq<Key>) {
    && (forall k | k in reserved ::
          k.hash in generations && generations[k.hash] == k.generation && Available(blocks, k))
    && (forall h | h in generations :: Key(h, generations[h]) in reserved)
    && (forall i, j | 0 <= i < j < |reserved| :: reserved[i].hash != reserved[j].hash)
  }

  lemma PlacedAdd(blocks: Blocks, blocks': Blocks, generations: map<Cid, nat>, reserved: seq<Key>, k: Key)
    requires Placed(blocks, generations, reserved) && k.hash !in generations && Available(blocks', k)
    requires forall b | Available(blocks, b) :: Available(blocks', b)
    ensures Placed(blocks', generations[k.hash := k.generation], reserved + [k])
  {
  }

  /** The manifest a put writes: its chunks, at the generations they were placed on. */
  function ManifestOf(bytes: Bytes, chunks: seq<Chunk>, generations: map<Cid, nat>): Manifest
    requires |bytes| < U64_LIMIT && IsPartition(chunks, bytes) && Hashes(chunks) <= generations.Keys
  {
    Manifest(|bytes|, seq(|chunks|, i requires 0 <= i < |chunks| =>
      assert chunks[i].hash in Hashes(chunks) && IsPiece(chunks, bytes, i);
      BlockRef(chunks[i].hash, generations[chunks[i].hash], chunks[i].len)))
  }

  lemma ManifestOfFits(blocks: Blocks, chunk: Chunker, bytes: Bytes, generations: map<Cid, nat>, reserved: seq<Key>)
    requires Partitions(chunk) && |bytes| < U64_LIMIT
    requires Placed(blocks, generations, reserved) && generations.Keys == Hashes(chunk(bytes))
    ensures ManifestInv(blocks, chunk, Cid(bytes), ManifestOf(bytes, chunk(bytes), generations))
    ensures Covers(reserved, ManifestOf(bytes, chunk(bytes), generations))
  {
    var chunks, m := chunk(bytes), ManifestOf(bytes, chunk(bytes), generations);
    forall i | 0 <= i < |chunks| ensures Block(m.blocks[i]) in reserved && Available(blocks, Block(m.blocks[i])) {
      assert chunks[i].hash in generations;
    }
    forall k | k in reserved ensures exists i | 0 <= i < |m.blocks| :: Block(m.blocks[i]) == k {
      assert k.hash in Hashes(chunks);
      var c :| c in chunks && c.hash == k.hash;
      var i :| 0 <= i < |chunks| && chunks[i] == c;
      assert Block(m.blocks[i]) == k;
    }
  }

  // ---- What an alias reserves --------------------------------------------

  /** The number a content hash spells; distinct contents have distinct hashes here. */
  type Digest = Cid -> nat

  ghost predicate Injective(digest: Digest) {
    forall a, b {:trigger digest(a), digest(b)} :: digest(a) == digest(b) ==> a == b
  }

  predicate Ascending(digest: Digest, hashes: seq<Cid>) {
    forall i, j | 0 <= i < j < |hashes| :: digest(hashes[i]) < digest(hashes[j])
  }

  /** Where `h` belongs in `r`: everything before it is smaller, and nothing after it is. */
  method Position(digest: Digest, r: seq<Cid>, h: Cid) returns (k: nat)
    requires Ascending(digest, r)
    ensures k <= |r|
    ensures forall i | 0 <= i < k :: digest(r[i]) < digest(h)
    ensures forall i | k <= i < |r| :: digest(h) <= digest(r[i])
  {
    k := 0;
    while k < |r| && digest(r[k]) < digest(h)
      invariant k <= |r| && forall i | 0 <= i < k :: digest(r[i]) < digest(h)
    {
      k := k + 1;
    }
    if k < |r| {
      forall i | k <= i < |r| ensures digest(h) <= digest(r[i]) { assert digest(r[k]) <= digest(r[i]); }
    }
  }

  lemma InsertAscends(digest: Digest, r: seq<Cid>, h: Cid, k: nat)
    requires Ascending(digest, r) && k <= |r| && h !in r && Injective(digest)
    requires forall i | 0 <= i < k :: digest(r[i]) < digest(h)
    requires forall i | k <= i < |r| :: digest(h) <= digest(r[i])
    ensures Ascending(digest, r[..k] + [h] + r[k..])
  {
    var s := r[..k] + [h] + r[k..];
    forall i | k <= i < |r| ensures digest(h) < digest(r[i]) { assert r[i] in r && digest(r[i]) != digest(h); }
    forall i, j | 0 <= i < j < |s| ensures digest(s[i]) < digest(s[j]) {
      assert s[i] == if i < k then r[i] else if i == k then h else r[i - 1];
      assert s[j] == if j < k then r[j] else if j == k then h else r[j - 1];
    }
  }

  lemma InsertAdds(r: seq<Cid>, h: Cid, k: nat, x: Cid)
    requires k <= |r|
    ensures x in r[..k] + [h] + r[k..] <==> x in r || x == h
  {
    assert r == r[..k] + r[k..];
  }

  /** The distinct hashes of a block list, in ascending order. */
  method Dedup(digest: Digest, hashes: seq<Cid>) returns (r: seq<Cid>)
    requires Injective(digest)
    ensures forall h :: h in r <==> h in hashes
    ensures Ascending(digest, r)
    ensures forall i, j | 0 <= i < j < |r| :: r[i] != r[j]
  {
    r := [];
    for i := 0 to |hashes|
      invariant forall h :: h in r <==> h in hashes[..i]
      invariant Ascending(digest, r)
    {
      assert hashes[..i + 1] == hashes[..i] + [hashes[i]];
      if hashes[i] !in r {
        var k := Position(digest, r, hashes[i]);
        InsertAscends(digest, r, hashes[i], k);
        forall x ensures x in r[..k] + [hashes[i]] + r[k..] <==> x in r || x == hashes[i] {
          InsertAdds(r, hashes[i], k, x);
        }
        r := r[..k] + [hashes[i]] + r[k..];
      }
    }
  }

  /** What comes before an element of an ascending sequence is what is smaller. */
  lemma AscendingPrefix(digest: Digest, hashes: seq<Cid>, i: nat, h: Cid)
    requires Ascending(digest, hashes) && i < |hashes|
    ensures h in hashes[..i] <==> h in hashes && digest(h) < digest(hashes[i])
  {
    if h in hashes {
      var j :| 0 <= j < |hashes| && hashes[j] == h;
      if j < i { assert hashes[..i][j] == h; }
      if i < j { assert digest(hashes[i]) < digest(hashes[j]); }
    }
  }

  predicate Lists(m: Manifest, h: Cid) {
    exists i | 0 <= i < |m.blocks| :: m.blocks[i].hash == h
  }

  /** Reserving each listed hash on its one available generation reserves exactly the
      generations the manifest lists. */
  lemma CoversListed(blocks: Blocks, chunk: Chunker, c: Cid, m: Manifest, hashes: seq<Cid>, reserved: seq<Key>)
    requires ManifestInv(blocks, chunk, c, m) && OneAvailable(blocks)
    requires forall h :: h in hashes <==> Lists(m, h)
    requires forall i, j | 0 <= i < j < |hashes| :: hashes[i] != hashes[j]
    requires |reserved| == |hashes|
    requires forall i | 0 <= i < |hashes| :: reserved[i].hash == hashes[i] && Available(blocks, reserved[i])
    ensures Covers(reserved, m)
  {
    forall i | 0 <= i < |m.blocks| ensures Block(m.blocks[i]) in reserved {
      assert Lists(m, m.blocks[i].hash);
      var k :| 0 <= k < |hashes| && hashes[k] == m.blocks[i].hash;
      assert Available(blocks, Block(m.blocks[i])) && Available(blocks, reserved[k]);
    }
    forall k | k in reserved ensures exists i | 0 <= i < |m.blocks| :: Block(m.blocks[i]) == k {
      assert k.hash in hashes && Lists(m, k.hash);
      var i :| 0 <= i < |m.blocks| && m.blocks[i].hash == k.hash;
      assert Available(blocks, Block(m.blocks[i])) && Available(blocks, k);
    }
  }

  function ListedHashes(m: Manifest): set<Cid> {
    set r | r in m.blocks :: r.hash
  }

  /** Reserving the blocks of an alias stops short. */
  predicate StopsAlias(m: Manifest, fault: Fault) {
    fault.BlockCall? && Lists(m, fault.hash)
  }

  /** The blocks whose reservations an alias never gives back: those whose hash is smaller than
      the failing one, or all of them. */
  function LostByAlias(digest: Digest, m: Manifest, fault: Fault): set<Cid> {
    if StopsAlias(m, fault) then set h | h in ListedHashes(m) && digest(h) < digest(fault.hash)
    else if fault.ObjectCall? then ListedHashes(m)
    else {}
  }

  /** An alias leaks if and only if the call on a block fails and it is not its object's
      smallest, or the call on its object fails and it has a block. */
  lemma AliasLeaksIff(digest: Digest, m: Manifest, fault: Fault)
    ensures LostByAlias(digest, m, fault) != {} <==>
              if StopsAlias(m, fault) then exists h | Lists(m, h) :: digest(h) < digest(fault.hash)
              else fault.ObjectCall? && m.blocks != []
  {
    forall h ensures h in ListedHashes(m) <==> Lists(m, h) { ListedIs(m, h); }
    if m.blocks != [] { assert m.blocks[0] in m.blocks && m.blocks[0].hash in ListedHashes(m); }
    if StopsAlias(m, fault) {
      if h :| Lists(m, h) && digest(h) < digest(fault.hash) { assert h in LostByAlias(digest, m, fault); }
    }
  }

  lemma ListedIs(m: Manifest, h: Cid)
    ensures h in ListedHashes(m) <==> Lists(m, h)
  {
    if Lists(m, h) {
      var i :| 0 <= i < |m.blocks| && m.blocks[i].hash == h;
      assert m.blocks[i] in m.blocks;
    }
  }

  /** The hashes before the failing one, reserved in order, are the ones an alias loses. */
  lemma PartIsLost(blocks: Blocks, digest: Digest, m: Manifest, fault: Fault, hashes: seq<Cid>, i: nat, reserved: seq<Key>)
    requires i < |hashes| && |reserved| == i && Ascending(digest, hashes)
    requires forall h :: h in hashes <==> Lists(m, h)
    requires StopsAlias(m, fault) && fault.hash == hashes[i]
    requires forall j | 0 <= j < i :: reserved[j].hash == hashes[j] && Available(blocks, reserved[j])
    ensures Reserves(blocks, reserved, LostByAlias(digest, m, fault))
  {
    var lost := LostByAlias(digest, m, fault);
    forall h ensures h in lost <==> h in hashes[..i] {
      ListedIs(m, h);
      AscendingPrefix(digest, hashes, i, h);
    }
    forall k | k in reserved ensures k.hash in lost && Available(blocks, k) {
      var j :| 0 <= j < i && reserved[j] == k;
      assert hashes[..i][j] == k.hash;
    }
    forall h | h in lost ensures exists k | k in reserved :: k.hash == h {
      var j :| 0 <= j < i && hashes[..i][j] == h;
      assert reserved[j] in reserved;
    }
  }

  /** Every listed hash is reserved when the keys cover the manifest. */
  lemma CoversReserves(blocks: Blocks, chunk: Chunker, c: Cid, m: Manifest, keys: seq<Key>)
    requires Covers(keys, m) && ManifestInv(blocks, chunk, c, m)
    ensures Reserves(blocks, keys, ListedHashes(m))
  {
    forall k | k in keys ensures k.hash in ListedHashes(m) && Available(blocks, k) {
      var i :| 0 <= i < |m.blocks| && Block(m.blocks[i]) == k;
      assert m.blocks[i] in m.blocks;
    }
    forall h | h in ListedHashes(m) ensures exists k | k in keys :: k.hash == h {
      var r :| r in m.blocks && r.hash == h;
      var i :| 0 <= i < |m.blocks| && m.blocks[i] == r;
      assert Block(m.blocks[i]) in keys;
    }
  }

  lemma AliasLoses(blocks: Blocks, digest: Digest, chunk: Chunker, c: Cid, m: Manifest, fault: Fault, reserved: seq<Key>)
    requires ManifestInv(blocks, chunk, c, m) && (StopsAlias(m, fault) || fault.ObjectCall?)
    requires if StopsAlias(m, fault) then Reserves(blocks, reserved, LostByAlias(digest, m, fault)) else Covers(reserved, m)
    ensures Reserves(blocks, reserved, LostByAlias(digest, m, fault))
    ensures multiset(reserved) == multiset{} <==> LostByAlias(digest, m, fault) == {}
  {
    if !StopsAlias(m, fault) { CoversReserves(blocks, chunk, c, m, reserved); }
    LosesNothing(blocks, reserved, LostByAlias(digest, m, fault));
    if reserved != [] { assert reserved[0] in multiset(reserved); }
  }

  /** Every generation `m` lists was last touched at `now`. */
  ghost predicate ListedTouched(blocks: Blocks, m: Manifest, now: int) {
    forall i | 0 <= i < |m.blocks| :: Block(m.blocks[i]) in blocks && blocks[Block(m.blocks[i])].touchedAt == now
  }

  lemma CoveredIsTouched(blocks: Blocks, blocks': Blocks, m: Manifest, keys: seq<Key>, now: int)
    requires Covers(keys, m) && Touched(blocks, keys, now) && SameTouches(blocks, blocks')
    ensures ListedTouched(blocks', m, now)
  {
  }

  lemma ListedAvailable(blocks: Blocks, chunk: Chunker, c: Cid, m: Manifest, h: Cid)
    requires ManifestInv(blocks, chunk, c, m) && Lists(m, h)
    ensures HasAvailable(blocks, h)
  {
    var j :| 0 <= j < |m.blocks| && m.blocks[j].hash == h;
    assert Available(blocks, Block(m.blocks[j]));
  }

  lemma UnbindIgnoresFiles(s: Store, n: Name)
    ensures Unbound(s.(files := map[], manifests := map[]), n) == Unbound(s, n).(files := map[], manifests := map[])
  {
  }

  lemma NoneAvailable(blocks: Blocks, h: Cid)
    requires !HasAvailable(blocks, h)
    ensures forall b | b in blocks && b.hash == h :: !blocks[b].available
  {
  }

  lemma SameAvailable(a: Blocks, b: Blocks, h: Cid)
    requires forall k: Key | k.hash == h :: Available(a, k) <==> Available(b, k)
    ensures HasAvailable(a, h) <==> HasAvailable(b, h)
  {
    if k :| k in a && k.hash == h && a[k].available { assert Available(a, k); }
    if k :| k in b && k.hash == h && b[k].available { assert Available(b, k); }
  }

  class Repository {
    const content: FilesystemStore
    const index: Index.SqliteNameIndex
    const digest: Digest
    /** Block reservations a failed call never gave back. */
    ghost var leaked: multiset<Key>

    ghost function Snapshot(): Store
      reads index, content
    {
      Store(index.names, index.objects, index.blocks, index.edges, content.files, content.manifests)
    }

    ghost predicate Valid()
      reads this, index, content
    {
      Partitions(content.chunk) && Injective(digest) && AtRest(Snapshot(), content.chunk, leaked)
    }

    /** Every name's content history, oldest first. */
    ghost function Contents(): Histories
      reads index
    {
      Decode(index.names)
    }

    predicate Claimed(c: Cid)
      reads index
    {
      c in index.objects && !index.objects[c].available
    }

    constructor (chunk: Chunker, digest: Digest)
      requires Partitions(chunk) && Injective(digest)
      ensures Valid() && Contents() == map[] && leaked == multiset{}
      ensures content.manifests == map[] && index.objects == map[] && index.names == map[] && index.blocks == map[]
      ensures fresh(content) && fresh(index) && content.chunk == chunk && this.digest == digest
    {
      this.digest := digest;
      content := new FilesystemStore(chunk);
      index := new Index.SqliteNameIndex();
      leaked := multiset{};
      new;
      forall c ensures ObjectInv(Snapshot(), chunk, None, c) {
        assert Refs(Snapshot().names, c) == {};
      }
    }

    // ---- Writing ---------------------------------------------------------

    /** Reserves block `h` on its available generation, if it has one. */
    method ReserveAvailable(h: Cid, now: int) returns (r: Option<nat>)
      requires InFlight(Snapshot(), content.chunk, leaked, None)
      modifies index`blocks, this`leaked
      ensures InFlight(Snapshot(), content.chunk, leaked, None)
      ensures forall b :: Available(index.blocks, b) <==> Available(old(index.blocks), b)
      ensures r.Some? <==> HasAvailable(old(index.blocks), h)
      ensures r.Some? ==> Available(index.blocks, Key(h, r.value)) && leaked == old(leaked) + multiset{Key(h, r.value)}
      ensures r.Some? ==> index.blocks[Key(h, r.value)].touchedAt == now
      ensures forall b: Key | b.hash != h && b in old(index.blocks) ::
                b in index.blocks && index.blocks[b] == old(index.blocks)[b]
      ensures TouchedOrSame(old(index.blocks), index.blocks, now)
      ensures r.None? ==> leaked == old(leaked) && index.blocks == old(index.blocks)
    {
      ghost var s := Snapshot();
      r := index.ReserveBlock(h, now);
      if r.Some? {
        var b := Key(h, r.value);
        ReserveBlockKeeps(s, Snapshot(), content.chunk, leaked, None, b, now);
        leaked := leaked + multiset{b};
      }
    }

    /** Reserves block `h` on its available generation, or writes a fresh one. */
    method ReserveOrMaterialize(h: Cid, bytes: Bytes, now: int, fault: Fault) returns (r: Result<nat>)
      requires InFlight(Snapshot(), content.chunk, leaked, None) && h == Cid(bytes)
      modifies index`blocks, content`files, this`leaked
      ensures InFlight(Snapshot(), content.chunk, leaked, None)
      ensures forall b | Available(old(index.blocks), b) :: Available(index.blocks, b)
      ensures forall b: Key | b.hash != h :: Available(index.blocks, b) <==> Available(old(index.blocks), b)
      ensures r == Err(Io) <==> FailsAt(old(index.blocks), fault, h)
      ensures r.Ok? ==> Available(index.blocks, Key(h, r.value)) && leaked == old(leaked) + multiset{Key(h, r.value)}
      ensures r.Ok? ==> index.blocks[Key(h, r.value)].touchedAt == now
      ensures forall b: Key | b.hash != h && b in old(index.blocks) ::
                b in index.blocks && index.blocks[b] == old(index.blocks)[b]
      ensures r.Err? ==> r == Err(Io) && leaked == old(leaked)
    {
      if fault.BlockCall? && fault.hash == h && HasAvailable(index.blocks, h) {
        return Err(Io);
      }
      var reserved := ReserveAvailable(h, now);
      if reserved.Some? {
        return Ok(reserved.value);
      }
      NoneAvailable(index.blocks, h);
      r := Materialize(h, bytes, now, fault);
    }

    /** Writes the file of a fresh generation, then its row. Nothing else runs in between here,
        so the mint is never refused and one round is enough. */
    method Materialize(h: Cid, bytes: Bytes, now: int, fault: Fault) returns (r: Result<nat>)
      requires InFlight(Snapshot(), content.chunk, leaked, None) && h == Cid(bytes)
      requires forall b | b in index.blocks && b.hash == h :: !index.blocks[b].available
      modifies index`blocks, content`files, this`leaked
      ensures InFlight(Snapshot(), content.chunk, leaked, None)
      ensures forall b | Available(old(index.blocks), b) :: Available(index.blocks, b)
      ensures forall b: Key | b.hash != h :: Available(index.blocks, b) <==> Available(old(index.blocks), b)
      ensures r == Err(Io) <==> fault.OnBlock() && fault.hash == h
      ensures r.Ok? ==> Available(index.blocks, Key(h, r.value)) && leaked == old(leaked) + multiset{Key(h, r.value)}
      ensures r.Ok? ==> index.blocks[Key(h, r.value)].touchedAt == now
      ensures forall b: Key | b.hash != h && b in old(index.blocks) ::
                b in index.blocks && index.blocks[b] == old(index.blocks)[b]
      ensures r.Err? ==> r == Err(Io) && leaked == old(leaked)
    {
      ghost var s := Snapshot();
      var g := index.NextGeneration(h);
      var b := Key(h, g);
      if fault.OnBlock() && fault.hash == h {
        WriteFails(b, bytes, fault.written);
        return Err(Io);
      }
      content.WriteBlock(b, bytes);
      var minted := index.MintBlock(b, now);
      assert minted;
      MintBlockKeeps(s, Snapshot(), content.chunk, leaked, None, b, now);
      leaked := leaked + multiset{b};
      r := Ok(g);
    }

    /** A block that fails on the way to its row, with or without its file in place. */
    method WriteFails(b: Key, bytes: Bytes, written: bool)
      requires InFlight(Snapshot(), content.chunk, leaked, None) && b.hash == Cid(bytes)
      modifies content`files
      ensures InFlight(Snapshot(), content.chunk, leaked, None)
    {
      ghost var s := Snapshot();
      if written {
        content.WriteBlock(b, bytes);
      }
      OrphanFileKeeps(s, Snapshot(), content.chunk, leaked, None);
    }

    /** Reserves one more block, unless an equal chunk came before it. */
    method ReserveChunk(hash: Cid, bytes: Bytes, now: int, fault: Fault,
                        generations: map<Cid, nat>, reserved: seq<Key>, ghost base: multiset<Key>)
      returns (ok: bool, generations': map<Cid, nat>, reserved': seq<Key>)
      requires InFlight(Snapshot(), content.chunk, leaked, None) && hash == Cid(bytes)
      requires Placed(index.blocks, generations, reserved) && leaked == base + multiset(reserved)
      requires Touched(index.blocks, reserved, now)
      modifies index`blocks, content`files, this`leaked
      ensures InFlight(Snapshot(), content.chunk, leaked, None)
      ensures leaked == base + multiset(reserved') && Placed(index.blocks, generations', reserved')
      ensures Touched(index.blocks, reserved', now)
      ensures ok <==> hash in generations || !FailsAt(old(index.blocks), fault, hash)
      ensures generations'.Keys == if ok then generations.Keys + {hash} else generations.Keys
      ensures forall b: Key | b.hash != hash :: Available(index.blocks, b) <==> Available(old(index.blocks), b)
    {
      if hash in generations {
        return true, generations, reserved;
      }
      ghost var before := index.blocks;
      var r := ReserveOrMaterialize(hash, bytes, now, fault);
      if r.Err? {
        return false, generations, reserved;
      }
      PlacedAdd(before, index.blocks, generations, reserved, Key(hash, r.value));
      return true, generations[hash := r.value], reserved + [Key(hash, r.value)];
    }

    /** Reserves every distinct block of `bytes`. On failure the reservations made so far are
        not given back: those of the chunks before the failing one. */
    method ReserveChunks(bytes: Bytes, chunks: seq<Chunk>, now: int, fault: Fault)
      returns (ok: bool, generations: map<Cid, nat>, reserved: seq<Key>)
      requires InFlight(Snapshot(), content.chunk, leaked, None) && IsPartition(chunks, bytes)
      modifies index`blocks, content`files, this`leaked
      ensures InFlight(Snapshot(), content.chunk, leaked, None)
      ensures leaked == old(leaked) + multiset(reserved) && Placed(index.blocks, generations, reserved)
      ensures Touched(index.blocks, reserved, now)
      ensures ok <==> !Stops(old(index.blocks), chunks, fault)
      ensures generations.Keys == Hashes(if ok then chunks else Before(chunks, fault.hash))
    {
      generations, reserved, ok := map[], [], true;
      ghost var blocks := index.blocks;
      for i := 0 to |chunks|
        invariant InFlight(Snapshot(), content.chunk, leaked, None)
        invariant leaked == old(leaked) + multiset(reserved)
        invariant ok && Placed(index.blocks, generations, reserved) && Touched(index.blocks, reserved, now)
        invariant generations.Keys == Hashes(chunks[..i]) && !Stops(blocks, chunks[..i], fault)
        invariant forall b: Key | b.hash !in generations :: Available(index.blocks, b) <==> Available(blocks, b)
      {
        HashesAdd(chunks, i);
        assert IsPiece(chunks, bytes, i);
        if chunks[i].hash !in generations { SameAvailable(blocks, index.blocks, chunks[i].hash); }
        var piece := bytes[chunks[i].offset..chunks[i].offset + chunks[i].len];
        ok, generations, reserved := ReserveChunk(chunks[i].hash, piece, now, fault, generations, reserved, old(leaked));
        if !ok {
          BeforeIs(chunks, i, fault.hash);
          assert chunks[i].hash in Hashes(chunks);
          return;
        }
      }
      assert chunks[..|chunks|] == chunks;
    }

    /** Gives back the reservations of a call that goes no further. */
    method ReleaseReservations(reserved: seq<Key>, ghost leak: multiset<Key>)
      requires InFlight(Snapshot(), content.chunk, leak + multiset(reserved), None)
      modifies index`blocks
      ensures InFlight(Snapshot(), content.chunk, leak, None)
      ensures Snapshot() == old(Snapshot()).(blocks := index.blocks) && SameTouches(old(index.blocks), index.blocks)
    {
      ghost var s := Snapshot();
      assert reserved[..0] == [];
      for i := 0 to |reserved|
        modifies index`blocks
        invariant Snapshot() == s.(blocks := Released(s.blocks, reserved[..i]))
      {
        assert reserved[..i + 1][..i] == reserved[..i];
        index.ReleaseBlock(reserved[i]);
      }
      assert reserved[..|reserved|] == reserved;
      ReleasedKeepsTouches(s.blocks, reserved);
      ReleaseAllKeeps(s, Snapshot(), content.chunk, reserved, leak, None);
    }

    /** Undoes an object reserve and the block reservations that came before it. */
    method Abandon(c: Cid, reserved: seq<Key>, ghost leak: multiset<Key>)
      requires InFlight(Snapshot(), content.chunk, leak + multiset(reserved), Some(c))
      modifies index`blocks, index`objects
      ensures InFlight(Snapshot(), content.chunk, leak, None)
      ensures Snapshot() == old(Snapshot()).(blocks := index.blocks, objects := index.objects)
      ensures SameTouches(old(index.blocks), index.blocks)
      ensures forall d | Claimed(d) :: old(Claimed(d))
    {
      ghost var s := Snapshot();
      index.ReleaseObject(c);
      ReleaseObjectKeeps(s, Snapshot(), content.chunk, leak + multiset(reserved), c);
      ReleaseReservations(reserved, leak);
    }

    /** Reserves the object before its manifest is written. A claimed object is refused; with
        nothing else running it stays claimed, so the retries are used up. */
    method ReserveForPut(c: Cid, now: int) returns (r: Option<int>, ghost tries: nat)
      requires InFlight(Snapshot(), content.chunk, leaked, None)
      modifies index`objects
      ensures r.None? <==> old(Claimed(c))
      ensures tries == if r.None? then 128 else 1
      ensures r.None? ==> Snapshot() == old(Snapshot())
      ensures r.Some? ==>
                && InFlight(Snapshot(), content.chunk, leaked, Some(c))
                && Snapshot() == old(Snapshot()).(objects := index.objects)
                && r.value == |Refs(index.names, c)|
                && c in index.objects && index.objects[c].touchedAt == now
                && forall d | Claimed(d) :: old(Claimed(d))
    {
      ghost var s := Snapshot();
      assert ObjectInv(s, content.chunk, None, c);
      var attempt := 0;
      tries := 0;
      while true
        invariant Snapshot() == s && (attempt > 0 ==> Claimed(c))
        invariant attempt < MAX_RESERVE_ATTEMPTS && tries == attempt
        decreases MAX_RESERVE_ATTEMPTS - attempt
      {
        r := index.ReserveObject(c, true, now);
        tries := tries + 1;
        if r.Some? {
          ReserveObjectKeeps(s, Snapshot(), content.chunk, leaked, c, now);
          return;
        }
        attempt := attempt + 1;
        if attempt >= MAX_RESERVE_ATTEMPTS {
          return;
        }
      }
    }

    /** Writes the manifest of a reserved object and binds the name, or fails on the way. */
    method WriteAndBind(name: Name, bytes: Bytes, generations: map<Cid, nat>, reserved: seq<Key>,
                        prevRc: int, fault: Fault, ghost leak: multiset<Key>) returns (r: Result<Cid>)
      requires !fault.ObjectCall?
      requires InFlight(Snapshot(), content.chunk, leak + multiset(reserved), Some(Cid(bytes)))
      requires Partitions(content.chunk) && |bytes| < U64_LIMIT && prevRc == |Refs(index.names, Cid(bytes))|
      requires Placed(index.blocks, generations, reserved) && generations.Keys == Hashes(content.chunk(bytes))
      modifies index, content`manifests
      ensures AtRest(Snapshot(), content.chunk, leak)
      ensures r == if fault.NoFault? || fault.OnBlock() then Ok(Cid(bytes)) else Err(Io)
      ensures SameTouches(old(index.blocks), index.blocks)
      ensures r.Ok? && Cid(bytes) in old(index.objects) ==>
                Cid(bytes) in index.objects && index.objects[Cid(bytes)].touchedAt == old(index.objects)[Cid(bytes)].touchedAt
      ensures content.manifests.Keys <= old(content.manifests).Keys + {Cid(bytes)}
      ensures forall d | Claimed(d) :: old(Claimed(d))
      ensures index.names ==
              if r.Err? || Current(old(index.names), name) == Some(Cid(bytes)) then old(index.names)
              else Append(old(index.names), name, Cid(bytes))
    {
      var cid := Cid(bytes);
      if fault.AfterReserve? {
        Abandon(cid, reserved, leak);
        return Err(Io);
      }
      ghost var s := Snapshot();
      ManifestOfFits(index.blocks, content.chunk, bytes, generations, reserved);
      var m := ManifestOf(bytes, content.chunk(bytes), generations);
      if !fault.ManifestWrite? || fault.written {
        content.WriteObject(cid, m);
        WriteManifestKeeps(s, Snapshot(), content.chunk, leak + multiset(reserved), cid, m);
      }
      if fault.ManifestWrite? || fault.BeforeBind? || fault.Commit? {
        Abandon(cid, reserved, leak);
        return Err(Io);
      }
      BindKeeps(Snapshot(), content.chunk, leak, reserved, name, cid, prevRc);
      ReleasedKeepsTouches(index.blocks, reserved);
      index.Bind(name, cid, reserved, prevRc);
      r := Ok(cid);
    }

    /** The rest of a put whose blocks are all reserved. */
    method PutReserved(name: Name, bytes: Bytes, generations: map<Cid, nat>, reserved: seq<Key>, now: int,
                       fault: Fault, ghost leak: multiset<Key>) returns (r: Result<Cid>)
      requires InFlight(Snapshot(), content.chunk, leaked, None) && leaked == leak + multiset(reserved)
      requires Partitions(content.chunk) && |bytes| < U64_LIMIT && !fault.ObjectCall?
      requires Placed(index.blocks, generations, reserved) && generations.Keys == Hashes(content.chunk(bytes))
      modifies index, content`manifests, this`leaked
      ensures AtRest(Snapshot(), content.chunk, leak) && leaked == leak
      ensures r == if old(Claimed(Cid(bytes))) then Err(Conflict)
                   else if fault.NoFault? || fault.OnBlock() then Ok(Cid(bytes)) else Err(Io)
      ensures Contents() == if r.Ok? then Extended(old(Contents()), name, bytes) else old(Contents())
      ensures SameTouches(old(index.blocks), index.blocks)
      ensures r.Ok? ==> Cid(bytes) in index.objects && index.objects[Cid(bytes)].touchedAt == now
      ensures content.manifests.Keys <= old(content.manifests).Keys + {Cid(bytes)}
      ensures forall c | Claimed(c) :: old(Claimed(c))
    {
      var prevRc, _ := ReserveForPut(Cid(bytes), now);
      if prevRc.None? {
        ReleaseReservations(reserved, leak);
        leaked := leak;
        return Err(Conflict);
      }
      DecodeExtends(index.names, name, Cid(bytes));
      r := WriteAndBind(name, bytes, generations, reserved, prevRc.value, fault, leak);
      leaked := leak;
    }

    /** Stores `bytes` and binds `name` to it. `lost` are the reservations it never gives back. */
    method Put(name: Name, bytes: Bytes, now: int, fault: Fault) returns (r: Result<Cid>, ghost lost: seq<Key>)
      requires Valid() && |bytes| < U64_LIMIT
      modifies this, index, content
      ensures Valid()
      ensures r == if Stops(old(index.blocks), content.chunk(bytes), fault) || fault.ObjectCall? then Err(Io)
                   else if old(Claimed(Cid(bytes))) then Err(Conflict)
                   else if fault.NoFault? || fault.OnBlock() then Ok(Cid(bytes)) else Err(Io)
      ensures Contents() == if r.Ok? then Extended(old(Contents()), name, bytes) else old(Contents())
      ensures leaked == old(leaked) + multiset(lost)
      ensures Reserves(index.blocks, lost, LostHashes(old(index.blocks), content.chunk(bytes), fault))
      ensures leaked == old(leaked) <==> LostHashes(old(index.blocks), content.chunk(bytes), fault) == {}
      ensures Touched(index.blocks, lost, now)
      ensures r.Ok? ==> Cid(bytes) in index.objects && index.objects[Cid(bytes)].touchedAt == now
      ensures r.Ok? ==> forall h | h in Hashes(content.chunk(bytes)) ::
                exists b | b in index.blocks :: b.hash == h && index.blocks[b].touchedAt == now
      ensures content.manifests.Keys <= old(content.manifests).Keys + {Cid(bytes)}
      ensures forall c | Claimed(c) :: old(Claimed(c))
    {
      lost := [];
      var ok, generations, reserved := ReserveChunks(bytes, content.chunk(bytes), now, fault);
      if !ok || fault.ObjectCall? {
        lost := reserved;
        PlacedReserves(index.blocks, generations, reserved);
        LosesNothing(index.blocks, lost, generations.Keys);
        return Err(Io), lost;
      }
      PlacedReserves(index.blocks, generations, reserved);
      ghost var placed := index.blocks;
      r := PutReserved(name, bytes, generations, reserved, now, fault, old(leaked));
      StillTouched(placed, index.blocks, reserved, generations.Keys, now);
    }

    // ---- Aliasing --------------------------------------------------------

    /** Reserves the one available generation of every block `cid` lists, or stops at a failing
        call with the reservations of the smaller hashes. */
    method ReserveListed(cid: Cid, listed: seq<Cid>, now: int, fault: Fault) returns (ok: bool, reserved: seq<Key>)
      requires Valid() && cid in content.manifests
      requires forall h :: h in listed <==> Lists(content.manifests[cid], h)
      modifies index`blocks, this`leaked
      ensures InFlight(Snapshot(), content.chunk, leaked, None) && leaked == old(leaked) + multiset(reserved)
      ensures ok <==> !StopsAlias(content.manifests[cid], fault)
      ensures Touched(index.blocks, reserved, now)
      ensures ok ==> Covers(reserved, content.manifests[cid])
      ensures !ok ==> Reserves(index.blocks, reserved, LostByAlias(digest, content.manifests[cid], fault))
    {
      var hashes := Dedup(digest, listed);
      reserved := ReserveUpTo(cid, hashes, now, fault);
      ok := |reserved| == |hashes|;
      if ok {
        assert hashes[..|hashes|] == hashes;
        assert ObjectInv(Snapshot(), content.chunk, None, cid);
        CoversListed(index.blocks, content.chunk, cid, content.manifests[cid], hashes, reserved);
      } else {
        assert hashes[|reserved|] in hashes;
        PartIsLost(index.blocks, digest, content.manifests[cid], fault, hashes, |reserved|, reserved);
      }
    }

    /** Reserves the listed hashes in order, up to the failing one. */
    method ReserveUpTo(cid: Cid, hashes: seq<Cid>, now: int, fault: Fault) returns (reserved: seq<Key>)
      requires Valid() && cid in content.manifests
      requires forall h | h in hashes :: Lists(content.manifests[cid], h)
      modifies index`blocks, this`leaked
      ensures InFlight(Snapshot(), content.chunk, leaked, None) && leaked == old(leaked) + multiset(reserved)
      ensures Follows(index.blocks, hashes, reserved, now)
      ensures fault.BlockCall? ==> fault.hash !in hashes[..|reserved|]
      ensures |reserved| < |hashes| ==> fault.BlockCall? && fault.hash == hashes[|reserved|]
    {
      reserved := [];
      for i := 0 to |hashes|
        invariant InFlight(Snapshot(), content.chunk, leaked, None) && leaked == old(leaked) + multiset(reserved)
        invariant |reserved| == i && Follows(index.blocks, hashes, reserved, now)
        invariant fault.BlockCall? ==> fault.hash !in hashes[..i]
      {
        assert hashes[i] in hashes;
        if fault.BlockCall? && fault.hash == hashes[i] {
          return;
        }
        ghost var before := index.blocks;
        var b := ReserveListedBlock(cid, hashes[i], now);
        FollowsAdd(before, index.blocks, hashes, reserved, b, now);
        reserved := reserved + [b];
      }
    }

    /** A listed block always has an available generation while its manifest is present. */
    method ReserveListedBlock(cid: Cid, hash: Cid, now: int) returns (b: Key)
      requires InFlight(Snapshot(), content.chunk, leaked, None) && cid in content.manifests
      requires Lists(content.manifests[cid], hash)
      modifies index`blocks, this`leaked
      ensures InFlight(Snapshot(), content.chunk, leaked, None) && leaked == old(leaked) + multiset{b}
      ensures b.hash == hash && Available(index.blocks, b)
      ensures forall k | Available(old(index.blocks), k) :: Available(index.blocks, k)
      ensures index.blocks[b].touchedAt == now && TouchedOrSame(old(index.blocks), index.blocks, now)
    {
      assert ObjectInv(Snapshot(), content.chunk, None, cid);
      ListedAvailable(index.blocks, content.chunk, cid, content.manifests[cid], hash);
      var g := ReserveAvailable(hash, now);
      b := Key(hash, g.value);
    }

    /** The end of an alias that has reserved everything: see the manifest again, bind. */
    method AliasHeld(name: Name, cid: Cid, reserved: seq<Key>, prevRc: int, fault: Fault, ghost leak: multiset<Key>)
      returns (r: Result<()>)
      requires InFlight(Snapshot(), content.chunk, leak + multiset(reserved), Some(cid))
      requires cid in content.manifests && Covers(reserved, content.manifests[cid]) && prevRc == |Refs(index.names, cid)|
      modifies index
      ensures AtRest(Snapshot(), content.chunk, leak)
      ensures r == if fault.Commit? || fault.BeforeBind? then Err(Io) else Ok(())
      ensures SameTouches(old(index.blocks), index.blocks)
      ensures r.Ok? && cid in old(index.objects) ==>
                cid in index.objects && index.objects[cid].touchedAt == old(index.objects)[cid].touchedAt
      ensures index.names ==
              if r.Err? || Current(old(index.names), name) == Some(cid) then old(index.names)
              else Append(old(index.names), name, cid)
      ensures forall d | Claimed(d) :: old(Claimed(d))
    {
      // With nothing else running, the manifest is still there.
      var present := content.Has(cid);
      assert present;
      if fault.Commit? || fault.BeforeBind? {
        Abandon(cid, reserved, leak);
        return Err(Io);
      }
      BindKeeps(Snapshot(), content.chunk, leak, reserved, name, cid, prevRc);
      ReleasedKeepsTouches(index.blocks, reserved);
      index.Bind(name, cid, reserved, prevRc);
      r := Ok(());
    }

    /** The object half of an alias. */
    method AliasReserved(name: Name, cid: Cid, reserved: seq<Key>, now: int, fault: Fault, ghost leak: multiset<Key>)
      returns (r: Result<()>)
      requires InFlight(Snapshot(), content.chunk, leak + multiset(reserved), None)
      requires cid in content.manifests && Covers(reserved, content.manifests[cid])
      modifies index
      ensures AtRest(Snapshot(), content.chunk, leak)
      ensures r == if old(Claimed(cid)) then Err(Conflict)
                   else if fault.Commit? || fault.BeforeBind? then Err(Io) else Ok(())
      ensures SameTouches(old(index.blocks), index.blocks)
      ensures r.Ok? ==> cid in index.objects && index.objects[cid].touchedAt == now
      ensures index.names ==
              if r.Err? || Current(old(index.names), name) == Some(cid) then old(index.names)
              else Append(old(index.names), name, cid)
      ensures forall d | Claimed(d) :: old(Claimed(d))
    {
      ghost var s := Snapshot();
      assert ObjectInv(s, content.chunk, None, cid);
      var prevRc := index.ReserveObject(cid, false, now);
      if prevRc.None? {
        ReleaseReservations(reserved, leak);
        return Err(Conflict);
      }
      ReserveObjectKeeps(s, Snapshot(), content.chunk, leak + multiset(reserved), cid, now);
      r := AliasHeld(name, cid, reserved, prevRc.value, fault, leak);
    }

    /** Reserves the blocks of an alias. `lost` are the reservations it never gives back, if a
        block call or the object call fails. */
    method ReserveAlias(cid: Cid, listed: seq<Cid>, now: int, fault: Fault)
      returns (ok: bool, reserved: seq<Key>, ghost lost: seq<Key>)
      requires Valid() && cid in content.manifests
      requires forall h :: h in listed <==> Lists(content.manifests[cid], h)
      modifies index`blocks, this`leaked
      ensures InFlight(Snapshot(), content.chunk, leaked, None) && leaked == old(leaked) + multiset(reserved)
      ensures ok <==> !StopsAlias(content.manifests[cid], fault) && !fault.ObjectCall?
      ensures ok ==> Covers(reserved, content.manifests[cid]) && lost == []
      ensures Touched(index.blocks, reserved, now)
      ensures !ok ==> lost == reserved
      ensures Reserves(index.blocks, lost, LostByAlias(digest, content.manifests[cid], fault))
      ensures multiset(lost) == multiset{} <==> LostByAlias(digest, content.manifests[cid], fault) == {}
      ensures fault.ObjectCall? ==> Covers(lost, content.manifests[cid])
    {
      ok, reserved := ReserveListed(cid, listed, now, fault);
      lost := [];
      if !ok || fault.ObjectCall? {
        assert ObjectInv(Snapshot(), content.chunk, None, cid);
        AliasLoses(index.blocks, digest, content.chunk, cid, content.manifests[cid], fault, reserved);
        return false, reserved, reserved;
      }
    }

    /** The rest of an alias whose blocks are all reserved. */
    method FinishAlias(name: Name, cid: Cid, reserved: seq<Key>, now: int, fault: Fault, ghost leak: multiset<Key>)
      returns (r: Result<()>)
      requires InFlight(Snapshot(), content.chunk, leaked, None) && leaked == leak + multiset(reserved)
      requires cid in content.manifests && Covers(reserved, content.manifests[cid]) && Touched(index.blocks, reserved, now)
      modifies this`leaked, index
      ensures AtRest(Snapshot(), content.chunk, leak) && leaked == leak
      ensures r == if old(Claimed(cid)) then Err(Conflict)
                   else if fault.Commit? || fault.BeforeBind? then Err(Io) else Ok(())
      ensures Contents() == if r.Ok? then Extended(old(Contents()), name, cid.preimage) else old(Contents())
      ensures r.Ok? ==> cid in index.objects && index.objects[cid].touchedAt == now
      ensures r.Ok? ==> ListedTouched(index.blocks, content.manifests[cid], now)
      ensures forall d | Claimed(d) :: old(Claimed(d))
    {
      DecodeExtends(index.names, name, cid);
      ghost var held := index.blocks;
      r := AliasReserved(name, cid, reserved, now, fault, leak);
      leaked := leak;
      CoveredIsTouched(held, index.blocks, content.manifests[cid], reserved, now);
    }

    /** Binds `name` to an object that is already stored. `lost` are the reservations it never
        gives back. */
    method Bind(name: Name, cid: Cid, now: int, fault: Fault) returns (r: Result<()>, ghost lost: seq<Key>)
      requires Valid()
      modifies this, index
      ensures Valid() && leaked == old(leaked) + multiset(lost)
      ensures r == if cid !in content.manifests then Err(NotFound(cid))
                   else if StopsAlias(content.manifests[cid], fault) || fault.ObjectCall? then Err(Io)
                   else if old(Claimed(cid)) then Err(Conflict)
                   else if fault.Commit? || fault.BeforeBind? then Err(Io)
                   else Ok(())
      ensures Contents() == if r.Ok? then Extended(old(Contents()), name, cid.preimage) else old(Contents())
      ensures cid !in content.manifests ==> lost == []
      ensures cid in content.manifests ==>
                && Reserves(index.blocks, lost, LostByAlias(digest, content.manifests[cid], fault))
                && (leaked == old(leaked) <==> LostByAlias(digest, content.manifests[cid], fault) == {})
                && (fault.ObjectCall? ==> Covers(lost, content.manifests[cid]))
      ensures Touched(index.blocks, lost, now)
      ensures r.Ok? ==> cid in index.objects && index.objects[cid].touchedAt == now
      ensures r.Ok? ==> ListedTouched(index.blocks, content.manifests[cid], now)
      ensures forall d | Claimed(d) :: old(Claimed(d))
    {
      lost := [];
      var listed := content.Blocks(cid);
      if listed.Err? {
        return Err(listed.error), [];
      }
      forall h ensures h in listed.value <==> Lists(content.manifests[cid], h) {}
      var ok, reserved;
      ok, reserved, lost := ReserveAlias(cid, listed.value, now, fault);
      if !ok {
        return Err(Io), lost;
      }
      r := FinishAlias(name, cid, reserved, now, fault, old(leaked));
    }

    // ---- A process that dies in the middle -------------------------------------

    /** A put that stops for good once it has reserved its object, with or without the manifest
        written. A claimed object is never reserved. */
    method CrashPut(bytes: Bytes, now: int, written: bool) returns (ghost held: Option<Cid>)
      requires Valid() && |bytes| < U64_LIMIT
      modifies this, index, content
      ensures InFlight(Snapshot(), content.chunk, leaked, held) && index.names == old(index.names)
      ensures held == if old(Claimed(Cid(bytes))) then None else Some(Cid(bytes))
      ensures held.Some? ==> Cid(bytes) in index.objects && index.objects[Cid(bytes)].touchedAt == now
      ensures held.Some? && written ==> Cid(bytes) in content.manifests
      ensures content.manifests.Keys <= old(content.manifests).Keys + {Cid(bytes)}
      ensures forall d | Claimed(d) :: old(Claimed(d))
    {
      var _, generations, reserved := ReserveChunks(bytes, content.chunk(bytes), now, NoFault);
      var prevRc, _ := ReserveForPut(Cid(bytes), now);
      if prevRc.None? {
        return None;
      }
      held := Some(Cid(bytes));
      if written {
        ghost var s := Snapshot();
        ManifestOfFits(index.blocks, content.chunk, bytes, generations, reserved);
        var m := ManifestOf(bytes, content.chunk(bytes), generations);
        content.WriteObject(Cid(bytes), m);
        WriteManifestKeeps(s, Snapshot(), content.chunk, leaked, Cid(bytes), m);
      }
    }

    /** An alias that stops for good once it has reserved its object. */
    method CrashBind(cid: Cid, now: int) returns (ghost held: Option<Cid>)
      requires Valid()
      modifies this, index
      ensures InFlight(Snapshot(), content.chunk, leaked, held) && index.names == old(index.names)
      ensures held == if cid in content.manifests && !old(Claimed(cid)) then Some(cid) else None
      ensures held.Some? ==> cid in index.objects && index.objects[cid].touchedAt == now
      ensures forall d | Claimed(d) :: old(Claimed(d))
    {
      var listed := content.Blocks(cid);
      if listed.Err? {
        return None;
      }
      forall h ensures h in listed.value <==> Lists(content.manifests[cid], h) {}
      var _, reserved := ReserveListed(cid, listed.value, now, NoFault);
      ghost var s := Snapshot();
      assert ObjectInv(s, content.chunk, None, cid);
      var prevRc := index.ReserveObject(cid, false, now);
      if prevRc.None? {
        return None;
      }
      ReserveObjectKeeps(s, Snapshot(), content.chunk, leaked, cid, now);
      held := Some(cid);
    }

    // ---- Unbinding and reading -------------------------------------------

    method Unbind(name: Name)
      requires Valid()
      modifies index
      ensures Valid() && Contents() == old(Contents()) - {name}
      ensures forall d | Claimed(d) :: old(Claimed(d))
    {
      ghost var s := Snapshot();
      forall i | 0 <= i < |History(index.names, name)| ensures History(index.names, name)[i] in index.objects {
        var c := History(index.names, name)[i];
        RefsMember(index.names, Version(name, i), c);
        assert ObjectInv(s, content.chunk, None, c);
      }
      UnbindKeeps(s, content.chunk, leaked, name);
      var ok := index.Unbind(name);
      assert ok;
      UnbindIgnoresFiles(s, name);
      assert Snapshot() == Unbound(s, name);
    }

    method Get(name: Name) returns (r: Result<Bytes>)
      requires Valid()
      ensures r == if name in Contents() then Ok(Contents()[name][|Contents()[name]| - 1]) else Err(NameNotFound)
    {
      var cid := index.Resolve(name);
      if cid.None? {
        return Err(NameNotFound);
      }
      NamedIsStored(name);
      r := content.Get(cid.value);
    }

    method GetRange(name: Name, offset: u64, len: u64) returns (r: Result<Bytes>)
      requires Valid()
      ensures r == if name in Contents() then Ok(Slice(Contents()[name][|Contents()[name]| - 1], offset, len))
                   else Err(NameNotFound)
    {
      var cid := index.Resolve(name);
      if cid.None? {
        return Err(NameNotFound);
      }
      NamedIsStored(name);
      r := content.GetRange(cid.value, offset, len);
    }

    /** The current object of a name has its manifest and reads back to its content. */
    lemma NamedIsStored(name: Name)
      requires Valid() && name in index.names
      ensures
        var c := index.names[name][|index.names[name]| - 1];
        && c in content.manifests && WellFormed(content.files, content.manifests[c])
        && FileStore.Contents(content.files, content.manifests[c].blocks) == Some(c.preimage)
        && Contents()[name][|Contents()[name]| - 1] == c.preimage
    {
      var c := index.names[name][|index.names[name]| - 1];
      CurrentIsReferred(index.names, name, c);
      assert ObjectInv(Snapshot(), content.chunk, None, c);
      ManifestReads(Snapshot(), content.chunk, leaked, None, c);
    }
  }
}

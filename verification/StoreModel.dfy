// The whole store as one value: the index tables beside the files they describe, the
// invariant that ties them together, and what each index operation does to it.
module StoreModel {
  import opened Prelude
  import opened Versions
  import opened FileStore

  datatype ObjectRow = ObjectRow(refcount: int, available: bool, touchedAt: int)

  datatype BlockRow = BlockRow(refcount: int, available: bool, touchedAt: int)

  /** The key of an object_blocks row; the row holds the generation it pins. */
  datatype Edge = Edge(owner: Cid, block: Cid)

  type Objects = map<Cid, ObjectRow>

  type Blocks = map<Key, BlockRow>

  type Edges = map<Edge, nat>

  datatype Store = Store(
    names: Versions,
    objects: Objects,
    blocks: Blocks,
    edges: Edges,
    files: Files,
    manifests: map<Cid, Manifest>)

  // ---- Reading the tables ------------------------------------------------

  predicate Available(blocks: Blocks, b: Key) {
    b in blocks && blocks[b].available
  }

  ghost predicate OneAvailable(blocks: Blocks) {
    forall b, b' {:trigger Available(blocks, b), Available(blocks, b')} ::
      Available(blocks, b) && Available(blocks, b') && b.hash == b'.hash ==> b == b'
  }

  /** The edges that pin block generation `b`. */
  function EdgesTo(edges: Edges, b: Key): set<Edge> {
    set e | e in edges && e.block == b.hash && edges[e] == b.generation
  }

  predicate NoEdges(edges: Edges, c: Cid) {
    forall e | e in edges :: e.owner != c
  }

  /** The edges of `c` are exactly the blocks its manifest lists, at those generations. */
  ghost predicate EdgesMatch(edges: Edges, c: Cid, m: Manifest) {
    && (forall i | 0 <= i < |m.blocks| ::
          Edge(c, m.blocks[i].hash) in edges && edges[Edge(c, m.blocks[i].hash)] == m.blocks[i].generation)
    && (forall e | e in edges && e.owner == c :: exists i | 0 <= i < |m.blocks| :: m.blocks[i].hash == e.block)
  }

  /** `m` records the chunks of `c`'s content, each on an available generation. */
  ghost predicate ManifestInv(blocks: Blocks, chunk: Chunker, c: Cid, m: Manifest) {
    var chunks := chunk(c.preimage);
    && m.size == |c.preimage|
    && |m.blocks| == |chunks|
    && forall i | 0 <= i < |chunks| ::
         m.blocks[i].hash == chunks[i].hash && m.blocks[i].len == chunks[i].len && Available(blocks, Block(m.blocks[i]))
  }

  ghost predicate FilesMatch(files: Files) {
    forall b | b in files :: Cid(files[b]) == b.hash
  }

  function DeadObjects(objects: Objects): set<Cid> {
    set c | c in objects && objects[c].refcount == 0
  }

  function DeadBlocks(blocks: Blocks): set<Key> {
    set b | b in blocks && blocks[b].refcount == 0
  }

  // ---- The invariant -----------------------------------------------------

  function One(b: bool): int {
    if b then 1 else 0
  }

  /** Block generation `b`, when `leak` counts the reservations that no edge stands for: the
      call in progress holds them, or a failed call never gave them back. */
  ghost predicate BlockInv(s: Store, leak: multiset<Key>, b: Key) {
    if b in s.blocks then
      && s.blocks[b].refcount == |EdgesTo(s.edges, b)| + leak[b]
      && (if s.blocks[b].available then b in s.files else s.blocks[b].refcount == 0)
    else
      EdgesTo(s.edges, b) == {} && leak[b] == 0
  }

  /** Object `c`, when the call in progress has reserved the object `held`. */
  ghost predicate ObjectInv(s: Store, chunk: Chunker, held: Option<Cid>, c: Cid) {
    && (if c in s.objects then
          && s.objects[c].refcount == |Refs(s.names, c)| + One(held == Some(c))
          && (!s.objects[c].available ==> s.objects[c].refcount == 0)
        else
          |Refs(s.names, c)| == 0 && held != Some(c) && c !in s.manifests)
    && (c in s.manifests ==> ManifestInv(s.blocks, chunk, c, s.manifests[c]))
    && (if |Refs(s.names, c)| > 0 then
          c in s.manifests && EdgesMatch(s.edges, c, s.manifests[c])
        else
          NoEdges(s.edges, c))
  }

  ghost predicate NamesInv(names: Versions) {
    forall n | n in names :: names[n] != []
  }

  /** What holds between the steps of one call that has reserved the object `held`. */
  ghost predicate InFlight(s: Store, chunk: Chunker, leak: multiset<Key>, held: Option<Cid>) {
    && (forall b :: BlockInv(s, leak, b))
    && (forall c :: ObjectInv(s, chunk, held, c))
    && OneAvailable(s.blocks)
    && FilesMatch(s.files)
    && NamesInv(s.names)
  }

  /** What holds between calls. With nothing leaked, every count is exact. */
  ghost predicate AtRest(s: Store, chunk: Chunker, leak: multiset<Key>) {
    InFlight(s, chunk, leak, None)
  }

  // ---- Table updates -----------------------------------------------------

  function AddBlock(blocks: Blocks, b: Key, d: int): Blocks {
    if b in blocks then blocks[b := blocks[b].(refcount := blocks[b].refcount + d)] else blocks
  }

  function AddObject(objects: Objects, c: Cid, d: int): Objects {
    if c in objects then objects[c := objects[c].(refcount := objects[c].refcount + d)] else objects
  }

  /** Every reservation in `keys` given back, in order. */
  function Released(blocks: Blocks, keys: seq<Key>): Blocks {
    if keys == [] then blocks
    else AddBlock(Released(blocks, keys[..|keys| - 1]), keys[|keys| - 1], -1)
  }

  /** The edges after inserting one per key for object `c`; an existing row wins. */
  function WithEdges(edges: Edges, c: Cid, keys: seq<Key>): Edges {
    if keys == [] then edges
    else
      var rest := WithEdges(edges, c, keys[..|keys| - 1]);
      var e := Edge(c, keys[|keys| - 1].hash);
      if e in rest then rest else rest[e := keys[|keys| - 1].generation]
  }

  // ---- Reservations on blocks --------------------------------------------

  /** Neither object facts nor manifests notice a change that keeps every available
      generation available. */
  lemma ObjectsKept(s: Store, s': Store, chunk: Chunker, held: Option<Cid>)
    requires forall c :: ObjectInv(s, chunk, held, c)
    requires s' == s.(blocks := s'.blocks, files := s'.files)
    requires forall b | Available(s.blocks, b) :: Available(s'.blocks, b)
    ensures forall c :: ObjectInv(s', chunk, held, c)
  {
    forall c ensures ObjectInv(s', chunk, held, c) {
      assert ObjectInv(s, chunk, held, c);
    }
  }

  lemma ReserveBlockKeeps(s: Store, s': Store, chunk: Chunker, leak: multiset<Key>, held: Option<Cid>, b: Key,
                          now: int)
    requires InFlight(s, chunk, leak, held)
    requires Available(s.blocks, b)
    requires s' == s.(blocks := s.blocks[b := BlockRow(s.blocks[b].refcount + 1, true, now)])
    ensures InFlight(s', chunk, leak + multiset{b}, held)
  {
    forall k ensures BlockInv(s', leak + multiset{b}, k) { assert BlockInv(s, leak, k); }
    forall k ensures Available(s'.blocks, k) <==> Available(s.blocks, k) {}
    ObjectsKept(s, s', chunk, held);
  }

  lemma MintBlockKeeps(s: Store, s': Store, chunk: Chunker, leak: multiset<Key>, held: Option<Cid>, b: Key,
                       now: int)
    requires InFlight(s, chunk, leak, held)
    requires b !in s.blocks && forall k | k in s.blocks && k.hash == b.hash :: !s.blocks[k].available
    requires s' == s.(blocks := s.blocks[b := BlockRow(1, true, now)], files := s'.files)
    requires s'.files == if b in s.files then s.files else s.files[b := b.hash.preimage]
    ensures InFlight(s', chunk, leak + multiset{b}, held)
  {
    forall k ensures BlockInv(s', leak + multiset{b}, k) { assert BlockInv(s, leak, k); }
    forall k ensures Available(s'.blocks, k) <==> Available(s.blocks, k) || k == b {}
    ObjectsKept(s, s', chunk, held);
  }

  /** A file written ahead of its row changes nothing the index speaks of. */
  lemma OrphanFileKeeps(s: Store, s': Store, chunk: Chunker, leak: multiset<Key>, held: Option<Cid>)
    requires InFlight(s, chunk, leak, held)
    requires s' == s.(files := s'.files)
    requires forall b | b in s.files :: b in s'.files && s'.files[b] == s.files[b]
    requires FilesMatch(s'.files)
    ensures InFlight(s', chunk, leak, held)
  {
    forall k ensures BlockInv(s', leak, k) { assert BlockInv(s, leak, k); }
    ObjectsKept(s, s', chunk, held);
  }

  lemma ReleaseBlockKeeps(s: Store, s': Store, chunk: Chunker, leak: multiset<Key>, held: Option<Cid>, b: Key)
    requires InFlight(s, chunk, leak, held)
    requires b in leak && s' == s.(blocks := AddBlock(s.blocks, b, -1))
    ensures InFlight(s', chunk, leak - multiset{b}, held)
  {
    assert BlockInv(s, leak, b);
    forall k ensures BlockInv(s', leak - multiset{b}, k) { assert BlockInv(s, leak, k); }
    forall k ensures Available(s'.blocks, k) <==> Available(s.blocks, k) {}
    ObjectsKept(s, s', chunk, held);
  }

  lemma {:induction false} ReleaseAllKeeps(s: Store, s': Store, chunk: Chunker, keys: seq<Key>,
                                           leak: multiset<Key>, held: Option<Cid>)
    requires InFlight(s, chunk, leak + multiset(keys), held)
    requires s' == s.(blocks := Released(s.blocks, keys))
    ensures InFlight(s', chunk, leak, held)
    decreases |keys|
  {
    if keys == [] {
      assert s' == s && leak + multiset(keys) == leak;
    } else {
      var front, last := keys[..|keys| - 1], keys[|keys| - 1];
      assert keys == front + [last];
      assert leak + multiset(keys) == leak + multiset{last} + multiset(front);
      var mid := s.(blocks := Released(s.blocks, front));
      ReleaseAllKeeps(s, mid, chunk, front, leak + multiset{last}, held);
      ReleaseBlockKeeps(mid, s', chunk, leak + multiset{last}, held, last);
      assert leak + multiset{last} - multiset{last} == leak;
    }
  }

  // ---- Reservations on objects, and the manifest -------------------------

  lemma ReserveObjectKeeps(s: Store, s': Store, chunk: Chunker, leak: multiset<Key>, c: Cid, now: int)
    requires InFlight(s, chunk, leak, None)
    requires c in s.objects ==> s.objects[c].available
    requires s' == s.(objects := s.objects[c :=
               ObjectRow((if c in s.objects then s.objects[c].refcount else 0) + 1, true, now)])
    ensures InFlight(s', chunk, leak, Some(c))
  {
    forall b ensures BlockInv(s', leak, b) { assert BlockInv(s, leak, b); }
    forall d ensures ObjectInv(s', chunk, Some(c), d) { assert ObjectInv(s, chunk, None, d); }
  }

  lemma ReleaseObjectKeeps(s: Store, s': Store, chunk: Chunker, leak: multiset<Key>, c: Cid)
    requires InFlight(s, chunk, leak, Some(c))
    requires s' == s.(objects := AddObject(s.objects, c, -1))
    ensures InFlight(s', chunk, leak, None)
  {
    assert ObjectInv(s, chunk, Some(c), c);
    forall b ensures BlockInv(s', leak, b) { assert BlockInv(s, leak, b); }
    forall d ensures ObjectInv(s', chunk, None, d) { assert ObjectInv(s, chunk, Some(c), d); }
  }

  /** Two manifests of one content that both list available generations are the same: each
      hash has only one such generation. */
  lemma ManifestUnique(blocks: Blocks, chunk: Chunker, c: Cid, m: Manifest, m': Manifest)
    requires ManifestInv(blocks, chunk, c, m) && ManifestInv(blocks, chunk, c, m')
    requires OneAvailable(blocks)
    ensures m == m'
  {
    forall i | 0 <= i < |m.blocks| ensures m.blocks[i] == m'.blocks[i] {
      assert Available(blocks, Block(m.blocks[i])) && Available(blocks, Block(m'.blocks[i]));
    }
    assert m.blocks == m'.blocks;
  }

  lemma WriteManifestKeeps(s: Store, s': Store, chunk: Chunker, leak: multiset<Key>, c: Cid, m: Manifest)
    requires InFlight(s, chunk, leak, Some(c))
    requires ManifestInv(s.blocks, chunk, c, m)
    requires s' == s.(manifests := s.manifests[c := m])
    ensures InFlight(s', chunk, leak, Some(c))
  {
    assert ObjectInv(s, chunk, Some(c), c);
    if c in s.manifests {
      ManifestUnique(s.blocks, chunk, c, m, s.manifests[c]);
      assert s'.manifests == s.manifests;
    } else {
      forall b ensures BlockInv(s', leak, b) { assert BlockInv(s, leak, b); }
      forall d ensures ObjectInv(s', chunk, Some(c), d) { assert ObjectInv(s, chunk, Some(c), d); }
    }
  }

  // ---- Bind --------------------------------------------------------------

  /** The reservations a call holds are exactly the blocks of `c`'s manifest. */
  ghost predicate Covers(keys: seq<Key>, m: Manifest) {
    && (forall i | 0 <= i < |m.blocks| :: Block(m.blocks[i]) in keys)
    && (forall k | k in keys :: exists i | 0 <= i < |m.blocks| :: Block(m.blocks[i]) == k)
    && (forall i, j | 0 <= i < j < |keys| :: keys[i].hash != keys[j].hash)
  }

  /** An edge that is there is left as it is. */
  lemma {:induction false} ExistingEdgeWins(edges: Edges, c: Cid, keys: seq<Key>, e: Edge)
    requires e in edges
    ensures e in WithEdges(edges, c, keys) && WithEdges(edges, c, keys)[e] == edges[e]
    decreases |keys|
  {
    if keys != [] { ExistingEdgeWins(edges, c, keys[..|keys| - 1], e); }
  }

  lemma {:induction false} WithEdgesAt(edges: Edges, c: Cid, keys: seq<Key>, e: Edge)
    requires forall i, j | 0 <= i < j < |keys| :: keys[i].hash != keys[j].hash
    requires NoEdges(edges, c)
    ensures e.owner != c ==> (e in WithEdges(edges, c, keys) <==> e in edges)
    ensures e.owner != c && e in edges ==> WithEdges(edges, c, keys)[e] == edges[e]
    ensures e.owner == c ==> (e in WithEdges(edges, c, keys) <==> exists k | k in keys :: k.hash == e.block)
    ensures forall k | k in keys && k.hash == e.block && e.owner == c :: WithEdges(edges, c, keys)[e] == k.generation
    decreases |keys|
  {
    if keys != [] {
      var front, last := keys[..|keys| - 1], keys[|keys| - 1];
      WithEdgesAt(edges, c, front, e);
      WithEdgesAt(edges, c, front, Edge(c, last.hash));
      assert forall k :: k in keys <==> k in front || k == last;
      assert forall k | k in front :: k.hash != last.hash;
    }
  }

  lemma EdgesToWith(edges: Edges, c: Cid, keys: seq<Key>, b: Key)
    requires forall i, j | 0 <= i < j < |keys| :: keys[i].hash != keys[j].hash
    requires NoEdges(edges, c)
    ensures |EdgesTo(WithEdges(edges, c, keys), b)| == |EdgesTo(edges, b)| + One(b in keys)
  {
    var edges' := WithEdges(edges, c, keys);
    var e := Edge(c, b.hash);
    forall d ensures d in EdgesTo(edges', b) <==> d in EdgesTo(edges, b) || (d == e && b in keys) {
      WithEdgesAt(edges, c, keys, d);
    }
    if b in keys {
      assert EdgesTo(edges', b) == EdgesTo(edges, b) + {e};
    } else {
      assert EdgesTo(edges', b) == EdgesTo(edges, b);
    }
  }

  /** The new edges of `c` match the manifest the reservations came from. */
  lemma WithEdgesMatch(edges: Edges, c: Cid, keys: seq<Key>, m: Manifest)
    requires NoEdges(edges, c) && Covers(keys, m)
    ensures EdgesMatch(WithEdges(edges, c, keys), c, m)
  {
    var edges' := WithEdges(edges, c, keys);
    forall i | 0 <= i < |m.blocks|
      ensures Edge(c, m.blocks[i].hash) in edges' && edges'[Edge(c, m.blocks[i].hash)] == m.blocks[i].generation
    {
      assert Block(m.blocks[i]) in keys;
      WithEdgesAt(edges, c, keys, Edge(c, m.blocks[i].hash));
    }
    forall e | e in edges' && e.owner == c ensures exists i | 0 <= i < |m.blocks| :: m.blocks[i].hash == e.block {
      WithEdgesAt(edges, c, keys, e);
    }
  }

  /** Keys with distinct hashes each count once. */
  lemma {:induction false} CountOnce(keys: seq<Key>, b: Key)
    requires forall i, j | 0 <= i < j < |keys| :: keys[i].hash != keys[j].hash
    ensures multiset(keys)[b] == One(b in keys)
  {
    if keys != [] {
      var front, last := keys[..|keys| - 1], keys[|keys| - 1];
      CountOnce(front, b);
      assert keys == front + [last];
    }
  }

  /** An object going live: the name gains a version, the block reservations become edges. */
  lemma GoLiveKeeps(s: Store, s': Store, chunk: Chunker, leak: multiset<Key>, keys: seq<Key>, n: Name, c: Cid)
    requires InFlight(s, chunk, leak + multiset(keys), Some(c))
    requires |Refs(s.names, c)| == 0 && c in s.manifests && Covers(keys, s.manifests[c])
    requires s' == s.(names := Append(s.names, n, c), edges := WithEdges(s.edges, c, keys))
    ensures AtRest(s', chunk, leak)
  {
    assert ObjectInv(s, chunk, Some(c), c);
    forall b ensures BlockInv(s', leak, b) {
      assert BlockInv(s, leak + multiset(keys), b);
      EdgesToWith(s.edges, c, keys, b);
      CountOnce(keys, b);
    }
    forall d ensures ObjectInv(s', chunk, None, d) {
      assert ObjectInv(s, chunk, Some(c), d);
      RefsAppend(s.names, n, c, d);
      WithEdgesKeepOthers(s.edges, c, keys, d);
      if d == c { WithEdgesMatch(s.edges, c, keys, s.manifests[c]); }
    }
  }

  lemma WithEdgesKeepOthers(edges: Edges, c: Cid, keys: seq<Key>, d: Cid)
    requires forall i, j | 0 <= i < j < |keys| :: keys[i].hash != keys[j].hash
    requires NoEdges(edges, c)
    ensures d != c && NoEdges(edges, d) ==> NoEdges(WithEdges(edges, c, keys), d)
    ensures forall m :: d != c && EdgesMatch(edges, d, m) ==> EdgesMatch(WithEdges(edges, c, keys), d, m)
  {
    forall e: Edge | e.owner != c
      ensures e in WithEdges(edges, c, keys) <==> e in edges
      ensures e in edges ==> WithEdges(edges, c, keys)[e] == edges[e]
    {
      WithEdgesAt(edges, c, keys, e);
    }
  }

  /** A further version of an object that is already live: the block reservations are
      redundant and have been given back. */
  lemma AliasKeeps(s: Store, s': Store, chunk: Chunker, leak: multiset<Key>, n: Name, c: Cid)
    requires InFlight(s, chunk, leak, Some(c)) && |Refs(s.names, c)| > 0
    requires s' == s.(names := Append(s.names, n, c))
    ensures AtRest(s', chunk, leak)
  {
    forall b ensures BlockInv(s', leak, b) { assert BlockInv(s, leak, b); }
    forall d ensures ObjectInv(s', chunk, None, d) {
      assert ObjectInv(s, chunk, Some(c), d);
      RefsAppend(s.names, n, c, d);
    }
  }

  /** What the index's bind does to the tables. */
  function BindResult(s: Store, keys: seq<Key>, n: Name, c: Cid, prevRc: int): Store {
    if Current(s.names, n) == Some(c) then
      s.(objects := AddObject(s.objects, c, -1), blocks := Released(s.blocks, keys))
    else if prevRc == 0 then
      s.(names := Append(s.names, n, c), edges := WithEdges(s.edges, c, keys))
    else
      s.(names := Append(s.names, n, c), blocks := Released(s.blocks, keys))
  }

  lemma CurrentIsReferred(names: Versions, n: Name, c: Cid)
    requires Current(names, n) == Some(c)
    ensures |Refs(names, c)| > 0
  {
    RefsMember(names, Version(n, |names[n]| - 1), c);
  }

  /** Whichever way bind hands the reservations on, none is left outstanding. */
  lemma BindKeeps(s: Store, chunk: Chunker, leak: multiset<Key>, keys: seq<Key>, n: Name, c: Cid, prevRc: int)
    requires InFlight(s, chunk, leak + multiset(keys), Some(c))
    requires prevRc == |Refs(s.names, c)| && c in s.manifests && Covers(keys, s.manifests[c])
    ensures AtRest(BindResult(s, keys, n, c, prevRc), chunk, leak)
  {
    var s' := BindResult(s, keys, n, c, prevRc);
    if Current(s.names, n) == Some(c) {
      var mid := s.(objects := AddObject(s.objects, c, -1));
      ReleaseObjectKeeps(s, mid, chunk, leak + multiset(keys), c);
      ReleaseAllKeeps(mid, s', chunk, keys, leak, None);
    } else if prevRc == 0 {
      GoLiveKeeps(s, s', chunk, leak, keys, n, c);
    } else {
      var mid := s.(blocks := Released(s.blocks, keys));
      ReleaseAllKeeps(s, mid, chunk, keys, leak, Some(c));
      AliasKeeps(mid, s', chunk, leak, n, c);
    }
  }

  // ---- Unbind ------------------------------------------------------------

  function UnboundObjects(s: Store, n: Name): Objects {
    map c | c in s.objects :: s.objects[c].(refcount := s.objects[c].refcount - |RefsOf(s.names, n, c)|)
  }

  /** The objects whose last reference goes when `n` is unbound. */
  function Killed(s: Store, n: Name): set<Cid> {
    set c | c in s.objects && RefsOf(s.names, n, c) != {} && s.objects[c].refcount == |RefsOf(s.names, n, c)|
  }

  function EdgesOf(edges: Edges, dead: set<Cid>): set<Edge> {
    set e | e in edges && e.owner in dead
  }

  /** How many of the edges in `gone` pin `b`. */
  function Dropped(edges: Edges, gone: set<Edge>, b: Key): nat {
    |EdgesTo(edges, b) * gone|
  }

  /** The block counts once the edges in `gone` no longer count. */
  function Lowered(blocks: Blocks, edges: Edges, gone: set<Edge>): Blocks {
    map b | b in blocks :: blocks[b].(refcount := blocks[b].refcount - Dropped(edges, gone, b))
  }

  /** The store after `n` and all its versions are removed. */
  function Unbound(s: Store, n: Name): Store {
    UnboundSoFar(s.(names := s.names - {n}), Killed(s, n), UnboundObjects(s, n))
  }

  /** `s` with new object rows, once the objects in `dead` have lost their edges. */
  function UnboundSoFar(s: Store, dead: set<Cid>, objects: Objects): Store {
    var gone := EdgesOf(s.edges, dead);
    s.(objects := objects, edges := s.edges - gone, blocks := Lowered(s.blocks, s.edges, gone))
  }

  lemma EdgesToMinus(edges: Edges, gone: set<Edge>, b: Key)
    ensures EdgesTo(edges - gone, b) == EdgesTo(edges, b) - gone
    ensures |EdgesTo(edges - gone, b)| == |EdgesTo(edges, b)| - Dropped(edges, gone, b)
  {
    assert EdgesTo(edges - gone, b) == EdgesTo(edges, b) - gone;
  }

  lemma DroppedAdd(edges: Edges, gone: set<Edge>, e: Edge, b: Key)
    requires e in edges && e !in gone
    ensures Dropped(edges, gone + {e}, b) == Dropped(edges, gone, b) + One(b == Key(e.block, edges[e]))
  {
    var to := EdgesTo(edges, b);
    if b == Key(e.block, edges[e]) {
      assert to * (gone + {e}) == to * gone + {e};
    } else {
      assert to * (gone + {e}) == to * gone;
    }
  }

  lemma DroppedSplit(edges: Edges, gone: set<Edge>, more: set<Edge>, b: Key)
    requires gone !! more
    ensures Dropped(edges, gone + more, b) == Dropped(edges, gone, b) + Dropped(edges - gone, more, b)
  {
    var to := EdgesTo(edges, b);
    EdgesToMinus(edges, gone, b);
    assert to * (gone + more) == to * gone + (to - gone) * more;
    assert to * gone !! (to - gone) * more;
  }

  lemma RowsAgree(a: Blocks, b: Blocks)
    requires a.Keys == b.Keys && forall k | k in a :: a[k] == b[k]
    ensures a == b
  {
  }

  lemma LowerOneAt(blocks: Blocks, edges: Edges, gone: set<Edge>, e: Edge, b: Key)
    requires e in edges && e !in gone && b in blocks
    ensures Lowered(blocks, edges, gone + {e})[b]
         == AddBlock(Lowered(blocks, edges, gone), Key(e.block, edges[e]), -1)[b]
  {
    DroppedAdd(edges, gone, e, b);
  }

  lemma LowerOne(blocks: Blocks, edges: Edges, gone: set<Edge>, e: Edge)
    requires e in edges && e !in gone
    ensures Lowered(blocks, edges, gone + {e})
         == AddBlock(Lowered(blocks, edges, gone), Key(e.block, edges[e]), -1)
  {
    var direct := Lowered(blocks, edges, gone + {e});
    var stepped := AddBlock(Lowered(blocks, edges, gone), Key(e.block, edges[e]), -1);
    forall b | b in direct ensures direct[b] == stepped[b] {
      LowerOneAt(blocks, edges, gone, e, b);
    }
    RowsAgree(direct, stepped);
  }

  lemma LowerMoreAt(blocks: Blocks, edges: Edges, gone: set<Edge>, more: set<Edge>, b: Key)
    requires gone !! more && b in blocks
    ensures Lowered(Lowered(blocks, edges, gone), edges - gone, more)[b] == Lowered(blocks, edges, gone + more)[b]
  {
    DroppedSplit(edges, gone, more, b);
  }

  lemma LowerMore(blocks: Blocks, edges: Edges, gone: set<Edge>, more: set<Edge>)
    requires gone !! more
    ensures Lowered(Lowered(blocks, edges, gone), edges - gone, more) == Lowered(blocks, edges, gone + more)
  {
    var twice, once := Lowered(Lowered(blocks, edges, gone), edges - gone, more), Lowered(blocks, edges, gone + more);
    forall b | b in twice ensures twice[b] == once[b] {
      LowerMoreAt(blocks, edges, gone, more, b);
    }
    RowsAgree(twice, once);
  }

  /** Killing one more object after those in `dead`. */
  lemma UnboundOneMore(s: Store, dead: set<Cid>, objects: Objects, c: Cid)
    requires c !in dead
    ensures
      var p, gone := UnboundSoFar(s, dead, objects), EdgesOf(UnboundSoFar(s, dead, objects).edges, {c});
      UnboundSoFar(s, dead + {c}, objects)
      == p.(edges := p.edges - gone, blocks := Lowered(p.blocks, p.edges, gone))
  {
    var before, more := EdgesOf(s.edges, dead), EdgesOf(s.edges, {c});
    assert EdgesOf(s.edges, dead + {c}) == before + more;
    assert EdgesOf(s.edges - before, {c}) == more;
    assert s.edges - (before + more) == s.edges - before - more;
    LowerMore(s.blocks, s.edges, before, more);
  }

  /** The object rows once the versions of `n` naming objects in `done` no longer count. */
  function PartlyUnbound(s: Store, n: Name, done: set<Cid>): Objects {
    map c | c in s.objects :: if c in done then UnboundObjects(s, n)[c] else s.objects[c]
  }

  /** The unbinding of `n` after the objects in `done` have been handled. */
  function Unbinding(s: Store, n: Name, done: set<Cid>): Store {
    UnboundSoFar(s, Killed(s, n) * done, PartlyUnbound(s, n, done))
  }

  lemma UnbindingStarts(s: Store, n: Name)
    ensures Unbinding(s, n, {}) == s
  {
    assert PartlyUnbound(s, n, {}) == s.objects;
    assert Killed(s, n) * {} == {} && EdgesOf(s.edges, {}) == {};
    assert s.edges - {} == s.edges;
    LowerNothing(s.blocks, s.edges);
  }

  lemma LowerNothingAt(blocks: Blocks, edges: Edges, b: Key)
    requires b in blocks
    ensures Lowered(blocks, edges, {})[b] == blocks[b]
  {
    assert EdgesTo(edges, b) * {} == {};
  }

  lemma LowerNothing(blocks: Blocks, edges: Edges)
    ensures Lowered(blocks, edges, {}) == blocks
  {
    var same := Lowered(blocks, edges, {});
    forall b | b in same ensures same[b] == blocks[b] {
      LowerNothingAt(blocks, edges, b);
    }
    RowsAgree(same, blocks);
  }

  /** `p` after the versions of `n` stop counting towards `c`; if that was its last
      reference, its edges go too. */
  function WithoutRefs(p: Store, n: Name, c: Cid): Store
    requires c in p.objects
  {
    var rc := p.objects[c].refcount - |RefsOf(p.names, n, c)|;
    var p1 := p.(objects := p.objects[c := p.objects[c].(refcount := rc)]);
    var gone := EdgesOf(p.edges, {c});
    if rc == 0 then p1.(edges := p.edges - gone, blocks := Lowered(p.blocks, p.edges, gone)) else p1
  }

  lemma UnbindingEnds(s: Store, n: Name, done: set<Cid>)
    requires forall c | c in History(s.names, n) :: c in done
    ensures Unbinding(s, n, done).(names := s.names - {n}) == Unbound(s, n)
  {
    forall c | c !in done ensures RefsOf(s.names, n, c) == {} {}
    assert Killed(s, n) * done == Killed(s, n);
    assert PartlyUnbound(s, n, done) == UnboundObjects(s, n);
  }

  /** Handling one object: its count drops, and if that was its last reference its edges go. */
  lemma UnbindingStep(s: Store, n: Name, done: set<Cid>, c: Cid)
    requires c in s.objects && c in History(s.names, n) && c !in done
    ensures Unbinding(s, n, done + {c}) == WithoutRefs(Unbinding(s, n, done), n, c)
  {
    var i :| 0 <= i < |History(s.names, n)| && History(s.names, n)[i] == c;
    assert Version(n, i) in RefsOf(s.names, n, c);
    var objects' := PartlyUnbound(s, n, done + {c});
    var p := Unbinding(s, n, done);
    assert objects' == p.objects[c := UnboundObjects(s, n)[c]];
    if c in Killed(s, n) {
      assert Killed(s, n) * (done + {c}) == Killed(s, n) * done + {c};
      UnboundOneMore(s, Killed(s, n) * done, objects', c);
    } else {
      assert Killed(s, n) * (done + {c}) == Killed(s, n) * done;
    }
  }

  /** The versions of `n` taken off the counts of `order`, one object at a time. */
  function UnboundBy(s: Store, n: Name, order: seq<Cid>): (p: Store)
    requires forall c | c in order :: c in s.objects
    ensures p.objects.Keys == s.objects.Keys && p.names == s.names
  {
    if order == [] then s
    else WithoutRefs(UnboundBy(s, n, order[..|order| - 1]), n, order[|order| - 1])
  }

  ghost predicate IsOrder(order: seq<Cid>, all: set<Cid>) {
    (forall c :: c in order <==> c in all) && forall i, j | 0 <= i < j < |order| :: order[i] != order[j]
  }

  lemma {:induction false} UnboundByIsUnbinding(s: Store, n: Name, order: seq<Cid>, done: set<Cid>)
    requires forall c | c in order :: c in s.objects && c in History(s.names, n)
    requires IsOrder(order, done)
    ensures UnboundBy(s, n, order) == Unbinding(s, n, done)
    decreases |order|
  {
    if order == [] {
      UnbindingStarts(s, n);
      assert done == {};
    } else {
      var front, last := order[..|order| - 1], order[|order| - 1];
      assert forall c :: c in order <==> c in front || c == last;
      UnboundByIsUnbinding(s, n, front, done - {last});
      UnbindingStep(s, n, done - {last}, last);
      assert done == done - {last} + {last};
    }
  }

  /** Taking the named objects one at a time, in any order, unbinds the name. */
  lemma UnboundByIsUnbound(s: Store, n: Name, order: seq<Cid>)
    requires forall c | c in order :: c in s.objects
    requires IsOrder(order, set c | c in History(s.names, n))
    ensures UnboundBy(s, n, order).(names := s.names - {n}) == Unbound(s, n)
  {
    UnboundByIsUnbinding(s, n, order, set c | c in History(s.names, n));
    UnbindingEnds(s, n, set c | c in History(s.names, n));
  }

  lemma UnbindKeepsBlock(s: Store, leak: multiset<Key>, n: Name, b: Key)
    requires BlockInv(s, leak, b)
    ensures BlockInv(Unbound(s, n), leak, b)
  {
    EdgesToMinus(s.edges, EdgesOf(s.edges, Killed(s, n)), b);
  }

  lemma UnbindKeepsObject(s: Store, chunk: Chunker, n: Name, c: Cid)
    requires ObjectInv(s, chunk, None, c)
    ensures ObjectInv(Unbound(s, n), chunk, None, c)
  {
    var s' := Unbound(s, n);
    RefsRemove(s.names, n, c);
    if |Refs(s'.names, c)| == 0 && |Refs(s.names, c)| > 0 {
      assert c in Killed(s, n);
    }
  }

  lemma UnbindKeeps(s: Store, chunk: Chunker, leak: multiset<Key>, n: Name)
    requires AtRest(s, chunk, leak)
    ensures AtRest(Unbound(s, n), chunk, leak)
  {
    var s' := Unbound(s, n);
    forall b ensures BlockInv(s', leak, b) {
      assert BlockInv(s, leak, b);
      UnbindKeepsBlock(s, leak, n, b);
    }
    forall k ensures Available(s'.blocks, k) <==> Available(s.blocks, k) {}
    forall c ensures ObjectInv(s', chunk, None, c) {
      assert ObjectInv(s, chunk, None, c);
      UnbindKeepsObject(s, chunk, n, c);
    }
  }

  // ---- Reading -----------------------------------------------------------

  /** The file of block `r` holds the bytes of chunk `i`. */
  predicate Stores(files: Files, r: BlockRef, chunks: seq<Chunk>, i: nat)
    requires i < |chunks|
  {
    Block(r) in files && Cid(files[Block(r)]) == chunks[i].hash
  }

  lemma {:induction false} ReadsPrefix(files: Files, content: Bytes, chunks: seq<Chunk>, blocks: seq<BlockRef>, i: nat)
    requires IsPartition(chunks, content) && |blocks| == |chunks| && i <= |blocks|
    requires forall j | 0 <= j < |blocks| :: Stores(files, blocks[j], chunks, j)
    ensures ChunkEnd(chunks, i) <= |content|
    ensures Contents(files, blocks[..i]) == Some(content[..ChunkEnd(chunks, i)])
  {
    if i > 0 {
      ReadsPrefix(files, content, chunks, blocks, i - 1);
      assert IsPiece(chunks, content, i - 1) && Stores(files, blocks[i - 1], chunks, i - 1);
      assert blocks[..i][..i - 1] == blocks[..i - 1];
      JoinSlices(content, 0, ChunkEnd(chunks, i - 1), ChunkEnd(chunks, i));
    }
  }

  /** A manifest whose blocks are all available reads back to its object's content. */
  lemma ManifestReads(s: Store, chunk: Chunker, leak: multiset<Key>, held: Option<Cid>, c: Cid)
    requires InFlight(s, chunk, leak, held) && Partitions(chunk) && c in s.manifests
    ensures WellFormed(s.files, s.manifests[c])
    ensures Contents(s.files, s.manifests[c].blocks) == Some(c.preimage)
  {
    var m, chunks := s.manifests[c], chunk(c.preimage);
    assert ObjectInv(s, chunk, held, c) && IsPartition(chunks, c.preimage);
    forall j | 0 <= j < |m.blocks|
      ensures Stores(s.files, m.blocks[j], chunks, j) && |s.files[Block(m.blocks[j])]| == m.blocks[j].len
    {
      assert Available(s.blocks, Block(m.blocks[j])) && BlockInv(s, leak, Block(m.blocks[j]));
      assert IsPiece(chunks, c.preimage, j);
    }
    ReadsPrefix(s.files, c.preimage, chunks, m.blocks, |m.blocks|);
    assert m.blocks[..|m.blocks|] == m.blocks;
    assert c.preimage[..|c.preimage|] == c.preimage;
    WellFormedReads(s.files, m.blocks, |m.blocks|);
  }
}

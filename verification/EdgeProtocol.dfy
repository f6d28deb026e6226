// Names, objects, manifests, edges, block generations and files together, under calls that
// interleave, one collector, the audit's reconcile steps, and crashes: when the block files
// a named object's manifest lists are kept.
module EdgeProtocol {
  import opened Prelude
  import opened Versions

  type Call = nat

  datatype Row = Row(refcount: int, available: bool)

  /** The key of an edge row; the row holds the generation it pins. */
  datatype Edge = Edge(owner: Cid, block: Cid)

  /** The distinct block hashes of each object. */
  type BlocksOf = Cid -> set<Cid>

  /** A generation for each of some hashes. */
  type Placement = map<Cid, nat>

  datatype Phase =
    | Idle
    | Reserving(name: Name, cid: Cid, held: Placement, alias: bool)
    // `ready`: a put has written its manifest, an alias has seen the manifest again
    | Reserved(name: Name, cid: Cid, held: Placement, alias: bool, prevRc: int, ready: bool)
    | Releasing(held: Placement)

  datatype Gc =
    | Resting
    | ObjectClaimed(cid: Cid)
    | ObjectUnlinked(cid: Cid)
    | BlockClaimed(key: Key)
    | BlockUnlinked(key: Key)

  datatype State = State(
    names: Versions,
    objects: map<Cid, Row>,
    manifests: map<Cid, Placement>,
    edges: map<Edge, nat>,
    blocks: map<Key, Row>,
    files: set<Key>,
    calls: map<Call, Phase>,
    gc: Gc)

  datatype Action =
    | Begin(p: Call, name: Name, cid: Cid, alias: bool)
    | ReserveBlock(p: Call, key: Key)
    | Mint(p: Call, key: Key)            // file and row in one step
    | ReserveObject(p: Call)
    | SeeManifest(p: Call)               // a put writes it, an alias looks again
    | Bind(p: Call)
    | GiveUp(p: Call)
    | ReleaseBlock(p: Call, key: Key)
    | End(p: Call)
    | Abandon(p: Call)                   // an early return that gives nothing back
    | Unbind(name: Name)
    | ClaimObject(cid: Cid)
    | AdoptObject(cid: Cid)
    | UnlinkObject
    | DeleteObject
    | ClaimBlock(key: Key)
    | AdoptBlock(key: Key)
    | UnlinkBlock
    | DeleteBlock
    | ReconcileObject(cid: Cid, to: int) // the truth may have fallen since it was read
    | ReconcileBlock(key: Key, to: int)
    | Crash

  const INITIAL := State(map[], map[], map[], map[], map[], {}, map[], Resting)

  // ---- Reading the tables -----------------------------------------------------------

  function PhaseOf(s: State, p: Call): Phase {
    if p in s.calls then s.calls[p] else Idle
  }

  predicate InPlacement(held: Placement, k: Key) {
    k.hash in held && held[k.hash] == k.generation
  }

  predicate HoldsBlock(ph: Phase, k: Key) {
    !ph.Idle? && InPlacement(ph.held, k)
  }

  predicate HoldsObject(ph: Phase, c: Cid) {
    ph.Reserved? && ph.cid == c
  }

  function BlockHolders(calls: map<Call, Phase>, k: Key): set<Call> {
    set p | p in calls && HoldsBlock(calls[p], k)
  }

  function ObjectHolders(calls: map<Call, Phase>, c: Cid): set<Call> {
    set p | p in calls && HoldsObject(calls[p], c)
  }

  predicate Available(blocks: map<Key, Row>, k: Key) {
    k in blocks && blocks[k].available
  }

  predicate NoneAvailable(blocks: map<Key, Row>, h: Cid) {
    forall k | k in blocks && k.hash == h :: !blocks[k].available
  }

  function Count<K>(rows: map<K, Row>, x: K): int {
    if x in rows then rows[x].refcount else 0
  }

  predicate Named(names: Versions, c: Cid) {
    |Refs(names, c)| > 0
  }

  function EdgesTo(edges: map<Edge, nat>, k: Key): set<Edge> {
    set e | e in edges && e.block == k.hash && edges[e] == k.generation
  }

  /** The edges to `k` of named objects, and of live ones. */
  function NamedEdgesTo(s: State, k: Key): set<Edge> {
    set e | e in EdgesTo(s.edges, k) && Named(s.names, e.owner)
  }

  function LiveEdgesTo(s: State, k: Key): set<Edge> {
    set e | e in EdgesTo(s.edges, k) && Count(s.objects, e.owner) > 0
  }

  // ---- Steps ---------------------------------------------------------------------------

  function Bumped<K>(rows: map<K, Row>, x: K, d: int): map<K, Row> {
    if x in rows then rows[x := rows[x].(refcount := rows[x].refcount + d)] else rows
  }

  /** Every reservation in `held` given back. */
  function Released(blocks: map<Key, Row>, held: Placement): map<Key, Row> {
    map k | k in blocks ::
      if InPlacement(held, k) then blocks[k].(refcount := blocks[k].refcount - 1) else blocks[k]
  }

  /** One edge per hash of `held` for object `c`; an existing row wins. */
  function WithEdges(edges: map<Edge, nat>, c: Cid, held: Placement): map<Edge, nat> {
    map e | e in edges.Keys + (set h | h in held :: Edge(c, h)) :: if e in edges then edges[e] else held[e.block]
  }

  function EdgesOf(edges: map<Edge, nat>, owners: set<Cid>): set<Edge> {
    set e | e in edges && e.owner in owners
  }

  /** The objects whose count an unbind of `n` takes to zero. */
  function Killed(s: State, n: Name): set<Cid> {
    set c | c in s.objects && RefsOf(s.names, n, c) != {} && s.objects[c].refcount == |RefsOf(s.names, n, c)|
  }

  function KilledEdgesTo(s: State, n: Name, k: Key): set<Edge> {
    set e | e in EdgesTo(s.edges, k) && e.owner in Killed(s, n)
  }

  function Unbound(s: State, n: Name): State {
    s.(names := s.names - {n},
    objects := map c | c in s.objects ::
      s.objects[c].(refcount := s.objects[c].refcount - |RefsOf(s.names, n, c)|),
    edges := s.edges - EdgesOf(s.edges, Killed(s, n)),
    blocks := map k | k in s.blocks ::
      s.blocks[k].(refcount := s.blocks[k].refcount - |KilledEdgesTo(s, n, k)|))
  }

  predicate AddsVersion(s: State, ph: Phase)
    requires ph.Reserved?
  {
    Current(s.names, ph.name) != Some(ph.cid)
  }

  /** The index's bind: current already, going live, or a further version. */
  function Bound(s: State, ph: Phase): State
    requires ph.Reserved?
  {
    if !AddsVersion(s, ph) then
      s.(objects := Bumped(s.objects, ph.cid, -1), blocks := Released(s.blocks, ph.held))
    else if ph.prevRc == 0 then
      s.(names := Append(s.names, ph.name, ph.cid), edges := WithEdges(s.edges, ph.cid, ph.held))
    else
      s.(names := Append(s.names, ph.name, ph.cid), blocks := Released(s.blocks, ph.held))
  }

  predicate CallEnabled(s: State, of: BlocksOf, a: Action) {
    match a
    case Begin(p, n, c, alias) => PhaseOf(s, p).Idle? && (alias ==> c in s.manifests)
    case ReserveBlock(p, k) =>
      var ph := PhaseOf(s, p);
      ph.Reserving? && k.hash in of(ph.cid) && k.hash !in ph.held && Available(s.blocks, k)
    case Mint(p, k) =>
      var ph := PhaseOf(s, p);
      && ph.Reserving? && !ph.alias && k.hash in of(ph.cid) && k.hash !in ph.held
      && NoneAvailable(s.blocks, k.hash) && k !in s.blocks
    case ReserveObject(p) =>
      var ph := PhaseOf(s, p);
      && ph.Reserving? && ph.held.Keys == of(ph.cid)
      && (if ph.cid in s.objects then s.objects[ph.cid].available else !ph.alias)
    case SeeManifest(p) =>
      var ph := PhaseOf(s, p);
      ph.Reserved? && !ph.ready && (ph.alias ==> ph.cid in s.manifests)
    case Bind(p) => PhaseOf(s, p).Reserved? && PhaseOf(s, p).ready
    case GiveUp(p) => PhaseOf(s, p).Reserving? || PhaseOf(s, p).Reserved?
    case ReleaseBlock(p, k) => PhaseOf(s, p).Releasing? && InPlacement(PhaseOf(s, p).held, k)
    case End(p) => PhaseOf(s, p).Releasing? && PhaseOf(s, p).held == map[]
    case Abandon(p) => PhaseOf(s, p).Reserving?
    case _ => false
  }

  predicate OtherEnabled(s: State, a: Action) {
    match a
    case Unbind(n) => n in s.names
    case ClaimObject(c) => s.gc.Resting? && c in s.objects && s.objects[c] == Row(0, true)
    case AdoptObject(c) => s.gc.Resting? && c in s.objects && s.objects[c] == Row(0, false)
    case UnlinkObject => s.gc.ObjectClaimed?
    case DeleteObject => s.gc.ObjectUnlinked?
    case ClaimBlock(k) => s.gc.Resting? && k in s.blocks && s.blocks[k] == Row(0, true)
    case AdoptBlock(k) => s.gc.Resting? && k in s.blocks && s.blocks[k] == Row(0, false)
    case UnlinkBlock => s.gc.BlockClaimed?
    case DeleteBlock => s.gc.BlockUnlinked?
    case ReconcileObject(c, to) =>
      c in s.objects && s.objects[c].refcount > to >= |Refs(s.names, c)| && ObjectHolders(s.calls, c) == {}
    case ReconcileBlock(k, to) =>
      k in s.blocks && s.blocks[k].refcount > to >= |LiveEdgesTo(s, k)| && BlockHolders(s.calls, k) == {}
    case Crash => true
    case _ => false
  }

  predicate Enabled(s: State, of: BlocksOf, a: Action) {
    CallEnabled(s, of, a) || OtherEnabled(s, a)
  }

  /** Where the call of `a` goes next. */
  function NextPhase(s: State, of: BlocksOf, a: Action): Phase
    requires CallEnabled(s, of, a)
  {
    var ph := PhaseOf(s, a.p);
    match a
    case Begin(_, n, c, alias) => Reserving(n, c, map[], alias)
    case ReserveBlock(_, k) => Reserving(ph.name, ph.cid, ph.held[k.hash := k.generation], ph.alias)
    case Mint(_, k) => Reserving(ph.name, ph.cid, ph.held[k.hash := k.generation], ph.alias)
    case ReserveObject(_) => Reserved(ph.name, ph.cid, ph.held, ph.alias, Count(s.objects, ph.cid), false)
    case SeeManifest(_) => Reserved(ph.name, ph.cid, ph.held, ph.alias, ph.prevRc, true)
    case GiveUp(_) => Releasing(ph.held)
    case ReleaseBlock(_, k) => Releasing(ph.held - {k.hash})
    case _ => Idle
  }

  /** What the call of `a` does to the tables. */
  function CallTables(s: State, of: BlocksOf, a: Action): State
    requires CallEnabled(s, of, a)
  {
    var ph := PhaseOf(s, a.p);
    match a
    case ReserveBlock(_, k) => s.(blocks := Bumped(s.blocks, k, 1))
    case Mint(_, k) => s.(blocks := s.blocks[k := Row(1, true)], files := s.files + {k})
    case ReserveObject(_) =>
      s.(objects := if ph.cid in s.objects then Bumped(s.objects, ph.cid, 1) else s.objects[ph.cid := Row(1, true)])
    case SeeManifest(_) => if ph.alias then s else s.(manifests := s.manifests[ph.cid := ph.held])
    case Bind(_) => Bound(s, ph)
    case GiveUp(_) => if ph.Reserved? then s.(objects := Bumped(s.objects, ph.cid, -1)) else s
    case ReleaseBlock(_, k) => s.(blocks := Bumped(s.blocks, k, -1))
    case _ => s
  }

  function OtherStep(s: State, a: Action): State
    requires OtherEnabled(s, a)
  {
    match a
    case Unbind(n) => Unbound(s, n)
    case ClaimObject(c) => s.(objects := s.objects[c := Row(0, false)], gc := ObjectClaimed(c))
    case AdoptObject(c) => s.(gc := ObjectClaimed(c))
    case UnlinkObject => s.(manifests := s.manifests - {s.gc.cid}, gc := ObjectUnlinked(s.gc.cid))
    case DeleteObject =>
      var c := s.gc.cid;
      if c in s.objects && s.objects[c] == Row(0, false) then
        s.(objects := s.objects - {c}, edges := s.edges - EdgesOf(s.edges, {c}), gc := Resting)
      else s.(gc := Resting)
    case ClaimBlock(k) => s.(blocks := s.blocks[k := Row(0, false)], gc := BlockClaimed(k))
    case AdoptBlock(k) => s.(gc := BlockClaimed(k))
    case UnlinkBlock => s.(files := s.files - {s.gc.key}, gc := BlockUnlinked(s.gc.key))
    case DeleteBlock =>
      var k := s.gc.key;
      s.(blocks := if k in s.blocks && s.blocks[k] == Row(0, false) then s.blocks - {k} else s.blocks, gc := Resting)
    case ReconcileObject(c, to) => s.(objects := s.objects[c := s.objects[c].(refcount := to)])
    case ReconcileBlock(k, to) => s.(blocks := s.blocks[k := s.blocks[k].(refcount := to)])
    case Crash => s.(calls := map[], gc := Resting)
  }

  function Apply(s: State, of: BlocksOf, a: Action): State
    requires Enabled(s, of, a)
  {
    if CallEnabled(s, of, a) then CallTables(s, of, a).(calls := s.calls[a.p := NextPhase(s, of, a)])
    else OtherStep(s, a)
  }

  predicate Runs(s: State, of: BlocksOf, actions: seq<Action>)
    decreases |actions|
  {
    actions == [] || (Enabled(s, of, actions[0]) && Runs(Apply(s, of, actions[0]), of, actions[1..]))
  }

  function Exec(s: State, of: BlocksOf, actions: seq<Action>): State
    requires Runs(s, of, actions)
    decreases |actions|
  {
    if actions == [] then s else Exec(Apply(s, of, actions[0]), of, actions[1..])
  }

  // ---- What is promised -----------------------------------------------------------------

  /** The edges of `c` are the generations its manifest lists. */
  predicate EdgesMatch(edges: map<Edge, nat>, manifests: map<Cid, Placement>, of: BlocksOf, c: Cid) {
    && c in manifests
    && forall h | h in of(c) :: h in manifests[c] && Edge(c, h) in edges && edges[Edge(c, h)] == manifests[c][h]
  }

  ghost predicate EdgesHeld(s: State, of: BlocksOf) {
    forall c | Named(s.names, c) :: EdgesMatch(s.edges, s.manifests, of, c)
  }

  /** The count of `k` covers the edges of named objects and the reservations held. */
  ghost predicate Counted(s: State, k: Key) {
    Count(s.blocks, k) >= |NamedEdgesTo(s, k)| + |BlockHolders(s.calls, k)|
  }

  /** Every named object is pinned where its manifest says, and every pin is counted. */
  ghost predicate Pinned(s: State, of: BlocksOf) {
    EdgesHeld(s, of) && forall k :: Counted(s, k)
  }

  /** Every block file that a named object's manifest lists is there. */
  ghost predicate Readable(s: State, of: BlocksOf) {
    forall c, h | Named(s.names, c) && h in of(c) ::
      c in s.manifests && h in s.manifests[c] && Key(h, s.manifests[c][h]) in s.files
  }

  // ---- What every step keeps -------------------------------------------------------------

  ghost predicate ObjectInv(s: State, c: Cid) {
    && Count(s.objects, c) >= |Refs(s.names, c)| + |ObjectHolders(s.calls, c)|
    && (c in s.objects && !s.objects[c].available ==> s.objects[c].refcount == 0)
  }

  predicate RowInv(s: State, k: Key) {
    k in s.blocks ==> if s.blocks[k].available then k in s.files else s.blocks[k].refcount == 0
  }

  ghost predicate OneAvailable(blocks: map<Key, Row>) {
    forall k, k' {:trigger Available(blocks, k), Available(blocks, k')} ::
      Available(blocks, k) && Available(blocks, k') && k.hash == k'.hash ==> k == k'
  }

  predicate GcInv(s: State) {
    match s.gc
    case Resting => true
    case ObjectClaimed(c) => c in s.objects && !s.objects[c].available
    case ObjectUnlinked(c) => c in s.objects && !s.objects[c].available
    case BlockClaimed(k) => k in s.blocks && !s.blocks[k].available
    case BlockUnlinked(k) => k in s.blocks && !s.blocks[k].available
  }

  predicate PhaseInv(s: State, of: BlocksOf, ph: Phase) {
    ph.Reserved? ==> ph.held.Keys == of(ph.cid) && (ph.ready ==> ph.cid in s.manifests)
  }

  ghost predicate ShapeInv(s: State, of: BlocksOf) {
    && (forall p | p in s.calls :: PhaseInv(s, of, s.calls[p]))
    && (forall e | e in s.edges :: e.block in of(e.owner))
  }

  ghost predicate Inv(s: State, of: BlocksOf) {
    && (forall c :: ObjectInv(s, c))
    && (forall k :: RowInv(s, k))
    && OneAvailable(s.blocks) && GcInv(s) && ShapeInv(s, of)
  }

  /** What is pinned or held is available, so its file is there. */
  lemma CountedIsAvailable(s: State, k: Key)
    requires Counted(s, k) && RowInv(s, k) && (NamedEdgesTo(s, k) != {} || BlockHolders(s.calls, k) != {})
    ensures Available(s.blocks, k) && k in s.files
  {
  }

  lemma PinnedIsReadable(s: State, of: BlocksOf)
    requires Inv(s, of) && Pinned(s, of)
    ensures Readable(s, of)
  {
    forall c, h | Named(s.names, c) && h in of(c)
      ensures c in s.manifests && h in s.manifests[c] && Key(h, s.manifests[c][h]) in s.files
    {
      assert EdgesMatch(s.edges, s.manifests, of, c);
      var k := Key(h, s.manifests[c][h]);
      assert Edge(c, h) in NamedEdgesTo(s, k);
      assert Counted(s, k) && RowInv(s, k);
      CountedIsAvailable(s, k);
    }
  }

  // ---- Who holds what, as one call moves -------------------------------------------------

  function One(b: bool): int {
    if b then 1 else 0
  }

  function OtherBlockHolders(calls: map<Call, Phase>, p: Call, k: Key): set<Call> {
    set q | q in calls && q != p && HoldsBlock(calls[q], k)
  }

  function OtherObjectHolders(calls: map<Call, Phase>, p: Call, c: Cid): set<Call> {
    set q | q in calls && q != p && HoldsObject(calls[q], c)
  }

  lemma BlockHoldersSplit(calls: map<Call, Phase>, p: Call, k: Key)
    ensures |BlockHolders(calls, k)| == |OtherBlockHolders(calls, p, k)| + One(p in calls && HoldsBlock(calls[p], k))
  {
    var rest := OtherBlockHolders(calls, p, k);
    if p in calls && HoldsBlock(calls[p], k) {
      assert BlockHolders(calls, k) == rest + {p};
    } else {
      assert BlockHolders(calls, k) == rest;
    }
  }

  lemma ObjectHoldersSplit(calls: map<Call, Phase>, p: Call, c: Cid)
    ensures |ObjectHolders(calls, c)| == |OtherObjectHolders(calls, p, c)| + One(p in calls && HoldsObject(calls[p], c))
  {
    var rest := OtherObjectHolders(calls, p, c);
    if p in calls && HoldsObject(calls[p], c) {
      assert ObjectHolders(calls, c) == rest + {p};
    } else {
      assert ObjectHolders(calls, c) == rest;
    }
  }

  lemma BlockHoldersMove(s: State, p: Call, ph: Phase, k: Key)
    ensures |BlockHolders(s.calls[p := ph], k)| ==
            |BlockHolders(s.calls, k)| - One(HoldsBlock(PhaseOf(s, p), k)) + One(HoldsBlock(ph, k))
  {
    BlockHoldersSplit(s.calls, p, k);
    BlockHoldersSplit(s.calls[p := ph], p, k);
    assert OtherBlockHolders(s.calls[p := ph], p, k) == OtherBlockHolders(s.calls, p, k);
  }

  lemma ObjectHoldersMove(s: State, p: Call, ph: Phase, c: Cid)
    ensures |ObjectHolders(s.calls[p := ph], c)| ==
            |ObjectHolders(s.calls, c)| - One(HoldsObject(PhaseOf(s, p), c)) + One(HoldsObject(ph, c))
  {
    ObjectHoldersSplit(s.calls, p, c);
    ObjectHoldersSplit(s.calls[p := ph], p, c);
    assert OtherObjectHolders(s.calls[p := ph], p, c) == OtherObjectHolders(s.calls, p, c);
  }

  lemma HolderExists(s: State, p: Call, k: Key)
    requires HoldsBlock(PhaseOf(s, p), k)
    ensures BlockHolders(s.calls, k) != {}
  {
    assert p in BlockHolders(s.calls, k);
  }

  lemma ObjectHolderExists(s: State, p: Call)
    requires PhaseOf(s, p).Reserved?
    ensures |ObjectHolders(s.calls, PhaseOf(s, p).cid)| > 0
  {
    assert p in ObjectHolders(s.calls, PhaseOf(s, p).cid);
  }

  // ---- Objects --------------------------------------------------------------------------

  lemma BumpedAt<K>(rows: map<K, Row>, x: K, d: int, y: K)
    ensures y in Bumped(rows, x, d) <==> y in rows
    ensures Count(Bumped(rows, x, d), y) == Count(rows, y) + if y == x && x in rows then d else 0
    ensures y in rows ==> Bumped(rows, x, d)[y].available == rows[y].available
  {
  }

  /** What a bind does to the references and the count of one object. */
  lemma BoundObject(s: State, ph: Phase, c: Cid)
    requires ph.Reserved?
    ensures |Refs(Bound(s, ph).names, c)| == |Refs(s.names, c)| + One(AddsVersion(s, ph) && c == ph.cid)
    ensures Count(Bound(s, ph).objects, c) ==
            Count(s.objects, c) - One(!AddsVersion(s, ph) && c == ph.cid && c in s.objects)
    ensures c in Bound(s, ph).objects <==> c in s.objects
    ensures c in s.objects ==> Bound(s, ph).objects[c].available == s.objects[c].available
  {
    RefsAppend(s.names, ph.name, ph.cid, c);
    BumpedAt(s.objects, ph.cid, -1, c);
  }

  lemma BindKeepsObject(s: State, of: BlocksOf, p: Call, c: Cid)
    requires CallEnabled(s, of, Bind(p)) && ObjectInv(s, c)
    ensures ObjectInv(Apply(s, of, Bind(p)), c)
  {
    ObjectHoldersMove(s, p, Idle, c);
    BoundObject(s, PhaseOf(s, p), c);
    ObjectHolderExists(s, p);
    assert Apply(s, of, Bind(p)) == Bound(s, PhaseOf(s, p)).(calls := s.calls[p := Idle]);
  }

  lemma HoldKeepsObject(s: State, of: BlocksOf, a: Action, c: Cid)
    requires CallEnabled(s, of, a) && ObjectInv(s, c) && (a.ReserveObject? || a.GiveUp?)
    ensures ObjectInv(Apply(s, of, a), c)
  {
    var ph := PhaseOf(s, a.p);
    ObjectHoldersMove(s, a.p, NextPhase(s, of, a), c);
    BumpedAt(s.objects, ph.cid, 1, c);
    BumpedAt(s.objects, ph.cid, -1, c);
    if ph.Reserved? { ObjectHolderExists(s, a.p); }
  }

  lemma CallKeepsObject(s: State, of: BlocksOf, a: Action, c: Cid)
    requires CallEnabled(s, of, a) && ObjectInv(s, c)
    ensures ObjectInv(Apply(s, of, a), c)
  {
    if a.Bind? {
      BindKeepsObject(s, of, a.p, c);
    } else if a.ReserveObject? || a.GiveUp? {
      HoldKeepsObject(s, of, a, c);
    } else {
      ObjectHoldersMove(s, a.p, NextPhase(s, of, a), c);
    }
  }

  lemma UnbindKeepsObject(s: State, n: Name, c: Cid)
    requires ObjectInv(s, c)
    ensures ObjectInv(Unbound(s, n), c)
  {
    RefsRemove(s.names, n, c);
  }

  lemma SweepKeepsObject(s: State, a: Action, c: Cid)
    requires OtherEnabled(s, a) && ObjectInv(s, c) && (a.ClaimObject? || a.DeleteObject? || a.ReconcileObject?)
    ensures ObjectInv(OtherStep(s, a), c)
  {
  }

  lemma CrashKeepsObject(s: State, c: Cid)
    requires ObjectInv(s, c)
    ensures ObjectInv(OtherStep(s, Crash), c)
  {
    SubsetSize(ObjectHolders(map[], c), ObjectHolders(s.calls, c));
  }

  lemma OtherKeepsObject(s: State, a: Action, c: Cid)
    requires OtherEnabled(s, a) && ObjectInv(s, c)
    ensures ObjectInv(OtherStep(s, a), c)
  {
    if a.Unbind? {
      UnbindKeepsObject(s, a.name, c);
    } else if a.ClaimObject? || a.DeleteObject? || a.ReconcileObject? {
      SweepKeepsObject(s, a, c);
    } else if a.Crash? {
      CrashKeepsObject(s, c);
    }
  }

  // ---- Rows, flags and shapes ---------------------------------------------------------------

  /** The claim flag of a row only ever falls, and only by a claim; new rows come from a mint. */
  lemma CallFlags(s: State, of: BlocksOf, a: Action, k: Key)
    requires CallEnabled(s, of, a)
    ensures k in s.blocks ==> k in Apply(s, of, a).blocks && Apply(s, of, a).blocks[k].available == s.blocks[k].available
    ensures k in Apply(s, of, a).blocks && k !in s.blocks ==> a.Mint? && k == a.key
  {
  }

  lemma OtherFlags(s: State, a: Action, k: Key)
    requires OtherEnabled(s, a)
    ensures k in OtherStep(s, a).blocks ==> k in s.blocks
    ensures k in OtherStep(s, a).blocks && OtherStep(s, a).blocks[k].available ==> s.blocks[k].available
    ensures k in s.blocks && !s.blocks[k].available && k in OtherStep(s, a).blocks ==> !OtherStep(s, a).blocks[k].available
    ensures k in s.blocks && k !in OtherStep(s, a).blocks ==> s.gc == BlockUnlinked(k)
  {
  }

  lemma StepKeepsOneAvailable(s: State, of: BlocksOf, a: Action)
    requires Enabled(s, of, a) && OneAvailable(s.blocks)
    ensures OneAvailable(Apply(s, of, a).blocks)
  {
    var s' := Apply(s, of, a);
    forall k, k' | Available(s'.blocks, k) && Available(s'.blocks, k') && k.hash == k'.hash ensures k == k' {
      if CallEnabled(s, of, a) {
        CallFlags(s, of, a, k);
        CallFlags(s, of, a, k');
      } else {
        OtherFlags(s, a, k);
        OtherFlags(s, a, k');
      }
      if k in s.blocks && k' in s.blocks { assert Available(s.blocks, k) && Available(s.blocks, k'); }
    }
  }

  lemma CallKeepsClaim(s: State, of: BlocksOf, a: Action, c: Cid)
    requires CallEnabled(s, of, a) && c in s.objects && !s.objects[c].available
    ensures c in Apply(s, of, a).objects && !Apply(s, of, a).objects[c].available
  {
    var ph := PhaseOf(s, a.p);
    if a.Bind? {
      BoundObject(s, ph, c);
    } else if a.ReserveObject? || a.GiveUp? {
      if !ph.Idle? && !ph.Releasing? {
        BumpedAt(s.objects, ph.cid, 1, c);
        BumpedAt(s.objects, ph.cid, -1, c);
      }
    }
  }

  lemma OtherKeepsClaim(s: State, a: Action, c: Cid)
    requires OtherEnabled(s, a) && c in s.objects && !s.objects[c].available
    ensures c in OtherStep(s, a).objects || (a.DeleteObject? && s.gc == ObjectUnlinked(c))
    ensures c in OtherStep(s, a).objects ==> !OtherStep(s, a).objects[c].available
  {
  }

  lemma CallKeepsGc(s: State, of: BlocksOf, a: Action)
    requires CallEnabled(s, of, a) && GcInv(s)
    ensures GcInv(Apply(s, of, a))
  {
    assert Apply(s, of, a).gc == s.gc;
    match s.gc
    case Resting =>
    case ObjectClaimed(c) => CallKeepsClaim(s, of, a, c);
    case ObjectUnlinked(c) => CallKeepsClaim(s, of, a, c);
    case BlockClaimed(k) => CallFlags(s, of, a, k);
    case BlockUnlinked(k) => CallFlags(s, of, a, k);
  }

  lemma OtherKeepsGc(s: State, a: Action)
    requires OtherEnabled(s, a) && GcInv(s)
    ensures GcInv(OtherStep(s, a))
  {
    match s.gc
    case Resting =>
    case ObjectClaimed(c) => OtherKeepsClaim(s, a, c);
    case ObjectUnlinked(c) => OtherKeepsClaim(s, a, c);
    case BlockClaimed(k) => OtherFlags(s, a, k);
    case BlockUnlinked(k) => OtherFlags(s, a, k);
  }

  /** A call releases the reservations it holds when it binds, unless they become edges. */
  predicate Releases(s: State, ph: Phase)
    requires ph.Reserved?
  {
    !AddsVersion(s, ph) || ph.prevRc != 0
  }

  /** How a call's step changes the count of `k`. */
  function Delta(s: State, of: BlocksOf, a: Action, k: Key): int
    requires CallEnabled(s, of, a)
  {
    match a
    case ReserveBlock(_, b) => One(k == b)
    case Mint(_, b) => One(k == b)
    case ReleaseBlock(_, b) => -One(k == b && k in s.blocks)
    case Bind(p) =>
      var ph := PhaseOf(s, p);
      -One(Releases(s, ph) && InPlacement(ph.held, k) && k in s.blocks)
    case _ => 0
  }

  lemma BoundCounts(s: State, ph: Phase, k: Key)
    requires ph.Reserved?
    ensures Count(Bound(s, ph).blocks, k) == Count(s.blocks, k) - One(Releases(s, ph) && InPlacement(ph.held, k) && k in s.blocks)
  {
  }

  lemma CallCounts(s: State, of: BlocksOf, a: Action, k: Key)
    requires CallEnabled(s, of, a)
    ensures Count(Apply(s, of, a).blocks, k) == Count(s.blocks, k) + Delta(s, of, a, k)
  {
    match a
    case ReserveBlock(_, b) => BumpedAt(s.blocks, b, 1, k);
    case ReleaseBlock(_, b) => BumpedAt(s.blocks, b, -1, k);
    case Mint(_, b) =>
    case Bind(p) => BoundCounts(s, PhaseOf(s, p), k);
    case _ =>
  }

  lemma CallKeepsRow(s: State, of: BlocksOf, a: Action, k: Key)
    requires CallEnabled(s, of, a) && RowInv(s, k) && Counted(s, k)
    ensures RowInv(Apply(s, of, a), k)
  {
    CallFlags(s, of, a, k);
    CallCounts(s, of, a, k);
    if HoldsBlock(PhaseOf(s, a.p), k) { HolderExists(s, a.p, k); }
  }

  /** Edges that an unbind drops belonged to named objects. */
  lemma KilledAreNamed(s: State, n: Name, k: Key)
    ensures KilledEdgesTo(s, n, k) <= NamedEdgesTo(s, k)
  {
    forall e | e in KilledEdgesTo(s, n, k) ensures Named(s.names, e.owner) {
      RefsRemove(s.names, n, e.owner);
    }
  }

  lemma UnbindKeepsRow(s: State, n: Name, k: Key)
    requires RowInv(s, k) && Counted(s, k)
    ensures RowInv(Unbound(s, n), k)
  {
    KilledAreNamed(s, n, k);
    if KilledEdgesTo(s, n, k) != {} { CountedIsAvailable(s, k); }
  }

  lemma OtherKeepsRow(s: State, a: Action, k: Key)
    requires OtherEnabled(s, a) && RowInv(s, k) && Counted(s, k) && GcInv(s)
    ensures RowInv(OtherStep(s, a), k)
  {
    if a.Unbind? { UnbindKeepsRow(s, a.name, k); }
  }

  // ---- Shapes -------------------------------------------------------------------------------

  lemma WithEdgesAt(edges: map<Edge, nat>, c: Cid, held: Placement, e: Edge)
    ensures e in WithEdges(edges, c, held) <==> e in edges || (e.owner == c && e.block in held)
    ensures e in edges ==> WithEdges(edges, c, held)[e] == edges[e]
    ensures e !in edges && e.owner == c && e.block in held ==> WithEdges(edges, c, held)[e] == held[e.block]
  {
    if e.owner == c && e.block in held { assert e == Edge(c, e.block); }
  }

  lemma CallKeepsManifest(s: State, of: BlocksOf, a: Action, c: Cid)
    requires CallEnabled(s, of, a) && c in s.manifests
    ensures c in Apply(s, of, a).manifests
    ensures !(a.SeeManifest? && c == PhaseOf(s, a.p).cid) ==> Apply(s, of, a).manifests[c] == s.manifests[c]
  {
    var tables := CallTables(s, of, a);
    assert Apply(s, of, a).manifests == tables.manifests;
    if !a.SeeManifest? { assert tables.manifests == s.manifests; }
  }

  lemma OtherKeepsManifest(s: State, a: Action, c: Cid)
    requires OtherEnabled(s, a) && GcInv(s) && c in s.manifests && ObjectInv(s, c)
    requires Named(s.names, c) || ObjectHolders(s.calls, c) != {}
    ensures c in OtherStep(s, a).manifests && OtherStep(s, a).manifests[c] == s.manifests[c]
  {
  }

  lemma CallKeepsPhases(s: State, of: BlocksOf, a: Action, q: Call)
    requires CallEnabled(s, of, a) && ShapeInv(s, of) && q in Apply(s, of, a).calls
    ensures PhaseInv(Apply(s, of, a), of, Apply(s, of, a).calls[q])
  {
    var s' := Apply(s, of, a);
    assert s'.calls == s.calls[a.p := NextPhase(s, of, a)];
    if q != a.p {
      assert PhaseInv(s, of, s.calls[q]);
      if s.calls[q].Reserved? && s.calls[q].ready { CallKeepsManifest(s, of, a, s.calls[q].cid); }
    } else if a.SeeManifest? {
      assert PhaseInv(s, of, s.calls[q]);
      if PhaseOf(s, q).alias { CallKeepsManifest(s, of, a, PhaseOf(s, q).cid); }
    }
  }

  lemma OtherKeepsPhases(s: State, of: BlocksOf, a: Action, q: Call)
    requires OtherEnabled(s, a) && Inv(s, of) && q in OtherStep(s, a).calls
    ensures PhaseInv(OtherStep(s, a), of, OtherStep(s, a).calls[q])
  {
    assert q in s.calls && OtherStep(s, a).calls[q] == s.calls[q];
    assert PhaseInv(s, of, s.calls[q]);
    var ph := s.calls[q];
    if ph.Reserved? && ph.ready {
      ObjectHolderExists(s, q);
      assert ObjectInv(s, ph.cid);
      OtherKeepsManifest(s, a, ph.cid);
    }
  }

  lemma BoundEdge(s: State, ph: Phase, e: Edge)
    requires ph.Reserved? && e in Bound(s, ph).edges
    ensures e in s.edges || (e.owner == ph.cid && e.block in ph.held)
  {
    if AddsVersion(s, ph) && ph.prevRc == 0 {
      assert Bound(s, ph).edges == WithEdges(s.edges, ph.cid, ph.held);
      WithEdgesAt(s.edges, ph.cid, ph.held, e);
    } else {
      assert Bound(s, ph).edges == s.edges;
    }
  }

  lemma CallKeepsEdgeShape(s: State, of: BlocksOf, a: Action, e: Edge)
    requires CallEnabled(s, of, a) && ShapeInv(s, of) && e in Apply(s, of, a).edges
    ensures e.block in of(e.owner)
  {
    if a.Bind? {
      assert PhaseInv(s, of, s.calls[a.p]);
      BoundEdge(s, PhaseOf(s, a.p), e);
    }
  }

  lemma OtherKeepsEdgeShape(s: State, a: Action, e: Edge)
    requires OtherEnabled(s, a) && e in OtherStep(s, a).edges
    ensures e in s.edges && OtherStep(s, a).edges[e] == s.edges[e]
  {
  }

  lemma CallKeepsInv(s: State, of: BlocksOf, a: Action)
    requires CallEnabled(s, of, a) && Inv(s, of) && forall k :: Counted(s, k)
    ensures Inv(Apply(s, of, a), of)
  {
    var s' := Apply(s, of, a);
    forall c ensures ObjectInv(s', c) {
      assert ObjectInv(s, c);
      CallKeepsObject(s, of, a, c);
    }
    forall k ensures RowInv(s', k) {
      assert RowInv(s, k) && Counted(s, k);
      CallKeepsRow(s, of, a, k);
    }
    StepKeepsOneAvailable(s, of, a);
    CallKeepsGc(s, of, a);
    forall q | q in s'.calls ensures PhaseInv(s', of, s'.calls[q]) { CallKeepsPhases(s, of, a, q); }
    forall e | e in s'.edges ensures e.block in of(e.owner) { CallKeepsEdgeShape(s, of, a, e); }
  }

  lemma OtherKeepsInv(s: State, of: BlocksOf, a: Action)
    requires OtherEnabled(s, a) && Inv(s, of) && forall k :: Counted(s, k)
    ensures Inv(OtherStep(s, a), of)
  {
    var s' := OtherStep(s, a);
    forall c ensures ObjectInv(s', c) {
      assert ObjectInv(s, c);
      OtherKeepsObject(s, a, c);
    }
    forall k ensures RowInv(s', k) {
      assert RowInv(s, k) && Counted(s, k);
      OtherKeepsRow(s, a, k);
    }
    assert Apply(s, of, a) == s' && Enabled(s, of, a);
    StepKeepsOneAvailable(s, of, a);
    OtherKeepsGc(s, a);
    forall q | q in s'.calls ensures PhaseInv(s', of, s'.calls[q]) { OtherKeepsPhases(s, of, a, q); }
    forall e | e in s'.edges ensures e.block in of(e.owner) { OtherKeepsEdgeShape(s, a, e); }
  }

  // ---- Steps other than a bind keep the pins ----------------------------------------------------

  /** Between binds, a call's reservations of `k` and the count of `k` move together. */
  lemma HoldingIsCounted(s: State, of: BlocksOf, a: Action, k: Key)
    requires CallEnabled(s, of, a) && !a.Bind? && (HoldsBlock(PhaseOf(s, a.p), k) ==> k in s.blocks)
    ensures One(HoldsBlock(NextPhase(s, of, a), k)) - One(HoldsBlock(PhaseOf(s, a.p), k)) <= Delta(s, of, a, k)
  {
  }

  lemma CallKeepsEdges(s: State, of: BlocksOf, a: Action, k: Key)
    requires CallEnabled(s, of, a) && !a.Bind?
    ensures EdgesTo(Apply(s, of, a).edges, k) == EdgesTo(s.edges, k)
    ensures NamedEdgesTo(Apply(s, of, a), k) == NamedEdgesTo(s, k)
  {
    assert Apply(s, of, a).names == s.names && Apply(s, of, a).edges == s.edges;
  }

  lemma CallMovesTogether(s: State, of: BlocksOf, a: Action, k: Key)
    requires CallEnabled(s, of, a) && !a.Bind? && (HoldsBlock(PhaseOf(s, a.p), k) ==> k in s.blocks)
    ensures Count(Apply(s, of, a).blocks, k) - |BlockHolders(Apply(s, of, a).calls, k)| >=
            Count(s.blocks, k) - |BlockHolders(s.calls, k)|
  {
    HoldingIsCounted(s, of, a, k);
    BlockHoldersMove(s, a.p, NextPhase(s, of, a), k);
    CallCounts(s, of, a, k);
  }

  lemma CallKeepsCounted(s: State, of: BlocksOf, a: Action, k: Key)
    requires CallEnabled(s, of, a) && !a.Bind? && Counted(s, k)
    ensures Counted(Apply(s, of, a), k)
  {
    if HoldsBlock(PhaseOf(s, a.p), k) { HolderExists(s, a.p, k); }
    CallMovesTogether(s, of, a, k);
    CallKeepsEdges(s, of, a, k);
  }

  /** A put rewrites the manifest of a named object with what it already says. */
  lemma RewriteKeepsEdges(s: State, of: BlocksOf, p: Call)
    requires CallEnabled(s, of, SeeManifest(p)) && Inv(s, of) && Pinned(s, of) && Named(s.names, PhaseOf(s, p).cid)
    ensures EdgesMatch(s.edges, s.manifests[PhaseOf(s, p).cid := PhaseOf(s, p).held], of, PhaseOf(s, p).cid)
  {
    var ph := PhaseOf(s, p);
    assert PhaseInv(s, of, s.calls[p]) && EdgesMatch(s.edges, s.manifests, of, ph.cid);
    forall h | h in of(ph.cid) ensures ph.held[h] == s.manifests[ph.cid][h] {
      var held, pinned := Key(h, ph.held[h]), Key(h, s.manifests[ph.cid][h]);
      assert Counted(s, held) && RowInv(s, held) && Counted(s, pinned) && RowInv(s, pinned);
      HolderExists(s, p, held);
      CountedIsAvailable(s, held);
      assert Edge(ph.cid, h) in NamedEdgesTo(s, pinned);
      CountedIsAvailable(s, pinned);
    }
  }

  lemma CallKeepsPinned(s: State, of: BlocksOf, a: Action)
    requires CallEnabled(s, of, a) && !a.Bind? && Inv(s, of) && Pinned(s, of)
    ensures Pinned(Apply(s, of, a), of)
  {
    var s' := Apply(s, of, a);
    assert s'.names == s.names && s'.edges == s.edges;
    forall c | Named(s'.names, c) ensures EdgesMatch(s'.edges, s'.manifests, of, c) {
      assert EdgesMatch(s.edges, s.manifests, of, c);
      if a.SeeManifest? && c == PhaseOf(s, a.p).cid {
        RewriteKeepsEdges(s, of, a.p);
      } else {
        CallKeepsManifest(s, of, a, c);
      }
    }
    forall k ensures Counted(s', k) {
      assert Counted(s, k);
      CallKeepsCounted(s, of, a, k);
    }
  }

  lemma UnbindKeepsCounted(s: State, n: Name, k: Key)
    requires Counted(s, k)
    ensures Counted(Unbound(s, n), k)
  {
    var s' := Unbound(s, n);
    var killed := KilledEdgesTo(s, n, k);
    KilledAreNamed(s, n, k);
    forall e | e in NamedEdgesTo(s', k) ensures e in NamedEdgesTo(s, k) - killed {
      RefsRemove(s.names, n, e.owner);
    }
    SubsetSize(NamedEdgesTo(s', k), NamedEdgesTo(s, k) - killed);
  }

  lemma ReconcileKeepsCounted(s: State, b: Key, to: int, k: Key)
    requires OtherEnabled(s, ReconcileBlock(b, to)) && Counted(s, k) && forall c :: ObjectInv(s, c)
    ensures Counted(OtherStep(s, ReconcileBlock(b, to)), k)
  {
    var s' := OtherStep(s, ReconcileBlock(b, to));
    assert NamedEdgesTo(s', k) == NamedEdgesTo(s, k);
    forall e | e in NamedEdgesTo(s, k) ensures e in LiveEdgesTo(s, k) { assert ObjectInv(s, e.owner); }
    SubsetSize(NamedEdgesTo(s, k), LiveEdgesTo(s, k));
  }

  lemma SweepCounts(s: State, a: Action, k: Key)
    requires OtherEnabled(s, a) && !a.Unbind? && !a.ReconcileBlock?
    ensures Count(OtherStep(s, a).blocks, k) == Count(s.blocks, k)
  {
  }

  lemma SweepKeepsCounted(s: State, a: Action, k: Key)
    requires OtherEnabled(s, a) && !a.Unbind? && !a.ReconcileBlock? && Counted(s, k)
    ensures Counted(OtherStep(s, a), k)
  {
    var s' := OtherStep(s, a);
    SweepCounts(s, a, k);
    assert s'.names == s.names;
    forall e | e in NamedEdgesTo(s', k) ensures e in NamedEdgesTo(s, k) { OtherKeepsEdgeShape(s, a, e); }
    SubsetSize(NamedEdgesTo(s', k), NamedEdgesTo(s, k));
    assert BlockHolders(s'.calls, k) == if a.Crash? then {} else BlockHolders(s.calls, k);
  }

  lemma UnbindKeepsEdges(s: State, of: BlocksOf, n: Name, c: Cid)
    requires ObjectInv(s, c) && Named(Unbound(s, n).names, c) && EdgesHeld(s, of)
    ensures EdgesMatch(Unbound(s, n).edges, s.manifests, of, c)
  {
    RefsRemove(s.names, n, c);
    assert EdgesMatch(s.edges, s.manifests, of, c) && c !in Killed(s, n);
  }

  lemma SweepKeepsEdges(s: State, of: BlocksOf, a: Action, c: Cid)
    requires OtherEnabled(s, a) && !a.Unbind? && ObjectInv(s, c) && GcInv(s) && Named(s.names, c) && EdgesHeld(s, of)
    ensures EdgesMatch(OtherStep(s, a).edges, OtherStep(s, a).manifests, of, c)
  {
    assert EdgesMatch(s.edges, s.manifests, of, c);
    OtherKeepsManifest(s, a, c);
    forall e: Edge | e in s.edges && e.owner == c ensures e in OtherStep(s, a).edges { }
  }

  lemma OtherKeepsPinned(s: State, of: BlocksOf, a: Action)
    requires OtherEnabled(s, a) && Inv(s, of) && Pinned(s, of)
    ensures Pinned(OtherStep(s, a), of)
  {
    var s' := OtherStep(s, a);
    forall k ensures Counted(s', k) {
      assert Counted(s, k);
      if a.Unbind? {
        UnbindKeepsCounted(s, a.name, k);
      } else if a.ReconcileBlock? {
        ReconcileKeepsCounted(s, a.key, a.to, k);
      } else {
        SweepKeepsCounted(s, a, k);
      }
    }
    forall c | Named(s'.names, c) ensures EdgesMatch(s'.edges, s'.manifests, of, c) {
      assert ObjectInv(s, c);
      if a.Unbind? {
        UnbindKeepsEdges(s, of, a.name, c);
      } else {
        SweepKeepsEdges(s, of, a, c);
      }
    }
  }

  // ---- A bind keeps the pins exactly when it is guarded ----------------------------------------

  /** The bind would give its object a first reference. */
  predicate Revives(s: State, ph: Phase)
    requires ph.Reserved?
  {
    AddsVersion(s, ph) && !Named(s.names, ph.cid)
  }

  /** The object's edge to `k.hash` is at `k`, or is missing and the bind will put it there. */
  predicate Pins(s: State, ph: Phase, k: Key)
    requires ph.Reserved?
  {
    var e := Edge(ph.cid, k.hash);
    if e in s.edges then s.edges[e] == k.generation else ph.prevRc == 0 && InPlacement(ph.held, k)
  }

  /** The bind turns its own reservation of `k` into a pin, or `k` is counted once too often. */
  predicate Backed(s: State, ph: Phase, k: Key)
    requires ph.Reserved?
  {
    || (ph.prevRc == 0 && InPlacement(ph.held, k))
    || Count(s.blocks, k) > |NamedEdgesTo(s, k)| + |BlockHolders(s.calls, k)|
  }

  predicate Safe(s: State, ph: Phase, h: Cid)
    requires ph.Reserved? && ph.cid in s.manifests
  {
    h in s.manifests[ph.cid] && var k := Key(h, s.manifests[ph.cid][h]); Pins(s, ph, k) && Backed(s, ph, k)
  }

  /** What a caller can check before a step: a bind that revives its object finds each block
      pinned, or about to be, at the generation the manifest lists, with a reference to spare. */
  ghost predicate Guarded(s: State, of: BlocksOf, a: Action) {
    a.Bind? && PhaseOf(s, a.p).Reserved? && Revives(s, PhaseOf(s, a.p)) ==>
      && PhaseOf(s, a.p).cid in s.manifests
      && forall h | h in of(PhaseOf(s, a.p).cid) :: Safe(s, PhaseOf(s, a.p), h)
  }

  lemma BoundPins(s: State, ph: Phase, k: Key)
    requires ph.Reserved?
    ensures Pins(s, ph, k) && AddsVersion(s, ph) <==>
            AddsVersion(s, ph) && Edge(ph.cid, k.hash) in EdgesTo(Bound(s, ph).edges, k)
  {
    WithEdgesAt(s.edges, ph.cid, ph.held, Edge(ph.cid, k.hash));
  }

  /** A bind changes no edge of another object, nor one that is there. */
  lemma BoundEdgeElsewhere(s: State, ph: Phase, e: Edge)
    requires ph.Reserved? && (e.owner != ph.cid || e in s.edges)
    ensures e in Bound(s, ph).edges <==> e in s.edges
    ensures e in s.edges ==> Bound(s, ph).edges[e] == s.edges[e]
  {
    WithEdgesAt(s.edges, ph.cid, ph.held, e);
  }

  lemma BoundNamed(s: State, ph: Phase, c: Cid)
    requires ph.Reserved?
    ensures Named(Bound(s, ph).names, c) <==> Named(s.names, c) || (AddsVersion(s, ph) && c == ph.cid)
  {
    BoundObject(s, ph, c);
  }

  lemma BindPinsElsewhere(s: State, ph: Phase, k: Key, e: Edge)
    requires ph.Reserved? && e != Edge(ph.cid, k.hash)
    ensures e in NamedEdgesTo(Bound(s, ph), k) <==> e in NamedEdgesTo(s, k)
  {
    if e.owner != ph.cid {
      BoundNamed(s, ph, e.owner);
      BoundEdgeElsewhere(s, ph, e);
    }
  }

  lemma BindPinsOwn(s: State, of: BlocksOf, p: Call, k: Key)
    requires CallEnabled(s, of, Bind(p)) && EdgesHeld(s, of) && ShapeInv(s, of)
    ensures Edge(PhaseOf(s, p).cid, k.hash) in NamedEdgesTo(Bound(s, PhaseOf(s, p)), k) <==>
            || Edge(PhaseOf(s, p).cid, k.hash) in NamedEdgesTo(s, k)
            || (Revives(s, PhaseOf(s, p)) && Pins(s, PhaseOf(s, p), k))
  {
    var ph := PhaseOf(s, p);
    var own := Edge(ph.cid, k.hash);
    assert PhaseInv(s, of, s.calls[p]);
    BoundPins(s, ph, k);
    BoundNamed(s, ph, ph.cid);
    if Named(s.names, ph.cid) { assert EdgesMatch(s.edges, s.manifests, of, ph.cid); }
    if own in s.edges { BoundEdgeElsewhere(s, ph, own); }
  }

  lemma DiffersIn<T>(before: set<T>, after: set<T>, x: T)
    requires (forall y | y != x :: y in after <==> y in before) && (x in before ==> x in after)
    ensures |after| == |before| + One(x in after && x !in before)
  {
    if x in after && x !in before {
      assert after == before + {x};
    } else {
      assert after == before;
    }
  }

  lemma BindPinsMore(s: State, of: BlocksOf, p: Call, k: Key)
    requires CallEnabled(s, of, Bind(p)) && EdgesHeld(s, of) && ShapeInv(s, of)
    ensures |NamedEdgesTo(Bound(s, PhaseOf(s, p)), k)| ==
            |NamedEdgesTo(s, k)| + One(Revives(s, PhaseOf(s, p)) && Pins(s, PhaseOf(s, p), k))
  {
    var ph := PhaseOf(s, p);
    var own := Edge(ph.cid, k.hash);
    var before, after := NamedEdgesTo(s, k), NamedEdgesTo(Bound(s, ph), k);
    forall e: Edge | e != own ensures e in after <==> e in before { BindPinsElsewhere(s, ph, k, e); }
    BindPinsOwn(s, of, p, k);
    DiffersIn(before, after, own);
  }

  lemma BindCountedIff(s: State, of: BlocksOf, p: Call, k: Key)
    requires CallEnabled(s, of, Bind(p)) && Inv(s, of) && Pinned(s, of)
    ensures Counted(Apply(s, of, Bind(p)), k) <==>
            (Revives(s, PhaseOf(s, p)) && Pins(s, PhaseOf(s, p), k) ==> Backed(s, PhaseOf(s, p), k))
  {
    var ph := PhaseOf(s, p);
    var s' := Apply(s, of, Bind(p));
    assert Counted(s, k) && RowInv(s, k);
    BindPinsMore(s, of, p, k);
    assert NamedEdgesTo(s', k) == NamedEdgesTo(Bound(s, ph), k);
    BlockHoldersMove(s, p, Idle, k);
    BoundCounts(s, ph, k);
    if HoldsBlock(ph, k) { HolderExists(s, p, k); }
  }

  /** The edges of an object that is named after a bind match its manifest, but for the one revived. */
  lemma BindKeepsEdges(s: State, of: BlocksOf, p: Call, c: Cid)
    requires CallEnabled(s, of, Bind(p)) && Inv(s, of) && Pinned(s, of)
    requires Named(s.names, c)
    ensures EdgesMatch(Bound(s, PhaseOf(s, p)).edges, s.manifests, of, c)
  {
    assert EdgesMatch(s.edges, s.manifests, of, c);
    forall h | h in of(c) ensures Edge(c, h) in Bound(s, PhaseOf(s, p)).edges &&
                                  Bound(s, PhaseOf(s, p)).edges[Edge(c, h)] == s.manifests[c][h] {
      BoundEdgeElsewhere(s, PhaseOf(s, p), Edge(c, h));
    }
  }

  lemma RevivedEdgesIff(s: State, of: BlocksOf, ph: Phase)
    requires ph.Reserved? && Revives(s, ph) && ph.cid in s.manifests
    ensures EdgesMatch(Bound(s, ph).edges, s.manifests, of, ph.cid) <==>
            forall h | h in of(ph.cid) :: h in s.manifests[ph.cid] && Pins(s, ph, Key(h, s.manifests[ph.cid][h]))
  {
    forall h | h in of(ph.cid) && h in s.manifests[ph.cid]
      ensures Pins(s, ph, Key(h, s.manifests[ph.cid][h])) <==>
              Edge(ph.cid, h) in Bound(s, ph).edges && Bound(s, ph).edges[Edge(ph.cid, h)] == s.manifests[ph.cid][h]
    {
      BoundPins(s, ph, Key(h, s.manifests[ph.cid][h]));
    }
  }

  lemma UnguardedBindUnpins(s: State, of: BlocksOf, p: Call)
    requires CallEnabled(s, of, Bind(p)) && Inv(s, of) && Pinned(s, of)
    requires Pinned(Apply(s, of, Bind(p)), of)
    ensures Guarded(s, of, Bind(p))
  {
    var ph := PhaseOf(s, p);
    var s' := Apply(s, of, Bind(p));
    if Revives(s, ph) {
      assert PhaseInv(s, of, s.calls[p]);
      BoundNamed(s, ph, ph.cid);
      assert EdgesMatch(s'.edges, s'.manifests, of, ph.cid);
      RevivedEdgesIff(s, of, ph);
      forall h | h in of(ph.cid) ensures Safe(s, ph, h) {
        var k := Key(h, s.manifests[ph.cid][h]);
        assert Counted(s', k);
        BindCountedIff(s, of, p, k);
      }
    }
  }

  /** What a revived object will pin is what its manifest lists. */
  lemma PinsWhatIsListed(s: State, of: BlocksOf, p: Call, k: Key)
    requires CallEnabled(s, of, Bind(p)) && Inv(s, of)
    requires Guarded(s, of, Bind(p)) && Revives(s, PhaseOf(s, p)) && Pins(s, PhaseOf(s, p), k)
    ensures Backed(s, PhaseOf(s, p), k)
  {
    var ph := PhaseOf(s, p);
    assert PhaseInv(s, of, s.calls[p]);
    assert k.hash in of(ph.cid);
    assert Safe(s, ph, k.hash);
    assert k == Key(k.hash, s.manifests[ph.cid][k.hash]);
  }

  lemma GuardedBindKeepsPinned(s: State, of: BlocksOf, p: Call)
    requires CallEnabled(s, of, Bind(p)) && Inv(s, of) && Pinned(s, of) && Guarded(s, of, Bind(p))
    ensures Pinned(Apply(s, of, Bind(p)), of)
  {
    var ph := PhaseOf(s, p);
    var s' := Apply(s, of, Bind(p));
    forall k ensures Counted(s', k) {
      BindCountedIff(s, of, p, k);
      if Revives(s, ph) && Pins(s, ph, k) { PinsWhatIsListed(s, of, p, k); }
    }
    forall c | Named(s'.names, c) ensures EdgesMatch(s'.edges, s'.manifests, of, c) {
      BoundNamed(s, ph, c);
      if Named(s.names, c) {
        BindKeepsEdges(s, of, p, c);
      } else {
        assert Revives(s, ph);
        forall h | h in of(ph.cid) ensures h in s.manifests[ph.cid] && Pins(s, ph, Key(h, s.manifests[ph.cid][h])) {
          assert Safe(s, ph, h);
        }
        RevivedEdgesIff(s, of, ph);
      }
    }
  }

  // ---- Runs ---------------------------------------------------------------------------------------

  ghost predicate Good(s: State, of: BlocksOf) {
    Inv(s, of) && Pinned(s, of)
  }

  lemma StartIsGood(of: BlocksOf)
    ensures Good(INITIAL, of)
  {
    forall c ensures ObjectInv(INITIAL, c) {
      assert Refs(INITIAL.names, c) == {} && ObjectHolders(INITIAL.calls, c) == {};
    }
    forall k ensures Counted(INITIAL, k) {
      assert NamedEdgesTo(INITIAL, k) == {} && BlockHolders(INITIAL.calls, k) == {};
    }
    forall c ensures !Named(INITIAL.names, c) { assert Refs(INITIAL.names, c) == {}; }
  }

  lemma StepKeepsGoodIff(s: State, of: BlocksOf, a: Action)
    requires Enabled(s, of, a) && Good(s, of)
    ensures Inv(Apply(s, of, a), of)
    ensures Pinned(Apply(s, of, a), of) <==> Guarded(s, of, a)
  {
    if CallEnabled(s, of, a) {
      CallKeepsInv(s, of, a);
      if !a.Bind? {
        CallKeepsPinned(s, of, a);
      } else if Guarded(s, of, a) {
        GuardedBindKeepsPinned(s, of, a.p);
      } else if Pinned(Apply(s, of, a), of) {
        UnguardedBindUnpins(s, of, a.p);
      }
    } else {
      OtherKeepsInv(s, of, a);
      OtherKeepsPinned(s, of, a);
    }
  }

  ghost predicate AllGuarded(s: State, of: BlocksOf, actions: seq<Action>)
    requires Runs(s, of, actions)
    decreases |actions|
  {
    actions == [] || (Guarded(s, of, actions[0]) && AllGuarded(Apply(s, of, actions[0]), of, actions[1..]))
  }

  ghost predicate PinnedThroughout(s: State, of: BlocksOf, actions: seq<Action>)
    requires Runs(s, of, actions)
    decreases |actions|
  {
    Pinned(s, of) && (actions == [] || PinnedThroughout(Apply(s, of, actions[0]), of, actions[1..]))
  }

  ghost predicate ReadableThroughout(s: State, of: BlocksOf, actions: seq<Action>)
    requires Runs(s, of, actions)
    decreases |actions|
  {
    Readable(s, of) && (actions == [] || ReadableThroughout(Apply(s, of, actions[0]), of, actions[1..]))
  }

  lemma {:induction false} GoodRunPinnedIff(s: State, of: BlocksOf, actions: seq<Action>)
    requires Good(s, of) && Runs(s, of, actions)
    ensures PinnedThroughout(s, of, actions) <==> AllGuarded(s, of, actions)
    decreases |actions|
  {
    if actions != [] {
      StepKeepsGoodIff(s, of, actions[0]);
      if Guarded(s, of, actions[0]) { GoodRunPinnedIff(Apply(s, of, actions[0]), of, actions[1..]); }
    }
  }

  /** From an empty store, every pin is kept at every step exactly when every bind is guarded. */
  lemma EveryRunKeepsPinsIff(of: BlocksOf, actions: seq<Action>)
    requires Runs(INITIAL, of, actions)
    ensures PinnedThroughout(INITIAL, of, actions) <==> AllGuarded(INITIAL, of, actions)
  {
    StartIsGood(of);
    GoodRunPinnedIff(INITIAL, of, actions);
  }

  lemma {:induction false} GoodRunIsReadable(s: State, of: BlocksOf, actions: seq<Action>)
    requires Good(s, of) && Runs(s, of, actions) && AllGuarded(s, of, actions)
    ensures ReadableThroughout(s, of, actions)
    decreases |actions|
  {
    PinnedIsReadable(s, of);
    if actions != [] {
      StepKeepsGoodIff(s, of, actions[0]);
      GoodRunIsReadable(Apply(s, of, actions[0]), of, actions[1..]);
    }
  }

  /** In a run whose binds are all guarded, every block file that a named object's manifest
      lists is there at every step. */
  lemma GuardedRunsKeepBlocks(of: BlocksOf, actions: seq<Action>)
    requires Runs(INITIAL, of, actions) && AllGuarded(INITIAL, of, actions)
    ensures ReadableThroughout(INITIAL, of, actions)
  {
    StartIsGood(of);
    GoodRunIsReadable(INITIAL, of, actions);
  }
}

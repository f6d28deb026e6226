// The reachability audit, phases 1 and 2: lower drifted counts to the recomputed truth,
// then reclaim everything dead.
module Audit {
  import opened Prelude
  import opened Versions
  import opened FileStore
  import opened StoreModel
  import R = Repository
  import C = Collector
  import I = Index

  // ---- The truth ---------------------------------------------------------------

  predicate Live(objects: Objects, c: Cid) {
    c in objects && objects[c].refcount > 0
  }

  /** The edges to `b` whose object is live. */
  function LiveEdgesTo(s: Store, b: Key): set<Edge> {
    set e | e in EdgesTo(s.edges, b) && Live(s.objects, e.owner)
  }

  predicate Hits(s: Store, e: Edge, b: Key)
    requires e in s.edges
  {
    b == Key(e.block, s.edges[e]) && Live(s.objects, e.owner)
  }

  /** How many edges of `order` count towards `b`. */
  ghost function Tally(s: Store, order: seq<Edge>, b: Key): nat
    requires forall e | e in order :: e in s.edges
  {
    if order == [] then 0
    else Tally(s, order[..|order| - 1], b) + if Hits(s, order[|order| - 1], b) then 1 else 0
  }

  lemma CapAdd<T>(live: set<T>, a: set<T>, e: T)
    requires e !in a
    ensures |live * (a + {e})| == |live * a| + if e in live then 1 else 0
  {
    if e in live {
      assert live * (a + {e}) == live * a + {e};
    } else {
      assert live * (a + {e}) == live * a;
    }
  }

  /** `order` lists the elements of `all`, each once. */
  ghost predicate ListsOnce(order: seq<Edge>, all: set<Edge>) {
    (forall i, j | 0 <= i < j < |order| :: order[i] != order[j]) && forall e :: e in all <==> e in order
  }

  lemma ListsFront(order: seq<Edge>, all: set<Edge>)
    requires order != [] && ListsOnce(order, all)
    ensures ListsOnce(order[..|order| - 1], all - {order[|order| - 1]})
    ensures all == all - {order[|order| - 1]} + {order[|order| - 1]}
  {
    var front, last := order[..|order| - 1], order[|order| - 1];
    assert order == front + [last];
  }

  lemma {:induction false} TallyCounts(s: Store, order: seq<Edge>, all: set<Edge>, b: Key, live: set<Edge>)
    requires forall e | e in order :: e in s.edges && (e in live <==> Hits(s, e, b))
    requires ListsOnce(order, all)
    ensures Tally(s, order, b) == |live * all|
    decreases |order|
  {
    if order == [] {
      assert live * all == {};
    } else {
      var front, last := order[..|order| - 1], order[|order| - 1];
      ListsFront(order, all);
      TallyCounts(s, front, all - {last}, b, live);
      CapAdd(live, all - {last}, last);
    }
  }

  function Entry(truth: map<Key, nat>, b: Key): nat {
    if b in truth then truth[b] else 0
  }

  /** `order` lists the edges not in `left`, each once. */
  ghost predicate Done(s: Store, order: seq<Edge>, left: set<Edge>) {
    && (forall e :: e in order <==> e in s.edges && e !in left)
    && forall i, j | 0 <= i < j < |order| :: order[i] != order[j]
  }

  lemma DoneNext(s: Store, order: seq<Edge>, left: set<Edge>, e: Edge)
    requires Done(s, order, left) && e in left && e in s.edges
    ensures Done(s, order + [e], left - {e})
    ensures forall b :: Tally(s, order + [e], b) == Tally(s, order, b) + if Hits(s, e, b) then 1 else 0
  {
    assert (order + [e])[..|order|] == order;
  }

  /** The recomputed block counts: one for each live object's edge. */
  method DerivedRefcounts(s: Store) returns (truth: map<Key, nat>)
    ensures forall b :: Entry(truth, b) == |LiveEdgesTo(s, b)|
  {
    truth := map[];
    var left := s.edges.Keys;
    ghost var order: seq<Edge> := [];
    while left != {}
      invariant left <= s.edges.Keys && Done(s, order, left)
      invariant forall b :: Entry(truth, b) == Tally(s, order, b)
      decreases left
    {
      var e :| e in left;
      DoneNext(s, order, left, e);
      if Live(s.objects, e.owner) {
        var b := Key(e.block, s.edges[e]);
        truth := truth[b := Entry(truth, b) + 1];
      }
      left, order := left - {e}, order + [e];
    }
    forall b ensures Entry(truth, b) == |LiveEdgesTo(s, b)| {
      TallyCounts(s, order, s.edges.Keys, b, LiveEdgesTo(s, b));
      assert LiveEdgesTo(s, b) * s.edges.Keys == LiveEdgesTo(s, b);
    }
  }

  // ---- Phase 1 -------------------------------------------------------------------

  function Lower(refcount: int, touchedAt: int, to: int, cutoff: int): int {
    if refcount > to && touchedAt <= cutoff then to else refcount
  }

  function ReconciledBlocks(s: Store, cutoff: int): Blocks {
    map b | b in s.blocks :: s.blocks[b].(refcount :=
      Lower(s.blocks[b].refcount, s.blocks[b].touchedAt, |LiveEdgesTo(s, b)|, cutoff))
  }

  function ReconciledObjects(s: Store, cutoff: int): Objects {
    map c | c in s.objects :: s.objects[c].(refcount :=
      Lower(s.objects[c].refcount, s.objects[c].touchedAt, |Refs(s.names, c)|, cutoff))
  }

  /** Both levels lowered to the truth as the snapshot saw it. */
  function Reconciled(s: Store, cutoff: int): Store {
    s.(blocks := ReconciledBlocks(s, cutoff), objects := ReconciledObjects(s, cutoff))
  }

  // ---- What a store that calls have crashed on still keeps -------------------------

  ghost predicate ObjectDrift(s: Store, c: Cid) {
    && (|Refs(s.names, c)| > 0 ==> c in s.objects && c in s.manifests && EdgesMatch(s.edges, c, s.manifests[c]))
    && (c in s.objects ==>
          s.objects[c].refcount >= |Refs(s.names, c)| && (!s.objects[c].available ==> s.objects[c].refcount == 0))
  }

  ghost predicate BlockDrift(s: Store, b: Key) {
    && (LiveEdgesTo(s, b) != {} ==> b in s.blocks)
    && (b in s.blocks ==>
          && s.blocks[b].refcount >= |LiveEdgesTo(s, b)|
          && (!s.blocks[b].available ==> s.blocks[b].refcount == 0)
          && (s.blocks[b].refcount > 0 ==> b in s.files))
  }

  /** Named objects have their manifest and edges, and every count is at or above the truth. */
  ghost predicate Drift(s: Store) {
    && (forall c :: ObjectDrift(s, c))
    && (forall b :: BlockDrift(s, b))
    && (forall e | e in s.edges :: e.owner in s.objects)
  }

  /** A call abandoned between any two of its steps leaves a store the audit can repair. */
  lemma AbandonedCallDrifts(s: Store, chunk: Chunker, leak: multiset<Key>, held: Option<Cid>)
    requires InFlight(s, chunk, leak, held)
    ensures Drift(s)
  {
    forall c ensures ObjectDrift(s, c) { assert ObjectInv(s, chunk, held, c); }
    forall b ensures BlockDrift(s, b) {
      assert BlockInv(s, leak, b);
      assert LiveEdgesTo(s, b) <= EdgesTo(s.edges, b);
      SubsetSize(LiveEdgesTo(s, b), EdgesTo(s.edges, b));
    }
    forall e | e in s.edges ensures e.owner in s.objects { assert ObjectInv(s, chunk, held, e.owner); }
  }

  /** Where that stops: an object's first version gets its edges exactly when bind is told the
      count was zero before. A reservation left behind by an abandoned put of the same content
      makes it non-zero, and then a named object is left without edges. */
  lemma FirstVersionGetsEdgesIff(s: Store, keys: seq<Key>, n: Name, c: Cid, prevRc: int)
    requires |Refs(s.names, c)| == 0 && NoEdges(s.edges, c) && c in s.manifests && Covers(keys, s.manifests[c])
    ensures EdgesMatch(BindResult(s, keys, n, c, prevRc).edges, c, s.manifests[c])
            <==> prevRc == 0 || s.manifests[c].blocks == []
    ensures prevRc != 0 && s.manifests[c].blocks != [] ==> !Drift(BindResult(s, keys, n, c, prevRc))
  {
    var s' := BindResult(s, keys, n, c, prevRc);
    if Current(s.names, n) == Some(c) {
      CurrentIsReferred(s.names, n, c);
    }
    if prevRc == 0 {
      WithEdgesMatch(s.edges, c, keys, s.manifests[c]);
    } else if s.manifests[c].blocks != [] {
      var first := s.manifests[c].blocks[0];
      assert Edge(c, first.hash) !in s'.edges;
      RefsAppend(s.names, n, c, c);
      assert !ObjectDrift(s', c);
    }
  }

  /** Lowering never takes a count below the truth, even though the objects it lowers may
      die and take their edges out of it. */
  lemma ReconcileKeepsDrift(s: Store, cutoff: int)
    requires Drift(s)
    ensures Drift(Reconciled(s, cutoff))
  {
    var s' := Reconciled(s, cutoff);
    forall c ensures ObjectDrift(s', c) { assert ObjectDrift(s, c); }
    forall b ensures BlockDrift(s', b) {
      assert BlockDrift(s, b);
      assert LiveEdgesTo(s', b) <= LiveEdgesTo(s, b);
      SubsetSize(LiveEdgesTo(s', b), LiveEdgesTo(s, b));
    }
  }

  /** What a name reaches: its object's manifest, and every block file that lists. */
  ghost predicate ReachKept(s: Store, s': Store, c: Cid) {
    && c in s.manifests && c in s'.manifests && s'.manifests[c] == s.manifests[c]
    && forall i | 0 <= i < |s.manifests[c].blocks| ::
         var b := Block(s.manifests[c].blocks[i]);
         b in s.files && b in s'.files && s'.files[b] == s.files[b]
  }

  lemma ReclaimKeepsDrift(s: Store, s': Store)
    requires Drift(s) && C.Collected(s, s')
    ensures Drift(s')
  {
    forall c ensures ObjectDrift(s', c) {
      assert ObjectDrift(s, c) && C.ObjectCollected(s, s', c);
    }
    forall b ensures BlockDrift(s', b) {
      assert BlockDrift(s, b) && C.BlockCollected(s, s', b);
      ReclaimKeepsLive(s, s', b);
    }
  }

  lemma ReclaimKeepsLive(s: Store, s': Store, b: Key)
    requires Drift(s) && C.Collected(s, s')
    ensures LiveEdgesTo(s', b) == LiveEdgesTo(s, b)
  {
    forall e ensures e in LiveEdgesTo(s', b) <==> e in LiveEdgesTo(s, b) {
      assert C.ObjectCollected(s, s', e.owner);
    }
  }

  lemma ReclaimKeepsReach(s: Store, s': Store, c: Cid)
    requires Drift(s) && C.Collected(s, s') && |Refs(s.names, c)| > 0
    ensures ReachKept(s, s', c)
  {
    assert ObjectDrift(s, c) && C.ObjectCollected(s, s', c);
    var m := s.manifests[c];
    forall i | 0 <= i < |m.blocks|
      ensures var b := Block(m.blocks[i]); b in s.files && b in s'.files && s'.files[b] == s.files[b]
    {
      var b := Block(m.blocks[i]);
      assert Edge(c, b.hash) in LiveEdgesTo(s, b);
      assert BlockDrift(s, b) && C.BlockCollected(s, s', b);
    }
  }

  // ---- One pass, and two -------------------------------------------------------------

  /** `s'` is what one audit pass leaves of `s`. */
  ghost predicate Audited(s: Store, s': Store, cutoff: int) {
    C.Collected(Reconciled(s, cutoff), s') && DeadObjects(s'.objects) == {} && DeadBlocks(s'.blocks) == {}
  }

  /** A pass keeps every count at or above the truth and everything a name reaches. */
  lemma AuditIsSafe(s: Store, s': Store, cutoff: int)
    requires Drift(s) && Audited(s, s', cutoff)
    ensures Drift(s') && s'.names == s.names
    ensures forall c | |Refs(s.names, c)| > 0 :: ReachKept(s, s', c)
  {
    ReconcileKeepsDrift(s, cutoff);
    ReclaimKeepsDrift(Reconciled(s, cutoff), s');
    forall c | |Refs(s.names, c)| > 0 ensures ReachKept(s, s', c) {
      ReclaimKeepsReach(Reconciled(s, cutoff), s', c);
    }
  }

  /** No row has been touched since the cutoff. */
  ghost predicate Quiescent(s: Store, cutoff: int) {
    && (forall c | c in s.objects :: s.objects[c].touchedAt <= cutoff)
    && (forall b | b in s.blocks :: s.blocks[b].touchedAt <= cutoff)
  }

  ghost predicate ObjectsExact(s: Store) {
    forall c | c in s.objects :: s.objects[c].refcount == |Refs(s.names, c)| > 0
  }

  ghost predicate BlocksExact(s: Store) {
    forall b | b in s.blocks :: s.blocks[b].refcount == |LiveEdgesTo(s, b)| > 0
  }

  lemma AuditFixesObjects(s: Store, s': Store, cutoff: int)
    requires Drift(s) && Quiescent(s, cutoff) && Audited(s, s', cutoff)
    ensures ObjectsExact(s') && Quiescent(s', cutoff)
  {
    var mid := Reconciled(s, cutoff);
    forall c | c in s'.objects
      ensures s'.objects[c].refcount == |Refs(s'.names, c)| > 0 && s'.objects[c].touchedAt <= cutoff
    {
      assert ObjectDrift(s, c) && C.ObjectCollected(mid, s', c);
      assert c !in DeadObjects(s'.objects);
    }
    forall b | b in s'.blocks ensures s'.blocks[b].touchedAt <= cutoff { assert C.BlockCollected(mid, s', b); }
  }

  /** Every live object that still has edges is named. */
  ghost predicate LiveAreNamed(s: Store) {
    forall e | e in s.edges && Live(s.objects, e.owner) :: |Refs(s.names, e.owner)| > 0
  }

  /** What lowering leaves at rest: blocks at the truth of before, objects at the truth. */
  lemma ReconciledExactly(s: Store, cutoff: int)
    requires Drift(s) && Quiescent(s, cutoff)
    ensures forall b | b in s.blocks :: Reconciled(s, cutoff).blocks[b].refcount == |LiveEdgesTo(s, b)|
    ensures forall c | c in s.objects :: Reconciled(s, cutoff).objects[c].refcount == |Refs(s.names, c)|
  {
    forall b | b in s.blocks ensures Reconciled(s, cutoff).blocks[b].refcount == |LiveEdgesTo(s, b)| {
      assert BlockDrift(s, b);
    }
    forall c | c in s.objects ensures Reconciled(s, cutoff).objects[c].refcount == |Refs(s.names, c)| {
      assert ObjectDrift(s, c);
    }
  }

  /** The edges that still count after lowering are those of named objects. */
  lemma ReconciledEdges(s: Store, cutoff: int, b: Key, e: Edge)
    requires Drift(s) && Quiescent(s, cutoff)
    ensures e in LiveEdgesTo(Reconciled(s, cutoff), b) <==> e in LiveEdgesTo(s, b) && |Refs(s.names, e.owner)| > 0
  {
    ReconciledExactly(s, cutoff);
    assert ObjectDrift(s, e.owner);
  }

  /** One block after one pass. */
  lemma AuditedBlock(s: Store, s': Store, cutoff: int, b: Key)
    requires Drift(s) && Quiescent(s, cutoff) && Audited(s, s', cutoff)
    ensures b in s'.blocks <==> b in s.blocks && LiveEdgesTo(s, b) != {}
    ensures b in s'.blocks ==> s'.blocks[b].refcount == |LiveEdgesTo(s, b)|
    ensures LiveEdgesTo(s', b) <= LiveEdgesTo(s, b)
    ensures forall e | e in LiveEdgesTo(s, b) :: e in LiveEdgesTo(s', b) <==> |Refs(s.names, e.owner)| > 0
  {
    var mid := Reconciled(s, cutoff);
    ReconciledExactly(s, cutoff);
    ReconcileKeepsDrift(s, cutoff);
    ReclaimKeepsLive(mid, s', b);
    forall e ensures e in LiveEdgesTo(s', b) <==> e in LiveEdgesTo(s, b) && |Refs(s.names, e.owner)| > 0 {
      ReconciledEdges(s, cutoff, b, e);
    }
    assert C.BlockCollected(mid, s', b) && b !in DeadBlocks(s'.blocks);
  }

  /** At rest, one pass makes the block counts exact if and only if every live object with
      edges is named. Otherwise the object dies in the same pass, after the truth its blocks
      were lowered to was taken. */
  lemma AuditFixesBlocksIff(s: Store, s': Store, cutoff: int)
    requires Drift(s) && Quiescent(s, cutoff) && Audited(s, s', cutoff)
    ensures BlocksExact(s') <==> LiveAreNamed(s)
  {
    if LiveAreNamed(s) {
      forall b | b in s'.blocks ensures s'.blocks[b].refcount == |LiveEdgesTo(s', b)| > 0 {
        AuditedBlock(s, s', cutoff, b);
        assert LiveEdgesTo(s', b) == LiveEdgesTo(s, b);
      }
    } else {
      var e :| e in s.edges && Live(s.objects, e.owner) && |Refs(s.names, e.owner)| == 0;
      var b := Key(e.block, s.edges[e]);
      assert e in LiveEdgesTo(s, b);
      assert BlockDrift(s, b);
      AuditedBlock(s, s', cutoff, b);
      SubsetSize(LiveEdgesTo(s', b), LiveEdgesTo(s, b));
    }
  }

  lemma ExactIsNamed(s: Store)
    requires ObjectsExact(s)
    ensures LiveAreNamed(s)
  {
  }

  /** A later cutoff finds at rest whatever an earlier one did. */
  lemma QuiescentLater(s: Store, cutoff: int, cutoff': int)
    requires Quiescent(s, cutoff) && cutoff <= cutoff'
    ensures Quiescent(s, cutoff')
  {
  }

  /** Two passes over a store at rest, each with its own cutoff, leave every count exact and no
      dead row, having kept everything any name reaches. */
  lemma TwoPassesRepair(s: Store, s1: Store, s2: Store, cutoff: int, cutoff': int)
    requires Drift(s) && Quiescent(s, cutoff) && cutoff <= cutoff'
    requires Audited(s, s1, cutoff) && Audited(s1, s2, cutoff')
    ensures ObjectsExact(s2) && BlocksExact(s2) && Drift(s2)
    ensures forall c | |Refs(s.names, c)| > 0 :: ReachKept(s, s2, c)
  {
    AuditIsSafe(s, s1, cutoff);
    AuditFixesObjects(s, s1, cutoff);
    QuiescentLater(s1, cutoff, cutoff');
    AuditIsSafe(s1, s2, cutoff');
    AuditFixesObjects(s1, s2, cutoff');
    ExactIsNamed(s1);
    AuditFixesBlocksIff(s1, s2, cutoff');
    forall c | |Refs(s.names, c)| > 0 ensures ReachKept(s, s2, c) {
      assert ReachKept(s, s1, c) && ReachKept(s1, s2, c);
    }
  }

  // ---- A store one pass does not repair -------------------------------------------------

  /** Unbinding keeps the audit's premise, stray reservations and all. */
  lemma UnbindKeepsDrift(s: Store, n: Name)
    requires Drift(s)
    ensures Drift(Unbound(s, n))
  {
    var s' := Unbound(s, n);
    var gone := EdgesOf(s.edges, Killed(s, n));
    forall c ensures ObjectDrift(s', c) {
      assert ObjectDrift(s, c);
      RefsRemove(s.names, n, c);
      if |Refs(s'.names, c)| > 0 { assert c !in Killed(s, n); }
    }
    forall b ensures BlockDrift(s', b) {
      assert BlockDrift(s, b);
      UnbindDropsLive(s, n, b);
    }
    forall e | e in s'.edges ensures e.owner in s'.objects { assert e in s.edges; }
  }

  /** The edges an unbind drops were all live, and no other edge stops being live. */
  lemma UnbindDropsLive(s: Store, n: Name, b: Key)
    requires Drift(s)
    ensures var gone := EdgesOf(s.edges, Killed(s, n));
            |LiveEdgesTo(Unbound(s, n), b)| + Dropped(s.edges, gone, b) == |LiveEdgesTo(s, b)|
  {
    var live, live' := LiveEdgesTo(s, b), LiveEdgesTo(Unbound(s, n), b);
    var dropped := EdgesTo(s.edges, b) * EdgesOf(s.edges, Killed(s, n));
    forall e
      ensures e in live <==> e in live' || e in dropped
      ensures !(e in live' && e in dropped)
    {
      UnbindDropsEdge(s, n, b, e);
    }
    assert live == live' + dropped && live' !! dropped;
  }

  lemma UnbindDropsEdge(s: Store, n: Name, b: Key, e: Edge)
    requires Drift(s)
    ensures var dropped := e in EdgesTo(s.edges, b) && e.owner in Killed(s, n);
            && (e in LiveEdgesTo(s, b) <==> e in LiveEdgesTo(Unbound(s, n), b) || dropped)
            && !(e in LiveEdgesTo(Unbound(s, n), b) && dropped)
  {
    assert ObjectDrift(s, e.owner);
    RefsRemove(s.names, n, e.owner);
  }

  /** A put abandoned after reserving the object, then the object's last name unbound: the
      stray reservation keeps the count above zero, so the edges stay, and the next pass at
      rest leaves block counts above the truth. */
  lemma OnePassFallsShort(s: Store, chunk: Chunker, leak: multiset<Key>, n: Name, c: Cid, s': Store, cutoff: int)
    requires InFlight(s, chunk, leak, Some(c))
    requires |Refs(s.names, c)| == |RefsOf(s.names, n, c)| > 0 && c in s.manifests && s.manifests[c].blocks != []
    requires Quiescent(s, cutoff) && Audited(Unbound(s, n), s', cutoff)
    ensures ObjectsExact(s') && !BlocksExact(s')
  {
    var u := Unbound(s, n);
    AbandonedCallDrifts(s, chunk, leak, Some(c));
    UnbindKeepsDrift(s, n);
    assert ObjectInv(s, chunk, Some(c), c);
    RefsRemove(s.names, n, c);
    assert c !in Killed(s, n) && Live(u.objects, c);
    var e := Edge(c, s.manifests[c].blocks[0].hash);
    assert e in u.edges;
    AuditFixesObjects(u, s', cutoff);
    AuditFixesBlocksIff(u, s', cutoff);
  }

  // ---- A store no pass may touch --------------------------------------------------------

  /** The rows of `keys` reserved once each, in order. */
  function ReservedAll(blocks: Blocks, keys: seq<Key>, now: int): Blocks {
    if keys == [] then blocks
    else
      var rest, b := ReservedAll(blocks, keys[..|keys| - 1], now), keys[|keys| - 1];
      if b in rest then rest[b := BlockRow(rest[b].refcount + 1, true, now)] else rest
  }

  lemma {:induction false} ReservedAt(blocks: Blocks, keys: seq<Key>, now: int, b: Key)
    ensures b in ReservedAll(blocks, keys, now) <==> b in blocks
    ensures b in blocks ==> ReservedAll(blocks, keys, now)[b].refcount == blocks[b].refcount + multiset(keys)[b]
    decreases |keys|
  {
    if keys != [] {
      var front, last := keys[..|keys| - 1], keys[|keys| - 1];
      ReservedAt(blocks, front, now, b);
      assert keys == front + [last];
    }
  }

  lemma {:induction false} ReleasedAt(blocks: Blocks, keys: seq<Key>, b: Key)
    ensures b in Released(blocks, keys) <==> b in blocks
    ensures b in blocks ==> Released(blocks, keys)[b].refcount == blocks[b].refcount - multiset(keys)[b]
    decreases |keys|
  {
    if keys != [] {
      var front, last := keys[..|keys| - 1], keys[|keys| - 1];
      ReleasedAt(blocks, front, b);
      assert keys == front + [last];
    }
  }

  /** A second put of the content `c` to the name `n`: it reserves the blocks and the object,
      and binds with the count it found before its own reserve. */
  function PutAgain(s: Store, keys: seq<Key>, n: Name, c: Cid, now: int): Store
    requires c in s.objects
  {
    var prevRc := s.objects[c].refcount;
    BindResult(s.(blocks := ReservedAll(s.blocks, keys, now), objects := s.objects[c := ObjectRow(prevRc + 1, true, now)]),
               keys, n, c, prevRc)
  }

  /** A block that no live object's edge pins does not survive a pass at rest. */
  lemma UnpinnedIsReclaimed(s: Store, s': Store, cutoff: int, b: Key)
    requires Quiescent(s, cutoff) && Audited(s, s', cutoff)
    requires b in s.blocks && s.blocks[b].refcount >= 0 && LiveEdgesTo(s, b) == {}
    ensures b !in s'.blocks && b !in s'.files
  {
    assert C.BlockCollected(Reconciled(s, cutoff), s', b) && b !in DeadBlocks(s'.blocks);
  }

  /** What follows: the first put of `c` is abandoned after its manifest is written, a second
      one binds the name and reports success, and the next pass at rest deletes the bytes the
      name reaches. This is S1 failing, and why an abandoned put must be audited away before
      the same content is put again. */
  lemma StrayReservationLosesBytes(s: Store, chunk: Chunker, leak: multiset<Key>, keys: seq<Key>, n: Name, c: Cid,
                                   now: int, s': Store, cutoff: int)
    requires InFlight(s, chunk, leak, Some(c)) && |Refs(s.names, c)| == 0
    requires c in s.manifests && Covers(keys, s.manifests[c]) && s.manifests[c].blocks != []
    requires EdgesTo(s.edges, Block(s.manifests[c].blocks[0])) == {}
    requires c in s.objects && Quiescent(PutAgain(s, keys, n, c, now), cutoff)
    requires Audited(PutAgain(s, keys, n, c, now), s', cutoff)
    ensures Current(s'.names, n) == Some(c) && s'.names == Append(s.names, n, c)
    ensures Block(s.manifests[c].blocks[0]) !in s'.files
  {
    var t, b := PutAgain(s, keys, n, c, now), Block(s.manifests[c].blocks[0]);
    assert ObjectInv(s, chunk, Some(c), c) && BlockInv(s, leak, b);
    if Current(s.names, n) == Some(c) { CurrentIsReferred(s.names, n, c); }
    assert ManifestInv(s.blocks, chunk, c, s.manifests[c]);
    assert Available(s.blocks, b);
    ReservedAt(s.blocks, keys, now, b);
    ReleasedAt(ReservedAll(s.blocks, keys, now), keys, b);
    assert t.blocks[b].refcount == s.blocks[b].refcount;
    assert LiveEdgesTo(t, b) <= EdgesTo(s.edges, b);
    UnpinnedIsReclaimed(t, s', cutoff, b);
  }

  // ---- After an abandoned call ------------------------------------------------------------

  /** The leaked reservations on rows touched since the cutoff. */
  ghost function Young(leak: multiset<Key>, blocks: Blocks, cutoff: int): (r: multiset<Key>)
    ensures forall b :: r[b] == if b in blocks && blocks[b].touchedAt > cutoff then leak[b] else 0
    decreases |leak|
  {
    if leak == multiset{} then multiset{}
    else
      var b :| b in leak;
      Young(leak - multiset{b}, blocks, cutoff)
      + if b in blocks && blocks[b].touchedAt > cutoff then multiset{b} else multiset{}
  }

  /** Between the steps of a call every edge is a named object's, so lowering takes away exactly
      the reservations at rest. */
  lemma ReconcileSettlesBlock(s: Store, chunk: Chunker, leak: multiset<Key>, held: Option<Cid>, cutoff: int, b: Key)
    requires InFlight(s, chunk, leak, held)
    ensures BlockInv(Reconciled(s, cutoff), Young(leak, s.blocks, cutoff), b)
  {
    assert BlockInv(s, leak, b);
    forall e | e in EdgesTo(s.edges, b) ensures e in LiveEdgesTo(s, b) {
      assert ObjectInv(s, chunk, held, e.owner);
    }
    assert LiveEdgesTo(s, b) == EdgesTo(s.edges, b);
  }

  lemma ReconcileSettlesObject(s: Store, chunk: Chunker, held: Option<Cid>, cutoff: int, c: Cid)
    requires ObjectInv(s, chunk, held, c)
    requires held == Some(c) ==> c in s.objects && s.objects[c].touchedAt <= cutoff
    ensures ObjectInv(Reconciled(s, cutoff), chunk, None, c)
  {
    var mid := Reconciled(s, cutoff);
    if c in s.manifests {
      forall b | Available(s.blocks, b) ensures Available(mid.blocks, b) {}
      assert ManifestInv(mid.blocks, chunk, c, s.manifests[c]);
    }
  }

  lemma ReconcileSettles(s: Store, chunk: Chunker, leak: multiset<Key>, held: Option<Cid>, cutoff: int)
    requires InFlight(s, chunk, leak, held)
    requires held.Some? ==> held.value in s.objects && s.objects[held.value].touchedAt <= cutoff
    ensures AtRest(Reconciled(s, cutoff), chunk, Young(leak, s.blocks, cutoff))
  {
    var mid := Reconciled(s, cutoff);
    forall b ensures BlockInv(mid, Young(leak, s.blocks, cutoff), b) {
      ReconcileSettlesBlock(s, chunk, leak, held, cutoff, b);
    }
    forall c ensures ObjectInv(mid, chunk, None, c) {
      assert ObjectInv(s, chunk, held, c);
      ReconcileSettlesObject(s, chunk, held, cutoff, c);
    }
    forall b ensures Available(mid.blocks, b) <==> Available(s.blocks, b) {}
  }

  /** One pass after a call abandoned at any step restores what holds between calls; at rest it
      leaves no reservation behind, so every count is exact. */
  lemma AuditRestores(s: Store, s': Store, chunk: Chunker, leak: multiset<Key>, held: Option<Cid>, cutoff: int)
    requires InFlight(s, chunk, leak, held) && Audited(s, s', cutoff)
    requires held.Some? ==> held.value in s.objects && s.objects[held.value].touchedAt <= cutoff
    ensures AtRest(s', chunk, Young(leak, s.blocks, cutoff)) && s'.names == s.names
    ensures Quiescent(s, cutoff) ==> AtRest(s', chunk, multiset{})
  {
    ReconcileSettles(s, chunk, leak, held, cutoff);
    C.CollectedKeepsAtRest(Reconciled(s, cutoff), s', chunk, Young(leak, s.blocks, cutoff));
    if Quiescent(s, cutoff) { assert Young(leak, s.blocks, cutoff) == multiset{}; }
  }

  // ---- Beside a call in progress -----------------------------------------------------------

  /** A row touched since the cutoff keeps its count, and if that is not zero its manifest or
      its file, whatever the truth would be. */
  lemma YoungRowsAreKept(s: Store, s': Store, cutoff: int, c: Cid, b: Key)
    requires Audited(s, s', cutoff)
    ensures c in s.objects && s.objects[c].touchedAt > cutoff && s.objects[c].refcount > 0 ==>
              && c in s'.objects && s'.objects[c] == s.objects[c]
              && (c in s'.manifests <==> c in s.manifests) && (c in s.manifests ==> s'.manifests[c] == s.manifests[c])
    ensures b in s.blocks && s.blocks[b].touchedAt > cutoff && s.blocks[b].refcount > 0 ==>
              && b in s'.blocks && s'.blocks[b] == s.blocks[b]
              && (b in s'.files <==> b in s.files) && (b in s.files ==> s'.files[b] == s.files[b])
  {
    var mid := Reconciled(s, cutoff);
    assert C.ObjectCollected(mid, s', c) && C.BlockCollected(mid, s', b);
  }

  /** What the call in progress holds has been touched since the cutoff: the object, and the
      blocks of its manifest. */
  ghost predicate YoungCall(s: Store, leak: multiset<Key>, held: Option<Cid>, cutoff: int) {
    held.Some? ==>
      && held.value in s.objects && s.objects[held.value].touchedAt > cutoff
      && C.HoldsBlocks(s, Young(leak, s.blocks, cutoff), held)
  }

  lemma ReconcileSparesObject(s: Store, chunk: Chunker, held: Option<Cid>, cutoff: int, c: Cid)
    requires ObjectInv(s, chunk, held, c)
    requires held == Some(c) ==> c in s.objects && s.objects[c].touchedAt > cutoff
    ensures ObjectInv(Reconciled(s, cutoff), chunk, held, c)
  {
    var mid := Reconciled(s, cutoff);
    if c in s.manifests {
      forall b | Available(s.blocks, b) ensures Available(mid.blocks, b) {}
      assert ManifestInv(mid.blocks, chunk, c, s.manifests[c]);
    }
  }

  /** An audit beside a call in progress that is within its grace leaves the call everything it
      holds: the pass removes only reservations at rest, and what a store promises between the
      steps of that call still holds. */
  lemma AuditSparesCalls(s: Store, s': Store, chunk: Chunker, leak: multiset<Key>, held: Option<Cid>, cutoff: int)
    requires InFlight(s, chunk, leak, held) && Audited(s, s', cutoff) && YoungCall(s, leak, held, cutoff)
    ensures InFlight(s', chunk, Young(leak, s.blocks, cutoff), held) && s'.names == s.names
    ensures held.Some? ==> held.value in s'.objects && s'.objects[held.value] == s.objects[held.value]
  {
    var mid, young := Reconciled(s, cutoff), Young(leak, s.blocks, cutoff);
    forall b ensures BlockInv(mid, young, b) { ReconcileSettlesBlock(s, chunk, leak, held, cutoff, b); }
    forall c ensures ObjectInv(mid, chunk, held, c) {
      assert ObjectInv(s, chunk, held, c);
      ReconcileSparesObject(s, chunk, held, cutoff, c);
    }
    forall b ensures Available(mid.blocks, b) <==> Available(s.blocks, b) {}
    C.CollectedKeepsInFlight(mid, s', chunk, young, held);
    if held.Some? {
      assert ObjectInv(s, chunk, held, held.value);
      YoungRowsAreKept(s, s', cutoff, held.value, Key(held.value, 0));
    }
  }

  // ---- The pass -----------------------------------------------------------------------

  /** The block rows a pass lowers. */
  function DriftedBlocks(s: Store, cutoff: int): set<Key> {
    set b | b in s.blocks && s.blocks[b].refcount > |LiveEdgesTo(s, b)| && s.blocks[b].touchedAt <= cutoff
  }

  function DriftedObjects(s: Store, cutoff: int): set<Cid> {
    set c | c in s.objects && s.objects[c].refcount > |Refs(s.names, c)| && s.objects[c].touchedAt <= cutoff
  }

  /** The rows a pass counts as reconciled are those whose count it changes, always downwards. */
  lemma DriftedAreLowered(s: Store, cutoff: int, b: Key, c: Cid)
    ensures b in DriftedBlocks(s, cutoff) <==>
              b in s.blocks && Reconciled(s, cutoff).blocks[b].refcount < s.blocks[b].refcount
    ensures c in DriftedObjects(s, cutoff) <==>
              c in s.objects && Reconciled(s, cutoff).objects[c].refcount < s.objects[c].refcount
    ensures b in s.blocks && b !in DriftedBlocks(s, cutoff) ==> Reconciled(s, cutoff).blocks[b] == s.blocks[b]
    ensures c in s.objects && c !in DriftedObjects(s, cutoff) ==> Reconciled(s, cutoff).objects[c] == s.objects[c]
  {
  }

  predicate IsDrifted(refcount: int, touchedAt: int, to: int, cutoff: int) {
    refcount > to && touchedAt <= cutoff
  }

  /** Row `b` goes from `row` to `target`, and is in `drifted` exactly if that moves it. */
  predicate Lowers(row: BlockRow, target: BlockRow, want: int, cutoff: int, moves: bool) {
    && target == row.(refcount := Lower(row.refcount, row.touchedAt, want, cutoff))
    && (moves <==> IsDrifted(row.refcount, row.touchedAt, want, cutoff))
  }

  method LowerBlock(index: I.SqliteNameIndex, b: Key, row: BlockRow, want: int, cutoff: int, ghost target: BlockRow, ghost moves: bool)
    returns (ok: bool)
    requires b in index.blocks && index.blocks[b] == row && Lowers(row, target, want, cutoff, moves)
    modifies index`blocks
    ensures index.blocks == old(index.blocks)[b := target] && ok == moves
  {
    ok := false;
    if row.refcount > want {
      ok := index.ReconcileBlock(b, want, cutoff);
    }
  }

  /** Lowers every row to `truth`, counting those in `drifted`; `target` is what that gives. */
  method LowerBlocks(index: I.SqliteNameIndex, truth: map<Key, nat>, cutoff: int, ghost target: Blocks, ghost drifted: set<Key>)
    returns (reconciled: nat)
    requires target.Keys == index.blocks.Keys && drifted <= target.Keys
    requires forall b | b in target :: Lowers(index.blocks[b], target[b], Entry(truth, b), cutoff, b in drifted)
    modifies index`blocks
    ensures index.blocks == target && reconciled == |drifted|
  {
    var snapshot := index.blocks;
    var left := snapshot.Keys;
    ghost var seen: set<Key> := {};
    reconciled := 0;
    while left != {}
      invariant left <= snapshot.Keys && index.blocks.Keys == snapshot.Keys && reconciled == |seen|
      invariant forall b | b in target :: b in seen <==> b in drifted && b !in left
      invariant forall b | b in seen :: b in target
      invariant forall b | b in snapshot :: index.blocks[b] == if b in left then snapshot[b] else target[b]
      decreases left
    {
      var b :| b in left;
      var ok := LowerBlock(index, b, snapshot[b], Entry(truth, b), cutoff, target[b], b in drifted);
      if ok {
        reconciled, seen := reconciled + 1, seen + {b};
      }
      left := left - {b};
    }
    assert seen == drifted;
  }

  /** Lowers every drifted block count that has been at rest since `cutoff`. */
  method ReconcileBlocks(repo: R.Repository, cutoff: int) returns (reconciled: nat)
    modifies repo.index`blocks
    ensures repo.index.blocks == ReconciledBlocks(old(repo.Snapshot()), cutoff)
    ensures reconciled == |DriftedBlocks(old(repo.Snapshot()), cutoff)|
  {
    ghost var s := repo.Snapshot();
    var truth := DerivedRefcounts(Store(repo.index.names, repo.index.objects, repo.index.blocks, repo.index.edges,
                                        repo.content.files, repo.content.manifests));
    reconciled := LowerBlocks(repo.index, truth, cutoff, ReconciledBlocks(s, cutoff), DriftedBlocks(s, cutoff));
  }

  method LowerObject(index: I.SqliteNameIndex, c: Cid, row: ObjectRow, want: int, cutoff: int, ghost target: ObjectRow, ghost moves: bool)
    returns (ok: bool)
    requires c in index.objects && index.objects[c] == row && LowersObject(row, target, want, cutoff, moves)
    modifies index`objects
    ensures index.objects == old(index.objects)[c := target] && ok == moves
  {
    ok := false;
    if row.refcount > want {
      ok := index.ReconcileObject(c, want, cutoff);
    }
  }

  predicate LowersObject(row: ObjectRow, target: ObjectRow, want: int, cutoff: int, moves: bool) {
    && target == row.(refcount := Lower(row.refcount, row.touchedAt, want, cutoff))
    && (moves <==> IsDrifted(row.refcount, row.touchedAt, want, cutoff))
  }

  /** The same for objects, against their name versions. */
  method LowerObjects(index: I.SqliteNameIndex, truth: map<Cid, nat>, cutoff: int, ghost target: Objects, ghost drifted: set<Cid>)
    returns (reconciled: nat)
    requires target.Keys == index.objects.Keys == truth.Keys && drifted <= target.Keys
    requires forall c | c in target :: LowersObject(index.objects[c], target[c], truth[c], cutoff, c in drifted)
    modifies index`objects
    ensures index.objects == target && reconciled == |drifted|
  {
    var snapshot := index.objects;
    var left := snapshot.Keys;
    ghost var seen: set<Cid> := {};
    reconciled := 0;
    while left != {}
      invariant left <= snapshot.Keys && index.objects.Keys == snapshot.Keys && reconciled == |seen|
      invariant forall c | c in target :: c in seen <==> c in drifted && c !in left
      invariant forall c | c in seen :: c in target
      invariant forall c | c in snapshot :: index.objects[c] == if c in left then snapshot[c] else target[c]
      decreases left
    {
      var c :| c in left;
      var ok := LowerObject(index, c, snapshot[c], truth[c], cutoff, target[c], c in drifted);
      if ok {
        reconciled, seen := reconciled + 1, seen + {c};
      }
      left := left - {c};
    }
    assert seen == drifted;
  }

  method ReconcileObjects(repo: R.Repository, cutoff: int) returns (reconciled: nat)
    modifies repo.index`objects
    ensures repo.index.objects == ReconciledObjects(old(repo.Snapshot()), cutoff)
    ensures reconciled == |DriftedObjects(old(repo.Snapshot()), cutoff)|
  {
    ghost var s := repo.Snapshot();
    var truth := map c | c in repo.index.objects :: |Refs(repo.index.names, c)|;
    reconciled := LowerObjects(repo.index, truth, cutoff, ReconciledObjects(s, cutoff), DriftedObjects(s, cutoff));
  }

  /** Phases 1 and 2 of one audit pass, with what its report counts. */
  method Audit(repo: R.Repository, cutoff: int) returns (reconciled: nat, reclaimed: C.Reclaimed)
    modifies repo.index, repo.content
    ensures Audited(old(repo.Snapshot()), repo.Snapshot(), cutoff)
    ensures reconciled == |DriftedBlocks(old(repo.Snapshot()), cutoff)| + |DriftedObjects(old(repo.Snapshot()), cutoff)|
    ensures reclaimed.objects + |repo.index.objects.Keys| == |old(repo.index.objects).Keys|
    ensures reclaimed.blocks + |repo.index.blocks.Keys| == |old(repo.index.blocks).Keys|
  {
    ghost var s := repo.Snapshot();
    var blocks := ReconcileBlocks(repo, cutoff);
    assert DriftedObjects(repo.Snapshot(), cutoff) == DriftedObjects(s, cutoff);
    var objects := ReconcileObjects(repo, cutoff);
    reconciled := blocks + objects;
    assert repo.Snapshot() == Reconciled(s, cutoff);
    assert repo.index.objects.Keys == s.objects.Keys && repo.index.blocks.Keys == s.blocks.Keys;
    var enough := 3 * (|DeadObjects(repo.index.objects)| + |DeadBlocks(repo.index.blocks)|);
    var done;
    done, reclaimed := C.Collect(repo, enough);
  }
}

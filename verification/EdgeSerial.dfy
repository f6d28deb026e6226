// Runs of EdgeProtocol whose calls keep out of each other's way: every bind is guarded, so every
// block of a named object is pinned and kept.
module EdgeSerial {
  import opened Prelude
  import opened Versions
  import opened EdgeProtocol

  /** No object is reserved by two calls at once; an alias revives a dead object only while it
      holds the very generations its manifest lists; a block is reconciled while the owners of
      its edges are live; and no crash comes between an object's reservation and its bind. */
  ghost predicate Serial(s: State, a: Action) {
    match a
    case ReserveObject(p) =>
      var ph := PhaseOf(s, p);
      ph.Reserving? ==>
        && ObjectHolders(s.calls, ph.cid) == {}
        && (ph.alias && Count(s.objects, ph.cid) == 0 ==> ph.cid in s.manifests && s.manifests[ph.cid] == ph.held)
    case ReconcileBlock(k, _) => LiveEdgesTo(s, k) == EdgesTo(s.edges, k)
    case Crash => forall p | p in s.calls :: !s.calls[p].Reserved?
    case _ => true
  }

  /** The count of an object is its references and its reservations, and there is at most one. */
  ghost predicate Exact(s: State, c: Cid) {
    && Count(s.objects, c) == |Refs(s.names, c)| + |ObjectHolders(s.calls, c)|
    && |ObjectHolders(s.calls, c)| <= 1
  }

  /** The count of a block covers every edge to it, named or not. */
  ghost predicate Covered(s: State, k: Key) {
    Count(s.blocks, k) >= |EdgesTo(s.edges, k)| + |BlockHolders(s.calls, k)|
  }

  predicate Ready(s: State, of: BlocksOf, ph: Phase) {
    ph.Reserved? ==>
      && (ph.prevRc != 0 ==> EdgesMatch(s.edges, s.manifests, of, ph.cid))
      && (ph.prevRc == 0 && (ph.ready || ph.alias) ==> ph.cid in s.manifests && s.manifests[ph.cid] == ph.held)
  }

  ghost predicate SerialInv(s: State, of: BlocksOf) {
    && (forall c :: Exact(s, c))
    && (forall k :: Covered(s, k))
    && (forall p | p in s.calls :: Ready(s, of, s.calls[p]))
  }

  lemma CoveredIsAvailable(s: State, k: Key)
    requires Covered(s, k) && RowInv(s, k) && (EdgesTo(s.edges, k) != {} || BlockHolders(s.calls, k) != {})
    ensures Available(s.blocks, k)
  {
  }

  /** An edge and a reservation of one hash are at one generation. */
  lemma EdgeIsHeld(s: State, of: BlocksOf, p: Call, e: Edge)
    requires Inv(s, of) && SerialInv(s, of)
    requires !PhaseOf(s, p).Idle? && e in s.edges && e.block in PhaseOf(s, p).held
    ensures s.edges[e] == PhaseOf(s, p).held[e.block]
  {
    var held, pinned := Key(e.block, PhaseOf(s, p).held[e.block]), Key(e.block, s.edges[e]);
    assert Covered(s, held) && RowInv(s, held) && Covered(s, pinned) && RowInv(s, pinned);
    HolderExists(s, p, held);
    CoveredIsAvailable(s, held);
    assert e in EdgesTo(s.edges, pinned);
    CoveredIsAvailable(s, pinned);
  }

  lemma SerialBindIsGuarded(s: State, of: BlocksOf, p: Call)
    requires CallEnabled(s, of, Bind(p)) && Inv(s, of) && SerialInv(s, of)
    ensures Guarded(s, of, Bind(p))
  {
    var ph := PhaseOf(s, p);
    if Revives(s, ph) {
      assert Ready(s, of, s.calls[p]) && PhaseInv(s, of, s.calls[p]);
      forall h | h in of(ph.cid) ensures Safe(s, ph, h) {
        var k, e := Key(h, s.manifests[ph.cid][h]), Edge(ph.cid, h);
        if ph.prevRc == 0 {
          if e in s.edges { EdgeIsHeld(s, of, p, e); }
        } else {
          assert e in EdgesTo(s.edges, k) - NamedEdgesTo(s, k);
          SubsetSize(NamedEdgesTo(s, k) + {e}, EdgesTo(s.edges, k));
          assert Covered(s, k);
        }
      }
    }
  }

  // ---- Exact counts ----------------------------------------------------------------------

  lemma BindKeepsExact(s: State, of: BlocksOf, p: Call, c: Cid)
    requires CallEnabled(s, of, Bind(p)) && Exact(s, c)
    ensures Exact(Apply(s, of, Bind(p)), c)
  {
    ObjectHoldersMove(s, p, Idle, c);
    BoundObject(s, PhaseOf(s, p), c);
    ObjectHolderExists(s, p);
    assert Apply(s, of, Bind(p)) == Bound(s, PhaseOf(s, p)).(calls := s.calls[p := Idle]);
  }

  lemma HoldKeepsExact(s: State, of: BlocksOf, a: Action, c: Cid)
    requires CallEnabled(s, of, a) && Serial(s, a) && Exact(s, c) && (a.ReserveObject? || a.GiveUp?)
    ensures Exact(Apply(s, of, a), c)
  {
    var ph := PhaseOf(s, a.p);
    ObjectHoldersMove(s, a.p, NextPhase(s, of, a), c);
    BumpedAt(s.objects, ph.cid, 1, c);
    BumpedAt(s.objects, ph.cid, -1, c);
    if ph.Reserved? { ObjectHolderExists(s, a.p); }
  }

  lemma CallKeepsExact(s: State, of: BlocksOf, a: Action, c: Cid)
    requires CallEnabled(s, of, a) && Serial(s, a) && Exact(s, c)
    ensures Exact(Apply(s, of, a), c)
  {
    if a.Bind? {
      BindKeepsExact(s, of, a.p, c);
    } else if a.ReserveObject? || a.GiveUp? {
      HoldKeepsExact(s, of, a, c);
    } else {
      ObjectHoldersMove(s, a.p, NextPhase(s, of, a), c);
    }
  }

  lemma UnbindKeepsExact(s: State, n: Name, c: Cid)
    requires Exact(s, c)
    ensures Exact(Unbound(s, n), c)
  {
    RefsRemove(s.names, n, c);
  }

  lemma CrashKeepsExact(s: State, c: Cid)
    requires Serial(s, Crash) && Exact(s, c)
    ensures Exact(OtherStep(s, Crash), c)
  {
    assert ObjectHolders(s.calls, c) == {} == ObjectHolders(map[], c);
  }

  lemma OtherKeepsExact(s: State, a: Action, c: Cid)
    requires OtherEnabled(s, a) && Serial(s, a) && Exact(s, c)
    ensures Exact(OtherStep(s, a), c)
  {
    if a.Unbind? {
      UnbindKeepsExact(s, a.name, c);
    } else if a.Crash? {
      CrashKeepsExact(s, c);
    }
  }

  // ---- Every edge covered ----------------------------------------------------------------

  lemma BoundEdgesTo(s: State, ph: Phase, k: Key)
    requires ph.Reserved?
    ensures |EdgesTo(Bound(s, ph).edges, k)| <=
            |EdgesTo(s.edges, k)| + One(AddsVersion(s, ph) && ph.prevRc == 0 && InPlacement(ph.held, k))
  {
    var own := Edge(ph.cid, k.hash);
    var before, after := EdgesTo(s.edges, k), EdgesTo(Bound(s, ph).edges, k);
    if AddsVersion(s, ph) && ph.prevRc == 0 {
      forall e | e in after ensures e in before || (e == own && InPlacement(ph.held, k)) {
        WithEdgesAt(s.edges, ph.cid, ph.held, e);
      }
      SubsetSize(after, if InPlacement(ph.held, k) then before + {own} else before);
    } else {
      assert Bound(s, ph).edges == s.edges;
    }
  }

  lemma BindKeepsCovered(s: State, of: BlocksOf, p: Call, k: Key)
    requires CallEnabled(s, of, Bind(p)) && Covered(s, k)
    ensures Covered(Apply(s, of, Bind(p)), k)
  {
    var ph := PhaseOf(s, p);
    if HoldsBlock(ph, k) { HolderExists(s, p, k); }
    BlockHoldersMove(s, p, Idle, k);
    BoundCounts(s, ph, k);
    BoundEdgesTo(s, ph, k);
  }

  lemma CallKeepsCovered(s: State, of: BlocksOf, a: Action, k: Key)
    requires CallEnabled(s, of, a) && Covered(s, k)
    ensures Covered(Apply(s, of, a), k)
  {
    if a.Bind? {
      BindKeepsCovered(s, of, a.p, k);
    } else {
      if HoldsBlock(PhaseOf(s, a.p), k) { HolderExists(s, a.p, k); }
      CallMovesTogether(s, of, a, k);
      CallKeepsEdges(s, of, a, k);
    }
  }

  lemma EdgesLeft(edges: map<Edge, nat>, owners: set<Cid>, k: Key, gone: set<Edge>)
    requires gone == set e | e in EdgesTo(edges, k) && e.owner in owners
    ensures |EdgesTo(edges - EdgesOf(edges, owners), k)| == |EdgesTo(edges, k)| - |gone|
  {
    var left := EdgesTo(edges - EdgesOf(edges, owners), k);
    assert EdgesTo(edges, k) == left + gone && left !! gone;
  }

  lemma UnbindKeepsCovered(s: State, n: Name, k: Key)
    requires Covered(s, k)
    ensures Covered(Unbound(s, n), k)
  {
    EdgesLeft(s.edges, Killed(s, n), k, KilledEdgesTo(s, n, k));
    assert Count(Unbound(s, n).blocks, k) == Count(s.blocks, k) - One(k in s.blocks) * |KilledEdgesTo(s, n, k)|;
  }

  lemma OtherKeepsCovered(s: State, a: Action, k: Key)
    requires OtherEnabled(s, a) && Serial(s, a) && Covered(s, k)
    ensures Covered(OtherStep(s, a), k)
  {
    var s' := OtherStep(s, a);
    if a.Unbind? {
      UnbindKeepsCovered(s, a.name, k);
    } else {
      if !a.ReconcileBlock? { SweepCounts(s, a, k); }
      forall e | e in EdgesTo(s'.edges, k) ensures e in EdgesTo(s.edges, k) { OtherKeepsEdgeShape(s, a, e); }
      SubsetSize(EdgesTo(s'.edges, k), EdgesTo(s.edges, k));
      assert BlockHolders(s'.calls, k) == if a.Crash? then {} else BlockHolders(s.calls, k);
    }
  }

  // ---- Reserved calls stay ready to bind -------------------------------------------------

  lemma OneHolder(s: State, p: Call, q: Call)
    requires PhaseOf(s, p).Reserved? && PhaseOf(s, q).Reserved? && PhaseOf(s, p).cid == PhaseOf(s, q).cid
    requires Exact(s, PhaseOf(s, p).cid)
    ensures p == q
  {
    SubsetSize({p, q}, ObjectHolders(s.calls, PhaseOf(s, p).cid));
  }

  lemma ReservedIsReady(s: State, of: BlocksOf, p: Call)
    requires CallEnabled(s, of, ReserveObject(p)) && Serial(s, ReserveObject(p)) && Pinned(s, of) && SerialInv(s, of)
    ensures Ready(s, of, NextPhase(s, of, ReserveObject(p)))
  {
    var c := PhaseOf(s, p).cid;
    assert Exact(s, c);
    if Count(s.objects, c) != 0 { assert EdgesMatch(s.edges, s.manifests, of, c); }
  }

  lemma WrittenIsReady(s: State, of: BlocksOf, p: Call)
    requires CallEnabled(s, of, SeeManifest(p)) && Inv(s, of) && SerialInv(s, of) && !PhaseOf(s, p).alias
    ensures var ph := PhaseOf(s, p);
            ph.prevRc != 0 ==> EdgesMatch(s.edges, s.manifests[ph.cid := ph.held], of, ph.cid)
  {
    var ph := PhaseOf(s, p);
    assert Ready(s, of, s.calls[p]) && PhaseInv(s, of, s.calls[p]);
    if ph.prevRc != 0 {
      forall h | h in of(ph.cid) ensures s.edges[Edge(ph.cid, h)] == ph.held[h] {
        EdgeIsHeld(s, of, p, Edge(ph.cid, h));
      }
    }
  }

  lemma CallerIsReady(s: State, of: BlocksOf, a: Action)
    requires CallEnabled(s, of, a) && Serial(s, a) && Good(s, of) && SerialInv(s, of)
    ensures Ready(Apply(s, of, a), of, NextPhase(s, of, a))
  {
    if a.ReserveObject? {
      ReservedIsReady(s, of, a.p);
      assert Apply(s, of, a).edges == s.edges && Apply(s, of, a).manifests == s.manifests;
    } else if a.SeeManifest? {
      var ph := PhaseOf(s, a.p);
      assert Ready(s, of, s.calls[a.p]);
      if !ph.alias { WrittenIsReady(s, of, a.p); }
      assert Apply(s, of, a).edges == s.edges;
    }
  }

  lemma CallKeepsEdgesOf(s: State, of: BlocksOf, a: Action, c: Cid)
    requires CallEnabled(s, of, a) && EdgesMatch(s.edges, s.manifests, of, c)
    requires PhaseOf(s, a.p).Reserved? ==> PhaseOf(s, a.p).cid != c
    ensures EdgesMatch(Apply(s, of, a).edges, Apply(s, of, a).manifests, of, c)
  {
    CallKeepsManifest(s, of, a, c);
    var edges := Apply(s, of, a).edges;
    forall h | h in of(c) ensures Edge(c, h) in edges && edges[Edge(c, h)] == s.edges[Edge(c, h)] {
      if a.Bind? {
        BoundEdgeElsewhere(s, PhaseOf(s, a.p), Edge(c, h));
      } else {
        assert edges == s.edges;
      }
    }
  }

  lemma OthersStayReady(s: State, of: BlocksOf, a: Action, q: Call)
    requires CallEnabled(s, of, a) && SerialInv(s, of) && q in s.calls && q != a.p
    ensures Ready(Apply(s, of, a), of, s.calls[q])
  {
    var ph := s.calls[q];
    assert Ready(s, of, ph);
    if ph.Reserved? {
      assert Exact(s, ph.cid);
      if PhaseOf(s, a.p).Reserved? && PhaseOf(s, a.p).cid == ph.cid { OneHolder(s, q, a.p); }
      if ph.prevRc != 0 {
        CallKeepsEdgesOf(s, of, a, ph.cid);
      } else if ph.ready || ph.alias {
        CallKeepsManifest(s, of, a, ph.cid);
      }
    }
  }

  lemma HeldEdgeStays(s: State, a: Action, e: Edge)
    requires OtherEnabled(s, a) && GcInv(s) && Exact(s, e.owner) && ObjectInv(s, e.owner)
    requires e in s.edges && ObjectHolders(s.calls, e.owner) != {}
    ensures e in OtherStep(s, a).edges && OtherStep(s, a).edges[e] == s.edges[e]
  {
    if a.Unbind? { RefsRemove(s.names, a.name, e.owner); }
  }

  lemma HeldEdgesStay(s: State, of: BlocksOf, a: Action, c: Cid)
    requires OtherEnabled(s, a) && GcInv(s) && Exact(s, c) && ObjectInv(s, c) && ObjectHolders(s.calls, c) != {}
    requires EdgesMatch(s.edges, s.manifests, of, c)
    ensures EdgesMatch(OtherStep(s, a).edges, OtherStep(s, a).manifests, of, c)
  {
    OtherKeepsManifest(s, a, c);
    forall h | h in of(c) ensures Edge(c, h) in OtherStep(s, a).edges &&
                                  OtherStep(s, a).edges[Edge(c, h)] == s.edges[Edge(c, h)] {
      HeldEdgeStays(s, a, Edge(c, h));
    }
  }

  lemma OtherKeepsReady(s: State, of: BlocksOf, a: Action, q: Call)
    requires OtherEnabled(s, a) && Inv(s, of) && SerialInv(s, of) && q in s.calls && q in OtherStep(s, a).calls
    ensures Ready(OtherStep(s, a), of, OtherStep(s, a).calls[q])
  {
    var s' := OtherStep(s, a);
    var ph := s.calls[q];
    assert s'.calls[q] == ph && Ready(s, of, ph);
    if ph.Reserved? {
      ObjectHolderExists(s, q);
      assert ObjectInv(s, ph.cid) && Exact(s, ph.cid);
      if ph.prevRc != 0 {
        HeldEdgesStay(s, of, a, ph.cid);
      } else if ph.cid in s.manifests {
        OtherKeepsManifest(s, a, ph.cid);
      }
    }
  }

  lemma CallKeepsSerial(s: State, of: BlocksOf, a: Action)
    requires CallEnabled(s, of, a) && Serial(s, a) && Good(s, of) && SerialInv(s, of)
    ensures SerialInv(Apply(s, of, a), of)
  {
    var s' := Apply(s, of, a);
    forall c ensures Exact(s', c) { assert Exact(s, c); CallKeepsExact(s, of, a, c); }
    forall k ensures Covered(s', k) { assert Covered(s, k); CallKeepsCovered(s, of, a, k); }
    assert s'.calls == s.calls[a.p := NextPhase(s, of, a)];
    forall q | q in s'.calls ensures Ready(s', of, s'.calls[q]) {
      if q == a.p { CallerIsReady(s, of, a); } else { OthersStayReady(s, of, a, q); }
    }
  }

  lemma OtherKeepsSerial(s: State, of: BlocksOf, a: Action)
    requires OtherEnabled(s, a) && Serial(s, a) && Inv(s, of) && SerialInv(s, of)
    ensures SerialInv(OtherStep(s, a), of)
  {
    var s' := OtherStep(s, a);
    forall c ensures Exact(s', c) { assert Exact(s, c); OtherKeepsExact(s, a, c); }
    forall k ensures Covered(s', k) { assert Covered(s, k); OtherKeepsCovered(s, a, k); }
    forall q | q in s'.calls ensures Ready(s', of, s'.calls[q]) { OtherKeepsReady(s, of, a, q); }
  }

  ghost predicate AllSerial(s: State, of: BlocksOf, actions: seq<Action>)
    requires Runs(s, of, actions)
    decreases |actions|
  {
    actions == [] || (Serial(s, actions[0]) && AllSerial(Apply(s, of, actions[0]), of, actions[1..]))
  }

  lemma {:induction false} SerialRunIsGuarded(s: State, of: BlocksOf, actions: seq<Action>)
    requires Good(s, of) && SerialInv(s, of) && Runs(s, of, actions) && AllSerial(s, of, actions)
    ensures AllGuarded(s, of, actions)
    decreases |actions|
  {
    if actions != [] {
      var a := actions[0];
      if CallEnabled(s, of, a) {
        if a.Bind? { SerialBindIsGuarded(s, of, a.p); }
        CallKeepsSerial(s, of, a);
      } else {
        OtherKeepsSerial(s, of, a);
      }
      StepKeepsGoodIff(s, of, a);
      SerialRunIsGuarded(Apply(s, of, a), of, actions[1..]);
    }
  }

  /** Runs whose calls keep out of each other's way pin and keep every named block throughout. */
  lemma EverySerialRunKeepsBlocks(of: BlocksOf, actions: seq<Action>)
    requires Runs(INITIAL, of, actions) && AllSerial(INITIAL, of, actions)
    ensures PinnedThroughout(INITIAL, of, actions) && ReadableThroughout(INITIAL, of, actions)
  {
    StartIsGood(of);
    forall c ensures Exact(INITIAL, c) {
      assert Refs(INITIAL.names, c) == {} && ObjectHolders(INITIAL.calls, c) == {};
    }
    forall k ensures Covered(INITIAL, k) {
      assert EdgesTo(INITIAL.edges, k) == {} && BlockHolders(INITIAL.calls, k) == {};
    }
    SerialRunIsGuarded(INITIAL, of, actions);
    EveryRunKeepsPinsIff(of, actions);
    GuardedRunsKeepBlocks(of, actions);
  }
}

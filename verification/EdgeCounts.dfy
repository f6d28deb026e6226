// What the counts of EdgeProtocol hold beyond the references and reservations there are: an
// exact account for every step and every guarded run, and runs in which nothing is left over.
module EdgeCounts {
  import opened Prelude
  import opened Versions
  import opened EdgeProtocol
  import opened EdgeSerial

  // ---- Objects ----------------------------------------------------------------------------

  function ObjectSlack(s: State, c: Cid): int {
    Count(s.objects, c) - |Refs(s.names, c)| - |ObjectHolders(s.calls, c)|
  }

  /** A crash leaves what its calls held, a reconcile what it was told above the versions, and
      no other step changes anything. */
  function ObjectSlackAfter(s: State, a: Action, c: Cid, slack: int): int {
    match a
    case Crash => slack + |ObjectHolders(s.calls, c)|
    case ReconcileObject(d, to) => if d == c then to - |Refs(s.names, c)| else slack
    case _ => slack
  }

  lemma BindMovesObjectSlack(s: State, of: BlocksOf, p: Call, c: Cid)
    requires CallEnabled(s, of, Bind(p)) && ObjectInv(s, c)
    ensures ObjectSlack(Apply(s, of, Bind(p)), c) == ObjectSlack(s, c)
  {
    ObjectHoldersMove(s, p, Idle, c);
    BoundObject(s, PhaseOf(s, p), c);
    ObjectHolderExists(s, p);
    assert Apply(s, of, Bind(p)) == Bound(s, PhaseOf(s, p)).(calls := s.calls[p := Idle]);
  }

  lemma HoldMovesObjectSlack(s: State, of: BlocksOf, a: Action, c: Cid)
    requires CallEnabled(s, of, a) && ObjectInv(s, c) && (a.ReserveObject? || a.GiveUp?)
    ensures ObjectSlack(Apply(s, of, a), c) == ObjectSlack(s, c)
  {
    var ph := PhaseOf(s, a.p);
    ObjectHoldersMove(s, a.p, NextPhase(s, of, a), c);
    BumpedAt(s.objects, ph.cid, 1, c);
    BumpedAt(s.objects, ph.cid, -1, c);
    if ph.Reserved? { ObjectHolderExists(s, a.p); }
  }

  lemma CallMovesObjectSlack(s: State, of: BlocksOf, a: Action, c: Cid)
    requires CallEnabled(s, of, a) && ObjectInv(s, c)
    ensures ObjectSlack(Apply(s, of, a), c) == ObjectSlack(s, c)
  {
    if a.Bind? {
      BindMovesObjectSlack(s, of, a.p, c);
    } else if a.ReserveObject? || a.GiveUp? {
      HoldMovesObjectSlack(s, of, a, c);
    } else {
      ObjectHoldersMove(s, a.p, NextPhase(s, of, a), c);
    }
  }

  lemma UnbindMovesObjectSlack(s: State, n: Name, c: Cid)
    requires ObjectInv(s, c)
    ensures ObjectSlack(Unbound(s, n), c) == ObjectSlack(s, c)
  {
    RefsRemove(s.names, n, c);
  }

  lemma OtherMovesObjectSlack(s: State, a: Action, c: Cid)
    requires OtherEnabled(s, a) && ObjectInv(s, c)
    ensures ObjectSlack(OtherStep(s, a), c) == ObjectSlackAfter(s, a, c, ObjectSlack(s, c))
  {
    if a.Unbind? {
      UnbindMovesObjectSlack(s, a.name, c);
    } else if a.Crash? {
      assert ObjectHolders(OtherStep(s, a).calls, c) == {};
    }
  }

  // ---- Blocks ------------------------------------------------------------------------------

  function BlockSlack(s: State, k: Key): int {
    Count(s.blocks, k) - |EdgesTo(s.edges, k)| - |BlockHolders(s.calls, k)|
  }

  /** The edges of `c` to `k`. */
  function EdgesFrom(s: State, c: Cid, k: Key): set<Edge> {
    set e | e in EdgesTo(s.edges, k) && e.owner in {c}
  }

  /** What a step leaves over: a crash and an abandoned call what they held; a bind its own
      reservation where an edge was already there; a deleted object the edges it still had;
      and a reconcile what it was told above the edges. */
  function BlockSlackAfter(s: State, a: Action, k: Key, slack: int): int {
    match a
    case Crash => slack + |BlockHolders(s.calls, k)|
    case Abandon(p) => slack + One(HoldsBlock(PhaseOf(s, p), k))
    case Bind(p) => slack + One(FindsEdge(s, PhaseOf(s, p), k))
    case DeleteObject => slack + if s.gc.ObjectUnlinked? then |EdgesFrom(s, s.gc.cid, k)| else 0
    case ReconcileBlock(b, to) => if b == k then to - |EdgesTo(s.edges, k)| else slack
    case _ => slack
  }

  /** A bind that was to record an edge to `k` finds one for the hash. */
  predicate FindsEdge(s: State, ph: Phase, k: Key) {
    ph.Reserved? && AddsVersion(s, ph) && ph.prevRc == 0 && InPlacement(ph.held, k) && Edge(ph.cid, k.hash) in s.edges
  }

  lemma BoundEdgesExactly(s: State, ph: Phase, k: Key)
    requires ph.Reserved?
    ensures |EdgesTo(Bound(s, ph).edges, k)| == |EdgesTo(s.edges, k)| +
              One(AddsVersion(s, ph) && ph.prevRc == 0 && InPlacement(ph.held, k) && Edge(ph.cid, k.hash) !in s.edges)
  {
    var own := Edge(ph.cid, k.hash);
    var before, after := EdgesTo(s.edges, k), EdgesTo(Bound(s, ph).edges, k);
    if AddsVersion(s, ph) && ph.prevRc == 0 {
      assert Bound(s, ph).edges == WithEdges(s.edges, ph.cid, ph.held);
      forall e: Edge ensures e in after <==> e in before || (e == own && e !in s.edges && InPlacement(ph.held, k)) {
        WithEdgesAt(s.edges, ph.cid, ph.held, e);
      }
      DiffersIn(before, after, own);
    } else {
      assert Bound(s, ph).edges == s.edges;
    }
  }

  lemma BindMovesBlockSlack(s: State, of: BlocksOf, p: Call, k: Key)
    requires CallEnabled(s, of, Bind(p)) && Counted(s, k)
    ensures BlockSlack(Apply(s, of, Bind(p)), k) == BlockSlackAfter(s, Bind(p), k, BlockSlack(s, k))
  {
    var ph := PhaseOf(s, p);
    if HoldsBlock(ph, k) { HolderExists(s, p, k); }
    BlockHoldersMove(s, p, Idle, k);
    BoundCounts(s, ph, k);
    BoundEdgesExactly(s, ph, k);
    assert Apply(s, of, Bind(p)) == Bound(s, ph).(calls := s.calls[p := Idle]);
  }

  /** Between binds, a call's reservations and the counts move by the same. */
  lemma HoldingMoves(s: State, of: BlocksOf, a: Action, k: Key)
    requires CallEnabled(s, of, a) && !a.Bind? && (HoldsBlock(PhaseOf(s, a.p), k) ==> k in s.blocks)
    ensures One(HoldsBlock(NextPhase(s, of, a), k)) - One(HoldsBlock(PhaseOf(s, a.p), k)) ==
            Delta(s, of, a, k) - One(a.Abandon? && HoldsBlock(PhaseOf(s, a.p), k))
  {
  }

  lemma CallMovesBlockSlack(s: State, of: BlocksOf, a: Action, k: Key)
    requires CallEnabled(s, of, a) && Counted(s, k)
    ensures BlockSlack(Apply(s, of, a), k) == BlockSlackAfter(s, a, k, BlockSlack(s, k))
  {
    if a.Bind? {
      BindMovesBlockSlack(s, of, a.p, k);
    } else {
      if HoldsBlock(PhaseOf(s, a.p), k) { HolderExists(s, a.p, k); }
      HoldingMoves(s, of, a, k);
      BlockHoldersMove(s, a.p, NextPhase(s, of, a), k);
      CallCounts(s, of, a, k);
      CallKeepsEdges(s, of, a, k);
    }
  }

  lemma UnbindMovesBlockSlack(s: State, n: Name, k: Key)
    requires Counted(s, k)
    ensures BlockSlack(Unbound(s, n), k) == BlockSlack(s, k)
  {
    var gone := KilledEdgesTo(s, n, k);
    EdgesLeft(s.edges, Killed(s, n), k, gone);
    KilledAreNamed(s, n, k);
    SubsetSize(gone, NamedEdgesTo(s, k));
    assert k in s.blocks || |gone| == 0;
    assert Count(Unbound(s, n).blocks, k) == Count(s.blocks, k) - |gone|;
  }

  lemma DeleteMovesBlockSlack(s: State, k: Key)
    requires OtherEnabled(s, DeleteObject) && GcInv(s) && ObjectInv(s, s.gc.cid)
    ensures BlockSlack(OtherStep(s, DeleteObject), k) == BlockSlackAfter(s, DeleteObject, k, BlockSlack(s, k))
  {
    EdgesLeft(s.edges, {s.gc.cid}, k, EdgesFrom(s, s.gc.cid, k));
    assert s.objects[s.gc.cid] == Row(0, false);
  }

  lemma SweepMovesBlockSlack(s: State, a: Action, k: Key)
    requires OtherEnabled(s, a) && !a.Unbind? && !a.DeleteObject?
    ensures BlockSlack(OtherStep(s, a), k) == BlockSlackAfter(s, a, k, BlockSlack(s, k))
  {
    if !a.ReconcileBlock? { SweepCounts(s, a, k); }
    assert OtherStep(s, a).edges == s.edges;
    assert BlockHolders(OtherStep(s, a).calls, k) == if a.Crash? then {} else BlockHolders(s.calls, k);
  }

  lemma OtherMovesBlockSlack(s: State, of: BlocksOf, a: Action, k: Key)
    requires OtherEnabled(s, a) && Good(s, of)
    ensures BlockSlack(OtherStep(s, a), k) == BlockSlackAfter(s, a, k, BlockSlack(s, k))
  {
    assert Counted(s, k);
    if a.Unbind? {
      UnbindMovesBlockSlack(s, a.name, k);
    } else if a.DeleteObject? {
      assert ObjectInv(s, s.gc.cid);
      DeleteMovesBlockSlack(s, k);
    } else {
      SweepMovesBlockSlack(s, a, k);
    }
  }

  // ---- Runs ----------------------------------------------------------------------------------

  function LostObject(s: State, of: BlocksOf, actions: seq<Action>, c: Cid, lost: int): int
    requires Runs(s, of, actions)
    decreases |actions|
  {
    if actions == [] then lost
    else LostObject(Apply(s, of, actions[0]), of, actions[1..], c, ObjectSlackAfter(s, actions[0], c, lost))
  }

  function LostBlock(s: State, of: BlocksOf, actions: seq<Action>, k: Key, lost: int): int
    requires Runs(s, of, actions)
    decreases |actions|
  {
    if actions == [] then lost
    else LostBlock(Apply(s, of, actions[0]), of, actions[1..], k, BlockSlackAfter(s, actions[0], k, lost))
  }

  lemma StepMovesSlack(s: State, of: BlocksOf, a: Action, c: Cid, k: Key)
    requires Enabled(s, of, a) && Good(s, of)
    ensures ObjectSlack(Apply(s, of, a), c) == ObjectSlackAfter(s, a, c, ObjectSlack(s, c))
    ensures BlockSlack(Apply(s, of, a), k) == BlockSlackAfter(s, a, k, BlockSlack(s, k))
  {
    assert ObjectInv(s, c) && Counted(s, k);
    if CallEnabled(s, of, a) {
      CallMovesObjectSlack(s, of, a, c);
      CallMovesBlockSlack(s, of, a, k);
    } else {
      OtherMovesObjectSlack(s, a, c);
      OtherMovesBlockSlack(s, of, a, k);
    }
  }

  lemma {:induction false} RunMovesSlack(s: State, of: BlocksOf, actions: seq<Action>, c: Cid, k: Key)
    requires Good(s, of) && Runs(s, of, actions) && AllGuarded(s, of, actions)
    ensures ObjectSlack(Exec(s, of, actions), c) == LostObject(s, of, actions, c, ObjectSlack(s, c))
    ensures BlockSlack(Exec(s, of, actions), k) == LostBlock(s, of, actions, k, BlockSlack(s, k))
    decreases |actions|
  {
    if actions != [] {
      StepKeepsGoodIff(s, of, actions[0]);
      StepMovesSlack(s, of, actions[0], c, k);
      RunMovesSlack(Apply(s, of, actions[0]), of, actions[1..], c, k);
    }
  }

  /** In every guarded run an object's count is its versions, its reservations and what was left
      over, and a block's count its edges, its reservations and what was left over, step by
      step as `ObjectSlackAfter` and `BlockSlackAfter` say. */
  lemma EveryCountIsAccountedFor(of: BlocksOf, actions: seq<Action>, c: Cid, k: Key)
    requires Runs(INITIAL, of, actions) && AllGuarded(INITIAL, of, actions)
    ensures var s := Exec(INITIAL, of, actions);
            && Count(s.objects, c) == |Refs(s.names, c)| + |ObjectHolders(s.calls, c)| + LostObject(INITIAL, of, actions, c, 0)
            && Count(s.blocks, k) == |EdgesTo(s.edges, k)| + |BlockHolders(s.calls, k)| + LostBlock(INITIAL, of, actions, k, 0)
  {
    StartIsGood(of);
    assert Refs(INITIAL.names, c) == {} && ObjectHolders(INITIAL.calls, c) == {};
    assert EdgesTo(INITIAL.edges, k) == {} && BlockHolders(INITIAL.calls, k) == {};
    RunMovesSlack(INITIAL, of, actions, c, k);
  }

  // ---- Runs that leave nothing over ------------------------------------------------------------

  /** No call is abandoned or dies, and none gives up an object that others have let go of. */
  predicate Tidy(s: State, a: Action) {
    match a
    case Crash => false
    case Abandon(_) => false
    case GiveUp(p) => PhaseOf(s, p).Reserved? ==> PhaseOf(s, p).prevRc == 0 || Named(s.names, PhaseOf(s, p).cid)
    case _ => true
  }

  ghost predicate AllTidy(s: State, of: BlocksOf, actions: seq<Action>)
    requires Runs(s, of, actions)
    decreases |actions|
  {
    actions == [] || (Tidy(s, actions[0]) && AllTidy(Apply(s, of, actions[0]), of, actions[1..]))
  }

  /** The object is named, or held by a call that found it live. */
  ghost predicate Owned(s: State, c: Cid) {
    Named(s.names, c) || exists p :: p in s.calls && HoldsObject(s.calls[p], c) && s.calls[p].prevRc != 0
  }

  ghost predicate TidyInv(s: State) {
    && (forall e | e in s.edges :: Owned(s, e.owner))
    && (forall p | p in s.calls && s.calls[p].Reserved? && s.calls[p].prevRc == 0 :: !Named(s.names, s.calls[p].cid))
    && (forall k :: BlockSlack(s, k) == 0)
  }

  lemma CurrentIsNamed(names: Versions, n: Name, c: Cid)
    requires Current(names, n) == Some(c)
    ensures Named(names, c)
  {
    RefsMember(names, Version(n, |History(names, n)| - 1), c);
  }

  lemma CallKeepsNamed(s: State, of: BlocksOf, a: Action, c: Cid)
    requires CallEnabled(s, of, a)
    ensures Named(Apply(s, of, a).names, c) <==>
              Named(s.names, c) || (a.Bind? && AddsVersion(s, PhaseOf(s, a.p)) && c == PhaseOf(s, a.p).cid)
  {
    if a.Bind? {
      BoundNamed(s, PhaseOf(s, a.p), c);
    } else {
      assert Apply(s, of, a).names == s.names;
    }
  }

  lemma CallKeepsFreshUnnamed(s: State, of: BlocksOf, a: Action, q: Call)
    requires CallEnabled(s, of, a) && SerialInv(s, of) && TidyInv(s) && Serial(s, a)
    requires var s' := Apply(s, of, a); q in s'.calls && s'.calls[q].Reserved? && s'.calls[q].prevRc == 0
    ensures !Named(Apply(s, of, a).names, Apply(s, of, a).calls[q].cid)
  {
    var s' := Apply(s, of, a);
    assert s'.calls == s.calls[a.p := NextPhase(s, of, a)];
    var c := s'.calls[q].cid;
    CallKeepsNamed(s, of, a, c);
    assert Exact(s, c);
    if q != a.p && a.Bind? && PhaseOf(s, a.p).cid == c { OneHolder(s, q, a.p); }
  }

  lemma CallKeepsOwned(s: State, of: BlocksOf, a: Action, c: Cid)
    requires CallEnabled(s, of, a) && Tidy(s, a) && Owned(s, c)
    ensures Owned(Apply(s, of, a), c)
  {
    var s' := Apply(s, of, a);
    CallKeepsNamed(s, of, a, c);
    if !Named(s.names, c) {
      var q :| q in s.calls && HoldsObject(s.calls[q], c) && s.calls[q].prevRc != 0;
      assert s'.calls == s.calls[a.p := NextPhase(s, of, a)];
      if q != a.p || a.SeeManifest? {
        assert HoldsObject(s'.calls[q], c) && s'.calls[q].prevRc != 0;
      } else if a.Bind? && !AddsVersion(s, s.calls[q]) {
        CurrentIsNamed(s.names, s.calls[q].name, c);
      }
    }
  }

  lemma CallKeepsEdgesOwned(s: State, of: BlocksOf, a: Action, e: Edge)
    requires CallEnabled(s, of, a) && Tidy(s, a) && TidyInv(s) && e in Apply(s, of, a).edges
    ensures Owned(Apply(s, of, a), e.owner)
  {
    if !a.Bind? { assert Apply(s, of, a).edges == s.edges; }
    if e in s.edges {
      CallKeepsOwned(s, of, a, e.owner);
    } else {
      BoundEdge(s, PhaseOf(s, a.p), e);
      CallKeepsNamed(s, of, a, e.owner);
    }
  }

  lemma UnbindKeepsOwned(s: State, of: BlocksOf, n: Name, e: Edge)
    requires Inv(s, of) && SerialInv(s, of) && TidyInv(s) && e in Unbound(s, n).edges
    ensures Owned(Unbound(s, n), e.owner)
  {
    var c := e.owner;
    assert e in s.edges && Owned(s, c) && Exact(s, c) && ObjectInv(s, c);
    RefsRemove(s.names, n, c);
    if !Named(s.names - {n}, c) {
      if Named(s.names, c) {
        assert c !in Killed(s, n);
        assert |ObjectHolders(s.calls, c)| > 0;
        var q :| q in ObjectHolders(s.calls, c);
        assert q in Unbound(s, n).calls && HoldsObject(s.calls[q], c) && s.calls[q].prevRc != 0;
      } else {
        var q :| q in s.calls && HoldsObject(s.calls[q], c) && s.calls[q].prevRc != 0;
        assert q in Unbound(s, n).calls;
      }
    }
  }

  lemma SweepKeepsCalls(s: State, a: Action, c: Cid)
    requires OtherEnabled(s, a) && !a.Unbind? && !a.Crash? && Owned(s, c)
    ensures Owned(OtherStep(s, a), c)
  {
    assert OtherStep(s, a).names == s.names && OtherStep(s, a).calls == s.calls;
  }

  lemma OtherKeepsEdgesOwned(s: State, of: BlocksOf, a: Action, e: Edge)
    requires OtherEnabled(s, a) && Tidy(s, a) && Inv(s, of) && SerialInv(s, of) && TidyInv(s)
    requires e in OtherStep(s, a).edges
    ensures Owned(OtherStep(s, a), e.owner)
  {
    if a.Unbind? {
      UnbindKeepsOwned(s, of, a.name, e);
    } else {
      OtherKeepsEdgeShape(s, a, e);
      SweepKeepsCalls(s, a, e.owner);
    }
  }

  lemma DeadHasNoEdges(s: State, of: BlocksOf, e: Edge)
    requires Inv(s, of) && TidyInv(s) && Count(s.objects, e.owner) == 0
    ensures e !in s.edges
  {
    if e in s.edges {
      assert ObjectInv(s, e.owner) && Owned(s, e.owner);
      var q :| q in s.calls && HoldsObject(s.calls[q], e.owner) && s.calls[q].prevRc != 0;
      ObjectHolderExists(s, q);
    }
  }

  /** There is nothing for a reconcile to lower. */
  lemma TidyNeedsNoReconcile(s: State, k: Key, to: int)
    requires TidyInv(s) && Serial(s, ReconcileBlock(k, to))
    ensures !OtherEnabled(s, ReconcileBlock(k, to))
  {
    assert BlockSlack(s, k) == 0;
  }

  /** What tidy steps would leave over is nothing. */
  lemma TidyLeavesNothing(s: State, of: BlocksOf, a: Action, k: Key)
    requires Enabled(s, of, a) && Serial(s, a) && Tidy(s, a) && Good(s, of) && SerialInv(s, of) && TidyInv(s)
    ensures BlockSlackAfter(s, a, k, 0) == 0
  {
    if a.Bind? {
      BindFindsNoEdge(s, of, a.p, k);
    } else if a.DeleteObject? {
      assert ObjectInv(s, s.gc.cid);
      forall e: Edge | e.owner == s.gc.cid ensures e !in s.edges { DeadHasNoEdges(s, of, e); }
      assert EdgesFrom(s, s.gc.cid, k) == {};
    } else if a.ReconcileBlock? {
      TidyNeedsNoReconcile(s, a.key, a.to);
    }
  }

  lemma BindFindsNoEdge(s: State, of: BlocksOf, p: Call, k: Key)
    requires CallEnabled(s, of, Bind(p)) && SerialInv(s, of) && TidyInv(s)
    ensures !FindsEdge(s, PhaseOf(s, p), k)
  {
    var ph := PhaseOf(s, p);
    if FindsEdge(s, ph, k) {
      assert Edge(ph.cid, k.hash) in s.edges && Owned(s, ph.cid) && Exact(s, ph.cid);
      if q :| q in s.calls && HoldsObject(s.calls[q], ph.cid) && s.calls[q].prevRc != 0 {
        OneHolder(s, p, q);
      }
    }
  }

  lemma StepKeepsTidy(s: State, of: BlocksOf, a: Action)
    requires Enabled(s, of, a) && Serial(s, a) && Tidy(s, a) && Good(s, of) && SerialInv(s, of) && TidyInv(s)
    ensures TidyInv(Apply(s, of, a))
  {
    var s' := Apply(s, of, a);
    forall k ensures BlockSlack(s', k) == 0 {
      assert BlockSlack(s, k) == 0;
      StepMovesSlack(s, of, a, Cid([]), k);
      TidyLeavesNothing(s, of, a, k);
    }
    forall e | e in s'.edges ensures Owned(s', e.owner) {
      if CallEnabled(s, of, a) { CallKeepsEdgesOwned(s, of, a, e); } else { OtherKeepsEdgesOwned(s, of, a, e); }
    }
    forall q | q in s'.calls && s'.calls[q].Reserved? && s'.calls[q].prevRc == 0
      ensures !Named(s'.names, s'.calls[q].cid)
    {
      if CallEnabled(s, of, a) {
        CallKeepsFreshUnnamed(s, of, a, q);
      } else {
        OtherKeepsUnnamed(s, a, s'.calls[q].cid);
        assert q in s.calls && s'.calls[q] == s.calls[q];
      }
    }
  }

  lemma OtherKeepsUnnamed(s: State, a: Action, c: Cid)
    requires OtherEnabled(s, a)
    ensures Named(OtherStep(s, a).names, c) ==> Named(s.names, c)
  {
    if a.Unbind? { RefsRemove(s.names, a.name, c); }
  }

  lemma {:induction false} RunKeepsTidy(s: State, of: BlocksOf, actions: seq<Action>)
    requires Good(s, of) && SerialInv(s, of) && TidyInv(s)
    requires Runs(s, of, actions) && AllSerial(s, of, actions) && AllTidy(s, of, actions)
    ensures SerialInv(Exec(s, of, actions), of) && TidyInv(Exec(s, of, actions)) && Good(Exec(s, of, actions), of)
    decreases |actions|
  {
    if actions != [] {
      var a := actions[0];
      StepKeepsTidy(s, of, a);
      if CallEnabled(s, of, a) {
        if a.Bind? { SerialBindIsGuarded(s, of, a.p); }
        CallKeepsSerial(s, of, a);
      } else {
        OtherKeepsSerial(s, of, a);
      }
      StepKeepsGoodIff(s, of, a);
      RunKeepsTidy(Apply(s, of, a), of, actions[1..]);
    }
  }

  lemma StartIsTidy(of: BlocksOf)
    ensures SerialInv(INITIAL, of) && TidyInv(INITIAL)
  {
    forall c ensures Exact(INITIAL, c) {
      assert Refs(INITIAL.names, c) == {} && ObjectHolders(INITIAL.calls, c) == {};
    }
    forall k ensures Covered(INITIAL, k) && BlockSlack(INITIAL, k) == 0 {
      assert EdgesTo(INITIAL.edges, k) == {} && BlockHolders(INITIAL.calls, k) == {};
    }
  }

  lemma TidyMeans(s: State, of: BlocksOf, c: Cid, k: Key)
    requires SerialInv(s, of) && TidyInv(s)
    ensures Count(s.blocks, k) == |EdgesTo(s.edges, k)| + |BlockHolders(s.calls, k)|
    ensures s.gc.Resting? && Available(s.blocks, k) ==>
              (OtherEnabled(s, ClaimBlock(k)) <==> EdgesTo(s.edges, k) == {} && BlockHolders(s.calls, k) == {})
    ensures s.gc.Resting? && c in s.objects && s.objects[c].available ==>
              (OtherEnabled(s, ClaimObject(c)) <==> !Named(s.names, c) && ObjectHolders(s.calls, c) == {})
  {
    assert Exact(s, c) && BlockSlack(s, k) == 0;
  }

  lemma OwnedIsNamedOrHeld(s: State, c: Cid)
    requires Owned(s, c)
    ensures Named(s.names, c) || ObjectHolders(s.calls, c) != {}
  {
    if !Named(s.names, c) {
      var q :| q in s.calls && HoldsObject(s.calls[q], c) && s.calls[q].prevRc != 0;
      assert q in ObjectHolders(s.calls, c);
    }
  }

  /** In runs whose calls keep out of each other's way and leave nothing over, both counts are
      exact, every edge is that of a named or held object, and the collector at rest may claim
      a block, or an object, exactly when nothing refers to it and no call holds it. */
  lemma EveryTidyRunIsExact(of: BlocksOf, actions: seq<Action>, c: Cid, k: Key)
    requires Runs(INITIAL, of, actions) && AllSerial(INITIAL, of, actions) && AllTidy(INITIAL, of, actions)
    ensures var s := Exec(INITIAL, of, actions);
            && Count(s.objects, c) == |Refs(s.names, c)| + |ObjectHolders(s.calls, c)|
            && Count(s.blocks, k) == |EdgesTo(s.edges, k)| + |BlockHolders(s.calls, k)|
            && (forall e | e in s.edges :: Named(s.names, e.owner) || ObjectHolders(s.calls, e.owner) != {})
            && (s.gc.Resting? && Available(s.blocks, k) ==>
                  (OtherEnabled(s, ClaimBlock(k)) <==> EdgesTo(s.edges, k) == {} && BlockHolders(s.calls, k) == {}))
            && (s.gc.Resting? && c in s.objects && s.objects[c].available ==>
                  (OtherEnabled(s, ClaimObject(c)) <==> !Named(s.names, c) && ObjectHolders(s.calls, c) == {}))
  {
    var s := Exec(INITIAL, of, actions);
    StartIsGood(of);
    StartIsTidy(of);
    RunKeepsTidy(INITIAL, of, actions);
    TidyMeans(s, of, c, k);
    assert Exact(s, c);
    forall e | e in s.edges ensures Named(s.names, e.owner) || ObjectHolders(s.calls, e.owner) != {} {
      OwnedIsNamedOrHeld(s, e.owner);
    }
  }

  // ---- Nobody waits ------------------------------------------------------------------------------

  lemma {:induction false} FreshGeneration(keys: set<Key>, h: Cid) returns (g: nat)
    ensures forall k | k in keys && k.hash == h :: k.generation < g
    decreases keys
  {
    if keys == {} {
      g := 0;
    } else {
      var k :| k in keys;
      g := FreshGeneration(keys - {k}, h);
      if g <= k.generation { g := k.generation + 1; }
    }
  }

  /** A put that lacks a block of its object can take it: the available generation if there is
      one, else a fresh one. An alias can exactly when there is one. */
  lemma BlocksCanBeTaken(s: State, of: BlocksOf, p: Call, h: Cid)
    requires PhaseOf(s, p).Reserving? && h in of(PhaseOf(s, p).cid) && h !in PhaseOf(s, p).held
    ensures NoneAvailable(s.blocks, h) <==> forall k: Key | k.hash == h :: !CallEnabled(s, of, ReserveBlock(p, k))
    ensures !PhaseOf(s, p).alias && NoneAvailable(s.blocks, h) ==>
              exists k: Key :: k.hash == h && CallEnabled(s, of, Mint(p, k))
  {
    if !NoneAvailable(s.blocks, h) {
      var k :| k in s.blocks && k.hash == h && s.blocks[k].available;
      assert CallEnabled(s, of, ReserveBlock(p, k));
    } else {
      var g := FreshGeneration(s.blocks.Keys, h);
      assert Key(h, g) !in s.blocks;
      assert !PhaseOf(s, p).alias ==> CallEnabled(s, of, Mint(p, Key(h, g)));
    }
  }

  /** Whatever the others do, each call has a step to take: an idle one may begin; one that has
      its blocks may reserve its object unless it is claimed, or an alias finds it gone; one
      that has its object may see to its manifest, and then bind; and any of them may give up,
      and give back what it holds one by one. */
  lemma CallsAreNeverStuck(s: State, of: BlocksOf, p: Call, n: Name, c: Cid, k: Key)
    requires ShapeInv(s, of)
    ensures match PhaseOf(s, p)
            case Idle =>
              CallEnabled(s, of, Begin(p, n, c, false)) && (CallEnabled(s, of, Begin(p, n, c, true)) <==> c in s.manifests)
            case Reserving(_, d, held, alias) =>
              && CallEnabled(s, of, GiveUp(p)) && CallEnabled(s, of, Abandon(p))
              && (CallEnabled(s, of, ReserveBlock(p, k)) ==> k.hash in of(d) && k.hash !in held)
              && (CallEnabled(s, of, Mint(p, k)) ==> !alias && k.hash in of(d) && k.hash !in held)
              && (held.Keys == of(d) ==>
                    (CallEnabled(s, of, ReserveObject(p)) <==> if d in s.objects then s.objects[d].available else !alias))
            case Reserved(_, d, _, alias, _, ready) =>
              && CallEnabled(s, of, GiveUp(p))
              && (if ready then CallEnabled(s, of, Bind(p)) && !CallEnabled(s, of, SeeManifest(p))
                  else CallEnabled(s, of, SeeManifest(p)) <==> (alias ==> d in s.manifests))
            case Releasing(held) =>
              && (InPlacement(held, k) <==> CallEnabled(s, of, ReleaseBlock(p, k)))
              && (held == map[] <==> CallEnabled(s, of, End(p)))
  {
  }

  /** A collection once begun can go on, a bound name can always be unbound, and a claim that a
      crash left behind can be taken up. */
  lemma CollectionsGoOn(s: State, n: Name, c: Cid, k: Key)
    requires GcInv(s) && ObjectInv(s, c) && RowInv(s, k)
    ensures n in s.names <==> OtherEnabled(s, Unbind(n))
    ensures s.gc.ObjectClaimed? <==> OtherEnabled(s, UnlinkObject)
    ensures s.gc.ObjectUnlinked? <==> OtherEnabled(s, DeleteObject)
    ensures s.gc.BlockClaimed? <==> OtherEnabled(s, UnlinkBlock)
    ensures s.gc.BlockUnlinked? <==> OtherEnabled(s, DeleteBlock)
    ensures s.gc.Resting? && c in s.objects && !s.objects[c].available ==> OtherEnabled(s, AdoptObject(c))
    ensures s.gc.Resting? && k in s.blocks && !s.blocks[k].available ==> OtherEnabled(s, AdoptBlock(k))
  {
  }

  /** The three steps on a block remove its row and its file; those on an object its row, its
      manifest and its edges; and neither anything else. */
  lemma BlockIsReclaimed(s: State, of: BlocksOf, k: Key)
    requires OtherEnabled(s, ClaimBlock(k))
    ensures var steps := [ClaimBlock(k), UnlinkBlock, DeleteBlock];
            Runs(s, of, steps) && Exec(s, of, steps) == s.(blocks := s.blocks - {k}, files := s.files - {k})
  {
    var s1 := OtherStep(s, ClaimBlock(k));
    var s2 := OtherStep(s1, UnlinkBlock);
    var s3 := OtherStep(s2, DeleteBlock);
    assert s3.blocks == s.blocks - {k};
    ThreeSteps(s, of, ClaimBlock(k), UnlinkBlock, DeleteBlock, s1, s2, s3);
  }

  lemma ObjectIsReclaimed(s: State, of: BlocksOf, c: Cid)
    requires OtherEnabled(s, ClaimObject(c))
    ensures var steps := [ClaimObject(c), UnlinkObject, DeleteObject];
            && Runs(s, of, steps)
            && Exec(s, of, steps) == s.(objects := s.objects - {c}, manifests := s.manifests - {c},
                                        edges := s.edges - EdgesOf(s.edges, {c}))
  {
    var s1 := OtherStep(s, ClaimObject(c));
    var s2 := OtherStep(s1, UnlinkObject);
    var s3 := OtherStep(s2, DeleteObject);
    assert s3.objects == s.objects - {c};
    ThreeSteps(s, of, ClaimObject(c), UnlinkObject, DeleteObject, s1, s2, s3);
  }

  lemma ThreeSteps(s: State, of: BlocksOf, a: Action, b: Action, c: Action, s1: State, s2: State, s3: State)
    requires Enabled(s, of, a) && s1 == Apply(s, of, a)
    requires Enabled(s1, of, b) && s2 == Apply(s1, of, b)
    requires Enabled(s2, of, c) && s3 == Apply(s2, of, c)
    ensures Runs(s, of, [a, b, c]) && Exec(s, of, [a, b, c]) == s3
  {
    var none: seq<Action> := [];
    assert [a, b, c][1..] == [b, c] && [b, c][1..] == [c] && [c][1..] == none;
    assert Runs(s3, of, none) && Exec(s3, of, none) == s3;
    assert Runs(s2, of, [c]) && Exec(s2, of, [c]) == s3;
    assert Runs(s1, of, [b, c]) && Exec(s1, of, [b, c]) == s3;
  }

  /** After a crash no call is left, and every count it left too high can be lowered: an object's
      to the versions there are, a block's to the edges of live objects, and to nothing if the
      objects that have edges to it are all dead. */
  lemma CrashIsRecoverable(s: State, p: Call, c: Cid, k: Key)
    ensures var s' := OtherStep(s, Crash);
            && PhaseOf(s', p).Idle? && s'.gc.Resting? && s'.names == s.names && s'.manifests == s.manifests && s'.files == s.files
            && (Count(s'.objects, c) > |Refs(s'.names, c)| ==> OtherEnabled(s', ReconcileObject(c, |Refs(s'.names, c)|)))
            && (Count(s'.blocks, k) > |LiveEdgesTo(s', k)| ==> OtherEnabled(s', ReconcileBlock(k, |LiveEdgesTo(s', k)|)))
            && (Count(s'.blocks, k) > 0 && (forall e | e in EdgesTo(s'.edges, k) :: Count(s'.objects, e.owner) == 0) ==>
                  OtherEnabled(s', ReconcileBlock(k, 0)))
  {
    var s' := OtherStep(s, Crash);
    assert ObjectHolders(s'.calls, c) == {} && BlockHolders(s'.calls, k) == {};
    if forall e | e in EdgesTo(s'.edges, k) :: Count(s'.objects, e.owner) == 0 { assert LiveEdgesTo(s', k) == {}; }
  }

  // ---- Versions ------------------------------------------------------------------------------------

  lemma BindHasNoRepeats(s: State, ph: Phase)
    requires ph.Reserved? && NoRepeats(s.names)
    ensures NoRepeats(Bound(s, ph).names)
  {
    if AddsVersion(s, ph) {
      AppendHasNoRepeats(s.names, ph.name, ph.cid);
      assert Bound(s, ph).names == Append(s.names, ph.name, ph.cid);
    } else {
      assert Bound(s, ph).names == s.names;
    }
  }

  lemma CallHasNoRepeats(s: State, of: BlocksOf, a: Action)
    requires CallEnabled(s, of, a) && NoRepeats(s.names)
    ensures NoRepeats(Apply(s, of, a).names)
  {
    if a.Bind? {
      BindHasNoRepeats(s, PhaseOf(s, a.p));
    } else {
      assert Apply(s, of, a).names == s.names;
    }
  }

  lemma OtherHasNoRepeats(s: State, a: Action)
    requires OtherEnabled(s, a) && NoRepeats(s.names)
    ensures NoRepeats(OtherStep(s, a).names)
  {
    if !a.Unbind? { assert OtherStep(s, a).names == s.names; }
  }

  /** However calls overlap, a name is never bound twice running to one object. */
  lemma {:induction false} RunHasNoRepeats(s: State, of: BlocksOf, actions: seq<Action>)
    requires NoRepeats(s.names) && Runs(s, of, actions)
    ensures NoRepeats(Exec(s, of, actions).names)
    decreases |actions|
  {
    if actions != [] {
      if CallEnabled(s, of, actions[0]) { CallHasNoRepeats(s, of, actions[0]); } else { OtherHasNoRepeats(s, actions[0]); }
      RunHasNoRepeats(Apply(s, of, actions[0]), of, actions[1..]);
    }
  }
}

// The object and manifest protocol as interleaved atomic steps: any number of puts,
// aliases, unbinds and failing calls, one collector, the audit's reconcile, and a
// crash after any step.
module ObjectProtocol {
  import opened Prelude
  import opened Versions

  type Call = nat

  datatype Row = Row(refcount: int, available: bool)

  datatype Phase =
    | Idle
    | PutReserved(name: Name, cid: Cid)     // object reserved, manifest not yet written
    | PutWritten(name: Name, cid: Cid)      // manifest written, name not yet bound
    | AliasRead(name: Name, cid: Cid)       // manifest read, nothing held
    | AliasReserved(name: Name, cid: Cid)   // object reserved, manifest not revalidated
    | AliasChecked(name: Name, cid: Cid)    // manifest seen while the reservation is held
  {
    predicate Holds(c: Cid) {
      (PutReserved? || PutWritten? || AliasReserved? || AliasChecked?) && cid == c
    }
    predicate Relies() { PutWritten? || AliasChecked? }
  }

  datatype Gc = Resting | Claimed(cid: Cid) | Unlinked(cid: Cid)

  datatype State = State(
    names: Versions,
    rows: map<Cid, Row>,
    manifests: set<Cid>,
    calls: map<Call, Phase>,
    gc: Gc)

  datatype Action =
    | PutReserve(p: Call, name: Name, cid: Cid)
    | PutWrite(p: Call)
    | AliasOpen(p: Call, name: Name, cid: Cid)
    | AliasReserve(p: Call)
    | AliasCheck(p: Call)
    | Bind(p: Call)
    | Release(p: Call)
    | Unbind(name: Name)
    | Claim(cid: Cid)
    | Adopt(cid: Cid)
    | Unlink
    | DeleteRow
    | Reconcile(cid: Cid)
    | Crash

  const INITIAL := State(map[], map[], {}, map[], Resting)

  function PhaseOf(s: State, p: Call): Phase {
    if p in s.calls then s.calls[p] else Idle
  }

  /** The calls holding a reservation on `c`. */
  function Held(s: State, c: Cid): set<Call> {
    set p | p in s.calls && s.calls[p].Holds(c)
  }

  predicate Holding(ph: Phase) {
    !ph.Idle? && !ph.AliasRead?
  }

  /** `revalidate` says whether an alias must see the manifest again before it binds. */
  predicate Enabled(s: State, a: Action, revalidate: bool) {
    match a
    case PutReserve(p, n, c) => PhaseOf(s, p).Idle? && (c in s.rows ==> s.rows[c].available)
    case PutWrite(p) => PhaseOf(s, p).PutReserved?
    case AliasOpen(p, n, c) => PhaseOf(s, p).Idle? && c in s.manifests
    case AliasReserve(p) => PhaseOf(s, p).AliasRead?
    case AliasCheck(p) => PhaseOf(s, p).AliasReserved? && PhaseOf(s, p).cid in s.manifests
    case Bind(p) =>
      var ph := PhaseOf(s, p);
      (ph.Relies() || (!revalidate && ph.AliasReserved?)) && ph.cid in s.rows
    case Release(p) => Holding(PhaseOf(s, p)) && PhaseOf(s, p).cid in s.rows
    case Unbind(n) => n in s.names
    case Claim(c) => s.gc.Resting? && c in s.rows && s.rows[c] == Row(0, true)
    case Adopt(c) => s.gc.Resting? && c in s.rows && s.rows[c] == Row(0, false)
    case Unlink => s.gc.Claimed?
    case DeleteRow => s.gc.Unlinked?
    case Reconcile(c) => c in s.rows && s.rows[c].refcount > |Refs(s.names, c)| && Held(s, c) == {}
    case Crash => true
  }

  function AddReference(s: State, c: Cid, d: int): map<Cid, Row>
    requires c in s.rows
  {
    s.rows[c := s.rows[c].(refcount := s.rows[c].refcount + d)]
  }

  function Apply(s: State, a: Action): State
    requires Enabled(s, a, false)
  {
    match a
    case PutReserve(p, n, c) =>
      s.(rows := if c in s.rows then AddReference(s, c, 1) else s.rows[c := Row(1, true)],
      calls := s.calls[p := PutReserved(n, c)])
    case PutWrite(p) =>
      var ph := PhaseOf(s, p);
      s.(manifests := s.manifests + {ph.cid}, calls := s.calls[p := PutWritten(ph.name, ph.cid)])
    case AliasOpen(p, n, c) => s.(calls := s.calls[p := AliasRead(n, c)])
    case AliasReserve(p) =>
      var ph := PhaseOf(s, p);
      if ph.cid in s.rows && s.rows[ph.cid].available then
        s.(rows := AddReference(s, ph.cid, 1), calls := s.calls[p := AliasReserved(ph.name, ph.cid)])
      else
        s.(calls := s.calls[p := Idle])     // gone or being collected: refused
    case AliasCheck(p) =>
      s.(calls := s.calls[p := AliasChecked(PhaseOf(s, p).name, PhaseOf(s, p).cid)])
    case Bind(p) =>
      var ph := PhaseOf(s, p);
      if Current(s.names, ph.name) == Some(ph.cid) then
        s.(rows := AddReference(s, ph.cid, -1), calls := s.calls[p := Idle])
      else
        s.(names := Append(s.names, ph.name, ph.cid), calls := s.calls[p := Idle])
    case Release(p) =>
      s.(rows := AddReference(s, PhaseOf(s, p).cid, -1), calls := s.calls[p := Idle])
    case Unbind(n) =>
      s.(names := s.names - {n},
      rows := map c | c in s.rows ::
        s.rows[c].(refcount := s.rows[c].refcount - |RefsOf(s.names, n, c)|))
    case Claim(c) => s.(rows := s.rows[c := Row(0, false)], gc := Claimed(c))
    case Adopt(c) => s.(gc := Claimed(c))
    case Unlink => s.(manifests := s.manifests - {s.gc.cid}, gc := Unlinked(s.gc.cid))
    case DeleteRow =>
      var c := s.gc.cid;
      s.(rows := if c in s.rows && s.rows[c] == Row(0, false) then s.rows - {c} else s.rows, gc := Resting)
    case Reconcile(c) => s.(rows := s.rows[c := s.rows[c].(refcount := |Refs(s.names, c)|)])
    case Crash => s.(calls := map[], gc := Resting)
  }

  predicate Runs(s: State, actions: seq<Action>, revalidate: bool)
    decreases |actions|
  {
    actions == [] ||
    (Enabled(s, actions[0], revalidate) && Runs(Apply(s, actions[0]), actions[1..], revalidate))
  }

  function Exec(s: State, actions: seq<Action>, revalidate: bool): State
    requires Runs(s, actions, revalidate)
    decreases |actions|
  {
    if actions == [] then s else Exec(Apply(s, actions[0]), actions[1..], revalidate)
  }

  /** No name, in any of its versions, reaches an object whose manifest is missing. */
  ghost predicate NamesResolve(s: State) {
    forall n, i | n in s.names && 0 <= i < |s.names[n]| :: s.names[n][i] in s.manifests
  }

  /** Counts dominate named versions plus held reservations. */
  ghost predicate CountsDominate(s: State) {
    forall c | c in s.rows :: s.rows[c].refcount >= |Refs(s.names, c)| + |Held(s, c)|
  }

  /** What every step keeps of one object. */
  ghost predicate CidInv(s: State, c: Cid) {
    if c in s.rows then
      && s.rows[c].refcount >= |Refs(s.names, c)| + |Held(s, c)|
      && (!s.rows[c].available ==> s.rows[c].refcount == 0)
      && (|Refs(s.names, c)| > 0 ==> c in s.manifests)
    else
      |Refs(s.names, c)| == 0 && |Held(s, c)| == 0
  }

  ghost predicate ReliedPresent(s: State) {
    forall p | p in s.calls && s.calls[p].Relies() :: s.calls[p].cid in s.manifests
  }

  ghost predicate Inv(s: State) {
    && (forall c :: CidInv(s, c))
    && ReliedPresent(s)
    && (!s.gc.Resting? ==> s.gc.cid in s.rows && !s.rows[s.gc.cid].available)
  }

  lemma InvImpliesSafe(s: State)
    requires Inv(s)
    ensures NamesResolve(s) && CountsDominate(s)
  {
    forall n, i | n in s.names && 0 <= i < |s.names[n]| ensures s.names[n][i] in s.manifests {
      var c := s.names[n][i];
      assert CidInv(s, c);
      RefsMember(s.names, Version(n, i), c);
    }
    forall c | c in s.rows
      ensures s.rows[c].refcount >= |Refs(s.names, c)| + |Held(s, c)|
    {
      assert CidInv(s, c);
    }
  }

  // ---- One step ----------------------------------------------------------

  function HeldByOthers(calls: map<Call, Phase>, p: Call, c: Cid): set<Call> {
    set q | q in calls && q != p && calls[q].Holds(c)
  }

  lemma HeldSplits(s: State, p: Call, c: Cid)
    ensures |Held(s, c)| == |HeldByOthers(s.calls, p, c)| + if PhaseOf(s, p).Holds(c) then 1 else 0
  {
    var rest := HeldByOthers(s.calls, p, c);
    if PhaseOf(s, p).Holds(c) {
      assert Held(s, c) == rest + {p};
    } else {
      assert Held(s, c) == rest;
    }
  }

  /** How a single call's move changes who holds `c`. */
  lemma HeldMoves(s: State, s': State, p: Call, ph: Phase, c: Cid)
    requires s'.calls == s.calls[p := ph]
    ensures |Held(s', c)| == |Held(s, c)| - (if PhaseOf(s, p).Holds(c) then 1 else 0)
                             + (if ph.Holds(c) then 1 else 0)
  {
    HeldSplits(s, p, c);
    HeldSplits(s', p, c);
    assert HeldByOthers(s'.calls, p, c) == HeldByOthers(s.calls, p, c);
  }

  lemma ReserveKeepsInv(s: State, a: Action)
    requires Inv(s) && Enabled(s, a, true)
    requires a.PutReserve? || a.AliasReserve? || a.AliasOpen?
    ensures Inv(Apply(s, a))
  {
    var s' := Apply(s, a);
    forall c ensures CidInv(s', c) {
      assert CidInv(s, c);
      HeldMoves(s, s', a.p, s'.calls[a.p], c);
    }
  }

  lemma SeeManifestKeepsInv(s: State, a: Action)
    requires Inv(s) && Enabled(s, a, true)
    requires a.PutWrite? || a.AliasCheck?
    ensures Inv(Apply(s, a))
  {
    var s' := Apply(s, a);
    forall c ensures CidInv(s', c) {
      assert CidInv(s, c);
      HeldMoves(s, s', a.p, s'.calls[a.p], c);
    }
  }

  lemma BindKeepsInv(s: State, p: Call)
    requires Inv(s) && Enabled(s, Bind(p), true)
    ensures Inv(Apply(s, Bind(p)))
  {
    var s' := Apply(s, Bind(p));
    var ph := PhaseOf(s, p);
    assert CidInv(s, ph.cid) && ph.cid in s.manifests;
    forall c ensures CidInv(s', c) {
      assert CidInv(s, c);
      HeldMoves(s, s', p, Idle, c);
      RefsAppend(s.names, ph.name, ph.cid, c);
      if c == ph.cid { HeldByPhase(s, p, c); }
    }
  }

  lemma HeldByPhase(s: State, p: Call, c: Cid)
    requires PhaseOf(s, p).Holds(c)
    ensures |Held(s, c)| > 0
  {
    assert p in Held(s, c);
  }

  lemma ReleaseKeepsInv(s: State, p: Call)
    requires Inv(s) && Enabled(s, Release(p), true)
    ensures Inv(Apply(s, Release(p)))
  {
    var s' := Apply(s, Release(p));
    var d := PhaseOf(s, p).cid;
    HeldByPhase(s, p, d);
    forall c ensures CidInv(s', c) {
      assert CidInv(s, c);
      HeldMoves(s, s', p, Idle, c);
    }
  }

  lemma UnbindKeepsInv(s: State, n: Name)
    requires Inv(s) && Enabled(s, Unbind(n), true)
    ensures Inv(Apply(s, Unbind(n)))
  {
    var s' := Apply(s, Unbind(n));
    forall c ensures CidInv(s', c) {
      assert CidInv(s, c);
      assert Held(s', c) == Held(s, c);
      RefsRemove(s.names, n, c);
    }
    if !s.gc.Resting? { assert CidInv(s, s.gc.cid); }
  }

  lemma CollectorKeepsInv(s: State, a: Action)
    requires Inv(s) && Enabled(s, a, true)
    requires a.Claim? || a.Adopt? || a.Unlink? || a.DeleteRow? || a.Reconcile?
    ensures Inv(Apply(s, a))
  {
    var s' := Apply(s, a);
    forall c ensures CidInv(s', c) {
      assert CidInv(s, c);
      assert Held(s', c) == Held(s, c);
    }
    forall p | p in s'.calls && s'.calls[p].Relies() ensures s'.calls[p].cid in s'.manifests {
      var c := s.calls[p].cid;
      assert CidInv(s, c);
      HeldByPhase(s, p, c);
    }
    if a.Reconcile? { assert CidInv(s, a.cid); }
  }

  lemma CrashKeepsInv(s: State)
    requires Inv(s)
    ensures Inv(Apply(s, Crash))
  {
    var s' := Apply(s, Crash);
    forall c ensures CidInv(s', c) {
      assert CidInv(s, c);
      assert Held(s', c) == {};
    }
  }

  lemma StepKeepsInv(s: State, a: Action)
    requires Inv(s) && Enabled(s, a, true)
    ensures Inv(Apply(s, a))
  {
    if a.PutReserve? || a.AliasReserve? || a.AliasOpen? {
      ReserveKeepsInv(s, a);
    } else if a.PutWrite? || a.AliasCheck? {
      SeeManifestKeepsInv(s, a);
    } else if a.Bind? {
      BindKeepsInv(s, a.p);
    } else if a.Release? {
      ReleaseKeepsInv(s, a.p);
    } else if a.Unbind? {
      UnbindKeepsInv(s, a.name);
    } else if a.Crash? {
      CrashKeepsInv(s);
    } else {
      CollectorKeepsInv(s, a);
    }
  }

  // ---- Every run ---------------------------------------------------------

  lemma {:induction false} RunKeepsInv(s: State, actions: seq<Action>)
    requires Inv(s) && Runs(s, actions, true)
    ensures Inv(Exec(s, actions, true))
    decreases |actions|
  {
    if actions != [] {
      StepKeepsInv(s, actions[0]);
      RunKeepsInv(Apply(s, actions[0]), actions[1..]);
    }
  }

  lemma StartKeepsInv()
    ensures Inv(INITIAL)
  {
    forall c ensures CidInv(INITIAL, c) {
      assert Refs(INITIAL.names, c) == {} && Held(INITIAL, c) == {};
    }
  }

  /** In every interleaving of puts, aliases, unbinds, failing calls, the collector, the
      reconcile and crashes, every version of every name has its manifest. */
  lemma EveryRunResolves(actions: seq<Action>)
    requires Runs(INITIAL, actions, true)
    ensures NamesResolve(Exec(INITIAL, actions, true)) && CountsDominate(Exec(INITIAL, actions, true))
  {
    StartKeepsInv();
    RunKeepsInv(INITIAL, actions);
    InvImpliesSafe(Exec(INITIAL, actions, true));
  }

  lemma {:induction false} RunHasNoRepeats(s: State, actions: seq<Action>)
    requires NoRepeats(s.names) && Runs(s, actions, true)
    ensures NoRepeats(Exec(s, actions, true).names)
    decreases |actions|
  {
    if actions != [] {
      var a := actions[0];
      if a.Bind? {
        var ph := PhaseOf(s, a.p);
        if Current(s.names, ph.name) != Some(ph.cid) { AppendHasNoRepeats(s.names, ph.name, ph.cid); }
      } else if !a.Unbind? {
        assert Apply(s, a).names == s.names;
      }
      RunHasNoRepeats(Apply(s, a), actions[1..]);
    }
  }

  /** However calls overlap, a name is never bound twice running to one object. */
  lemma EveryRunHasNoRepeats(actions: seq<Action>)
    requires Runs(INITIAL, actions, true)
    ensures NoRepeats(Exec(INITIAL, actions, true).names)
  {
    RunHasNoRepeats(INITIAL, actions);
  }

  // ---- Every count is accounted for -----------------------------------------------------

  /** What a count holds beyond the versions and reservations there are. */
  function Slack(s: State, c: Cid): int {
    if c in s.rows then s.rows[c].refcount - |Refs(s.names, c)| - |Held(s, c)| else 0
  }

  /** A crash turns the reservations its calls held into slack, a reconcile takes the slack of
      its row away, and no other step changes any. */
  function SlackAfter(s: State, a: Action, c: Cid, slack: int): int {
    match a
    case Crash => slack + |Held(s, c)|
    case Reconcile(d) => if d == c then 0 else slack
    case _ => slack
  }

  lemma CallMovesSlack(s: State, a: Action, c: Cid)
    requires CidInv(s, c) && Enabled(s, a, true)
    requires a.PutReserve? || a.PutWrite? || a.AliasOpen? || a.AliasReserve? || a.AliasCheck? || a.Release?
    ensures Slack(Apply(s, a), c) == Slack(s, c)
  {
    var s' := Apply(s, a);
    HeldMoves(s, s', a.p, s'.calls[a.p], c);
  }

  lemma BindMovesSlack(s: State, p: Call, c: Cid)
    requires CidInv(s, c) && Enabled(s, Bind(p), true)
    ensures Slack(Apply(s, Bind(p)), c) == Slack(s, c)
  {
    var ph := PhaseOf(s, p);
    HeldMoves(s, Apply(s, Bind(p)), p, Idle, c);
    RefsAppend(s.names, ph.name, ph.cid, c);
  }

  lemma OtherMovesSlack(s: State, a: Action, c: Cid)
    requires CidInv(s, c) && Enabled(s, a, true)
    requires a.Unbind? || a.Claim? || a.Adopt? || a.Unlink? || a.DeleteRow? || a.Reconcile? || a.Crash?
    ensures Slack(Apply(s, a), c) == SlackAfter(s, a, c, Slack(s, c))
  {
    var s' := Apply(s, a);
    assert Held(s', c) == if a.Crash? then {} else Held(s, c);
    if a.Unbind? { RefsRemove(s.names, a.name, c); }
  }

  lemma StepMovesSlack(s: State, a: Action, c: Cid)
    requires Inv(s) && Enabled(s, a, true)
    ensures Slack(Apply(s, a), c) == SlackAfter(s, a, c, Slack(s, c))
  {
    assert CidInv(s, c);
    if a.Bind? {
      BindMovesSlack(s, a.p, c);
    } else if a.Unbind? || a.Claim? || a.Adopt? || a.Unlink? || a.DeleteRow? || a.Reconcile? || a.Crash? {
      OtherMovesSlack(s, a, c);
    } else {
      CallMovesSlack(s, a, c);
    }
  }

  /** The reservations on `c` that died with their calls since it was last reconciled. */
  function LostIn(s: State, actions: seq<Action>, c: Cid, lost: int): int
    requires Runs(s, actions, true)
    decreases |actions|
  {
    if actions == [] then lost
    else LostIn(Apply(s, actions[0]), actions[1..], c, SlackAfter(s, actions[0], c, lost))
  }

  lemma {:induction false} RunMovesSlack(s: State, actions: seq<Action>, c: Cid)
    requires Inv(s) && Runs(s, actions, true)
    ensures Slack(Exec(s, actions, true), c) == LostIn(s, actions, c, Slack(s, c))
    decreases |actions|
  {
    if actions != [] {
      StepKeepsInv(s, actions[0]);
      StepMovesSlack(s, actions[0], c);
      RunMovesSlack(Apply(s, actions[0]), actions[1..], c);
    }
  }

  /** In every run a count is the versions that name the object, the reservations held, and
      those lost in crashes since the row was last reconciled. */
  lemma EveryCountIsAccountedFor(actions: seq<Action>, c: Cid)
    requires Runs(INITIAL, actions, true) && c in Exec(INITIAL, actions, true).rows
    ensures var s := Exec(INITIAL, actions, true);
            s.rows[c].refcount == |Refs(s.names, c)| + |Held(s, c)| + LostIn(INITIAL, actions, c, 0)
  {
    StartKeepsInv();
    RunMovesSlack(INITIAL, actions, c);
  }

  lemma {:induction false} NothingLost(s: State, actions: seq<Action>, c: Cid)
    requires Runs(s, actions, true) && Crash !in actions
    ensures LostIn(s, actions, c, 0) == 0
    decreases |actions|
  {
    if actions != [] {
      assert forall a | a in actions[1..] :: a in actions;
      assert actions[0] in actions;
      NothingLost(Apply(s, actions[0]), actions[1..], c);
    }
  }

  /** Without a crash, the collector at rest may claim an object exactly when no name has it in
      any version and no call holds it; its three steps then remove the row and the manifest,
      and nothing else. */
  lemma UnreferencedIsReclaimable(actions: seq<Action>, c: Cid)
    requires Runs(INITIAL, actions, true) && Crash !in actions
    requires var s := Exec(INITIAL, actions, true); s.gc.Resting? && c in s.rows && s.rows[c].available
    ensures var s := Exec(INITIAL, actions, true);
            && (Enabled(s, Claim(c), true) <==> Refs(s.names, c) == {} && Held(s, c) == {})
            && (Enabled(s, Claim(c), true) ==>
                  && Runs(s, [Claim(c), Unlink, DeleteRow], true)
                  && Exec(s, [Claim(c), Unlink, DeleteRow], true) == s.(rows := s.rows - {c}, manifests := s.manifests - {c}))
  {
    var s := Exec(INITIAL, actions, true);
    EveryCountIsAccountedFor(actions, c);
    NothingLost(INITIAL, actions, c);
    if Enabled(s, Claim(c), true) {
      var s1 := Apply(s, Claim(c));
      var s2 := Apply(s1, Unlink);
      var s3 := Apply(s2, DeleteRow);
      var steps := [Claim(c), Unlink, DeleteRow];
      assert steps[1..] == [Unlink, DeleteRow] && steps[1..][1..] == [DeleteRow] && steps[1..][1..][1..] == [];
      assert s3.rows == s.rows - {c};
      assert Runs(s2, [DeleteRow], true) && Exec(s2, [DeleteRow], true) == s3;
      assert Runs(s1, [Unlink, DeleteRow], true) && Exec(s1, [Unlink, DeleteRow], true) == s3;
    }
  }

  /** After a crash no call is left, every claim it interrupted can be taken up, and every count
      it left too high can be lowered to the versions there are. */
  lemma CrashIsRecoverable(s: State, p: Call, c: Cid)
    requires Inv(s)
    ensures var s' := Apply(s, Crash);
            && PhaseOf(s', p).Idle? && s'.names == s.names && s'.manifests == s.manifests
            && (c in s'.rows && !s'.rows[c].available ==> Enabled(s', Adopt(c), true))
            && (Slack(s', c) > 0 <==> Enabled(s', Reconcile(c), true))
            && (Slack(s', c) > 0 ==> Slack(Apply(s', Reconcile(c)), c) == 0)
  {
    var s' := Apply(s, Crash);
    CrashKeepsInv(s);
    assert CidInv(s', c) && Held(s', c) == {};
    if Slack(s', c) > 0 { OtherMovesSlack(s', Reconcile(c), c); }
  }

  /** In every state a run reaches, a call that holds its object may give it back, a put may go
      on to its manifest and its bind, and an alias that sees the manifest may go on to its
      own; an unclaimed object may be put, and a stored one aliased, by any idle call. */
  lemma CallsAreNeverStuck(s: State, p: Call, n: Name, c: Cid)
    requires Inv(s)
    ensures match PhaseOf(s, p)
            case Idle =>
              && (Enabled(s, PutReserve(p, n, c), true) <==> c !in s.rows || s.rows[c].available)
              && (Enabled(s, AliasOpen(p, n, c), true) <==> c in s.manifests)
            case PutReserved(_, _) => Enabled(s, PutWrite(p), true) && Enabled(s, Release(p), true)
            case PutWritten(_, _) => Enabled(s, Bind(p), true) && Enabled(s, Release(p), true)
            case AliasRead(_, _) => Enabled(s, AliasReserve(p), true)
            case AliasReserved(_, d) =>
              (Enabled(s, AliasCheck(p), true) <==> d in s.manifests) && Enabled(s, Release(p), true)
            case AliasChecked(_, _) => Enabled(s, Bind(p), true) && Enabled(s, Release(p), true)
  {
    var ph := PhaseOf(s, p);
    if Holding(ph) {
      assert CidInv(s, ph.cid);
      HeldByPhase(s, p, ph.cid);
    }
  }

  // ---- Revalidation is needed --------------------------------------------

  lemma {:induction false} RunsExtend(s: State, actions: seq<Action>, a: Action, revalidate: bool)
    requires Runs(s, actions, revalidate) && Enabled(Exec(s, actions, revalidate), a, revalidate)
    ensures Runs(s, actions + [a], revalidate)
    ensures Exec(s, actions + [a], revalidate) == Apply(Exec(s, actions, revalidate), a)
    decreases |actions|
  {
    if actions == [] {
      assert ([a])[1..] == [];
    } else {
      RunsExtend(Apply(s, actions[0]), actions[1..], a, revalidate);
      assert (actions + [a])[1..] == actions[1..] + [a];
    }
  }

  ghost predicate Reaches(actions: seq<Action>, s: State) {
    Runs(INITIAL, actions, false) && Exec(INITIAL, actions, false) == s
  }

  lemma Then(actions: seq<Action>, s: State, a: Action) returns (actions': seq<Action>)
    requires Reaches(actions, s) && Enabled(s, a, false)
    ensures Reaches(actions', Apply(s, a))
  {
    RunsExtend(INITIAL, actions, a, false);
    actions' := actions + [a];
  }

  lemma PutBinds(n: Name, c: Cid) returns (actions: seq<Action>)
    ensures Reaches(actions, State(map[n := [c]], map[c := Row(1, true)], {c}, map[0 := Idle], Resting))
  {
    actions := Then([], INITIAL, PutReserve(0, n, c));
    var s := State(map[], map[c := Row(1, true)], {}, map[0 := PutReserved(n, c)], Resting);
    actions := Then(actions, s, PutWrite(0));
    s := State(map[], map[c := Row(1, true)], {c}, map[0 := PutWritten(n, c)], Resting);
    actions := Then(actions, s, Bind(0));
    assert History(map[], n) + [c] == [c];
  }

  /** A put binds `n` to `c`, an alias reads its manifest, and the name is unbound again. */
  lemma AliasReadsDeadObject(n: Name, m: Name, c: Cid) returns (actions: seq<Action>)
    ensures Reaches(actions, State(map[], map[c := Row(0, true)], {c}, map[0 := Idle, 1 := AliasRead(m, c)], Resting))
  {
    actions := PutBinds(n, c);
    var s := State(map[n := [c]], map[c := Row(1, true)], {c}, map[0 := Idle], Resting);
    actions := Then(actions, s, AliasOpen(1, m, c));
    s := s.(calls := map[0 := Idle, 1 := AliasRead(m, c)]);
    actions := Then(actions, s, Unbind(n));
    assert RefsOf(s.names, n, c) == {Version(n, 0)};
    assert Apply(s, Unbind(n)).names == map[];
    assert Apply(s, Unbind(n)).rows == map[c := Row(0, true)];
  }

  /** The collector then reclaims the object while the alias is still between its steps. */
  lemma AliasOutlivesObject(n: Name, m: Name, c: Cid) returns (actions: seq<Action>)
    ensures Reaches(actions, State(map[], map[], {}, map[0 := Idle, 1 := AliasRead(m, c)], Resting))
  {
    var calls := map[0 := Idle, 1 := AliasRead(m, c)];
    actions := AliasReadsDeadObject(n, m, c);
    var s := State(map[], map[c := Row(0, true)], {c}, calls, Resting);
    actions := Then(actions, s, Claim(c));
    s := State(map[], map[c := Row(0, false)], {c}, calls, Claimed(c));
    actions := Then(actions, s, Unlink);
    assert {c} - {c} == {};
    s := State(map[], map[c := Row(0, false)], {}, calls, Unlinked(c));
    actions := Then(actions, s, DeleteRow);
    assert map[c := Row(0, false)] - {c} == map[];
  }

  /** Without revalidation the alias race is lost: the object is fully reclaimed, a new put
      of the same content reserves it again, and the alias binds before that put writes
      its manifest. */
  lemma UnrevalidatedAliasLosesManifest(n: Name, m: Name, c: Cid)
      returns (actions: seq<Action>, s: State)
    ensures Reaches(actions, s) && !NamesResolve(s)
  {
    actions := AliasOutlivesObject(n, m, c);
    s := State(map[], map[], {}, map[0 := Idle, 1 := AliasRead(m, c)], Resting);
    actions := Then(actions, s, PutReserve(0, n, c));
    s := State(map[], map[c := Row(1, true)], {}, map[0 := PutReserved(n, c), 1 := AliasRead(m, c)], Resting);
    actions := Then(actions, s, AliasReserve(1));
    s := State(map[], map[c := Row(2, true)], {}, map[0 := PutReserved(n, c), 1 := AliasReserved(m, c)], Resting);
    actions := Then(actions, s, Bind(1));
    s := Apply(s, Bind(1));
    assert m in s.names && s.names[m][0] == c;
  }
}

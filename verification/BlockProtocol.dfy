// The block reclamation protocol as interleaved atomic steps: any number of
// hashes, generations and writers, one collector, the audit's reconcile, and a
// crash after any step.
//
// A writer follows the code's split write path: reserve, choose a generation,
// write the file, mint the row. The checker's single materialise step is the
// last three of these taken back to back.
module BlockProtocol {
  import opened Prelude

  type Writer = nat

  datatype Row = Row(refcount: int, available: bool)

  datatype Phase =
    | Idle
    | Missed(hash: Cid)      // reserve found no available generation
    | Chosen(key: Key)       // a generation without a row was picked
    | Written(key: Key)      // its file was written, the row not yet minted
    | Reserved(key: Key)     // a reservation is held, not yet bound

  datatype Gc = Resting | Claimed(key: Key) | Unlinked(key: Key)

  datatype State = State(
    rows: map<Key, Row>,
    files: map<Key, bool>,        // present files; true once fsynced
    bound: multiset<Key>,         // references held by bound objects
    writers: map<Writer, Phase>,
    gc: Gc)

  datatype Action =
    | Reserve(w: Writer, hash: Cid)
    | ReserveAt(w: Writer, key: Key)
    | Choose(w: Writer, generation: nat)
    | Write(w: Writer)
    | Mint(w: Writer)
    | Bind(w: Writer)
    | Release(w: Writer)
    | Unbind(key: Key)
    | Claim(key: Key)
    | Adopt(key: Key)
    | Unlink
    | DeleteRow
    | Reconcile(key: Key)
    | Crash(dropUnsynced: bool)

  const INITIAL := State(map[], map[], multiset{}, map[], Resting)

  function PhaseOf(s: State, w: Writer): Phase {
    if w in s.writers then s.writers[w] else Idle
  }

  predicate Available(s: State, b: Key) {
    b in s.rows && s.rows[b].available
  }

  predicate HasAvailable(s: State, h: Cid) {
    exists b | b in s.rows :: b.hash == h && Available(s, b)
  }

  function Held(s: State, b: Key): set<Writer> {
    set w | w in s.writers && s.writers[w] == Reserved(b)
  }

  /** Whether the protocol can take `a` in `s`. */
  predicate Enabled(s: State, a: Action) {
    match a
    case Reserve(w, h) => PhaseOf(s, w).Idle? && !HasAvailable(s, h)
    case ReserveAt(w, b) => PhaseOf(s, w).Idle? && Available(s, b)
    case Choose(w, g) => PhaseOf(s, w).Missed? && Key(PhaseOf(s, w).hash, g) !in s.rows
    case Write(w) => PhaseOf(s, w).Chosen?
    case Mint(w) => PhaseOf(s, w).Written?
    case Bind(w) => PhaseOf(s, w).Reserved?
    case Release(w) => PhaseOf(s, w).Reserved? && PhaseOf(s, w).key in s.rows
    case Unbind(b) => s.bound[b] > 0 && b in s.rows
    case Claim(b) => s.gc.Resting? && b in s.rows && s.rows[b] == Row(0, true)
    case Adopt(b) => s.gc.Resting? && b in s.rows && s.rows[b] == Row(0, false)
    case Unlink => s.gc.Claimed?
    case DeleteRow => s.gc.Unlinked?
    case Reconcile(b) => b in s.rows && s.rows[b].refcount > s.bound[b] && Held(s, b) == {}
    case Crash(_) => true
  }

  predicate MintAccepted(s: State, b: Key) {
    !HasAvailable(s, b.hash) && b !in s.rows
  }

  function AddReference(s: State, b: Key, d: int): map<Key, Row>
    requires b in s.rows
  {
    s.rows[b := s.rows[b].(refcount := s.rows[b].refcount + d)]
  }

  /** The state after `a`. `sync` says whether a file is fsynced before it is relied on. */
  function Apply(s: State, a: Action, sync: bool): State
    requires Enabled(s, a)
  {
    match a
    case Reserve(w, h) => s.(writers := s.writers[w := Missed(h)])
    case ReserveAt(w, b) =>
      s.(rows := AddReference(s, b, 1), writers := s.writers[w := Reserved(b)])
    case Choose(w, g) => s.(writers := s.writers[w := Chosen(Key(PhaseOf(s, w).hash, g))])
    case Write(w) =>
      var b := PhaseOf(s, w).key;
      // An extant file is left untouched.
      s.(files := if b in s.files then s.files else s.files[b := sync],
      writers := s.writers[w := Written(b)])
    case Mint(w) =>
      var b := PhaseOf(s, w).key;
      if MintAccepted(s, b) then
        s.(rows := s.rows[b := Row(1, true)], writers := s.writers[w := Reserved(b)])
      else
        s.(writers := s.writers[w := Idle])   // the write path starts over
    case Bind(w) =>
      s.(bound := s.bound + multiset{PhaseOf(s, w).key}, writers := s.writers[w := Idle])
    case Release(w) =>
      s.(rows := AddReference(s, PhaseOf(s, w).key, -1), writers := s.writers[w := Idle])
    case Unbind(b) => s.(rows := AddReference(s, b, -1), bound := s.bound - multiset{b})
    case Claim(b) => s.(rows := s.rows[b := Row(0, false)], gc := Claimed(b))
    case Adopt(b) => s.(gc := Claimed(b))
    case Unlink => s.(files := s.files - {s.gc.key}, gc := Unlinked(s.gc.key))
    case DeleteRow => s.(rows := s.rows - {s.gc.key}, gc := Resting)
    case Reconcile(b) => s.(rows := s.rows[b := s.rows[b].(refcount := s.bound[b])])
    case Crash(drop) =>
      s.(writers := map[], gc := Resting,
      files := if drop then map b | b in s.files && s.files[b] :: true else s.files)
  }

  /** `actions` is a run of the protocol from `s`. */
  predicate Runs(s: State, actions: seq<Action>, sync: bool)
    decreases |actions|
  {
    actions == [] ||
    (Enabled(s, actions[0]) && Runs(Apply(s, actions[0], sync), actions[1..], sync))
  }

  function Exec(s: State, actions: seq<Action>, sync: bool): State
    requires Runs(s, actions, sync)
    decreases |actions|
  {
    if actions == [] then s else Exec(Apply(s, actions[0], sync), actions[1..], sync)
  }

  /** The durability premise: a crash loses unsynced files only if files go unsynced. */
  predicate Durable(actions: seq<Action>, sync: bool) {
    sync || Crash(true) !in actions
  }

  /** Whether a mint that is about to be accepted still has the file it was chosen for. */
  predicate MintFindsFile(s: State, a: Action)
    requires Enabled(s, a)
  {
    a.Mint? && MintAccepted(s, PhaseOf(s, a.w).key) ==> PhaseOf(s, a.w).key in s.files
  }

  predicate MintsFindFiles(s: State, actions: seq<Action>, sync: bool)
    requires Runs(s, actions, sync)
    decreases |actions|
  {
    actions == [] ||
    (MintFindsFile(s, actions[0]) && MintsFindFiles(Apply(s, actions[0], sync), actions[1..], sync))
  }

  /** The collector never unlinks a file that a writer has written (or found) and is about
      to mint. This is what makes write-then-mint as good as one step. */
  predicate SparesWritten(s: State, actions: seq<Action>, sync: bool)
    requires Runs(s, actions, sync)
    decreases |actions|
  {
    actions == [] ||
    ((actions[0].Unlink? ==> forall w | w in s.writers :: s.writers[w] != Written(s.gc.key)) &&
    SparesWritten(Apply(s, actions[0], sync), actions[1..], sync))
  }

  /** I1: each hash has at most one available generation. */
  ghost predicate OneAvailable(s: State) {
    forall b, b' {:trigger Available(s, b), Available(s, b')} ::
      Available(s, b) && Available(s, b') && b.hash == b'.hash ==> b == b'
  }

  /** The checker's invariants: S1, I1 to I4 and non-negativity, with I4 strengthened to
      count held reservations. */
  ghost predicate Safe(s: State) {
    && (forall b | b in s.bound :: b in s.files)                                      // S1
    && OneAvailable(s)                                                                // I1
    && (forall b | b in s.rows :: s.rows[b].refcount > 0 ==> b in s.files)            // I2
    && (!s.gc.Resting? && s.gc.key in s.rows ==> s.rows[s.gc.key].refcount == 0)      // I3
    && (forall b | b in s.rows :: s.rows[b].refcount >= s.bound[b] + |Held(s, b)|)    // I4
  }

  /** What every step keeps of one block generation. */
  ghost predicate KeyInv(s: State, b: Key) {
    if b in s.rows then
      && s.rows[b].refcount >= s.bound[b] + |Held(s, b)|
      && (if s.rows[b].available then b in s.files else s.rows[b].refcount == 0)
    else
      s.bound[b] == 0 && Held(s, b) == {}
  }

  ghost predicate GcInv(s: State) {
    !s.gc.Resting? ==> s.gc.key in s.rows && !s.rows[s.gc.key].available
  }

  ghost predicate Synced(s: State) {
    forall b | b in s.files :: s.files[b]
  }

  /** What every step keeps. */
  ghost predicate Inv(s: State, sync: bool) {
    && (forall b :: KeyInv(s, b))
    && OneAvailable(s)
    && GcInv(s)
    && (sync ==> Synced(s))
  }

  lemma InvImpliesSafe(s: State, sync: bool)
    requires Inv(s, sync)
    ensures Safe(s)
  {
    forall b | b in s.bound ensures b in s.files { assert KeyInv(s, b); }
    forall b | b in s.rows
      ensures s.rows[b].refcount > 0 ==> b in s.files
      ensures s.rows[b].refcount >= s.bound[b] + |Held(s, b)|
    {
      assert KeyInv(s, b);
    }
    if !s.gc.Resting? { assert KeyInv(s, s.gc.key); }
  }

  // ---- One step ----------------------------------------------------------

  /** Moving one writer into a reservation on `b` adds it to `Held(b)` and to no other set. */
  lemma HeldGains(s: State, s': State, w: Writer, b: Key, c: Key)
    requires s'.writers == s.writers[w := Reserved(b)]
    requires !PhaseOf(s, w).Reserved?
    ensures |Held(s', c)| == |Held(s, c)| + if c == b then 1 else 0
  {
    if c == b {
      assert Held(s', b) == Held(s, b) + {w};
    } else {
      assert Held(s', c) == Held(s, c);
    }
  }

  lemma HeldLoses(s: State, s': State, w: Writer, b: Key, c: Key)
    requires w in s.writers && s.writers[w] == Reserved(b)
    requires s'.writers == s.writers[w := Idle]
    ensures |Held(s', c)| == |Held(s, c)| - if c == b then 1 else 0
  {
    if c == b {
      assert Held(s, b) == Held(s', b) + {w};
    } else {
      assert Held(s', c) == Held(s, c);
    }
  }

  lemma HeldSame(s: State, s': State, w: Writer, p: Phase, c: Key)
    requires s'.writers == s.writers[w := p]
    requires !PhaseOf(s, w).Reserved? && !p.Reserved?
    ensures Held(s', c) == Held(s, c)
  {
  }

  /** Reserve misses, choosing a generation and writing its file touch no count. */
  lemma PrepareKeepsInv(s: State, a: Action, sync: bool)
    requires Inv(s, sync) && Enabled(s, a)
    requires a.Reserve? || a.Choose? || a.Write?
    ensures Inv(Apply(s, a, sync), sync)
  {
    var s' := Apply(s, a, sync);
    forall b ensures KeyInv(s', b) {
      assert KeyInv(s, b);
      HeldSame(s, s', a.w, s'.writers[a.w], b);
    }
    forall b, b' | Available(s', b) && Available(s', b') && b.hash == b'.hash ensures b == b' {
      assert Available(s, b) && Available(s, b');
    }
  }

  lemma ReserveKeepsInv(s: State, w: Writer, b: Key, sync: bool)
    requires Inv(s, sync) && Enabled(s, ReserveAt(w, b))
    ensures Inv(Apply(s, ReserveAt(w, b), sync), sync)
  {
    var s' := Apply(s, ReserveAt(w, b), sync);
    forall c ensures KeyInv(s', c) {
      assert KeyInv(s, c);
      HeldGains(s, s', w, b, c);
    }
    forall c, c' | Available(s', c) && Available(s', c') && c.hash == c'.hash ensures c == c' {
      assert Available(s, c) && Available(s, c');
    }
  }

  lemma MintKeepsInv(s: State, w: Writer, sync: bool)
    requires Inv(s, sync) && Enabled(s, Mint(w)) && MintFindsFile(s, Mint(w))
    ensures Inv(Apply(s, Mint(w), sync), sync)
  {
    var s' := Apply(s, Mint(w), sync);
    var b := PhaseOf(s, w).key;
    forall c ensures KeyInv(s', c) {
      assert KeyInv(s, c);
      if MintAccepted(s, b) {
        HeldGains(s, s', w, b, c);
      } else {
        HeldSame(s, s', w, Idle, c);
      }
    }
    forall c, c' | Available(s', c) && Available(s', c') && c.hash == c'.hash ensures c == c' {
      assert c != b || !MintAccepted(s, b) ==> Available(s, c);
      assert c' != b || !MintAccepted(s, b) ==> Available(s, c');
    }
  }

  lemma HandOffKeepsInv(s: State, a: Action, sync: bool)
    requires Inv(s, sync) && Enabled(s, a)
    requires a.Bind? || a.Release?
    ensures Inv(Apply(s, a, sync), sync)
  {
    var s' := Apply(s, a, sync);
    var b := PhaseOf(s, a.w).key;
    assert KeyInv(s, b) && a.w in Held(s, b);
    forall c ensures KeyInv(s', c) {
      assert KeyInv(s, c);
      HeldLoses(s, s', a.w, b, c);
    }
    forall c, c' | Available(s', c) && Available(s', c') && c.hash == c'.hash ensures c == c' {
      assert Available(s, c) && Available(s, c');
    }
  }

  lemma CountStepKeepsInv(s: State, a: Action, sync: bool)
    requires Inv(s, sync) && Enabled(s, a)
    requires a.Unbind? || a.Reconcile?
    ensures Inv(Apply(s, a, sync), sync)
  {
    var s' := Apply(s, a, sync);
    forall c ensures KeyInv(s', c) {
      assert KeyInv(s, c);
      assert Held(s', c) == Held(s, c);
    }
    forall c, c' | Available(s', c) && Available(s', c') && c.hash == c'.hash ensures c == c' {
      assert Available(s, c) && Available(s, c');
    }
  }

  lemma CollectorKeepsInv(s: State, a: Action, sync: bool)
    requires Inv(s, sync) && Enabled(s, a)
    requires a.Claim? || a.Adopt? || a.Unlink? || a.DeleteRow?
    ensures Inv(Apply(s, a, sync), sync)
  {
    var s' := Apply(s, a, sync);
    forall c ensures KeyInv(s', c) {
      assert KeyInv(s, c);
      assert Held(s', c) == Held(s, c);
    }
    forall c, c' | Available(s', c) && Available(s', c') && c.hash == c'.hash ensures c == c' {
      assert Available(s, c) && Available(s, c');
    }
  }

  lemma CrashKeepsInv(s: State, drop: bool, sync: bool)
    requires Inv(s, sync) && (drop ==> sync)
    ensures Inv(Apply(s, Crash(drop), sync), sync)
  {
    var s' := Apply(s, Crash(drop), sync);
    forall c ensures KeyInv(s', c) {
      assert KeyInv(s, c);
      assert Held(s', c) == {};
    }
    forall c, c' | Available(s', c) && Available(s', c') && c.hash == c'.hash ensures c == c' {
      assert Available(s, c) && Available(s, c');
    }
  }

  lemma StepKeepsInv(s: State, a: Action, sync: bool)
    requires Inv(s, sync) && Enabled(s, a) && MintFindsFile(s, a) && (a == Crash(true) ==> sync)
    ensures Inv(Apply(s, a, sync), sync)
  {
    if a.Reserve? || a.Choose? || a.Write? {
      PrepareKeepsInv(s, a, sync);
    } else if a.ReserveAt? {
      ReserveKeepsInv(s, a.w, a.key, sync);
    } else if a.Mint? {
      MintKeepsInv(s, a.w, sync);
    } else if a.Bind? || a.Release? {
      HandOffKeepsInv(s, a, sync);
    } else if a.Unbind? || a.Reconcile? {
      CountStepKeepsInv(s, a, sync);
    } else if a.Crash? {
      CrashKeepsInv(s, a.dropUnsynced, sync);
    } else {
      CollectorKeepsInv(s, a, sync);
    }
  }

  // ---- Every run ---------------------------------------------------------

  /** Every state the run passes through is safe. */
  ghost predicate SafeThroughout(s: State, actions: seq<Action>, sync: bool)
    requires Runs(s, actions, sync)
    decreases |actions|
  {
    Safe(s) &&
    (actions == [] || SafeThroughout(Apply(s, actions[0], sync), actions[1..], sync))
  }

  lemma AcceptedMintWithoutFileIsUnsafe(s: State, a: Action, sync: bool)
    requires Enabled(s, a) && !MintFindsFile(s, a)
    ensures !Safe(Apply(s, a, sync))
  {
    var s' := Apply(s, a, sync);
    var b := PhaseOf(s, a.w).key;
    assert s'.rows[b].refcount > 0 && b !in s'.files;
  }

  lemma {:induction false} RunSafeIff(s: State, actions: seq<Action>, sync: bool)
    requires Inv(s, sync) && Runs(s, actions, sync) && Durable(actions, sync)
    ensures SafeThroughout(s, actions, sync) <==> MintsFindFiles(s, actions, sync)
    decreases |actions|
  {
    InvImpliesSafe(s, sync);
    if actions != [] {
      var s' := Apply(s, actions[0], sync);
      if MintFindsFile(s, actions[0]) {
        StepKeepsInv(s, actions[0], sync);
        RunSafeIff(s', actions[1..], sync);
      } else {
        AcceptedMintWithoutFileIsUnsafe(s, actions[0], sync);
      }
    }
  }

  /** S1 and I1 to I4 hold throughout a run, whatever the number of hashes, generations,
      writers and references and wherever it crashes, exactly when every accepted mint
      still finds the file it was chosen for. */
  lemma EveryRunIsSafeIff(actions: seq<Action>, sync: bool)
    requires Runs(INITIAL, actions, sync) && Durable(actions, sync)
    ensures SafeThroughout(INITIAL, actions, sync) <==> MintsFindFiles(INITIAL, actions, sync)
  {
    assert Inv(INITIAL, sync);
    RunSafeIff(INITIAL, actions, sync);
  }

  /** A writer about to mint still has its file. */
  ghost predicate WrittenPresent(s: State) {
    forall w | w in s.writers && s.writers[w].Written? :: s.writers[w].key in s.files
  }

  lemma {:induction false} SparedRunsFindFiles(s: State, actions: seq<Action>, sync: bool)
    requires WrittenPresent(s) && (sync ==> Synced(s))
    requires Runs(s, actions, sync) && Durable(actions, sync) && SparesWritten(s, actions, sync)
    ensures MintsFindFiles(s, actions, sync)
    decreases |actions|
  {
    if actions != [] {
      SparedRunsFindFiles(Apply(s, actions[0], sync), actions[1..], sync);
    }
  }

  /** The checker's theorem: with write-then-mint undisturbed by the collector, every
      reachable state is safe. */
  lemma EverySparedRunIsSafe(actions: seq<Action>, sync: bool)
    requires Runs(INITIAL, actions, sync) && Durable(actions, sync)
    requires SparesWritten(INITIAL, actions, sync)
    ensures SafeThroughout(INITIAL, actions, sync)
  {
    EveryRunIsSafeIff(actions, sync);
    SparedRunsFindFiles(INITIAL, actions, sync);
  }

  // ---- Every count is accounted for ---------------------------------------------------

  /** What a count holds beyond the references and reservations there are. */
  function Slack(s: State, b: Key): int {
    if b in s.rows then s.rows[b].refcount - s.bound[b] - |Held(s, b)| else 0
  }

  /** What every step keeps of one count, whatever becomes of the files. */
  ghost predicate CountInv(s: State, b: Key) {
    if b in s.rows then Slack(s, b) >= 0 && (!s.rows[b].available ==> s.rows[b].refcount == 0)
    else s.bound[b] == 0 && Held(s, b) == {}
  }

  ghost predicate CountsInv(s: State) {
    (forall b :: CountInv(s, b)) && GcInv(s)
  }

  /** A crash turns the reservations its writers held into slack, a reconcile takes the slack of
      its row away, and no other step changes any. */
  function SlackAfter(s: State, a: Action, b: Key, slack: int): int {
    match a
    case Crash(_) => slack + |Held(s, b)|
    case Reconcile(k) => if k == b then 0 else slack
    case _ => slack
  }

  lemma WriterMovesSlack(s: State, a: Action, sync: bool, b: Key)
    requires CountInv(s, b) && Enabled(s, a)
    requires a.Reserve? || a.Choose? || a.Write? || a.ReserveAt? || a.Mint? || a.Bind? || a.Release?
    ensures Slack(Apply(s, a, sync), b) == Slack(s, b) && CountInv(Apply(s, a, sync), b)
  {
    var s' := Apply(s, a, sync);
    if a.Bind? || a.Release? {
      assert a.w in Held(s, PhaseOf(s, a.w).key);
      HeldLoses(s, s', a.w, PhaseOf(s, a.w).key, b);
    } else if a.ReserveAt? {
      HeldGains(s, s', a.w, a.key, b);
    } else if a.Mint? && MintAccepted(s, PhaseOf(s, a.w).key) {
      HeldGains(s, s', a.w, PhaseOf(s, a.w).key, b);
    } else {
      HeldSame(s, s', a.w, s'.writers[a.w], b);
    }
  }

  lemma OtherMovesSlack(s: State, a: Action, sync: bool, b: Key)
    requires CountInv(s, b) && GcInv(s) && Enabled(s, a)
    requires a.Unbind? || a.Claim? || a.Adopt? || a.Unlink? || a.DeleteRow? || a.Reconcile? || a.Crash?
    ensures Slack(Apply(s, a, sync), b) == SlackAfter(s, a, b, Slack(s, b)) && CountInv(Apply(s, a, sync), b)
  {
    var s' := Apply(s, a, sync);
    assert Held(s', b) == if a.Crash? then {} else Held(s, b);
  }

  lemma StepMovesSlack(s: State, a: Action, sync: bool)
    requires CountsInv(s) && Enabled(s, a)
    ensures CountsInv(Apply(s, a, sync))
    ensures forall b :: Slack(Apply(s, a, sync), b) == SlackAfter(s, a, b, Slack(s, b))
  {
    var s' := Apply(s, a, sync);
    forall b ensures Slack(s', b) == SlackAfter(s, a, b, Slack(s, b)) && CountInv(s', b) {
      assert CountInv(s, b);
      if a.Unbind? || a.Claim? || a.Adopt? || a.Unlink? || a.DeleteRow? || a.Reconcile? || a.Crash? {
        OtherMovesSlack(s, a, sync, b);
      } else {
        WriterMovesSlack(s, a, sync, b);
      }
    }
    if !s.gc.Resting? { assert CountInv(s, s.gc.key); }
    GcStays(s, a, sync);
  }

  lemma GcStays(s: State, a: Action, sync: bool)
    requires GcInv(s) && Enabled(s, a)
    ensures GcInv(Apply(s, a, sync))
  {
  }

  /** The reservations on `b` that died with their writers since it was last reconciled. */
  function LostIn(s: State, actions: seq<Action>, sync: bool, b: Key, lost: int): int
    requires Runs(s, actions, sync)
    decreases |actions|
  {
    if actions == [] then lost
    else LostIn(Apply(s, actions[0], sync), actions[1..], sync, b, SlackAfter(s, actions[0], b, lost))
  }

  lemma {:induction false} RunMovesSlack(s: State, actions: seq<Action>, sync: bool, b: Key)
    requires CountsInv(s) && Runs(s, actions, sync)
    ensures CountsInv(Exec(s, actions, sync))
    ensures Slack(Exec(s, actions, sync), b) == LostIn(s, actions, sync, b, Slack(s, b))
    decreases |actions|
  {
    if actions != [] {
      StepMovesSlack(s, actions[0], sync);
      RunMovesSlack(Apply(s, actions[0], sync), actions[1..], sync, b);
    }
  }

  /** In every run, safe or not, a count is the references, the reservations held, and those
      lost in crashes since the row was last reconciled. */
  lemma EveryCountIsAccountedFor(actions: seq<Action>, sync: bool, b: Key)
    requires Runs(INITIAL, actions, sync) && b in Exec(INITIAL, actions, sync).rows
    ensures var s := Exec(INITIAL, actions, sync);
            s.rows[b].refcount == s.bound[b] + |Held(s, b)| + LostIn(INITIAL, actions, sync, b, 0)
  {
    RunMovesSlack(INITIAL, actions, sync, b);
  }

  lemma {:induction false} NothingLost(s: State, actions: seq<Action>, sync: bool, b: Key)
    requires Runs(s, actions, sync) && forall i | 0 <= i < |actions| :: !actions[i].Crash?
    ensures LostIn(s, actions, sync, b, 0) == 0
    decreases |actions|
  {
    if actions != [] { NothingLost(Apply(s, actions[0], sync), actions[1..], sync, b); }
  }

  /** Without a crash, the collector at rest may claim an available generation exactly when no
      object refers to it and no writer holds it; and its three steps then remove the row and
      the file, and nothing else. */
  lemma UnreferencedIsReclaimable(actions: seq<Action>, sync: bool, b: Key)
    requires Runs(INITIAL, actions, sync) && forall i | 0 <= i < |actions| :: !actions[i].Crash?
    requires Available(Exec(INITIAL, actions, sync), b) && Exec(INITIAL, actions, sync).gc.Resting?
    ensures var s := Exec(INITIAL, actions, sync);
            && (Enabled(s, Claim(b)) <==> s.bound[b] == 0 && Held(s, b) == {})
            && (Enabled(s, Claim(b)) ==>
                  && Runs(s, [Claim(b), Unlink, DeleteRow], sync)
                  && Exec(s, [Claim(b), Unlink, DeleteRow], sync) == s.(rows := s.rows - {b}, files := s.files - {b}))
  {
    var s := Exec(INITIAL, actions, sync);
    EveryCountIsAccountedFor(actions, sync, b);
    NothingLost(INITIAL, actions, sync, b);
    if Enabled(s, Claim(b)) {
      var s1 := Apply(s, Claim(b), sync);
      var s2 := Apply(s1, Unlink, sync);
      var s3 := Apply(s2, DeleteRow, sync);
      var steps := [Claim(b), Unlink, DeleteRow];
      assert steps[1..] == [Unlink, DeleteRow] && steps[1..][1..] == [DeleteRow] && steps[1..][1..][1..] == [];
      assert s3.rows == s.rows - {b};
      assert Runs(s2, [DeleteRow], sync) && Exec(s2, [DeleteRow], sync) == s3;
      assert Runs(s1, [Unlink, DeleteRow], sync) && Exec(s1, [Unlink, DeleteRow], sync) == s3;
    }
  }

  // ---- Nobody waits --------------------------------------------------------------------

  lemma {:induction false} FreshGeneration(keys: set<Key>, h: Cid) returns (g: nat)
    ensures forall b | b in keys && b.hash == h :: b.generation < g
    decreases keys
  {
    if keys == {} {
      g := 0;
    } else {
      var b :| b in keys;
      g := FreshGeneration(keys - {b}, h);
      if g <= b.generation { g := b.generation + 1; }
    }
  }

  /** In every state that counts can reach, each writer has a step to take, whatever the others
      do: an idle one for any hash, and one with a reservation may bind it or give it back. */
  lemma WritersAreNeverStuck(s: State, w: Writer, h: Cid)
    requires CountsInv(s)
    ensures match PhaseOf(s, w)
            case Idle => Enabled(s, Reserve(w, h)) != exists b: Key :: b.hash == h && Enabled(s, ReserveAt(w, b))
            case Missed(m) =>
              && (exists g: nat :: Enabled(s, Choose(w, g)))
              && forall g: nat :: Enabled(s, Choose(w, g)) <==> Key(m, g) !in s.rows
            case Chosen(_) => Enabled(s, Write(w))
            case Written(_) => Enabled(s, Mint(w))
            case Reserved(_) => Enabled(s, Bind(w)) && Enabled(s, Release(w))
  {
    var ph := PhaseOf(s, w);
    if ph.Idle? && HasAvailable(s, h) {
      var b :| b in s.rows && b.hash == h && Available(s, b);
      assert Enabled(s, ReserveAt(w, b));
    } else if ph.Missed? {
      var g := FreshGeneration(s.rows.Keys, ph.hash);
      assert Enabled(s, Choose(w, g));
    } else if ph.Reserved? {
      assert CountInv(s, ph.key) && w in Held(s, ph.key);
    }
  }

  /** A reference can always be dropped, a collection once begun can always go on, and a claim
      that a crash left behind can be taken up. */
  lemma ReferencesAndCollectionsGoOn(s: State, b: Key)
    requires CountsInv(s)
    ensures s.bound[b] > 0 ==> Enabled(s, Unbind(b))
    ensures s.gc == Claimed(b) ==> Enabled(s, Unlink)
    ensures s.gc == Unlinked(b) ==> Enabled(s, DeleteRow)
    ensures s.gc.Resting? && b in s.rows && !s.rows[b].available ==> Enabled(s, Adopt(b))
  {
    assert CountInv(s, b);
  }

  /** After a crash no writer is left, every claim it interrupted can be taken up, and every
      count it left too high can be lowered to the references there are. */
  lemma CrashIsRecoverable(s: State, drop: bool, sync: bool, w: Writer, b: Key)
    requires CountsInv(s)
    ensures var s' := Apply(s, Crash(drop), sync);
            && PhaseOf(s', w).Idle? && s'.bound == s.bound
            && (b in s'.rows && !s'.rows[b].available ==> Enabled(s', Adopt(b)))
            && (Slack(s', b) > 0 <==> Enabled(s', Reconcile(b)))
            && (Slack(s', b) > 0 ==> Slack(Apply(s', Reconcile(b), sync), b) == 0)
  {
    var s' := Apply(s, Crash(drop), sync);
    StepMovesSlack(s, Crash(drop), sync);
    assert CountInv(s', b) && Held(s', b) == {};
    if Slack(s', b) > 0 { OtherMovesSlack(s', Reconcile(b), sync, b); }
  }
}

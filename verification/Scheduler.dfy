// The scheduler's load, plan, publish, record cycle, driven by an arbitrary script of
// delays and publisher answers. What is recorded never exceeds the ceiling in any hour,
// and a job's recorded slots only move forward.
module Scheduler {
  import opened Prelude
  import opened Valve
  import opened Ledger
  import opened Planner

  /** The state store, what has been published, every slot recorded, and the clock. */
  datatype World = World(store: Ledgers, history: History, slots: seq<Fire>, clock: Time)

  /** How a publish ends: acknowledged, overtaken by the job's next slot, refused for good,
      or cut off by shutdown. */
  datatype Answer = Acknowledged | Overtaken | Permanent | Cancelled

  /** One turn of the publish loop: time before the due check, rows lost meanwhile, time the
      publish takes, and its answer. */
  datatype Turn = Turn(wait: nat, lost: set<Job>, took: nat, answer: Answer)

  /** One cycle: rows lost and time passed before planning, then either a reload or a batch. */
  datatype Cycle = Cycle(lost: set<Job>, wait: nat, reload: bool, turns: seq<Turn>)

  predicate Lossless(script: seq<Cycle>) {
    forall i | 0 <= i < |script| :: script[i].lost == {} && LosslessTurns(script[i].turns)
  }

  predicate LosslessTurns(turns: seq<Turn>) {
    forall i | 0 <= i < |turns| :: turns[i].lost == {}
  }

  // ---- Steps ---------------------------------------------------------------------

  function Pass(w: World, d: nat, lost: set<Job>): World {
    w.(store := w.store - lost, clock := w.clock + d)
  }

  /** A publish acknowledged now; `row` is the job's row as loaded before planning. */
  function Publish(w: World, row: FireState, f: Fire, configured: int): World {
    World(w.store[f.job := RecordedFire(row, f.scheduledAt, w.clock, configured)],
          w.history + [Publication(f.job, w.clock)], w.slots + [f], w.clock)
  }

  function Supersede(w: World, row: FireState, f: Fire): World {
    w.(store := w.store[f.job := SupersededFire(row, f.scheduledAt)], slots := w.slots + [f])
  }

  // ---- Slots only move forward -----------------------------------------------------

  predicate SlotsIncrease(slots: seq<Fire>) {
    forall i, j | 0 <= i < j < |slots| && slots[i].job == slots[j].job :: slots[i].scheduledAt < slots[j].scheduledAt
  }

  /** `f` comes after every slot recorded for its job. */
  predicate IsLater(slots: seq<Fire>, f: Fire) {
    forall i | 0 <= i < |slots| && slots[i].job == f.job :: slots[i].scheduledAt < f.scheduledAt
  }

  /** The stored row of a job is never behind a recorded slot of it. */
  predicate RowAtLeast(st: FireState, slot: Time) {
    st.lastScheduled.Some? ==> slot <= st.lastScheduled.value
  }

  predicate SlotInv(w: World) {
    && SlotsIncrease(w.slots)
    && (forall i | 0 <= i < |w.slots| :: w.slots[i].scheduledAt <= w.clock)
    && forall i | 0 <= i < |w.slots| :: RowAtLeast(StateOf(w.store, w.slots[i].job), w.slots[i].scheduledAt)
  }

  predicate Pending(w: World, fires: seq<Fire>, from: nat) {
    forall k | from <= k < |fires| :: IsLater(w.slots, fires[k])
  }

  lemma PassKeepsSlots(w: World, d: nat, lost: set<Job>)
    requires SlotInv(w)
    ensures SlotInv(Pass(w, d, lost))
  {
  }

  /** Whatever is written for `f`, its slot is the new row's. */
  lemma RecordKeepsSlots(w: World, w': World, f: Fire)
    requires SlotInv(w) && IsLater(w.slots, f) && f.scheduledAt <= w.clock
    requires w'.slots == w.slots + [f] && w'.clock == w.clock
    requires f.job in w'.store && w'.store[f.job].lastScheduled == Some(f.scheduledAt)
    requires w'.store - {f.job} == w.store - {f.job}
    ensures SlotInv(w')
  {
    forall i | 0 <= i < |w'.slots| ensures RowAtLeast(StateOf(w'.store, w'.slots[i].job), w'.slots[i].scheduledAt) {
      if w'.slots[i].job != f.job {
        var j := w.slots[i].job;
        assert j in w'.store - {f.job} <==> j in w.store - {f.job};
        assert j in w.store ==> (w'.store - {f.job})[j] == (w.store - {f.job})[j];
        assert StateOf(w'.store, j) == StateOf(w.store, j);
      }
    }
  }

  lemma RecordKeepsPending(w: World, w': World, fires: seq<Fire>, k: nat)
    requires k < |fires| && OnePerJob(fires) && Pending(w, fires, k) && w'.slots == w.slots + [fires[k]]
    ensures Pending(w', fires, k + 1)
  {
  }

  /** A planned slot is later than anything recorded for its job, whether its row is there
      or lost. */
  lemma PlannedIsLater(w: World, jobs: seq<JobSpec>, f: Fire)
    requires ValidJobs(jobs) && SlotInv(w) && Listed(jobs, w.store, w.clock, f)
    ensures IsLater(w.slots, f)
  {
    var i :| 0 <= i < |jobs| && Eligible(jobs[i], w.store, w.clock, f);
    var last := StateOf(w.store, f.job).lastScheduled;
    if last.Some? {
      var n: nat :| IsSlot(jobs[i], last.value, w.clock, f.scheduledAt, n);
      ReachedAdvances(jobs[i].next, last.value, 0, n);
    }
  }

  // ---- The ceiling holds in every hour -----------------------------------------------

  /** A publication comes a whole window after the one `limit` places before it. */
  predicate Spaced(h: History, limit: nat) {
    forall i | 0 <= i && i + limit < |h| :: h[i + limit].at >= h[i].at + WINDOW
  }

  const HOUR := 60 * 60 * 1_000_000_000

  /** The publications in the hour that ends at `t`. */
  function InHour(h: History, t: Time): nat {
    CountIn(Times(h), t - HOUR, t)
  }

  ghost predicate RateInv(w: World, limit: nat) {
    && InOrder(w.history) && Past(w.history, w.clock)
    && Tracks(w.store, w.history, limit) && Spaced(w.history, limit)
  }

  /** What a batch of `left` more fires, planned at `at` after `base` publications, may add. */
  ghost predicate Room(h: History, base: nat, at: Time, left: nat, limit: nat) {
    && base <= |h| && Past(h[..base], at)
    && (left > 0 ==> CountIn(Times(h[..base]), at - WINDOW, at) + (|h| - base) + left <= limit)
  }

  /** Rows of jobs still to be published are as they were loaded. */
  predicate Untouched(store: Ledgers, loaded: Ledgers, fires: seq<Fire>, from: nat) {
    forall k | from <= k < |fires| :: StateOf(store, fires[k].job) == StateOf(loaded, fires[k].job)
  }

  /** A planned fire leaves room: the publication `limit` places back has left the window. */
  lemma RoomSpaces(h: History, base: nat, at: Time, left: nat, limit: nat, p: Publication)
    requires InOrder(h) && Spaced(h, limit) && Room(h, base, at, left, limit) && left > 0 && p.at >= at
    ensures Spaced(h + [p], limit)
  {
    var n := |h|;
    if n >= limit {
      var ts := Times(h[..base]);
      var i := n - limit;
      assert i < base;
      CountBound(ts, i, at - WINDOW, at);
      assert h[i].at == ts[i] <= at - WINDOW;
    }
  }

  lemma AppendInOrder(h: History, p: Publication)
    requires InOrder(h) && Past(h, p.at)
    ensures InOrder(h + [p]) && Past(h + [p], p.at)
  {
  }

  lemma PublishKeepsRate(w: World, loaded: Ledgers, fires: seq<Fire>, k: nat, base: nat, at: Time, configured: int)
    requires RateInv(w, EffectiveLimit(configured)) && k < |fires| && at <= w.clock
    requires Room(w.history, base, at, |fires| - k, EffectiveLimit(configured))
    requires Untouched(w.store, loaded, fires, k)
    ensures RateInv(Publish(w, StateOf(loaded, fires[k].job), fires[k], configured), EffectiveLimit(configured))
    ensures Room(w.history + [Publication(fires[k].job, w.clock)], base, at, |fires| - k - 1, EffectiveLimit(configured))
  {
    var f, h := fires[k], w.history;
    var p := Publication(f.job, w.clock);
    assert StateOf(loaded, f.job) == StateOf(w.store, f.job);
    RoomSpaces(h, base, at, |fires| - k, EffectiveLimit(configured), p);
    AppendInOrder(h, p);
    RecordTracks(w.store, h, p, f.scheduledAt, configured);
    assert (h + [p])[..base] == h[..base];
  }

  lemma SupersedeKeepsRate(w: World, row: FireState, f: Fire, limit: nat)
    requires RateInv(w, limit) && StateOf(w.store, f.job) == row
    ensures RateInv(Supersede(w, row, f), limit)
  {
    var w' := Supersede(w, row, f);
    forall j ensures Trimmed(JobTimes(w.history, j), CountedFires(StateOf(w'.store, j)), limit) {
      assert Trimmed(JobTimes(w.history, j), CountedFires(StateOf(w.store, j)), limit);
      assert CountedFires(StateOf(w'.store, j)) == CountedFires(StateOf(w.store, j));
    }
  }

  lemma UsedIsHistory(w: World, limit: nat)
    requires RateInv(w, limit) && Used(w.store, w.clock) < limit
    ensures InHour(w.history, w.clock) == Used(w.store, w.clock)
  {
    LedgersCountHistory(w.store, w.history, limit, w.clock - WINDOW, w.clock);
  }

  /** The plan leaves room for itself. */
  lemma PlanMakesRoom(w: World, all: seq<Fire>, fires: seq<Fire>, reopen: Option<Time>, jobs: seq<JobSpec>, configured: int)
    requires RateInv(w, EffectiveLimit(configured))
    requires IsPlan(all, fires, reopen, jobs, configured, w.store, w.clock)
    ensures Room(w.history, |w.history|, w.clock, |fires|, EffectiveLimit(configured))
  {
    assert w.history[..|w.history|] == w.history;
    if fires != [] { UsedIsHistory(w, EffectiveLimit(configured)); }
  }

  /** Spacing bounds every window, wherever it ends. */
  lemma SpacedBoundsWindows(h: History, limit: nat, t: Time)
    requires InOrder(h) && Spaced(h, limit)
    ensures InHour(h, t) <= limit
  {
    var n := Upto(h, t);
    var early := Times(h[..n]);
    CountPrefix(h, n, t - WINDOW, t);
    if n > limit {
      CountBound(early, n - limit - 1, t - WINDOW, t);
      assert h[n - limit - 1].at + WINDOW <= h[n - 1].at;
      assert early[n - limit - 1] <= t - WINDOW;
    } else {
      CountAtMost(early, t - WINDOW, t);
    }
  }

  lemma {:induction false} CountAtMost(ts: seq<Time>, lo: Time, hi: Time)
    ensures CountIn(ts, lo, hi) <= |ts|
  {
    if ts != [] { CountAtMost(ts[..|ts| - 1], lo, hi); }
  }

  /** How many publications are not after `t`. */
  lemma {:induction false} Upto(h: History, t: Time) returns (n: nat)
    requires InOrder(h)
    ensures n <= |h| && Past(h[..n], t) && forall i | n <= i < |h| :: h[i].at > t
    decreases |h|
  {
    if h == [] || h[|h| - 1].at <= t {
      n := |h|;
    } else {
      n := Upto(h[..|h| - 1], t);
      assert h[..|h| - 1][..n] == h[..n];
    }
  }

  lemma {:induction false} CountPrefix(h: History, n: nat, lo: Time, hi: Time)
    requires n <= |h| && forall i | n <= i < |h| :: h[i].at > hi
    ensures CountIn(Times(h), lo, hi) == CountIn(Times(h[..n]), lo, hi)
    decreases |h|
  {
    if n == |h| {
      assert h[..n] == h;
    } else {
      var front := h[..|h| - 1];
      CountPrefix(front, n, lo, hi);
      assert front[..n] == h[..n] && Times(h)[..|h| - 1] == Times(front);
    }
  }

  // ---- The loop ------------------------------------------------------------------

  predicate Configured(jobs: seq<JobSpec>, j: Job) {
    exists i :: 0 <= i < |jobs| && jobs[i].name == j
  }

  predicate Owned(store: Ledgers, jobs: seq<JobSpec>) {
    forall j | j in store :: Configured(jobs, j)
  }

  /** The rows of the configured jobs. */
  method LoadState(jobs: seq<JobSpec>, store: Ledgers) returns (loaded: Ledgers)
    ensures forall j :: StateOf(loaded, j) == if Configured(jobs, j) then StateOf(store, j) else NO_STATE
    ensures loaded.Keys <= store.Keys
    ensures Owned(store, jobs) ==> loaded == store
  {
    loaded := map[];
    for i := 0 to |jobs|
      invariant forall j | j in loaded :: j in store && loaded[j] == store[j] && Configured(jobs, j)
      invariant forall k | 0 <= k < i && jobs[k].name in store :: jobs[k].name in loaded
    {
      if jobs[i].name in store {
        loaded := loaded[jobs[i].name := store[jobs[i].name]];
      }
    }
    forall j | Configured(jobs, j) ensures j in store ==> j in loaded {
      var i :| 0 <= i < |jobs| && jobs[i].name == j;
    }
  }

  /** What every point of a run keeps; the ceiling only while no row has been lost. */
  ghost predicate Inv(w: World, jobs: seq<JobSpec>, configured: int, lossless: bool) {
    SlotInv(w) && Owned(w.store, jobs) && (lossless ==> RateInv(w, EffectiveLimit(configured)))
  }

  lemma PassKeepsInv(w: World, jobs: seq<JobSpec>, configured: int, lossless: bool, d: nat, lost: set<Job>)
    requires Inv(w, jobs, configured, lossless) && (lossless ==> lost == {})
    ensures Inv(Pass(w, d, lost), jobs, configured, lossless)
  {
    PassKeepsSlots(w, d, lost);
    if lossless { assert w.store - lost == w.store; }
  }

  /** The part of a batch still to be published. */
  ghost predicate BatchInv(w: World, jobs: seq<JobSpec>, configured: int, lossless: bool, loaded: Ledgers,
                           fires: seq<Fire>, from: nat, base: nat, at: Time)
    requires from <= |fires|
  {
    && Pending(w, fires, from) && at <= w.clock
    && (lossless ==> Untouched(w.store, loaded, fires, from)
                     && Room(w.history, base, at, |fires| - from, EffectiveLimit(configured)))
  }

  lemma PublishKeepsInv(w: World, jobs: seq<JobSpec>, configured: int, lossless: bool, loaded: Ledgers,
                        fires: seq<Fire>, k: nat, base: nat, at: Time)
    requires k < |fires| && OnePerJob(fires) && fires[k].scheduledAt <= w.clock && Configured(jobs, fires[k].job)
    requires Inv(w, jobs, configured, lossless)
    requires BatchInv(w, jobs, configured, lossless, loaded, fires, k, base, at)
    ensures var w' := Publish(w, StateOf(loaded, fires[k].job), fires[k], configured);
            Inv(w', jobs, configured, lossless) && BatchInv(w', jobs, configured, lossless, loaded, fires, k + 1, base, at)
  {
    var w' := Publish(w, StateOf(loaded, fires[k].job), fires[k], configured);
    RecordKeepsSlots(w, w', fires[k]);
    RecordKeepsPending(w, w', fires, k);
    if lossless { PublishKeepsRate(w, loaded, fires, k, base, at, configured); }
  }

  lemma SupersedeKeepsInv(w: World, jobs: seq<JobSpec>, configured: int, lossless: bool, loaded: Ledgers,
                          fires: seq<Fire>, k: nat, base: nat, at: Time)
    requires k < |fires| && OnePerJob(fires) && fires[k].scheduledAt <= w.clock && Configured(jobs, fires[k].job)
    requires Inv(w, jobs, configured, lossless)
    requires BatchInv(w, jobs, configured, lossless, loaded, fires, k, base, at)
    ensures var w' := Supersede(w, StateOf(loaded, fires[k].job), fires[k]);
            Inv(w', jobs, configured, lossless) && BatchInv(w', jobs, configured, lossless, loaded, fires, k + 1, base, at)
  {
    var w' := Supersede(w, StateOf(loaded, fires[k].job), fires[k]);
    RecordKeepsSlots(w, w', fires[k]);
    RecordKeepsPending(w, w', fires, k);
    if lossless { SupersedeKeepsRate(w, StateOf(loaded, fires[k].job), fires[k], EffectiveLimit(configured)); }
  }

  lemma PassKeepsBatch(w: World, jobs: seq<JobSpec>, configured: int, lossless: bool, loaded: Ledgers,
                       fires: seq<Fire>, k: nat, base: nat, at: Time, d: nat, lost: set<Job>)
    requires k <= |fires| && (lossless ==> lost == {})
    requires BatchInv(w, jobs, configured, lossless, loaded, fires, k, base, at)
    ensures BatchInv(Pass(w, d, lost), jobs, configured, lossless, loaded, fires, k, base, at)
  {
    if lossless { assert w.store - lost == w.store; }
  }

  /** The loop's variables: the world, the jobs given up on, and whether it has shut down. */
  datatype Run = Run(world: World, unhealthy: set<Job>, stopped: bool)

  /** The position of a job in the configuration, or the number of jobs if it is not there. */
  function Find(jobs: seq<JobSpec>, j: Job): (i: nat)
    ensures i <= |jobs| && (i < |jobs| <==> Configured(jobs, j)) && (i < |jobs| ==> jobs[i].name == j)
  {
    if jobs == [] then 0
    else if jobs[0].name == j then assert jobs[0].name == j; 0
    else
      var i := Find(jobs[1..], j);
      assert Configured(jobs, j) ==> Configured(jobs[1..], j) by {
        if k :| 0 <= k < |jobs| && jobs[k].name == j { assert jobs[1..][k - 1].name == j; }
      }
      i + 1
  }

  /** How long until the slot after `f`, at which its publish is overtaken. */
  function UntilNext(jobs: seq<JobSpec>, f: Fire, now: Time): nat
    requires Configured(jobs, f.job)
  {
    var next := jobs[Find(jobs, f.job)].next(f.scheduledAt);
    if next <= now then 0 else next - now
  }

  /** One turn of the publish loop. A fire that is not due, whose job is given up on or is not
      configured, is passed over; an answer is recorded against the row as loaded. A publish
      is only overtaken once its job's next slot has come. */
  function AfterTurn(r: Run, jobs: seq<JobSpec>, loaded: Ledgers, f: Fire, turn: Turn, configured: int): Run {
    var w := Pass(r.world, turn.wait, turn.lost);
    if f.scheduledAt > w.clock || f.job in r.unhealthy || !Configured(jobs, f.job) then r.(world := w)
    else
      var w := Pass(w, turn.took, {});
      match turn.answer
      case Acknowledged => r.(world := Publish(w, StateOf(loaded, f.job), f, configured))
      case Overtaken => r.(world := Supersede(Pass(w, UntilNext(jobs, f, w.clock), {}), StateOf(loaded, f.job), f))
      case Permanent => r.(world := w, unhealthy := r.unhealthy + {f.job})
      case Cancelled => r.(world := w, stopped := true)
  }

  /** The first `k` fires of a batch; the loop shuts down when the script runs out. */
  function AfterTurns(r: Run, jobs: seq<JobSpec>, loaded: Ledgers, fires: seq<Fire>, k: nat, turns: seq<Turn>, configured: int): Run
    requires k <= |fires|
  {
    if k == 0 then r
    else
      var before := AfterTurns(r, jobs, loaded, fires, k - 1, turns, configured);
      if before.stopped then before
      else if k > |turns| then before.(stopped := true)
      else AfterTurn(before, jobs, loaded, fires[k - 1], turns[k - 1], configured)
  }

  lemma OvertakenKeepsInv(w: World, jobs: seq<JobSpec>, configured: int, lossless: bool, loaded: Ledgers,
                          fires: seq<Fire>, k: nat, base: nat, at: Time)
    requires k < |fires| && OnePerJob(fires) && fires[k].scheduledAt <= w.clock && Configured(jobs, fires[k].job)
    requires Inv(w, jobs, configured, lossless)
    requires BatchInv(w, jobs, configured, lossless, loaded, fires, k, base, at)
    ensures var w' := Supersede(Pass(w, UntilNext(jobs, fires[k], w.clock), {}), StateOf(loaded, fires[k].job), fires[k]);
            Inv(w', jobs, configured, lossless) && BatchInv(w', jobs, configured, lossless, loaded, fires, k + 1, base, at)
  {
    var d := UntilNext(jobs, fires[k], w.clock);
    PassKeepsInv(w, jobs, configured, lossless, d, {});
    PassKeepsBatch(w, jobs, configured, lossless, loaded, fires, k, base, at, d, {});
    SupersedeKeepsInv(Pass(w, d, {}), jobs, configured, lossless, loaded, fires, k, base, at);
  }

  /** A fire that is passed over, given up on or cut off by a shutdown leaves the rest pending. */
  lemma SkipKeepsBatch(w: World, jobs: seq<JobSpec>, configured: int, lossless: bool, loaded: Ledgers,
                       fires: seq<Fire>, k: nat, base: nat, at: Time)
    requires k < |fires| && BatchInv(w, jobs, configured, lossless, loaded, fires, k, base, at)
    ensures BatchInv(w, jobs, configured, lossless, loaded, fires, k + 1, base, at)
  {
  }

  lemma TurnKeepsInv(r: Run, jobs: seq<JobSpec>, configured: int, lossless: bool, loaded: Ledgers,
                     fires: seq<Fire>, k: nat, turn: Turn, base: nat, at: Time)
    requires k < |fires| && OnePerJob(fires) && Configured(jobs, fires[k].job)
    requires lossless ==> turn.lost == {}
    requires Inv(r.world, jobs, configured, lossless)
    requires BatchInv(r.world, jobs, configured, lossless, loaded, fires, k, base, at)
    ensures var w := AfterTurn(r, jobs, loaded, fires[k], turn, configured).world;
            Inv(w, jobs, configured, lossless) && BatchInv(w, jobs, configured, lossless, loaded, fires, k + 1, base, at)
  {
    var w := Pass(r.world, turn.wait, turn.lost);
    PassKeepsInv(r.world, jobs, configured, lossless, turn.wait, turn.lost);
    PassKeepsBatch(r.world, jobs, configured, lossless, loaded, fires, k, base, at, turn.wait, turn.lost);
    if fires[k].scheduledAt > w.clock || fires[k].job in r.unhealthy {
      SkipKeepsBatch(w, jobs, configured, lossless, loaded, fires, k, base, at);
    } else {
      var w' := Pass(w, turn.took, {});
      PassKeepsInv(w, jobs, configured, lossless, turn.took, {});
      PassKeepsBatch(w, jobs, configured, lossless, loaded, fires, k, base, at, turn.took, {});
      match turn.answer
      case Acknowledged => PublishKeepsInv(w', jobs, configured, lossless, loaded, fires, k, base, at);
      case Overtaken => OvertakenKeepsInv(w', jobs, configured, lossless, loaded, fires, k, base, at);
      case Permanent => SkipKeepsBatch(w', jobs, configured, lossless, loaded, fires, k, base, at);
      case Cancelled => SkipKeepsBatch(w', jobs, configured, lossless, loaded, fires, k, base, at);
    }
  }

  lemma {:induction false} StoppedStays(r: Run, jobs: seq<JobSpec>, loaded: Ledgers, fires: seq<Fire>, k: nat, n: nat, turns: seq<Turn>, configured: int)
    requires k <= n <= |fires| && AfterTurns(r, jobs, loaded, fires, k, turns, configured).stopped
    ensures AfterTurns(r, jobs, loaded, fires, n, turns, configured) == AfterTurns(r, jobs, loaded, fires, k, turns, configured)
    decreases n
  {
    if k < n { StoppedStays(r, jobs, loaded, fires, k, n - 1, turns, configured); }
  }

  /** The next fire of a batch. */
  method PublishNext(before: Run, jobs: seq<JobSpec>, configured: int, loaded: Ledgers, fires: seq<Fire>, k: nat,
                     turn: Turn, ghost lossless: bool, ghost base: nat, ghost at: Time)
    returns (r: Run)
    requires k < |fires| && OnePerJob(fires) && Configured(jobs, fires[k].job)
    requires lossless ==> turn.lost == {}
    requires Inv(before.world, jobs, configured, lossless)
    requires BatchInv(before.world, jobs, configured, lossless, loaded, fires, k, base, at)
    ensures r == AfterTurn(before, jobs, loaded, fires[k], turn, configured)
    ensures Inv(r.world, jobs, configured, lossless)
    ensures BatchInv(r.world, jobs, configured, lossless, loaded, fires, k + 1, base, at)
  {
    TurnKeepsInv(before, jobs, configured, lossless, loaded, fires, k, turn, base, at);
    r := PublishFire(before, jobs, loaded, fires[k], turn, configured);
  }

  /** Publishes a planned batch. */
  method PublishBatch(start: Run, jobs: seq<JobSpec>, configured: int, loaded: Ledgers, fires: seq<Fire>,
                      turns: seq<Turn>, ghost lossless: bool)
    returns (r: Run)
    requires !start.stopped
    requires OnePerJob(fires) && (forall k | 0 <= k < |fires| :: Configured(jobs, fires[k].job))
    requires lossless ==> LosslessTurns(turns)
    requires Inv(start.world, jobs, configured, lossless)
    requires BatchInv(start.world, jobs, configured, lossless, loaded, fires, 0, |start.world.history|, start.world.clock)
    ensures r == AfterTurns(start, jobs, loaded, fires, |fires|, turns, configured)
    ensures |turns| < |fires| ==> r.stopped
    ensures Inv(r.world, jobs, configured, lossless)
  {
    r := start;
    ghost var base, at := |start.world.history|, start.world.clock;
    for k := 0 to |fires|
      invariant r == AfterTurns(start, jobs, loaded, fires, k, turns, configured) && !r.stopped && k <= |turns|
      invariant Inv(r.world, jobs, configured, lossless)
      invariant BatchInv(r.world, jobs, configured, lossless, loaded, fires, k, base, at)
    {
      if k >= |turns| {
        r := r.(stopped := true);
      } else {
        r := PublishNext(r, jobs, configured, loaded, fires, k, turns[k], lossless, base, at);
      }
      if r.stopped {
        StoppedStays(start, jobs, loaded, fires, k + 1, |fires|, turns, configured);
        return;
      }
    }
  }

  /** The fire is due once the turn's wait is over, and its job is configured and healthy. */
  predicate TakesTurn(r: Run, jobs: seq<JobSpec>, f: Fire, turn: Turn) {
    f.scheduledAt <= r.world.clock + turn.wait && f.job !in r.unhealthy && Configured(jobs, f.job)
  }

  /** One fire. Only an acknowledged one is a publication and joins its job's ledger; an
      overtaken one moves the slot on, once the job's next slot has come; a refused one gives
      the job up; one that is passed over changes nothing. */
  method PublishFire(before: Run, jobs: seq<JobSpec>, loaded: Ledgers, fire: Fire, turn: Turn, configured: int) returns (r: Run)
    ensures r == AfterTurn(before, jobs, loaded, fire, turn, configured)
    ensures !TakesTurn(before, jobs, fire, turn) ==>
              && r.world == before.world.(store := before.world.store - turn.lost, clock := before.world.clock + turn.wait)
              && r.unhealthy == before.unhealthy && r.stopped == before.stopped
    ensures TakesTurn(before, jobs, fire, turn) ==>
              && r.world.store - {fire.job} == before.world.store - turn.lost - {fire.job}
              && r.world.clock >= before.world.clock + turn.wait + turn.took
              && (turn.answer != Overtaken ==> r.world.clock == before.world.clock + turn.wait + turn.took)
              && (r.stopped <==> before.stopped || turn.answer == Cancelled)
              && r.unhealthy == if turn.answer == Permanent then before.unhealthy + {fire.job} else before.unhealthy
    ensures TakesTurn(before, jobs, fire, turn) && turn.answer == Acknowledged ==>
              && r.world.history == before.world.history + [Publication(fire.job, r.world.clock)]
              && r.world.slots == before.world.slots + [fire]
              && fire.job in r.world.store
              && var row := r.world.store[fire.job];
                 && row.lastScheduled == Some(fire.scheduledAt) && row.publishedAt == Some(r.world.clock)
                 && row.recentFires != [] && row.recentFires[|row.recentFires| - 1] == r.world.clock
    ensures TakesTurn(before, jobs, fire, turn) && turn.answer == Overtaken ==>
              && r.world.history == before.world.history && r.world.slots == before.world.slots + [fire]
              && fire.job in r.world.store
              && r.world.store[fire.job] == StateOf(loaded, fire.job).(lastScheduled := Some(fire.scheduledAt))
              && exists i | 0 <= i < |jobs| :: jobs[i].name == fire.job && r.world.clock >= jobs[i].next(fire.scheduledAt)
    ensures TakesTurn(before, jobs, fire, turn) && (turn.answer == Permanent || turn.answer == Cancelled) ==>
              && r.world.history == before.world.history && r.world.slots == before.world.slots
              && r.world.store == before.world.store - turn.lost
  {
    r := before.(world := Pass(before.world, turn.wait, turn.lost));
    if fire.scheduledAt > r.world.clock || fire.job in r.unhealthy { return; }
    var at := Find(jobs, fire.job);
    if at == |jobs| { return; }
    var w := Pass(r.world, turn.took, {});
    assert w.store == before.world.store - turn.lost;
    match turn.answer
    case Acknowledged =>
      var record := RecordFire(StateOf(loaded, fire.job), fire.scheduledAt, w.clock, configured);
      w := World(w.store[fire.job := record], w.history + [Publication(fire.job, w.clock)], w.slots + [fire], w.clock);
      r := r.(world := w);
    case Overtaken =>
      var next := jobs[at].next(fire.scheduledAt);
      if next > w.clock { w := Pass(w, next - w.clock, {}); }
      assert w.clock >= jobs[at].next(fire.scheduledAt);
      r := r.(world := Supersede(w, StateOf(loaded, fire.job), fire));
    case Permanent =>
      r := r.(world := w, unhealthy := r.unhealthy + {fire.job});
    case Cancelled =>
      r := r.(world := w, stopped := true);
  }

  // ---- What a run publishes --------------------------------------------------------------

  /** What one turn publishes, and the slot it settles. */
  function TurnPublishes(r: Run, jobs: seq<JobSpec>, f: Fire, turn: Turn): History {
    if TakesTurn(r, jobs, f, turn) && turn.answer == Acknowledged
    then [Publication(f.job, r.world.clock + turn.wait + turn.took)] else []
  }

  function TurnSettles(r: Run, jobs: seq<JobSpec>, f: Fire, turn: Turn): seq<Fire> {
    if TakesTurn(r, jobs, f, turn) && (turn.answer == Acknowledged || turn.answer == Overtaken) then [f] else []
  }

  /** What the first `k` turns of a batch publish, and settle. */
  function BatchPublishes(r: Run, jobs: seq<JobSpec>, loaded: Ledgers, fires: seq<Fire>, k: nat, turns: seq<Turn>,
                          configured: int): History
    requires k <= |fires|
  {
    if k == 0 then []
    else
      var before := AfterTurns(r, jobs, loaded, fires, k - 1, turns, configured);
      BatchPublishes(r, jobs, loaded, fires, k - 1, turns, configured)
      + if before.stopped || k > |turns| then [] else TurnPublishes(before, jobs, fires[k - 1], turns[k - 1])
  }

  function BatchSettles(r: Run, jobs: seq<JobSpec>, loaded: Ledgers, fires: seq<Fire>, k: nat, turns: seq<Turn>,
                        configured: int): seq<Fire>
    requires k <= |fires|
  {
    if k == 0 then []
    else
      var before := AfterTurns(r, jobs, loaded, fires, k - 1, turns, configured);
      BatchSettles(r, jobs, loaded, fires, k - 1, turns, configured)
      + if before.stopped || k > |turns| then [] else TurnSettles(before, jobs, fires[k - 1], turns[k - 1])
  }

  lemma TurnAdds(r: Run, jobs: seq<JobSpec>, loaded: Ledgers, f: Fire, turn: Turn, configured: int)
    ensures var r' := AfterTurn(r, jobs, loaded, f, turn, configured);
            && r'.world.history == r.world.history + TurnPublishes(r, jobs, f, turn)
            && r'.world.slots == r.world.slots + TurnSettles(r, jobs, f, turn)
  {
  }

  lemma Reassociate<T>(a: seq<T>, b: seq<T>, c: seq<T>)
    ensures a + b + c == a + (b + c) && a + [] == a
  {
  }

  lemma {:induction false} BatchAdds(r: Run, jobs: seq<JobSpec>, loaded: Ledgers, fires: seq<Fire>, k: nat,
                                     turns: seq<Turn>, configured: int)
    requires k <= |fires|
    ensures AfterTurns(r, jobs, loaded, fires, k, turns, configured).world.history ==
            r.world.history + BatchPublishes(r, jobs, loaded, fires, k, turns, configured)
  {
    if k > 0 {
      var before := AfterTurns(r, jobs, loaded, fires, k - 1, turns, configured);
      BatchAdds(r, jobs, loaded, fires, k - 1, turns, configured);
      if !before.stopped && k <= |turns| {
        TurnAdds(before, jobs, loaded, fires[k - 1], turns[k - 1], configured);
        Reassociate(r.world.history, BatchPublishes(r, jobs, loaded, fires, k - 1, turns, configured),
                    TurnPublishes(before, jobs, fires[k - 1], turns[k - 1]));
      }
    }
  }

  lemma {:induction false} BatchMovesOn(r: Run, jobs: seq<JobSpec>, loaded: Ledgers, fires: seq<Fire>, k: nat,
                                        turns: seq<Turn>, configured: int)
    requires k <= |fires|
    ensures AfterTurns(r, jobs, loaded, fires, k, turns, configured).world.slots ==
            r.world.slots + BatchSettles(r, jobs, loaded, fires, k, turns, configured)
  {
    if k > 0 {
      var before := AfterTurns(r, jobs, loaded, fires, k - 1, turns, configured);
      BatchMovesOn(r, jobs, loaded, fires, k - 1, turns, configured);
      if !before.stopped && k <= |turns| {
        TurnAdds(before, jobs, loaded, fires[k - 1], turns[k - 1], configured);
        Reassociate(r.world.slots, BatchSettles(r, jobs, loaded, fires, k - 1, turns, configured),
                    TurnSettles(before, jobs, fires[k - 1], turns[k - 1]));
      }
    }
  }

  lemma PlanStartsBatch(w: World, jobs: seq<JobSpec>, configured: int, lossless: bool,
                        fires: seq<Fire>, reopen: Option<Time>)
    requires ValidJobs(jobs) && Inv(w, jobs, configured, lossless)
    requires Planned(fires, reopen, jobs, configured, w.store, w.clock)
    ensures OnePerJob(fires) && forall k | 0 <= k < |fires| :: Configured(jobs, fires[k].job)
    ensures BatchInv(w, jobs, configured, lossless, w.store, fires, 0, |w.history|, w.clock)
  {
    var all :| IsPlan(all, fires, reopen, jobs, configured, w.store, w.clock);
    forall k | 0 <= k < |fires| ensures Configured(jobs, fires[k].job) && IsLater(w.slots, fires[k]) {
      assert fires[k] == all[k] && all[k] in all;
      PlannedIsLater(w, jobs, fires[k]);
    }
    if lossless { PlanMakesRoom(w, all, fires, reopen, jobs, configured); }
  }

  /** One cycle: load the rows, plan `fires`, and publish them unless a reload comes. */
  ghost predicate CycleTo(jobs: seq<JobSpec>, configured: int, r: Run, cycle: Cycle, fires: seq<Fire>, r': Run) {
    var w := Pass(r.world, cycle.wait, cycle.lost);
    && (exists reopen :: Planned(fires, reopen, jobs, configured, w.store, w.clock))
    && r' == if cycle.reload then Run(w, {}, false)
             else AfterTurns(r.(world := w), jobs, w.store, fires, |fires|, cycle.turns, configured)
  }

  /** `trace` are the states between cycles and `plans` what each cycle planned. */
  ghost predicate IsRun(jobs: seq<JobSpec>, configured: int, start: Time, script: seq<Cycle>,
                        trace: seq<Run>, plans: seq<seq<Fire>>) {
    && 1 <= |trace| <= |script| + 1 && |plans| == |trace| - 1
    && trace[0] == Run(World(map[], [], [], start), {}, false)
    && (|trace| <= |script| ==> trace[|trace| - 1].stopped)
    && forall i | 0 <= i < |plans| :: CycleAt(jobs, configured, script, trace, plans, i)
  }

  /** The `i`th cycle of the script leads from the `i`th state of the trace to the next. */
  ghost predicate CycleAt(jobs: seq<JobSpec>, configured: int, script: seq<Cycle>,
                          trace: seq<Run>, plans: seq<seq<Fire>>, i: nat)
    requires i < |script| && i + 1 < |trace| && i < |plans|
  {
    !trace[i].stopped && CycleTo(jobs, configured, trace[i], script[i], plans[i], trace[i + 1])
  }

  /** What one cycle publishes: what its turns do, unless a reload comes instead. */
  ghost function CyclePublishes(jobs: seq<JobSpec>, configured: int, r: Run, cycle: Cycle, fires: seq<Fire>): History {
    var w := Pass(r.world, cycle.wait, cycle.lost);
    if cycle.reload then []
    else BatchPublishes(r.(world := w), jobs, w.store, fires, |fires|, cycle.turns, configured)
  }

  ghost function CycleSettles(jobs: seq<JobSpec>, configured: int, r: Run, cycle: Cycle, fires: seq<Fire>): seq<Fire> {
    var w := Pass(r.world, cycle.wait, cycle.lost);
    if cycle.reload then []
    else BatchSettles(r.(world := w), jobs, w.store, fires, |fires|, cycle.turns, configured)
  }

  /** What the first `k` cycles of a run publish, and settle. */
  ghost function RunPublishes(jobs: seq<JobSpec>, configured: int, script: seq<Cycle>, trace: seq<Run>,
                              plans: seq<seq<Fire>>, k: nat): History
    requires k <= |plans| <= |script| && k <= |trace|
  {
    if k == 0 then []
    else RunPublishes(jobs, configured, script, trace, plans, k - 1)
         + CyclePublishes(jobs, configured, trace[k - 1], script[k - 1], plans[k - 1])
  }

  ghost function RunSettles(jobs: seq<JobSpec>, configured: int, script: seq<Cycle>, trace: seq<Run>,
                            plans: seq<seq<Fire>>, k: nat): seq<Fire>
    requires k <= |plans| <= |script| && k <= |trace|
  {
    if k == 0 then []
    else RunSettles(jobs, configured, script, trace, plans, k - 1)
         + CycleSettles(jobs, configured, trace[k - 1], script[k - 1], plans[k - 1])
  }

  lemma CycleAdds(jobs: seq<JobSpec>, configured: int, r: Run, cycle: Cycle, fires: seq<Fire>, r': Run)
    requires CycleTo(jobs, configured, r, cycle, fires, r')
    ensures r'.world.history == r.world.history + CyclePublishes(jobs, configured, r, cycle, fires)
    ensures r'.world.slots == r.world.slots + CycleSettles(jobs, configured, r, cycle, fires)
  {
    var w := Pass(r.world, cycle.wait, cycle.lost);
    if !cycle.reload {
      BatchAdds(r.(world := w), jobs, w.store, fires, |fires|, cycle.turns, configured);
      BatchMovesOn(r.(world := w), jobs, w.store, fires, |fires|, cycle.turns, configured);
    }
  }

  lemma {:induction false} RunAdds(jobs: seq<JobSpec>, configured: int, start: Time, script: seq<Cycle>,
                                   trace: seq<Run>, plans: seq<seq<Fire>>, k: nat)
    requires IsRun(jobs, configured, start, script, trace, plans) && k <= |plans|
    ensures trace[k].world.history == RunPublishes(jobs, configured, script, trace, plans, k)
    ensures trace[k].world.slots == RunSettles(jobs, configured, script, trace, plans, k)
  {
    if k > 0 {
      RunAdds(jobs, configured, start, script, trace, plans, k - 1);
      assert CycleAt(jobs, configured, script, trace, plans, k - 1);
      CycleAdds(jobs, configured, trace[k - 1], script[k - 1], plans[k - 1], trace[k]);
    }
  }

  lemma ExtendTrace(jobs: seq<JobSpec>, configured: int, script: seq<Cycle>, trace: seq<Run>, plans: seq<seq<Fire>>,
                    fires: seq<Fire>, r: Run)
    requires 1 <= |trace| <= |script| && |plans| == |trace| - 1
    requires forall i | 0 <= i < |plans| :: CycleAt(jobs, configured, script, trace, plans, i)
    requires !trace[|trace| - 1].stopped && CycleTo(jobs, configured, trace[|trace| - 1], script[|trace| - 1], fires, r)
    ensures forall i | 0 <= i < |trace| :: CycleAt(jobs, configured, script, trace + [r], plans + [fires], i)
  {
    forall i | 0 <= i < |trace| ensures CycleAt(jobs, configured, script, trace + [r], plans + [fires], i) {
      if i < |plans| { assert CycleAt(jobs, configured, script, trace, plans, i); }
    }
  }

  lemma CeilingHolds(w: World, jobs: seq<JobSpec>, configured: int)
    requires Inv(w, jobs, configured, true)
    ensures forall t :: InHour(w.history, t) <= EffectiveLimit(configured)
  {
    forall t ensures InHour(w.history, t) <= EffectiveLimit(configured) {
      SpacedBoundsWindows(w.history, EffectiveLimit(configured), t);
    }
  }

  /** The scheduler from an empty store, whatever the script. It publishes exactly what its
      acknowledged turns do, in order, and settles the slots of those and of the overtaken
      ones. Settled slots of a job strictly increase, even across lost rows; and while no row
      is lost, no hour anywhere in time holds more publications than the ceiling. */
  method RunScheduler(jobs: seq<JobSpec>, configured: int, start: Time, script: seq<Cycle>)
    returns (w: World, ghost trace: seq<Run>, ghost plans: seq<seq<Fire>>)
    requires ValidJobs(jobs)
    ensures IsRun(jobs, configured, start, script, trace, plans) && w == trace[|trace| - 1].world
    ensures w.history == RunPublishes(jobs, configured, script, trace, plans, |plans|)
    ensures w.slots == RunSettles(jobs, configured, script, trace, plans, |plans|)
    ensures SlotsIncrease(w.slots)
    ensures Lossless(script) ==> forall t :: InHour(w.history, t) <= EffectiveLimit(configured)
  {
    ghost var lossless := Lossless(script);
    w := World(map[], [], [], start);
    NothingTracks(EffectiveLimit(configured));
    var r := Run(w, {}, false);
    trace, plans := [r], [];
    var i := 0;
    while i < |script| && !r.stopped
      invariant 0 <= i <= |script| && |trace| == i + 1 && |plans| == i && trace[i] == r
      invariant trace[0] == Run(World(map[], [], [], start), {}, false)
      invariant forall k | 0 <= k < i :: CycleAt(jobs, configured, script, trace, plans, k)
      invariant Inv(r.world, jobs, configured, lossless)
    {
      ghost var fires;
      r, fires := RunCycle(r, jobs, configured, script[i], lossless);
      ExtendTrace(jobs, configured, script, trace, plans, fires, r);
      trace, plans := trace + [r], plans + [fires];
      i := i + 1;
    }
    w := r.world;
    RunAdds(jobs, configured, start, script, trace, plans, |plans|);
    if lossless { CeilingHolds(w, jobs, configured); }
  }

  /** One cycle. A reload publishes nothing and gives every job another try. */
  method RunCycle(before: Run, jobs: seq<JobSpec>, configured: int, cycle: Cycle, ghost lossless: bool)
    returns (r: Run, ghost fires: seq<Fire>)
    requires ValidJobs(jobs) && !before.stopped && Inv(before.world, jobs, configured, lossless)
    requires lossless ==> cycle.lost == {} && LosslessTurns(cycle.turns)
    ensures CycleTo(jobs, configured, before, cycle, fires, r)
    ensures cycle.reload ==>
              && r.unhealthy == {} && !r.stopped
              && r.world == before.world.(store := before.world.store - cycle.lost, clock := before.world.clock + cycle.wait)
    ensures Inv(r.world, jobs, configured, lossless)
  {
    PassKeepsInv(before.world, jobs, configured, lossless, cycle.wait, cycle.lost);
    var w := Pass(before.world, cycle.wait, cycle.lost);
    var loaded := LoadState(jobs, w.store);
    var planned, reopen := Plan(w.clock, jobs, configured, loaded);
    fires := planned;
    if cycle.reload {
      r := Run(w, {}, false);
    } else {
      PlanStartsBatch(w, jobs, configured, lossless, planned, reopen);
      r := PublishBatch(before.(world := w), jobs, configured, loaded, planned, cycle.turns, lossless);
    }
  }
}

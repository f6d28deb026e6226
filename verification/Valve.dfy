// The rate valve: per-job ledgers of recent publications, the sliding window counted
// over them, and the instant a closed valve reopens.
module Valve {
  import opened Prelude

  /** Nanoseconds. */
  type Time = int

  type Job = string

  const WINDOW: int := 3_600_000_000_000

  const DEFAULT_MAX_FIRES_PER_HOUR := 120

  /** A zero time in a stored row is `None`. */
  datatype FireState = FireState(lastScheduled: Option<Time>, publishedAt: Option<Time>, recentFires: seq<Time>)

  type Ledgers = map<Job, FireState>

  const NO_STATE := FireState(None, None, [])

  function StateOf(state: Ledgers, j: Job): FireState {
    if j in state then state[j] else NO_STATE
  }

  /** The configured ceiling; a non-positive one means the default. */
  function EffectiveLimit(configured: int): (limit: nat)
    ensures limit >= 1
    ensures limit == if configured > 0 then configured else 120
  {
    if configured <= 0 then DEFAULT_MAX_FIRES_PER_HOUR else configured
  }

  /** A job's fires as the valve reads them, oldest first. */
  function CountedFires(st: FireState): seq<Time> {
    if |st.recentFires| > 0 then st.recentFires
    else if st.publishedAt.None? then []
    else [st.publishedAt.value]
  }

  function Newest(ts: seq<Time>, limit: nat): seq<Time> {
    if |ts| > limit then ts[|ts| - limit..] else ts
  }

  function After(ts: seq<Time>, lo: Time): seq<Time> {
    if ts == [] then []
    else
      var front := After(ts[..|ts| - 1], lo);
      if ts[|ts| - 1] > lo then front + [ts[|ts| - 1]] else front
  }

  /** The row after a publish acknowledged at `at`. */
  function RecordedFire(previous: FireState, scheduled: Time, at: Time, configured: int): FireState {
    FireState(Some(scheduled), Some(at),
              Newest(After(CountedFires(previous), at - WINDOW) + [at], EffectiveLimit(configured)))
  }

  method RecordFire(previous: FireState, scheduled: Time, at: Time, configured: int) returns (r: FireState)
    ensures r == RecordedFire(previous, scheduled, at, configured)
    ensures r.lastScheduled == Some(scheduled) && r.publishedAt == Some(at)
    ensures 1 <= |r.recentFires| <= EffectiveLimit(configured)
    ensures r.recentFires[|r.recentFires| - 1] == at
  {
    var counted := CountedFires(previous);
    var ledger: seq<Time> := [];
    for i := 0 to |counted|
      invariant ledger == After(counted[..i], at - WINDOW)
    {
      assert counted[..i + 1][..i] == counted[..i];
      if counted[i] > at - WINDOW {
        ledger := ledger + [counted[i]];
      }
    }
    assert counted[..|counted|] == counted;
    ledger := ledger + [at];
    var limit := EffectiveLimit(configured);
    if |ledger| > limit {
      ledger := ledger[|ledger| - limit..];
    }
    r := FireState(Some(scheduled), Some(at), ledger);
  }

  lemma WindowIsAnHour()
    ensures WINDOW == 60 * 60 * 1_000_000_000
  {
  }

  /** A row from before the ledger counts as its one publication, and folds into the ledger at
      the job's next fire while that publication is in the window and the ceiling has room. */
  lemma OldRowFolds(last: Option<Time>, was: Time, scheduled: Time, at: Time, configured: int, lo: Time, hi: Time)
    ensures CountIn(CountedFires(FireState(last, Some(was), [])), lo, hi) == if lo < was <= hi then 1 else 0
    ensures CountedFires(RecordedFire(FireState(last, Some(was), []), scheduled, at, configured)) ==
            if was > at - WINDOW && EffectiveLimit(configured) > 1 then [was, at] else [at]
  {
    var none: seq<Time> := [];
    assert [was][..0] == none;
    assert After([was], at - WINDOW) == if was > at - WINDOW then [was] else none;
    assert none + [was] == [was] && [was] + [at] == [was, at] && none + [at] == [at];
  }

  /** The row after a fire that was never published: only the slot moves on. */
  function SupersededFire(previous: FireState, scheduled: Time): (r: FireState)
    ensures CountedFires(r) == CountedFires(previous) && r.publishedAt == previous.publishedAt
    ensures r.lastScheduled == Some(scheduled)
  {
    previous.(lastScheduled := Some(scheduled))
  }

  // ---- Counting ----------------------------------------------------------

  predicate Sorted(ts: seq<Time>) {
    forall i, j | 0 <= i < j < |ts| :: ts[i] <= ts[j]
  }

  predicate Within(ts: seq<Time>, lo: Time, hi: Time) {
    forall i | 0 <= i < |ts| :: lo < ts[i] <= hi
  }

  /** How many of `ts` fall after `lo` and not after `hi`. */
  function CountIn(ts: seq<Time>, lo: Time, hi: Time): nat {
    if ts == [] then 0
    else CountIn(ts[..|ts| - 1], lo, hi) + if lo < ts[|ts| - 1] <= hi then 1 else 0
  }

  datatype FireId = FireId(job: Job, index: int)

  /** Every counted fire after `lo` and not after `hi`, across all jobs. */
  function Ids(state: Ledgers, lo: Time, hi: Time): set<FireId> {
    set j, i | j in state && 0 <= i < |CountedFires(state[j])| && lo < CountedFires(state[j])[i] <= hi :: FireId(j, i)
  }

  /** The number of fires the valve sees at `now`. */
  function Used(state: Ledgers, now: Time): nat {
    |Ids(state, now - WINDOW, now)|
  }

  function IdsOf(j: Job, ts: seq<Time>, lo: Time, hi: Time): set<FireId> {
    set i | 0 <= i < |ts| && lo < ts[i] <= hi :: FireId(j, i)
  }

  lemma {:induction false} IdsOfCount(j: Job, ts: seq<Time>, lo: Time, hi: Time)
    ensures |IdsOf(j, ts, lo, hi)| == CountIn(ts, lo, hi)
    decreases |ts|
  {
    if ts != [] {
      var front, n := ts[..|ts| - 1], |ts| - 1;
      IdsOfCount(j, front, lo, hi);
      if lo < ts[n] <= hi {
        assert IdsOf(j, ts, lo, hi) == IdsOf(j, front, lo, hi) + {FireId(j, n)};
      } else {
        assert IdsOf(j, ts, lo, hi) == IdsOf(j, front, lo, hi);
      }
    }
  }

  predicate CountsAt(state: Ledgers, id: FireId, lo: Time, hi: Time) {
    && id.job in state && 0 <= id.index < |CountedFires(state[id.job])|
    && lo < CountedFires(state[id.job])[id.index] <= hi
  }

  lemma IdsMember(state: Ledgers, id: FireId, lo: Time, hi: Time)
    ensures id in Ids(state, lo, hi) <==> CountsAt(state, id, lo, hi)
  {
    if CountsAt(state, id, lo, hi) { assert id == FireId(id.job, id.index); }
  }

  lemma IdsSplit(state: Ledgers, j: Job, lo: Time, hi: Time)
    requires j in state
    ensures |Ids(state, lo, hi)| == |Ids(state - {j}, lo, hi)| + CountIn(CountedFires(state[j]), lo, hi)
  {
    var mine := IdsOf(j, CountedFires(state[j]), lo, hi);
    forall id ensures id in Ids(state, lo, hi) <==> id in Ids(state - {j}, lo, hi) || id in mine {
      IdsMember(state, id, lo, hi);
      IdsMember(state - {j}, id, lo, hi);
    }
    assert Ids(state, lo, hi) == Ids(state - {j}, lo, hi) + mine;
    assert Ids(state - {j}, lo, hi) !! mine;
    IdsOfCount(j, CountedFires(state[j]), lo, hi);
  }

  predicate Distinct(order: seq<Job>) {
    forall i, j | 0 <= i < j < |order| :: order[i] != order[j]
  }

  function SumIn(order: seq<Job>, state: Ledgers, lo: Time, hi: Time): nat {
    if order == [] then 0
    else SumIn(order[..|order| - 1], state, lo, hi)
         + CountIn(CountedFires(StateOf(state, order[|order| - 1])), lo, hi)
  }

  lemma {:induction false} SumSame(order: seq<Job>, a: Ledgers, b: Ledgers, lo: Time, hi: Time)
    requires forall i | 0 <= i < |order| :: CountedFires(StateOf(a, order[i])) == CountedFires(StateOf(b, order[i]))
    ensures SumIn(order, a, lo, hi) == SumIn(order, b, lo, hi)
    decreases |order|
  {
    if order != [] { SumSame(order[..|order| - 1], a, b, lo, hi); }
  }

  lemma SumWithout(order: seq<Job>, state: Ledgers, j: Job, lo: Time, hi: Time)
    requires j !in order
    ensures SumIn(order, state, lo, hi) == SumIn(order, state - {j}, lo, hi)
  {
    forall i | 0 <= i < |order| ensures StateOf(state, order[i]) == StateOf(state - {j}, order[i]) {
      assert order[i] != j;
    }
    SumSame(order, state, state - {j}, lo, hi);
  }

  predicate Lists(order: seq<Job>, state: Ledgers) {
    Distinct(order) && forall j | j in state :: j in order
  }

  lemma ListsFront(order: seq<Job>, state: Ledgers)
    requires order != [] && Lists(order, state)
    ensures Lists(order[..|order| - 1], state - {order[|order| - 1]})
    ensures order[|order| - 1] !in order[..|order| - 1]
  {
    var n := |order| - 1;
    forall k | k in state - {order[n]} ensures k in order[..n] {
      var i :| 0 <= i < |order| && order[i] == k;
      assert order[..n][i] == k;
    }
  }

  /** The count splits job by job, over any list of distinct jobs that has them all. */
  lemma {:induction false} IdsSum(order: seq<Job>, state: Ledgers, lo: Time, hi: Time)
    requires Lists(order, state)
    ensures |Ids(state, lo, hi)| == SumIn(order, state, lo, hi)
    decreases |order|
  {
    if order == [] {
      assert Ids(state, lo, hi) == {};
    } else {
      var front, j := order[..|order| - 1], order[|order| - 1];
      ListsFront(order, state);
      IdsSum(front, state - {j}, lo, hi);
      SumWithout(front, state, j, lo, hi);
      if j in state {
        IdsSplit(state, j, lo, hi);
      } else {
        assert state - {j} == state;
      }
    }
  }

  // ---- The sorted window ----------------------------------------------------

  /** `fires` is the window at `now`, oldest first: as many after each instant as `state` has. */
  ghost predicate IsWindow(fires: seq<Time>, state: Ledgers, now: Time) {
    && Sorted(fires)
    && Within(fires, now - WINDOW, now)
    && forall lo | lo >= now - WINDOW :: CountIn(fires, lo, now) == |Ids(state, lo, now)|
  }

  lemma {:induction false} CountAll(ts: seq<Time>, lo: Time, hi: Time)
    requires Within(ts, lo, hi)
    ensures CountIn(ts, lo, hi) == |ts|
  {
    if ts != [] { CountAll(ts[..|ts| - 1], lo, hi); }
  }

  lemma {:induction false} CountConcat(a: seq<Time>, b: seq<Time>, lo: Time, hi: Time)
    ensures CountIn(a + b, lo, hi) == CountIn(a, lo, hi) + CountIn(b, lo, hi)
    decreases |b|
  {
    if b == [] {
      assert a + b == a;
    } else {
      CountConcat(a, b[..|b| - 1], lo, hi);
      assert (a + b)[..|a + b| - 1] == a + b[..|b| - 1];
    }
  }

  lemma InsertCount(ts: seq<Time>, i: nat, t: Time, lo: Time, hi: Time)
    requires i <= |ts|
    ensures CountIn(ts[..i] + [t] + ts[i..], lo, hi) == CountIn(ts, lo, hi) + if lo < t <= hi then 1 else 0
  {
    CountConcat(ts[..i] + [t], ts[i..], lo, hi);
    CountConcat(ts[..i], ts[i..], lo, hi);
    assert ts == ts[..i] + ts[i..];
    assert (ts[..i] + [t])[..i] == ts[..i];
  }

  /** Inserts `t` into a sorted list inside the window. */
  method InsertSorted(ts: seq<Time>, t: Time, now: Time) returns (r: seq<Time>)
    requires Sorted(ts) && Within(ts, now - WINDOW, now) && now - WINDOW < t <= now
    ensures Sorted(r) && Within(r, now - WINDOW, now)
    ensures forall lo :: CountIn(r, lo, now) == CountIn(ts, lo, now) + if lo < t then 1 else 0
  {
    var i := |ts|;
    while i > 0 && ts[i - 1] > t
      invariant 0 <= i <= |ts|
      invariant forall k | i <= k < |ts| :: ts[k] > t
    {
      i := i - 1;
    }
    r := ts[..i] + [t] + ts[i..];
    forall lo ensures CountIn(r, lo, now) == CountIn(ts, lo, now) + if lo < t then 1 else 0 {
      InsertCount(ts, i, t, lo, now);
    }
  }

  /** Adds one job's fires to the window. */
  method AddFires(fires: seq<Time>, ts: seq<Time>, now: Time) returns (r: seq<Time>)
    requires Sorted(fires) && Within(fires, now - WINDOW, now)
    ensures Sorted(r) && Within(r, now - WINDOW, now)
    ensures forall lo | lo >= now - WINDOW :: CountIn(r, lo, now) == CountIn(fires, lo, now) + CountIn(ts, lo, now)
  {
    r := fires;
    for i := 0 to |ts|
      invariant Sorted(r) && Within(r, now - WINDOW, now)
      invariant forall lo | lo >= now - WINDOW ::
          CountIn(r, lo, now) == CountIn(fires, lo, now) + CountIn(ts[..i], lo, now)
    {
      assert ts[..i + 1][..i] == ts[..i];
      if now - WINDOW < ts[i] <= now {
        r := InsertSorted(r, ts[i], now);
      }
    }
    assert ts[..|ts|] == ts;
  }

  /** Every fire the valve counts at `now`, oldest first, whatever order the jobs come in. */
  method FiresInWindow(state: Ledgers, now: Time) returns (fires: seq<Time>)
    ensures IsWindow(fires, state, now) && |fires| == Used(state, now)
  {
    fires := [];
    var left := state.Keys;
    ghost var order: seq<Job> := [];
    while left != {}
      invariant left <= state.Keys && Distinct(order) && forall j :: j in order <==> j in state && j !in left
      invariant Sorted(fires) && Within(fires, now - WINDOW, now)
      invariant forall lo | lo >= now - WINDOW :: CountIn(fires, lo, now) == SumIn(order, state, lo, now)
      decreases left
    {
      var j :| j in left;
      fires := AddFires(fires, CountedFires(state[j]), now);
      assert (order + [j])[..|order|] == order;
      left, order := left - {j}, order + [j];
    }
    forall lo | lo >= now - WINDOW ensures CountIn(fires, lo, now) == |Ids(state, lo, now)| {
      IdsSum(order, state, lo, now);
    }
    CountAll(fires, now - WINDOW, now);
  }

  // ---- Reopening -----------------------------------------------------------

  /** No counted fire lies in the future. */
  predicate NoFuture(state: Ledgers, now: Time) {
    forall j | j in state :: forall i | 0 <= i < |CountedFires(state[j])| :: CountedFires(state[j])[i] <= now
  }

  /** In a sorted list, the entry at `k` bounds the count on either side of it. */
  lemma {:induction false} CountBound(ts: seq<Time>, k: nat, lo: Time, hi: Time)
    requires Sorted(ts) && k < |ts| && forall i | 0 <= i < |ts| :: ts[i] <= hi
    ensures ts[k] > lo ==> CountIn(ts, lo, hi) >= |ts| - k
    ensures ts[k] <= lo ==> CountIn(ts, lo, hi) <= |ts| - k - 1
    decreases |ts|
  {
    var n := |ts| - 1;
    if k < n {
      CountBound(ts[..n], k, lo, hi);
    } else if ts[n] <= lo {
      CountNone(ts, lo, hi);
    }
  }

  lemma {:induction false} CountNone(ts: seq<Time>, lo: Time, hi: Time)
    requires forall i | 0 <= i < |ts| :: ts[i] <= lo
    ensures CountIn(ts, lo, hi) == 0
  {
    if ts != [] { CountNone(ts[..|ts| - 1], lo, hi); }
  }

  /** When the valve is closed, the fire whose departure brings the count under the ceiling. */
  function Reopens(fires: seq<Time>, limit: nat): Time
    requires 1 <= limit <= |fires|
  {
    fires[|fires| - limit] + WINDOW
  }

  lemma LaterWindow(state: Ledgers, fires: seq<Time>, now: Time, t: Time)
    requires IsWindow(fires, state, now) && NoFuture(state, now) && t >= now
    ensures Used(state, t) == CountIn(fires, t - WINDOW, now)
  {
    var later, seen := Ids(state, t - WINDOW, t), Ids(state, t - WINDOW, now);
    forall id ensures id in later <==> id in seen {
      IdsMember(state, id, t - WINDOW, t);
      IdsMember(state, id, t - WINDOW, now);
    }
    assert later == seen;
  }

  /** With no fire in the future and none added, the reopen instant is the earliest at which
      the count is below the ceiling: before it the valve is still closed, at it open. */
  lemma ReopensEarliest(state: Ledgers, fires: seq<Time>, now: Time, limit: nat, t: Time)
    requires IsWindow(fires, state, now) && NoFuture(state, now) && 1 <= limit <= |fires|
    ensures Reopens(fires, limit) > now
    ensures now <= t < Reopens(fires, limit) ==> Used(state, t) >= limit
    ensures Used(state, Reopens(fires, limit)) < limit
  {
    var k, r := |fires| - limit, Reopens(fires, limit);
    LaterWindow(state, fires, now, r);
    CountBound(fires, k, r - WINDOW, now);
    if now <= t < r {
      LaterWindow(state, fires, now, t);
      CountBound(fires, k, t - WINDOW, now);
    }
  }

  /** The window is determined by the counts alone, so any two listings of it agree. */
  lemma ReopenFromCounts(a: seq<Time>, sa: Ledgers, b: seq<Time>, sb: Ledgers, now: Time, limit: nat)
    requires IsWindow(a, sa, now) && IsWindow(b, sb, now) && 1 <= limit <= |a| && limit <= |b|
    requires forall lo | lo >= now - WINDOW ::
               |Ids(sa, lo, now)| == |Ids(sb, lo, now)| || (|Ids(sa, lo, now)| >= limit && |Ids(sb, lo, now)| >= limit)
    ensures Reopens(a, limit) == Reopens(b, limit)
  {
    var va, vb := a[|a| - limit], b[|b| - limit];
    if va < vb {
      CountBound(a, |a| - limit, va, now);
      CountBound(b, |b| - limit, va, now);
    } else if vb < va {
      CountBound(a, |a| - limit, vb, now);
      CountBound(b, |b| - limit, vb, now);
    }
  }
}

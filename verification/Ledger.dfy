// The trimmed per-job ledgers against the whole publication history: what the valve
// decides from the one it would decide from the other.
module Ledger {
  import opened Prelude
  import opened Valve

  datatype Publication = Publication(job: Job, at: Time)

  type History = seq<Publication>

  /** The publications of one job, in order. */
  function JobTimes(h: History, j: Job): seq<Time> {
    if h == [] then []
    else
      var front, last := JobTimes(h[..|h| - 1], j), h[|h| - 1];
      if last.job == j then front + [last.at] else front
  }

  function Times(h: History): seq<Time> {
    seq(|h|, i requires 0 <= i < |h| => h[i].at)
  }

  predicate InOrder(h: History) {
    forall i, j | 0 <= i < j < |h| :: h[i].at <= h[j].at
  }

  predicate Past(h: History, now: Time) {
    forall i | 0 <= i < |h| :: h[i].at <= now
  }

  /** `ts` is sorted and ends by `hi`. */
  predicate Ascending(ts: seq<Time>, hi: Time) {
    Sorted(ts) && forall i | 0 <= i < |ts| :: ts[i] <= hi
  }

  lemma {:induction false} JobTimesSorted(h: History, j: Job, now: Time)
    requires InOrder(h) && Past(h, now)
    ensures Ascending(JobTimes(h, j), now)
    decreases |h|
  {
    if h != [] {
      var front, last := h[..|h| - 1], h[|h| - 1];
      JobTimesSorted(front, j, last.at);
    }
  }

  /** The same count, or both past the ceiling. */
  predicate CountsAgree(a: nat, b: nat, limit: nat) {
    a == b || (a >= limit && b >= limit)
  }

  // ---- One job's ledger --------------------------------------------------------

  /** `led` is `full` without its first `lost` entries, and those are out of the window of
      the last fire or have a full ledger of fires after them. */
  predicate TrimmedAt(full: seq<Time>, led: seq<Time>, lost: nat, limit: nat) {
    && lost <= |full| && led == full[lost..]
    && (full != [] ==> lost < |full|)
    && (lost > 0 ==> |full| - lost >= limit || full[lost - 1] <= full[|full| - 1] - WINDOW)
  }

  ghost predicate Trimmed(full: seq<Time>, led: seq<Time>, limit: nat) {
    exists lost: nat :: TrimmedAt(full, led, lost, limit)
  }

  /** On a sorted list, dropping the fires outside the window drops a prefix. */
  lemma {:induction false} AfterIsSuffix(ts: seq<Time>, lo: Time) returns (k: nat)
    requires Sorted(ts)
    ensures k <= |ts| && After(ts, lo) == ts[k..] && (k > 0 ==> ts[k - 1] <= lo)
    decreases |ts|
  {
    if ts == [] {
      k := 0;
    } else {
      var n := |ts| - 1;
      k := AfterIsSuffix(ts[..n], lo);
      if ts[n] > lo {
        assert ts[k..] == ts[..n][k..] + [ts[n]];
      } else {
        assert k == n || ts[..n][k] in After(ts[..n], lo);
        AfterAbove(ts[..n], lo);
        k := |ts|;
      }
    }
  }

  lemma {:induction false} AfterAbove(ts: seq<Time>, lo: Time)
    ensures forall t | t in After(ts, lo) :: t > lo && t in ts
    decreases |ts|
  {
    if ts != [] { AfterAbove(ts[..|ts| - 1], lo); }
  }

  lemma DropDrop(s: seq<Time>, i: nat, j: nat)
    requires i + j <= |s|
    ensures s[i..][j..] == s[i + j..]
  {
  }

  /** A suffix that lost `d`, cut to its newest `limit`, is the suffix that lost `lost`. */
  lemma NewestIsSuffix(full: seq<Time>, d: nat, limit: nat) returns (lost: nat)
    requires d < |full| && limit >= 1
    ensures d <= lost < |full| && Newest(full[d..], limit) == full[lost..]
    ensures |full| - lost < limit ==> lost == d
  {
    lost := d;
    if |full| - d > limit {
      DropDrop(full, d, |full| - d - limit);
      lost := |full| - limit;
    }
  }

  /** Dropping `k` more from a ledger that had lost `d`, then all but the newest `limit`. */
  lemma TrimStep(full: seq<Time>, d: nat, k: nat, kept: seq<Time>, at: Time, limit: nat)
    requires d + k <= |full| && kept == full[d + k..] && limit >= 1
    requires d > 0 ==> |full| - d >= limit || full[d - 1] <= at - WINDOW
    requires k > 0 ==> full[d + k - 1] <= at - WINDOW
    ensures Trimmed(full + [at], Newest(kept + [at], limit), limit)
  {
    var full' := full + [at];
    assert full'[d + k..] == kept + [at];
    var lost := NewestIsSuffix(full', d + k, limit);
    assert lost > 0 && lost == d + k ==> full'[lost - 1] == full[d + k - 1];
    assert TrimmedAt(full', Newest(kept + [at], limit), lost, limit);
  }

  /** What the window still holds of a ledger is again a suffix of the history. */
  lemma CutIsSuffix(full: seq<Time>, led: seq<Time>, lost: nat, limit: nat, at: Time) returns (k: nat)
    requires TrimmedAt(full, led, lost, limit) && Ascending(full, at)
    ensures lost + k <= |full| && After(led, at - WINDOW) == full[lost + k..]
    ensures k > 0 ==> full[lost + k - 1] <= at - WINDOW
    ensures lost > 0 ==> |full| - lost >= limit || full[lost - 1] <= at - WINDOW
  {
    assert Sorted(led);
    k := AfterIsSuffix(led, at - WINDOW);
    DropDrop(full, lost, k);
  }

  lemma TrimKeepsTrimmed(full: seq<Time>, led: seq<Time>, at: Time, limit: nat)
    requires Trimmed(full, led, limit) && Ascending(full, at) && limit >= 1
    ensures Trimmed(full + [at], Newest(After(led, at - WINDOW) + [at], limit), limit)
  {
    var lost: nat :| TrimmedAt(full, led, lost, limit);
    var k := CutIsSuffix(full, led, lost, limit, at);
    TrimStep(full, lost, k, After(led, at - WINDOW), at, limit);
  }

  /** Recording a fire keeps the ledger a sound trim of the history. */
  lemma RecordKeepsTrimmed(full: seq<Time>, previous: FireState, scheduled: Time, at: Time, configured: int)
    requires Trimmed(full, CountedFires(previous), EffectiveLimit(configured)) && Ascending(full, at)
    ensures Trimmed(full + [at], CountedFires(RecordedFire(previous, scheduled, at, configured)),
                    EffectiveLimit(configured))
  {
    TrimKeepsTrimmed(full, CountedFires(previous), at, EffectiveLimit(configured));
  }

  lemma CountSplit(full: seq<Time>, d: nat, lo: Time, hi: Time)
    requires d <= |full| && Ascending(full, hi)
    ensures CountIn(full, lo, hi) == CountIn(full[..d], lo, hi) + CountIn(full[d..], lo, hi)
    ensures d == 0 || full[d - 1] <= lo ==> CountIn(full[..d], lo, hi) == 0
    ensures d > 0 && full[d - 1] > lo ==> CountIn(full[d..], lo, hi) == |full| - d
  {
    assert full == full[..d] + full[d..];
    CountConcat(full[..d], full[d..], lo, hi);
    if d == 0 || full[d - 1] <= lo {
      CountNone(full[..d], lo, hi);
    } else {
      CountAll(full[d..], lo, hi);
    }
  }

  /** Inside the window, a ledger and the history it trims have the same count, or both have
      at least `limit`. */
  lemma TrimmedCounts(full: seq<Time>, led: seq<Time>, limit: nat, lo: Time, hi: Time)
    requires Trimmed(full, led, limit) && Ascending(full, hi) && lo >= hi - WINDOW
    ensures CountsAgree(CountIn(led, lo, hi), CountIn(full, lo, hi), limit)
  {
    var lost: nat :| TrimmedAt(full, led, lost, limit);
    CountSplit(full, lost, lo, hi);
  }

  // ---- All ledgers ---------------------------------------------------------------

  /** `state` is what recording `h` under one ceiling leaves. */
  ghost predicate Tracks(state: Ledgers, h: History, limit: nat) {
    forall j :: Trimmed(JobTimes(h, j), CountedFires(StateOf(state, j)), limit)
  }

  /** The state after recording `h`, publication by publication. */
  function Recorded(h: History, slots: seq<Time>, configured: int): Ledgers
    requires |slots| == |h|
    decreases |h|
  {
    if h == [] then map[]
    else
      var before, last := Recorded(h[..|h| - 1], slots[..|h| - 1], configured), h[|h| - 1];
      before[last.job := RecordedFire(StateOf(before, last.job), slots[|h| - 1], last.at, configured)]
  }

  lemma RecordTracks(state: Ledgers, h: History, p: Publication, scheduled: Time, configured: int)
    requires Tracks(state, h, EffectiveLimit(configured)) && InOrder(h) && Past(h, p.at)
    ensures Tracks(state[p.job := RecordedFire(StateOf(state, p.job), scheduled, p.at, configured)], h + [p],
                   EffectiveLimit(configured))
  {
    var state' := state[p.job := RecordedFire(StateOf(state, p.job), scheduled, p.at, configured)];
    assert (h + [p])[..|h|] == h;
    forall j ensures Trimmed(JobTimes(h + [p], j), CountedFires(StateOf(state', j)), EffectiveLimit(configured)) {
      assert Trimmed(JobTimes(h, j), CountedFires(StateOf(state, j)), EffectiveLimit(configured));
      if j == p.job {
        JobTimesSorted(h, j, p.at);
        assert JobTimes(h + [p], j) == JobTimes(h, j) + [p.at];
        RecordKeepsTrimmed(JobTimes(h, j), StateOf(state, j), scheduled, p.at, configured);
      }
    }
  }

  lemma NothingTracks(limit: nat)
    ensures Tracks(map[], [], limit)
  {
    forall j ensures Trimmed(JobTimes([], j), CountedFires(StateOf(map[], j)), limit) {
      assert TrimmedAt([], [], 0, limit);
    }
  }

  lemma {:induction false} RecordedTracks(h: History, slots: seq<Time>, configured: int)
    requires |slots| == |h| && InOrder(h)
    ensures Tracks(Recorded(h, slots, configured), h, EffectiveLimit(configured))
    decreases |h|
  {
    if h == [] {
      NothingTracks(EffectiveLimit(configured));
    } else {
      var front, last := h[..|h| - 1], h[|h| - 1];
      RecordedTracks(front, slots[..|h| - 1], configured);
      assert h == front + [last];
      RecordTracks(Recorded(front, slots[..|h| - 1], configured), front, last, slots[|h| - 1], configured);
    }
  }

  // ---- The untrimmed history ------------------------------------------------------

  function Jobs(h: History): set<Job> {
    set i | 0 <= i < |h| :: h[i].job
  }

  /** What the ledgers would hold if nothing were ever trimmed. */
  function Untrimmed(h: History): Ledgers {
    map j | j in Jobs(h) :: FireState(None, None, JobTimes(h, j))
  }

  lemma {:induction false} JobTimesEmpty(h: History, j: Job)
    ensures JobTimes(h, j) == [] <==> j !in Jobs(h)
    decreases |h|
  {
    if h != [] {
      var front, n := h[..|h| - 1], |h| - 1;
      JobTimesEmpty(front, j);
      assert forall i | 0 <= i < n :: front[i] == h[i];
      if j in Jobs(front) {
        var i :| 0 <= i < n && front[i].job == j;
        assert h[i].job == j;
      }
    }
  }

  lemma UntrimmedCounts(h: History, j: Job)
    ensures CountedFires(StateOf(Untrimmed(h), j)) == JobTimes(h, j)
  {
    JobTimesEmpty(h, j);
  }

  lemma {:induction false} SumsAgree(order: seq<Job>, state: Ledgers, h: History, limit: nat, lo: Time, now: Time)
    requires Tracks(state, h, limit) && InOrder(h) && Past(h, now) && lo >= now - WINDOW
    ensures CountsAgree(SumIn(order, state, lo, now), SumIn(order, Untrimmed(h), lo, now), limit)
    decreases |order|
  {
    if order != [] {
      var j := order[|order| - 1];
      SumsAgree(order[..|order| - 1], state, h, limit, lo, now);
      UntrimmedCounts(h, j);
      JobTimesSorted(h, j, now);
      TrimmedCounts(JobTimes(h, j), CountedFires(StateOf(state, j)), limit, lo, now);
    }
  }

  ghost function OrderOf(jobs: set<Job>): (order: seq<Job>)
    ensures Distinct(order) && forall j :: j in order <==> j in jobs
  {
    if jobs == {} then [] else var j :| j in jobs; OrderOf(jobs - {j}) + [j]
  }

  lemma IdsAgree(state: Ledgers, h: History, limit: nat, lo: Time, now: Time)
    requires Tracks(state, h, limit) && InOrder(h) && Past(h, now) && lo >= now - WINDOW
    ensures CountsAgree(|Ids(state, lo, now)|, |Ids(Untrimmed(h), lo, now)|, limit)
  {
    var order := OrderOf(state.Keys + Jobs(h));
    IdsSum(order, state, lo, now);
    IdsSum(order, Untrimmed(h), lo, now);
    SumsAgree(order, state, h, limit, lo, now);
  }

  function SumTimes(order: seq<Job>, h: History, lo: Time, hi: Time): nat {
    if order == [] then 0
    else SumTimes(order[..|order| - 1], h, lo, hi) + CountIn(JobTimes(h, order[|order| - 1]), lo, hi)
  }

  lemma {:induction false} SumUntrimmed(order: seq<Job>, h: History, lo: Time, hi: Time)
    ensures SumIn(order, Untrimmed(h), lo, hi) == SumTimes(order, h, lo, hi)
    decreases |order|
  {
    if order != [] {
      SumUntrimmed(order[..|order| - 1], h, lo, hi);
      UntrimmedCounts(h, order[|order| - 1]);
    }
  }

  /** One more publication adds one to the job that made it. */
  lemma {:induction false} SumOneMore(order: seq<Job>, h: History, p: Publication, lo: Time, hi: Time)
    requires Distinct(order)
    ensures SumTimes(order, h + [p], lo, hi)
            == SumTimes(order, h, lo, hi) + if p.job in order && lo < p.at <= hi then 1 else 0
    decreases |order|
  {
    if order != [] {
      var front, j := order[..|order| - 1], order[|order| - 1];
      SumOneMore(front, h, p, lo, hi);
      assert (h + [p])[..|h|] == h;
      assert order == front + [j];
      if j == p.job {
        var ts := JobTimes(h, j);
        assert (ts + [p.at])[..|ts|] == ts;
      }
    }
  }

  lemma {:induction false} SumIsTimes(order: seq<Job>, h: History, lo: Time, hi: Time)
    requires Distinct(order) && forall i | 0 <= i < |h| :: h[i].job in order
    ensures SumTimes(order, h, lo, hi) == CountIn(Times(h), lo, hi)
    decreases |h|
  {
    if h == [] {
      SumNothing(order, lo, hi);
    } else {
      var front, p := h[..|h| - 1], h[|h| - 1];
      SumIsTimes(order, front, lo, hi);
      assert h == front + [p];
      SumOneMore(order, front, p, lo, hi);
      assert Times(h)[..|h| - 1] == Times(front);
    }
  }

  lemma {:induction false} SumNothing(order: seq<Job>, lo: Time, hi: Time)
    ensures SumTimes(order, [], lo, hi) == 0
    decreases |order|
  {
    if order != [] { SumNothing(order[..|order| - 1], lo, hi); }
  }

  /** The untrimmed ledgers count exactly the publications. */
  lemma UntrimmedIsHistory(h: History, lo: Time, hi: Time)
    ensures |Ids(Untrimmed(h), lo, hi)| == CountIn(Times(h), lo, hi)
  {
    var order := OrderOf(Jobs(h));
    forall i | 0 <= i < |h| ensures h[i].job in order { assert h[i].job in Jobs(h); }
    IdsSum(order, Untrimmed(h), lo, hi);
    SumUntrimmed(order, h, lo, hi);
    SumIsTimes(order, h, lo, hi);
  }

  /** So do the trimmed ones, as far as the ceiling can tell. */
  lemma LedgersCountHistory(state: Ledgers, h: History, limit: nat, lo: Time, now: Time)
    requires Tracks(state, h, limit) && InOrder(h) && Past(h, now) && lo >= now - WINDOW
    ensures CountsAgree(|Ids(state, lo, now)|, CountIn(Times(h), lo, now), limit)
  {
    IdsAgree(state, h, limit, lo, now);
    UntrimmedIsHistory(h, lo, now);
  }

  /** Planning from the ledgers and planning from the whole history agree: the valve is open
      for both or closed for both, with the same allowance left and the same reopen instant. */
  lemma TrimIsExact(h: History, slots: seq<Time>, configured: int, now: Time, a: seq<Time>, b: seq<Time>)
    requires |slots| == |h| && InOrder(h) && Past(h, now)
    requires IsWindow(a, Recorded(h, slots, configured), now) && |a| == Used(Recorded(h, slots, configured), now)
    requires IsWindow(b, Untrimmed(h), now) && |b| == Used(Untrimmed(h), now)
    ensures |a| >= EffectiveLimit(configured) <==> |b| >= EffectiveLimit(configured)
    ensures |a| < EffectiveLimit(configured) ==> |a| == |b|
    ensures |a| >= EffectiveLimit(configured) ==>
              Reopens(a, EffectiveLimit(configured)) == Reopens(b, EffectiveLimit(configured))
  {
    var limit := EffectiveLimit(configured);
    var state := Recorded(h, slots, configured);
    RecordedTracks(h, slots, configured);
    forall lo | lo >= now - WINDOW ensures CountsAgree(|Ids(state, lo, now)|, |Ids(Untrimmed(h), lo, now)|, limit) {
      IdsAgree(state, h, limit, lo, now);
    }
    if |a| >= limit {
      ReopenFromCounts(a, state, b, Untrimmed(h), now, limit);
    }
  }
}

// The planner: which slot each job takes next, and which of those fires the valve lets
// through.
module Planner {
  import opened Prelude
  import opened Namespaces
  import opened Valve

  /** A configured job. `next` is its parsed schedule, `renders` whether its payload can be
      rendered for a slot, `once` the catch-up policy (anything else skips). */
  datatype JobSpec = JobSpec(name: Job, scheduled: bool, parses: bool, once: bool,
                             next: Time -> Time, renders: Time -> bool)

  datatype Fire = Fire(job: Job, scheduledAt: Time)

  /** A schedule's next slot is strictly later. */
  ghost predicate Advances(next: Time -> Time) {
    forall t :: next(t) > t
  }

  ghost predicate ValidJobs(jobs: seq<JobSpec>) {
    && (forall i | 0 <= i < |jobs| :: Advances(jobs[i].next))
    && forall i, j | 0 <= i < j < |jobs| :: jobs[i].name != jobs[j].name
  }

  // ---- A job's next slot -------------------------------------------------------

  /** The slot reached from `t` after `n` steps of the schedule. */
  ghost function Reached(next: Time -> Time, t: Time, n: nat): Time {
    if n == 0 then t else next(Reached(next, t, n - 1))
  }

  lemma {:induction false} ReachedAdvances(next: Time -> Time, t: Time, m: nat, n: nat)
    requires Advances(next) && m < n
    ensures Reached(next, t, m) < Reached(next, t, n)
    decreases n
  {
    if m < n - 1 { ReachedAdvances(next, t, m, n - 1); }
  }

  /** `slot` is where the policy puts a job last scheduled at `last`: `n` schedule steps on. */
  ghost predicate IsSlot(job: JobSpec, last: Time, now: Time, slot: Time, n: nat) {
    && n >= 1 && slot == Reached(job.next, last, n)
    && (job.next(last) >= now ==> n == 1)
    && (job.next(last) < now && !job.once ==> slot > now && Reached(job.next, last, n - 1) <= now)
    && (job.next(last) < now && job.once ==> slot <= now < job.next(slot))
  }

  /** The policy leaves no choice. */
  lemma SlotIsUnique(job: JobSpec, last: Time, now: Time, s: Time, m: nat, t: Time, n: nat)
    requires Advances(job.next) && IsSlot(job, last, now, s, m) && IsSlot(job, last, now, t, n)
    ensures s == t
  {
    if m < n {
      SlotsOrdered(job, last, now, s, m, t, n);
    } else if n < m {
      SlotsOrdered(job, last, now, t, n, s, m);
    }
  }

  lemma SlotsOrdered(job: JobSpec, last: Time, now: Time, s: Time, m: nat, t: Time, n: nat)
    requires Advances(job.next) && IsSlot(job, last, now, s, m) && IsSlot(job, last, now, t, n)
    ensures m >= n
  {
    if m < n - 1 { ReachedAdvances(job.next, last, m, n - 1); }
    if m + 1 < n { ReachedAdvances(job.next, last, m + 1, n); }
  }

  /** The next slot of a job: both catch-up loops end. */
  method NextSlot(job: JobSpec, last: Option<Time>, now: Time) returns (slot: Time, ghost n: nat)
    requires Advances(job.next)
    ensures last.None? ==> slot == job.next(now)
    ensures last.Some? ==> slot > last.value && IsSlot(job, last.value, now, slot, n)
  {
    n := 1;
    if last.None? {
      slot := job.next(now);
      return;
    }
    slot := job.next(last.value);
    assert Reached(job.next, last.value, 0) == last.value;
    if slot >= now { return; }
    if !job.once {
      while slot <= now
        invariant n >= 1 && slot == Reached(job.next, last.value, n) && slot > last.value
        invariant Reached(job.next, last.value, n - 1) <= now
        decreases now - slot
      {
        slot, n := job.next(slot), n + 1;
      }
    } else {
      var candidate := job.next(slot);
      while candidate <= now
        invariant n >= 1 && slot == Reached(job.next, last.value, n) && last.value < slot <= now
        invariant candidate == job.next(slot)
        decreases now - slot
      {
        slot, n := candidate, n + 1;
        candidate := job.next(slot);
      }
    }
  }

  /** A schedule given by a set of slots: the least one after `t`. */
  ghost predicate LeastAfter(next: Time -> Time, slots: iset<Time>) {
    forall t :: next(t) > t && next(t) in slots && forall u | t < u < next(t) :: u !in slots
  }

  /** On such a schedule a missed `skip` job takes the first slot after now, and a missed
      `once` job the latest slot not after now. */
  lemma MissedSlot(job: JobSpec, last: Time, now: Time, slot: Time, n: nat, slots: iset<Time>)
    requires LeastAfter(job.next, slots) && IsSlot(job, last, now, slot, n) && job.next(last) < now
    ensures slot in slots
    ensures !job.once ==> slot > now && forall u | now < u < slot :: u !in slots
    ensures job.once ==> slot <= now && forall u | slot < u <= now :: u !in slots
  {
    var before := Reached(job.next, last, n - 1);
    assert slot == job.next(before);
  }

  // ---- Candidates, in order -----------------------------------------------------

  /** The comparison the candidates are sorted with. */
  predicate Earlier(a: Fire, b: Fire) {
    a.scheduledAt < b.scheduledAt || (a.scheduledAt == b.scheduledAt && Less(a.job, b.job))
  }

  /** Slots ascend, and names ascend within a slot. */
  ghost predicate InSlotOrder(fires: seq<Fire>) {
    forall i, j | 0 <= i < j < |fires| ::
      || fires[i].scheduledAt < fires[j].scheduledAt
      || (fires[i].scheduledAt == fires[j].scheduledAt && !Less(fires[j].job, fires[i].job))
  }

  lemma EarlierTransitive(a: Fire, b: Fire, c: Fire)
    requires !Earlier(b, a) && !Earlier(c, b)
    ensures !Earlier(c, a)
  {
    if a.scheduledAt == b.scheduledAt == c.scheduledAt && Less(c.job, a.job) {
      LessTotal(a.job, b.job);
      if a.job != b.job {
        LessTransitive(c.job, a.job, b.job);
      }
    }
  }

  lemma EarlierAsymmetric(a: Fire, b: Fire)
    requires Earlier(a, b)
    ensures !Earlier(b, a)
  {
    if a.scheduledAt == b.scheduledAt && Less(b.job, a.job) {
      LessTransitive(a.job, b.job, a.job);
      LessIrreflexive(a.job);
    }
  }

  /** Inserts a fire into an ordered list. */
  method InsertFire(fires: seq<Fire>, f: Fire) returns (r: seq<Fire>, ghost at: nat)
    requires InSlotOrder(fires)
    ensures InSlotOrder(r) && at <= |fires| && r == fires[..at] + [f] + fires[at..]
  {
    var i := |fires|;
    while i > 0 && Earlier(f, fires[i - 1])
      invariant 0 <= i <= |fires|
      invariant forall k | i <= k < |fires| :: Earlier(f, fires[k])
    {
      i := i - 1;
    }
    at := i;
    r := fires[..i] + [f] + fires[i..];
    InsertOrdered(fires, f, i);
  }

  lemma InsertOrdered(fires: seq<Fire>, f: Fire, i: nat)
    requires InSlotOrder(fires) && i <= |fires|
    requires i > 0 ==> !Earlier(f, fires[i - 1])
    requires forall k | i <= k < |fires| :: Earlier(f, fires[k])
    ensures InSlotOrder(fires[..i] + [f] + fires[i..])
  {
    forall k | 0 <= k < i ensures !Earlier(f, fires[k]) {
      if k < i - 1 { EarlierTransitive(fires[k], fires[i - 1], f); }
    }
    forall k | i <= k < |fires| ensures !Earlier(fires[k], f) {
      EarlierAsymmetric(f, fires[k]);
    }
  }

  /** `slot` is due next for a job, given the rows as loaded. */
  ghost predicate Due(job: JobSpec, state: Ledgers, now: Time, slot: Time) {
    var last := StateOf(state, job.name).lastScheduled;
    if last.None? then slot == job.next(now)
    else exists n: nat :: IsSlot(job, last.value, now, slot, n)
  }

  ghost predicate Eligible(job: JobSpec, state: Ledgers, now: Time, f: Fire) {
    && job.scheduled && job.parses && job.renders(f.scheduledAt)
    && f.job == job.name && Due(job, state, now, f.scheduledAt)
  }

  ghost predicate Listed(jobs: seq<JobSpec>, state: Ledgers, now: Time, f: Fire) {
    exists i :: 0 <= i < |jobs| && Eligible(jobs[i], state, now, f)
  }

  ghost predicate OnePerJob(fires: seq<Fire>) {
    forall i, j | 0 <= i < j < |fires| :: fires[i].job != fires[j].job
  }

  /** Every eligible fire once, earliest slot first and by name within a slot. */
  ghost predicate IsCandidates(all: seq<Fire>, jobs: seq<JobSpec>, state: Ledgers, now: Time) {
    && InSlotOrder(all) && OnePerJob(all)
    && forall f :: f in all <==> Listed(jobs, state, now, f)
  }

  // ---- The plan -------------------------------------------------------------------

  /** Closed, the plan is empty and names the instant the valve reopens; open, it is the
      earliest candidates, as many as the ceiling still allows. */
  ghost predicate IsPlan(all: seq<Fire>, fires: seq<Fire>, reopen: Option<Time>,
                         jobs: seq<JobSpec>, configured: int, state: Ledgers, now: Time) {
    var limit, used := EffectiveLimit(configured), Used(state, now);
    && IsCandidates(all, jobs, state, now)
    && (used >= limit ==>
          && fires == []
          && exists w :: IsWindow(w, state, now) && |w| == used && reopen == Some(Reopens(w, limit)))
    && (used < limit ==>
          && reopen == None
          && fires == if |all| > limit - used then all[..limit - used] else all)
  }

  /** The one fire a job is eligible for, if any. */
  method CandidateOf(job: JobSpec, state: Ledgers, now: Time) returns (r: Option<Fire>)
    requires Advances(job.next)
    ensures forall f :: Eligible(job, state, now, f) <==> r == Some(f)
  {
    if !job.scheduled || !job.parses { return None; }
    var last := StateOf(state, job.name).lastScheduled;
    var slot, n := NextSlot(job, last, now);
    forall t | Due(job, state, now, t) ensures t == slot {
      if last.Some? {
        var m: nat :| IsSlot(job, last.value, now, t, m);
        SlotIsUnique(job, last.value, now, t, m, slot, n);
      }
    }
    assert Due(job, state, now, slot);
    r := if job.renders(slot) then Some(Fire(job.name, slot)) else None;
  }

  lemma ListedStep(jobs: seq<JobSpec>, i: nat, state: Ledgers, now: Time, f: Fire)
    requires i < |jobs|
    ensures Listed(jobs[..i + 1], state, now, f)
            <==> Listed(jobs[..i], state, now, f) || Eligible(jobs[i], state, now, f)
  {
    var upto, front := jobs[..i + 1], jobs[..i];
    if Listed(front, state, now, f) {
      var k :| 0 <= k < i && Eligible(front[k], state, now, f);
      assert Eligible(upto[k], state, now, f);
    }
    if Eligible(jobs[i], state, now, f) {
      assert Eligible(upto[i], state, now, f);
    }
    if Listed(upto, state, now, f) && !Eligible(jobs[i], state, now, f) {
      var k :| 0 <= k < i + 1 && Eligible(upto[k], state, now, f);
      assert Eligible(front[k], state, now, f);
    }
  }

  /** A job listed before position `i` has another name than the job at `i`. */
  lemma ListedOther(jobs: seq<JobSpec>, i: nat, state: Ledgers, now: Time, f: Fire)
    requires ValidJobs(jobs) && i < |jobs| && Listed(jobs[..i], state, now, f)
    ensures f.job != jobs[i].name
  {
    var k :| 0 <= k < i && Eligible(jobs[..i][k], state, now, f);
    assert jobs[..i][k] == jobs[k];
  }

  lemma InsertOnePerJob(all: seq<Fire>, at: nat, f: Fire)
    requires OnePerJob(all) && at <= |all| && forall k | 0 <= k < |all| :: all[k].job != f.job
    ensures OnePerJob(all[..at] + [f] + all[at..])
    ensures forall g :: g in all[..at] + [f] + all[at..] <==> g in all || g == f
  {
    assert all == all[..at] + all[at..];
  }

  lemma AddCandidate(all: seq<Fire>, at: nat, f: Fire, jobs: seq<JobSpec>, i: nat, state: Ledgers, now: Time)
    requires ValidJobs(jobs) && i < |jobs| && IsCandidates(all, jobs[..i], state, now) && at <= |all|
    requires forall g :: Eligible(jobs[i], state, now, g) <==> g == f
    requires InSlotOrder(all[..at] + [f] + all[at..])
    ensures IsCandidates(all[..at] + [f] + all[at..], jobs[..i + 1], state, now)
  {
    assert Eligible(jobs[i], state, now, f);
    forall k | 0 <= k < |all| ensures all[k].job != f.job {
      assert all[k] in all;
      ListedOther(jobs, i, state, now, all[k]);
    }
    InsertOnePerJob(all, at, f);
    forall g ensures g in all[..at] + [f] + all[at..] <==> Listed(jobs[..i + 1], state, now, g) {
      ListedStep(jobs, i, state, now, g);
    }
  }

  lemma NoCandidate(all: seq<Fire>, jobs: seq<JobSpec>, i: nat, state: Ledgers, now: Time)
    requires i < |jobs| && IsCandidates(all, jobs[..i], state, now)
    requires forall g :: !Eligible(jobs[i], state, now, g)
    ensures IsCandidates(all, jobs[..i + 1], state, now)
  {
    forall g ensures g in all <==> Listed(jobs[..i + 1], state, now, g) {
      ListedStep(jobs, i, state, now, g);
    }
  }

  method Candidates(jobs: seq<JobSpec>, state: Ledgers, now: Time) returns (all: seq<Fire>)
    requires ValidJobs(jobs)
    ensures IsCandidates(all, jobs, state, now)
  {
    all := [];
    for i := 0 to |jobs|
      invariant IsCandidates(all, jobs[..i], state, now)
    {
      var candidate := CandidateOf(jobs[i], state, now);
      if candidate.Some? {
        ghost var before := all;
        ghost var at;
        all, at := InsertFire(all, candidate.value);
        AddCandidate(before, at, candidate.value, jobs, i, state, now);
      } else {
        NoCandidate(all, jobs, i, state, now);
      }
    }
    assert jobs[..|jobs|] == jobs;
  }

  ghost predicate Planned(fires: seq<Fire>, reopen: Option<Time>,
                          jobs: seq<JobSpec>, configured: int, state: Ledgers, now: Time) {
    exists all :: IsPlan(all, fires, reopen, jobs, configured, state, now)
  }

  method Plan(now: Time, jobs: seq<JobSpec>, configured: int, state: Ledgers)
    returns (fires: seq<Fire>, reopen: Option<Time>)
    requires ValidJobs(jobs)
    ensures Planned(fires, reopen, jobs, configured, state, now)
  {
    fires := Candidates(jobs, state, now);
    ghost var all := fires;
    var limit := EffectiveLimit(configured);
    var inWindow := FiresInWindow(state, now);
    var used := |inWindow|;
    if used >= limit {
      fires, reopen := [], Some(Reopens(inWindow, limit));
    } else {
      reopen := None;
      if |fires| > limit - used {
        fires := fires[..limit - used];
      }
    }
    assert IsPlan(all, fires, reopen, jobs, configured, state, now);
  }

  // ---- The plan is determined ---------------------------------------------------------

  lemma EarlierTotal(a: Fire, b: Fire)
    requires !Earlier(a, b) && !Earlier(b, a)
    ensures a == b
  {
    LessTotal(a.job, b.job);
  }

  ghost predicate SameFires(a: seq<Fire>, b: seq<Fire>) {
    && InSlotOrder(a) && InSlotOrder(b) && OnePerJob(a) && OnePerJob(b)
    && forall f :: f in a <==> f in b
  }

  lemma FirstIsFirst(a: seq<Fire>, b: seq<Fire>)
    requires SameFires(a, b) && a != [] && b != []
    ensures a[0] == b[0]
  {
    assert a[0] in b && b[0] in a;
    var i :| 0 <= i < |b| && b[i] == a[0];
    var j :| 0 <= j < |a| && a[j] == b[0];
    if i > 0 && j > 0 { EarlierTotal(a[0], b[0]); }
  }

  lemma RestIsSame(a: seq<Fire>, b: seq<Fire>)
    requires SameFires(a, b) && a != [] && b != [] && a[0] == b[0]
    ensures SameFires(a[1..], b[1..])
  {
    forall f ensures f in a[1..] <==> f in b[1..] {
      InRest(a, f);
      InRest(b, f);
    }
  }

  lemma InRest(fires: seq<Fire>, f: Fire)
    requires OnePerJob(fires) && fires != []
    ensures f in fires[1..] <==> f in fires && f != fires[0]
  {
    assert fires == [fires[0]] + fires[1..];
    if f in fires[1..] {
      var i :| 0 <= i < |fires[1..]| && fires[1..][i] == f;
      assert fires[i + 1] == f;
    }
  }

  /** Slot and name order leaves one way to list the same fires. */
  lemma {:induction false} OrderIsUnique(a: seq<Fire>, b: seq<Fire>)
    requires SameFires(a, b)
    ensures a == b
    decreases |a|
  {
    assert (a != [] ==> a[0] in a) && (b != [] ==> b[0] in b);
    if a != [] {
      FirstIsFirst(a, b);
      RestIsSame(a, b);
      OrderIsUnique(a[1..], b[1..]);
      assert a == [a[0]] + a[1..] && b == [b[0]] + b[1..];
    }
  }

  /** The same jobs, in whatever order. */
  ghost predicate SameJobs(jobs: seq<JobSpec>, jobs': seq<JobSpec>) {
    && (forall i | 0 <= i < |jobs| :: jobs[i] in jobs')
    && (forall i | 0 <= i < |jobs'| :: jobs'[i] in jobs)
  }

  lemma SameJobsListed(jobs: seq<JobSpec>, jobs': seq<JobSpec>, state: Ledgers, now: Time, f: Fire)
    requires SameJobs(jobs, jobs') && Listed(jobs, state, now, f)
    ensures Listed(jobs', state, now, f)
  {
    var i :| 0 <= i < |jobs| && Eligible(jobs[i], state, now, f);
    assert jobs[i] in jobs';
    var j :| 0 <= j < |jobs'| && jobs'[j] == jobs[i];
    assert Eligible(jobs'[j], state, now, f);
  }

  /** The same rows, jobs and instant always give the same fires and the same reopen instant,
      whatever order the rows and the jobs are walked in. */
  lemma PlanIsDeterministic(f: seq<Fire>, r: Option<Time>, jobs: seq<JobSpec>, f': seq<Fire>, r': Option<Time>,
                            jobs': seq<JobSpec>, configured: int, state: Ledgers, now: Time)
    requires Planned(f, r, jobs, configured, state, now) && Planned(f', r', jobs', configured, state, now)
    requires SameJobs(jobs, jobs')
    ensures f == f' && r == r'
  {
    var limit, used := EffectiveLimit(configured), Used(state, now);
    var all :| IsPlan(all, f, r, jobs, configured, state, now);
    var all' :| IsPlan(all', f', r', jobs', configured, state, now);
    forall x ensures x in all <==> x in all' {
      if x in all { SameJobsListed(jobs, jobs', state, now, x); }
      if x in all' { SameJobsListed(jobs', jobs, state, now, x); }
    }
    OrderIsUnique(all, all');
    if used >= limit {
      var w :| IsWindow(w, state, now) && |w| == used && r == Some(Reopens(w, limit));
      var w' :| IsWindow(w', state, now) && |w'| == used && r' == Some(Reopens(w', limit));
      ReopenFromCounts(w, state, w', state, now, limit);
    }
  }

  /** With no recorded fire in the future, a closed plan's reopen instant is the earliest at
      which the valve would count fewer fires than the ceiling. */
  lemma ClosedUntil(fires: seq<Fire>, reopen: Option<Time>, jobs: seq<JobSpec>,
                    configured: int, state: Ledgers, now: Time, t: Time)
    requires Planned(fires, reopen, jobs, configured, state, now) && NoFuture(state, now)
    ensures reopen.Some? <==> Used(state, now) >= EffectiveLimit(configured)
    ensures reopen.Some? ==>
              && fires == [] && reopen.value > now
              && (now <= t < reopen.value ==> Used(state, t) >= EffectiveLimit(configured))
              && Used(state, reopen.value) < EffectiveLimit(configured)
  {
    if Used(state, now) >= EffectiveLimit(configured) {
      var w :| IsWindow(w, state, now) && |w| == Used(state, now) && reopen == Some(Reopens(w, EffectiveLimit(configured)));
      ReopensEarliest(state, w, now, EffectiveLimit(configured), t);
    }
  }

  /** A fire that is in an open plan has an earlier slot than every eligible fire left out of
      it, or the same slot and a smaller name, and one is left out only when the ceiling is
      reached. */
  lemma PlanTakesEarliest(fires: seq<Fire>, reopen: Option<Time>, jobs: seq<JobSpec>,
                          configured: int, state: Ledgers, now: Time, g: Fire)
    requires Planned(fires, reopen, jobs, configured, state, now)
    requires Listed(jobs, state, now, g) && g !in fires
    ensures forall f | f in fires ::
              f.scheduledAt < g.scheduledAt || (f.scheduledAt == g.scheduledAt && Less(f.job, g.job))
    ensures |fires| + Used(state, now) >= EffectiveLimit(configured)
  {
    var all :| IsPlan(all, fires, reopen, jobs, configured, state, now);
    assert g in all;
    var j :| 0 <= j < |all| && all[j] == g;
    forall f | f in fires
      ensures f.scheduledAt < g.scheduledAt || (f.scheduledAt == g.scheduledAt && Less(f.job, g.job))
    {
      var i :| 0 <= i < |fires| && fires[i] == f;
      assert all[i] == f && i < j;
      LessTotal(f.job, g.job);
    }
  }

  /** A plan's slots ascend, and within a slot its names; it never exceeds what the ceiling
      leaves. */
  lemma PlanIsInOrder(fires: seq<Fire>, reopen: Option<Time>, jobs: seq<JobSpec>,
                      configured: int, state: Ledgers, now: Time, i: nat, j: nat)
    requires Planned(fires, reopen, jobs, configured, state, now) && i < j < |fires|
    ensures fires[i].scheduledAt <= fires[j].scheduledAt
    ensures fires[i].scheduledAt == fires[j].scheduledAt ==> Less(fires[i].job, fires[j].job)
    ensures |fires| + Used(state, now) <= EffectiveLimit(configured)
  {
    var all :| IsPlan(all, fires, reopen, jobs, configured, state, now);
    assert fires[i] == all[i] && fires[j] == all[j];
    LessTotal(fires[i].job, fires[j].job);
  }

  /** What a planned fire is: a configured job that is scheduled, parses and renders for that
      slot. A job without a recorded slot takes its first one after now; the others the slot
      after the recorded one unless it has been missed, and then, on a schedule of `slots`,
      the first after now, or with catch-up the latest not after now. */
  lemma PlannedFire(fires: seq<Fire>, reopen: Option<Time>, jobs: seq<JobSpec>, configured: int,
                    state: Ledgers, now: Time, f: Fire, slots: iset<Time>) returns (i: nat)
    requires Planned(fires, reopen, jobs, configured, state, now) && f in fires
    requires forall k | 0 <= k < |jobs| && jobs[k].name == f.job :: LeastAfter(jobs[k].next, slots)
    ensures i < |jobs| && jobs[i].name == f.job && jobs[i].scheduled && jobs[i].parses && jobs[i].renders(f.scheduledAt)
    ensures f.scheduledAt in slots
    ensures f.job !in state || state[f.job].lastScheduled.None? ==>
              f.scheduledAt > now && forall u | now < u < f.scheduledAt :: u !in slots
    ensures f.job in state && state[f.job].lastScheduled.Some? ==>
              var next := jobs[i].next(state[f.job].lastScheduled.value);
              && (next >= now ==> f.scheduledAt == next)
              && (next < now && !jobs[i].once ==> f.scheduledAt > now && forall u | now < u < f.scheduledAt :: u !in slots)
              && (next < now && jobs[i].once ==> next <= f.scheduledAt <= now && forall u | f.scheduledAt < u <= now :: u !in slots)
  {
    var all :| IsPlan(all, fires, reopen, jobs, configured, state, now);
    assert f in all;
    i :| 0 <= i < |jobs| && Eligible(jobs[i], state, now, f);
    var last := StateOf(state, f.job).lastScheduled;
    if last.Some? {
      var n: nat :| IsSlot(jobs[i], last.value, now, f.scheduledAt, n);
      assert jobs[i].next(last.value) in slots;
      SlotIsLater(jobs[i], last.value, now, f.scheduledAt, n);
      if jobs[i].next(last.value) < now {
        if n > 1 { ReachedAdvances(jobs[i].next, last.value, 1, n); }
        MissedSlot(jobs[i], last.value, now, f.scheduledAt, n, slots);
      }
    }
  }

  lemma SlotIsLater(job: JobSpec, last: Time, now: Time, slot: Time, n: nat)
    requires Advances(job.next) && IsSlot(job, last, now, slot, n)
    ensures slot > last && (job.next(last) >= now ==> slot == job.next(last))
  {
    ReachedAdvances(job.next, last, 0, n);
    assert Reached(job.next, last, 1) == job.next(Reached(job.next, last, 0));
  }

  lemma {:induction false} WalkReaches(job: JobSpec, last: Time, now: Time, n: nat) returns (m: nat)
    requires Advances(job.next) && n >= 1 && Reached(job.next, last, n) <= now && job.next(last) < now
    ensures IsSlot(job, last, now, Reached(job.next, last, m), m)
    decreases now - Reached(job.next, last, n)
  {
    var t := job.next(Reached(job.next, last, n));
    assert t == Reached(job.next, last, n + 1);
    if t <= now {
      m := WalkReaches(job, last, now, n + 1);
    } else {
      m := if job.once then n else n + 1;
    }
  }

  /** The policy always has a slot. */
  lemma SlotExists(job: JobSpec, state: Ledgers, now: Time) returns (slot: Time)
    requires Advances(job.next)
    ensures Due(job, state, now, slot)
  {
    var last := StateOf(state, job.name).lastScheduled;
    if last.None? {
      slot := job.next(now);
    } else {
      assert Reached(job.next, last.value, 0) == last.value;
      slot := Reached(job.next, last.value, 1);
      if slot >= now {
        assert IsSlot(job, last.value, now, slot, 1);
      } else {
        var m := WalkReaches(job, last.value, now, 1);
        slot := Reached(job.next, last.value, m);
        assert IsSlot(job, last.value, now, slot, m);
      }
    }
  }

  /** Every job that is scheduled, parses and renders has a fire in a plan, unless the valve is
      closed or the ceiling is reached. */
  lemma PlanCoversJobs(fires: seq<Fire>, reopen: Option<Time>, jobs: seq<JobSpec>, configured: int,
                       state: Ledgers, now: Time, i: nat)
    requires Planned(fires, reopen, jobs, configured, state, now) && ValidJobs(jobs) && i < |jobs|
    requires jobs[i].scheduled && jobs[i].parses && forall t :: jobs[i].renders(t)
    ensures |fires| + Used(state, now) >= EffectiveLimit(configured) || exists f :: f in fires && f.job == jobs[i].name
  {
    var all :| IsPlan(all, fires, reopen, jobs, configured, state, now);
    var slot := SlotExists(jobs[i], state, now);
    var f := Fire(jobs[i].name, slot);
    assert Eligible(jobs[i], state, now, f);
    assert Listed(jobs, state, now, f) && f in all;
    if f !in fires { PlanTakesEarliest(fires, reopen, jobs, configured, state, now, f); }
  }
}

// The durable grant log, the projection kept beside it, and the outbox that drains it to
// the bus. The projection answers as the reference model replaying the whole log would.
module GrantLog {
  import opened Prelude
  import opened Grants

  datatype Body = Granting(row: Row) | Revoking(target: GrantId)

  datatype Entry = Entry(body: Body, published: bool)

  datatype Projected = Projected(row: Row, live: bool)

  datatype LiveGrant = LiveGrant(id: GrantId, verbs: set<Verb>, scope: Scope)

  datatype Envelope = Envelope(position: nat, event: Event)

  // ---- The log as events ----------------------------------------------------------

  /** A grant's id is its log position. */
  function EventOf(body: Body, position: nat): Event {
    match body
    case Granting(row) => Granted(position, row)
    case Revoking(target) => Revoked(target)
  }

  function Events(log: seq<Entry>): (r: seq<Event>)
    ensures |r| == |log|
  {
    seq(|log|, i requires 0 <= i < |log| => EventOf(log[i].body, i + 1))
  }

  lemma EventsPositional(log: seq<Entry>)
    ensures Positional(Events(log))
  {
  }

  lemma EventsAppend(log: seq<Entry>, e: Entry)
    ensures Events(log + [e]) == Events(log) + [EventOf(e.body, |log| + 1)]
    ensures Replay(Events(log + [e])) == Apply(Replay(Events(log)), EventOf(e.body, |log| + 1))
  {
    assert Events(log + [e]) == Events(log) + [EventOf(e.body, |log| + 1)];
    assert Events(log + [e])[..|log|] == Events(log);
  }

  // ---- The projection as a model -----------------------------------------------------

  function Rows(projected: map<GrantId, Projected>): map<GrantId, Row> {
    map id | id in projected :: projected[id].row
  }

  predicate SameRows(a: map<GrantId, Projected>, b: map<GrantId, Projected>) {
    a.Keys == b.Keys && forall id | id in a :: a[id].row == b[id].row
  }

  lemma SameRowsSameModel(a: map<GrantId, Projected>, b: map<GrantId, Projected>)
    requires SameRows(a, b)
    ensures Rows(a) == Rows(b)
  {
  }

  /** The live flags are those of the model `m`. */
  ghost predicate FlagsOf(projected: map<GrantId, Projected>, m: Model) {
    forall id | id in projected :: projected[id].live <==> Live(m, id)
  }

  /** Tables that say what replaying `events` says. */
  ghost predicate Projects(projected: map<GrantId, Projected>, revocations: set<GrantId>, events: seq<Event>) {
    && Model(Rows(projected), revocations) == Replay(events)
    && FlagsOf(projected, Replay(events))
  }

  /** `INSERT OR IGNORE` of a grant, not yet live. */
  function InsertGrant(projected: map<GrantId, Projected>, id: GrantId, row: Row): map<GrantId, Projected> {
    if id in projected then projected else projected[id := Projected(row, false)]
  }

  lemma InsertGrantRows(projected: map<GrantId, Projected>, revoked: set<GrantId>, id: GrantId, row: Row)
    ensures Model(Rows(InsertGrant(projected, id, row)), revoked)
            == Apply(Model(Rows(projected), revoked), Granted(id, row))
  {
    var a, b := Rows(InsertGrant(projected, id, row)), Apply(Model(Rows(projected), revoked), Granted(id, row)).grants;
    assert a.Keys == b.Keys;
    assert forall k | k in a :: a[k] == b[k];
    assert a == b;
  }

  // ---- The forward pass ---------------------------------------------------------------

  /** The flags of the first grants in id order are right. */
  ghost predicate FlagsRight(m: Model, ids: seq<GrantId>, flags: seq<bool>) {
    |flags| <= |ids| && forall k | 0 <= k < |flags| :: flags[k] <==> Live(m, ids[k])
  }

  predicate AllIds(m: Model, ids: seq<GrantId>) {
    Ascending(ids) && (forall k | 0 <= k < |ids| :: ids[k] in m.grants) && forall id | id in m.grants :: id in ids
  }

  /** An earlier row, already found live, backs the row at `i`. */
  predicate BackedBefore(m: Model, ids: seq<GrantId>, flags: seq<bool>, i: nat)
    requires i < |ids| && |flags| == i && ids[i] in m.grants
  {
    exists k | 0 <= k < i :: flags[k] && Backs(m, ids[k], m.grants[ids[i]])
  }

  lemma NextFlagRight(m: Model, ids: seq<GrantId>, flags: seq<bool>, i: nat)
    requires AllIds(m, ids) && i < |ids| && |flags| == i && FlagsRight(m, ids, flags)
    ensures Live(m, ids[i]) <==>
              ids[i] !in m.revoked && (m.grants[ids[i]].grantor.Operator? || BackedBefore(m, ids, flags, i))
  {
    var row := m.grants[ids[i]];
    if k :| 0 <= k < i && flags[k] && Backs(m, ids[k], row) {
      assert ids[k] < ids[i] && Live(m, ids[k]) && Backs(m, ids[k], row);
    }
    if s: GrantId :| s < ids[i] && Live(m, s) && Backs(m, s, row) {
      var k :| 0 <= k < |ids| && ids[k] == s;
      assert k < i;
      assert flags[k] && Backs(m, ids[k], row);
    }
  }

  /** Liveness of every row, in one pass in id order. */
  method ForwardPass(m: Model, ids: seq<GrantId>) returns (flags: seq<bool>)
    requires AllIds(m, ids)
    ensures |flags| == |ids| && FlagsRight(m, ids, flags)
  {
    flags := [];
    for i := 0 to |ids|
      invariant |flags| == i && FlagsRight(m, ids, flags)
    {
      var row := m.grants[ids[i]];
      var live := ids[i] !in m.revoked && (row.grantor.Operator? || BackedBefore(m, ids, flags, i));
      NextFlagRight(m, ids, flags, i);
      flags := flags + [live];
    }
  }

  // ---- The outbox -------------------------------------------------------------------

  /** How a publish ends: acknowledged and marked, refused, or acknowledged but never marked. */
  datatype Answer = Marked | Refused | Unmarked

  predicate PublishedUpTo(log: seq<Entry>, n: nat) {
    n <= |log| && forall i | 0 <= i < |log| :: log[i].published <==> i < n
  }

  function EnvelopeAt(events: seq<Event>, i: nat): Envelope
    requires i < |events|
  {
    Envelope(i + 1, events[i])
  }

  /** What the bus has seen when `n` events are marked: it ends at the last marked event or the
      one after, and before that had seen the log up to there. */
  predicate InLogOrder(received: seq<Envelope>, events: seq<Event>, n: nat) {
    if received == [] then n == 0
    else
      var last := received[|received| - 1];
      && 1 <= last.position <= |events| && last == EnvelopeAt(events, last.position - 1)
      && n <= last.position <= n + 1
      && InLogOrder(received[..|received| - 1], events, last.position - 1)
  }

  /** So the bus gets the events in log order, skips none, and repeats one only in place. */
  lemma {:induction false} OrderMeans(received: seq<Envelope>, events: seq<Event>, n: nat)
    requires InLogOrder(received, events, n)
    ensures forall i, j | 0 <= i < j < |received| :: received[i].position <= received[j].position
    ensures forall i | 0 <= i < |received| :: 1 <= received[i].position <= n + 1
    ensures forall k | 0 <= k < n :: k < |events| && EnvelopeAt(events, k) in received
    decreases |received|
  {
    if received != [] {
      var front, last := received[..|received| - 1], received[|received| - 1];
      OrderMeans(front, events, last.position - 1);
      assert received == front + [last];
    }
  }

  /** If it has had no more events than are marked, it has had exactly those, each once. */
  lemma {:induction false} ExactlyOnce(received: seq<Envelope>, events: seq<Event>, n: nat)
    requires InLogOrder(received, events, n)
    ensures |received| >= n
    ensures |received| == n ==> n <= |events| && forall i | 0 <= i < n :: received[i] == EnvelopeAt(events, i)
    decreases |received|
  {
    if received != [] {
      ExactlyOnce(received[..|received| - 1], events, received[|received| - 1].position - 1);
    }
  }

  /** The unmarked events among the first `k`. */
  function Unsent(log: seq<Entry>, k: nat): seq<Envelope>
    requires k <= |log|
  {
    if k == 0 then []
    else Unsent(log, k - 1) + if log[k - 1].published then [] else [EnvelopeAt(Events(log), k - 1)]
  }

  /** With a prefix marked, they are the rest: a drain resumes at the first unmarked event. */
  lemma {:induction false} UnsentIsRest(log: seq<Entry>, n: nat, k: nat)
    requires PublishedUpTo(log, n) && n <= k <= |log|
    ensures |Unsent(log, k)| == k - n
    ensures forall j | 0 <= j < k - n :: Unsent(log, k)[j] == EnvelopeAt(Events(log), n + j)
    decreases k
  {
    if n < k {
      UnsentIsRest(log, n, k - 1);
    } else {
      UnsentNone(log, n, k);
    }
  }

  lemma {:induction false} UnsentNone(log: seq<Entry>, n: nat, k: nat)
    requires PublishedUpTo(log, n) && k <= n
    ensures Unsent(log, k) == []
  {
    if k > 0 { UnsentNone(log, n, k - 1); }
  }

  /** Publishing the first unmarked event, marked or not. */
  lemma DeliverKeepsOrder(received: seq<Envelope>, events: seq<Event>, n: nat)
    requires n < |events| && InLogOrder(received, events, n)
    ensures InLogOrder(received + [EnvelopeAt(events, n)], events, n)
    ensures InLogOrder(received + [EnvelopeAt(events, n)], events, n + 1)
  {
    assert (received + [EnvelopeAt(events, n)])[..|received|] == received;
  }

  lemma MarkKeepsEvents(log: seq<Entry>, n: nat)
    requires PublishedUpTo(log, n) && n < |log|
    ensures var log' := log[n := log[n].(published := true)];
            PublishedUpTo(log', n + 1) && Events(log') == Events(log)
  {
  }

  class GrantBus {
    var received: seq<Envelope>

    constructor ()
      ensures received == []
    {
      received := [];
    }
  }

  // ---- The log ------------------------------------------------------------------------

  class SqliteGrantLog {
    var log: seq<Entry>
    var projected: map<GrantId, Projected>
    var revocations: set<GrantId>
    var cursor: nat

    ghost function Model(): Model
      reads this
    {
      Replay(Events(log))
    }

    /** The projection is level with the log. */
    ghost predicate Valid()
      reads this
    {
      cursor == |log| && Projects(projected, revocations, Events(log))
    }

    /** The projection is level with the part of the log it has applied. */
    ghost predicate Behind()
      reads this
    {
      cursor <= |log| && Projects(projected, revocations, Events(log)[..cursor])
    }

    /** Opens a database: one written before the projection existed has empty tables. */
    constructor (entries: seq<Entry>)
      ensures log == entries && Valid()
    {
      log, projected, revocations, cursor := entries, map[], {}, 0;
      new;
      assert Rows(projected) == map[];
      assert Events(log)[..0] == [];
      CatchUp();
    }

    /** Recomputes every live flag from the rows and revocations as they stand. */
    method RecomputeLiveness()
      modifies this`projected
      ensures SameRows(projected, old(projected))
      ensures FlagsOf(projected, Grants.Model(Rows(projected), revocations))
    {
      var ids := SortIds(projected.Keys);
      var m := Grants.Model(Rows(projected), revocations);
      forall k | 0 <= k < |ids| ensures ids[k] in m.grants { assert ids[k] in ids; }
      var flags := ForwardPass(m, ids);
      for i := 0 to |ids|
        invariant SameRows(projected, old(projected))
        invariant forall k | 0 <= k < i :: projected[ids[k]].live <==> flags[k]
      {
        if flags[i] != projected[ids[i]].live {
          projected := projected[ids[i] := projected[ids[i]].(live := flags[i])];
        }
      }
      SameRowsSameModel(projected, old(projected));
      forall id | id in projected ensures projected[id].live <==> Live(m, id) {
        var k :| 0 <= k < |ids| && ids[k] == id;
      }
    }

    /** The cursor never moves back. */
    method SetCursor(position: nat)
      modifies this`cursor
      ensures cursor == if old(cursor) < position then position else old(cursor)
    {
      if cursor < position { cursor := position; }
    }

    method AppendGranted(row: Row) returns (id: GrantId)
      modifies this
      ensures log == old(log) + [Entry(Granting(row), false)] && id == |log|
      ensures Events(log) == old(Events(log)) + [Granted(id, row)]
      ensures old(Valid()) ==> Valid()
    {
      EventsAppend(log, Entry(Granting(row), false));
      log := log + [Entry(Granting(row), false)];
      id := |log|;
      InsertGrantRows(projected, revocations, id, row);
      projected := InsertGrant(projected, id, row);
      label inserted:
      RecomputeLiveness();
      SameRowsSameModel(projected, old@inserted(projected));
      SetCursor(id);
    }

    method AppendRevoked(target: GrantId)
      modifies this
      ensures log == old(log) + [Entry(Revoking(target), false)]
      ensures Events(log) == old(Events(log)) + [Revoked(target)]
      ensures old(Valid()) ==> Valid()
    {
      EventsAppend(log, Entry(Revoking(target), false));
      log := log + [Entry(Revoking(target), false)];
      revocations := revocations + {target};
      RecomputeLiveness();
      SameRowsSameModel(projected, old(projected));
      SetCursor(|log|);
    }

    method ApplyGrantsAfter(after: nat)
      requires after <= |log|
      modifies this`projected
      ensures old(Rows(projected)) == Replay(Events(log)[..after]).grants ==> Rows(projected) == Replay(Events(log)).grants
    {
      ghost var events := Events(log);
      ghost var level := Rows(projected) == Replay(events[..after]).grants;
      for i := after to |log|
        invariant level ==> Rows(projected) == Replay(events[..i]).grants
      {
        ReplayStep(events, i);
        if log[i].body.Granting? {
          InsertGrantRows(projected, Replay(events[..i]).revoked, i + 1, log[i].body.row);
          projected := InsertGrant(projected, i + 1, log[i].body.row);
        }
      }
      assert events[..|log|] == events;
    }

    method ApplyRevocationsAfter(after: nat)
      requires after <= |log|
      modifies this`revocations
      ensures old(revocations) == Replay(Events(log)[..after]).revoked ==> revocations == Replay(Events(log)).revoked
    {
      ghost var events := Events(log);
      ghost var level := revocations == Replay(events[..after]).revoked;
      for i := after to |log|
        invariant level ==> revocations == Replay(events[..i]).revoked
      {
        ReplayStep(events, i);
        if log[i].body.Revoking? {
          revocations := revocations + {log[i].body.target};
        }
      }
      assert events[..|log|] == events;
    }

    /** Folds the log past position `after` into the tables: the grants first, then the
        revocations, then one recomputation. */
    method ApplyEventsAfter(after: nat)
      modifies this`projected, this`revocations, this`cursor
      ensures old(after <= |log| && Projects(projected, revocations, Events(log)[..after])) ==>
                Projects(projected, revocations, Events(log))
      ensures cursor == if after < |log| && old(cursor) < |log| then |log| else old(cursor)
    {
      if |log| <= after {
        assert Events(log)[..|log|] == Events(log);
        return;
      }
      ApplyGrantsAfter(after);
      ApplyRevocationsAfter(after);
      label applied:
      RecomputeLiveness();
      SameRowsSameModel(projected, old@applied(projected));
      SetCursor(|log|);
    }

    method CatchUp()
      modifies this`projected, this`revocations, this`cursor
      ensures old(Behind()) ==> Valid()
    {
      ApplyEventsAfter(cursor);
    }

    /** Re-derives the projection, whatever the tables held. */
    method RebuildProjection()
      modifies this`projected, this`revocations, this`cursor
      ensures Valid()
    {
      projected, revocations, cursor := map[], {}, 0;
      assert Rows(projected) == map[];
      assert Events(log)[..0] == [];
      ApplyEventsAfter(0);
    }

    // ---- Queries ------------------------------------------------------------------------

    /** A principal's live grants, in grant order. */
    method LiveGrantsFor(p: Principal) returns (r: seq<LiveGrant>)
      ensures forall i, j | 0 <= i < j < |r| :: r[i].id < r[j].id
      ensures Valid() ==> forall g :: g in r <==> HeldBy(Model(), p, g)
    {
      var ids := SortIds(projected.Keys);
      assert forall k | 0 <= k < |ids| :: ids[k] in ids;
      r := [];
      for i := 0 to |ids|
        invariant r == Held(projected, ids, i, p)
      {
        var row := projected[ids[i]];
        if row.row.grantee == p && row.live {
          r := r + [LiveGrant(ids[i], row.row.verbs, row.row.scope)];
        }
      }
      HeldMeans(projected, ids, |ids|, p);
      assert ids[..|ids|] == ids;
      if Valid() {
        forall g ensures g in r <==> HeldBy(Model(), p, g) {
          ShowsIsHeld(projected, revocations, Events(log), p, g);
        }
      }
    }

    /** The decision the reference model makes on the whole log. */
    method Can(p: Principal, verb: Verb, resource: string) returns (allowed: bool)
      ensures Valid() ==> (allowed <==> Grants.Can(Model(), p, verb, resource))
    {
      if Owns(p, resource) { return true; }
      var held := LiveGrantsFor(p);
      allowed := exists i | 0 <= i < |held| :: verb in held[i].verbs && Covers(held[i].scope, resource);
      if Valid() {
        HeldDecides(Model(), p, verb, resource, held);
      }
    }

    /** Who issued a grant, and over what. */
    method IssuedGrant(id: GrantId) returns (r: Option<(Grantor, Scope)>)
      ensures Valid() ==> (r.Some? <==> id in Model().grants)
      ensures Valid() && r.Some? ==> r.value == (Model().grants[id].grantor, Model().grants[id].scope)
    {
      if id !in projected { return None; }
      r := Some((projected[id].row.grantor, projected[id].row.scope));
      assert projected[id].row == Rows(projected)[id];
    }

    // ---- The outbox -----------------------------------------------------------------------

    /** The unmarked events, in log order. */
    method Pending() returns (r: seq<Envelope>)
      ensures r == Unsent(log, |log|)
    {
      r := [];
      for i := 0 to |log|
        invariant r == Unsent(log, i)
      {
        if !log[i].published {
          r := r + [EnvelopeAt(Events(log), i)];
        }
      }
    }

    /** Marks one event; a position that is not in the log marks none. */
    method MarkPublished(position: nat)
      modifies this`log
      ensures log == if 1 <= position <= |old(log)|
                     then old(log)[position - 1 := old(log)[position - 1].(published := true)] else old(log)
    {
      if 1 <= position <= |log| {
        log := log[position - 1 := log[position - 1].(published := true)];
      }
    }

    /** Publishes the first unmarked event and marks it if the bus and the database allow. */
    method Deliver(bus: GrantBus, envelope: Envelope, answer: Answer, ghost n: nat)
      requires n < |log| && envelope == EnvelopeAt(Events(log), n) && Outbox(log, bus.received, n)
      modifies this`log, bus
      ensures Events(log) == old(Events(log))
      ensures Outbox(log, bus.received, if answer == Marked then n + 1 else n)
      ensures |bus.received| == old(|bus.received|) + if answer == Refused then 0 else 1
    {
      if answer == Refused { return; }
      DeliverKeepsOrder(bus.received, Events(log), n);
      bus.received := bus.received + [envelope];
      if answer == Unmarked { return; }
      MarkKeepsEvents(log, n);
      MarkPublished(envelope.position);
    }

    /** Publishes what is pending, marking each event as the bus acknowledges it, and stops at
        the first failure. `n` events were marked before; `r` more are now. */
    method Drain(bus: GrantBus, answers: seq<Answer>, ghost n: nat) returns (r: nat)
      requires Outbox(log, bus.received, n)
      modifies this`log, bus
      ensures Events(log) == old(Events(log)) && Outbox(log, bus.received, n + r)
      ensures Unmarked !in answers ==> |bus.received| == old(|bus.received|) + r
      ensures r <= |answers| && forall k | 0 <= k < r :: answers[k] == Marked
      ensures n + r < |log| && r < |answers| ==> answers[r] != Marked
    {
      var pending := Pending();
      UnsentIsRest(log, n, |log|);
      r := 0;
      ghost var events := Events(log);
      while r < |pending| && r < |answers|
        invariant r <= |pending| && r <= |answers| && Events(log) == events && |log| == |events|
        invariant Outbox(log, bus.received, n + r)
        invariant |bus.received| == old(|bus.received|) + r
        invariant forall k | 0 <= k < r :: answers[k] == Marked
      {
        Deliver(bus, pending[r], answers[r], n + r);
        if answers[r] != Marked { return; }
        r := r + 1;
      }
    }
  }

  /** The marked events are a prefix of the log, and that is what the bus has seen. */
  predicate Outbox(log: seq<Entry>, received: seq<Envelope>, n: nat) {
    PublishedUpTo(log, n) && InLogOrder(received, Events(log), n)
  }

  lemma ReplayStep(events: seq<Event>, i: nat)
    requires i < |events|
    ensures Replay(events[..i + 1]) == Apply(Replay(events[..i]), events[i])
  {
    assert events[..i + 1][..i] == events[..i];
  }

  ghost predicate HeldBy(m: Model, p: Principal, g: LiveGrant) {
    Live(m, g.id) && m.grants[g.id].grantee == p && m.grants[g.id].verbs == g.verbs && m.grants[g.id].scope == g.scope
  }

  predicate Shows(projected: map<GrantId, Projected>, p: Principal, g: LiveGrant) {
    && g.id in projected && projected[g.id].live && projected[g.id].row.grantee == p
    && projected[g.id].row.verbs == g.verbs && projected[g.id].row.scope == g.scope
  }

  /** What the projection shows for `p` among the first `k` ids. */
  function Held(projected: map<GrantId, Projected>, ids: seq<GrantId>, k: nat, p: Principal): seq<LiveGrant>
    requires k <= |ids| && forall i | 0 <= i < |ids| :: ids[i] in projected
  {
    if k == 0 then []
    else
      var row := projected[ids[k - 1]];
      Held(projected, ids, k - 1, p)
      + if row.row.grantee == p && row.live then [LiveGrant(ids[k - 1], row.row.verbs, row.row.scope)] else []
  }

  lemma {:induction false} HeldMeans(projected: map<GrantId, Projected>, ids: seq<GrantId>, k: nat, p: Principal)
    requires k <= |ids| && Ascending(ids) && forall i | 0 <= i < |ids| :: ids[i] in projected
    ensures forall g :: g in Held(projected, ids, k, p) <==> g.id in ids[..k] && Shows(projected, p, g)
    ensures forall i, j | 0 <= i < j < |Held(projected, ids, k, p)| ::
              Held(projected, ids, k, p)[i].id < Held(projected, ids, k, p)[j].id
    decreases k
  {
    if k > 0 {
      var front, r := Held(projected, ids, k - 1, p), Held(projected, ids, k, p);
      HeldMeans(projected, ids, k - 1, p);
      assert ids[..k] == ids[..k - 1] + [ids[k - 1]];
      forall i | 0 <= i < |front| ensures front[i].id < ids[k - 1] {
        assert front[i] in front;
        var x :| 0 <= x < k - 1 && ids[..k - 1][x] == front[i].id;
      }
    }
  }

  lemma ShowsIsHeld(projected: map<GrantId, Projected>, revocations: set<GrantId>, events: seq<Event>, p: Principal, g: LiveGrant)
    requires Projects(projected, revocations, events)
    ensures Shows(projected, p, g) <==> HeldBy(Replay(events), p, g)
  {
    assert Rows(projected) == Replay(events).grants;
    assert g.id in projected <==> g.id in Rows(projected);
  }

  lemma HeldDecides(m: Model, p: Principal, verb: Verb, resource: string, held: seq<LiveGrant>)
    requires forall g :: g in held <==> HeldBy(m, p, g)
    ensures (exists i | 0 <= i < |held| :: verb in held[i].verbs && Covers(held[i].scope, resource))
            <==> exists id: GrantId :: Allows(m, id, p, verb, resource)
  {
    if i :| 0 <= i < |held| && verb in held[i].verbs && Covers(held[i].scope, resource) {
      assert held[i] in held;
      assert Allows(m, held[i].id, p, verb, resource);
    }
    if id: GrantId :| Allows(m, id, p, verb, resource) {
      var g := LiveGrant(id, m.grants[id].verbs, m.grants[id].scope);
      assert HeldBy(m, p, g) && g in held;
    }
  }

  // ---- Whole runs -----------------------------------------------------------------------

  /** What may happen to a log: appends, a process restart, damage to the projection tables, a
      rebuild of them, and drains with the bus answering as it likes. */
  datatype Op =
    | AppendGrant(row: Row)
    | AppendRevoke(target: GrantId)
    | Reopen
    | Corrupt(projected: map<GrantId, Projected>, revocations: set<GrantId>, cursor: nat)
    | Rebuild
    | Pump(answers: seq<Answer>)

  /** The events a run appends. */
  function Appended(ops: seq<Op>): seq<Event> {
    if ops == [] then []
    else
      var front := Appended(ops[..|ops| - 1]);
      front + AppendedBy(ops[|ops| - 1], |front|)
  }

  function AppendedBy(op: Op, length: nat): seq<Event> {
    match op
    case AppendGrant(row) => [Granted(length + 1, row)]
    case AppendRevoke(target) => [Revoked(target)]
    case _ => []
  }

  /** No damage since the last rebuild. */
  predicate Clean(ops: seq<Op>) {
    ops == [] || ops[|ops| - 1].Rebuild? || (!ops[|ops| - 1].Corrupt? && Clean(ops[..|ops| - 1]))
  }

  lemma {:induction false} OrderExtends(received: seq<Envelope>, events: seq<Event>, e: Event, n: nat)
    requires InLogOrder(received, events, n)
    ensures InLogOrder(received, events + [e], n)
    decreases |received|
  {
    if received != [] {
      OrderExtends(received[..|received| - 1], events, e, received[|received| - 1].position - 1);
    }
  }

  lemma AppendKeepsOutbox(log: seq<Entry>, body: Body, received: seq<Envelope>, n: nat)
    requires Outbox(log, received, n)
    ensures Outbox(log + [Entry(body, false)], received, n)
  {
    EventsAppend(log, Entry(body, false));
    OrderExtends(received, Events(log), EventOf(body, |log| + 1), n);
  }

  /** One operation; `n` events are marked before it and `n'` after. */
  method Perform(log: SqliteGrantLog, bus: GrantBus, op: Op, ghost n: nat) returns (ghost n': nat)
    requires Outbox(log.log, bus.received, n)
    modifies log, bus
    ensures n <= n' && Outbox(log.log, bus.received, n')
    ensures Events(log.log) == old(Events(log.log)) + AppendedBy(op, |old(log.log)|)
    ensures op.Rebuild? || (old(log.Valid()) && !op.Corrupt?) ==> log.Valid()
  {
    n' := n;
    match op
    case AppendGrant(row) =>
      AppendKeepsOutbox(log.log, Granting(row), bus.received, n);
      var id := log.AppendGranted(row);
    case AppendRevoke(target) =>
      AppendKeepsOutbox(log.log, Revoking(target), bus.received, n);
      log.AppendRevoked(target);
    case Reopen =>
      assert Events(log.log)[..|log.log|] == Events(log.log);
      log.CatchUp();
    case Corrupt(projected, revocations, cursor) =>
      log.projected, log.revocations, log.cursor := projected, revocations, cursor;
    case Rebuild =>
      log.RebuildProjection();
    case Pump(answers) =>
      var r := log.Drain(bus, answers, n);
      n' := n + r;
  }

  /** Every run from an empty log: the log holds what was appended; unless the tables have
      been damaged since the last rebuild, they and their live flags are those of a replay of
      the whole log; and a prefix of the log is marked published, which is what the bus has
      seen. */
  method Run(ops: seq<Op>) returns (log: SqliteGrantLog, bus: GrantBus, ghost n: nat)
    ensures fresh(log) && fresh(bus)
    ensures Events(log.log) == Appended(ops)
    ensures Clean(ops) ==> log.Valid()
    ensures Outbox(log.log, bus.received, n)
  {
    log := new SqliteGrantLog([]);
    bus := new GrantBus();
    n := 0;
    for i := 0 to |ops|
      invariant fresh(log) && fresh(bus)
      invariant Events(log.log) == Appended(ops[..i])
      invariant Clean(ops[..i]) ==> log.Valid()
      invariant Outbox(log.log, bus.received, n)
    {
      assert ops[..i + 1][..i] == ops[..i];
      n := Perform(log, bus, ops[i], n);
    }
    assert ops[..|ops|] == ops;
  }
}

// The gate in front of the named store: who may list, delegate and revoke, decided from the
// live projection and bounded by the caller's token.
module Gate {
  import opened Prelude
  import opened Namespaces
  import opened Grants
  import opened GrantLog
  import opened Index

  /** A verified token: its bearer, and what it still permits at the time of the call. */
  datatype Token = Token(principal: Principal, permits: (Verb, Scope) -> bool)

  datatype GateError = BadToken | Denied

  datatype Reply<+T> = Done(value: T) | Rejected(error: GateError)

  // ---- What the gate keeps of the log ---------------------------------------------------

  /** A revocation names a grant that is already in the log. */
  predicate RevokesExisting(log: seq<Event>) {
    forall i | 0 <= i < |log| && log[i].Revoked? :: 1 <= log[i].id <= i && log[log[i].id - 1].Granted?
  }

  /** Every grant was live as soon as it was appended. */
  ghost predicate BornLive(log: seq<Event>) {
    log == [] || (BornLive(log[..|log| - 1]) && (log[|log| - 1].Granted? ==> Live(Replay(log), |log|)))
  }

  lemma {:induction false} BornLiveAt(log: seq<Event>, i: nat)
    requires BornLive(log) && i < |log| && log[i].Granted?
    ensures Live(Replay(log[..i + 1]), i + 1)
    decreases |log|
  {
    if i < |log| - 1 {
      BornLiveAt(log[..|log| - 1], i);
      assert log[..|log| - 1][..i + 1] == log[..i + 1];
    } else {
      assert log[..i + 1] == log;
    }
  }

  /** Issued by the operator, or on a grant that is live now. */
  ghost predicate Authorised(m: Model, row: Row) {
    row.grantor.Operator? || exists s: GrantId :: Live(m, s) && Backs(m, s, row)
  }

  /** Whoever holds a live grant with the Grant verb may pass on any of its verbs, that one
      included, over anything inside its scope, to anyone. */
  lemma HoldersMayDelegate(m: Model, s: GrantId, to: Principal, verbs: set<Verb>, scope: Scope)
    requires Live(m, s) && Grant in m.grants[s].verbs && verbs <= m.grants[s].verbs
    requires forall n :: Covers(scope, n) ==> Covers(m.grants[s].scope, n)
    ensures Authorised(m, Row(Delegator(m.grants[s].grantee.id), to, verbs, scope))
  {
    CoversScopeIsSubset(m.grants[s].scope, scope);
    assert Backs(m, s, Row(Delegator(m.grants[s].grantee.id), to, verbs, scope));
  }

  /** And nobody else: a delegation is authorised exactly on one live grant of the delegator
      that has the Grant verb, every verb passed on, and every name covered. */
  lemma AuthorisedIff(m: Model, from: Principal, to: Principal, verbs: set<Verb>, scope: Scope)
    ensures Authorised(m, Row(Delegator(from.id), to, verbs, scope)) <==>
              exists s: GrantId ::
                && Live(m, s) && m.grants[s].grantee == from && Grant in m.grants[s].verbs && verbs <= m.grants[s].verbs
                && forall n :: Covers(scope, n) ==> Covers(m.grants[s].scope, n)
  {
    var row := Row(Delegator(from.id), to, verbs, scope);
    if s: GrantId :| Live(m, s) && Backs(m, s, row) {
      CoversScopeIsSubset(m.grants[s].scope, scope);
      assert m.grants[s].grantee == from;
    }
    if s: GrantId :| && Live(m, s) && m.grants[s].grantee == from && Grant in m.grants[s].verbs && verbs <= m.grants[s].verbs
                     && forall n :: Covers(scope, n) ==> Covers(m.grants[s].scope, n) {
      HoldersMayDelegate(m, s, to, verbs, scope);
    }
  }

  lemma NextIdIsFree(log: seq<Event>)
    requires Positional(log) && RevokesExisting(log)
    ensures |log| + 1 !in Replay(log).grants && |log| + 1 !in Replay(log).revoked
  {
    ReplayAt(log, |log| + 1);
    ReplayRevoked(log, |log| + 1);
  }

  /** An authorised grant is live at once: nothing can have revoked its id beforehand, and its
      support is live and earlier. */
  lemma AuthorisedIsBornLive(log: seq<Event>, row: Row)
    requires Positional(log) && RevokesExisting(log) && Authorised(Replay(log), row)
    ensures Live(Replay(log + [Granted(|log| + 1, row)]), |log| + 1)
  {
    var m, id := Replay(log), |log| + 1;
    var m' := Replay(log + [Granted(id, row)]);
    assert (log + [Granted(id, row)])[..|log|] == log;
    NextIdIsFree(log);
    assert m' == m.(grants := m.grants[id := row]);
    if !row.grantor.Operator? {
      var s: GrantId :| Live(m, s) && Backs(m, s, row);
      ReplayAt(log, s);
      forall x | x in m.grants.Items ensures x in m'.grants.Items { assert m'.grants[x.0] == x.1; }
      LiveMonotone(m, m', s);
      assert Backs(m', s, m'.grants[id]);
    }
  }

  /** Conversely a grant that is live at once was authorised. */
  lemma BornLiveWasAuthorised(log: seq<Event>, row: Row)
    requires Positional(log) && RevokesExisting(log) && Live(Replay(log + [Granted(|log| + 1, row)]), |log| + 1)
    ensures Authorised(Replay(log), row)
  {
    var m, id := Replay(log), |log| + 1;
    var log' := log + [Granted(id, row)];
    var m' := Replay(log');
    assert log'[..|log|] == log && log'[..id] == log';
    NextIdIsFree(log);
    assert m' == m.(grants := m.grants[id := row]);
    if !row.grantor.Operator? {
      var s: GrantId :| s < id && Live(m', s) && Backs(m', s, row);
      LivenessFalls(log', |log|, id, s);
      assert Backs(m, s, row);
    }
  }

  lemma AppendKeepsBorn(log: seq<Event>, e: Event)
    requires BornLive(log) && (e.Granted? ==> Live(Replay(log + [e]), |log| + 1))
    ensures BornLive(log + [e])
  {
    assert (log + [e])[..|log|] == log;
  }

  lemma AppendKeepsRevocations(log: seq<Event>, e: Event)
    requires Positional(log) && RevokesExisting(log) && (e.Revoked? ==> e.id in Replay(log).grants)
    ensures RevokesExisting(log + [e])
  {
    if e.Revoked? { ReplayAt(log, e.id); }
  }

  /** May `p` enumerate the whole subtree of `prefix`? */
  ghost predicate MayList(m: Model, p: Principal, prefix: string) {
    || Owns(p, prefix)
    || exists id: GrantId ::
         Live(m, id) && m.grants[id].grantee == p && List in m.grants[id].verbs
         && CoversScope(m.grants[id].scope, Namespace(prefix))
  }

  /** Then `p` may list every single name in it. */
  lemma ListedIsAllowed(m: Model, p: Principal, prefix: string, name: string)
    requires MayList(m, p, prefix) && NamespaceCovers(prefix, name)
    ensures Can(m, p, List, name)
  {
    if Owns(p, prefix) {
      CoversTransitive(AGENTS + p.id, prefix, name);
    } else {
      var id: GrantId :| Live(m, id) && m.grants[id].grantee == p && List in m.grants[id].verbs
                         && CoversScope(m.grants[id].scope, Namespace(prefix));
      CoversScopeIsSubset(m.grants[id].scope, Namespace(prefix));
      assert Covers(Namespace(prefix), name);
      assert Allows(m, id, p, List, name);
    }
  }

  /** Exactly those whose own scope, or one live List grant of theirs, has every name in it. */
  lemma MayListIff(m: Model, p: Principal, prefix: string)
    ensures MayList(m, p, prefix) <==>
              || (forall n :: NamespaceCovers(prefix, n) ==> Owns(p, n))
              || exists id: GrantId ::
                   && Live(m, id) && m.grants[id].grantee == p && List in m.grants[id].verbs
                   && forall n :: NamespaceCovers(prefix, n) ==> Covers(m.grants[id].scope, n)
  {
    CoversScopeIsSubset(Namespace(AGENTS + p.id), Namespace(prefix));
    assert forall n :: Covers(Namespace(prefix), n) <==> NamespaceCovers(prefix, n);
    assert forall n :: Covers(Namespace(AGENTS + p.id), n) <==> Owns(p, n);
    forall id: GrantId | Live(m, id)
      ensures CoversScope(m.grants[id].scope, Namespace(prefix)) <==>
                forall n :: NamespaceCovers(prefix, n) ==> Covers(m.grants[id].scope, n)
    {
      CoversScopeIsSubset(m.grants[id].scope, Namespace(prefix));
    }
  }

  lemma HeldMayList(m: Model, p: Principal, prefix: string, held: seq<LiveGrant>)
    requires forall g :: g in held <==> HeldBy(m, p, g)
    ensures MayList(m, p, prefix) <==>
              || Owns(p, prefix)
              || exists i | 0 <= i < |held| :: List in held[i].verbs && CoversScope(held[i].scope, Namespace(prefix))
  {
    if i :| 0 <= i < |held| && List in held[i].verbs && CoversScope(held[i].scope, Namespace(prefix)) {
      assert held[i] in held;
      assert Live(m, held[i].id);
    }
    if id: GrantId :| Live(m, id) && m.grants[id].grantee == p && List in m.grants[id].verbs
                      && CoversScope(m.grants[id].scope, Namespace(prefix)) {
      var g := LiveGrant(id, m.grants[id].verbs, m.grants[id].scope);
      assert HeldBy(m, p, g) && g in held;
    }
  }

  lemma HeldAuthorises(m: Model, p: Principal, row: Row, held: seq<LiveGrant>)
    requires row.grantor == Delegator(p.id) && forall g :: g in held <==> HeldBy(m, p, g)
    ensures Authorised(m, row) <==>
              exists i | 0 <= i < |held| :: SupportsWith(held[i], row)
  {
    if i :| 0 <= i < |held| && SupportsWith(held[i], row) {
      assert held[i] in held;
      assert Live(m, held[i].id) && Backs(m, held[i].id, row);
    }
    if s: GrantId :| Live(m, s) && Backs(m, s, row) {
      var g := LiveGrant(s, m.grants[s].verbs, m.grants[s].scope);
      assert HeldBy(m, p, g) && g in held;
      var i :| 0 <= i < |held| && held[i] == g;
      assert SupportsWith(held[i], row);
    }
  }

  predicate SupportsWith(g: LiveGrant, row: Row) {
    Supports(g.verbs, g.scope, row.verbs, row.scope)
  }

  // ---- The gate -----------------------------------------------------------------------

  class GatedRepository {
    const index: SqliteNameIndex
    const grants: SqliteGrantLog

    ghost predicate Valid()
      reads this, grants
    {
      && grants.Valid()
      && RevokesExisting(Events(grants.log)) && BornLive(Events(grants.log))
    }

    constructor (index: SqliteNameIndex)
      ensures Valid() && grants.log == [] && this.index == index
      ensures fresh(grants)
    {
      this.index := index;
      grants := new SqliteGrantLog([]);
    }

    /** Identity and token bounds: the token verifies, its bearer's id is well formed, and it
        permits the operation. */
    method Identify(token: Option<Token>, verb: Verb, scope: Scope) returns (r: Reply<Principal>)
      ensures r.Done? <==> Admits(token, verb, scope)
      ensures r.Done? <==> token.Some? && HasValidId(token.value.principal) && token.value.permits(verb, scope)
      ensures r.Done? ==> r.value == token.value.principal
      ensures r == Rejected(BadToken) <==> token.None? || !HasValidId(token.value.principal)
    {
      if token.None? || !HasValidId(token.value.principal) { return Rejected(BadToken); }
      if !token.value.permits(verb, scope) { return Rejected(Denied); }
      return Done(token.value.principal);
    }

    /** The full gate for one name. */
    method Authorize(token: Option<Token>, verb: Verb, resource: string) returns (r: Reply<Principal>)
      requires Valid()
      ensures r.Done? <==> Admits(token, verb, Name(resource)) && Can(grants.Model(), token.value.principal, verb, resource)
      ensures r.Done? ==> r.value == token.value.principal
      ensures r == Rejected(BadToken) <==> token.None? || !HasValidId(token.value.principal)
    {
      r := Identify(token, verb, Name(resource));
      if r.Rejected? { return; }
      var allowed := grants.Can(r.value, verb, resource);
      if !allowed { return Rejected(Denied); }
    }

    /** The names of a subtree, sorted. Whoever gets an answer may list each name in it. */
    method ListNames(token: Option<Token>, prefix: string) returns (r: Reply<seq<string>>)
      requires Valid()
      ensures r.Done? <==> prefix != [] && Admits(token, List, Namespace(prefix))
                           && MayList(grants.Model(), token.value.principal, prefix)
      ensures r == Rejected(BadToken) <==> prefix != [] && (token.None? || !HasValidId(token.value.principal))
      ensures r.Done? ==> Sorted(r.value) && forall n :: n in r.value <==> n in index.names && NamespaceCovers(prefix, n)
      ensures r.Done? ==> forall n | n in r.value :: Can(grants.Model(), token.value.principal, List, n)
    {
      if prefix == [] { return Rejected(Denied); }
      var who := Identify(token, List, Namespace(prefix));
      if who.Rejected? { return Rejected(who.error); }
      var held := grants.LiveGrantsFor(who.value);
      HeldMayList(grants.Model(), who.value, prefix, held);
      if !Owns(who.value, prefix) && !exists i | 0 <= i < |held| ::
           List in held[i].verbs && CoversScope(held[i].scope, Namespace(prefix)) {
        return Rejected(Denied);
      }
      var names := index.List(prefix);
      forall n | n in names ensures Can(grants.Model(), who.value, List, n) {
        ListedIsAllowed(grants.Model(), who.value, prefix, n);
      }
      return Done(names);
    }

    /** Appends an authorised grant, which is then live. */
    method Append(row: Row) returns (id: GrantId)
      requires Valid() && Authorised(grants.Model(), row)
      modifies grants
      ensures Valid() && Events(grants.log) == old(Events(grants.log)) + [Granted(id, row)]
      ensures id == old(|grants.log|) + 1 && Live(grants.Model(), id)
    {
      EventsPositional(grants.log);
      AuthorisedIsBornLive(Events(grants.log), row);
      AppendKeepsBorn(Events(grants.log), Granted(|grants.log| + 1, row));
      AppendKeepsRevocations(Events(grants.log), Granted(|grants.log| + 1, row));
      id := grants.AppendGranted(row);
    }

    method Withdraw(id: GrantId)
      requires Valid() && id in grants.Model().grants
      modifies grants
      ensures Valid() && Events(grants.log) == old(Events(grants.log)) + [Revoked(id)]
      ensures !Live(grants.Model(), id)
    {
      EventsPositional(grants.log);
      AppendKeepsBorn(Events(grants.log), Revoked(id));
      AppendKeepsRevocations(Events(grants.log), Revoked(id));
      EventsAppend(grants.log, Entry(Body.Revoking(id), false));
      grants.AppendRevoked(id);
    }

    /** Delegates as the token's bearer: accepted exactly when the token permits it, the grantee
        is well formed and some live grant of the bearer supports it; then live at once. */
    method Delegate(token: Option<Token>, grantee: Principal, verbs: set<Verb>, scope: Scope) returns (r: Reply<GrantId>)
      requires Valid()
      modifies grants
      ensures Valid()
      ensures r.Done? <==>
                && Admits(token, Grant, scope) && HasValidId(grantee)
                && Authorised(old(grants.Model()), Row(Delegator(token.value.principal.id), grantee, verbs, scope))
      ensures r == Rejected(BadToken) <==>
                || token.None? || !HasValidId(token.value.principal)
                || (token.value.permits(Grant, scope) && !HasValidId(grantee))
      ensures r.Done? ==>
                && Events(grants.log) == old(Events(grants.log))
                   + [Granted(r.value, Row(Delegator(token.value.principal.id), grantee, verbs, scope))]
                && r.value == old(|grants.log|) + 1 && Live(grants.Model(), r.value)
      ensures r.Rejected? ==> grants.log == old(grants.log)
    {
      var who := Identify(token, Grant, scope);
      if who.Rejected? { return Rejected(who.error); }
      if !HasValidId(grantee) { return Rejected(BadToken); }
      var row := Row(Delegator(who.value.id), grantee, verbs, scope);
      var held := grants.LiveGrantsFor(who.value);
      HeldAuthorises(grants.Model(), who.value, row, held);
      if !exists i | 0 <= i < |held| :: SupportsWith(held[i], row) { return Rejected(Denied); }
      var id := Append(row);
      return Done(id);
    }

    /** Revokes as the token's bearer: only a grant it issued itself. */
    method Revoke(token: Option<Token>, id: GrantId) returns (r: Reply<()>)
      requires Valid()
      modifies grants
      ensures Valid()
      ensures r.Done? <==>
                && token.Some? && HasValidId(token.value.principal) && id in old(grants.Model()).grants
                && old(grants.Model()).grants[id].grantor == Delegator(token.value.principal.id)
                && token.value.permits(Grant, old(grants.Model()).grants[id].scope)
      ensures r == Rejected(BadToken) <==> token.None? || !HasValidId(token.value.principal)
      ensures r.Done? ==> Events(grants.log) == old(Events(grants.log)) + [Revoked(id)] && !Live(grants.Model(), id)
      ensures r.Rejected? ==> grants.log == old(grants.log)
    {
      if token.None? || !HasValidId(token.value.principal) { return Rejected(BadToken); }
      var issued := grants.IssuedGrant(id);
      if issued.None? { return Rejected(Denied); }
      if issued.value.0 != Delegator(token.value.principal.id) { return Rejected(Denied); }
      if !token.value.permits(Grant, issued.value.1) { return Rejected(Denied); }
      Withdraw(id);
      return Done(());
    }

    method OperatorGrant(grantee: Principal, verbs: set<Verb>, scope: Scope) returns (r: Reply<GrantId>)
      requires Valid()
      modifies grants
      ensures Valid()
      ensures r.Done? <==> HasValidId(grantee)
      ensures r.Done? ==>
                && Events(grants.log) == old(Events(grants.log)) + [Granted(r.value, Row(Operator, grantee, verbs, scope))]
                && r.value == old(|grants.log|) + 1 && Live(grants.Model(), r.value)
      ensures r.Rejected? ==> grants.log == old(grants.log) && r == Rejected(BadToken)
    {
      if !HasValidId(grantee) { return Rejected(BadToken); }
      var id := Append(Row(Operator, grantee, verbs, scope));
      return Done(id);
    }

    method OperatorRevoke(id: GrantId) returns (r: Reply<()>)
      requires Valid()
      modifies grants
      ensures Valid()
      ensures r.Done? <==> id in old(grants.Model()).grants
      ensures r.Done? ==> Events(grants.log) == old(Events(grants.log)) + [Revoked(id)] && !Live(grants.Model(), id)
      ensures r.Rejected? ==> grants.log == old(grants.log) && r == Rejected(Denied)
    {
      var issued := grants.IssuedGrant(id);
      if issued.None? { return Rejected(Denied); }
      Withdraw(id);
      return Done(());
    }
  }

  predicate Admits(token: Option<Token>, verb: Verb, scope: Scope) {
    token.Some? && HasValidId(token.value.principal) && token.value.permits(verb, scope)
  }

  // ---- Whole runs ---------------------------------------------------------------------

  datatype GateCall =
    | Delegating(token: Option<Token>, grantee: Principal, verbs: set<Verb>, scope: Scope)
    | Revoking(token: Option<Token>, id: GrantId)
    | OperatorGranting(grantee: Principal, verbs: set<Verb>, scope: Scope)
    | OperatorRevoking(id: GrantId)

  /** The log after one call: the gate appends what it accepts and nothing else. */
  ghost function AfterCall(log: seq<Event>, call: GateCall): seq<Event> {
    match call
    case Delegating(token, grantee, verbs, scope) =>
      if Admits(token, Grant, scope) && HasValidId(grantee)
         && Authorised(Replay(log), Row(Delegator(token.value.principal.id), grantee, verbs, scope))
      then log + [Granted(|log| + 1, Row(Delegator(token.value.principal.id), grantee, verbs, scope))] else log
    case Revoking(token, id) =>
      if token.Some? && HasValidId(token.value.principal) && id in Replay(log).grants
         && Replay(log).grants[id].grantor == Delegator(token.value.principal.id)
         && token.value.permits(Grant, Replay(log).grants[id].scope)
      then log + [Revoked(id)] else log
    case OperatorGranting(grantee, verbs, scope) =>
      if HasValidId(grantee) then log + [Granted(|log| + 1, Row(Operator, grantee, verbs, scope))] else log
    case OperatorRevoking(id) =>
      if id in Replay(log).grants then log + [Revoked(id)] else log
  }

  ghost function AfterCalls(calls: seq<GateCall>): seq<Event> {
    if calls == [] then [] else AfterCall(AfterCalls(calls[..|calls| - 1]), calls[|calls| - 1])
  }

  method Call(gate: GatedRepository, call: GateCall)
    requires gate.Valid()
    modifies gate.grants
    ensures gate.Valid() && Events(gate.grants.log) == AfterCall(old(Events(gate.grants.log)), call)
  {
    match call
    case Delegating(token, grantee, verbs, scope) => var _ := gate.Delegate(token, grantee, verbs, scope);
    case Revoking(token, id) => var _ := gate.Revoke(token, id);
    case OperatorGranting(grantee, verbs, scope) => var _ := gate.OperatorGrant(grantee, verbs, scope);
    case OperatorRevoking(id) => var _ := gate.OperatorRevoke(id);
  }

  /** Any sequence of gate calls from an empty log leaves a log in which every grant was live
      when appended and every revocation names an earlier grant, with the projection level. */
  method RunCalls(index: SqliteNameIndex, calls: seq<GateCall>) returns (gate: GatedRepository)
    ensures gate.grants.Valid() && Events(gate.grants.log) == AfterCalls(calls)
    ensures BornLive(AfterCalls(calls)) && RevokesExisting(AfterCalls(calls))
  {
    gate := new GatedRepository(index);
    for i := 0 to |calls|
      invariant fresh(gate.grants) && gate.Valid()
      invariant Events(gate.grants.log) == AfterCalls(calls[..i])
    {
      assert calls[..i + 1][..i] == calls[..i];
      Call(gate, calls[i]);
    }
    assert calls[..|calls|] == calls;
  }
}

// Access grants: scopes, delegation, and the reference model that replays a log of grant
// events and decides who may do what.
module Grants {
  import opened Namespaces

  datatype Principal = Agent(id: string)

  datatype Grantor = Operator | Delegator(id: string)

  datatype Verb = Read | Write | Delete | List | Grant

  datatype Scope = Name(value: string) | Namespace(value: string)

  type GrantId = nat

  /** What a grant confers, on whom, and who issued it. */
  datatype Row = Row(grantor: Grantor, grantee: Principal, verbs: set<Verb>, scope: Scope)

  datatype Event = Granted(id: GrantId, row: Row) | Revoked(id: GrantId)

  datatype Model = Model(grants: map<GrantId, Row>, revoked: set<GrantId>)

  // ---- Scopes --------------------------------------------------------------------

  predicate Covers(s: Scope, resource: string) {
    match s
    case Name(n) => n == resource
    case Namespace(ns) => NamespaceCovers(ns, resource)
  }

  predicate CoversScope(s: Scope, other: Scope) {
    match (s, other)
    case (_, Name(n)) => Covers(s, n)
    case (Name(_), Namespace(_)) => false
    case (Namespace(ns), Namespace(o)) => NamespaceCovers(ns, o)
  }

  /** The syntactic test is exactly the subset relation on covered names. */
  lemma CoversScopeIsSubset(s: Scope, other: Scope)
    ensures CoversScope(s, other) <==> forall r :: Covers(other, r) ==> Covers(s, r)
  {
    assert Covers(other, other.value);
    if CoversScope(s, other) {
      forall r | Covers(other, r) ensures Covers(s, r) {
        if other.Namespace? { CoversTransitive(s.value, other.value, r); }
      }
    } else if s.Name? && other.Namespace? {
      var below := other.value + ".x";
      assert below[..|other.value|] == other.value;
      assert Covers(other, below);
    }
  }

  lemma CoversScopeTransitive(a: Scope, b: Scope, c: Scope)
    requires CoversScope(a, b) && CoversScope(b, c)
    ensures CoversScope(a, c)
  {
    CoversScopeIsSubset(a, b);
    CoversScopeIsSubset(b, c);
    CoversScopeIsSubset(a, c);
  }

  // ---- Own scopes -------------------------------------------------------------------

  const AGENTS := "system.agents."

  predicate Owns(p: Principal, resource: string) {
    NamespaceCovers(AGENTS + p.id, resource)
  }

  /** Unicode white space or a control character. */
  predicate Blank(c: char) {
    || c <= ' ' || '\U{7F}' <= c <= '\U{A0}' || '\U{2000}' <= c <= '\U{200A}'
    || c in {'\U{1680}', '\U{2028}', '\U{2029}', '\U{202F}', '\U{205F}', '\U{3000}'}
  }

  predicate HasValidId(p: Principal) {
    p.id != [] && forall i | 0 <= i < |p.id| :: p.id[i] !in {'.', '*', '>'} && !Blank(p.id[i])
  }

  /** Two owners of one name: the shorter id is the longer one cut at a dot. */
  lemma OwnersNest(p: Principal, q: Principal, resource: string)
    requires Owns(p, resource) && Owns(q, resource) && |p.id| <= |q.id|
    ensures p.id == q.id[..|p.id|]
    ensures |p.id| < |q.id| ==> q.id[|p.id|] == '.'
  {
    var k := |AGENTS|;
    var a, b := AGENTS + p.id, AGENTS + q.id;
    forall i | 0 <= i < |p.id| ensures p.id[i] == q.id[i] {
      assert p.id[i] == a[k + i] == resource[..|a|][k + i];
      assert q.id[i] == b[k + i] == resource[..|b|][k + i];
    }
    if |p.id| < |q.id| {
      assert q.id[|p.id|] == b[|a|] == resource[..|b|][|a|];
    }
  }

  /** Distinct valid ids own disjoint names; the dot-free rule is what makes it so. */
  lemma OwnScopesDisjoint(p: Principal, q: Principal, resource: string)
    requires HasValidId(p) && HasValidId(q) && Owns(p, resource) && Owns(q, resource)
    ensures p == q
  {
    if |p.id| <= |q.id| { OwnersNest(p, q, resource); } else { OwnersNest(q, p, resource); }
  }

  /** A dotted id would own names inside another agent's scope. */
  lemma DottedIdIntrudes(p: Principal, rest: string)
    ensures Owns(p, AGENTS + (p.id + "." + rest)) && Owns(Agent(p.id + "." + rest), AGENTS + (p.id + "." + rest))
    ensures !HasValidId(Agent(p.id + "." + rest))
  {
    var own := AGENTS + p.id;
    var r := AGENTS + (p.id + "." + rest);
    assert r[..|own|] == own && r[|own|] == '.';
    assert (p.id + "." + rest)[|p.id|] == '.';
  }

  /** An agent owns `system.agents.<id>` and what is below it, and nothing beside it. */
  lemma OwnsItsNamespace(id: string, rest: string, other: string)
    ensures Owns(Agent(id), "system.agents." + id)
    ensures Owns(Agent(id), "system.agents." + id + "." + rest)
    ensures other != [] && other[0] != '.' ==> !Owns(Agent(id), "system.agents." + id + other)
    ensures |other| < |"system.agents." + id| ==> !Owns(Agent(id), other)
  {
    var own := "system.agents." + id;
    assert (own + "." + rest)[..|own|] == own && (own + "." + rest)[|own|] == '.';
    if other != [] { assert (own + other)[|own|] == other[0]; }
  }

  /** A letter, a digit, a dash or an underscore. */
  predicate Plain(c: char) {
    'a' <= c <= 'z' || 'A' <= c <= 'Z' || '0' <= c <= '9' || c == '-' || c == '_'
  }

  /** Separators and wildcards, ASCII blanks, and the ends of the other ranges of blanks. */
  const REFUSED := ".*> \t\r\n\U{7F}\U{85}\U{A0}\U{1680}\U{2000}\U{200A}\U{2028}\U{2029}\U{202F}\U{205F}\U{3000}"

  /** An id is refused for any of those anywhere in it, and for being empty; one of plain
      characters is accepted. */
  lemma IdShape(id: string)
    ensures HasValidId(Agent(id)) ==> id != [] && forall c | c in id :: c !in REFUSED
    ensures id != [] && (forall c | c in id :: Plain(c)) ==> HasValidId(Agent(id))
  {
    if HasValidId(Agent(id)) {
      forall c | c in id ensures c !in REFUSED {
        var i :| 0 <= i < |id| && id[i] == c;
        assert c !in {'.', '*', '>'} && !Blank(c);
      }
    }
    if id != [] && forall c | c in id :: Plain(c) {
      forall i | 0 <= i < |id| ensures id[i] !in {'.', '*', '>'} && !Blank(id[i]) { assert Plain(id[i]); }
    }
  }

  // ---- The model ------------------------------------------------------------------

  /** May a grant of `verbs` over `scope` be issued on the strength of one of `held` over `over`? */
  predicate Supports(held: set<Verb>, over: Scope, verbs: set<Verb>, scope: Scope) {
    Grant in held && verbs <= held && CoversScope(over, scope)
  }

  /** One event: the first grant under an id wins, a revocation is remembered either way. */
  function Apply(m: Model, e: Event): Model {
    match e
    case Granted(id, row) => if id in m.grants then m else m.(grants := m.grants[id := row])
    case Revoked(id) => m.(revoked := m.revoked + {id})
  }

  const EMPTY := Model(map[], {})

  function Replay(log: seq<Event>): Model {
    if log == [] then EMPTY else Apply(Replay(log[..|log| - 1]), log[|log| - 1])
  }

  /** `row` is issued by the operator or backed by the grant `s`. */
  predicate Backs(m: Model, s: GrantId, row: Row) {
    s in m.grants && row.grantor == Delegator(m.grants[s].grantee.id) && Supports(m.grants[s].verbs, m.grants[s].scope, row.verbs, row.scope)
  }

  /** Unrevoked, and issued by the operator or on an earlier live grant. */
  ghost predicate Live(m: Model, id: GrantId)
    decreases id
  {
    && id in m.grants && id !in m.revoked
    && (m.grants[id].grantor.Operator? || exists s: GrantId :: s < id && Live(m, s) && Backs(m, s, m.grants[id]))
  }

  ghost predicate Allows(m: Model, id: GrantId, p: Principal, verb: Verb, resource: string) {
    Live(m, id) && m.grants[id].grantee == p && verb in m.grants[id].verbs && Covers(m.grants[id].scope, resource)
  }

  ghost predicate Can(m: Model, p: Principal, verb: Verb, resource: string) {
    Owns(p, resource) || exists id: GrantId :: Allows(m, id, p, verb, resource)
  }

  // ---- Deciding it ------------------------------------------------------------------

  predicate Ascending(ids: seq<GrantId>) {
    forall i, j | 0 <= i < j < |ids| :: ids[i] < ids[j]
  }

  method InsertId(ids: seq<GrantId>, id: GrantId) returns (r: seq<GrantId>)
    requires Ascending(ids) && id !in ids
    ensures Ascending(r) && forall x :: x in r <==> x in ids || x == id
  {
    var i := |ids|;
    while i > 0 && ids[i - 1] > id
      invariant 0 <= i <= |ids|
      invariant forall k | i <= k < |ids| :: ids[k] > id
    {
      i := i - 1;
    }
    forall k | 0 <= k < i ensures ids[k] < id { assert ids[k] in ids && ids[k] <= ids[i - 1]; }
    r := ids[..i] + [id] + ids[i..];
    InsertAscending(ids, id, i);
    InsertMembers(ids, id, i);
  }

  lemma InsertAscending(ids: seq<GrantId>, id: GrantId, i: nat)
    requires Ascending(ids) && i <= |ids|
    requires forall k | 0 <= k < i :: ids[k] < id
    requires forall k | i <= k < |ids| :: id < ids[k]
    ensures Ascending(ids[..i] + [id] + ids[i..])
  {
  }

  lemma InsertMembers(ids: seq<GrantId>, id: GrantId, i: nat)
    requires i <= |ids|
    ensures forall x :: x in ids[..i] + [id] + ids[i..] <==> x in ids || x == id
  {
    assert ids == ids[..i] + ids[i..];
  }

  method SortIds(ids: set<GrantId>) returns (r: seq<GrantId>)
    ensures Ascending(r) && forall x :: x in r <==> x in ids
  {
    r := [];
    var left := ids;
    while left != {}
      invariant left <= ids && Ascending(r) && forall x :: x in r <==> x in ids && x !in left
      decreases left
    {
      var id :| id in left;
      r := InsertId(r, id);
      left := left - {id};
    }
  }

  /** One forward pass in id order finds exactly the live grants: what it depends on is
      always behind it. */
  method LiveIds(m: Model) returns (live: set<GrantId>)
    ensures forall id :: id in live <==> Live(m, id)
  {
    var ids := SortIds(m.grants.Keys);
    live := {};
    for i := 0 to |ids|
      invariant forall id :: id in live <==> id in ids[..i] && Live(m, id)
    {
      var id := ids[i];
      assert id in m.grants && ids[..i + 1] == ids[..i] + [id];
      if id !in m.revoked {
        var row := m.grants[id];
        var backed := exists s | s in live :: s < id && Backs(m, s, row);
        BackedByEarlier(m, ids, i, live);
        if row.grantor.Operator? || backed {
          live := live + {id};
        }
      }
    }
    assert ids[..|ids|] == ids;
  }

  lemma BackedByEarlier(m: Model, ids: seq<GrantId>, i: nat, live: set<GrantId>)
    requires Ascending(ids) && (forall x :: x in ids <==> x in m.grants) && i < |ids|
    requires forall id :: id in live <==> id in ids[..i] && Live(m, id)
    ensures (exists s | s in live :: s < ids[i] && Backs(m, s, m.grants[ids[i]]))
            <==> exists s: GrantId :: s < ids[i] && Live(m, s) && Backs(m, s, m.grants[ids[i]])
  {
    if s: GrantId :| s < ids[i] && Live(m, s) && Backs(m, s, m.grants[ids[i]]) {
      var k :| 0 <= k < |ids| && ids[k] == s;
      assert k < i;
      assert ids[..i][k] == s;
      assert s in live;
    }
  }

  method Decide(m: Model, p: Principal, verb: Verb, resource: string) returns (allowed: bool)
    ensures allowed <==> Can(m, p, verb, resource)
  {
    if Owns(p, resource) { return true; }
    var live := LiveIds(m);
    allowed := exists id | id in m.grants ::
        id in live && m.grants[id].grantee == p && verb in m.grants[id].verbs && Covers(m.grants[id].scope, resource);
    if allowed {
      var id :| id in m.grants && id in live && m.grants[id].grantee == p && verb in m.grants[id].verbs && Covers(m.grants[id].scope, resource);
      assert Allows(m, id, p, verb, resource);
    }
  }

  // ---- Authority chains -------------------------------------------------------------

  /** From `id` back to an operator grant: each grant unrevoked and backed by the next, an
      earlier one. */
  ghost predicate IsChain(m: Model, chain: seq<GrantId>, id: GrantId) {
    && chain != [] && chain[0] == id
    && (forall i | 0 <= i < |chain| :: chain[i] in m.grants && chain[i] !in m.revoked)
    && (forall i | 0 <= i < |chain| - 1 :: chain[i + 1] < chain[i] && Backs(m, chain[i + 1], m.grants[chain[i]]))
    && m.grants[chain[|chain| - 1]].grantor.Operator?
  }

  lemma {:induction false} LiveHasChain(m: Model, id: GrantId) returns (chain: seq<GrantId>)
    requires Live(m, id)
    ensures IsChain(m, chain, id)
    ensures forall i | 0 <= i < |chain| :: Live(m, chain[i])
    decreases id
  {
    if m.grants[id].grantor.Operator? {
      chain := [id];
    } else {
      var s: GrantId :| s < id && Live(m, s) && Backs(m, s, m.grants[id]);
      var rest := LiveHasChain(m, s);
      chain := [id] + rest;
    }
  }

  lemma {:induction false} ChainIsLive(m: Model, chain: seq<GrantId>, id: GrantId)
    requires IsChain(m, chain, id)
    ensures Live(m, id)
    decreases |chain|
  {
    if |chain| > 1 {
      assert chain[1] < chain[0] && Backs(m, chain[1], m.grants[chain[0]]);
      ChainIsLive(m, chain[1..], chain[1]);
    }
  }

  /** A grant is live exactly when such a chain exists. */
  lemma LiveIffChain(m: Model, id: GrantId)
    ensures Live(m, id) <==> exists chain :: IsChain(m, chain, id)
  {
    if Live(m, id) {
      var chain := LiveHasChain(m, id);
    } else if exists chain :: IsChain(m, chain, id) {
      var chain :| IsChain(m, chain, id);
      ChainIsLive(m, chain, id);
    }
  }

  /** A decision in terms of chains: the name is the principal's own, or the principal is the
      last grantee of a chain from the operator whose last grant confers that verb on it. */
  lemma CanIffChain(m: Model, p: Principal, verb: Verb, resource: string)
    ensures Can(m, p, verb, resource) <==>
              || Owns(p, resource)
              || exists chain :: chain != [] && IsChain(m, chain, chain[0]) && Confers(m.grants[chain[0]], p, verb, resource)
  {
    if Can(m, p, verb, resource) && !Owns(p, resource) {
      var id: GrantId :| Allows(m, id, p, verb, resource);
      var chain := LiveHasChain(m, id);
      assert IsChain(m, chain, chain[0]) && Confers(m.grants[chain[0]], p, verb, resource);
    }
    if chain :| chain != [] && IsChain(m, chain, chain[0]) && Confers(m.grants[chain[0]], p, verb, resource) {
      ChainIsLive(m, chain, chain[0]);
      assert Allows(m, chain[0], p, verb, resource);
    }
  }

  /** The grant's grantee, one of its verbs, and its name or one in its namespace. */
  predicate Confers(row: Row, p: Principal, verb: Verb, resource: string) {
    && row.grantee == p && verb in row.verbs
    && (resource == row.scope.value || (row.scope.Namespace? && NamespaceCovers(row.scope.value, resource)))
  }

  /** Down a chain authority only shrinks: every ancestor carries the Grant verb, the leaf's
      verbs are the root's, and every name the leaf covers the root covers. */
  lemma {:induction false} ChainAttenuates(m: Model, chain: seq<GrantId>, id: GrantId, resource: string)
    requires IsChain(m, chain, id)
    ensures forall i | 1 <= i < |chain| :: Grant in m.grants[chain[i]].verbs
    ensures m.grants[id].verbs <= m.grants[chain[|chain| - 1]].verbs
    ensures CoversScope(m.grants[chain[|chain| - 1]].scope, m.grants[id].scope)
    ensures Covers(m.grants[id].scope, resource) ==> Covers(m.grants[chain[|chain| - 1]].scope, resource)
    decreases |chain|
  {
    var root, leaf := m.grants[chain[|chain| - 1]].scope, m.grants[id].scope;
    if |chain| == 1 {
      CoversScopeIsSubset(leaf, leaf);
    } else {
      var rest := chain[1..];
      assert chain[1] < chain[0] && Backs(m, chain[1], m.grants[chain[0]]);
      ChainAttenuates(m, rest, chain[1], resource);
      forall i | 1 <= i < |chain| ensures Grant in m.grants[chain[i]].verbs {
        if i > 1 { assert rest[i - 1] == chain[i]; }
      }
      CoversScopeTransitive(root, m.grants[chain[1]].scope, leaf);
    }
    CoversScopeIsSubset(root, leaf);
  }

  /** Whatever is allowed outside an own scope is allowed by an operator grant, still in
      force, of that verb over that name. */
  lemma AuthorityIsTheOperators(m: Model, p: Principal, verb: Verb, resource: string) returns (root: GrantId)
    requires Can(m, p, verb, resource) && !Owns(p, resource)
    ensures Live(m, root) && m.grants[root].grantor.Operator?
    ensures verb in m.grants[root].verbs && Covers(m.grants[root].scope, resource)
  {
    var id: GrantId :| Allows(m, id, p, verb, resource);
    var chain := LiveHasChain(m, id);
    ChainAttenuates(m, chain, id, resource);
    root := chain[|chain| - 1];
  }

  // ---- More grants, fewer revocations -----------------------------------------------

  lemma {:induction false} LiveMonotone(m: Model, m': Model, id: GrantId)
    requires m.grants.Items <= m'.grants.Items && m'.revoked <= m.revoked && Live(m, id)
    ensures Live(m', id)
    decreases id
  {
    assert (id, m.grants[id]) in m'.grants.Items;
    if !m.grants[id].grantor.Operator? {
      var s: GrantId :| s < id && Live(m, s) && Backs(m, s, m.grants[id]);
      LiveMonotone(m, m', s);
      assert (s, m.grants[s]) in m'.grants.Items;
      assert Backs(m', s, m'.grants[id]);
    }
  }

  lemma CanMonotone(m: Model, m': Model, p: Principal, verb: Verb, resource: string)
    requires m.grants.Items <= m'.grants.Items && m'.revoked <= m.revoked && Can(m, p, verb, resource)
    ensures Can(m', p, verb, resource)
  {
    if !Owns(p, resource) {
      var id: GrantId :| Allows(m, id, p, verb, resource);
      LiveMonotone(m, m', id);
      assert (id, m.grants[id]) in m'.grants.Items;
      assert Allows(m', id, p, verb, resource);
    }
  }

  /** A grant never takes an allowed decision away; a revocation never adds one. */
  lemma EventsMoveOneWay(m: Model, e: Event, p: Principal, verb: Verb, resource: string)
    ensures e.Granted? && Can(m, p, verb, resource) ==> Can(Apply(m, e), p, verb, resource)
    ensures e.Revoked? && Can(Apply(m, e), p, verb, resource) ==> Can(m, p, verb, resource)
  {
    if e.Granted? && Can(m, p, verb, resource) {
      forall x | x in m.grants.Items ensures x in Apply(m, e).grants.Items {
        assert Apply(m, e).grants[x.0] == x.1;
      }
      CanMonotone(m, Apply(m, e), p, verb, resource);
    }
    if e.Revoked? && Can(Apply(m, e), p, verb, resource) {
      CanMonotone(Apply(m, e), m, p, verb, resource);
    }
  }

  // ---- No revival ---------------------------------------------------------------------

  /** Ids are append positions, counted from one. */
  predicate Positional(log: seq<Event>) {
    forall i | 0 <= i < |log| && log[i].Granted? :: log[i].id == i + 1
  }

  /** Replaying a positional log: a grant sits at its own position, with its own row. */
  lemma {:induction false} ReplayAt(log: seq<Event>, id: GrantId)
    requires Positional(log)
    ensures id in Replay(log).grants <==> 1 <= id <= |log| && log[id - 1].Granted?
    ensures id in Replay(log).grants ==> log[id - 1] == Granted(id, Replay(log).grants[id])
    decreases |log|
  {
    if log != [] {
      ReplayAt(log[..|log| - 1], id);
      ReplayAt(log[..|log| - 1], |log|);
    }
  }

  lemma {:induction false} ReplayRevoked(log: seq<Event>, id: GrantId)
    ensures id in Replay(log).revoked <==> Revoked(id) in log
    decreases |log|
  {
    if log != [] {
      var front := log[..|log| - 1];
      ReplayRevoked(front, id);
      assert log == front + [log[|log| - 1]];
    }
  }

  /** Whatever else a log holds, the first grant under an id is the one that counts. */
  lemma {:induction false} FirstGrantWins(log: seq<Event>, i: nat)
    requires i < |log| && log[i].Granted? && forall j | 0 <= j < i && log[j].Granted? :: log[j].id != log[i].id
    ensures log[i].id in Replay(log).grants && Replay(log).grants[log[i].id] == log[i].row
    decreases |log|
  {
    var front := log[..|log| - 1];
    if i < |log| - 1 {
      FirstGrantWins(front, i);
    } else if log[i].id in Replay(front).grants {
      GrantedIsInLog(front, log[i].id);
    }
  }

  lemma {:induction false} GrantedIsInLog(log: seq<Event>, id: GrantId)
    requires id in Replay(log).grants
    ensures exists j :: 0 <= j < |log| && log[j].Granted? && log[j].id == id
    decreases |log|
  {
    if log != [] {
      var front := log[..|log| - 1];
      if id in Replay(front).grants {
        GrantedIsInLog(front, id);
        var j :| 0 <= j < |front| && front[j].Granted? && front[j].id == id;
        assert log[j] == front[j];
      } else {
        assert log[|log| - 1].Granted? && log[|log| - 1].id == id;
      }
    }
  }

  /** A grant that was in the log at length `n` can only lose its liveness after that. */
  lemma {:induction false} LivenessFalls(log: seq<Event>, n: nat, k: nat, id: GrantId)
    requires Positional(log) && id <= n <= k <= |log| && Live(Replay(log[..k]), id)
    ensures Live(Replay(log[..n]), id)
    decreases id
  {
    var early, late := Replay(log[..n]), Replay(log[..k]);
    ReplayAt(log[..n], id);
    ReplayAt(log[..k], id);
    ReplayRevoked(log[..n], id);
    ReplayRevoked(log[..k], id);
    assert log[..k][..n] == log[..n];
    assert forall e | e in log[..k][..n] :: e in log[..k];
    if !late.grants[id].grantor.Operator? {
      var s: GrantId :| s < id && Live(late, s) && Backs(late, s, late.grants[id]);
      LivenessFalls(log, n, k, s);
      ReplayAt(log[..n], s);
      ReplayAt(log[..k], s);
      assert Backs(early, s, early.grants[id]);
    }
  }

  /** Once dead, always dead, whatever is appended. */
  lemma NoRevival(log: seq<Event>, n: nat, k: nat, id: GrantId)
    requires Positional(log) && id <= n <= k <= |log| && !Live(Replay(log[..n]), id)
    ensures !Live(Replay(log[..k]), id)
  {
    if Live(Replay(log[..k]), id) { LivenessFalls(log, n, k, id); }
  }

  /** With ids that are not append positions a dead grant can come back: its support arrives
      later under a smaller id. */
  lemma RevivalWithoutPositions()
    ensures exists log: seq<Event>, n: nat, id: GrantId ::
              n <= |log| && id in Replay(log[..n]).grants && !Live(Replay(log[..n]), id) && Live(Replay(log), id)
  {
    var support := Row(Operator, Agent("a"), {Read, Grant}, Namespace("x"));
    var delegation := Row(Delegator("a"), Agent("b"), {Read}, Namespace("x"));
    var first := [Granted(2, delegation)];
    var log := first + [Granted(1, support)];
    assert log[..1] == first && first[..0] == [];
    assert Replay(first) == Model(map[2 := delegation], {});
    assert Replay(log) == Model(map[2 := delegation, 1 := support], {});
    assert Live(Replay(log), 1) && Backs(Replay(log), 1, delegation);
    assert Live(Replay(log), 2) && !Live(Replay(log[..1]), 2);
  }
}

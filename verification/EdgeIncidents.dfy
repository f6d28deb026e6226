// Runs of EdgeProtocol that lose a named object's block. Nothing in them fails or crashes.
module EdgeIncidents {
  import opened Prelude
  import opened Versions
  import opened EdgeProtocol

  lemma {:induction false} RunsExtend(s: State, of: BlocksOf, actions: seq<Action>, a: Action)
    requires Runs(s, of, actions) && Enabled(Exec(s, of, actions), of, a)
    ensures Runs(s, of, actions + [a]) && Exec(s, of, actions + [a]) == Apply(Exec(s, of, actions), of, a)
    decreases |actions|
  {
    if actions == [] {
      assert ([a])[1..] == [];
    } else {
      RunsExtend(Apply(s, of, actions[0]), of, actions[1..], a);
      assert (actions + [a])[1..] == actions[1..] + [a];
    }
  }

  /** `s` is reached by `actions` from an empty store, without a crash. */
  ghost predicate Reaches(of: BlocksOf, actions: seq<Action>, s: State) {
    Runs(INITIAL, of, actions) && Exec(INITIAL, of, actions) == s && Crash !in actions
  }

  ghost predicate Reachable(of: BlocksOf, s: State) {
    exists actions :: Reaches(of, actions, s)
  }

  lemma Then(of: BlocksOf, s: State, a: Action)
    requires Reachable(of, s) && Enabled(s, of, a) && !a.Crash?
    ensures Reachable(of, Apply(s, of, a))
  {
    var actions :| Reaches(of, actions, s);
    RunsExtend(INITIAL, of, actions, a);
    assert Reaches(of, actions + [a], Apply(s, of, a));
  }

  // ---- One call, step by step ---------------------------------------------------------------

  /** A call on an object of one block. */
  datatype Job = Job(p: Call, name: Name, cid: Cid, key: Key, alias: bool)

  function Held(j: Job): Placement {
    map[j.key.hash := j.key.generation]
  }

  /** The table with one more reservation of `x`. */
  function Up<K>(rows: map<K, Row>, x: K): map<K, Row> {
    rows[x := Row(Count(rows, x) + 1, true)]
  }

  /** The call may begin, and take its block: it is available, or a put may mint it. */
  predicate CanTake(s: State, of: BlocksOf, j: Job) {
    && PhaseOf(s, j.p).Idle? && of(j.cid) == {j.key.hash} && (j.alias ==> j.cid in s.manifests)
    && if j.key in s.blocks then s.blocks[j.key].available && j.key in s.files
       else !j.alias && NoneAvailable(s.blocks, j.key.hash)
  }

  predicate CanReserve(s: State, j: Job) {
    if j.cid in s.objects then s.objects[j.cid].available else !j.alias
  }

  function Begun(s: State, j: Job): State {
    s.(calls := s.calls[j.p := Reserving(j.name, j.cid, map[], j.alias)])
  }

  function Taken(s: State, j: Job): State {
    s.(blocks := Up(s.blocks, j.key), files := s.files + {j.key},
    calls := s.calls[j.p := Reserving(j.name, j.cid, Held(j), j.alias)])
  }

  function Holding(s: State, j: Job): State {
    s.(objects := Up(s.objects, j.cid), blocks := Up(s.blocks, j.key), files := s.files + {j.key},
    calls := s.calls[j.p := Reserved(j.name, j.cid, Held(j), j.alias, Count(s.objects, j.cid), false)])
  }

  function Prepared(s: State, j: Job): State {
    State(s.names, Up(s.objects, j.cid), if j.alias then s.manifests else s.manifests[j.cid := Held(j)],
          s.edges, Up(s.blocks, j.key), s.files + {j.key},
          s.calls[j.p := Reserved(j.name, j.cid, Held(j), j.alias, Count(s.objects, j.cid), true)], s.gc)
  }

  lemma Begins(of: BlocksOf, s: State, j: Job)
    requires Reachable(of, s) && CanTake(s, of, j)
    ensures Reachable(of, Begun(s, j))
  {
    Then(of, s, Begin(j.p, j.name, j.cid, j.alias));
  }

  lemma TakesFound(of: BlocksOf, s: State, j: Job)
    requires Reachable(of, Begun(s, j)) && CanTake(s, of, j) && j.key in s.blocks
    ensures Reachable(of, Taken(s, j))
  {
    var none: Placement := map[];
    assert none[j.key.hash := j.key.generation] == Held(j);
    assert Begun(s, j).calls[j.p := Reserving(j.name, j.cid, Held(j), j.alias)] == Taken(s, j).calls;
    Then(of, Begun(s, j), ReserveBlock(j.p, j.key));
    assert s.files + {j.key} == s.files;
  }

  lemma TakesNew(of: BlocksOf, s: State, j: Job)
    requires Reachable(of, Begun(s, j)) && CanTake(s, of, j) && j.key !in s.blocks
    ensures Reachable(of, Taken(s, j))
  {
    var none: Placement := map[];
    assert none[j.key.hash := j.key.generation] == Held(j);
    assert Begun(s, j).calls[j.p := Reserving(j.name, j.cid, Held(j), j.alias)] == Taken(s, j).calls;
    Then(of, Begun(s, j), Mint(j.p, j.key));
  }

  lemma Holds(of: BlocksOf, s: State, j: Job)
    requires Reachable(of, Taken(s, j)) && CanTake(s, of, j) && CanReserve(s, j)
    ensures Reachable(of, Holding(s, j))
  {
    var r := Reserved(j.name, j.cid, Held(j), j.alias, Count(s.objects, j.cid), false);
    var before := Taken(s, j);
    assert PhaseOf(before, j.p) == Reserving(j.name, j.cid, Held(j), j.alias) && Held(j).Keys == of(j.cid);
    assert before.calls[j.p := r] == s.calls[j.p := r];
    Then(of, before, ReserveObject(j.p));
    assert Apply(before, of, ReserveObject(j.p)).calls == s.calls[j.p := r];
    assert Apply(before, of, ReserveObject(j.p)).objects == Up(s.objects, j.cid);
  }

  lemma Sees(of: BlocksOf, s: State, j: Job)
    requires Reachable(of, Holding(s, j)) && CanTake(s, of, j)
    ensures Reachable(of, Prepared(s, j))
  {
    var r := Reserved(j.name, j.cid, Held(j), j.alias, Count(s.objects, j.cid), true);
    assert Holding(s, j).calls[j.p := r] == s.calls[j.p := r];
    Then(of, Holding(s, j), SeeManifest(j.p));
  }

  lemma Prepares(of: BlocksOf, s: State, j: Job)
    requires Reachable(of, s) && CanTake(s, of, j) && CanReserve(s, j)
    ensures Reachable(of, Prepared(s, j))
  {
    Begins(of, s, j);
    if j.key in s.blocks { TakesFound(of, s, j); } else { TakesNew(of, s, j); }
    Holds(of, s, j);
    Sees(of, s, j);
  }

  /** A bind that brings an object to life records its edge, unless there is one. */
  function Revived(s: State, j: Job): State {
    s.(names := Append(s.names, j.name, j.cid),
    edges := if Edge(j.cid, j.key.hash) in s.edges then s.edges else s.edges[Edge(j.cid, j.key.hash) := j.key.generation],
    calls := s.calls[j.p := Idle])
  }

  lemma Revives(of: BlocksOf, s: State, j: Job)
    requires Reachable(of, s) && Current(s.names, j.name) != Some(j.cid)
    requires PhaseOf(s, j.p) == Reserved(j.name, j.cid, Held(j), j.alias, 0, true)
    ensures Enabled(s, of, Bind(j.p)) && Apply(s, of, Bind(j.p)) == Revived(s, j) && Reachable(of, Revived(s, j))
  {
    assert WithEdges(s.edges, j.cid, Held(j)) == Revived(s, j).edges;
    Then(of, s, Bind(j.p));
  }

  /** A bind that adds a reference to a live object gives its block back. */
  lemma Joins(of: BlocksOf, s: State, j: Job, prevRc: int)
    requires Reachable(of, s) && Current(s.names, j.name) != Some(j.cid) && prevRc != 0
    requires PhaseOf(s, j.p) == Reserved(j.name, j.cid, Held(j), j.alias, prevRc, true)
    ensures Reachable(of, s.(names := Append(s.names, j.name, j.cid), blocks := Bumped(s.blocks, j.key, -1),
                             calls := s.calls[j.p := Idle]))
  {
    assert Released(s.blocks, Held(j)) == Bumped(s.blocks, j.key, -1);
    Then(of, s, Bind(j.p));
  }

  /** A bind of what the name has already gives both back. */
  lemma Repeats(of: BlocksOf, s: State, j: Job, prevRc: int)
    requires Reachable(of, s) && Current(s.names, j.name) == Some(j.cid)
    requires PhaseOf(s, j.p) == Reserved(j.name, j.cid, Held(j), j.alias, prevRc, true)
    ensures Reachable(of, s.(objects := Bumped(s.objects, j.cid, -1), blocks := Bumped(s.blocks, j.key, -1),
                             calls := s.calls[j.p := Idle]))
  {
    assert Released(s.blocks, Held(j)) == Bumped(s.blocks, j.key, -1);
    Then(of, s, Bind(j.p));
  }

  // ---- One collection, step by step ------------------------------------------------------------

  lemma Claims(of: BlocksOf, s: State, k: Key)
    requires Reachable(of, s) && s.gc == Resting && k in s.blocks && s.blocks[k] == Row(0, true)
    ensures Reachable(of, s.(blocks := s.blocks[k := Row(0, false)], gc := BlockClaimed(k)))
  {
    Then(of, s, ClaimBlock(k));
  }

  lemma Unlinks(of: BlocksOf, s: State, k: Key)
    requires Reachable(of, s) && s.gc == BlockClaimed(k)
    ensures Reachable(of, s.(files := s.files - {k}, gc := BlockUnlinked(k)))
  {
    Then(of, s, UnlinkBlock);
  }

  lemma Deletes(of: BlocksOf, s: State, k: Key)
    requires Reachable(of, s) && s.gc == BlockUnlinked(k) && k in s.blocks && s.blocks[k] == Row(0, false)
    ensures Reachable(of, s.(blocks := s.blocks - {k}, gc := Resting))
  {
    Then(of, s, DeleteBlock);
  }

  // ---- The first put of an object --------------------------------------------------------------

  function AfterPut(s: State, j: Job): State {
    State(Append(s.names, j.name, j.cid), s.objects[j.cid := Row(1, true)],
          s.manifests[j.cid := Held(j)], s.edges[Edge(j.cid, j.key.hash) := j.key.generation],
          s.blocks[j.key := Row(1, true)], s.files + {j.key}, s.calls[j.p := Idle], s.gc)
  }

  /** The first put of an object whose one block has no available generation. */
  lemma FirstPut(of: BlocksOf, s: State, j: Job)
    requires Reachable(of, s) && CanTake(s, of, j) && j.cid !in s.objects && Edge(j.cid, j.key.hash) !in s.edges
    requires !j.alias && j.key !in s.blocks && Current(s.names, j.name) != Some(j.cid)
    ensures Reachable(of, AfterPut(s, j))
  {
    Prepares(of, s, j);
    Revives(of, Prepared(s, j), j);
    assert Prepared(s, j).calls[j.p := Idle] == s.calls[j.p := Idle];
  }

  // ---- Two puts of one content that overlap ---------------------------------------------------

  lemma BothPrepare(of: BlocksOf, n: Name, c: Cid, k: Key)
    requires of(c) == {k.hash}
    ensures Reachable(of, State(map[], map[c := Row(2, true)], map[c := map[k.hash := k.generation]], map[],
                                map[k := Row(2, true)], {k},
                                map[0 := Reserved(n, c, map[k.hash := k.generation], false, 0, true),
                                    1 := Reserved(n, c, map[k.hash := k.generation], false, 1, true)], Resting))
  {
    assert Reaches(of, [], INITIAL);
    Prepares(of, INITIAL, Job(0, n, c, k, false));
    var s := State(map[], map[c := Row(1, true)], map[c := map[k.hash := k.generation]], map[],
                   map[k := Row(1, true)], {k},
                   map[0 := Reserved(n, c, map[k.hash := k.generation], false, 0, true)], Resting);
    assert Prepared(INITIAL, Job(0, n, c, k, false)) == s;
    Prepares(of, s, Job(1, n, c, k, false));
    var s' := Prepared(s, Job(1, n, c, k, false));
    assert s'.objects == map[c := Row(2, true)] && s'.blocks == map[k := Row(2, true)] && s'.files == {k};
    assert s'.manifests == map[c := map[k.hash := k.generation]];
  }

  lemma SecondBinds(of: BlocksOf, n: Name, c: Cid, k: Key)
    requires of(c) == {k.hash}
    ensures Reachable(of, State(map[n := [c]], map[c := Row(2, true)], map[c := map[k.hash := k.generation]], map[],
                                map[k := Row(1, true)], {k},
                                map[0 := Reserved(n, c, map[k.hash := k.generation], false, 0, true), 1 := Idle], Resting))
  {
    BothPrepare(of, n, c, k);
    var first := Reserved(n, c, map[k.hash := k.generation], false, 0, true);
    var second := Reserved(n, c, map[k.hash := k.generation], false, 1, true);
    var s := State(map[], map[c := Row(2, true)], map[c := map[k.hash := k.generation]], map[],
                   map[k := Row(2, true)], {k}, map[0 := first, 1 := second], Resting);
    Joins(of, s, Job(1, n, c, k, false), 1);
    assert History(s.names, n) + [c] == [c];
    assert Append(s.names, n, c) == map[n := [c]] && Bumped(s.blocks, k, -1) == map[k := Row(1, true)];
    assert s.calls[1 := Idle] == map[0 := first, 1 := Idle];
  }

  lemma FirstBinds(of: BlocksOf, n: Name, c: Cid, k: Key)
    requires of(c) == {k.hash}
    ensures Reachable(of, State(map[n := [c]], map[c := Row(1, true)], map[c := map[k.hash := k.generation]], map[],
                                map[k := Row(0, true)], {k}, map[0 := Idle, 1 := Idle], Resting))
  {
    SecondBinds(of, n, c, k);
    var first := Reserved(n, c, map[k.hash := k.generation], false, 0, true);
    var s := State(map[n := [c]], map[c := Row(2, true)], map[c := map[k.hash := k.generation]], map[],
                   map[k := Row(1, true)], {k}, map[0 := first, 1 := Idle], Resting);
    Repeats(of, s, Job(0, n, c, k, false), 0);
    assert Bumped(s.objects, c, -1) == map[c := Row(1, true)] && Bumped(s.blocks, k, -1) == map[k := Row(0, true)];
    assert s.calls[0 := Idle] == map[0 := Idle, 1 := Idle];
  }

  lemma NamedOnce(n: Name, c: Cid, names: Versions)
    requires Current(names, n) == Some(c)
    ensures Named(names, c)
  {
    RefsMember(names, Version(n, |History(names, n)| - 1), c);
  }

  /** The first put finds the object dead and the second finds it live; the second binds first,
      without edges, and the first then finds its work done and gives its reservations back. The
      name is bound, and its block is collected. */
  lemma OverlappingPutsLoseBlocks(of: BlocksOf, n: Name, c: Cid, k: Key) returns (s: State)
    requires of(c) == {k.hash}
    ensures Reachable(of, s) && Current(s.names, n) == Some(c) && !Readable(s, of)
  {
    FirstBinds(of, n, c, k);
    s := State(map[n := [c]], map[c := Row(1, true)], map[c := map[k.hash := k.generation]], map[],
               map[k := Row(0, true)], {k}, map[0 := Idle, 1 := Idle], Resting);
    Claims(of, s, k);
    s := s.(blocks := s.blocks[k := Row(0, false)], gc := BlockClaimed(k));
    Unlinks(of, s, k);
    s := s.(files := s.files - {k}, gc := BlockUnlinked(k));
    NamedOnce(n, c, s.names);
    assert k.hash in of(c);
  }

  // ---- An alias of a dead object -----------------------------------------------------------------

  // The states the run goes through: `c` is put as `n`, unbound, its block is claimed, content `d`
  // that shares the block is put as `m`, and the claim is carried out.

  function Put(n: Name, c: Cid, h: Cid): State {
    State(map[n := [c]], map[c := Row(1, true)], map[c := map[h := 0]], map[Edge(c, h) := 0],
          map[Key(h, 0) := Row(1, true)], {Key(h, 0)}, map[0 := Idle], Resting)
  }

  function Dropped(c: Cid, h: Cid): State {
    State(map[], map[c := Row(0, true)], map[c := map[h := 0]], map[],
          map[Key(h, 0) := Row(0, true)], {Key(h, 0)}, map[0 := Idle], Resting)
  }

  function Claimed(c: Cid, h: Cid): State {
    State(map[], map[c := Row(0, true)], map[c := map[h := 0]], map[],
          map[Key(h, 0) := Row(0, false)], {Key(h, 0)}, map[0 := Idle], BlockClaimed(Key(h, 0)))
  }

  function Shared(m: Name, c: Cid, d: Cid, h: Cid): State {
    State(map[m := [d]], map[c := Row(0, true), d := Row(1, true)], map[c := map[h := 0], d := map[h := 1]],
          map[Edge(d, h) := 1], map[Key(h, 0) := Row(0, false), Key(h, 1) := Row(1, true)],
          {Key(h, 0), Key(h, 1)}, map[0 := Idle], BlockClaimed(Key(h, 0)))
  }

  function Unlinked(m: Name, c: Cid, d: Cid, h: Cid): State {
    State(map[m := [d]], map[c := Row(0, true), d := Row(1, true)], map[c := map[h := 0], d := map[h := 1]],
          map[Edge(d, h) := 1], map[Key(h, 0) := Row(0, false), Key(h, 1) := Row(1, true)],
          {Key(h, 1)}, map[0 := Idle], BlockUnlinked(Key(h, 0)))
  }

  function Replaced(m: Name, c: Cid, d: Cid, h: Cid): State {
    State(map[m := [d]], map[c := Row(0, true), d := Row(1, true)], map[c := map[h := 0], d := map[h := 1]],
          map[Edge(d, h) := 1], map[Key(h, 1) := Row(1, true)], {Key(h, 1)}, map[0 := Idle], Resting)
  }

  lemma ReachesPut(of: BlocksOf, n: Name, c: Cid, h: Cid)
    requires of(c) == {h}
    ensures Reachable(of, Put(n, c, h))
  {
    var j := Job(0, n, c, Key(h, 0), false);
    assert Reaches(of, [], INITIAL);
    FirstPut(of, INITIAL, j);
    assert AfterPut(INITIAL, j) == Put(n, c, h) by {
      assert History(INITIAL.names, n) + [c] == [c];
    }
  }

  lemma LastKilled(n: Name, c: Cid, h: Cid)
    ensures |RefsOf(Put(n, c, h).names, n, c)| == 1 && Killed(Put(n, c, h), n) == {c}
    ensures KilledEdgesTo(Put(n, c, h), n, Key(h, 0)) == {Edge(c, h)}
  {
    assert RefsOf(Put(n, c, h).names, n, c) == {Version(n, 0)};
  }

  lemma UnbindsLast(n: Name, c: Cid, h: Cid)
    ensures Unbound(Put(n, c, h), n) == Dropped(c, h)
  {
    LastKilled(n, c, h);
    assert Unbound(Put(n, c, h), n).objects == map[c := Row(0, true)];
    assert Unbound(Put(n, c, h), n).blocks == map[Key(h, 0) := Row(0, true)];
  }

  lemma ReachesDropped(of: BlocksOf, n: Name, c: Cid, h: Cid)
    requires of(c) == {h}
    ensures Reachable(of, Dropped(c, h))
  {
    ReachesPut(of, n, c, h);
    Then(of, Put(n, c, h), Unbind(n));
    UnbindsLast(n, c, h);
  }

  lemma ReachesClaimed(of: BlocksOf, n: Name, c: Cid, h: Cid)
    requires of(c) == {h}
    ensures Reachable(of, Claimed(c, h))
  {
    ReachesDropped(of, n, c, h);
    Claims(of, Dropped(c, h), Key(h, 0));
    assert Dropped(c, h).blocks[Key(h, 0) := Row(0, false)] == Claimed(c, h).blocks;
  }

  lemma ReachesShared(of: BlocksOf, n: Name, m: Name, c: Cid, d: Cid, h: Cid)
    requires c != d && of(c) == {h} == of(d)
    ensures Reachable(of, Shared(m, c, d, h))
  {
    var s, j := Claimed(c, h), Job(0, m, d, Key(h, 1), false);
    ReachesClaimed(of, n, c, h);
    FirstPut(of, s, j);
    assert AfterPut(s, j) == Shared(m, c, d, h) by {
      assert History(s.names, m) + [d] == [d];
    }
  }

  lemma ReachesUnlinked(of: BlocksOf, n: Name, m: Name, c: Cid, d: Cid, h: Cid)
    requires c != d && of(c) == {h} == of(d)
    ensures Reachable(of, Unlinked(m, c, d, h))
  {
    ReachesShared(of, n, m, c, d, h);
    Unlinks(of, Shared(m, c, d, h), Key(h, 0));
    assert {Key(h, 0), Key(h, 1)} - {Key(h, 0)} == {Key(h, 1)};
  }

  lemma OldIsGone(h: Cid)
    ensures map[Key(h, 0) := Row(0, false), Key(h, 1) := Row(1, true)] - {Key(h, 0)} == map[Key(h, 1) := Row(1, true)]
  {
  }

  lemma ReachesReplaced(of: BlocksOf, n: Name, m: Name, c: Cid, d: Cid, h: Cid)
    requires c != d && of(c) == {h} == of(d)
    ensures Reachable(of, Replaced(m, c, d, h))
  {
    ReachesUnlinked(of, n, m, c, d, h);
    Deletes(of, Unlinked(m, c, d, h), Key(h, 0));
    OldIsGone(h);
  }

  lemma NotNamed(m: Name, d: Cid, c: Cid)
    requires c != d
    ensures !Named(map[m := [d]], c)
  {
    assert Refs(map[m := [d]], c) == {};
  }

  lemma AliasIsUnguarded(of: BlocksOf, n: Name, m: Name, c: Cid, d: Cid, h: Cid)
    requires c != d && n != m && of(c) == {h} == of(d)
    ensures var s := Prepared(Replaced(m, c, d, h), Job(0, n, c, Key(h, 1), true));
            Enabled(s, of, Bind(0)) && !Guarded(s, of, Bind(0))
  {
    var s := Prepared(Replaced(m, c, d, h), Job(0, n, c, Key(h, 1), true));
    NotNamed(m, d, c);
    assert Edge(c, h) !in s.edges && !InPlacement(PhaseOf(s, 0).held, Key(h, 0));
    assert !Safe(s, PhaseOf(s, 0), h);
  }

  /** The object is dead but not yet collected, so an alias finds its manifest. The generation it
      reserves is the one available, not the one the manifest lists. The bind succeeds, is not
      guarded, and the name cannot be read. */
  lemma AliasOfDeadObjectIsUnreadable(of: BlocksOf, n: Name, m: Name, c: Cid, d: Cid, h: Cid)
      returns (s: State, s': State)
    requires c != d && n != m && of(c) == {h} == of(d)
    ensures Reachable(of, s) && Reachable(of, s') && Enabled(s, of, Bind(0)) && s' == Apply(s, of, Bind(0))
    ensures !Guarded(s, of, Bind(0)) && Current(s'.names, n) == Some(c) && !Readable(s', of)
  {
    var j := Job(0, n, c, Key(h, 1), true);
    ReachesReplaced(of, n, m, c, d, h);
    Prepares(of, Replaced(m, c, d, h), j);
    s := Prepared(Replaced(m, c, d, h), j);
    AliasIsUnguarded(of, n, m, c, d, h);
    Revives(of, s, j);
    s' := Revived(s, j);
    NamedOnce(n, c, s'.names);
    assert h in of(c) && s'.manifests[c][h] == 0 && Key(h, 0) !in s'.files;
  }
}

// Runs of the block protocol in which one of its premises fails and a bound block is lost.
module BlockIncidents {
  import opened Prelude
  import opened BlockProtocol

  lemma {:induction false} RunsExtend(s: State, actions: seq<Action>, a: Action, sync: bool)
    requires Runs(s, actions, sync) && Enabled(Exec(s, actions, sync), a)
    ensures Runs(s, actions + [a], sync)
    ensures Exec(s, actions + [a], sync) == Apply(Exec(s, actions, sync), a, sync)
    decreases |actions|
  {
    if actions == [] {
      assert ([a])[1..] == [];
    } else {
      RunsExtend(Apply(s, actions[0], sync), actions[1..], a, sync);
      assert (actions + [a])[1..] == actions[1..] + [a];
    }
  }

  /** `actions` is a run from the initial state to `s`. */
  ghost predicate Reaches(actions: seq<Action>, s: State, sync: bool) {
    Runs(INITIAL, actions, sync) && Exec(INITIAL, actions, sync) == s
  }

  lemma Then(actions: seq<Action>, s: State, a: Action, sync: bool) returns (actions': seq<Action>)
    requires Reaches(actions, s, sync) && Enabled(s, a)
    ensures actions' == actions + [a] && Reaches(actions', Apply(s, a, sync), sync)
  {
    RunsExtend(INITIAL, actions, a, sync);
    actions' := actions + [a];
  }

  /** Writer `w` gets as far as having written generation 0 of `h`. */
  lemma WriteGeneration(actions: seq<Action>, s: State, w: Writer, h: Cid, sync: bool)
      returns (actions': seq<Action>, s': State)
    requires Reaches(actions, s, sync) && w !in s.writers && s.rows == map[] && Crash(true) !in actions
    ensures Reaches(actions', s', sync) && Crash(true) !in actions'
    ensures s'.writers == s.writers[w := Written(Key(h, 0))] && s'.rows == map[]
    ensures s'.bound == s.bound && s'.gc == s.gc
    ensures s'.files == if Key(h, 0) in s.files then s.files else s.files[Key(h, 0) := sync]
  {
    var chosen := s.(writers := s.writers[w := Chosen(Key(h, 0))]);
    actions' := ChooseGeneration(actions, s, w, h, sync);
    actions' := Then(actions', chosen, Write(w), sync);
    s' := Apply(chosen, Write(w), sync);
    assert s'.writers == s.writers[w := Written(Key(h, 0))];
  }

  lemma ChooseGeneration(actions: seq<Action>, s: State, w: Writer, h: Cid, sync: bool) returns (actions': seq<Action>)
    requires Reaches(actions, s, sync) && w !in s.writers && s.rows == map[] && Crash(true) !in actions
    ensures Reaches(actions', s.(writers := s.writers[w := Chosen(Key(h, 0))]), sync) && Crash(true) !in actions'
  {
    var missed := s.(writers := s.writers[w := Missed(h)]);
    actions' := Then(actions, s, Reserve(w, h), sync);
    actions' := Then(actions', missed, Choose(w, 0), sync);
    assert missed.writers[w := Chosen(Key(h, 0))] == s.writers[w := Chosen(Key(h, 0))];
  }

  ghost predicate LosesALiveBlock(s: State) {
    exists b :: b in s.bound && b !in s.files
  }

  /** A minted, unreferenced generation is reclaimed although writer 0 is about to mint it. */
  lemma ReclaimUnderWriter(actions: seq<Action>, h: Cid, sync: bool) returns (actions': seq<Action>)
    requires Reaches(actions, State(map[Key(h, 0) := Row(0, true)], map[Key(h, 0) := sync], multiset{},
                                    map[0 := Written(Key(h, 0)), 1 := Idle], Resting), sync)
    requires Crash(true) !in actions
    ensures Reaches(actions', State(map[], map[], multiset{},
                                    map[0 := Written(Key(h, 0)), 1 := Idle], Resting), sync)
    ensures Crash(true) !in actions'
  {
    var b := Key(h, 0);
    var ws := map[0 := Written(b), 1 := Idle];
    var s0 := State(map[b := Row(0, true)], map[b := sync], multiset{}, ws, Resting);
    actions' := Then(actions, s0, Claim(b), sync);
    var s1 := State(map[b := Row(0, false)], map[b := sync], multiset{}, ws, Claimed(b));
    assert Apply(s0, Claim(b), sync) == s1;
    actions' := Then(actions', s1, Unlink, sync);
    var s2 := State(map[b := Row(0, false)], map[], multiset{}, ws, Unlinked(b));
    assert Apply(s1, Unlink, sync) == s2;
    actions' := Then(actions', s2, DeleteRow, sync);
    assert Apply(s2, DeleteRow, sync) == State(map[], map[], multiset{}, ws, Resting);
  }

  lemma BothWrite(h: Cid, sync: bool) returns (actions: seq<Action>)
    ensures Reaches(actions, State(map[], map[Key(h, 0) := sync], multiset{},
                                   map[0 := Written(Key(h, 0)), 1 := Written(Key(h, 0))], Resting), sync)
    ensures Crash(true) !in actions
  {
    var b := Key(h, 0);
    var s: State;
    actions, s := WriteGeneration([], INITIAL, 0, h, sync);
    actions, s := WriteGeneration(actions, s, 1, h, sync);
    assert s == State(map[], map[b := sync], multiset{}, map[0 := Written(b), 1 := Written(b)], Resting);
  }

  /** Two writers write the same generation; the second mints it and gives up. */
  lemma MintUnderWriter(h: Cid, sync: bool) returns (actions: seq<Action>)
    ensures Reaches(actions, State(map[Key(h, 0) := Row(0, true)], map[Key(h, 0) := sync], multiset{},
                                   map[0 := Written(Key(h, 0)), 1 := Idle], Resting), sync)
    ensures Crash(true) !in actions
  {
    var b := Key(h, 0);
    actions := BothWrite(h, sync);
    var s := State(map[], map[b := sync], multiset{}, map[0 := Written(b), 1 := Written(b)], Resting);
    actions := Then(actions, s, Mint(1), sync);
    s := State(map[b := Row(1, true)], map[b := sync], multiset{}, map[0 := Written(b), 1 := Reserved(b)], Resting);
    actions := Then(actions, s, Release(1), sync);
    assert Apply(s, Release(1), sync)
        == State(map[b := Row(0, true)], map[b := sync], multiset{}, map[0 := Written(b), 1 := Idle], Resting);
  }

  /** Once the generation is reclaimed, the first writer mints a row over the missing file. */
  lemma MintWithoutFile(h: Cid, sync: bool) returns (actions: seq<Action>)
    ensures Reaches(actions, State(map[Key(h, 0) := Row(1, true)], map[], multiset{},
                                   map[0 := Reserved(Key(h, 0)), 1 := Idle], Resting), sync)
    ensures Crash(true) !in actions
  {
    var b := Key(h, 0);
    actions := MintUnderWriter(h, sync);
    actions := ReclaimUnderWriter(actions, h, sync);
    actions := Then(actions, State(map[], map[], multiset{}, map[0 := Written(b), 1 := Idle], Resting), Mint(0), sync);
  }

  /** Without the sparing premise S1 fails: the first writer binds what it minted. */
  lemma UnsparedRunLosesALiveBlock(h: Cid, sync: bool) returns (actions: seq<Action>, s: State)
    ensures Reaches(actions, s, sync) && Durable(actions, sync) && LosesALiveBlock(s)
  {
    var b := Key(h, 0);
    actions := MintWithoutFile(h, sync);
    s := State(map[b := Row(1, true)], map[], multiset{}, map[0 := Reserved(b), 1 := Idle], Resting);
    actions := Then(actions, s, Bind(0), sync);
    s := Apply(s, Bind(0), sync);
    assert b in s.bound && b !in s.files;
  }

  /** Without fsync before insert, a crash loses a bound block's file. */
  lemma UnsyncedCrashLosesALiveBlock(h: Cid) returns (actions: seq<Action>, s: State)
    ensures Reaches(actions, s, false) && LosesALiveBlock(s)
  {
    var b := Key(h, 0);
    actions, s := WriteGeneration([], INITIAL, 0, h, false);
    assert s == State(map[], map[b := false], multiset{}, map[0 := Written(b)], Resting);
    actions := Then(actions, s, Mint(0), false);
    s := State(map[b := Row(1, true)], map[b := false], multiset{}, map[0 := Reserved(b)], Resting);
    actions := Then(actions, s, Bind(0), false);
    s := State(map[b := Row(1, true)], map[b := false], multiset{b}, map[0 := Idle], Resting);
    actions := Then(actions, s, Crash(true), false);
    s := Apply(s, Crash(true), false);
    assert b in s.bound && b !in s.files;
  }
}

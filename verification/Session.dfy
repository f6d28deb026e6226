// Whole runs of the store: any sequence of puts, aliases, unbinds, reads, collector passes
// and audits, with failures, passes cut short and processes that die in the middle, against
// a plain map of content histories.
module Session {
  import opened Prelude
  import opened Versions
  import opened FileStore
  import opened StoreModel
  import R = Repository
  import C = Collector
  import A = Audit

  /** `CrashPut` and `CrashBind` die after reserving their object and are followed, once they
      are at rest, by an audit. */
  datatype Call =
    | Put(name: Name, bytes: Bytes, fault: R.Fault)
    | Bind(name: Name, cid: Cid, fault: R.Fault)
    | Unbind(name: Name)
    | Get(name: Name)
    | GetRange(name: Name, offset: u64, len: u64)
    | Collect(budget: nat)
    | Audit(cutoff: int)
    | CrashPut(bytes: Bytes, manifest: bool, cutoff: int)
    | CrashBind(cid: Cid, cutoff: int)

  datatype Outcome =
    | Stored(put: Result<Cid>)
    | Bound(bind: Result<()>)
    | Unbound
    | Read(read: Result<Bytes>)
    | Swept(complete: bool)

  /** Sizes fit their field, and an audit after a crash comes when the crashed call is at rest. */
  predicate Admissible(call: Call, now: int) {
    match call
    case Put(_, bytes, _) => |bytes| < U64_LIMIT
    case CrashPut(bytes, _, cutoff) => |bytes| < U64_LIMIT && now <= cutoff
    case CrashBind(_, cutoff) => now <= cutoff
    case _ => true
  }

  /** The call may leave reservations behind. */
  predicate Leaky(call: Call) {
    match call
    case Put(_, _, fault) => fault.OnBlock() || fault.ObjectCall?
    case Bind(_, _, fault) => fault.OnBlock() || fault.ObjectCall?
    case CrashPut(_, _, _) => true
    case CrashBind(_, _) => true
    case _ => false
  }

  // ---- The reference model -------------------------------------------------

  /** The histories, every content a put has been asked to write, and whether the last
      collector pass was cut short. */
  datatype Reference = Reference(histories: R.Histories, written: set<Bytes>, cutShort: bool)

  function Latest(h: R.Histories, n: Name): Result<Bytes> {
    if n in h && h[n] != [] then Ok(h[n][|h[n]| - 1]) else Err(NameNotFound)
  }

  /** Some version of some name is `bytes`. */
  predicate Named(h: R.Histories, bytes: Bytes) {
    exists n | n in h :: bytes in h[n]
  }

  /** What `call` does to the reference, given how it ended. */
  function Effect(ref: Reference, call: Call, out: Outcome): Reference {
    match call
    case Put(n, bytes, _) =>
      var h := if out.Stored? && out.put.Ok? then R.Extended(ref.histories, n, bytes) else ref.histories;
      ref.(histories := h, written := ref.written + {bytes})
    case Bind(n, c, _) =>
      if out.Bound? && out.bind.Ok? then ref.(histories := R.Extended(ref.histories, n, c.preimage)) else ref
    case Unbind(n) => ref.(histories := ref.histories - {n})
    case Get(_) => ref
    case GetRange(_, _, _) => ref
    case Collect(_) => ref.(cutShort := !(out.Swept? && out.complete))
    case Audit(_) => ref.(cutShort := false)
    case CrashPut(bytes, _, _) => ref.(written := ref.written + {bytes}, cutShort := false)
    case CrashBind(_, _) => ref.(cutShort := false)
  }

  /** What a caller may be told. Reads are exact. A put fails only for a fault, or because its
      content, under no name, was left claimed by a pass cut short. An alias binds only content
      that a put was asked to write, and of named content it fails only for a fault. */
  predicate Truthful(ref: Reference, call: Call, out: Outcome) {
    match call
    case Put(n, bytes, fault) =>
      && out.Stored?
      && (out.put == Ok(Cid(bytes))
          || (out.put == Err(Conflict) && ref.cutShort && !Named(ref.histories, bytes))
          || (out.put == Err(Io) && !fault.NoFault?))
    case Bind(n, c, fault) =>
      && out.Bound?
      && (out.bind.Ok? ==> c.preimage in ref.written)
      && (out.bind.Ok?
          || (out.bind == Err(NotFound(c)) && !Named(ref.histories, c.preimage))
          || (out.bind == Err(Conflict) && ref.cutShort && !Named(ref.histories, c.preimage))
          || (out.bind == Err(Io) && !fault.NoFault?))
    case Unbind(n) => out.Unbound?
    case Get(n) => out == Read(Latest(ref.histories, n))
    case GetRange(n, offset, len) =>
      out == Read(match Latest(ref.histories, n) case Ok(bytes) => Ok(Slice(bytes, offset, len)) case Err(e) => Err(e))
    case Collect(_) => out.Swept?
    case Audit(_) => out == Swept(true)
    case CrashPut(_, _, _) => out == Swept(true)
    case CrashBind(_, _) => out == Swept(true)
  }

  /** The reference after the first calls of a run. */
  function Replay(ref: Reference, calls: seq<Call>, outs: seq<Outcome>): Reference
    requires |calls| == |outs|
  {
    if calls == [] then ref
    else Effect(Replay(ref, calls[..|calls| - 1], outs[..|outs| - 1]), calls[|calls| - 1], outs[|outs| - 1])
  }

  predicate AllTruthful(ref: Reference, calls: seq<Call>, outs: seq<Outcome>)
    requires |calls| == |outs|
  {
    calls == [] ||
    (var front, before := calls[..|calls| - 1], outs[..|outs| - 1];
    AllTruthful(ref, front, before) && Truthful(Replay(ref, front, before), calls[|calls| - 1], outs[|outs| - 1]))
  }

  // ---- The store refines it ------------------------------------------------

  /** The store stands for `ref`: the same histories, no manifest of content never put, and no
      object left claimed unless a pass was cut short. */
  ghost predicate Models(s: Store, ref: Reference) {
    && R.Decode(s.names) == ref.histories
    && (forall c | c in s.manifests :: c.preimage in ref.written)
    && (!ref.cutShort ==> forall c | c in s.objects :: s.objects[c].available)
  }

  /** A named content is neither claimed nor without its manifest. */
  lemma NamedIsLive(s: Store, chunk: Chunker, leak: multiset<Key>, bytes: Bytes)
    requires AtRest(s, chunk, leak) && Named(R.Decode(s.names), bytes)
    ensures Cid(bytes) in s.manifests && Cid(bytes) in s.objects && s.objects[Cid(bytes)].available
  {
    var n :| n in R.Decode(s.names) && bytes in R.Decode(s.names)[n];
    var i :| 0 <= i < |R.Preimages(s.names[n])| && R.Preimages(s.names[n])[i] == bytes;
    assert s.names[n][i] == Cid(bytes);
    RefsMember(s.names, Version(n, i), Cid(bytes));
    assert ObjectInv(s, chunk, None, Cid(bytes));
  }

  lemma SweptModels(s: Store, s': Store, chunk: Chunker, leak: multiset<Key>, ref: Reference, complete: bool)
    requires AtRest(s', chunk, leak) && C.Collected(s, s')
    requires R.Decode(s.names) == ref.histories && forall c | c in s.manifests :: c.preimage in ref.written
    requires complete ==> DeadObjects(s'.objects) == {}
    ensures Models(s', ref.(cutShort := !complete))
  {
    forall c | c in s'.manifests ensures c.preimage in ref.written { assert C.ObjectCollected(s, s', c); }
    if complete {
      forall c | c in s'.objects ensures s'.objects[c].available {
        assert ObjectInv(s', chunk, None, c) && c !in DeadObjects(s'.objects);
      }
    }
  }

  /** An audit after a call abandoned at any step: what holds between calls holds again. */
  method Recover(repo: R.Repository, cutoff: int, ghost held: Option<Cid>, ghost ref: Reference)
    requires Partitions(repo.content.chunk) && R.Injective(repo.digest)
    requires InFlight(repo.Snapshot(), repo.content.chunk, repo.leaked, held)
    requires held.Some? ==> held.value in repo.index.objects && repo.index.objects[held.value].touchedAt <= cutoff
    requires R.Decode(repo.index.names) == ref.histories
    requires forall c | c in repo.content.manifests :: c.preimage in ref.written
    modifies repo, repo.index, repo.content
    ensures repo.Valid() && Models(repo.Snapshot(), ref.(cutShort := false))
    ensures repo.leaked <= old(repo.leaked)
    ensures A.Quiescent(old(repo.Snapshot()), cutoff) ==> repo.leaked == multiset{}
  {
    ghost var s := repo.Snapshot();
    var _, _ := A.Audit(repo, cutoff);
    A.AuditRestores(s, repo.Snapshot(), repo.content.chunk, repo.leaked, held, cutoff);
    repo.leaked := A.Young(repo.leaked, s.blocks, cutoff);
    SweptModels(A.Reconciled(s, cutoff), repo.Snapshot(), repo.content.chunk, repo.leaked, ref, true);
  }

  method Perform(repo: R.Repository, call: Call, now: int, ghost ref: Reference) returns (out: Outcome)
    requires repo.Valid() && Admissible(call, now) && Models(repo.Snapshot(), ref)
    modifies repo, repo.index, repo.content
    ensures repo.Valid() && Models(repo.Snapshot(), Effect(ref, call, out))
    ensures Truthful(ref, call, out)
    ensures !Leaky(call) ==> repo.leaked <= old(repo.leaked)
    ensures call.Audit? && A.Quiescent(old(repo.Snapshot()), call.cutoff) ==> repo.leaked == multiset{}
  {
    match call
    case Put(n, bytes, fault) => out := PerformPut(repo, n, bytes, fault, now, ref);
    case Bind(n, c, fault) => out := PerformBind(repo, n, c, fault, now, ref);
    case Unbind(n) => out := PerformUnbind(repo, n, ref);
    case Get(n) =>
      var r := repo.Get(n);
      LatestIsLast(repo.index.names, n);
      out := Read(r);
    case GetRange(n, offset, len) =>
      var r := repo.GetRange(n, offset, len);
      LatestIsLast(repo.index.names, n);
      out := Read(r);
    case Collect(budget) => out := PerformCollect(repo, budget, ref);
    case Audit(cutoff) =>
      Recover(repo, cutoff, None, ref);
      out := Swept(true);
    case CrashPut(bytes, manifest, cutoff) =>
      PerformCrashPut(repo, bytes, manifest, cutoff, now, ref);
      out := Swept(true);
    case CrashBind(cid, cutoff) =>
      ghost var held := repo.CrashBind(cid, now);
      Recover(repo, cutoff, held, ref);
      out := Swept(true);
  }

  method PerformUnbind(repo: R.Repository, n: Name, ghost ref: Reference) returns (out: Outcome)
    requires repo.Valid() && Models(repo.Snapshot(), ref)
    modifies repo.index
    ensures repo.Valid() && Models(repo.Snapshot(), Effect(ref, Unbind(n), out)) && out == Unbound
  {
    repo.Unbind(n);
    forall c | c in repo.index.objects && !repo.index.objects[c].available ensures ref.cutShort {
      assert repo.Claimed(c);
    }
    out := Unbound;
  }

  method PerformCollect(repo: R.Repository, budget: nat, ghost ref: Reference) returns (out: Outcome)
    requires repo.Valid() && Models(repo.Snapshot(), ref)
    modifies repo.index, repo.content
    ensures repo.Valid() && Models(repo.Snapshot(), Effect(ref, Collect(budget), out)) && out.Swept?
  {
    ghost var s := repo.Snapshot();
    var done, _ := C.Collect(repo, budget);
    C.CollectedKeepsAtRest(s, repo.Snapshot(), repo.content.chunk, repo.leaked);
    SweptModels(s, repo.Snapshot(), repo.content.chunk, repo.leaked, ref, done);
    out := Swept(done);
  }

  method PerformCrashPut(repo: R.Repository, bytes: Bytes, manifest: bool, cutoff: int, now: int, ghost ref: Reference)
    requires repo.Valid() && |bytes| < U64_LIMIT && now <= cutoff && Models(repo.Snapshot(), ref)
    modifies repo, repo.index, repo.content
    ensures repo.Valid() && Models(repo.Snapshot(), ref.(written := ref.written + {bytes}, cutShort := false))
  {
    ghost var held := repo.CrashPut(bytes, now, manifest);
    Recover(repo, cutoff, held, ref.(written := ref.written + {bytes}));
  }

  lemma LatestIsLast(names: Versions, n: Name)
    requires NamesInv(names)
    ensures Latest(R.Decode(names), n) ==
              if n in R.Decode(names) then Ok(R.Decode(names)[n][|R.Decode(names)[n]| - 1]) else Err(NameNotFound)
  {
  }

  method PerformPut(repo: R.Repository, n: Name, bytes: Bytes, fault: R.Fault, now: int, ghost ref: Reference)
    returns (out: Outcome)
    requires repo.Valid() && |bytes| < U64_LIMIT && Models(repo.Snapshot(), ref)
    modifies repo, repo.index, repo.content
    ensures repo.Valid() && Models(repo.Snapshot(), Effect(ref, Put(n, bytes, fault), out))
    ensures Truthful(ref, Put(n, bytes, fault), out)
    ensures !Leaky(Put(n, bytes, fault)) ==> repo.leaked == old(repo.leaked)
  {
    ghost var s := repo.Snapshot();
    if Named(ref.histories, bytes) { NamedIsLive(s, repo.content.chunk, repo.leaked, bytes); }
    var r, lost := repo.Put(n, bytes, now, fault);
    forall c | c in repo.content.manifests ensures c.preimage in ref.written + {bytes} {
      assert c in s.manifests || c == Cid(bytes);
    }
    forall c | c in repo.index.objects && !repo.index.objects[c].available ensures ref.cutShort {
      assert repo.Claimed(c);
    }
    out := Stored(r);
  }

  method PerformBind(repo: R.Repository, n: Name, c: Cid, fault: R.Fault, now: int, ghost ref: Reference)
    returns (out: Outcome)
    requires repo.Valid() && Models(repo.Snapshot(), ref)
    modifies repo, repo.index
    ensures repo.Valid() && Models(repo.Snapshot(), Effect(ref, Bind(n, c, fault), out))
    ensures Truthful(ref, Bind(n, c, fault), out)
    ensures !Leaky(Bind(n, c, fault)) ==> repo.leaked == old(repo.leaked)
  {
    ghost var s := repo.Snapshot();
    assert Cid(c.preimage) == c;
    if Named(ref.histories, c.preimage) { NamedIsLive(s, repo.content.chunk, repo.leaked, c.preimage); }
    var r, lost := repo.Bind(n, c, now, fault);
    forall d | d in repo.index.objects && !repo.index.objects[d].available ensures ref.cutShort {
      assert repo.Claimed(d);
    }
    out := Bound(r);
  }

  /** Every run refines the reference: each read returns what it holds, each successful write
      extends it, a write fails only for a cause, and nothing else changes it: no refused call,
      no pass cut short anywhere, no audit, no process that dies in the middle. */
  method Run(repo: R.Repository, calls: seq<Call>, clock: nat -> int, ghost ref: Reference) returns (outs: seq<Outcome>)
    requires repo.Valid() && Models(repo.Snapshot(), ref)
    requires forall i | 0 <= i < |calls| :: Admissible(calls[i], clock(i))
    modifies repo, repo.index, repo.content
    ensures |outs| == |calls| && repo.Valid()
    ensures AllTruthful(ref, calls, outs) && Models(repo.Snapshot(), Replay(ref, calls, outs))
    ensures (forall i | 0 <= i < |calls| :: !Leaky(calls[i])) ==> repo.leaked <= old(repo.leaked)
  {
    outs := [];
    for i := 0 to |calls|
      invariant |outs| == i && repo.Valid()
      invariant AllTruthful(ref, calls[..i], outs) && Models(repo.Snapshot(), Replay(ref, calls[..i], outs))
      invariant (forall j | 0 <= j < i :: !Leaky(calls[j])) ==> repo.leaked <= old(repo.leaked)
    {
      var out := Perform(repo, calls[i], clock(i), Replay(ref, calls[..i], outs));
      ExtendRun(ref, calls, outs, i, out);
      outs := outs + [out];
    }
    assert calls[..|calls|] == calls;
  }

  /** From an empty store: whatever the calls, faults and clock. */
  method RunNew(chunk: Chunker, digest: R.Digest, calls: seq<Call>, clock: nat -> int)
    returns (repo: R.Repository, outs: seq<Outcome>)
    requires Partitions(chunk) && R.Injective(digest)
    requires forall i | 0 <= i < |calls| :: Admissible(calls[i], clock(i))
    ensures |outs| == |calls| && repo.Valid()
    ensures AllTruthful(Reference(map[], {}, false), calls, outs)
    ensures repo.Contents() == Replay(Reference(map[], {}, false), calls, outs).histories
    ensures (forall i | 0 <= i < |calls| :: !Leaky(calls[i])) ==> AtRest(repo.Snapshot(), repo.content.chunk, multiset{})
  {
    repo := new R.Repository(chunk, digest);
    outs := Run(repo, calls, clock, Reference(map[], {}, false));
    if forall i | 0 <= i < |calls| :: !Leaky(calls[i]) {
      assert repo.leaked == multiset{};
    }
  }

  lemma ExtendRun(ref: Reference, calls: seq<Call>, outs: seq<Outcome>, i: nat, out: Outcome)
    requires i < |calls| && |outs| == i && AllTruthful(ref, calls[..i], outs)
    requires Truthful(Replay(ref, calls[..i], outs), calls[i], out)
    ensures AllTruthful(ref, calls[..i + 1], outs + [out])
    ensures Replay(ref, calls[..i + 1], outs + [out]) == Effect(Replay(ref, calls[..i], outs), calls[i], out)
  {
    assert calls[..i + 1][..i] == calls[..i] && (outs + [out])[..i] == outs;
  }

  // ---- Counts ----------------------------------------------------------------

  /** The objects that hold an edge to `b`. */
  ghost function Holders(s: Store, b: Key): set<Cid> {
    set e | e in EdgesTo(s.edges, b) :: e.owner
  }

  lemma HoldersCount(s: Store, b: Key)
    ensures |Holders(s, b)| == |EdgesTo(s.edges, b)|
  {
    OwnersCount(EdgesTo(s.edges, b), b.hash);
  }

  lemma {:induction false} OwnersCount(es: set<Edge>, h: Cid)
    requires forall e | e in es :: e.block == h
    ensures |set e | e in es :: e.owner| == |es|
    decreases es
  {
    if es != {} {
      var e :| e in es;
      OwnersCount(es - {e}, h);
      var rest := set d | d in es - {e} :: d.owner;
      assert e.owner !in rest;
      assert (set d | d in es :: d.owner) == rest + {e.owner};
    }
  }

  /** With nothing leaked, every count is exact: an object's is its number of name versions,
      a block generation's is the number of live objects with an edge to it; and an object
      has edges exactly when it is live, to the generations its manifest lists. */
  lemma CountsExact(s: Store, chunk: Chunker)
    requires AtRest(s, chunk, multiset{})
    ensures forall c | c in s.objects :: s.objects[c].refcount == |Refs(s.names, c)|
    ensures forall b | b in s.blocks :: s.blocks[b].refcount == |Holders(s, b)|
    ensures forall b, c | b in s.blocks && c in Holders(s, b) :: c in s.objects && s.objects[c].refcount > 0
    ensures forall c :: |Refs(s.names, c)| > 0 ==> c in s.manifests && EdgesMatch(s.edges, c, s.manifests[c])
    ensures forall c :: |Refs(s.names, c)| == 0 ==> NoEdges(s.edges, c)
  {
    forall c
      ensures c in s.objects ==> s.objects[c].refcount == |Refs(s.names, c)|
      ensures |Refs(s.names, c)| > 0 ==> c in s.objects && c in s.manifests && EdgesMatch(s.edges, c, s.manifests[c])
      ensures |Refs(s.names, c)| == 0 ==> NoEdges(s.edges, c)
    {
      assert ObjectInv(s, chunk, None, c);
    }
    forall b | b in s.blocks ensures s.blocks[b].refcount == |Holders(s, b)| {
      assert BlockInv(s, multiset{}, b);
      HoldersCount(s, b);
    }
  }
}

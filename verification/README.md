# Verified model of factor-q's store, scheduler and grants

A Dafny 4.11 model of three components of factor-q, with proofs about every run of each.
`dafny verify dfyconfig.toml` checks all of it.

**The content store** (`services/fq-store`). Content is cut into blocks, blocks are written
as generations of files, a manifest lists an object's blocks, and names hold versions of
objects. Two levels of reference counts decide what the collector may remove. It is modelled
at four grain sizes:

- whole calls, one after another, with a failing write or index call at any point before a
  call starts to give its reservations back, collector passes cut short after any step, and
  processes that die in the middle of a call (`FileStore`, `Index`, `StoreModel`, `Repository`,
  `Collector`, `Audit`, `Session`): classes with the tables and files as fields, refining a
  plain map from names to content histories;
- the block protocol as interleaved atomic steps with crashes (`BlockProtocol`,
  `BlockIncidents`);
- the object and manifest protocol as interleaved atomic steps with crashes
  (`ObjectProtocol`);
- names, objects, manifests, edges, block generations and files together, as interleaved
  atomic steps of calls, unbinds, a collector, the audit's reconciles and crashes
  (`EdgeProtocol`, `EdgeSerial`, `EdgeCounts`, `EdgeIncidents`).

`Incidents` runs the operations on inputs where a tempting promise is false.

**The cron adapter** (`adapters/fq-cron`). `Valve` has the sliding window over per-job
ledgers, `Ledger` compares trimmed ledgers with the whole history, `Planner` picks slots and
applies the ceiling, `Scheduler` runs the load, plan, publish, record cycle under an arbitrary
script of delays, publisher answers, reloads and lost rows.

**Grants** (`services/fq-store`). `Grants` is the reference model, `GrantLog` the durable log
with its projection and outbox, `Gate` the checks in front of the store.

`Prelude`, `Versions` and `Namespaces` hold what these share: content ids, version histories,
and dotted names with their byte order.

## Premises

- Content ids are injective: `Cid` is a free constructor over the bytes. The order of hash
  bytes is that of an arbitrary injective number per id. The chunker is any deterministic
  function that cuts content into consecutive pieces.
- Each index call and each file operation is one atomic step. There is one collector at a
  time, since an unavailable row is adopted without a compare-and-swap
  (`services/fq-store/src/collector.rs:50-53`).
- Content is shorter than 2^64 bytes, the width of a manifest's size field.
- At whole-call grain no call runs inside a collector or audit pass; `Session.Run` rests on it.
  `EdgeProtocol` lets every step of a pass fall between the steps of calls, and
  `Incidents.AliasReadsCorrupt` shows whole calls inside one pass that break a read.
- At whole-call grain the exact counts assume that a call that died holding an object is
  audited away, once at rest, before the next call: `bind` decides from the count before its
  own reserve whether edges exist. `Audit.StrayReservationLosesBytes` shows what happens
  without it, and `EdgeProtocol` gives the exact condition on every bind. The manifest-level
  claims of `ObjectProtocol` do not need it.
- The audit's grace outlasts every call. The code only compares `touched_at` with a cutoff;
  `BlockProtocol`, `ObjectProtocol` and `EdgeProtocol` let a reconcile step lower a row only
  while no call holds it, and not below the edges of live objects or the versions then there.
- The code splits materialise into writing a file and inserting its row, where the checked
  design has one step. `EdgeProtocol` has the one step. `BlockProtocol` keeps the split; its
  safety theorem is an equivalence with "every accepted mint still finds its file", and the
  premise that gives this is that no unlink of a generation falls between a writer's write and
  its mint.
- The scheduler's clock does not go backwards, the job set and the ceiling are fixed, a
  schedule's next slot is strictly later, and job names are distinct. The ceiling theorem
  excludes lost state rows; the slot theorem allows them.
- A capability token is a bearer and an arbitrary predicate of what it permits.

## Where the code and its documentation differ

- An alias takes the available generation of each block to be the one the manifest lists,
  which its comment says of a live object (`services/fq-store/src/repository.rs:158-161`). The code
  does not ask for a live object. It is false of a dead one that is not yet collected, once its
  block has been reclaimed and minted again. The alias succeeds and its name cannot be read:
  `Incidents.AliasReadsCorrupt` on the operations, and
  `EdgeIncidents.AliasOfDeadObjectIsUnreadable` step by step. `EdgeProtocol.EveryRunKeepsPinsIff`
  says exactly which binds are safe.
- A failed put or alias does not always give its reservations back: each returns at once when a
  block or object call fails (`services/fq-store/src/repository.rs:69-94` and `:162-175`).
  `Repository.LeaksIff` and `Repository.AliasLeaksIff` say exactly when that leaks and
  `Incidents.FailedPutLeaks` shows it. An alias also returns at once, with no failure at all, when
  a collector has just claimed one of its blocks (`:162-166`); that is the `Abandon` step of
  `EdgeProtocol`. The counts stay high until the audit lowers them.
- The audit speaks of one pass returning counts to the truth. Block truth is computed before
  the same pass lowers objects, so blocks of an object that dies in a pass are only lowered by
  the next one. `Audit.AuditFixesBlocksIff` says exactly when one pass is enough,
  `Incidents.OnePassLeavesDrift` shows a run where it is not, and two passes always suffice.
- The gate describes a listing as the `prefix.*` subtree. The index also returns `prefix`
  itself when it is bound, and so does the model.
- `docs/design/committed/storage-gc-check.py` compares a count with bound references only. The
  model's I4 also counts held reservations.

## Model

| member | source | states |
|---|---|---|
| `FileStore.FilesystemStore.Get` | services/fq-store/src/fs.rs:180-190 | Concatenates a manifest's blocks in order; an absent manifest is NotFound, a missing block file is Corrupt |
| `FileStore.FilesystemStore.GetRange` | services/fq-store/src/fs.rs:192-218 | For a well-formed manifest and every 64-bit offset and length, exactly the clamped slice of what Get returns; the saturating end never changes the answer |
| `FileStore.FilesystemStore.ReadRange` | services/fq-store/src/fs.rs:192-218 | The block walk alone: skips blocks before the range, stops past it, and yields the bytes of the range |
| `FileStore.SliceMeans` | services/fq-store/src/fs.rs:192-218 | That slice has the length asked for or what is left from the offset, and holds the bytes from the offset on |
| `FileStore.RangeStep` | services/fq-store/src/fs.rs:200-216 | One more block adds exactly that block's overlap with the range, so partial answers stay prefixes of the slice |
| `FileStore.ContentsPrefix` | services/fq-store/src/fs.rs:180-190 | Reading a prefix of the blocks gives a prefix of the content, of the summed length |
| `FileStore.FilesystemStore.Blocks` | services/fq-store/src/fs.rs:247-254 | The manifest's block hashes in order, or NotFound |
| `FileStore.FilesystemStore.WriteBlock` | services/fq-store/src/fs.rs:290-297 | Creates the file of one generation; a file already there is left untouched |
| `FileStore.FilesystemStore.WriteObject` | services/fq-store/src/fs.rs:299-315 | Stores the manifest and touches nothing else |
| `FileStore.FilesystemStore.Remove` | services/fq-store/src/fs.rs:256-258 | Removes the manifest and no block file |
| `FileStore.FilesystemStore.RemoveBlock` | services/fq-store/src/fs.rs:264-268 | Removes one generation's file only |
| `Namespaces.RangeIsDescendants` | services/fq-store/src/index.rs:459-477 | The scan from `prefix.` up to `prefix/` holds a name if and only if it is a strict dotted descendant of the prefix |
| `Namespaces.SelectsIsCovers` | services/fq-store/src/index.rs:459-477 | The whole WHERE clause is segment-aware containment |
| `Namespaces.CoversTransitive` | services/fq-store/src/grants.rs:206-209 | Containment is transitive, so a subtree of a covered name is covered |
| `Index.SqliteNameIndex.ReserveBlock` | services/fq-store/src/index.rs:617-627 | Counts up every available generation of the hash, exactly the returned one when at most one is available; None exactly when there is none, and then nothing changes |
| `Index.SqliteNameIndex.MintBlock` | services/fq-store/src/index.rs:629-645 | Inserts the row at count one exactly when no generation of the hash is available and the row is new |
| `Index.SqliteNameIndex.NextGeneration` | services/fq-store/src/index.rs:669-680 | The least generation with no row |
| `Index.SqliteNameIndex.ReleaseBlock` | services/fq-store/src/index.rs:695-702 | Counts one generation down by one and changes no other row |
| `Index.SqliteNameIndex.ClaimBlock` | services/fq-store/src/index.rs:682-693 | Succeeds exactly on a zero-count available row, which becomes unavailable |
| `Index.SqliteNameIndex.ReconcileBlock` | services/fq-store/src/index.rs:647-667 | Lowers a count exactly when it is above the target and the row has been at rest since the cutoff |
| `Index.SqliteNameIndex.ClaimableBlocks` | services/fq-store/src/index.rs:704-712 | Lists every zero-count row once, with its availability |
| `Index.SqliteNameIndex.DeleteBlock` | services/fq-store/src/index.rs:714-724 | Deletes exactly a zero-count unavailable row |
| `Index.SqliteNameIndex.ReserveObject` | services/fq-store/src/index.rs:726-769 | Returns the count before the reserve; None exactly when claimed, or absent and not to be created |
| `Index.SqliteNameIndex.ReleaseObject` | services/fq-store/src/index.rs:771-777 | Counts one object down by one |
| `Index.SqliteNameIndex.ReconcileObject` | services/fq-store/src/index.rs:779-797 | The object twin of ReconcileBlock |
| `Index.SqliteNameIndex.ClaimObject` | services/fq-store/src/index.rs:799-809 | The object twin of ClaimBlock |
| `Index.SqliteNameIndex.ClaimableObjects` | services/fq-store/src/index.rs:811-819 | Lists every zero-count object once, with its availability |
| `Index.SqliteNameIndex.DeleteObject` | services/fq-store/src/index.rs:821-845 | Deletes a claimed dead object together with exactly its own edges |
| `Index.SqliteNameIndex.Bind` | services/fq-store/src/index.rs:377-447 | Current already: gives every reservation back. Otherwise one new version, and the reservations become edges exactly when the count before was zero |
| `Index.SqliteNameIndex.Unbind` | services/fq-store/src/index.rs:480-531 | The loop over versions and dying objects computes the order-free result: name gone, each object down by its versions in it, edges of objects that died dropped and their blocks lowered once per edge |
| `Index.SqliteNameIndex.List` | services/fq-store/src/index.rs:459-477 | Sorted, and exactly the bound names contained in the prefix; all names for the empty prefix |
| `StoreModel.BindKeeps` | services/fq-store/src/index.rs:377-447 | Whichever way bind hands the reservations on, exact counts and exact edges hold afterwards and none of this call's reservations is outstanding |
| `StoreModel.GoLiveKeeps` | services/fq-store/src/index.rs:426-439 | Turning reservations into edges keeps every block count equal to edges plus outstanding reservations |
| `StoreModel.ExistingEdgeWins` | services/fq-store/src/index.rs:425-436 | Recording edges leaves every edge that is there as it is |
| `StoreModel.WriteManifestKeeps` | services/fq-store/src/fs.rs:299-315 | Rewriting the manifest of a reserved object keeps it on available generations; if the object is live it is the same manifest |
| `StoreModel.UnboundByIsUnbound` | services/fq-store/src/index.rs:480-531 | Dropping the objects of a name one at a time, in any order, gives the same tables |
| `StoreModel.UnbindKeeps` | services/fq-store/src/index.rs:480-531 | Exact counts and edges hold after an unbind |
| `StoreModel.ManifestReads` | services/fq-store/src/fs.rs:180-190 | While the store's invariant holds, the manifest of an object reads back to that object's content |
| `Repository.Repository.ReserveOrMaterialize` | services/fq-store/src/repository.rs:283-294 | Fails exactly when an index call on this block fails or its file must be written and is not; on success the block is reserved on an available generation whose file exists; on failure nothing is reserved, and no other block changes availability |
| `Repository.Repository.ReserveChunks` | services/fq-store/src/repository.rs:61-83 | Succeeds exactly when no chunk fails; success or not, what is outstanding is one reservation, on an available generation, of each distinct chunk before the failing one, or of all |
| `Repository.Repository.ReserveForPut` | services/fq-store/src/repository.rs:84-108 | Refused, after all 128 attempts, exactly when the object is claimed; otherwise the first attempt reports the count before the reserve and stamps the row with the time of the call |
| `Repository.Repository.WriteAndBind` | services/fq-store/src/repository.rs:109-138 | Either the name gains exactly this version (none if current) or, at every failing step, names are unchanged and every reservation is given back |
| `Repository.Repository.Put` | services/fq-store/src/repository.rs:61-138 | The result is determined by the rows, the content and the fault; success extends the history by the bytes unless current, every failure leaves all histories alone; the reservations never given back are exactly those of the blocks before a failing block, of all blocks when the object call fails, and otherwise none; the rows of the object and of every block, and those left reserved, carry the time of the call |
| `Repository.LeaksIff` | services/fq-store/src/repository.rs:61-138 | A put leaks if and only if a block other than its first fails, or its object call fails with a block reserved |
| `Incidents.FailedPutLeaks` | services/fq-store/src/repository.rs:69-78 | On a two-chunk content whose second block write fails, the put is refused and the first block stays reserved, on any two distinct chunks |
| `Repository.Repository.ReleaseReservations` | services/fq-store/src/repository.rs:140-148 | Gives back exactly the listed reservations |
| `Repository.Dedup` | services/fq-store/src/repository.rs:153-155 | The distinct hashes of the block list in ascending order of their bytes, for any injective reading of the bytes |
| `Repository.Repository.ReserveAlias` | services/fq-store/src/repository.rs:156-175 | Success reserves exactly the generations the manifest lists; a failing block call leaves exactly the blocks with smaller hashes reserved, a failing object call all of them |
| `Repository.AliasLeaksIff` | services/fq-store/src/repository.rs:152-217 | An alias leaks if and only if the call on a block other than the one with the smallest hash fails, or its object call fails and it has a block |
| `Repository.Repository.Bind` | services/fq-store/src/repository.rs:152-217 | The alias result is determined by manifest, rows and fault; it extends the history or changes nothing; the reservations never given back are exactly those of the blocks whose hash is smaller than the failing one, of all blocks when the object call fails, and otherwise none; the rows of the object and of every listed generation, and those left reserved, carry the time of the call |
| `Repository.Repository.CrashPut` | services/fq-store/src/repository.rs:84-127 | A put that dies after its object reserve, before or after its manifest: names unchanged, and every count exact but for what it held |
| `Repository.Repository.CrashBind` | services/fq-store/src/repository.rs:152-183 | The same for an alias that dies after its object reserve |
| `Repository.Repository.Unbind` | services/fq-store/src/repository.rs:239-241 | Removes one history and keeps the invariant |
| `Repository.Repository.Get` | services/fq-store/src/repository.rs:226-230 | The last content bound, or NameNotFound; never NotFound or Corrupt |
| `Repository.Repository.GetRange` | services/fq-store/src/repository.rs:232-236 | The clamped slice of the last content bound |
| `Repository.DecodeExtends` | services/fq-store/src/index.rs:398-424 | Appending a version unless current is, on contents, extending the history unless the content is current |
| `Collector.Collect` | services/fq-store/src/collector.rs:38-84 | A pass cut short anywhere has only claimed, unlinked and deleted dead rows, in that order and objects before blocks; a complete one leaves no dead row; the counters equal the rows removed |
| `Collector.ReclaimObject` | services/fq-store/src/collector.rs:47-67 | Claim or adopt, unlink, delete, cut short after any step |
| `Collector.ReclaimBlock` | services/fq-store/src/collector.rs:69-81 | The same for a block generation |
| `Collector.CollectedKeepsAtRest` | services/fq-store/src/collector.rs:38-84 | Whatever a pass has done so far, names, exact counts, edges, manifests and every reachable file are intact |
| `Collector.CollectedKeepsInFlight` | services/fq-store/src/collector.rs:38-84 | The same beside a call in progress that holds its object and the blocks of its manifest |
| `Session.Perform` | services/fq-store/src/repository.rs:61-241 | One call, audit or death of a process followed by an audit refines one step of the reference: histories, contents ever put, and whether a pass was cut short |
| `Session.Run` | services/fq-store/src/repository.rs:61-241 | Every run refines that reference: reads are exact, a put fails only for a fault or because its unnamed content was left claimed by a pass cut short, an alias of named content fails only for a fault and one of content never put never succeeds, and nothing else changes a history |
| `Session.RunNew` | services/fq-store/src/repository.rs:61-241 | The same from an empty store, with no premise on the state; with no leaking call every count is exact at the end |
| `Session.Recover` | services/fq-store/src/audit.rs:58-110 | An audit after a call abandoned at any step gives back a store that meets every promise between calls |
| `Session.CountsExact` | services/fq-store/src/index.rs:377-531 | With nothing leaked, an object's count is its number of name versions, a generation's is the number of live objects with an edge to it, and an object has edges exactly when it is live, at its manifest's generations |
| `Audit.DerivedRefcounts` | services/fq-store/src/audit.rs:170-179 | For every generation, the number of live objects with an edge to it |
| `Audit.ReconcileBlocks` | services/fq-store/src/audit.rs:75-90 | Every count at rest above the truth of the snapshot is lowered to it, no other row changes, and the counter is the number of rows lowered |
| `Audit.ReconcileObjects` | services/fq-store/src/audit.rs:99-105 | The same for objects against name versions |
| `Audit.Audit` | services/fq-store/src/audit.rs:58-110 | Phases 1 and 2 leave what reconciling and a complete collector pass leave, and the report counts the rows lowered and the rows removed |
| `Audit.AbandonedCallDrifts` | services/fq-store/src/audit.rs:66-73 | A call abandoned between any two steps leaves a store the audit accepts: named objects complete, counts at or above the truth |
| `Audit.FirstVersionGetsEdgesIff` | services/fq-store/src/index.rs:398-443 | The first version of an object with blocks gets its edges if and only if bind is told the count was zero |
| `Audit.StrayReservationLosesBytes` | services/fq-store/src/index.rs:398-443 | After a put abandoned with its manifest written, a second put of the content finds a count of one, binds without edges, and the next audit at rest deletes the block file its name reaches |
| `Incidents.AbandonedPutCostsBytes` | services/fq-store/src/index.rs:398-443 | That run on the operations themselves, for every name and content |
| `Audit.ReconcileKeepsDrift` | services/fq-store/src/audit.rs:75-105 | Lowering never takes a count below the truth, although objects may die in the same phase |
| `Audit.AuditIsSafe` | services/fq-store/src/audit.rs:66-110 | A pass keeps the premise, the names, and every manifest and block file a name reaches |
| `Audit.AuditFixesObjects` | services/fq-store/src/audit.rs:99-110 | One pass at rest makes object counts exact with no dead object left |
| `Audit.AuditFixesBlocksIff` | services/fq-store/src/audit.rs:75-110 | One pass at rest makes block counts exact if and only if every live object with edges is named |
| `Audit.UnbindKeepsDrift` | services/fq-store/src/index.rs:480-531 | An unbind keeps the audit's premise, stray reservations and all |
| `Audit.OnePassFallsShort` | services/fq-store/src/index.rs:497-527 | A put abandoned on a named object, then its last name unbound: the next pass at rest leaves block counts above the truth |
| `Incidents.OnePassLeavesDrift` | services/fq-store/src/audit.rs:75-110 | That run on the operations themselves, for every name and content |
| `Audit.TwoPassesRepair` | services/fq-store/src/audit.rs:66-110 | Two passes at rest, each with its own cutoff, leave every count exact and positive, no zero-count row, and everything reachable in place |
| `Audit.AuditRestores` | services/fq-store/src/audit.rs:66-110 | One pass after a call abandoned at any step restores what holds between calls, keeping only reservations on rows touched since the cutoff; at rest none, so every count is exact |
| `Audit.YoungRowsAreKept` | services/fq-store/src/audit.rs:66-101 | A row touched since the cutoff keeps its count, and if that is above zero its manifest or file, whatever the truth is |
| `Audit.AuditSparesCalls` | services/fq-store/src/audit.rs:66-110 | A pass beside a call whose rows have been touched since the cutoff leaves that call its object, its manifest and its blocks, and everything a store promises between the steps of the call |
| `Audit.DriftedAreLowered` | services/fq-store/src/audit.rs:75-101 | The rows the report counts are exactly those whose count the pass lowers, and it changes no other |
| `BlockProtocol.StepKeepsInv` | docs/design/committed/storage-gc-check.py:63-145 | Every step of any writer, the collector, the reconcile or a crash keeps the inductive invariant, unless it is an accepted mint whose file has gone |
| `BlockProtocol.EveryRunIsSafeIff` | docs/design/committed/storage-gc-check.py:63-169 | For any number of hashes, generations and writers and crashes anywhere, S1 and I1 to I4 hold throughout a run if and only if every accepted mint still finds its file |
| `BlockProtocol.EverySparedRunIsSafe` | docs/design/committed/storage-gc-check.py:63-169 | With write-then-mint undisturbed by an unlink of the same generation, every reachable state is safe: the model checker's theorem without its bounds |
| `BlockProtocol.EveryCountIsAccountedFor` | docs/design/committed/storage-gc-check.py:63-145 | In every run, safe or not, a count is the bound references plus the reservations held plus those lost in crashes since the row was last reconciled |
| `BlockProtocol.UnreferencedIsReclaimable` | docs/design/committed/storage-gc-check.py:113-139 | Without a crash the collector at rest may claim an available generation if and only if nothing refers to it and no writer holds it; its three steps then remove the row and the file and nothing else |
| `BlockProtocol.WritersAreNeverStuck` | docs/design/committed/storage-gc-check.py:63-107 | In every state the counts can reach each writer has a step: an idle one for any hash, one with a reservation to bind it or to give it back |
| `BlockProtocol.CrashIsRecoverable` | docs/design/committed/storage-gc-check.py:79-145 | After a crash every interrupted claim can be adopted and every count left too high can be lowered to the references there are |
| `BlockIncidents.UnsparedRunLosesALiveBlock` | services/fq-store/src/repository.rs:283-294 | Without that premise a run exists that binds a generation whose file is gone: the split of the atomic materialise step matters |
| `BlockIncidents.UnsyncedCrashLosesALiveBlock` | docs/design/committed/storage-gc-check.py:79-96 | Without fsync before insert a crash loses a bound block's file |
| `ObjectProtocol.StepKeepsInv` | services/fq-store/src/index.rs:726-845 | Every step of a put, alias, unbind, failing call, collector, reconcile or crash keeps the inductive invariant |
| `ObjectProtocol.EveryRunResolves` | services/fq-store/src/repository.rs:84-217 | In every interleaving no version of any name lacks its manifest, and counts never fall below versions plus held reservations |
| `ObjectProtocol.EveryCountIsAccountedFor` | services/fq-store/src/index.rs:726-845 | In every run a count is the versions that name the object plus the reservations held plus those lost in crashes since the row was last reconciled |
| `ObjectProtocol.UnreferencedIsReclaimable` | services/fq-store/src/collector.rs:43-66 | Without a crash the collector at rest may claim an object if and only if no version names it and no call holds it; its three steps then remove the row and the manifest and nothing else |
| `ObjectProtocol.CallsAreNeverStuck` | services/fq-store/src/repository.rs:84-217 | Each call always has a step, a holder may always give up, and what an idle call may begin is exactly what the rows and manifests allow |
| `ObjectProtocol.CrashIsRecoverable` | services/fq-store/src/audit.rs:92-110 | After a crash every interrupted claim can be adopted and every count left too high can be lowered to the versions there are |
| `ObjectProtocol.EveryRunHasNoRepeats` | services/fq-store/src/index.rs:377-443 | However calls overlap, no name has one object in two versions running |
| `ObjectProtocol.UnrevalidatedAliasLosesManifest` | services/fq-store/src/repository.rs:178-204 | Without the alias's second look at the manifest a run exists in which a name resolves to a missing manifest, after a full reclaim and re-creation of the same content |
| `EdgeProtocol.CallKeepsPinned` | services/fq-store/src/repository.rs:61-217 | No step of a put or alias except its bind, and no failing or abandoned call, unpins a named object or leaves a pin or a reservation uncounted |
| `EdgeProtocol.RewriteKeepsEdges` | services/fq-store/src/repository.rs:115-124 | A put of named content rewrites its manifest with the generations it already lists, so its edges still match |
| `EdgeProtocol.OtherKeepsPinned` | services/fq-store/src/audit.rs:66-110 | Nor does any unbind, claim, adoption, unlink, delete, reconcile of either kind, or crash, wherever it falls between the steps of calls |
| `EdgeProtocol.BindCountedIff` | services/fq-store/src/index.rs:398-443 | A bind leaves a block counted if and only if it does not newly pin it, turns its own reservation into the pin, or there was a reference to spare |
| `EdgeProtocol.StepKeepsGoodIff` | services/fq-store/src/index.rs:377-531 | Every step keeps object counts at or above versions plus reservations, at most one available generation per hash with its file, and claimed rows at zero; it keeps every named object pinned where its manifest says if and only if it is guarded |
| `EdgeProtocol.EveryRunKeepsPinsIff` | services/fq-store/src/index.rs:398-443 | In every interleaving of puts, aliases, failing and abandoned calls, unbinds, collector steps, reconciles and crashes, every named object's edges are the generations its manifest lists, all counted, throughout, if and only if every bind that revives an object finds each listed generation already pinned with a reference to spare, or pins it there with its own reservation |
| `EdgeProtocol.GuardedRunsKeepBlocks` | services/fq-store/src/collector.rs:43-86 | In such runs the file of every generation that a named object's manifest lists is there at every step |
| `EdgeSerial.SerialBindIsGuarded` | services/fq-store/src/repository.rs:158-217 | A bind meets that condition when counts are exact, every edge is covered, and its caller is the only one that holds the object |
| `EdgeSerial.EverySerialRunKeepsBlocks` | services/fq-store/src/index.rs:377-531 | Calls and passes that interleave freely keep every block if no object is reserved by two calls at once, an alias of a dead object holds the generations its manifest lists, a block is reconciled only while the owners of its edges are live, and no process dies holding an object |
| `EdgeCounts.EveryCountIsAccountedFor` | services/fq-store/src/index.rs:377-531 | In every guarded run object counts are versions plus reservations plus what crashes and reconciles left, and block counts are edges plus reservations plus what crashes, abandoned calls, binds onto an existing edge, deleted objects and reconciles left, step by step |
| `EdgeCounts.EveryTidyRunIsExact` | services/fq-store/src/collector.rs:43-84 | In serial runs where no call is abandoned or dies, or gives up an object all others have let go of, both counts are exact and the collector may claim a block or an object if and only if nothing refers to it and no call holds it |
| `EdgeCounts.CallsAreNeverStuck` | services/fq-store/src/repository.rs:61-217 | Whatever the others do each call has a step, and which of reserve, second look, bind, release and end is exactly what its own state and the rows allow |
| `EdgeCounts.BlocksCanBeTaken` | services/fq-store/src/repository.rs:283-294 | A put can always take a block it lacks, the available generation or a fresh one; an alias exactly when there is one |
| `EdgeCounts.BlockIsReclaimed` | services/fq-store/src/collector.rs:68-84 | Claim, unlink and delete remove a block's row and file and nothing else |
| `EdgeCounts.ObjectIsReclaimed` | services/fq-store/src/collector.rs:43-66 | Claim, unlink and delete remove an object's row, manifest and edges and nothing else |
| `EdgeCounts.CrashIsRecoverable` | services/fq-store/src/audit.rs:66-110 | After a crash every count left too high can be lowered, objects to the versions and blocks to the edges of live objects |
| `EdgeCounts.RunHasNoRepeats` | services/fq-store/src/index.rs:377-443 | However calls overlap, no name has one object in two versions running |
| `EdgeIncidents.OverlappingPutsLoseBlocks` | services/fq-store/src/index.rs:398-443 | Two overlapping puts of one content to one name lose its block, with no failure and no crash |
| `EdgeIncidents.AliasOfDeadObjectIsUnreadable` | services/fq-store/src/repository.rs:152-217 | With no overlap, failure or crash, an alias of a dead object whose block was reclaimed and minted again binds, unguarded, and its manifest lists a generation without a file |
| `Incidents.AliasReadsCorrupt` | services/fq-store/src/repository.rs:152-217 | That run on the operations themselves, for all names and contents: the alias goes through, the name is current, and the read is Corrupt |
| `Valve.RecordFire` | adapters/fq-cron/plan.go:181-195 | The loop and the trim compute the recorded row: the slot, the instant of publication, and between one and ceiling instants, the newest last |
| `Valve.SupersededFire` | adapters/fq-cron/plan.go:201-204 | The publication history a superseded fire leaves is the one it found; only the slot moves |
| `Valve.OldRowFolds` | adapters/fq-cron/plan.go:154-195 | A row from before the ledger counts as its one publication and folds into the ledger at the next fire while it is in the window and the ceiling has room |
| `Valve.EffectiveLimit` | adapters/fq-cron/plan.go:208-213 | At least one; the configured ceiling, or 120 when that is not positive |
| `Valve.FiresInWindow` | adapters/fq-cron/plan.go:140-152 | Sorted, inside the window, and after every instant of it as many fires as the ledgers of all jobs hold |
| `Valve.ReopensEarliest` | adapters/fq-cron/plan.go:117-129 | With no fire in the future the reopen instant is the earliest at which the count is under the ceiling: at or above it before, under it then, ties and excess included |
| `Ledger.RecordKeepsTrimmed` | adapters/fq-cron/plan.go:181-195 | Recording keeps a ledger the newest part of the job's history, having dropped only what is out of the window or has a full ledger after it |
| `Ledger.RecordedTracks` | adapters/fq-cron/plan.go:167-195 | Recording any ordered history fire by fire leaves ledgers that all trim it soundly |
| `Ledger.UntrimmedIsHistory` | adapters/fq-cron/plan.go:140-152 | Counting job by job counts every publication once |
| `Ledger.TrimIsExact` | adapters/fq-cron/plan.go:167-178 | For every history under one ceiling, planning from the trimmed ledgers and from the whole history gives the same open or closed answer, the same allowance and the same reopen instant |
| `Planner.NextSlot` | adapters/fq-cron/plan.go:78-99 | Both catch-up loops end; no state takes the next slot after now, a slot not yet missed is kept, skip takes the first reached slot after now, once the last reached slot not after now; always later than the last one |
| `Planner.SlotIsUnique` | adapters/fq-cron/plan.go:78-99 | The policy determines the slot |
| `Planner.MissedSlot` | adapters/fq-cron/plan.go:85-98 | On a schedule given by a set of slots, a missed skip job takes the first slot after now and a missed once job the latest slot not after now |
| `Planner.CandidateOf` | adapters/fq-cron/plan.go:65-106 | A job has exactly one eligible fire, or none when disabled, unparsable or unrenderable |
| `Planner.Candidates` | adapters/fq-cron/plan.go:64-115 | Every eligible fire once, slots ascending and names ascending within a slot |
| `Planner.Plan` | adapters/fq-cron/plan.go:63-134 | Closed: no fires and a reopen instant from the window. Open: the earliest candidates, as many as the ceiling has left |
| `Planner.PlanIsDeterministic` | adapters/fq-cron/plan.go:108-133 | The same rows, instant and jobs, in any order, give the same fires in the same order and the same reopen instant |
| `Planner.ClosedUntil` | adapters/fq-cron/plan.go:117-129 | A plan has a reopen instant exactly when the valve is closed, and it is the earliest useful one |
| `Planner.PlanTakesEarliest` | adapters/fq-cron/plan.go:110-133 | Every fire taken has an earlier slot than every candidate left out, or the same slot and a smaller name, and one is left out only when the ceiling is reached |
| `Planner.PlanIsInOrder` | adapters/fq-cron/plan.go:110-133 | A plan's slots ascend, and within a slot its names; with the fires in the window it never exceeds the ceiling |
| `Planner.PlannedFire` | adapters/fq-cron/plan.go:64-106 | A planned fire is of a job that is enabled, parses and renders for its slot; the slot is the first after now for a new job, the next one for a job not late, and for a late one the first after now or with catch-up the latest not after now |
| `Planner.PlanCoversJobs` | adapters/fq-cron/plan.go:64-133 | Every enabled, parsable, renderable job has a fire in the plan unless the ceiling is reached |
| `Scheduler.LoadState` | adapters/fq-cron/loop.go:276-288 | The stored rows of the configured jobs and no others |
| `Scheduler.PublishFire` | adapters/fq-cron/loop.go:179-214 | One turn: not due, unhealthy or not configured changes only the clock and lost rows; an acknowledgement adds exactly one publication, at the clock, to the history and the end of the ledger; an overtaken fire moves only the slot, not before the job's next slot; a permanent error gives the job up and a shutdown stops, both without touching a row |
| `Scheduler.PublishBatch` | adapters/fq-cron/loop.go:178-215 | The whole batch in order, stopping at a shutdown, with the invariants kept |
| `Scheduler.PlannedIsLater` | adapters/fq-cron/plan.go:78-99 | A planned slot is later than every slot recorded for its job, whether its row is there or lost |
| `Scheduler.RoomSpaces` | adapters/fq-cron/plan.go:117-133 | A fire planned inside the allowance is published a whole window after the publication a ceiling's worth of places before it, however late it goes out |
| `Scheduler.SpacedBoundsWindows` | adapters/fq-cron/plan.go:46-48 | Such spacing bounds the publications of every hour, wherever it ends |
| `Scheduler.RunCycle` | adapters/fq-cron/loop.go:104-216 | Load, plan, then a batch, or a reload that publishes nothing and gives every job another try |
| `Scheduler.RunScheduler` | adapters/fq-cron/loop.go:104-216 | For every script of delays, answers, reloads and lost rows: the history is exactly the acknowledged turns in order, the slots those and the overtaken ones; a job's slots strictly increase; and while no row is lost no hour holds more publications than the ceiling |
| `Grants.CoversScopeIsSubset` | services/fq-store/src/grants.rs:193-201 | The syntactic test is the subset relation on covered names, both directions |
| `Grants.OwnScopesDisjoint` | services/fq-store/src/grants.rs:56-73 | Own scopes of distinct valid agent ids share no name |
| `Grants.DottedIdIntrudes` | services/fq-store/src/grants.rs:62-73 | An id with a dot would own names inside another agent's scope, and is not valid |
| `Grants.IdShape` | services/fq-store/src/grants.rs:62-73 | An id with a dot, a wildcard, a blank or a control character at either end of each range is refused, and so is the empty one; one of letters, digits, dashes and underscores is accepted |
| `Grants.OwnsItsNamespace` | services/fq-store/src/grants.rs:48-60 | An agent owns `system.agents.<id>` and what is below it, and neither a sibling with a longer name nor anything shorter |
| `Grants.LiveIds` | services/fq-store/src/grants.rs:362-388 | One forward pass in id order finds exactly the grants that are live by the recursive rule |
| `Grants.Decide` | services/fq-store/src/grants.rs:336-347 | Allowed exactly in the own scope or by a live covering grant |
| `Grants.LiveHasChain` | services/fq-store/src/grants.rs:362-388 | A live grant has a strictly decreasing chain of live, unrevoked grants to an operator grant |
| `Grants.LiveIffChain` | services/fq-store/src/grants.rs:362-388 | A grant is live if and only if an unrevoked, supported chain to an operator grant exists |
| `Grants.CanIffChain` | services/fq-store/src/grants.rs:336-388 | A decision is allowed if and only if the name is the principal's own, or the principal ends a chain from the operator whose last grant confers that verb on that name |
| `Grants.FirstGrantWins` | services/fq-store/src/grants.rs:303-330 | Whatever else a log holds, the first grant under an id is the one that counts |
| `Grants.ChainAttenuates` | services/fq-store/src/grants.rs:211-227 | Along a chain every ancestor carries Grant, the leaf's verbs are among the root's and every name the leaf covers the root covers |
| `Grants.AuthorityIsTheOperators` | services/fq-store/src/grants.rs:336-388 | Whatever is allowed outside an own scope is allowed by some live operator grant of that verb over that name |
| `Grants.EventsMoveOneWay` | services/fq-store/src/grants.rs:303-348 | A grant never takes an allowed decision away and a revocation never adds one |
| `Grants.LivenessFalls` | services/fq-store/src/grants.rs:354-388 | In a log whose ids are append positions, a grant live later was live at every length since it was appended |
| `Grants.NoRevival` | services/fq-store/src/grant_log.rs:124-193 | So a grant that has stopped being live never becomes live again, whatever is appended |
| `Grants.RevivalWithoutPositions` | services/fq-store/src/grants.rs:354-388 | With other ids it can: the positions are needed |
| `GrantLog.ForwardPass` | services/fq-store/src/grant_log.rs:968-984 | The flag vector filled front to back is right for every row |
| `GrantLog.SqliteGrantLog.RecomputeLiveness` | services/fq-store/src/grant_log.rs:929-993 | From any flags whatever, every flag becomes that of the model of the rows and revocations; rows are untouched |
| `GrantLog.SqliteGrantLog.AppendGranted` | services/fq-store/src/grant_log.rs:124-171 | The id is the log position, the log grows by this grant, and a level projection stays level |
| `GrantLog.SqliteGrantLog.AppendRevoked` | services/fq-store/src/grant_log.rs:175-193 | The log grows by this revocation and a level projection stays level |
| `GrantLog.SqliteGrantLog.ApplyEventsAfter` | services/fq-store/src/grant_log.rs:889-922 | Folding the rest of the log into tables that hold its beginning gives the tables of a full replay, flags included |
| `GrantLog.SqliteGrantLog.CatchUp` | services/fq-store/src/grant_log.rs:874-883 | A projection behind the log is level afterwards |
| `GrantLog.SqliteGrantLog.RebuildProjection` | services/fq-store/src/grant_log.rs:856-870 | From arbitrary tables and cursor, level with the log afterwards |
| `GrantLog.SqliteGrantLog.constructor` | services/fq-store/src/grant_log.rs:103-120 | Opening a database written before the projection existed gives a level projection |
| `GrantLog.SqliteGrantLog.SetCursor` | services/fq-store/src/grant_log.rs:996-1003 | The cursor never moves back |
| `GrantLog.SqliteGrantLog.LiveGrantsFor` | services/fq-store/src/grant_log.rs:833-851 | Exactly the live grants of the principal by the reference model, in grant order |
| `GrantLog.SqliteGrantLog.Can` | services/fq-store/src/grant_log.rs:821-830 | The decision of the reference model replaying the whole log |
| `GrantLog.SqliteGrantLog.IssuedGrant` | services/fq-store/src/grant_log.rs:1291-1307 | Grantor and scope of a grant in the log, or nothing |
| `GrantLog.SqliteGrantLog.Pending` | services/fq-store/src/grant_log.rs:203-206 | The unmarked events in log order |
| `GrantLog.SqliteGrantLog.MarkPublished` | services/fq-store/src/grant_log.rs:209-215 | Marks exactly the event at a log position and leaves its body and every other event alone |
| `GrantLog.UnsentIsRest` | services/fq-store/src/grant_log.rs:203-206 | When the marks form a prefix, the pending events are the rest of the log, starting at the first unmarked one |
| `GrantLog.SqliteGrantLog.Drain` | services/fq-store/src/grant_log.rs:367-375 | Marks stay a prefix, the bus stays in log order, exactly the leading acknowledged events are marked, and it stops at the first failure |
| `GrantLog.OrderMeans` | services/fq-store/src/grant_log.rs:363-375 | What the bus has received is in log order, skips nothing that is marked, and runs at most one event ahead |
| `GrantLog.ExactlyOnce` | services/fq-store/src/grant_log.rs:363-375 | If it has received no more events than are marked, it has received exactly those, once each |
| `GrantLog.Perform` | services/fq-store/src/grant_log.rs:103-215 | One append, restart, damage, rebuild or drain: what it appends, and when the projection is level after it |
| `GrantLog.Run` | services/fq-store/src/grant_log.rs:103-215 | Every run of those: the log holds what was appended, the projection equals a replay unless damaged since the last rebuild, and the outbox invariant holds |
| `Gate.AuthorisedIsBornLive` | services/fq-store/src/gate.rs:214-238 | A grant supported by a live grant is live as soon as it is appended, when revocations only name existing ids |
| `Gate.BornLiveWasAuthorised` | services/fq-store/src/gate.rs:214-238 | And only then: the gate's support check is the liveness rule, no stricter |
| `Gate.AuthorisedIff` | services/fq-store/src/grants.rs:211-227 | A delegation is authorised if and only if one live grant of the delegator has the Grant verb, every verb passed on, Grant included, and covers every name the new scope covers |
| `Gate.ListedIsAllowed` | services/fq-store/src/gate.rs:166-178 | Whoever may list a subtree may list each name in it |
| `Gate.MayListIff` | services/fq-store/src/gate.rs:149-191 | A subtree may be listed if and only if the bearer's own scope, or one live List grant, has every name in it |
| `Gate.GatedRepository.Identify` | services/fq-store/src/gate.rs:363-385 | Token, id shape and token bounds, in that order, each with its own error |
| `Gate.GatedRepository.Authorize` | services/fq-store/src/gate.rs:344-357 | Admits exactly a permitted token whose bearer the reference model allows |
| `Gate.GatedRepository.ListNames` | services/fq-store/src/gate.rs:149-191 | Answers exactly when the bearer owns the prefix or holds a live List grant over its whole namespace; the answer is exactly the subtree in order, and the bearer may list each name in it |
| `Gate.GatedRepository.Delegate` | services/fq-store/src/gate.rs:198-238 | Accepted exactly when the token permits it, the grantee is valid and a live grant of the bearer supports it; then live at once; refused calls append nothing |
| `Gate.GatedRepository.Revoke` | services/fq-store/src/gate.rs:241-290 | Accepted exactly from the grant's own issuer under a permitting token; the grant is dead afterwards |
| `Gate.GatedRepository.OperatorGrant` | services/fq-store/src/gate.rs:297-311 | Accepted exactly for a valid grantee, and live at once |
| `Gate.GatedRepository.OperatorRevoke` | services/fq-store/src/gate.rs:314-325 | Accepted exactly for an existing grant, which is dead afterwards |
| `Gate.RunCalls` | services/fq-store/src/gate.rs:198-325 | After any sequence of calls from an empty log, the log is what the accepted calls append, every grant in it was live when appended, and every revocation names an earlier grant |

## Left out

- SQL, pooling, migrations, decode errors of stored rows, fsync and directory mechanics: tables and files are maps.
- FastCDC and BLAKE3: any partition, any injective id.
- Capability tokens and the invariant oracle: a token is a predicate, the invariants are stated directly.
- The audit's orphan-file reaping and alarm phases: they rest on file ages.
- Liveness of the collector (the model checker's second half): only safety and bounded completion of one pass are stated.
- Retries of `reserve_or_materialize` under contention: at whole-call grain the first round always succeeds; the interleavings are in `BlockProtocol`.
- Configuration parsing, payload text, watching, removal parking, reconnects and health probes of the cron adapter: easy members or plumbing.
- A ceiling changed at run time: the code's own comments promise only approximations there.
- The gated put, get, bind and unbind wrappers: each is `Authorize` followed by the repository call.
- The remote store service, the NATS transport, the command line, statistics and the GitHub watcher.
- The split of writing a block file and inserting its row inside `EdgeProtocol`: one step there, two in `BlockProtocol`.
- A release that itself fails: the code ignores the error, and the model's releases always succeed.

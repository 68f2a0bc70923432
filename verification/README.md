# Verified model of the multiraft replicated state machine

multiraft runs many Raft groups in one process on top of openraft. openraft does the consensus;
the repository adds what surrounds it: a log store on two files, the bridge that feeds committed
entries to a state machine, snapshots that a standby builds in the background, a directory
catalog that keeps the newest snapshots, a counter state machine that drops repeated requests,
and a few small protocols between tasks. This project models those parts and proves what they
promise together.

The central fact is not visible in any one function. A standby freezes the state machine some
time after the entry that asked for a snapshot, and labels the result with that entry. The
snapshot may therefore hold more than its label says, and a replica that installs it is fed some
entries a second time. This is safe only because the state machine absorbs replays, and only
while installs never move a replica behind the point openraft feeds it from.

## How the model is laid out

| file | what it holds |
|---|---|
| `Types.dfy`, `Names.dfy`, `TopKeep.dfy` | log ids, entries, decimal names, the greatest keys of a set |
| `Counter.dfy` | the deduplicating counter: replay absorption, exactly-once counting |
| `Bridge.dfy`, `Store.dfy` | the state-machine store: its critical sections as functions, and the object that runs them |
| `Catalog.dfy`, `CatalogSteps.dfy`, `CatalogWrites.dfy`, `CatalogSettled.dfy`, `CatalogListing.dfy`, `CatalogTorn.dfy` | the snapshot catalog: the object, concurrent writers with crash points, undisturbed writes, what concurrent writers leave, listings spread over time, torn meta files |
| `Standby.dfy`, `StandbyProof.dfy`, `StandbyTheorems.dfy`, `StandbyRuns.dfy` | many replicas of one group: steps, the invariant, the theorems, runs that show what can happen |
| `Clients.dfy`, `Placement.dfy`, `Linearizability.dfy` | proposes and linearizable reads over those replicas |
| `LogSpec.dfy`, `LogCrash.dfy`, `LogShape.dfy`, `LogContents.dfy`, `LogStores.dfy` | the log stores: specification, files and crashes, shape and restart, contents entry by entry, the objects |
| `Initialization.dfy`, `Readiness.dfy`, `Channels.dfy` | group initialisation, what readiness means, the channel cache |
| `Idempotency.dfy`, `Lifetimes.dfy`, `Retries.dfy` | request keys, their reuse after a restart, retries |

Code that changes fields under a lock is a class whose methods are proved against functions on
values. The step systems interleave those functions, or the methods are proved to perform steps of
them (`CatalogWrites.QuietWriteIsWrite`, `Initialization.ClusterGlue`, `Channels.GrpcRouter`).

## What is assumed of the surroundings

- There is one committed log per group and it only grows (`Standby.Next`, step `Commit`).
- openraft feeds a replica consecutive committed entries from its own position, `delivered`. After
  a batch that stopped early it may resume anywhere from there to where the batch stopped. A
  durable install goes around openraft and does not move `delivered`.
- Installs do not rewind: the label is not behind `delivered` (guards of `Install` and
  `InstallDurable`). `Bridge.NoRewindIsExact` shows the condition is the exact one.
- An acknowledged `client_write` was committed once, at an index not committed before the call. A
  confirmed `ensure_linearizable` means the local replica has been fed at least what was
  committed at the call (guards in `Clients.Next`).
- `serde_json` is a codec known by its round trips, SHA-256 an injective function, and a rename
  replaces a file atomically.
- The snapshot mode is the same on all nodes: all offload to standbys, or all build hot.

## What the model shows about the code

- The snapshot catalog writes `meta.json` in place. A crash in the middle of it leaves a file that
  does not parse (`CatalogTorn.CrashTearsMeta`), and then `latest`, `read` and the pruning of every
  other write of that group fail. Since pruning lists before it removes, writing greater keys never
  clears the file: after the crash only a new completed write of the same key does
  (`CatalogTorn.OnlyRewriteRepairs`). While the process lives, a prune that had read the file before
  it was torn may still remove it (`CatalogTorn.TornMetaGoesExactly`).
- A listing reads the group's directories one at a time. If `keep` greater keys are written while it
  runs, the entries it opened on may be pruned before they are visited and the new ones not be part
  of it, and `latest` answers less than before, or nothing (`CatalogListing.ListingMissesAll`;
  `CatalogListing.ListingReachesExactly` shows that `keep` such writes are needed).
- `purge` asserts that the mark does not decrease, but log ids compare terms first. The assertion
  lets an index fall back, which breaks the log's shape exactly when entries are stored
  (`LogShape.PurgeKeepsShapeExactly`, with an example in `LogShape.PurgeCanLeaveGap`).
- `next_idem` is documented as globally unique. It is within one process lifetime, 2^32 calls and
  node ids below 2^32; its counter restarts with the process, so an increment after a restart can
  repeat an old key and count for nothing: of the increments made after a restart exactly the first
  min(a, b) are lost, a having been made before it and b after (`Idempotency.KeysCollideExactly`,
  `Lifetimes.RestartLosesIncrements`).
- A standby listed as a member returns Ok from `create_group` without marking the board, so every
  member's call can return Ok with nobody having claimed (`Initialization.ClaimedWhenAllReturned`,
  `Initialization.ListedStandbyPreventsClaim`).
- A claim is kept when the `initialize` it guards fails or its node restarts in the middle, and is
  never made again: every member's call can return Ok with the group never initialised
  (`Initialization.FailedClaimIsKept`; `Initialization.InitializedWhenAllReturned` is the exact
  condition).
- Readiness is never taken back. A member that marked itself and went away still counts, so a group
  can be initialised while a listed member is not there (`Readiness.AbsentMemberCounts`;
  `Readiness.AllLocalAtClaimExactly` is the exact condition).
- An entry the state machine rejects is still recorded as last applied, because the id is stored
  before the call (`Store.StateMachineStore.ApplyOne`). Coverage survives, since a rejected entry
  has no effect in the fold either.
- Builds may advertise out of order and move `current_snapshot` back
  (`StandbyRuns.CurrentCanGoBack`); the catalog's latest entry does not follow it.
- An install replaces memory before it writes the catalog. When that write fails, the node
  advertises a label its own catalog may never have held (`StandbyRuns.InstalledCanMissCatalog`;
  `StandbyTheorems.CatalogKeepsUpWithCurrent` is the exact condition).

## Model

| member | source | states |
|---|---|---|
| `Counter.ReplayAbsorbs` | crates/multiraft-fsm/src/counter_fsm.rs:41-72 | for every log and i <= j, i <= n: a state holding the first j entries, given entries i..n again, ends in the state of the longer prefix |
| `Counter.FsmReplayIsLocal` | crates/multiraft-fsm/src/counter_fsm.rs:41-54 | replaying into one group is that group's fold, and no other group's view changes |
| `Counter.RestoreRecovers` | crates/multiraft-fsm/src/counter_fsm.rs:66-72 | restoring bytes that hold a state puts the group in that state and leaves all other groups alone |
| `Counter.CounterIsSumOfFirstDeltas` | crates/multiraft-fsm/src/counter_fsm.rs:47-53 | for every log with any duplicates, the value is the (64-bit) sum of the first delta of each distinct key and the seen set is the set of keys |
| `Counter.WrapIsCongruent` | crates/multiraft-fsm/src/counter_fsm.rs:51-51 | the 64-bit result of any sum differs from it by a multiple of 2^64 |
| `Counter.CounterIsPlainSum` | crates/multiraft-fsm/src/counter_fsm.rs:47-53 | where the sum of first deltas fits in 64 bits, the value is exactly that sum, negative or positive |
| `Counter.RetriesCountOnce` | crates/multiraft-fsm/src/counter_fsm.rs:47-53 | striking every use of a key from the log changes the value by that key's delta once if it was ever committed, else not at all |
| `Counter.CounterFsm.ValueCountsEachKeyOnce` | crates/multiraft-fsm/src/counter_fsm.rs:33-35 | a store that replayed a log into one group answers for that group with the sum of the first delta of each distinct key, and zero for every group it never touched |
| `Counter.CounterFsm.ValueIsPlainSum` | crates/multiraft-fsm/src/counter_fsm.rs:33-35 | the answer after any replayed log whose sum fits in 64 bits is the plain sum of first deltas |
| `Counter.CounterFsm.Apply` | crates/multiraft-fsm/src/counter_fsm.rs:41-54 | fails exactly on undecodable bytes and then changes nothing; otherwise a new key is remembered and its delta added, by plain addition where the sum fits, a known key does nothing, and no other group changes |
| `Counter.CounterFsm.Snapshot` | crates/multiraft-fsm/src/counter_fsm.rs:56-64 | the bytes decode to exactly the group's value and seen set, whatever order the set is written in |
| `Counter.CounterFsm.Restore` | crates/multiraft-fsm/src/counter_fsm.rs:66-72 | fails exactly on undecodable bytes and then changes nothing; otherwise the group becomes what the bytes hold |
| `Bridge.TriggersAreExact` | crates/multiraft-store/src/sm_bridge.rs:373-380 | the collected triggers are all trigger entries of the batch, once each, in log order |
| `Bridge.AnsweredAreExact` | crates/multiraft-store/src/sm_bridge.rs:400-402 | the clients answered are all waiting ones of the accepted items, once each, in log order |
| `Bridge.MembershipStays` | crates/multiraft-store/src/sm_bridge.rs:391-397 | a batch without a membership entry leaves the stored membership as it was |
| `Bridge.MembershipIsTheLast` | crates/multiraft-store/src/sm_bridge.rs:391-397 | after a batch the stored membership is that of its last membership entry |
| `Bridge.RejectedChangesNothing` | crates/multiraft-store/src/sm_bridge.rs:382-388 | an entry the state machine rejects has no effect in the fold of the log |
| `Bridge.ApplyKeepsPrefix` | crates/multiraft-store/src/sm_bridge.rs:356-412 | a batch fed from position d to a state machine holding j >= d entries leaves it holding the longer of j and what the batch reached, whether it finished, broke off or was rejected; last applied is the entry reached; other groups are untouched |
| `Bridge.NoRewindIsExact` | crates/multiraft-store/src/sm_bridge.rs:152-186 | installing a snapshot labelled c while openraft feeds from d recovers the log's state for every log and every surplus if and only if d <= c |
| `Store.AcceptOne` | crates/multiraft-store/src/sm_bridge.rs:365-403 | one more accepted entry extends the fold, the membership, the triggers and the answers each by its own part |
| `Store.StateMachineStore.constructor` | crates/multiraft-store/src/sm_bridge.rs:66-75 | a new store has applied nothing, knows no membership and advertises nothing |
| `Store.StateMachineStore.ApplyOne` | crates/multiraft-store/src/sm_bridge.rs:368-398 | moves last applied onto the entry even when the state machine rejects it; state machine and membership change by the entry alone |
| `Store.StateMachineStore.Apply` | crates/multiraft-store/src/sm_bridge.rs:356-412 | Ok exactly when no item stops the loop; the state machine is the fold of the accepted entries; last applied is the last item reached; the membership is that of the last accepted membership entry, or the old one if there is none; callbacks are the whole batch's triggers on Ok and none otherwise; answered clients are exactly the accepted ones |
| `Store.StateMachineStore.Freeze` | crates/multiraft-store/src/sm_bridge.rs:197-203 | the frozen bytes hold the group's state at that moment |
| `Store.StateMachineStore.Advertise` | crates/multiraft-store/src/sm_bridge.rs:217-234 | only the advertised snapshot changes, to the given label, id and bytes with the stored membership |
| `Store.StateMachineStore.InstallSnapshot` | crates/multiraft-store/src/sm_bridge.rs:420-462 | undecodable bytes change neither memory nor catalog; otherwise last applied is the label, the membership and the advertised snapshot are the snapshot's, the group holds its bytes' state and other groups theirs; then the catalog is written, and an error comes exactly from a torn catalog entry with memory already changed |
| `Store.StateMachineStore.InstallDurableSnapshot` | crates/multiraft-store/src/sm_bridge.rs:152-186 | the same, with last applied the given label, the snapshot named after it, and the default membership |
| `Store.StateMachineStore.SnapshotFromCatalog` | crates/multiraft-store/src/sm_bridge.rs:239-260 | an error if and only if a meta file is torn or the entry found by the latest id is damaged; None exactly without a catalog or entries; else the latest label with digest-checked bytes found by that id |
| `Store.StateMachineStore.BuildSnapshot` | crates/multiraft-store/src/sm_bridge.rs:284-337 | with hot builds off nothing changes, the advertised snapshot is served, else the catalog's, and an error comes exactly when neither can be; with hot builds on the bytes hold the live state, the label is last applied, the membership the stored one, and the snapshot becomes the advertised one under an id that ends in a new number |
| `Store.StateMachineStore.GetCurrentSnapshot` | crates/multiraft-store/src/sm_bridge.rs:465-482 | the advertised snapshot if there is one; else what the catalog offers, with an error and None exactly when it fails or has nothing |
| `Names.EndingsDiffer` | crates/multiraft-store/src/sm_bridge.rs:312-317 | ids that end in different build numbers differ, whatever comes before |
| `StandbyProof.ApplyOk` | crates/multiraft-store/src/sm_bridge.rs:356-412 | an apply batch, finished or not, keeps every replica invariant, spawned builds included |
| `StandbyProof.InstallOk` | crates/multiraft-store/src/sm_bridge.rs:420-462 | an install that does not rewind keeps every replica invariant |
| `StandbyProof.FreezeOk` | crates/multiraft-store/src/sm_bridge.rs:189-203 | a freeze at any later moment yields bytes that cover the label |
| `StandbyProof.AdvertiseOk` | crates/multiraft-store/src/sm_bridge.rs:208-234 | advertising after the catalog write keeps every replica invariant |
| `StandbyProof.StepKeepsInv` | crates/multiraft-store/src/sm_bridge.rs:152-482 | every step of every node keeps: the state machine holds a committed prefix no shorter than last applied, and every snapshot anywhere covers its label |
| `StandbyTheorems.SnapshotCoverage` | crates/multiraft-store/src/sm_bridge.rs:189-237 | in every run, whatever is advertised, served, or readable from a catalog under label i holds exactly the fold of some committed prefix of at least i |
| `StandbyTheorems.AnyServedSnapshotRecovers` | crates/multiraft-net/src/multiraft.rs:451-468 | any snapshot ever served, installed at any later time and followed by every entry after its label, gives the state of the whole log, other groups untouched |
| `StandbyTheorems.CoveringBytesRecover` | crates/multiraft-store/src/sm_bridge.rs:239-337 | the same for any bytes that cover a label, into any state machine and for any longer log |
| `StandbyTheorems.CaughtUpReplicaIsExact` | crates/multiraft-store/src/sm_bridge.rs:356-462 | in every run a replica fed the whole log, or reporting it applied, is in exactly the log's state |
| `StandbyTheorems.AppliedIsReported` | crates/multiraft-store/src/sm_bridge.rs:348-353 | at every moment of every run what a replica reports as applied names a committed entry, is no less than what it was fed and no more than what is committed |
| `StandbyTheorems.InstallIsReported` | crates/multiraft-store/src/sm_bridge.rs:436-445 | after an install of either kind a node reports the label as applied, serves the snapshot and holds its state |
| `StandbyTheorems.CatalogKeepsUpWithCurrent` | crates/multiraft-store/src/sm_bridge.rs:208-234 | in every run the catalog's latest key is at least the advertised label if and only if the catalog can be listed and a write of that key or a greater one got its files through; unless an install of that very label is unfinished or failed, one did |
| `StandbyTheorems.SnapshotsAreNamedAfterLabels` | crates/multiraft-store/src/sm_bridge.rs:206-212 | in an offload cluster every snapshot in flight and every catalog entry carries the name of its own label |
| `StandbyTheorems.IdPicksOneEntry` | crates/multiraft-store/src/snapshot_catalog.rs:137-149 | in every run of an offload cluster a directory that matches the id of a complete entry is that entry |
| `StandbyTheorems.FetchPicksItsEntry` | crates/multiraft-net/src/multiraft.rs:456-467 | whatever happens between `latest`, the search by id and the read of the bytes, only the directory of the key `latest` gave can match, and only bytes that cover that label have the digest found there |
| `StandbyRuns.CurrentCanGoBack` | crates/multiraft-store/src/sm_bridge.rs:228-234 | a run from the start in which the newer of two builds is advertised and then replaced by the older |
| `StandbyRuns.InstalledCanMissCatalog` | crates/multiraft-store/src/sm_bridge.rs:436-459 | a run from the start in which an install's catalog write fails after memory was set: the node advertises a label its catalog, which lists without error, never held |
| `StandbyRuns.SnapshotCanBeAheadOfItsLabel` | crates/multiraft-net/src/multiraft.rs:699-742 | a run exists in which the frozen bytes do not hold the state at their label |
| `Catalog.SortByKey` | crates/multiraft-store/src/snapshot_catalog.rs:188-188 | the same entries, ascending by (index, term) |
| `Catalog.OldestAreVictims` | crates/multiraft-store/src/snapshot_catalog.rs:183-194 | the entries the sorted loop takes are exactly those with at least `keep` entries above them |
| `Catalog.PruneDirs` | crates/multiraft-store/src/snapshot_catalog.rs:183-194 | what is left is every directory but those entries, contents unchanged |
| `Catalog.PrunedKeepsTop` | crates/multiraft-store/src/snapshot_catalog.rs:183-194 | the keys left are the `keep` greatest |
| `Catalog.WriteKeepsTop` | crates/multiraft-store/src/snapshot_catalog.rs:61-105 | a completed write leaves the `keep` greatest of the old keys and the new one |
| `Catalog.SnapshotCatalog.constructor` | crates/multiraft-store/src/snapshot_catalog.rs:45-50 | at least one entry is kept |
| `Catalog.SnapshotCatalog.List` | crates/multiraft-store/src/snapshot_catalog.rs:151-181 | fails if and only if some meta file is torn; else every complete entry once, in any listing order |
| `Catalog.SnapshotCatalog.Latest` | crates/multiraft-store/src/snapshot_catalog.rs:108-116 | the entry above all others, by index first and term second; None only when there is none; an error exactly on a torn entry |
| `Catalog.SnapshotCatalog.Find` | crates/multiraft-store/src/snapshot_catalog.rs:137-149 | the first entry in listing order whose id or directory name matches; None only when none does |
| `Catalog.SnapshotCatalog.Read` | crates/multiraft-store/src/snapshot_catalog.rs:119-135 | an error if and only if a meta file is torn or the first match has no bytes or bytes of another digest; None exactly when nothing matches; else the first match's bytes |
| `Catalog.WrittenReadsBack` | crates/multiraft-store/src/snapshot_catalog.rs:61-135 | a completed write that kept its key, read by its id where no other entry matches, gives exactly the bytes written, in whatever order directories are listed |
| `Catalog.SnapshotCatalog.Prune` | crates/multiraft-store/src/snapshot_catalog.rs:183-194 | fails exactly on a torn entry, changing nothing; otherwise removes the oldest of this group and nothing of any other |
| `Catalog.SnapshotCatalog.Write` | crates/multiraft-store/src/snapshot_catalog.rs:61-105 | files are in place even when pruning fails; on Ok the group keeps the `keep` greatest keys; other groups are untouched |
| `CatalogSteps.StepKeepsInv` | crates/multiraft-store/src/snapshot_catalog.rs:61-105 | any effect of any concurrent writer, and any crash, keeps: complete meta files have an author, the greatest keys have both files, only outranked keys are being removed |
| `CatalogWrites.WritesRetainTop` | crates/multiraft-store/src/snapshot_catalog.rs:183-194 | completed writes in any order, with repeats, leave exactly the `keep` greatest distinct keys ever written |
| `CatalogWrites.RetainedHoldsLastWrite` | crates/multiraft-store/src/snapshot_catalog.rs:69-94 | under each retained key stand the bytes and meta of the last write of that key |
| `CatalogSteps.GreatestKeysSurvive` | crates/multiraft-store/src/snapshot_catalog.rs:183-194 | under any interleaving and any crash, none of the `keep` greatest keys written so far has lost a file |
| `CatalogListing.ListingReachesGreatest` | crates/multiraft-store/src/snapshot_catalog.rs:151-181 | a `latest` whose listing, directory by directory, began when m was the greatest key answers at least m unless `keep` greater keys were written before it ended |
| `CatalogListing.ListingReachesExactly` | crates/multiraft-store/src/snapshot_catalog.rs:108-116 | that a listing reaches the greatest key there was when it began, however it falls among d writes of greater keys, holds if and only if d < keep |
| `CatalogListing.ListingMissesAll` | crates/multiraft-store/src/snapshot_catalog.rs:156-181 | for every `keep` a run in which a listing opened on one entry comes back empty, because that entry is pruned before its visit and the newer ones are not part of the listing |
| `CatalogListing.LatestNeverGoesBack` | crates/multiraft-store/src/snapshot_catalog.rs:108-116 | of two listings that do not overlap the later answers at least what the earlier did, under the same condition on the later |
| `CatalogListing.StayingKeysAreListed` | crates/multiraft-store/src/snapshot_catalog.rs:151-181 | every key there was when a listing began that is still among the greatest when it ends is listed |
| `CatalogSettled.SettledHoldsTop` | crates/multiraft-store/src/snapshot_catalog.rs:61-105 | under any interleaving without crashes and errors, whenever every write that began is through, the catalog lists and holds exactly the `keep` greatest keys ever written |
| `CatalogSettled.OwedStep` | crates/multiraft-store/src/snapshot_catalog.rs:183-194 | every step keeps: each complete entry beyond the greatest has a writer bound to remove it |
| `CatalogSteps.ReadReturnsTheAuthorsBytes` | crates/multiraft-store/src/snapshot_catalog.rs:119-135 | whatever was torn, overwritten or half removed, bytes that a read returns are those of the write that produced the meta file present |
| `CatalogTorn.TornMetaGoesExactly` | crates/multiraft-store/src/snapshot_catalog.rs:183-194 | in every run a torn meta file stays from one moment to another if and only if no write of its key completes in between and no prune that had read it before it was torn removes it; greater keys make no difference |
| `CatalogTorn.OnlyRewriteRepairs` | crates/multiraft-store/src/snapshot_catalog.rs:86-89 | after a crash a torn meta file stays if and only if no write of the same key completes |
| `CatalogTorn.TornMetaFailsWrites` | crates/multiraft-store/src/snapshot_catalog.rs:151-181 | while it stays every listing fails, and every write that had not passed it in its listing, of whatever key, can only end in an error |
| `CatalogTorn.CrashTearsMeta` | crates/multiraft-store/src/snapshot_catalog.rs:86-88 | a run from the start in which one crash leaves such a file and no writer |
| `CatalogWrites.QuietWriteIsWrite` | crates/multiraft-store/src/snapshot_catalog.rs:61-105 | the small steps of an undisturbed write lead exactly where the catalog object's write leads |
| `TopKeep.TopSize` | crates/multiraft-store/src/snapshot_catalog.rs:183-194 | what is kept is `keep` keys, or all when there are fewer |
| `TopKeep.TopIsGreatest` | crates/multiraft-store/src/snapshot_catalog.rs:188-192 | every kept key is greater than every dropped one |
| `TopKeep.TopIsIncremental` | crates/multiraft-store/src/snapshot_catalog.rs:94-94 | pruning after each write keeps what pruning once at the end would keep |
| `Names.DecimalIsInjective` | crates/multiraft-store/src/snapshot_catalog.rs:71-71 | different groups have different directories |
| `Names.NameIsInjective` | crates/multiraft-store/src/snapshot_catalog.rs:70-70 | "{index}-{term}" determines index and term |
| `Names.NameSpells` | crates/multiraft-store/src/snapshot_catalog.rs:70-70 | the name is the index in decimal, a dash, and the term in decimal |
| `Clients.StepKeepsInv` | crates/multiraft-net/src/multiraft.rs:493-544 | every step of a client or of the system keeps: each committed command has one owner, each read saw a prefix between its start and its end, times respect the log |
| `Linearizability.EveryHistoryIsLinearizable` | crates/multiraft-net/src/multiraft.rs:493-544 | at every moment of every run the calls have a total order that contains every returned call, respects real time, and in which each read returns the fold of the writes before it |
| `Linearizability.PrecedesIsLower` | crates/multiraft-net/src/multiraft.rs:518-532 | calls that do not overlap are placed in the order they were made |
| `Placement.ReadFollowsItsPrefix` | crates/multiraft-store/src/sm_bridge.rs:146-149 | before a read stand exactly the commands of the entries it held |
| `LogSpec.ValuesReadBack` | crates/multiraft-store/src/log_file.rs:206-223 | writing a keyed log out in key order and reading it back gives the same map |
| `LogSpec.AfterKeepsKeyed` | crates/multiraft-store/src/log_mem.rs:100-149 | every operation keeps each key equal to its entry's index |
| `LogContents.AppendIsExact` | crates/multiraft-store/src/log_mem.rs:100-110 | each appended entry is stored as it is, the last one where indexes repeat, and no other index changes |
| `LogContents.UntouchedIsExact` | crates/multiraft-store/src/log_mem.rs:112-149 | an index an operation does not append to is dropped exactly by a truncation below it or an allowed purge at or above it, and otherwise keeps its entry |
| `LogContents.ReadRangeIsExact` | crates/multiraft-store/src/log_mem.rs:51-64 | after any operations a range read answers, in index order and once each, exactly the entries of the range appended and neither appended over, truncated nor purged since |
| `LogContents.FileReadRangeIsExact` | crates/multiraft-store/src/log_file.rs:112-121 | the same for the file store with reopens anywhere |
| `LogContents.ReadStateIsExact` | crates/multiraft-store/src/log_mem.rs:66-80 | after any operations the log state is the last allowed purge and the id of the surviving entry with the greatest index, or the purge again when none survives |
| `LogContents.ReadVoteIsLastSaved` | crates/multiraft-store/src/log_mem.rs:91-98 | the vote read is the one saved last, or none |
| `LogContents.ReadCommittedIsLastSaved` | crates/multiraft-store/src/log_mem.rs:82-89 | the committed id read is the one saved last, or none |
| `LogCrash.FileStoreRefinesMemory` | crates/multiraft-store/src/log_file.rs:112-223 | any sequence of operations with reopens anywhere gets the same answers and state as the memory store |
| `LogCrash.StepStaysSynced` | crates/multiraft-store/src/log_file.rs:136-189 | after every operation reopening the files would give back memory |
| `LogCrash.CrashRecovers` | crates/multiraft-store/src/log_file.rs:136-189 | a crash after any number of file effects reopens before or after the operation; inside purge also with the new mark and old log, and repeating the purge then completes it |
| `LogCrash.LifeIsExplained` | crates/multiraft-store/src/log_file.rs:66-82 | over a whole life with crashes anywhere the store always reopens, finished operations took effect in full, and crashed ones fully, not at all, or as a purge mark alone |
| `LogShape.OrderlyRunKeepsShape` | crates/multiraft-store/src/log_file.rs:154-189 | with contiguous appends and purges that do not fall back, the keys are the gap-free interval after the purge mark in every run, and the mark never decreases |
| `LogShape.PurgeKeepsShapeExactly` | crates/multiraft-store/src/log_file.rs:178-189 | a purge the assertion allows keeps the shape if and only if its index does not fall behind the mark or nothing is stored |
| `LogShape.PurgeCanLeaveGap` | crates/multiraft-store/src/log_file.rs:178-189 | three appended entries, a purge of two and an allowed purge of one in a later term leave a log with a gap |
| `LogShape.RangeIsExact` | crates/multiraft-store/src/log_file.rs:112-121 | a range read, wherever it begins and ends or without an end, returns exactly the stored entries of the range in index order |
| `LogShape.LastLogIdEndsTheLog` | crates/multiraft-store/src/log_file.rs:123-134 | the reported last log id is the last entry's, or the purge mark when none is left |
| `LogShape.ReopenAndReplay` | crates/multiraft-store/src/log_file.rs:66-82 | with nothing purged, reopening and applying up to the saved committed id rebuilds the state of exactly that prefix, or of the prefix up to an entry the state machine rejects |
| `LogStores.MemLog.AppendEntries` | crates/multiraft-store/src/log_mem.rs:100-110 | each entry is stored as it is under its index, later ones replacing earlier, and no other index changes |
| `LogStores.MemLog.Truncate` | crates/multiraft-store/src/log_mem.rs:112-128 | exactly the entries up to the given id stay |
| `LogStores.MemLog.PurgeUpTo` | crates/multiraft-store/src/log_mem.rs:130-149 | panics unchanged on a mark that goes back; else records it and drops exactly the entries up to it |
| `LogStores.MemLog.GetLogState` | crates/multiraft-store/src/log_mem.rs:66-80 | the purge mark and the last stored id, or the mark again when nothing is stored |
| `LogStores.MemLog.TryGetLogEntries` | crates/multiraft-store/src/log_mem.rs:51-64 | the entries of the range in key order |
| `LogStores.FileLog.OpenAt` | crates/multiraft-store/src/log_file.rs:66-82 | fails exactly on a file that does not parse; else memory is what the two files say, temporary files ignored |
| `LogStores.FileLog.PersistHardState` | crates/multiraft-store/src/log_file.rs:92-99 | the disk passes through a partial and a whole temporary file, then the rename |
| `LogStores.FileLog.PersistLog` | crates/multiraft-store/src/log_file.rs:101-104 | the same for the log file, entries in key order |
| `LogStores.FileLog.PersistAll` | crates/multiraft-store/src/log_file.rs:106-110 | hard state first, then the log |
| `LogStores.FileLog.AppendEntries` | crates/multiraft-store/src/log_file.rs:154-164 | each entry is stored as it is under its index and no other index changes; both files are replaced, passing through exactly the specified disk states |
| `LogStores.FileLog.Truncate` | crates/multiraft-store/src/log_file.rs:166-176 | memory as the memory store, only the log file replaced |
| `LogStores.FileLog.PurgeUpTo` | crates/multiraft-store/src/log_file.rs:178-189 | memory as the memory store, both files replaced, mark first; a panic touches nothing |
| `LogStores.FileLog.RecordVote` | crates/multiraft-store/src/log_file.rs:145-148 | the vote is in memory and in the hard state file, nothing else changes |
| `LogStores.FileLog.RecordCommitted` | crates/multiraft-store/src/log_file.rs:136-139 | the committed id is in memory and in the hard state file, nothing else changes |
| `LogStores.FileLog.GetLogState` | crates/multiraft-store/src/log_file.rs:123-134 | answers as the memory store does |
| `LogStores.FileLog.TryGetLogEntries` | crates/multiraft-store/src/log_file.rs:112-121 | answers as the memory store does |
| `Initialization.StepKeepsInv` | crates/multiraft-net/src/multiraft.rs:319-359 | every step of any call, and any restart, keeps: claims are distinct and follow readiness, and an unclaimed group has a member that still owes the claiming call |
| `Initialization.GroupIsClaimedOnce` | crates/multiraft-net/src/multiraft.rs:136-155 | over every run, repeats and restarts included, a group is claimed at most once and only when all members are ready |
| `Initialization.ReturnedStaysThrough` | crates/multiraft-net/src/multiraft.rs:319-359 | a call that came back Ok counts as returned ever after, restarts of its node included |
| `Initialization.ClaimedWhenAllReturned` | crates/multiraft-net/src/multiraft.rs:335-351 | once every member has had a call return Ok, whatever restarted since, the group is claimed if and only if no standby is listed as a member |
| `Initialization.InitializedWhenAllReturned` | crates/multiraft-net/src/multiraft.rs:345-351 | once every member has had a call return Ok, whatever restarted since, the group has been initialised if and only if no standby is listed, nobody is still initialising, and the one claim was not lost to a failure or a restart |
| `Readiness.AllLocalAtClaimExactly` | crates/multiraft-net/src/multiraft.rs:135-150 | when a call wins the claim, every member has its local raft if and only if each member that restarted was spawned again since |
| `Readiness.AbsentMemberCounts` | crates/multiraft-net/src/multiraft.rs:145-150 | a run in which a member marks and goes away, and the other claims and initialises without it |
| `Initialization.RunKeepsFate` | crates/multiraft-net/src/multiraft.rs:348-350 | in every run a claim has exactly one fate: pending in one call, succeeded, or lost |
| `Initialization.FailedClaimIsKept` | crates/multiraft-net/src/multiraft.rs:348-350 | a run in which the only member's first call claims and fails, its second returns Ok, and nothing was ever initialised |
| `Initialization.ListedStandbyPreventsClaim` | crates/multiraft-net/src/multiraft.rs:340-343 | a run in which a voter's and a listed standby's calls both return Ok and nobody has claimed |
| `Initialization.ClusterGlue.MarkReady` | crates/multiraft-net/src/multiraft.rs:145-150 | performs the mark step of the protocol and keeps its invariant; true exactly when all members are ready, and then the call goes on to claim |
| `Initialization.ClusterGlue.TryClaimInit` | crates/multiraft-net/src/multiraft.rs:152-154 | performs the claim step of the protocol and keeps its invariant; a winner's group was claimed by no call before it and has all members ready |
| `Channels.AnswersShareOneChannel` | crates/multiraft-net/src/grpc/router.rs:81-110 | however many tasks race, all that got a channel to a peer got the same one |
| `Channels.LinksCountPeers` | crates/multiraft-net/src/conn_metrics.rs:25-33 | counted links never exceed the configured peers, and equal the cached channels once no task is between insert and count |
| `Channels.GrpcRouter.CheckCache` | crates/multiraft-net/src/grpc/router.rs:82-91 | performs the check step and keeps the invariant; an error exactly for an unknown peer, a dial exactly for a known one that is not cached |
| `Channels.GrpcRouter.PublishChannel` | crates/multiraft-net/src/grpc/router.rs:100-107 | performs the publish step and keeps the invariant; the task goes on with the channel cached now, whoever dialled it, and no cached channel is ever replaced |
| `Channels.GrpcRouter.RecordPeer` | crates/multiraft-net/src/conn_metrics.rs:25-28 | performs the record step and keeps the invariant; the task answers with the cached channel and the count stays within the configured peers |
| `Idempotency.KeySource.NextIdem` | crates/multiraft-demo/src/main.rs:495-498 | the key of the node and the number of calls so far |
| `Idempotency.OrOfHalvesIsSum` | crates/multiraft-demo/src/main.rs:497-497 | on all 64-bit words the shifted node id and the masked counter share no bit, so or-ing them is the sum the key is modelled by |
| `Idempotency.KeyHalves` | crates/multiraft-demo/src/main.rs:495-498 | the key's high half is the node id's low 32 bits, its low half the number of the call counted from one |
| `Idempotency.KeysCollideExactly` | crates/multiraft-demo/src/main.rs:495-498 | two keys are equal if and only if node ids and call numbers agree in their low 32 bits |
| `Idempotency.KeysAreUnique` | crates/multiraft-demo/src/main.rs:391-392 | node ids below 2^32 and 2^32 calls per lifetime never repeat a key |
| `Lifetimes.Lifetime` | crates/multiraft-demo/src/main.rs:495-498 | one process lifetime gives its k-th increment the node's k-th key, whatever others do in between |
| `Lifetimes.RestartLosesIncrements` | crates/multiraft-demo/src/main.rs:391-392 | in every log of two lifetimes of one node, with other clients' commands anywhere, every increment of the first lifetime counts, and of the second exactly the first min(a, b) are lost, a and b being the numbers of increments |
| `Lifetimes.PlusIsSum` | crates/multiraft-fsm/src/counter_fsm.rs:51-51 | deltas added one by one give the plain total where it fits in 64 bits |
| `Retries.ProposeUntilSettled` | crates/multiraft-demo/src/main.rs:807-859 | the outcome is that of the first reply other than "not leader", over the leaders and then over all nodes, with its index and term, and "unavailable" exactly when there is none; both loops add nothing of the key to the log but copies of the one command, also when an unanswered propose is committed after a later one, and Ok means at least one is there |
| `Retries.GroupInc` | crates/multiraft-demo/src/main.rs:804-870 | in every later log, whenever unanswered proposes are committed, the counter is what the other clients alone would produce plus the delta at most once, and exactly once on Ok |

## Left out

- openraft itself: election, replication, quorums. Its promises are the assumptions listed above.
- The leader's node id inside log ids. Catalog paths fill in zero and its order depends on openraft; a log id is (term, index).
- Membership carried by durable and catalog snapshots: the code stores a default there. Claims about membership are made for `apply` and the hot build only; the membership of an advertised snapshot is left open in `Standby.Next`.
- `serde_json` and SHA-256 beyond round trips and injectivity. A cut-off JSON object or array is taken not to parse.
- Power loss: the log files are not fsynced, so only process crashes are modelled, with atomic renames.
- I/O errors of the log store that leave memory ahead of the files. A write succeeds or the process dies.
- Restart after a purge without a catalog: the hot snapshot lives in memory only, so `LogShape.ReopenAndReplay` asks that nothing was purged.
- Clusters whose nodes run different snapshot modes. A snapshot without a last log id would be catalogued as (0, 0) there; it cannot arise when all nodes offload.
- StandbyTheorems.CatalogKeepsUpWithCurrent: speaks of the catalog's directories at one moment; what a listing spread over time answers is the subject of `CatalogListing`.
- Two calls writing the same catalog file byte by byte at the same moment: their effects alternate in parts and whole files, a mix of both contents is not modelled.
- The `sha256` side file, fsync of directories, stray files in a group's directory, and the group field of a meta file.
- `read_vote` and `read_committed` as methods, and the vote and committed setters of the memory store: they are operations of `LogSpec.After` and `LogSpec.AnswerOf`, so the refinement covers them.
- LogStores.MemLog.TryGetLogEntries: requires a range that is not inverted, because the ordered map panics on one; openraft passes none.
- LogStores.FileLog.TryGetLogEntries: requires a range that is not inverted, for the same reason.
- An index of 2^64 - 1 in `truncate_after`, whose successor would overflow; indexes are unbounded here.
- The overflow panic of a debug build in the counter: the model wraps at 64 bits as a release build does.
- Liveness: that a build, an install or a call ever finishes.
- `create_group` across processes, where every node calls `initialize` and losers are ignored, and `initialize` itself.
- The gRPC server and dispatch, HTTP admin, command line, advertisements, leader watcher, timeouts, shell scripts and the Jepsen suite.

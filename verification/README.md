# Verified models of the agent store

This project models the storage and causality core of the agent runtime in Dafny and proves what
it is relied on for. `dafny verify dfyconfig.toml` checks everything.

**redb transaction layer.** One writer, counted readers, durable and non-durable commits,
ephemeral and persistent savepoints, crash and repair.

- `Ledgers`, `Mvcc`: the protocol as a state machine. A root is the set of pages reachable from
  it, a page table is a ledger from pages to transaction ids, a commit is one step, a crash falls
  back to the last durable commit.
- `MvccInvariant`, `MvccSteps`, `MvccRestore`, `MvccCommit`, `MvccDurable`, `MvccNonDurable`: the
  inductive invariant and its preservation by every step. Its two central parts are `Cover` (a
  root's pages are in use or queued under a later transaction) and `Conserve` (a savepoint's pages
  and everything allocated since are exactly the pages in use and everything queued since).
- `MvccTheorems`, `MvccSavepoints`, `MvccReadRace`: what follows for whole runs.
- `MvccOutcome`: page by page, what exactly a commit gives back and what a restart finds.
  `MvccHistory`: what the reference counts, the unprocessed commits and the unpersisted pages stand
  for, in terms of the events that led to them. `MvccVersions`: the machine users see, versions of
  the data and who holds which, and that the protocol refines it.
- `PageTables`, `Tracker`, `Engine`, `EngineParts`, `DatabaseSteps`: the imperative code. Chunked
  page tables, the allocator's page sets, the reference counts and the commit, restore, abort and
  repair methods, each proved to be the step of the state machine with the same name.
- `DatabaseObject`: the database as one object. `Valid()` says that its fields stand for a state
  some run of the protocol reaches (`MvccTheorems.Reached`), and every method makes one guarded
  step, so what is proved of runs is proved of every use of the object, across crashes.
- `Relocation`: compaction of all trees with one map.

**redb encodings and multimap.** `CodecBytes`, `CodecTypes`, `Codec`, `CodecProofs`, `CodecLoops`:
a deep embedding of the storable types with encoding, decoding and comparison of encodings.
`CodecLayout` and `CodecOrder` say byte by byte what the encodings are and, in terms of the values,
which of two keys comes first.
`Multimap`: inline collections and subtrees behind one relation, in the order of the value type.

**Causal log and actor.** `CausalLog`: the byte-ordered secondary index. `ActorDisk`, `ActorLog`,
`ActorPhase`, `ActorScript`, `ActorCore`, `CauseHandles`, `Actor`: host functions, `process_one` and
`run_loop`, with a clock reading in every call and message, over a store and a log that may be cut off after any write and
that all other agents write to: `Disk.outside` is any schedule of their blocks, snapshots and
entries, taken up before every single write, host call and message of the agent. A foreign write
must only be what an agent of the same kind can write: what it refers to is there, and it is not
signed by this agent. `ActorPhase` and `ActorScript` compute from calls and messages alone what
becomes of the agent and what it tells the log; the methods of `Actor` are proved to do that.
`DenialLimiter`: the rate limit on denial entries.

**Capabilities and graphs.** `Capabilities`, `CapabilityLab`, `CapabilityAgreement`: eager and lazy
revocation. `Ancestors`: the breadth-first search. `Journal`: the compensation journal.

## Findings

- `begin_read` registers the last committed id and reads the data root in two separate steps
  (`poc/redb-fork/src/db.rs` 508-513, `poc/redb-fork/src/transactions.rs` 2092-2103). If a
  non-durable commit lands between them, the registered id is not a pending commit, so
  `oldest_live_read_nondurable_transaction` overlooks the reader and a later non-durable commit can
  free pages of the root it holds. `MvccReadRace.RaceIsReachable` is a run from an empty database.
  `MvccReadRace.FetchIsSafeIffProtected` is the exact condition in every state: the registered id
  is a pending commit, or the root has no unpersisted page, or a persistent savepoint exists
  (`MvccInvariant.RootProtected`). `Run` is the runs in which a fetch happens under that condition.
  It holds whenever no commit lands between the two steps
  (`MvccReadRace.UndisturbedFetchIsProtected`).
- A supervisor's rollback to a sequence number below the counter that is not on the current
  snapshot chain (it was rolled back before) ends the actor as if its store were broken, although
  the chain is intact: `Actor.Instance.HandleRollback` states exactly when, and
  `Actor.RollbackToLostNumber` gets there from an empty disk.
- An agent that asks for validation is not always kept waiting for the verdict. Its own later
  `agent_checkpoint` or `agent_infer`, or a session boundary on the same message, overwrites the
  awaiting state (`poc/runtime/src/actor.rs` 1717-1722, 2201, 2354 and 2425-2427 against 2681):
  `ActorPhase.RequestsAreLost`. A request made while a session resumes is left standing and nobody
  waits (2886-2907): `Actor.ResumedRequestIsLost`. `ActorPhase.VerdictAwaited` is the exact
  condition after a data message, and `Actor.Instance.HandleMessage` states that no other message
  is followed by a wait.
- `decisions/0014-politique-supervision.md` 24-29 promises that after `agent_terminate` no host
  function has an effect. `agent_infer` (`poc/runtime/src/actor.rs` 2148-2356) does not look at the
  flag and still appends two entries: `Actor.InferAfterTermination`.
- `decisions/0019-primitive-agent-infer.md` 211 and 401-404 show the outcome of an inference as
  following its request in the causal log. In the code the request gets the parent the waiting entry
  has, and the outcome descends from the waiting entry, not from the request:
  `Actor.Instance.HostInfer`.
- The comment of `revoke_owned_after` says it does not cascade; the code calls the cascading
  `revoke`. The code is modelled.
- The lab lets a capability be derived from an unrevoked row whose ancestor is revoked, the store
  does not. Such a row is never accepted (`CapabilityAgreement.OrphansRefused`). The two systems
  agree all through a history exactly if they decide every derivation from a live parent alike
  (`CapabilityAgreement.AgreeIffAlike`).
- Pages freed right after a non-durable commit stay in the set of unpersisted pages, and a durable
  commit leaves `unprocessed_freed_non_durable_commits` as it is. Both are modelled as in the code;
  neither does harm.

## Model

| member | source | states |
|---|---|---|
| `MvccTheorems.StepInv` | poc/redb-fork/src/transactions.rs:1612-1746 | every step of the protocol keeps the invariant |
| `MvccTheorems.RunSafe` | poc/redb-fork/src/transactions.rs:1810-1947 | in every run, every page of a live reader, a valid savepoint, the last committed and the last durable roots and the open write transaction is allocated |
| `MvccTheorems.RunPartition` | poc/redb-fork/src/transactions.rs:902-1002 | with no write transaction open, the allocated pages are the disjoint union of data tree, system tree and the two freed tables |
| `MvccTheorems.DurableCommitOverwritesNothingLive` | poc/redb-fork/src/transactions.rs:1612-1617 | what a durable commit frees before its root is on disk is reachable from no root a crash falls back to, no reader and no savepoint |
| `MvccTheorems.SavedIsRepaired` | poc/redb-fork/src/transactions.rs:1612-1685 | the allocator a durable commit leaves, and saves with quick repair, is what a repair would rebuild |
| `MvccDurable.DurableHarmless` | poc/redb-fork/src/transactions.rs:1810-1848 | the durable rule (before the oldest reference, plus one) frees no page a reference still covers |
| `MvccNonDurable.NonDurableHarmless` | poc/redb-fork/src/transactions.rs:1850-1947 | the non-durable rule (unpersisted pages, capped by the oldest savepoint) frees no page a reference still covers |
| `MvccDurable.DurableInv` | poc/redb-fork/src/transactions.rs:1612-1685 | a durable commit keeps the invariant |
| `MvccNonDurable.NonDurableInv` | poc/redb-fork/src/transactions.rs:1688-1746 | a non-durable commit keeps the invariant, the durable roots included |
| `MvccCommit.AllocationStays` | poc/redb-fork/src/transactions.rs:1567-1578 | purging the allocated table below the oldest savepoint changes nothing any valid savepoint needs |
| `MvccRestore.RestoreInv` | poc/redb-fork/src/transactions.rs:1152-1259 | restoring keeps the invariant, with newer readers open and after earlier restores |
| `MvccRestore.RestoreConserves` | poc/redb-fork/src/transactions.rs:1187-1234 | after a restore the conservation law still holds for every savepoint that stays valid |
| `MvccSavepoints.RestoreThenDurableCommit` | poc/redb-fork/src/transactions.rs:1187-1256 | restore then durable commit gives exactly the savepoint's pages as data root; exactly the pages allocated since are queued, each once, and the previous root is wholly in use or queued |
| `MvccSavepoints.RestoreThenNonDurableCommit` | poc/redb-fork/src/transactions.rs:1187-1256 | the same with a non-durable commit, where the durable root is wholly in use or queued |
| `MvccSavepoints.RepairCoversSavepoints` | poc/redb-fork/src/db.rs:809-894 | the repaired allocator covers every persistent savepoint and every page of the allocated table |
| `MvccSavepoints.RunSurvivesCrash` | poc/redb-fork/src/db.rs:933-972 | a crash at any point of any run leaves a state in which everything live is allocated |
| `MvccSavepoints.RunKeepsSavepoints` | poc/redb-fork/src/db.rs:952-972 | and in which every persistent savepoint is valid with the same pages, all allocated |
| `MvccSavepoints.SavepointsSurviveCrash` | poc/redb-fork/src/db.rs:952-972 | after reopening, every persistent savepoint is valid, referenced and can be restored |
| `MvccReadRace.FetchIsSafeIffProtected` | poc/redb-fork/src/transaction_tracker.rs:303-313 | in every state the invariant allows, with or without writer and savepoints, the root a reader fetches survives every continuation if and only if the registered id is pending, the root has no unpersisted page, or a persistent savepoint exists |
| `MvccReadRace.RaceIsReachable` | poc/redb-fork/src/db.rs:508-513 | a run from a new database after which a reader loses a page |
| `MvccReadRace.UndisturbedFetchIsProtected` | poc/redb-fork/src/db.rs:1018-1027 | after any steps other than commits between registering and fetching, the root is protected |
| `MvccOutcome.DurableKeeps` | poc/redb-fork/src/transactions.rs:1612-1617 | after a durable commit a data page queued under `t` is still queued, under `t`, exactly if `t` is the committing transaction or a reference older than `t` is held |
| `MvccOutcome.DurableKeepsSystem` | poc/redb-fork/src/transactions.rs:1832-1845 | the same for a system page queued before |
| `MvccOutcome.DurableFrees` | poc/redb-fork/src/transactions.rs:1810-1830 | a data page that does not stay queued is not allocated any more, unless it was handed out again |
| `MvccOutcome.DurableFreesSystem` | poc/redb-fork/src/transactions.rs:1832-1845 | the same for a system page |
| `MvccOutcome.DurableAllocated` | poc/redb-fork/src/transactions.rs:1612-1685 | after a durable commit exactly the transaction's data tree, the system tree and the two queues are allocated, and committed and durable roots are the same |
| `MvccOutcome.DurableQueuesNothingElse` | poc/redb-fork/src/transactions.rs:1619-1652 | nothing is queued that was not, except what the transaction dropped and, with quick repair, the system pages it dropped |
| `MvccOutcome.VolatileKeeps` | poc/redb-fork/src/transactions.rs:1689-1704 | after a non-durable commit a data page queued under `t` has gone exactly if it was unpersisted, `t` is an unprocessed non-durable commit, no pending commit before `t` is read and no savepoint is as old as `t` |
| `MvccOutcome.VolatileKeepsSystem` | poc/redb-fork/src/transactions.rs:1929-1947 | the same for a system page queued before |
| `MvccOutcome.VolatileQueuesNothingElse` | poc/redb-fork/src/transactions.rs:1706-1726 | nothing else is queued; the system pages it dropped are, unless they were unpersisted |
| `MvccOutcome.VolatileAllocated` | poc/redb-fork/src/transactions.rs:1688-1746 | exactly the new data tree, the system tree and the two queues are allocated, and the durable roots stay |
| `MvccOutcome.AllocationsListed` | poc/redb-fork/src/transactions.rs:1565-1576 | after a commit an allocation made under `t` is listed exactly as long as some savepoint is as old as `t` |
| `MvccOutcome.AllocationsListedOnly` | poc/redb-fork/src/transactions.rs:1540-1563 | and only pages allocated by a tracking transaction or listed before are |
| `MvccOutcome.LoadRestarts` | poc/redb-fork/src/db.rs:916-923 | reopening with the saved allocator: committed and durable roots, ledgers, savepoints and counter are the last durable ones, the references are exactly those of its savepoints, nothing is pending, and the next id is larger |
| `MvccOutcome.CrashRestarts` | poc/redb-fork/src/db.rs:933-972 | the same after a crash and repair, under the next id |
| `MvccHistory.RunHolders` | poc/redb-fork/src/transaction_tracker.rs:173-251 | in every state of every run a reference is held exactly if some event took it and none has given it back |
| `MvccHistory.HeldOnTarget` | poc/redb-fork/src/transaction_tracker.rs:173-221 | and it is held on the transaction that was last committed (for a non-durable commit: durable) when it was taken |
| `MvccHistory.RunUnprocessed` | poc/redb-fork/src/transaction_tracker.rs:154-187 | in every state of every run exactly the non-durable commits not processed since are waiting to be |
| `MvccHistory.RunUnpersisted` | poc/redb-fork/src/tree_store/page_store/page_manager.rs:651-684 | in every state of every run the committed pages listed as unpersisted are exactly those a repair of the last durable commit would not find |
| `MvccVersions.StepSeen` | poc/redb-fork/src/transactions.rs:1456-1504 | every step of the protocol is the step of the machine of versions, which knows neither free pages nor ledgers nor references |
| `MvccVersions.RunSeen` | poc/redb-fork/src/transactions.rs:1456-1504 | so what users see in a run follows from the events alone |
| `MvccVersions.ReaderKeepsVersion` | poc/redb-fork/src/transactions.rs:2092-2103 | a reader sees the version that was committed when it fetched its root until it is closed |
| `MvccVersions.DurableComesBack` | poc/redb-fork/src/db.rs:896-975 | what was committed durably last is what a restart brings back, whatever came in between |
| `PageTables.StorePages` | poc/redb-fork/src/transactions.rs:1506-1581 | splitting pages into lists of at most the chunk size loses and duplicates none; keys of one transaction have no gaps |
| `PageTables.ReleaseBefore` | poc/redb-fork/src/transactions.rs:1814-1829 | frees each page listed before the bound exactly once, keeps the rest |
| `PageTables.ReleaseUnpersisted` | poc/redb-fork/src/transactions.rs:1850-1921 | frees exactly the unpersisted pages of the unprocessed transactions before the bound, although a transaction can come up once per list |
| `PageTables.ReleaseOne` | poc/redb-fork/src/transactions.rs:1883-1919 | walking the keys of one transaction until the first gap misses no unpersisted page |
| `PageTables.CollectAfter` | poc/redb-fork/src/transactions.rs:1224-1238 | the queue of a restore lists every page allocated since exactly once |
| `PageTables.PurgeAfter` | poc/redb-fork/src/transactions.rs:1202-1215 | the freed table keeps exactly the entries up to the savepoint |
| `PageTables.Memory.FreeUnpersisted` | poc/redb-fork/src/transactions.rs:1892-1903 | exactly the unpersisted pages of a list are freed, the others are kept in the list |
| `PageTables.Memory.MarkTable` | poc/redb-fork/src/db.rs:722-771 | every listed page is marked, none twice |
| `Tracker.AddReference` | poc/redb-fork/src/transaction_tracker.rs:173-221 | counting up keeps every count equal to the number of its holders |
| `Tracker.DropReference` | poc/redb-fork/src/transaction_tracker.rs:223-231 | a held reference has a positive count, and counting down keeps the counts exact |
| `Tracker.TransactionTracker.ClearPending` | poc/redb-fork/src/transaction_tracker.rs:139-152 | every pending commit gives back its reference and no lookup fails |
| `Tracker.TransactionTracker.RegisterNonDurable` | poc/redb-fork/src/transaction_tracker.rs:173-189 | one reference on the durable ancestor per pending commit |
| `Tracker.TransactionTracker.Release` | poc/redb-fork/src/transaction_tracker.rs:223-230 | gives back one held reference; the lookup and the decrement cannot fail |
| `Tracker.TransactionTracker.DeallocateSavepoint` | poc/redb-fork/src/transaction_tracker.rs:245-251 | removes the savepoint and its reference |
| `Tracker.TransactionTracker.ListAfter` | poc/redb-fork/src/transaction_tracker.rs:260-270 | the valid savepoints with larger ids, ascending |
| `Tracker.TransactionTracker.OldestLiveRead` | poc/redb-fork/src/transaction_tracker.rs:294-301 | the least transaction with a holder |
| `Tracker.TransactionTracker.OldestLiveReadNonDurable` | poc/redb-fork/src/transaction_tracker.rs:305-313 | the least counted transaction that is a pending commit |
| `Tracker.SavepointState.ApplyOnCommit` | poc/redb-fork/src/transactions.rs:790-805 | each deleted savepoint releases its reference once, created ones keep theirs, invalidated ones leave the map |
| `Tracker.SavepointState.ApplyOnAbort` | poc/redb-fork/src/transactions.rs:807-821 | each created savepoint releases its reference once, deleted and invalidated ones keep theirs |
| `Engine.StoreTransaction` | poc/redb-fork/src/transactions.rs:1456-1471 | the tables list the transaction's freed and allocated pages, purged below the oldest savepoint |
| `Engine.ReleaseDurable` | poc/redb-fork/src/transactions.rs:1810-1848 | both freed tables keep what is not released; with quick repair the dropped system pages are queued |
| `Engine.ReleaseVolatile` | poc/redb-fork/src/transactions.rs:1929-1947 | both tables through the non-durable rule, with one set of processed transactions that leaves out none that is due |
| `Engine.RebuildAllocator` | poc/redb-fork/src/db.rs:843-881 | marking two roots and two freed tables rebuilds the allocated set, no page marked twice |
| `EngineParts.InvReady` | poc/redb-fork/src/transactions.rs:1506-1581 | the invariant gives what the methods below ask for |
| `DatabaseSteps.CommitDurable` | poc/redb-fork/src/transactions.rs:1612-1685 | the method on tables, memory, tracker and savepoint state is the protocol's durable commit, whose exact outcome `MvccOutcome` states |
| `DatabaseSteps.CommitNonDurable` | poc/redb-fork/src/transactions.rs:1688-1746 | the method is the protocol's non-durable commit |
| `DatabaseSteps.BoundNonDurable` | poc/redb-fork/src/transactions.rs:1689-1704 | the bound is the oldest pending reader plus one, capped by the oldest savepoint |
| `DatabaseSteps.Commit` | poc/redb-fork/src/transactions.rs:1456-1504 | a commit is one enabled step of the protocol, durable exactly with immediate durability |
| `DatabaseSteps.AbortWrite` | poc/redb-fork/src/transactions.rs:1592-1610 | the method is the protocol's abort |
| `DatabaseSteps.RestoreSnapshot` | poc/redb-fork/src/transactions.rs:1152-1259 | succeeds exactly for a valid savepoint not invalidated here, with immediate durability if newer persistent savepoints exist, and is then the protocol's restore |
| `DatabaseSteps.EphemeralSavepoint` | poc/redb-fork/src/transactions.rs:1128-1147 | refused exactly in a dirty transaction, else the protocol's step |
| `DatabaseSteps.PersistentSavepoint` | poc/redb-fork/src/transactions.rs:1013-1039 | refused exactly without immediate durability or when dirty, else the protocol's step |
| `DatabaseSteps.DeletePersistent` | poc/redb-fork/src/transactions.rs:1074-1092 | refused exactly without immediate durability; else true exactly for a savepoint in the table, whose deletion is recorded once; a missing one still makes the transaction dirty |
| `DatabaseSteps.SetDurability` | poc/redb-fork/src/transactions.rs:1266-1281 | refused exactly for a non-durable commit after persistent savepoints were created or deleted |
| `DatabaseSteps.StartWriter` | poc/redb-fork/src/transaction_tracker.rs:118-130 | the method is the protocol's begin |
| `DatabaseSteps.OpenTable` | poc/redb-fork/src/transactions.rs:600-607 | allocation tracking stops exactly when no savepoint exists |
| `DatabaseSteps.Mutate` | poc/redb-fork/src/tree_store/btree.rs:315-321 | dropped pages are freed at once if uncommitted and queued otherwise |
| `DatabaseSteps.OpenAfterCrash` | poc/redb-fork/src/db.rs:896-975 | reopening after a crash is the protocol's crash step: the durable roots under the next id, repaired allocator, fresh tracker, exactly the persistent savepoints registered |
| `DatabaseSteps.OpenFromSaved` | poc/redb-fork/src/db.rs:916-923 | the roots on disk stay committed and durable, the allocator is the saved one, exactly the persistent savepoints are registered; a step of the protocol, whatever came after the last durable commit |
| `DatabaseSteps.RegisterReader` | poc/redb-fork/src/db.rs:1018-1027 | one more reference on the last committed id |
| `DatabaseSteps.CloseReader` | poc/redb-fork/src/db.rs:320-340 | the reader's reference goes, nothing else |
| `DatabaseSteps.DropEphemeral` | poc/redb-fork/src/tree_store/page_store/savepoint.rs:79-86 | dropping the handle releases its reference and the savepoint |
| `DatabaseObject.Database.AlwaysSafe` | poc/redb-fork/src/transactions.rs:1810-1947 | whatever was done with the object: the pages of both pairs of roots, of every open reader and of every savepoint are allocated |
| `DatabaseObject.Database.RegisterRead` | poc/redb-fork/src/db.rs:1018-1027 | one guarded step of the protocol; the id is the registered one |
| `DatabaseObject.Database.FetchRoot` | poc/redb-fork/src/transactions.rs:2092-2103 | one guarded step, under the exact safety condition |
| `DatabaseObject.Database.BeginRead` | poc/redb-fork/src/db.rs:508-513 | undisturbed, both steps always succeed and the reader holds the committed root |
| `DatabaseObject.Database.CloseRead` | poc/redb-fork/src/db.rs:320-340 | one guarded step |
| `DatabaseObject.Database.BeginWrite` | poc/redb-fork/src/transaction_tracker.rs:118-130 | one guarded step from every reachable state without a writer |
| `DatabaseObject.Database.SetDurability` | poc/redb-fork/src/transactions.rs:1266-1281 | one guarded step, or a refusal that changes nothing |
| `DatabaseObject.Database.OpenTable` | poc/redb-fork/src/transactions.rs:600-607 | one guarded step |
| `DatabaseObject.Database.Mutate` | poc/redb-fork/src/tree_store/btree.rs:315-321 | one guarded step for whatever an update of the tree drops |
| `DatabaseObject.Database.Commit` | poc/redb-fork/src/transactions.rs:1456-1504 | from every reachable state with a writer the commit is one guarded step, durable exactly with immediate durability |
| `DatabaseObject.Database.Abort` | poc/redb-fork/src/transactions.rs:1592-1610 | one guarded step |
| `DatabaseObject.Database.EphemeralSavepoint` | poc/redb-fork/src/transactions.rs:1128-1147 | one guarded step, or a refusal that changes nothing |
| `DatabaseObject.Database.PersistentSavepoint` | poc/redb-fork/src/transactions.rs:1013-1039 | one guarded step, or a refusal that changes nothing |
| `DatabaseObject.Database.DropSavepoint` | poc/redb-fork/src/tree_store/page_store/savepoint.rs:79-86 | one guarded step |
| `DatabaseObject.Database.DeletePersistent` | poc/redb-fork/src/transactions.rs:1074-1092 | the deletion, or only a dirty transaction, or a refusal that changes nothing |
| `DatabaseObject.Database.RestoreSavepoint` | poc/redb-fork/src/transactions.rs:1152-1259 | the restore, or a refusal that at most makes the transaction dirty |
| `DatabaseObject.Database.Recover` | poc/redb-fork/src/db.rs:896-975 | an object made from the durable roots a reached state left behind has these roots under the next id, stands for the state after crash and repair, and is reached again |
| `DatabaseObject.Database.Reopen` | poc/redb-fork/src/db.rs:916-923 | an object made from durable roots and saved allocator, after a clean shutdown or a crash in any reached state, has exactly these roots as committed and durable ones, and is reached again |
| `Relocation.BuildMap` | poc/redb-fork/src/transactions.rs:1762-1797 | the relocation map is injective, goes to free pages, the lowest first, every mapped page has its way from the root mapped, only parents may move up, only pages on the way to one that moves are mapped, and it stops exactly at the first page with no free page below it |
| `Relocation.BuiltIsClosed` | poc/redb-fork/src/transactions.rs:1755-1790 | a map built from paths of all trees moves no page of any tree without its parents |
| `Relocation.PageStore.Relocate` | poc/redb-fork/src/multimap_table.rs:210-291 | the copied tree is stored at the new pages, nothing else is written, and each old page is given up once |
| `Relocation.MovedMeaning` | poc/redb-fork/src/tree_store/btree.rs:282-324 | relocation changes no contents |
| `Relocation.ReplacedAll` | poc/redb-fork/src/tree_store/btree.rs:288-292 | with a closed map the pages given up are exactly the mapped pages of the tree |
| `Relocation.MovedExactly` | poc/redb-fork/src/tree_store/btree.rs:282-324 | the moved tree stands exactly on the old pages that stay and the new pages of the others |
| `Relocation.ForestReplaced` | poc/redb-fork/src/tree_store/table_tree.rs:655-684 | and over all trees exactly the mapped pages of the database |
| `Relocation.ForestMoved` | poc/redb-fork/src/tree_store/table_tree.rs:655-684 | the moved trees again share no page, and stand exactly on the pages that stay and the new ones |
| `Relocation.RelocateAll` | poc/redb-fork/src/tree_store/table_tree.rs:655-684 | disjoint trees moved one after the other with one map are all stored at their new pages, each old page given up once |
| `Relocation.Compact` | poc/redb-fork/src/transactions.rs:1750-1806 | for any disjoint trees and paths down them: every tree keeps its meaning, exactly the mapped pages of all trees are freed, each once, no tree uses one of them any more, and pages have moved until one had no free page below it |
| `CodecBytes.VarintRoundTrip` | poc/redb-fork/src/complex_types.rs:6-34 | a length reads back before any suffix; it panics exactly above 32 bits |
| `CodecLayout.VarintShape` | poc/redb-fork/src/complex_types.rs:6-18 | one byte below 254, else the marker 254 or 255 and two or four bytes, lowest first |
| `CodecBytes.LeRoundTrip` | poc/redb-fork/src/types.rs:607-642 | little-endian integers read back |
| `CodecTypes.CompareTotal` | poc/redb-fork/src/types.rs:154-160 | the order of key values is antisymmetric, and equal only on equal values |
| `CodecTypes.CompareTransitive` | poc/redb-fork/src/types.rs:154-160 | the order of key values is transitive |
| `CodecProofs.RoundTrip` | poc/redb-fork/src/types.rs:104-121 | for every type of the universe decoding undoes encoding, and a fixed-width type takes its declared width |
| `CodecProofs.EncodeInjective` | poc/redb-fork/src/types.rs:104-121 | different values have different encodings |
| `CodecProofs.OptRoundTrip` | poc/redb-fork/src/types.rs:251-293 | options, with padding for a fixed-width absent value |
| `CodecProofs.VecRoundTrip` | poc/redb-fork/src/complex_types.rs:36-90 | vectors, with a length per element unless the width is fixed |
| `CodecProofs.ArrayRoundTrip` | poc/redb-fork/src/types.rs:392-456 | arrays, with end offsets unless the width is fixed |
| `CodecProofs.TupleRoundTrip` | poc/redb-fork/src/tuple_types.rs:75-166 | tuples, with the length of the last element left out |
| `CodecProofs.SignedRoundTrip` | poc/redb-fork/src/types.rs:607-642 | two's complement integers |
| `CodecProofs.IntegerBytes` | poc/redb-fork/src/types.rs:607-642 | the other way round: every byte string of an integer's width is the encoding of what it decodes to |
| `CodecLayout.NumberBytes` | poc/redb-fork/src/types.rs:607-642 | byte `i` of an integer is its digit `i` to the base 256, in two's complement |
| `CodecLayout.CharBytes` | poc/redb-fork/src/types.rs:566-594 | a character is three such bytes |
| `CodecLayout.BoolBytes` | poc/redb-fork/src/types.rs:203-236 | true is one, false is zero |
| `CodecLayout.OptionBytes` | poc/redb-fork/src/types.rs:274-286 | tag one and the value, or zeros as wide as a present value of fixed width |
| `CodecLayout.VecBytes` | poc/redb-fork/src/complex_types.rs:71-90 | the count, then each element, after its length unless the width is fixed |
| `CodecLayout.ArrayBytes` | poc/redb-fork/src/types.rs:428-450 | element `i` of an array stands between the end offsets `i - 1` and `i`, which stand in front |
| `CodecLayout.PairBytes` | poc/redb-fork/src/tuple_types.rs:8-32 | a pair is the length of its first element unless the width is known, and the two elements |
| `CodecProofs.CompareAgrees` | poc/redb-fork/src/tuple_types.rs:168-222 | comparing encodings of a key type gives what comparing the values gives |
| `CodecProofs.CompareRawTotal` | poc/redb-fork/src/types.rs:458-486 | the order of encodings never panics, is antisymmetric, and equal only on equal bytes |
| `CodecProofs.CompareRawTransitive` | poc/redb-fork/src/types.rs:458-486 | the order of encodings is transitive |
| `CodecOrder.KeyOrder` | poc/redb-fork/src/tuple_types.rs:168-222 | of two keys of any key type the encodings compare as less exactly if the value comes first: the smaller number or character, false before true, absent before present, bytes, arrays and tuples at the first difference, a proper prefix before the longer string |
| `CodecOrder.NumberOrder` | poc/redb-fork/src/types.rs:644-655 | encoded integers and characters compare as less exactly if `i < j` |
| `CodecOrder.BytesOrder` | poc/redb-fork/src/types.rs:386-390 | byte strings by the first differing byte, or the proper prefix |
| `CodecOrder.ListOrder` | poc/redb-fork/src/types.rs:458-486 | lists by the first differing element |
| `CodecProofs.FixedEncodes` | poc/redb-fork/src/types.rs:392-456 | a fixed-width type never panics when encoding |
| `CodecLoops.VecAsBytes` | poc/redb-fork/src/complex_types.rs:71-90 | the pushing loop produces the layout |
| `CodecLoops.ArrayAsBytes` | poc/redb-fork/src/types.rs:428-450 | reserving offsets and patching them in place produces the layout |
| `CodecLoops.ReadLens` | poc/redb-fork/src/tuple_types.rs:43-56 | the offset loop parses the length prefix |
| `CodecLoops.ReadVec` | poc/redb-fork/src/complex_types.rs:50-69 | the offset loop parses the elements and fails on leftovers |
| `Multimap.KeyTypeLawful` | poc/redb-fork/src/types.rs:154-160 | every key type compares its encodings by a total order, which is all the table asks of the value type |
| `Multimap.MultimapTable.Insert` | poc/redb-fork/src/multimap_table.rs:1032-1195 | for every value type: the relation gains exactly the pair, the result says whether it was there, the count is exact, no other entry changes; the values are inline exactly if they were, or are new, and fit below half a page; too large is refused |
| `Multimap.MultimapTable.Remove` | poc/redb-fork/src/multimap_table.rs:1200-1329 | the relation loses exactly the pair, no other entry changes; the values are inline exactly if they were or a single leaf is left that fits below half a page |
| `Multimap.MultimapTable.RemoveAll` | poc/redb-fork/src/multimap_table.rs:1334-1381 | all values of the key, ascending in the order of the value type, and the count drops by their number |
| `Multimap.MultimapTable.Get` | poc/redb-fork/src/multimap_table.rs:1411-1425 | an iterator over exactly the values of the key, in their order, none for a missing key |
| `Multimap.NonEmptySets` | poc/redb-fork/src/multimap_table.rs:623-640 | every key present has a non-empty set whose size is the stored count |
| `Multimap.Position` | poc/redb-fork/src/tree_store/btree_base.rs:462-484 | binary search by the order of the value type finds the value or the place that keeps the order |
| `Multimap.ValueIter.Next` | poc/redb-fork/src/multimap_table.rs:478-491 | the next value from the front; `len` drops by one |
| `Multimap.ValueIter.NextBack` | poc/redb-fork/src/multimap_table.rs:493-506 | the next value from the back; `len` drops by one |
| `Multimap.ValueIter.Exhausted` | poc/redb-fork/src/multimap_table.rs:849-883 | after any interleaving until exhaustion every value came out once |
| `CausalLog.KeyOrder` | poc/causal-log/src/lib.rs:508-514 | the byte order of index keys is agent, then time, then id |
| `CausalLog.BeOrder` | poc/causal-log/src/lib.rs:508-514 | big-endian time stamps compare like numbers |
| `CausalLog.Log.Append` | poc/causal-log/src/lib.rs:461-473 | index and entries stay in step; appending again changes nothing |
| `CausalLog.Log.Query` | poc/causal-log/src/lib.rs:527-551 | exactly the agent's entries in the inclusive range, in order of time and id, each once; the early exits skip nothing |
| `CausalLog.Log.Scan` | poc/causal-log/src/lib.rs:557-571 | the full scan yields exactly the agent's entries |
| `ActorDisk.Disk.Append` | poc/runtime/src/actor.rs:2124-2136 | the log stays a DAG whose hashes are zero or stored, after this write as after every earlier one |
| `ActorDisk.Disk.PutSnapshot` | poc/store/src/lib.rs:104-111 | every snapshot has its block and its ancestors |
| `ActorDisk.Disk.RollbackPath` | poc/store/src/lib.rs:141-170 | the chain from the tip to the wanted number, each element the parent of the one before; on falling chains it fails exactly if there is none |
| `ActorDisk.AncestorsStored` | poc/store/src/lib.rs:141-170 | all ancestors of a stored snapshot and their blocks are stored |
| `ActorDisk.Disk.Meanwhile` | poc/runtime/src/actor.rs:2655-2665 | whatever other agents write keeps the disk integral and adds no entry of this agent |
| `ActorLog.NewSince` | poc/causal-log/src/lib.rs:461-473 | an entry chained to an earlier one of its agent is not in the log yet, unless it is one the agent has written since |
| `ActorLog.BoundaryForeign` | poc/causal-log/src/lib.rs:461-473 | entries of other agents leave the counts of an agent alone |
| `ActorLog.BoundaryCountsAppend` | poc/runtime/src/actor.rs:1021-1047 | the counts in the log grow by exactly what a new boundary entry carries |
| `ActorPhase.RequestStands` | poc/runtime/src/actor.rs:1888-1921 | the guest leaves its request standing exactly if it never terminates and neither checkpoints nor infers after some request |
| `ActorPhase.VerdictAwaited` | poc/runtime/src/actor.rs:2666-2681 | after a data message a verdict is awaited exactly if the message does not fail, a request stands and no session boundary falls on it |
| `ActorPhase.RequestsAreLost` | poc/runtime/src/actor.rs:1717-1722 | a checkpoint or an inference after the request, and a session boundary, each lose it |
| `ActorPhase.SucceedsIffOrderly` | poc/runtime/src/actor.rs:2374-2386 | the message succeeds exactly if the guest returns and, until it terminates, every emit is in bounds and has a barrier of its own before it |
| `ActorPhase.EmitsAreLogged` | poc/runtime/src/actor.rs:2079-2142 | of such a guest every emit is in the log, in order |
| `ActorPhase.CounterCounts` | poc/runtime/src/actor.rs:1593-1660 | the counter grows by the barriers made before termination |
| `ActorPhase.CallsTell` | poc/runtime/src/actor.rs:1717-1921 | what each of the other host functions leaves in the log, before and after termination |
| `ActorPhase.FirstBarrierLogged` | poc/runtime/src/actor.rs:2388-2405 | the first barrier of such a guest gets its entry exactly if no other barrier comes before the next emit |
| `ActorScript.EveryMessageCounts` | poc/runtime/src/actor.rs:2647-2652 | over any number of messages for such guests that ask for nothing: each is handled, the counter grows by all their barriers, and the entries of all their emits and flushed barriers are in the log, in order |
| `ActorScript.MessageFates` | poc/runtime/src/actor.rs:2647-2723 | a message is refused exactly if its cause is not in the log, and dropped exactly if it comes before the one that ends a wait |
| `ActorScript.TakenFromFront` | poc/runtime/src/actor.rs:2647-2652 | messages are taken from the front, at least one in every round until the loop stops |
| `ActorScript.FinishedState` | poc/runtime/src/actor.rs:2908-2916 | a closed inbox ends the actor, with an entry, unless it is suspended, terminated or has stopped |
| `ActorScript.QuietMessage` | poc/runtime/src/actor.rs:2652-2668 | a message whose guest calls nothing leaves an Active entry and changes nothing else |
| `ActorScript.FailedMessage` | poc/runtime/src/actor.rs:2666-2680 | a message that fails ends the actor, and the last entry says whether the watchdog did |
| `ActorScript.FirstBarrierOfMessage` | poc/runtime/src/actor.rs:2652-2680 | when the first barrier of a data message has its entry |
| `Actor.ResumedRequestIsLost` | poc/runtime/src/actor.rs:2886-2907 | a request made while a session resumes is left standing, and the answer to it is ignored |
| `CauseHandles.CauseHandleRegistry.Mint` | poc/runtime/src/actor.rs:97-102 | one grant more, in the store of the grantee's tenant; no other changes |
| `CauseHandles.CauseHandleRegistry.RevokeIssued` | poc/runtime/src/actor.rs:164-176 | in the stores of all tenants exactly what the agent issued after the time is gone, and the rest is as it was |
| `Actor.Instance.LogLifecycle` | poc/runtime/src/actor.rs:893-933 | the entry and the new state; Terminated is never left |
| `Actor.Instance.LogCrash` | poc/runtime/src/actor.rs:946-986 | one entry with the cause, then Terminated and stopped |
| `Actor.Instance.RecordVerdict` | poc/runtime/src/actor.rs:989-1018 | Active unless Terminated |
| `Actor.Instance.CloseSession` | poc/runtime/src/actor.rs:1021-1051 | the entry carries the actions since the last boundary, so that for an agent new to the log the counts in all its boundary entries sum to the start of the session |
| `Actor.Instance.LogBoundary` | poc/runtime/src/actor.rs:1021-1053 | the boundary is in the log, a new session starts, Checkpointed unless Terminated |
| `Actor.Instance.HostCommitBarrier` | poc/runtime/src/actor.rs:1593-1660 | block, snapshot and pending entry chained to the last snapshot and action; after termination nothing changes |
| `Actor.Instance.HostAddCause` | poc/runtime/src/actor.rs:1665-1712 | the result code of the first failing check, in its order; a cause is added exactly on success |
| `Actor.Instance.HostTerminate` | poc/runtime/src/actor.rs:1726-1731 | Terminated, for good |
| `Actor.Instance.HostSelfRollback` | poc/runtime/src/actor.rs:1781-1848 | succeeds exactly when the chain holds the wanted number; the counter stays |
| `Actor.Instance.HostRequestValidation` | poc/runtime/src/actor.rs:1888-1921 | awaiting validation, unless termination was requested |
| `Actor.Instance.HostEmit` | poc/runtime/src/actor.rs:2079-2142 | the pending commit becomes the entry with the emitted kind and data; without one, or out of bounds, the host reports an error and nothing is logged |
| `Actor.Instance.HostInfer` | poc/runtime/src/actor.rs:2148-2356 | request, outcome and two lifecycle entries with their parents; Active unless Terminated; the outcome does not descend from the request |
| `Actor.InferAfterTermination` | poc/runtime/src/actor.rs:2195-2201 | a terminated agent that infers still writes two entries |
| `Actor.Instance.CheckSession` | poc/runtime/src/actor.rs:2407-2428 | a boundary exactly when the actions or the elapsed time since the first barrier reach their bound, a duration of zero meaning none |
| `Actor.Instance.ProcessOne` | poc/runtime/src/actor.rs:2374-2431 | success, state, counters, snapshot chain and what was told the log are the function of the guest's calls and clock readings that `ActorPhase` states; after success nothing is pending and the session is below its positive bound |
| `Actor.Instance.HandleRollback` | poc/runtime/src/actor.rs:2757-2864 | ignored out of range, fatal exactly when the chain lacks the number, else the snapshot with that number; exactly the capabilities at or below those given to the agent after it and the cause handles it issued after it go, and the entry carries distance, number and count |
| `Actor.RollbackToLostNumber` | poc/runtime/src/actor.rs:2783-2791 | a run that ends the actor as crashed although its chain is intact |
| `Actor.Instance.HandleData` | poc/runtime/src/actor.rs:2652-2728 | if the guest made a barrier that got its entry, the message's cause is among the parents of the entry of the first one; without a barrier it waits for the next; the wait for a verdict happens exactly under the condition of `ActorPhase`; nothing is taken from the inbox otherwise |
| `Actor.Instance.HandleMessage` | poc/runtime/src/actor.rs:2652-2907 | what each kind of message does to the actor and which messages are left; only data messages are followed by a wait, exactly under that condition |
| `Actor.Instance.AwaitVerdict` | poc/runtime/src/actor.rs:2681-2723 | the wait ends at the first verdict, timeout, rollback or suspension; the recorded verdict is the one in the response, or that of a timeout or a cancellation; a rollback is kept, a suspension or a closed inbox stops the actor without an entry |
| `Actor.Instance.RunLoop` | poc/runtime/src/actor.rs:2610-2916 | for every sequence of messages, every choice of the guest, every clock and every schedule of other agents: the actor ends as the fold `ActorScript.Over` of the messages says, with none left unless it has stopped, and no cause that was in the log when the message was taken up counts as unknown; the entries of an agent new to the log tell exactly its story and its boundary counts sum to the start of its session; the disk is integral after each single write, and no handle it issued is left |
| `ActorCore.CarriedIsCaused` | poc/runtime/src/actor.rs:2662-2665 | a cause that came in before a barrier is a parent of the entry that barrier got |
| `Actor.Instance.Round` | poc/runtime/src/fleet/mod.rs:441-455 | a caused message is refused, and changes nothing, exactly when its cause is not in the log by then |
| `DenialLimiter.Decide` | poc/runtime/src/actor.rs:1111-1151 | what becomes of a denial is a function of the resources denied before it in the window: logged by itself up to the rate or as a new resource with room, an aggregate for the first over the rate and for the first new resource without room, else nothing |
| `DenialLimiter.SeenAll` | poc/runtime/src/actor.rs:1120-1127 | up to the limit of distinct resources none is overlooked |
| `DenialLimiter.TalliedOk` | poc/runtime/src/actor.rs:1090-1104 | a window logs at most 133 entries, and an aggregate whenever a denial is not logged by itself |
| `DenialLimiter.CapDeniedLimiter.StreamOk` | poc/runtime/src/actor.rs:758-775 | all windows of any stream of denials are within bounds, every outcome in them is the expected one, and they start at least 1000 ms apart |
| `DenialLimiter.CapDeniedLimiter.Denied` | poc/runtime/src/actor.rs:1106-1155 | each denial goes into the open window, or a new one once 1000 ms have passed |
| `Capabilities.CapabilityStore.GrantRoot` | poc/capabilities/src/lib.rs:54-66 | a new root under an id never used before |
| `Capabilities.CapabilityStore.Delegate` | poc/capabilities/src/lib.rs:71-109 | succeeds exactly for a live, owned, delegable source that covers the permissions, else the first failing check is the error |
| `Capabilities.CapabilityStore.Revoke` | poc/capabilities/src/lib.rs:147-161 | removes exactly the capability and its descendants and returns the drop in size; the worklist ends |
| `Capabilities.CapabilityStore.RevokeOwnedAfter` | poc/capabilities/src/lib.rs:125-143 | removes exactly what is, or is derived from, something the owner got after the time, overlapping victims counted once |
| `Capabilities.CapabilityStore.Check` | poc/capabilities/src/lib.rs:168-180 | one lookup, and the whole chain above is live and has the permission |
| `Capabilities.ChainIsLive` | poc/capabilities/src/lib.rs:87-107 | every ancestor of a live capability is live, delegable and covers its permissions |
| `Capabilities.ScopeCoversTransitive` | poc/capabilities/src/lib.rs:248-250 | scope coverage is transitive |
| `Capabilities.ScopeMeaning` | poc/capabilities/src/lib.rs:248-250 | a scope covers itself and what follows it after a slash, nothing else |
| `Capabilities.CoversIsInclusion` | poc/capabilities/src/lib.rs:87-94 | permissions cover others exactly if they include them |
| `CapabilityLab.ChainValidExact` | lab/daemon/capabilities.py:21-35 | on every table, cyclic ones included, the walk accepts exactly the rows with an unrevoked way to a root |
| `CapabilityLab.AcceptsExact` | lab/daemon/capabilities.py:129-134 | so does the check of a row that starts at its parent |
| `CapabilityLab.OpMeaning` | lab/daemon/capabilities.py:7-11 | an operation satisfies another exactly if it allows all the other does |
| `CapabilityLab.ScopeMeaning` | lab/daemon/capabilities.py:14-18 | a scope covers exactly the strings that begin with it |
| `CapabilityLab.CapabilityTable.Grant` | lab/daemon/capabilities.py:38-89 | accepted exactly without a parent or with an unrevoked, covering one |
| `CapabilityLab.CapabilityTable.Revoke` | lab/daemon/capabilities.py:92-106 | marks one row |
| `CapabilityLab.CapabilityTable.CheckAccess` | lab/daemon/capabilities.py:109-136 | open without rows, else exactly when some accepted row covers the request |
| `CapabilityAgreement.AgreeIffAlike` | lab/daemon/capabilities.py:21-35 | table and store accept the same capabilities all through a history if and only if every derivation from a live parent is decided alike |
| `CapabilityAgreement.EagerIsLazy` | lab/daemon/capabilities.py:129-134 | as long as that is so, a row is accepted by the table exactly when the store holds the capability |
| `CapabilityAgreement.Pair.Derive` | lab/daemon/capabilities.py:53-62 | any derivation put to both is the step of the history, each object answering as the history says |
| `CapabilityAgreement.Pair.Revoke` | poc/capabilities/src/lib.rs:147-161 | cascading removal and a marked row are the same step |
| `CapabilityAgreement.Pair.Accepts` | lab/daemon/capabilities.py:129-134 | on the two objects the walk and the lookup give the same answer, as long as derivations were decided alike |
| `CapabilityAgreement.OrphansRefused` | lab/daemon/capabilities.py:53-62 | what only the table derives has no live parent and is not accepted |
| `Ancestors.GetAncestors` | lab/daemon/actions.py:111-141 | on every graph exactly the existing actions other than the start within the depth, each with its shortest distance, sorted |
| `Ancestors.DistanceUnique` | lab/daemon/actions.py:122-131 | an action has one distance, so the depth reported is the shortest |
| `Ancestors.NearerVisited` | lab/daemon/actions.py:117-136 | when the queue holds nothing nearer than `k`, everything nearer has been visited |
| `Journal.PendingExact` | poc/reconstruct/src/main.rs:379-393 | an agent is left open exactly if some suffix of the journal opens more than it closes |
| `Journal.Incomplete` | poc/reconstruct/src/main.rs:361-404 | reports exactly those agents, without duplicates |

## Left out

- B-tree nodes, checksums, commit slots, caching and the file layout: a tree is its set of pages (transactions), its contents (multimap) or its nodes (relocation).
- Failed commits, I/O errors and lock blocking: every write succeeds and a commit is atomic.
- The termination of the outer compaction loop, and the rewriting of the master table's entries after a table root moved.
- `Mvcc` ids: 64-bit overflow of transaction, savepoint and sequence numbers.
- DatabaseSteps.Mutate: which pages an update adds and drops is an input, not derived from keys.
- DatabaseSteps.CommitDurable: which system pages a commit adds and drops is an input; the retry loop that saves the allocator state is one such choice.
- CodecProofs.RoundTrip: strings are byte strings without UTF-8 validation; floats are left out because they have no order; type names are left out.
- CodecProofs.CompareAgrees: encodings are taken apart before the first difference is looked for, so panics on malformed bytes behind a difference are not distinguished.
- Multimap.MultimapTable.Insert: whether a leaf root splits is an input.
- Multimap.ValueIter.Next: the iterator over a subtree is taken to behave like the one over a leaf.
- Actor.Instance.RunLoop: introspection and the key-value store; the readings a single operation takes of the clock coincide, except that an inference takes two; a restored agent is not modelled; a guest's emit with a kind the runtime uses for its own entries is told apart from these; a message sent past the fleet driver's check of causes is not modelled.
- Actor.Instance.HostInfer: slots, queueing and prompts; the outcome is an input.
- Actor.Instance.HostAddCause: whether the pointer is in bounds and whether a handle covers the action are inputs.
- DenialLimiter.CapDeniedLimiter.Denied: the 32-bit counter within one window is unbounded.
- Hash functions: content ids are taken as injective, in `ActorDisk` by using the content itself.
- Wasm, the scheduler, the inference and I/O queues, SQLite, HTTP, command lines, benchmarks and payload formatting.

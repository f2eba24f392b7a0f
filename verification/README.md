# Session and schedule stores: models and proofs

The repository keeps sessions and schedules behind two store adapters: `jsonlstore`, which uses files, and
`redisstore`, which uses Redis. Both are small protocols with derived indexes: they must stay right when a
process dies between two file operations, when several callers interleave, and when a client is replaced
under load. This project models those protocols in Dafny and proves what they keep over whole runs. JSON,
base64 and SHA-256 are taken as injective, partition locks as mutual exclusion, a file rename or a Redis
script as one atomic step. Verify with `dafny verify dfyconfig.toml`.

How it is organised:

- **Lineage catalog of jsonlstore** (`LineageMachine`, `LineageSafety`, `LineageSteps`, `LineageTheorems`,
  `LineageLimits`, `LineageTwoCrashes`, `LineageRestamp`, `LineageCatalog`). One file write or remove per
  step, a crash between any two, any number of sessions in flight. `LineageCatalog` is the code as it runs,
  with its loops; each method is a run of the machine.
- **Client generations and followers** (`Generations`, `GenerationProgress`, `ClientManager`, `Followers`,
  `FollowerProgress`). Every critical section and every goroutine action is one step.
- **Schedules** (`Schedules`, `ScheduleEffects`, `ScheduleRuns`, `Binary64`, `FileSchedules`, `RedisSchedules`,
  `Decimal`, `FireProgress`). One abstract machine, the two stores as refinements of it, and run theorems.
- **Redis session index** (`ByteOrder`, `IndexKeys`, `SessionIndex`, `SessionIndexRuns`, `SessionEffects`,
  `SessionScripts`, `MetadataPages`, `MetadataCursors`, `Utf8Text`). The scripts, the byte layout that gives the order, and paging.
- **Event logs** (`Lines`, `EventFile`, `EventLog`, `StreamReader`). Bytes, torn tails and cursors in files;
  read-then-check cycles over streams.
- **Workspace and inventory catalog** (`Paths`, `Workspace`, `WorkspaceEffects`, `WorkspaceRuns`,
  `InventoryCatalog`).

A run is a sequence of operations applied by a total step function; an operation that is not enabled changes
nothing. Premises of a run theorem are predicates over the run. The modules named Effects, Progress and
Cursors say, from the fields and without the functions that define the steps, when each operation succeeds,
what it then stores and what it leaves alone, and that a machine which is shut down can always come to rest.

Where the code gives less than its comments suggest, the exact condition is proved:

- Lineage recovery clears every listed marker, so two crashed mutations that share a partition can leave it
  unmarked and incomplete (`TwoCrashesLoseARow`); with one crash at a time it cannot.
- Lineage recovery stamps tombstones anew, so rows agree only up to the deletion time
  (`RecoveryRestamps`, `ExactIffUnshown`).
- A Save that crashes before a session's first snapshot, or while it changes the incarnation, is not always
  recoverable (`RecoverableExactly`).
- A Redis deletion id that equals one of the script's error words is answered with that error although the
  deletion has begun (`RedisStore.BeginDelete`).
- Metadata members of times on both sides of the epoch sort in the wrong order (`OrderNeedsOneSign`).
- A NUL in a session id makes the scripts flip the wrong byte of an edge order member (`EdgeFlipsIff`,
  `TombstoneOrderIff`), and an id that is another one with `:order` appended shares a key with that one's
  order (`KeysStayApart`).
- Saving a tombstoned incarnation again leaves two order members for one record (`ResavedTombstone`).
- A manager built on one shared client closes it under a lease when followers are forced
  (`SharedPairClosedWhileLeased`).
- Two claims at one instant can both win on binary64 if the next slot is exactly 256 ns ahead
  (`MarginIsTight`).
- A time equal to the epoch reads back from Redis as the zero time (`NanoRoundTrip`).
- Creating a workspace file does not look at its ancestors (`CreateKeepsTreeIffFree`).

## Model

| member | source | states |
|---|---|---|
| `LineageTheorems.StepKeeps` | adapters/jsonlstore/lineage.go:270-585 | every file step, start and crash of Save, Delete and recovery, with other sessions mid-flight under disjoint partition locks, keeps the index invariant |
| `LineageTheorems.RunKeeps` | adapters/jsonlstore/lineage.go:270-585 | hence every run keeps it |
| `LineageTheorems.UnmarkedIndexIsComplete` | adapters/jsonlstore/lineage.go:336-397 | in every reachable state an unmarked edge or point partition lists exactly the record rows that refer to it, up to the deletion time of tombstones, and a marked partition is listed in a surviving manifest |
| `LineageTheorems.UnmarkedIndexUnderOneCrash` | adapters/jsonlstore/lineage.go:487-585 | both halves of it under the premise a deployment can observe: at most one crashed, unrecovered mutation at a time |
| `LineageTheorems.UnmarkedIndexIsExact` | adapters/jsonlstore/lineage.go:336-397 | equal rows, deletion times included, in every run whose recoveries find no unmarked partition showing a row that the crashed mutation pruned at another time |
| `LineageTheorems.ExactIffUnshown` | adapters/jsonlstore/lineage.go:431-485 | that condition, on the state before the recovery, is exact: the record write of a recovery keeps all unmarked partitions exact if and only if it holds |
| `LineageTheorems.OneCrashAllowed` | adapters/jsonlstore/lineage.go:431-485 | with one crashed mutation recovery meets no foreign marker |
| `LineageTheorems.OneCrashRunAllowed` | adapters/jsonlstore/lineage.go:431-485 | and so over whole runs |
| `LineageTheorems.UnmarkedHolds` | adapters/jsonlstore/lineage.go:351-396 | entry by entry: in every reachable state an unmarked edge partition holds exactly the rows with its subject among theirs, an unmarked point partition the one row of its child, with the record's subjects, metadata and life |
| `LineageTheorems.SavedIsIndexed` | adapters/jsonlstore/lineage.go:218-235 | in every reachable state, for a session with no mutation running and no manifest: an unmarked partition shows a retained row of it if and only if the current snapshot has that incarnation and the partition's subject among its subjects, and then with the snapshot's subjects and metadata |
| `LineageTheorems.AffectedExactly` | adapters/jsonlstore/lineage.go:246-260 | a mutation locks and marks exactly the incarnation's own edge partition and the edge and point partitions of the new record and of every old row |
| `LineageTheorems.RecoveryLeaves` | adapters/jsonlstore/lineage.go:431-485 | a finished recovery leaves exactly the snapshot's incarnation retained, or none without a snapshot, no listed marker and no manifest |
| `LineageTheorems.RecoverableExactly` | adapters/jsonlstore/lineage.go:431-485 | a crashed Delete is always recoverable; a crashed Save exactly when a snapshot exists whose own edge partition the manifest lists |
| `LineageTheorems.SameIncarnationRecoverable` | adapters/jsonlstore/lineage.go:487-514 | a Save over a snapshot that keeps its incarnation is recoverable after a crash at any step |
| `LineageLimits.ClearingKeepsIff` | adapters/jsonlstore/lineage.go:300-324 | clearing a marker keeps every disagreement behind a marker if and only if the marker is the session's own or its writer no longer needs it |
| `LineageSteps.SteadyAtStart` | adapters/jsonlstore/lineage.go:431-485 | a recovery changes nothing that an unmarked partition shows but deletion times, and not those either if the condition holds |
| `LineageSteps.SteadyOnlyUnshown` | adapters/jsonlstore/lineage.go:431-485 | and only if it holds |
| `LineageTwoCrashes.TwoCrashesLoseARow` | adapters/jsonlstore/lineage.go:300-485 | a concrete run from the empty catalog: two crashes, one recovery, and an unmarked partition lacks a row |
| `LineageRestamp.RecoveryRestamps` | adapters/jsonlstore/lineage.go:431-585 | a concrete run with one crash after which an unmarked partition shows another deletion time than the record |
| `LineageSteps.StartSaveKeeps` | adapters/jsonlstore/lineage.go:487-500 | starting a Save under the partition locks and after the dirty check keeps the invariant |
| `LineageSteps.StartDeleteKeeps` | adapters/jsonlstore/lineage.go:528-572 | starting a Delete keeps it |
| `LineageSteps.StartRecoverKeeps` | adapters/jsonlstore/lineage.go:431-480 | starting a recovery that passes its checks keeps it |
| `LineageSteps.BeginKeeps` | adapters/jsonlstore/lineage.go:270-281 | writing the manifest first keeps it |
| `LineageSteps.MarkKeeps` | adapters/jsonlstore/lineage.go:282-291 | each marker write keeps it |
| `LineageSteps.SnapshotKeeps` | adapters/jsonlstore/lineage.go:507-509 | publishing the snapshot keeps it |
| `LineageSteps.RecordKeeps` | adapters/jsonlstore/lineage.go:336-349 | writing the record partition keeps it |
| `LineageSteps.PublishKeeps` | adapters/jsonlstore/lineage.go:351-396 | each edge or point partition write keeps it |
| `LineageSteps.DropKeeps` | adapters/jsonlstore/lineage.go:580-583 | deleting the snapshot keeps it |
| `LineageSteps.ClearKeeps` | adapters/jsonlstore/lineage.go:300-314 | each marker removal keeps it |
| `LineageSteps.FinalKeeps` | adapters/jsonlstore/lineage.go:300-314 | removing the manifest last keeps it |
| `LineageSteps.CrashKeeps` | adapters/jsonlstore/lineage.go:487-585 | dying between any two file operations keeps it |
| `LineageCatalog.FindRetained` | adapters/jsonlstore/lineage.go:457-469 | the scan of the old rows finds the one retained row if there is exactly one, and tells none from several |
| `LineageCatalog.Catalog.MarkDirty` | adapters/jsonlstore/lineage.go:270-292 | manifest, then one marker per sorted path, as machine steps, or death on the way |
| `LineageCatalog.Catalog.Publish` | adapters/jsonlstore/lineage.go:336-397 | record partition, then every listed partition, as machine steps |
| `LineageCatalog.Catalog.ClearDirty` | adapters/jsonlstore/lineage.go:300-324 | all listed markers and then the manifest are gone on success |
| `LineageCatalog.Catalog.AnyDirty` | adapters/jsonlstore/lineage.go:516-526 | true exactly if a listed partition is marked |
| `LineageCatalog.Catalog.Mutate` | adapters/jsonlstore/lineage.go:487-514 | Save is a run of the machine: refused unchanged on a dirty path, else the snapshot is stored, its row is retained with its subjects and metadata, every other old row keeps them and ends now if it was retained, and no row is lost; or death, only when the process ran out of operations, with files that the machine reaches |
| `LineageCatalog.Catalog.Prune` | adapters/jsonlstore/lineage.go:528-585 | Delete likewise: refused exactly on a dirty path of a stored session, else the snapshot is gone and every row is kept, pruned, and stamped now if it was retained |
| `LineageCatalog.Catalog.Redo` | adapters/jsonlstore/lineage.go:431-485 | recovery likewise: refused unchanged exactly if nothing can be proved or the manifest does not cover it, else no listed marker and the rows of the manifest carried over, with the snapshot's row retained if there is one and every row pruned otherwise |
| `IndexKeys.RecordNameIsLast` | adapters/jsonlstore/lineage.go:46-56 | record file names sort behind all edge and point file names |
| `IndexKeys.RecordSortsLast` | adapters/jsonlstore/lineage.go:294-314 | so the loop over sorted names removes the manifest last |
| `Generations.StepKeeps` | adapters/redisstore/generation.go:91-277 | every critical section and every goroutine action keeps the lifecycle invariant |
| `Generations.RunKeeps` | adapters/redisstore/generation.go:91-277 | hence every interleaving does |
| `Generations.GenerationsAreSafe` | adapters/redisstore/generation.go:158-277 | refs is the number of outstanding leases; a leased durability client is never closed; no client is closed twice; a retired unleased generation is closing; allClosed is closed once, exactly when the manager is closed and every generation has finished |
| `Generations.QuietMeansClosed` | adapters/redisstore/generation.go:191-265 | once closed, unleased and with no goroutine able to act, allClosed has been closed |
| `Generations.ForceReachesDurability` | adapters/redisstore/generation.go:264-277 | forcing the follow half reaches the durability client if and only if both halves are one client |
| `Generations.SharedPairClosedWhileLeased` | adapters/redisstore/generation.go:108-114 | a concrete run that closes a shared client under a lease |
| `GenerationProgress.EveryManagerShutsDown` | adapters/redisstore/generation.go:158-265 | from every reachable manager some continuation gives all leases back and closes the channel once, with both clients of every generation closed exactly once |
| `GenerationProgress.AcquireEffect` | adapters/redisstore/generation.go:158-176 | an open manager adds one lease on its current generation and counts it; a closed one changes nothing |
| `GenerationProgress.ReleaseEffect` | adapters/redisstore/generation.go:178-219 | the lease is gone, the count one less, and the close claimed exactly for the last lease of a retired generation |
| `GenerationProgress.SwapEffect` | adapters/redisstore/generation.go:225-241 | the new pair is current, unleased and owned; the old generation is retired and its close claimed exactly if nobody leases it; the rest stays |
| `GenerationProgress.BeginCloseEffect` | adapters/redisstore/generation.go:243-262 | no current generation; the old one is retired and its close claimed exactly if nobody leases it; the rest stays |
| `ClientManager.Manager.constructor` | adapters/redisstore/generation.go:139-148 | one current, unleased generation |
| `ClientManager.Manager.Acquire` | adapters/redisstore/generation.go:158-176 | refused exactly when closed; otherwise a lease on the current generation and the half asked for, a durability client not being closed |
| `ClientManager.Manager.Release` | adapters/redisstore/generation.go:209-219 | the close is claimed exactly when a retired generation loses its last lease |
| `ClientManager.Manager.SwapPair` | adapters/redisstore/generation.go:225-241 | refused exactly when closed; otherwise the new pair is current and the old one retired |
| `ClientManager.Manager.BeginClose` | adapters/redisstore/generation.go:243-262 | closes once, retires the current generation |
| `ClientManager.Manager.CloseAsync` | adapters/redisstore/generation.go:91-101 | the first call starts one goroutine, later calls none |
| `ClientManager.Manager.StartClose` | adapters/redisstore/generation.go:191-196 | durability and then follow are being closed |
| `ClientManager.Manager.Finish` | adapters/redisstore/generation.go:197-206 | the waiter removes the generation and signals exactly if it was the last of a closed manager |
| `ClientManager.Manager.ForceCloseFollow` | adapters/redisstore/generation.go:264-277 | the follow half of every owned generation is being closed, and no durability client is newly touched |
| `Followers.EffectiveLimits` | adapters/redisstore/redisstore.go:332-348 | accepted exactly for non-negative values with at most as many followers as pool connections; the limits are the values given, or 32 for zero |
| `Followers.RunKeeps` | adapters/redisstore/followers.go:28-70 | every run of admissions, read loops and closes keeps the registry invariant, and a closed registry only shrinks |
| `Followers.LeasesBounded` | adapters/redisstore/cursoreventlog.go:189-255 | from the points where a follower's read acquires and returns its client: at most one lease each, and none by anyone who is not registered |
| `Followers.FollowersAreBounded` | adapters/redisstore/cursoreventlog.go:442-455 | over every run of every accepted configuration: active followers within the limit, follow leases within the pool, all cancelled when closed, allDone closed once and exactly when closed and empty |
| `Followers.NoneAdmittedAfterClose` | adapters/redisstore/followers.go:58-70 | in every continuation of a close nobody is admitted and everybody present was cancelled |
| `FollowerProgress.EveryRegistryDrains` | adapters/redisstore/followers.go:45-70 | from every reachable state, whatever the followers are doing, some continuation of a close empties the registry, returns every lease and closes the channel once |
| `FollowerProgress.LeaseEffect` | adapters/redisstore/cursoreventlog.go:228-255 | each acquire adds one lease and each release returns it, at the points of the read where the source does; a lease refused ends the read |
| `FollowerProgress.LeaveEffect` | adapters/redisstore/followers.go:45-55 | a follower that returns is cancelled and then leaves; the channel is closed exactly by the last to leave a closed registry |
| `Followers.Registry.Admit` | adapters/redisstore/followers.go:28-43 | closed, full, or a new id |
| `Followers.Registry.Release` | adapters/redisstore/followers.go:45-55 | cancels, removes, and signals when it was the last |
| `Followers.Registry.CancelAll` | adapters/redisstore/followers.go:61-63 | the loop cancels exactly the followers listed |
| `Followers.Registry.BeginClose` | adapters/redisstore/followers.go:58-70 | closes, cancels everybody present, and signals if nobody is |
| `ScheduleRuns.AtMostOnce` | adapters/redisstore/schedulestore.go:100-190 | in every run with instants that do not go back, next slots absent or later than now, and no re-arm: win instants strictly increase, consumed slots strictly increase, FireCount grows by the wins; on the exact clock, and on binary64 with a 256 ns margin |
| `ScheduleRuns.WinStep` | adapters/jsonlstore/schedulestore.go:328-412 | a winning claim comes strictly after the previous win and beyond all consumed slots |
| `ScheduleRuns.BudgetHolds` | adapters/jsonlstore/schedulestore.go:342-344 | a constant positive MaxFires is never passed, whatever the instants |
| `ScheduleRuns.BeginMarks` | adapters/jsonlstore/schedulestore.go:214-236 | a successful BeginDelete marks and disables |
| `ScheduleRuns.DeletionStands` | adapters/redisstore/schedulestore.go:200-294 | from there until CompleteDelete with the same id, at every moment of every run: the id stands, the schedule is disabled, and Claim, ClaimNow, Save, Create, SetEnabled, ReArmOneShot, Delete and a foreign CompleteDelete fail while BeginDelete returns the first id |
| `ScheduleRuns.SoundRun` | adapters/jsonlstore/schedulestore.go:139-249 | in every run a schedule being deleted is disabled |
| `ScheduleRuns.DueAgrees` | adapters/redisstore/schedulestore.go:684-692 | so the Due that ignores the deletion id selects what the Due that reads it selects, and exactly what Claim accepts |
| `ScheduleEffects.ClaimEffect` | adapters/jsonlstore/schedulestore.go:328-367 | a claim wins if and only if the schedule exists, is enabled, is not being deleted, has fires left and a slot that is reached on the clock; then the state is, field by field, the consumed slot, and nothing else changes |
| `ScheduleEffects.ClaimNowEffect` | adapters/jsonlstore/schedulestore.go:376-412 | a manual claim wins if and only if the schedule exists, is enabled, is not being deleted, has fires left and was not last fired at this instant, whatever its slot; then the same consumption |
| `ScheduleEffects.CreateEffect` | adapters/jsonlstore/schedulestore.go:113-130 | refused exactly for a name that is taken; stored as given, enabled if it has neither slot nor fires |
| `ScheduleEffects.SaveEffect` | adapters/jsonlstore/schedulestore.go:139-160 | the specification is replaced and the state kept; refused while deleting |
| `ScheduleEffects.SetEnabledEffect` | adapters/jsonlstore/schedulestore.go:166-178 | only the flag changes; refused while deleting |
| `ScheduleEffects.DeleteEffect` | adapters/jsonlstore/schedulestore.go:195-212 | gone unless it is being deleted in two phases |
| `ScheduleEffects.BeginDeleteEffect` | adapters/jsonlstore/schedulestore.go:214-236 | refused exactly while a fire is on its way or without an id; the first id stands |
| `ScheduleEffects.CompleteDeleteEffect` | adapters/jsonlstore/schedulestore.go:238-249 | gone exactly for the id in force |
| `ScheduleEffects.ReArmEffect` | adapters/jsonlstore/schedulestore.go:749-763 | enabled with the new slot and one retry more; refused while deleting |
| `ScheduleEffects.FireStartEffect` | adapters/jsonlstore/schedulestore.go:426-455 | the fire and the in-flight fields are recorded unless the fire is over or the same start is recorded |
| `ScheduleEffects.FireProgressEffect` | adapters/jsonlstore/schedulestore.go:473-508 | schedule and in-flight fire get the later of the old and the new time; a fire that is over stays |
| `ScheduleEffects.FireEndEffect` | adapters/jsonlstore/schedulestore.go:522-544 | recorded once; the in-flight fields are cleared |
| `ScheduleEffects.DueMeans` | adapters/jsonlstore/schedulestore.go:280-310 | due means enabled, fires left, and a slot that is reached |
| `Binary64.BandRound` | adapters/redisstore/schedulestore.go:94-99 | in the band rounding goes to the nearer multiple of 256, from the middle to the even one |
| `Binary64.BandUlp` | adapters/redisstore/schedulestore.go:94-99 | between 2^60 and 2^61 binary64 numbers are 256 apart |
| `Binary64.DueIsNotLater` | adapters/redisstore/schedulestore.go:661-697 | the claim script never refuses for its time a slot that Due lists at the same instant |
| `Binary64.AcceptedIsNear` | adapters/redisstore/schedulestore.go:119-121 | it accepts a slot at most 256 ns early |
| `Binary64.FarIsLater` | adapters/redisstore/schedulestore.go:119-121 | it refuses every slot more than 256 ns ahead |
| `Binary64.MarginIsTight` | adapters/redisstore/schedulestore.go:119-121 | at 256 ns exactly two claims at one instant can both win |
| `FileSchedules.FileStore.Create` | adapters/jsonlstore/schedulestore.go:113-130 | stored state and answer: what the abstract machine does |
| `FileSchedules.FileStore.Save` | adapters/jsonlstore/schedulestore.go:139-160 | stored state and answer: what the abstract machine does, state kept on overwrite |
| `FileSchedules.FileStore.SetEnabled` | adapters/jsonlstore/schedulestore.go:166-178 | stored state and answer: the machine step |
| `FileSchedules.FileStore.Delete` | adapters/jsonlstore/schedulestore.go:195-212 | stored state and answer: the machine step |
| `FileSchedules.FileStore.BeginDelete` | adapters/jsonlstore/schedulestore.go:214-236 | stored state and answer: the machine step |
| `FileSchedules.FileStore.CompleteDelete` | adapters/jsonlstore/schedulestore.go:238-249 | stored state and answer: the machine step |
| `FileSchedules.FileStore.Claim` | adapters/jsonlstore/schedulestore.go:328-367 | stored state and answer: the machine step on an exact clock, which ClaimEffect spells out |
| `FileSchedules.FileStore.ClaimNow` | adapters/jsonlstore/schedulestore.go:376-412 | stored state and answer: the machine step, which ClaimNowEffect spells out |
| `FileSchedules.FileStore.ReArmOneShot` | adapters/jsonlstore/schedulestore.go:749-763 | stored state and answer: the machine step |
| `FileSchedules.FileStore.RecordFireStart` | adapters/jsonlstore/schedulestore.go:426-455 | stored state and answer: the machine step |
| `FileSchedules.FileStore.RecordFireProgress` | adapters/jsonlstore/schedulestore.go:473-508 | stored state and answer: the machine step |
| `FileSchedules.FileStore.RecordFire` | adapters/jsonlstore/schedulestore.go:522-544 | stored state and answer: the machine step |
| `FileSchedules.FileStore.Due` | adapters/jsonlstore/schedulestore.go:280-310 | exactly the due schedules that are not being deleted |
| `RedisSchedules.RedisStore.Create` | adapters/redisstore/schedulestore.go:262-267 | state and answer of the machine for fresh records that are not deleting |
| `RedisSchedules.RedisStore.Save` | adapters/redisstore/schedulestore.go:420-470 | state and answer of the machine, as one step |
| `RedisSchedules.RedisStore.SetEnabled` | adapters/redisstore/schedulestore.go:200-210 | state and answer of the machine |
| `RedisSchedules.RedisStore.Delete` | adapters/redisstore/schedulestore.go:220-226 | state and answer of the machine |
| `RedisSchedules.RedisStore.BeginDelete` | adapters/redisstore/schedulestore.go:577-603 | the machine's state always; its answer if and only if the id in force is not one of the script's error words |
| `RedisSchedules.RedisStore.CompleteDelete` | adapters/redisstore/schedulestore.go:228-234 | state and answer of the machine |
| `RedisSchedules.RedisStore.Claim` | adapters/redisstore/schedulestore.go:100-140 | the machine's state and the same success; the returned retry count reads zero |
| `RedisSchedules.RedisStore.ClaimNow` | adapters/redisstore/schedulestore.go:151-190 | the machine's state and the same success, which ClaimNowEffect spells out; the returned retry count reads zero |
| `RedisSchedules.RedisStore.ReArmOneShot` | adapters/redisstore/schedulestore.go:281-294 | state and answer of the machine |
| `RedisSchedules.RedisStore.RecordFireStart` | adapters/redisstore/schedulestore.go:827-892 | state and answer of the machine |
| `RedisSchedules.RedisStore.RecordFireProgress` | adapters/redisstore/schedulestore.go:910-997 | state and answer of the machine |
| `RedisSchedules.RedisStore.RecordFire` | adapters/redisstore/schedulestore.go:1013-1071 | state and answer of the machine, with three fields deleted |
| `RedisSchedules.RedisStore.Due` | adapters/redisstore/schedulestore.go:661-697 | exactly the due schedules of the view |
| `RedisSchedules.RedisStore.ViewIsRead` | adapters/redisstore/schedulestore.go:1161-1185 | the view is what scheduleFromHash reads |
| `RedisSchedules.NanoRoundTrip` | adapters/redisstore/schedulestore.go:1212-1231 | a time survives the text form if and only if it is not the epoch and fits 64 bits |
| `RedisSchedules.EncodedReadsBack` | adapters/redisstore/schedulestore.go:1161-1185 | what the store writes for a schedule reads back as that schedule |
| `RedisSchedules.FieldsTell` | adapters/redisstore/schedulestore.go:100-190 | each field test of the scripts decides the matching condition of the schedule |
| `Decimal.RoundTrip` | adapters/redisstore/schedulestore.go:1212-1231 | decimal text of an integer parses back |
| `FireProgress.StepForward` | adapters/redisstore/schedulestore.go:324-334 | one Redis command never moves a fire record back |
| `FireProgress.TerminalStaysTerminal` | adapters/redisstore/schedulestore.go:910-1071 | between any two moments of any interleaving after a recorded start: terminal stays terminal, an in-flight record changes only in ProgressAt, which never decreases |
| `FireProgress.ProgressLandsIffUnchanged` | adapters/redisstore/schedulestore.go:324-334 | whatever other threads do between its two commands, a progress write of an in-flight record lands if and only if the record is still the one read, and changes only the time |
| `FireProgress.EndLands` | adapters/redisstore/schedulestore.go:1013-1071 | a terminal write that found the record absent or in flight lands, whatever happens in between |
| `FireProgress.StaleProgressIsDropped` | adapters/redisstore/schedulestore.go:974-979 | progress that is not later, or of a record absent or over, does nothing |
| `FireProgress.SecondEndIsDropped` | adapters/redisstore/schedulestore.go:1013-1071 | a second end of a fire does nothing |
| `SessionIndexRuns.StepKeeps` | adapters/redisstore/metadata_index.go:82-340 | every script keeps the metadata sets and all lineage partitions in step with the session hashes, order members byte for byte, for NUL-free ids and incarnations that are not saved again as tombstones |
| `SessionIndexRuns.RunKeeps` | adapters/redisstore/metadata_index.go:82-340 | hence every run does |
| `SessionIndexRuns.StepIndexes` | adapters/redisstore/metadata_index.go:82-340 | with no premise: every script keeps the metadata sets and finds a record that it can bury |
| `SessionIndexRuns.NeverInvalid` | adapters/redisstore/metadata_index.go:130-132 | the reply "invalid lineage record" is unreachable, with no premise |
| `SessionIndexRuns.IndexesAreExact` | adapters/redisstore/metadata_index.go:82-340 | after any run, with no premise, each scope lists exactly the rows of the stored sessions in it |
| `SessionIndexRuns.OrdersDecode` | adapters/redisstore/lineage.go:59-82 | after any run every order member decodes to a field of its partition and carries that field's state digit, and every field has exactly one such member |
| `SessionIndexRuns.PartitionsAreExact` | adapters/redisstore/lineage.go:24-57 | after any run an edge partition holds exactly the rows naming it, and exactly a stored session's current incarnation is retained |
| `SessionIndexRuns.TombstoneOrderIff` | adapters/redisstore/metadata_index.go:138-145 | burying a record that names an edge leaves the right members in the edge order if and only if the id holds no NUL |
| `SessionIndexRuns.KeysStayApart` | adapters/redisstore/lineage.go:32-57 | after any run no key is both a hash and an order if and only if no recorded id is another one with the order suffix |
| `SessionIndexRuns.ResavedTombstone` | adapters/redisstore/metadata_index.go:82-189 | the premise on tombstones is exact: a creation or save keeps the partitions in step if and only if its incarnation is not a tombstone |
| `SessionIndexRuns.StepMoves` | adapters/redisstore/metadata_index.go:82-340 | a scope whose set changes gets a larger generation |
| `SessionIndexRuns.SameGenerationSameRows` | adapters/redisstore/metadata_index.go:248-340 | over any run, equal generations mean equal sets |
| `SessionEffects.SaveEffect` | adapters/redisstore/metadata_index.go:114-189 | a save stores the session with its row, key and edge, the retained record with its edge and metadata, and the row in the global set and its owner's; the old row leaves the sets, an old record of another incarnation ends now, exactly the scopes of both rows move on, and all else stays |
| `SessionEffects.CreateEffect` | adapters/redisstore/metadata_index.go:82-112 | refused exactly for an id that is taken; otherwise the same for a new session |
| `SessionEffects.DeleteEffect` | adapters/redisstore/metadata_index.go:248-289 | after any run: the session and its row are gone, its record ends now with edge and metadata kept, exactly the row's scopes move on, and all else stays |
| `SessionEffects.DeleteIfEffect` | adapters/redisstore/metadata_index.go:298-340 | after any run: the same, if and only if the stored row is the one expected |
| `SessionScripts.Database.Create` | adapters/redisstore/metadata_index.go:82-112 | the machine step, which SessionEffects.CreateEffect spells out; created exactly if the id was free |
| `SessionScripts.Database.Save` | adapters/redisstore/metadata_index.go:114-189 | the machine step, for the same incarnation, a new one, and a changed edge, which SessionEffects.SaveEffect spells out |
| `SessionScripts.Database.Delete` | adapters/redisstore/metadata_index.go:248-289 | the machine step |
| `SessionScripts.Database.DeleteIf` | adapters/redisstore/metadata_index.go:298-340 | the machine step; deletes exactly if the stored row is the expected one |
| `IndexKeys.MemberOrder` | adapters/redisstore/metadata_index.go:484-491 | member bytes sort newest first and then by id, for all ids and payloads, when the times have one sign |
| `IndexKeys.OrderNeedsOneSign` | adapters/redisstore/metadata_index.go:484-491 | and for different times only then |
| `IndexKeys.MemberUnframes` | adapters/redisstore/metadata_index.go:493-519 | decoding finds the id and payload that were encoded |
| `IndexKeys.RootMemberDecodes` | adapters/redisstore/lineage.go:59-82 | order members decode to the field they were made for |
| `IndexKeys.FieldInjective` | adapters/redisstore/lineage.go:28-30 | a field names one id and incarnation, as incarnations hold no NUL |
| `IndexKeys.RootFlips` | adapters/redisstore/metadata_index.go:134-137 | the script turns a retained root order member into the pruned one |
| `IndexKeys.EdgeFlipsIff` | adapters/redisstore/metadata_index.go:138-145 | and an edge order member if and only if the id holds no NUL |
| `IndexKeys.EdgeMemberOrder` | adapters/grpcdriver/sessionstore.go:310-321 | edge order members sort in the order that clients check |
| `IndexKeys.RootMemberOrder` | adapters/grpcdriver/sessionstore.go:310-321 | and so do root order members |
| `IndexKeys.KeysCollideIff` | adapters/redisstore/lineage.go:32-57 | an order key is another partition's key if and only if that id ends in the order suffix accordingly |
| `IndexKeys.OrderKeysApart` | adapters/redisstore/lineage.go:32-57 | no other pair of partition and order keys can coincide |
| `ByteOrder.HexOrder` | adapters/redisstore/metadata_index.go:484-491 | hexadecimal text keeps byte order |
| `ByteOrder.HexNumOrder` | adapters/redisstore/metadata_index.go:484-491 | fixed-width hexadecimal numbers sort by value |
| `MetadataPages.ListingIsOrdered` | adapters/redisstore/metadata_index.go:354-369 | the order Redis keeps is newest first, then by id, without repeats |
| `MetadataPages.CursorRoundTrip` | adapters/redisstore/metadata_index.go:405-418 | the cursor handed out for a row leads back to that row's member; which other cursors are accepted is RestartsExactly |
| `MetadataCursors.RestartsExactly` | adapters/redisstore/metadata_index.go:405-418 | every cursor: a request is told to restart if and only if its scope or generation is another one, or it is not the token of a member whose row has the cursor's id and time |
| `MetadataCursors.ServesBehind` | adapters/redisstore/metadata_index.go:420-449 | behind every accepted cursor: exactly the rows whose members come after the cursor's, up to the limit, the whole count, and a next cursor exactly if rows are left |
| `MetadataCursors.UntokenIff` | adapters/redisstore/metadata_index.go:521-532 | a continuation decodes to a member if and only if it is that member's token |
| `MetadataCursors.DecodesIff` | adapters/redisstore/metadata_index.go:493-519 | a member decodes to a row if and only if it is framed as one, with the row's id in frame and payload |
| `MetadataPages.ServeAt` | adapters/redisstore/metadata_index.go:420-449 | the answer to the cursor behind i rows is the next rows, with a cursor for its last row exactly if more follow |
| `MetadataPages.LiveChainLists` | adapters/redisstore/metadata_index.go:371-449 | a chain of pages with operations of the store between them lists the rows that the scope had at its first page, once each in order, and ends exactly when all are listed; it is told to restart exactly if the generation moved at a page it still needed |
| `MetadataPages.ReachableProper` | adapters/redisstore/metadata_index.go:191-199 | the scopes of every run have one row per id, with times after the epoch if the saved rows do |
| `MetadataPages.ListingUnique` | adapters/redisstore/metadata_index.go:354-369 | a set of rows has one listing |
| `MetadataPages.OneGenerationOneListing` | adapters/redisstore/metadata_index.go:354-369 | pages under one generation see one listing, whatever runs between them |
| `MetadataPages.ValidatePage` | adapters/grpcdriver/sessionstore.go:337-371 | the client's check accepts exactly the acceptable pages |
| `Utf8Text.ValidIffEncoded` | adapters/grpcdriver/sessionstore.go:333-346 | the UTF-8 check accepts exactly the encodings of scalar values of section 3 of RFC 3629 |
| `MetadataPages.PagesAreAcceptable` | adapters/grpcdriver/sessionstore.go:323-371 | every page of a chain passes it |
| `MetadataPages.OwnerRowsAreOwn` | adapters/redisstore/metadata_index.go:451-465 | the foreign-row check never fails |
| `Lines.AppendCommits` | adapters/jsonlstore/jsonlstore.go:1142-1213 | after an append of which any prefix survived, the committed records are the earlier ones and the first new ones, all of them exactly if the write finished |
| `Lines.Decompose` | adapters/jsonlstore/jsonlstore.go:1040-1059 | every file is its committed records and an uncommitted tail |
| `Lines.ReadBack` | adapters/jsonlstore/jsonlstore.go:1040-1059 | framed records read back, whatever tail follows |
| `Lines.BoundaryIff` | adapters/jsonlstore/cursoreventlog.go:344-356 | the byte check accepts exactly the record boundaries |
| `EventFile.File.CompleteRecordSize` | adapters/jsonlstore/jsonlstore.go:1040-1059 | the backward block search finds the offset behind the last newline |
| `EventFile.File.AppendRecords` | adapters/jsonlstore/jsonlstore.go:1142-1213 | truncate, write, and on success a cursor at the new committed end; committed bytes never move |
| `EventFile.DecodePage` | adapters/jsonlstore/cursoreventlog.go:286-335 | the scan yields the next records, each with the offset behind it |
| `EventFile.File.ReadAfter` | adapters/jsonlstore/cursoreventlog.go:225-277 | malformed exactly off the record boundaries; otherwise the limited records behind the cursor |
| `EventFile.ChainYieldsAll` | adapters/jsonlstore/cursoreventlog.go:132-200 | chained reads with any positive limits yield every record once, in order |
| `EventFile.EntriesExactly` | adapters/jsonlstore/cursoreventlog.go:296-303 | the records from a line on are exactly the lines that are not headers, each with its place |
| `EventFile.EntriesRise` | adapters/jsonlstore/cursoreventlog.go:296-303 | in the order of the file, none twice |
| `EventFile.CursorValidIffClean` | adapters/jsonlstore/cursoreventlog.go:289-293 | the cursor counted behind a record is a record boundary if and only if the record does not end in a carriage return |
| `EventLog.AppendAdds` | adapters/jsonlstore/cursoreventlog.go:80-128 | a successful append adds its record, behind a fresh header in a new log |
| `EventLog.CursorsStayValid` | adapters/jsonlstore/cursoreventlog.go:225-277 | over every run of appends, crashes and deletions a cursor of the current generation keeps its offset and the records before it |
| `EventLog.DeletedIsGone` | adapters/jsonlstore/jsonlstore.go:831-862 | a deletion leaves nothing, and in no continuation does the deleted generation come back |
| `EventLog.WriteRefines` | adapters/jsonlstore/jsonlstore.go:1142-1213 | an append cut off at any byte is the line-level append of the lines that became complete; an uncut one succeeds and its cursor is the new committed end |
| `EventLog.CursorsStayOnDisk` | adapters/jsonlstore/cursoreventlog.go:225-277 | the same over bytes: over every run of cut-off appends and deletions a boundary of the current generation keeps its offset and all bytes before it |
| `StreamReader.ReadCount` | adapters/redisstore/cursoreventlog.go:497-505 | never more than a page nor than what remains of a limit |
| `StreamReader.StepKeeps` | adapters/redisstore/cursoreventlog.go:442-491 | appends, deletion, the read and the check each keep the reader in its log |
| `StreamReader.ReaderStaysInItsLog` | adapters/redisstore/cursoreventlog.go:350-491 | under every interleaving an anchored reader yields a gap-free, duplicate-free run of its own generation from its cursor on |
| `StreamReader.CycleYields` | adapters/redisstore/cursoreventlog.go:442-491 | a cycle under an unmoved generation hands on the next entries, as many as were asked for, taken and there, and stops exactly if fewer were taken than read |
| `StreamReader.MovedGenerationStops` | adapters/redisstore/cursoreventlog.go:476-482 | a cycle across a deletion or re-creation stops and hands on nothing |
| `StreamReader.ReaderCatchesUp` | adapters/redisstore/cursoreventlog.go:350-491 | a reader left alone hands on its whole log, whatever its page size |
| `StreamReader.LogEffects` | adapters/redisstore/cursoreventlog.go:96-106 | an append adds one entry under the log's generation or a new one; a deletion leaves neither entries nor generation |
| `Workspace.Namespace.CreateFile` | adapters/redisstore/workspace.go:33-37 | a new file, or refused |
| `Workspace.Namespace.ReplaceFile` | adapters/redisstore/workspace.go:38-46 | replaced exactly if the version matches |
| `Workspace.Namespace.Remove` | adapters/redisstore/workspace.go:47-59 | one file; a directory is refused |
| `Workspace.Namespace.Copy` | adapters/redisstore/workspace.go:60-77 | copied exactly if the version matches and the destination is free |
| `Workspace.Namespace.Rename` | adapters/redisstore/workspace.go:78-127 | answer and files of the rename, which WorkspaceEffects.RenameEffect spells out path by path |
| `Workspace.Namespace.MoveFields` | adapters/redisstore/workspace.go:115-126 | the loop that sets and deletes field by field, in any order, moves the subtree |
| `Workspace.Namespace.AnyAbove` | adapters/redisstore/workspace.go:68-72 | walking up finds a file exactly if some ancestor is one |
| `Workspace.Namespace.AnyBelow` | adapters/redisstore/workspace.go:73-75 | the scan finds a file below the path exactly if there is one |
| `Workspace.RenameMovesExactly` | adapters/redisstore/workspace.go:366-396 | content unchanged, nothing overwritten, nothing lost, all else alone |
| `Workspace.RenameKeepsTree` | adapters/redisstore/workspace.go:78-127 | no file becomes an ancestor of another by a rename |
| `Workspace.AddKeepsTree` | adapters/redisstore/workspace.go:60-77 | nor by a copy |
| `Workspace.ReplaceKeepsTree` | adapters/redisstore/workspace.go:38-59 | nor by replacing or removing |
| `Workspace.CreateKeepsTreeIffFree` | adapters/redisstore/workspace.go:33-37 | creation keeps the tree if and only if nothing lies above or below the path |
| `WorkspaceRuns.RunKeepsTree` | adapters/redisstore/workspace.go:236-434 | over every run of requests on any paths, with creations on free ones: paths stay clean and no file is an ancestor of another |
| `WorkspaceRuns.StepKeepsClean` | adapters/redisstore/workspace.go:554-568 | every request keeps stored paths clean, moved ones included |
| `WorkspaceRuns.StepKeepsTree` | adapters/redisstore/workspace.go:340-434 | every request but a creation below or above a file keeps the tree |
| `WorkspaceRuns.OthersUntouched` | adapters/redisstore/workspace.go:340-434 | a file that a request does not name, nor moves with a directory, keeps its content |
| `WorkspaceEffects.RenameEffect` | adapters/redisstore/workspace.go:78-127 | refused exactly into its own subtree, onto a taken destination or of nothing; otherwise the file, or every file below the directory, is at its new path with its content and gone from the old one, and nothing else changes |
| `WorkspaceEffects.CopyEffect` | adapters/redisstore/workspace.go:60-77 | copied exactly if the version is current and nothing is at, above or below the destination; nothing else changes |
| `WorkspaceEffects.CreateEffect` | adapters/redisstore/workspace.go:33-37 | refused exactly if the file exists; otherwise the content is stored and nothing else changes |
| `WorkspaceEffects.ReplaceEffect` | adapters/redisstore/workspace.go:38-46 | replaced exactly if the file exists with the caller's version; nothing else changes |
| `WorkspaceEffects.RemoveEffect` | adapters/redisstore/workspace.go:47-59 | a file goes and nothing else; a directory and nothing at all are told apart |
| `Paths.BlockedIff` | adapters/redisstore/workspace.go:68-72 | the chain of parents is exactly the set of ancestors |
| `Paths.CleanPathIsClean` | adapters/redisstore/workspace.go:554-568 | an accepted path is stored without empty, dot or dot-dot components, and cleaning it again changes nothing |
| `Paths.CleanPathRefuses` | adapters/redisstore/workspace.go:554-568 | refused exactly: the empty path, an absolute one, a NUL, a dot-dot component, or no component but empty and dot ones |
| `Paths.CleanPathFixes` | adapters/redisstore/workspace.go:554-568 | a path with nothing to clean is stored as it is |
| `Paths.CleanPathDrops` | adapters/redisstore/workspace.go:554-568 | an empty or dot component makes no difference to the stored path |
| `InventoryCatalog.Sort` | adapters/jsonlstore/inventory_catalog.go:358-360 | the same rows, newest first and then by id |
| `InventoryCatalog.Group` | adapters/jsonlstore/inventory_catalog.go:366-371 | the grouping loop gives every scope its rows, and no scope without rows but the global one |
| `InventoryCatalog.WriteCatalog` | adapters/jsonlstore/inventory_catalog.go:362-398 | one file per scope with exactly the sorted inventory's rows of that scope, and their count |
| `InventoryCatalog.OwnedIsFiltered` | adapters/jsonlstore/inventory_catalog.go:366-371 | an owner's scope holds exactly that owner's rows, as often as the inventory |
| `InventoryCatalog.OwnedIsOrdered` | adapters/jsonlstore/inventory_catalog.go:358-371 | in the inventory's order |
| `InventoryCatalog.ReadScopePage` | adapters/jsonlstore/metalist.go:382-435 | from the byte position of row i: the next rows, the byte position behind them, and whether more follow; its own checks never restart the chain |
| `InventoryCatalog.ScanAt` | adapters/jsonlstore/metalist.go:382-435 | the same of the loop as a function of the bytes |
| `InventoryCatalog.ScanRestartsExactly` | adapters/jsonlstore/metalist.go:451-477 | at a row boundary a listing restarts exactly if the cursor's row does not come before the next one, and otherwise goes on from there |
| `InventoryCatalog.ReadRestartsExactly` | adapters/jsonlstore/metalist.go:374-380 | a reader with a cursor at a row boundary restarts exactly if the cursor is of another generation or scope, carries no ordinal, or its row does not come before the next one |
| `InventoryCatalog.ReadAt` | adapters/jsonlstore/reader.go:103-133 | a reader's request after i rows passes its ordinal checks exactly if count and file agree on whether this is the last page |
| `InventoryCatalog.ChainReproduces` | adapters/jsonlstore/reader.go:103-133 | a reader's chain, its ordinal carried from page to page, with any positive limits never fails a check, reproduces the scope file, and ends exactly when it is exhausted |
| `InventoryCatalog.PagesAreCeiling` | adapters/jsonlstore/metalist.go:382-435 | with one limit a chain over n > 0 rows makes n/limit requests, rounded up |
| `InventoryCatalog.DoneMeansCounted` | adapters/jsonlstore/reader.go:103-133 | a chain that comes to its end has found the count of the manifest |

## Left out

- File-system details: sync, permissions, symbolic links, lock files and their timeouts; a write is atomic unless the model says that a prefix survives.
- Reading lineage and merging root and edge rows into one result with a limit; the reads add no state.
- Clocks, random generation tokens and client construction are parameters; minted tokens are assumed new.
- Credential reload, TLS and configuration; only the swap of a client pair is a step of the generation machine.
- Glob, Grep, Stat and directory listing of the workspace.
- The inventory fingerprint and catalog rebuild; a page chain reads one catalog generation.
- gRPC translation apart from the page and order checks.
- RecordFireStart racing RecordFire for one fire id, overlapping fires of one schedule, and followers that attach before a Redis log exists.
- Lossy schedule file names of jsonlstore: two names that map to one file are taken as different names.
- Lua's text form of numbers from 10^14 on: counters are written in decimal.
- What Redis does when a command meets a key of the wrong type: the session index keeps hashes and orders apart, which KeysStayApart shows to be right unless an id is another one with the order suffix.
- RedisSchedules.RedisStore.Save: is one step, as callers serialise saves of one name; the existence test and the write are two commands.
- RedisSchedules.RedisStore.Claim: reads MaxFires and runs the script in one step; a Save between the two commands is not modelled.
- RedisSchedules.RedisStore.ClaimNow: likewise reads the specification and runs the script in one step.
- RedisSchedules.RedisStore.BeginDelete: runs the script and reads the hash back in one step; another request between the two commands is not modelled.
- RedisSchedules.RedisStore.RecordFireStart: is one step, though the source looks at the schedule and the fire and then writes both.
- RedisSchedules.RedisStore.RecordFireProgress: is one step for the schedule hash; its compare-and-set on the fire record is modelled command by command in FireProgress.
- RedisSchedules.RedisStore.RecordFire: is one step for the schedule hash; its interleaving with progress writes is modelled on the fire record alone.
- Workspace.Namespace.Rename: works on clean paths and a well-formed namespace; a namespace whose format marker is missing is not modelled.
- MetadataCursors.UntokenIff: has hexadecimal in place of unpadded base64; the canonical-form check is the same.
- StreamReader.ReaderStaysInItsLog: covers readers anchored to a real generation.

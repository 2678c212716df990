# Verified models of x-backup

x-backup takes full and incremental backups of MongoDB, PostgreSQL and plain
directories, encrypts and stores them, prunes them, and restores them to a point in
time. This project states in Dafny what its self-contained algorithms do and proves
what they are for. `dafny verify dfyconfig.toml` checks all of it.

Five groups of models:

- **Backup chains.** `Schema`, `StableSort`, `Chain` (chain verification, simple and
  cached), `ChainBreaks` (what a report says), `ChainStore` (what every store of chains keeps), `Pitr` (point-in-time
  restore), `LateCapture` (slices read after entries were dropped), `PrunePlan`,
  `PruneRules`, `PruneLaws`, `PruneExec` (retention and deletion), `MongoRuns` (runs of backups, gaps,
  promotions and interrupted prunes) and `MongoFaults` (two runs that go wrong).
- **Deltas.** `FileChain` and `FileSlices` (directories: index differences, tombstones, restores),
  `PgReplay`, `PgCapture` and `PgRuns` (PostgreSQL: peek, store, record, advance, and a
  replay that absorbs overlaps), `PgPrune` (prunes of such a store), `PgMoves` (rows that
  change their key), `PgTruncate` and `PgTruncateRuns` (truncations, which the decoder
  drops).
- **Streams.** `AesStream` and `AesFormat` (the encrypted stream format), `Pump` (the reader over a
  background pump), `Stages` (the transformations, their inverse, counters and checksum).
- **Configuration.** `Inherit` (the `extends` graph), `TomlText`, `ConfigV2`,
  `ConfigRoundTrip`, `ConfigLaws` and `ConfigFile` (printing and parsing), `ConfigMeaning`,
  `ConfigForms`, `ConfigPlaces` and `ConfigAccepts` (what each key means and accepts) and
  `ConfigSpare` (nothing printed is to spare).
- **Locking.** `Lock` (create-exclusive lock files with stale reclaim).

Code that updates state is a class or a method with loops, proved equal to a function;
the laws are lemmas about those functions. Protocols are state machines, and the main
theorems speak of every run. Ids are numbers that grow, for UUID v7 strings, whose order
is the order of creation (section 5.7 of RFC 9562). A storage back end is a map or a set
of files whose operations may fail; a database server is a log.

Where the code and what is said about it disagree, the model follows the code:

- `README.md:199-203` of the repository puts `[defaults]` below the whole extends chain.
  Each extended entity is resolved with the defaults already in it, so a default can
  replace an explicit value of an earlier name. `Inherit.DocumentedPrecedence` says
  exactly when it does not, and `Inherit.DefaultHidesValue` gives a configuration where it
  does.
- The comments at `src/engine/postgres/incremental.rs:9-10` and
  `src/pipeline/backup.rs:1524-1527` call the replay of PostgreSQL changes idempotent
  without exception. An update that changes a key may fail when repeated;
  `PgReplay.MayRepeatMeansKeyKept` gives the exact condition for a change and
  `PgMoves.RepeatMeansMovesAbsorbed` for a stretch of the log.
- The publication sends truncations (`src/engine/postgres/incremental.rs:72`) and the
  decoder drops them (`src/engine/postgres/pgoutput.rs:162`), so truncated rows can come
  back with no error (`PgTruncate.TruncatedRowComesBack`).
  `PgTruncateRuns.ExactMeansNoHarm` says exactly which restores are spoilt.
- A PostgreSQL replay that stops before the snapshot of its base may give a state that
  the server never had: `PgRuns.ReachesSnapshotMeansState`. A full backup that recreated
  the slot and then failed lets the next increment of the old base miss changes, with no
  error (`PgRuns.AbandonedFullLosesChanges`), exactly when the log had gone past the last
  captured position by then: `PgRuns.AbandonedFullIsHarmless` and, for whole runs and
  with prunes, `PgRuns.FaultyRestoreIsExact`.
- The comments at `src/pipeline/incremental.rs:134` and `src/engine/mongo/oplog.rs:151-157`
  take the gap check before the capture, and error code 43 during it, for enough. Entries
  that the server drops between the check and the read are missing from the slice with no
  error, and its chain verifies (`MongoFaults.LateDropLosesEntries`);
  `MongoRuns.EveryRestoreIsExact` says exactly which restores are spoilt.
- A prune stopped midway can leave one manifest whose data is gone. Its chain still
  verifies as continuous, since verification looks at manifests only
  (`MongoFaults.StoppedPruneLosesTheEnd`). Exactly the restores that replay it fail
  (`MongoRuns.EveryRestoreIsExact`, `FileChain.EveryBackupRestores`,
  `PgRuns.EveryPgRestoreIsExact`).
- The printer of v2 profiles drops some settings and prints compact texts that may
  split differently; `ConfigLaws.ProfileRoundTrip` says exactly which profiles survive.
- `acquire_in` reads a holder and removes its file in separate calls, so two processes
  can hold the lock (`Lock.TwoHoldersRun`). A run goes wrong exactly when a reclaim takes
  the file of a live process (`Lock.RunExcludesMeansSparesLive`).

## Model

| member | source | states |
|---|---|---|
| Chain.VerifyChain | src/manifest/chain.rs:222-373 | the report built in loops from the sorted increments equals the specification report: base, increments in chain order, every break and warning |
| Chain.DiagnoseBase | src/manifest/chain.rs:256-373 | the breaks for a base, in order: eligibility, members, join with the base, adjacency |
| Chain.CheckMembers | src/manifest/chain.rs:317-336 | each increment adds a break when incomplete, and when it has no range although one is needed |
| Chain.CheckAdjacent | src/manifest/chain.rs:349-365 | each pair of neighbours that do not meet adds one discontinuity |
| Chain.ContinuousMeansTiled | src/manifest/chain.rs:202-207 | a report has no break exactly when the base exists, is a complete non-selective full backup, and its increments tile the oplog from its end |
| Chain.SortNodesIsStable | src/manifest/chain.rs:302-311 | sorting keeps every increment as often as it was, orders them by start and id with missing ranges last, and leaves ties as they were |
| Chain.ChainVerifier.IndexNodes | src/manifest/chain.rs:447-478 | the index maps hold, for each id, the last node, and for each base its increments in list order |
| Chain.ChainVerifier.SortGroups | src/manifest/chain.rs:463-477 | every group is put into chain order once, in place |
| Chain.ChainVerifier.ReportForBase | src/manifest/chain.rs:522-529 | the cached report of a base is the uncached one, and every cache entry stays so |
| Chain.ChainVerifier.ComputeForBase | src/manifest/chain.rs:531-632 | the report computed from the index is that of the specification |
| Chain.ChainVerifier.Verify | src/manifest/chain.rs:480-491 | after any earlier queries the answer is that of `VerifyChain`, for lists on which the two lookups agree |
| Chain.ChainVerifier.IsContinuous | src/manifest/chain.rs:493-500 | agrees with `VerifyChain` on continuity |
| Chain.VerifierRefinesVerifyChain | src/manifest/chain.rs:222-378 | the indexed verifier and `verify_chain` give equal reports for every target when first and last node of each id agree |
| Chain.VerifiersAgreeMeansAlike | src/manifest/chain.rs:376-378 | on any list and for each target the two verifiers agree exactly when first and last node of its id lead to the same base, and first and last node of that base's id are alike in what a report sees |
| Chain.DistinctIdsAgree | src/manifest/chain.rs:447-461 | distinct ids are enough for the two lookups to agree |
| ChainBreaks.ReportIs | src/manifest/chain.rs:222-373 | for a backup whose base is there: the report lists exactly the increments that name the base, in chain order, exactly the breaks given by base, members and neighbours, each with their ids and times, and the warning exactly when there are increments and the base has no range |
| ChainBreaks.BreaksAre | src/manifest/chain.rs:289-365 | a break is reported exactly when: the base is no full backup, is selective, is incomplete; a member is incomplete, or has no range while the base has one; the first increment does not start at the end of the base; an increment does not start at the end of the one before |
| ChainBreaks.NothingToVerify | src/manifest/chain.rs:222-287 | the reports for a target that is not there, an increment that names no base, and a base that is not there |
| ChainBreaks.SortedChain | src/manifest/chain.rs:289-311 | the increments of a base, each as often as the list has it, by start and then id, those without a range last |
| ChainStore.WellChainedVerifies | src/manifest/chain.rs:289-365 | in a store whose chains tile, chain order is id order and every full backup with a range verifies as continuous |
| ChainStore.TipIsHead | src/pipeline/incremental.rs:244-257 | the newest usable manifest ends where its chain ends |
| ChainStore.AppendFull | src/pipeline/backup.rs:469-515 | a new full backup keeps every chain of the store tiled |
| ChainStore.AppendIncrement | src/pipeline/incremental.rs:505-540 | an increment that starts at the end of its chain keeps the store well chained and sorts last in it |
| ChainStore.DeleteLeavesPrefixes | src/pipeline/prune.rs:394-440 | a deletion that takes ends of chains leaves a prefix of each, and continuous chains stay continuous |
| ChainStore.DeleteEnds | src/pipeline/prune.rs:394-440 | such a deletion keeps the store well chained |
| Pitr.MapTargetToEnd | src/pipeline/pitr.rs:318-369 | the loop over the slices computes the mapping of the specification: slices to replay, the limit slice, the decided time |
| Pitr.LimitIsExact | src/pipeline/pitr.rs:376-381 | whenever a limit is set the target is below the largest 32-bit second, so the cast and the saturating step are exact |
| Pitr.DecidedIsLastSecond | src/pipeline/pitr.rs:318-369 | the reported time is the end of the chain if it lies in a second up to the target, else the target second, the last second that the replay reaches |
| Pitr.ApplyStream | src/pipeline/pitr.rs:406-434 | entries are applied up to the first one at or after the exclusive limit |
| Pitr.ReplaySlices | src/pipeline/pitr.rs:383-402 | the slices are applied in order, the limit only on the limit slice, and counted |
| Pitr.ReplayIsTheLogWindow | src/pipeline/pitr.rs:318-402 | replaying the mapped slices of a tiled chain applies exactly the log entries after the base, up to the chain end, in seconds up to the target: in order, none twice |
| Pitr.SelectBaseBefore | src/pipeline/pitr.rs:239-268 | of the non-selective full backups whose end is in a second up to the target, the one that ended last, then with the largest id; none exactly when there is no such one |
| Pitr.PlanPitr | src/pipeline/pitr.rs:95-190 | that base, the chain that continues it, and the mapping of the target; or the error, exactly when there is no such base, or its chain is broken |
| Pitr.OrderedSlicesOfIds | src/pipeline/pitr.rs:283-289 | looking the reported ids up gives back the increments in chain order |
| PrunePlan.CollectGroups | src/pipeline/prune.rs:163-186 | one group for each complete full backup, with its increments in chain order |
| PrunePlan.BoundaryIndex | src/pipeline/prune.rs:209-222 | the first chain, newest first, whose base is no younger than the window |
| PrunePlan.SplitChains | src/pipeline/prune.rs:190-246 | the loop with its running member count keeps and drops the chains that the rules say, which `PruneRules` states by positions and times |
| PrunePlan.PlanPrune | src/pipeline/prune.rs:147-284 | the whole plan: kept bases, chain targets, incomplete backups, orphans; `PruneRules` says which chains are targets |
| PruneRules.SplitIsByRules | src/pipeline/prune.rs:190-246 | the chains kept and dropped are, in order, those that some rule wants and those that none does, each rule stated by the position of the chain, the members before it and its times |
| PruneRules.KeepFullKeepsNewest | src/pipeline/prune.rs:219-235 | keep-full keeps each of the first N chains, and alone exactly the first N |
| PruneRules.KeepDaysKeepsRecent | src/pipeline/prune.rs:200-222 | keep-days keeps each chain with a member created within D days, and alone exactly those |
| PruneRules.ChainsAre | src/pipeline/prune.rs:163-188 | there is one chain for each complete full backup, of it and the increments that name it, and no other chain |
| PruneRules.NewestFirst | src/pipeline/prune.rs:190-195 | chains come newest base first, then by the id of the base |
| PruneRules.TimesOfChain | src/pipeline/prune.rs:163-188 | a chain has the time of its base, and as its newest time that of its latest member |
| PruneRules.DeletedMeansUnwanted | src/pipeline/prune.rs:190-246 | a chain is a target, with all its members, exactly when no rule wants it; else its base is kept |
| PruneRules.NoRuleNoTarget | src/pipeline/prune.rs:213-218 | without any rule the plan has no chain target |
| PruneRules.OtherTargets | src/pipeline/prune.rs:247-284 | the other targets are exactly the incomplete backups that are in no chain and the orphans, one each |
| PruneLaws.KeptStaysKept | src/pipeline/prune.rs:190-235 | a kept chain is still kept when it comes earlier and after fewer backups |
| PruneLaws.PruneIsAFixpoint | src/pipeline/prune.rs:147-246 | planning again after the chain targets are gone finds no chain target and keeps the same chains |
| PruneLaws.LargerPolicyPlansKeepMore | src/pipeline/prune.rs:190-235 | enlarging any rule of a specified policy keeps every chain that was kept |
| PruneLaws.ChainsToHoldIsShortest | src/pipeline/prune.rs:196-203 | the prefix for keep-last is the shortest that holds N backups, or all chains |
| PruneLaws.KeepLastKeepsPrefix | src/pipeline/prune.rs:196-203 | keep-last keeps that prefix, and alone nothing else |
| PruneLaws.RedundancyKeepsNewest | src/pipeline/prune.rs:223-232 | min-redundancy keeps the newest M chains, or all of them |
| PruneLaws.WindowIsRecoverable | src/pipeline/prune.rs:204-222 | for every instant in the window at which some complete full backup existed, the first chain whose base existed then is kept whole |
| PruneLaws.GroupHoldsItsChain | src/pipeline/prune.rs:163-186 | a group holds its base first and exactly the increments that name it |
| PruneLaws.TargetsAreDisjoint | src/pipeline/prune.rs:236-284 | targets share no backup with each other or with a kept chain |
| PruneLaws.NoIncrementIsAbandoned | src/pipeline/prune.rs:236-246 | a target that takes the base of an increment takes the increment exactly when that base is a complete full backup, or the increment names itself |
| PruneExec.DeleteOneBackup | src/pipeline/prune.rs:430-440 | data, sidecars and index go before the manifest; a failure leaves a prefix of the deletions done |
| PruneExec.ExecutePrune | src/pipeline/prune.rs:394-427 | whatever fails, the files left are those after some prefix of the deletions; without force only files of members of chain targets are gone, with it only files of members of targets; on success all of those are gone, and each backup and each chain was counted |
| PruneExec.RunHolds | src/pipeline/prune.rs:394-427 | a backup is among the deletions of a run exactly when a chain target has it as a member, or with force any target |
| PruneExec.ChainCountIs | src/pipeline/prune.rs:420-422 | the chains counted are the chain targets |
| PruneExec.GoneMeansManifest | src/pipeline/prune.rs:430-440 | a manifest is gone exactly when its whole block of deletions is done |
| PruneExec.AtMostOneDamaged | src/pipeline/prune.rs:394-440 | stopped anywhere, at most one surviving manifest has lost a file |
| PruneExec.ChainLosesItsEnd | src/pipeline/prune.rs:472-480 | stopped anywhere, what is gone of a chain is an end of it in chain order |
| PruneExec.BaseOutlivesIncrements | src/pipeline/prune.rs:472-480 | while an increment manifest is left, no file of its base has been deleted |
| PruneExec.PruneTakesEnds | src/pipeline/prune.rs:394-480 | a run stopped after any number of deletions takes ends of chains, a base only with its whole chain |
| PruneExec.PruneKeepsContinuity | src/pipeline/prune.rs:394-480 | a continuous chain whose base is left stays continuous after any prefix of the deletions |
| MongoRuns.SelectBase | src/pipeline/incremental.rs:393-471 | the last manifest of the list that is complete, not selective, has a range, and is a full backup or names a stored full backup that is complete and not selective; none exactly when there is none, with the error that the flags select |
| LateCapture.CaptureIsWhole | src/engine/mongo/oplog.rs:341-355 | a slice read from what the server then retains is whole exactly when none of its entries has been dropped |
| LateCapture.ReplaysCompare | src/pipeline/pitr.rs:383-402 | two replays of the same slices, one never longer piece by piece, are equal exactly when every piece is |
| LateCapture.ReplayIsExactMeansNothingMissed | src/pipeline/pitr.rs:318-402 | replaying the mapped slices applies exactly the log entries after the base, up to chain end and target, exactly when no replayed slice missed an entry up to the target |
| MongoRuns.CaptureFromRetained | src/engine/mongo/oplog.rs:158-165 | a slice is whole if the gap check would still pass when it is read |
| MongoRuns.IncrementSortsLast | src/pipeline/incremental.rs:173-257 | a new increment is the last of its chain by start and id |
| MongoRuns.NextKeepsInv | src/pipeline/incremental.rs:108-390 | every step keeps the store invariant: prunes that stop anywhere and entries dropped between gap check and read included |
| MongoRuns.RunKeepsInv | src/pipeline/incremental.rs:108-390 | the invariant holds after every run |
| MongoRuns.EveryChainVerifies | src/pipeline/incremental.rs:288-390 | after every run each full backup with a range is continuous under `verify_chain`, and the base of each increment is a stored full backup |
| MongoRuns.EveryRestoreIsExact | src/pipeline/pitr.rs:318-402 | after every run, for every base and target: the data is there exactly when no replayed slice is lost, and then the replay gives the server history after the base, up to target and chain end, exactly when no replayed slice missed an entry up to the target |
| MongoRuns.ReadInTimeRestoresExactly | src/pipeline/incremental.rs:136-182 | in runs whose gap check would still pass at every read, every restore whose data is there is exact |
| MongoRuns.PruneLosesAtMostOne | src/pipeline/prune.rs:394-440 | a stopped prune leaves at most one more manifest without its data |
| MongoFaults.LateDropLosesEntries | src/engine/mongo/oplog.rs:341-383 | a run in which an entry is dropped between gap check and read: the chain verifies, the data is there, and the restore is not the server history |
| MongoFaults.StoppedPruneLosesTheEnd | src/pipeline/prune.rs:394-440 | a run with a stopped prune whose chain verifies and whose restore to the end finds no data |
| FileChain.DeltaIsExact | src/engine/file/index.rs:115-129 | unpacking a delta over the restored previous tree gives the restored current one exactly when no content changed under unchanged metadata |
| FileChain.EmptyDiffIsSameTree | src/engine/file/index.rs:76-84 | an empty difference means equal trees, under that condition |
| FileSlices.DiffIs | src/engine/file/index.rs:115-129 | changed are exactly the entries that are new or differ in kind, size, time, mode or link, deleted exactly the paths that are gone |
| FileSlices.SliceIs | src/engine/file/index.rs:115-129 | the archive of a slice holds exactly the changed entries as they are, and a tombstone for each path that is gone |
| FileSlices.UnpackedPaths | src/engine/file/restore.rs:42-110 | after unpacking there is what the archive holds, and what was there and is neither a deleted path nor below one |
| FileSlices.UnpackedEntry | src/engine/file/restore.rs:42-80 | an entry is unpacked with content, kind, size, mode and link, the time of a file cut to whole seconds |
| FileSlices.SliceCounts | src/pipeline/backup.rs:1026-1062 | a slice counts its changes, and spans one generation exactly when there are any |
| FileSlices.IncrementRecords | src/pipeline/backup.rs:989-1119 | what an incremental backup stores: a promoted full backup without the index of the head, else a slice, whose archive is stored exactly when it holds something |
| FileChain.NewestFileFull | src/pipeline/backup.rs:1136-1156 | of the manifests that are full, complete and of the file engine, the one with the largest id, or none exactly when there is no such one |
| FileChain.CollectFileChain | src/pipeline/backup.rs:1132-1180 | the newest complete file full backup; of its complete increments with a range the one with the largest end, then the largest id, or the base itself when there is none |
| FileChain.FindPath | src/pipeline/restore.rs:547-596 | on any list of manifests: a full backup alone, or the base and its chain up to the increment, only when the base is there, is a complete non-selective full backup, the file increments that name it are complete and meet, and the increment is one of them; else exactly the error that says which of these fails |
| FileChain.PathOrRefusal | src/pipeline/restore.rs:547-596 | the same of the specification of the search |
| FileChain.ApplyAll | src/pipeline/restore.rs:599-617 | archives are unpacked in order, empty slices skipped |
| FileChain.FileChainRestore | src/pipeline/restore.rs:542-621 | restoring a backup into an empty target; what the search for a path refuses is refused |
| FileChain.HeadIsLast | src/pipeline/backup.rs:1159-1180 | the head found is the last member in chain order, and its generation is the end of the chain |
| FileChain.NextKeepsInv | src/pipeline/backup.rs:989-1119 | full, incremental, empty and promoted backups, lost indexes and stopped prunes keep the invariant |
| FileChain.EveryBackupRestores | src/pipeline/restore.rs:542-621 | after every run, restoring any stored backup gives exactly what unpacking keeps of the tree it saw (all but sub-second times and the times of directories and links), or the missing-data error, the latter exactly when deleted changes are on its path |
| FileChain.GenerationsTile | src/pipeline/backup.rs:1026-1062 | after every run the increments of each full backup tile its generations, and the head is the last of them |
| PgReplay.Apply | src/engine/postgres/incremental.rs:293-399 | changes after the target commit time are skipped, the others applied in order, the first failure ends it |
| PgReplay.ApplyByRow | src/engine/postgres/incremental.rs:521-648 | without key changes a replay never fails and treats each key on its own |
| PgReplay.ApplyTwice | src/engine/postgres/incremental.rs:198-203 | applying changes twice gives what applying them once gives, when no update changes a key |
| PgReplay.MayRepeatMeansKeyKept | src/engine/postgres/incremental.rs:575-623 | a single change may be repeated before every legal continuation that keeps keys exactly when it keeps its own key |
| PgReplay.LegalReplay | src/engine/postgres/incremental.rs:521-648 | on the state in which the server executed them, the statements do what the server did |
| PgReplay.OverlapIsAbsorbed | src/pipeline/backup.rs:1524-1527 | a stretch that overlaps what was replayed adds only what is new |
| PgMoves.ReplayByRow | src/engine/postgres/incremental.rs:521-648 | with key changes too: a replay fails exactly when a row that is there moves to a key that is taken, and otherwise leaves at each key the row that its changes and the move to it give |
| PgMoves.RepeatMeansMovesAbsorbed | src/pipeline/backup.rs:1524-1527 | a legal stretch in which no key takes part in two moves may be repeated exactly when each move is absorbed: if the old key is not used again, the new one must not have been freed before without being freed after; if it is, the new key must be free and the row that goes there end up the same |
| PgMoves.OverlapWithMoves | src/engine/postgres/incremental.rs:575-623 | when its moves are absorbed, an overlapping stretch with key changes adds only what is new |
| PgTruncate.ExactMeansHarmless | src/engine/postgres/pgoutput.rs:161-162 | a replay of what the decoder keeps never fails, and gives the server state exactly when, at every key, the replay has no row at the last truncation, or the row is deleted later, or inserted again with the same columns generated always |
| PgTruncate.TruncatedRowComesBack | src/engine/postgres/pgoutput.rs:161-162 | a row that is inserted and truncated away is there after the replay |
| PgCapture.LaterStartReachesFurther | src/engine/postgres/incremental.rs:180-185 | a capture that starts inside the previous one ends no earlier than it |
| PgCapture.SelectPgFullBase | src/pipeline/backup.rs:1704-1732 | a stored manifest that is full, complete, not selective and of the PostgreSQL archive format, with the largest id when ids ascend; none exactly when there is no such one |
| PgCapture.LatestFullIs | src/pipeline/backup.rs:1704-1732 | the same of the specification of the choice |
| PgCapture.CollectPgIncrements | src/pipeline/pg_pitr.rs:240-260 | exactly the complete increments of the base, in id order |
| PgCapture.ReplayIncrements | src/pipeline/pg_pitr.rs:143-170 | the increments are replayed in order, empty slices skipped |
| PgCapture.SnapshotAbsorbs | src/pipeline/backup.rs:730-741 | replaying from before the snapshot to a position not before it gives the state at that position |
| PgRuns.ReachesSnapshotMeansState | src/pipeline/backup.rs:730-741 | a replay that began before the snapshot gives a state the server had, on every log, exactly when it reaches the snapshot or replays nothing |
| PgRuns.CutStretch | src/engine/postgres/incremental.rs:323-328 | with commit times in log order, skipping later commits cuts every stretch at one position |
| PgRuns.SlicesAreOneStretch | src/pipeline/pg_pitr.rs:143-170 | replaying slices that cover each other is one replay from the first start to the last end |
| PgRuns.RestoreIsReplay | src/pipeline/pg_pitr.rs:143-170 | a restore replays the stretches that its slices hold, cut at the target commit time |
| PgRuns.ExactMeansCovered | src/pipeline/backup.rs:1524-1527 | slices give the state at the last captured position, on every log, exactly when the first starts at or before the snapshot, each later one at or before the end of the one before, and the last does not end before the snapshot |
| PgRuns.NextKeepsInv | src/pipeline/backup.rs:1528-1652 | every step keeps what is known of the slices of each full backup: abandoned full backups, captures with partial advances, abandoned uploads and stopped prunes included |
| PgRuns.IncrementCovers | src/pipeline/backup.rs:1528-1652 | a new slice keeps its base covered exactly when the slot had not passed the last captured position |
| PgRuns.AbandonedFullIsHarmless | src/pipeline/backup.rs:730-741 | after a full backup that recreated the slot and failed, the next slice keeps the base covered exactly when the log had nothing past the last captured position when the slot was recreated |
| PgRuns.CoveredMeansInTime | src/pipeline/backup.rs:1528-1652 | after any run, abandoned full backups and stopped prunes included, a base is covered exactly when each increment that it still has started at or before its last captured position |
| PgRuns.FaultyRestoreIsExact | src/pipeline/backup.rs:730-741 | after any such run the slices of a base give the state at the last captured position, on every log, exactly when each remaining increment started in time and the last did not end before the snapshot |
| PgRuns.EveryPgRestoreIsExact | src/pipeline/backup.rs:1528-1652 | in every run in which each full backup that recreated the slot was recorded and prunes left the newest one alone, snapshot and slices give the server state at the last captured position or commit-time target, both not before the snapshot, or the missing-data error, the latter exactly when deleted changes are replayed |
| PgRuns.AbandonedFullLosesChanges | src/pipeline/backup.rs:730-741 | a run with one such full backup abandoned, whose restore succeeds and is no state the server had |
| PgPrune.StoppedPruneIsAStep | src/pipeline/prune.rs:394-480 | a planned prune of such a store, stopped after any number of deletions, is one of the prunes of these runs |
| PgTruncateRuns.ExactMeansNoHarm | src/pipeline/pg_pitr.rs:143-170 | the same over logs with truncations: a restore that has its data never fails, and gives the server state at the last captured position or target exactly when no truncation that its slices pass does harm at any key |
| AesStream.Fill | src/crypto/aes_gcm.rs:260-272 | however the reader splits its data, the buffer is filled up to its size or the end |
| AesStream.ReadExactChunk | src/crypto/aes_gcm.rs:260-272 | a chunk is short only at the end of the input |
| AesStream.PumpFrames | src/crypto/aes_gcm.rs:121-139 | with one chunk of look-ahead exactly the frames of the chunks are written, or the counter limit stops it |
| AesStream.PumpEncrypt | src/crypto/aes_gcm.rs:106-143 | for a nonce prefix the output depends on the plaintext alone, not on how it was read |
| AesStream.ReadFrame | src/crypto/aes_gcm.rs:239-257 | a frame, the end for fewer than four bytes, or the error for a bad length or short body |
| AesStream.OpenFrames | src/crypto/aes_gcm.rs:201-219 | a frame is opened as the last only when none follows |
| AesStream.PumpDecrypt | src/crypto/aes_gcm.rs:181-223 | the whole decryption: header, frames, what is released and whether it succeeds |
| AesStream.ChunkShape | src/crypto/aes_gcm.rs:121-139 | the chunks join to the input, all but the last are full, and only an empty input has an empty one |
| AesStream.EncryptSucceeds | src/crypto/aes_gcm.rs:123-137 | encryption fails exactly when the chunks outnumber the 32-bit counter |
| AesStream.LengthRoundTrip | src/crypto/aes_gcm.rs:230-257 | a big-endian length is read back |
| AesStream.RoundTrip | src/crypto/aes_gcm.rs:106-223 | decryption undoes encryption |
| AesStream.RoundTripWithTail | src/crypto/aes_gcm.rs:239-245 | with any bytes appended, decryption succeeds exactly when fewer than four were, and then gives the plaintext |
| AesStream.TruncationIsDetected | src/crypto/aes_gcm.rs:186-223 | every strict prefix is refused, and what was released is a beginning of the plaintext |
| AesFormat.DecryptionShows | src/crypto/aes_gcm.rs:181-257 | whatever decrypts, under any AEAD, begins with magic and nonce prefix, has at least one frame, each from 16 bytes to 64 KiB and 16 bytes, and at most three bytes after them; the frames open at successive nonces, only the last at a last one, and their plaintexts are what is released |
| AesFormat.StreamDecrypts | src/crypto/aes_gcm.rs:181-257 | every such stream decrypts to the plaintexts of its frames |
| AesFormat.DecryptsMeansStream | src/crypto/aes_gcm.rs:181-257 | so an input decrypts exactly when it is such a stream |
| AesStream.IdealExists | src/crypto/aes_gcm.rs:1-20 | the hypothesis about the AEAD can be met |
| Pump.PumpReader.PollRead | src/crypto/mod.rs:61-103 | one poll is a step of the state machine, which says exactly when it is pending, gives data, ends or fails |
| Pump.Pipe.PollRead | src/crypto/mod.rs:68-69 | as many bytes as are there and fit, nothing at the end, pending exactly when there is none and the writer is open |
| Pump.DeliveredIsPrefix | src/crypto/mod.rs:28-54 | in every interleaving what was received is a beginning of what the pump wrote |
| Pump.EofIsSound | src/crypto/mod.rs:28-54 | a read that looks like the end comes only after the pump succeeded and all was received, or after an error was reported |
| Pump.FailedPumpReportsFirst | src/crypto/mod.rs:85-95 | a failed pump reports its error before any such read |
| Pump.BytesAreGiven | src/crypto/mod.rs:61-75 | in every run a poll with room gives what is there, as much as fits |
| Pump.EndIsReported | src/crypto/mod.rs:75-97 | in every run, once the pump has ended and all was received, a poll is not pending: it is the error of a failed pump if that was not reported before, else the end |
| Stages.StageStack.Apply | src/pipeline/stage.rs:97-103 | the stages are applied in the order of their pushes |
| Stages.BuildStages | src/cli/handlers/backup.rs:2246-2293 | compress before encrypt, by the configured algorithms and with the key of the configured one; the recorded metadata are those; the errors for an unknown algorithm and a missing key; a restore that holds the key can reverse the stack |
| Stages.ReverseStackFor | src/pipeline/stage.rs:127-150 | decrypt before decompress, by the recorded algorithms, with the identity for age and the symmetric key for AES; exactly which error when one is unknown or the key is missing |
| Stages.ReverseUndoesForward | src/pipeline/stage.rs:105-150 | for all combinations of metadata the reverse stack undoes the stages of the backup |
| Stages.Counter.Observe | src/pipeline/backup.rs:84-100 | a counter adds the bytes of each poll |
| Stages.Hasher.Observe | src/pipeline/checksum.rs:79-106 | the hasher is fed the bytes of each poll |
| Stages.Hasher.Finalize | src/pipeline/checksum.rs:73-77 | the digest is given once |
| Stages.Consume | src/pipeline/backup.rs:629-635 | for every poll pattern hasher and counter saw exactly the bytes stored, and the raw counter the whole dump |
| Stages.StoreDumpStream | src/pipeline/backup.rs:604-658 | on success the recorded checksum and sizes are those of the stored bytes and of the raw dump |
| Inherit.ResolveFlat | src/config/v2.rs:109-162 | the recursive resolution with its shared path equals the specification, and gives the path back on success |
| Inherit.ResolvesMeansAcyclic | src/config/v2.rs:109-162 | a profile that no base hides resolves exactly when every walk through the extends graph repeats no name and meets only entities found and well typed |
| Inherit.ResolvedValue | src/config/v2.rs:109-162 | a value is the own one, else that of the last extended name whose resolved table has the key, else the default |
| Inherit.SpineValue | src/config/v2.rs:119-147 | a key with a default takes the first value on the spine of last extended names, or the default |
| Inherit.DocumentedPrecedence | README.md:199-203 | the documented precedence holds for all defaults exactly when no explicit value is off that spine |
| Inherit.DefaultHidesValue | src/config/v2.rs:119-147 | a profile that extends two bases, of which only the first sets a key that has a default: the default hides the explicit value |
| Inherit.NoDefaultNoDifference | README.md:199-203 | a key without a default always has its documented value |
| TomlText.EscRoundTrip | src/config/v2.rs:486-502 | an escaped string is read back exactly when it has no U+007F |
| TomlText.DecimalRoundTrip | src/config/v2.rs:425-430 | a printed level is parsed back |
| ConfigV2.ExpandDestArray | src/config/v2.rs:364-405 | each element expands to the merge of its keys |
| ConfigV2.ExpandProfile | src/config/v2.rs:185-314 | a profile expands to the merge of what its keys set; `ConfigMeaning`, `ConfigForms`, `ConfigPlaces` and `ConfigAccepts` say what each key means and accepts |
| ConfigRoundTrip.EmitSource | src/config/v2.rs:580-591 | the source lines |
| ConfigRoundTrip.EmitSingleDest | src/config/v2.rs:540-575 | name and compact text of the only destination, nothing for an endpoint-only profile |
| ConfigRoundTrip.EmitEncryption | src/config/v2.rs:627-642 | the encryption lines |
| ConfigRoundTrip.EmitProfile | src/config/v2.rs:578-667 | the printed lines of a profile, defaults left out |
| ConfigRoundTrip.PrintsNoKeyTwice | src/config/v2.rs:578-724 | no key is printed twice, neither for a profile nor for an element of its array |
| ConfigLaws.ProfileExpands | src/config/v2.rs:185-314 | in whatever order the entries come, a printed profile expands to the same settings |
| ConfigLaws.ElementBack | src/config/v2.rs:523-537 | which elements of a destination array come back |
| ConfigLaws.SingleBack | src/config/v2.rs:540-575 | which single destinations come back |
| ConfigLaws.CompressionBack | src/config/v2.rs:408-433 | a compression comes back exactly when its algorithm is not empty and has no colon |
| ConfigLaws.EncryptionBack | src/config/v2.rs:436-466 | which encryptions come back |
| ConfigLaws.ProfileRoundTrip | src/config/v2.rs:470-482 | parsing what was printed gives the profile back, in every order of the tables, exactly when it is canonical |
| ConfigFile.ConfigRoundTrips | src/config/v2.rs:729-754 | the same for a whole configuration |
| ConfigSpare.NoLineIsSpare | src/config/v2.rs:470-482 | no line of a printed profile is to spare: whatever lines are left out, the others no longer mean the profile, so no documented default is printed |
| ConfigSpare.NoElementLineIsSpare | src/config/v2.rs:523-537 | nor is a line of an element of its array |
| ConfigSpare.BucketlessIsRefused | src/config/v2.rs:540-575 | a single S3 destination without a bucket is printed as a text that is refused |
| ConfigMeaning.SourceMeans | src/config/v2.rs:200-206 | in whatever order the entries come, the source settings are those of their keys |
| ConfigMeaning.ModeMeans | src/config/v2.rs:207-211 | the mode settings are those of their keys, or the defaults |
| ConfigMeaning.IncrementalMeans | src/config/v2.rs:236-240 | the settings of incremental backups are those of their keys, or the defaults |
| ConfigMeaning.RetentionMeans | src/config/v2.rs:241-246 | the retention settings are those of their keys |
| ConfigMeaning.HooksMean | src/config/v2.rs:247-255 | the hooks, which the printer never writes, are those of their keys |
| ConfigMeaning.DaemonMeans | src/config/v2.rs:256-258 | schedule and notification are those of their keys |
| ConfigForms.EncryptSwitches | src/config/v2.rs:436-443 | false, "off" and "false" disable encryption, true and nothing enable it; algorithm and recipient are those of their own keys |
| ConfigForms.EncryptNames | src/config/v2.rs:444-458 | "alg" and "alg:" enable encryption by that algorithm |
| ConfigForms.EncryptNamesFor | src/config/v2.rs:444-458 | "alg:recipient" enables encryption by that algorithm for that recipient |
| ConfigForms.CompressExplicit | src/config/v2.rs:230-232 | without a compact value algorithm and level are those of their own keys, or the defaults |
| ConfigForms.CompressNames | src/config/v2.rs:408-433 | "alg" names the algorithm |
| ConfigForms.CompressNamesLevel | src/config/v2.rs:408-433 | "alg:level" names algorithm and level |
| ConfigForms.CompressLater | src/config/v2.rs:229-232 | of a compact and an explicit algorithm the later entry counts |
| ConfigForms.EncryptLater | src/config/v2.rs:233-236 | the same for encryption |
| ConfigPlaces.PlaceByKeys | src/config/v2.rs:212-228 | without a compact text the destination is what its keys say, with S3 settings exactly when one of their keys is there |
| ConfigPlaces.LocalPlace | src/config/v2.rs:318-337 | "local:path" is that path |
| ConfigPlaces.BucketPlace | src/config/v2.rs:338-355 | "s3:bucket" and "s3:bucket/prefix" are that bucket and prefix, the rest by keys |
| ConfigPlaces.ElementByKeys | src/config/v2.rs:364-405 | an array has one destination for each element, which takes the place of the single one; an element without compact text is what its keys say |
| ConfigPlaces.ElementLocal | src/config/v2.rs:364-405 | an element with "local:path" |
| ConfigPlaces.ElementBucket | src/config/v2.rs:364-405 | an element with the text of a bucket |
| ConfigAccepts.AcceptedParses | src/config/v2.rs:185-314 | a table whose every value has a form or type that its key accepts is a profile |
| ConfigAccepts.ArrayParses | src/config/v2.rs:263-272 | beside an array of destinations the keys of a single one may hold anything |
| ConfigAccepts.UnacceptedIsRefused | src/config/v2.rs:185-314 | any entry with an unknown key, or a value that its key does not accept and that no other key replaces, makes the profile an error |
| ConfigAccepts.ElementIsRefused | src/config/v2.rs:364-405 | so does an element with an unknown key or a compact value that names no destination |
| ConfigAccepts.ElementValueIsRefused | src/config/v2.rs:364-405 | and a value that is no text under a key of an element |
| Lock.Classify | src/lock/file_lock.rs:239-288 | a holder is reclaimed exactly when it is of this host and certainly dead |
| Lock.LockGuard.Unlock | src/lock/file_lock.rs:107-119 | disarms the guard and removes the file, once |
| Lock.TryCreate | src/lock/file_lock.rs:187-221 | creates exclusively with the data of the holder, or cleans up after a failed write |
| Lock.AcquireIn | src/lock/file_lock.rs:140-181 | undisturbed, the lock is taken exactly when there is no file or its holder is a process of this host that does not exist and is not number 0; otherwise the file is left untouched and the note says whether it is unreadable, of another host, or held for more than a day |
| Lock.StepKeepsInv | src/lock/file_lock.rs:140-221 | every interleaved step keeps the invariant, crashes and number reuse included, unless a removal takes the file of a live process |
| Lock.LiveHolderKeepsFile | src/lock/file_lock.rs:158-170 | while reading and removing are one step, no step takes away the file of a live holder outside the program, of another host, or of number 0 |
| Lock.RunExcludesMeansSparesLive | src/lock/file_lock.rs:140-221 | in every run of the program as it is, from creating its file to removing it each process is alone and finds its file, exactly when no reclaim takes the file of a live process |
| Lock.TakingWhatWasReadExcludes | src/lock/file_lock.rs:158-170 | it is enough that each reclaim removes the file whose holder it read |
| Lock.TwoHoldersRun | src/lock/file_lock.rs:158-170 | a run of two live holders when reading and removing are separate |
| Lock.ExclusiveMeansAtomic | src/lock/file_lock.rs:140-221 | the lock excludes at every point of every run exactly when the reading of the holder and the removal of its file are one step |

## Left out

- PruneLaws.WindowIsRecoverable: the cutoffs are assumed not to overflow 64 bits (`NoOverflow`), which the program does not check either.
- PruneLaws.NoIncrementIsAbandoned: is not what a reader may hope for: an increment whose base is an incomplete full backup, or another increment, stays behind when that base is pruned; the crash-safety lemmas of `PruneExec` need that the base of each increment is a complete full backup of the input.
- Chain.ChainVerifier.Verify: needs a list on which the first and the last node of each id agree, as in a store, whose ids are directory names; `Chain.VerifiersAgreeMeansAlike` says for which targets of other lists the answers differ.
- MongoRuns.EveryRestoreIsExact: holds for a store of one engine; the base selection for increments does not look at the engine, so a mixed store can attach an increment to a foreign base.
- MongoRuns.NextKeepsInv: while an increment is under way only the server acts, since the profile's lock keeps other backups and prunes away; a cursor that loses its place while it is read fails and leaves no slice, and an upper bound is any position up to the last entry, whatever split transactions extend it to.
- PgRuns.EveryPgRestoreIsExact: needs a log in which no update changes a key and no table is truncated, that each full backup that recreated the slot was recorded, and that prunes take nothing from the newest full backup; logs with truncations are in `PgTruncateRuns.ExactMeansNoHarm`, runs with either fault in `PgRuns.FaultyRestoreIsExact`, key changes in `PgMoves`.
- PgMoves.RepeatMeansMovesAbsorbed: about stretches in which no key takes part in two moves; a row that moves on, or a key that takes in a second row, is covered only by `PgMoves.ReplayByRow`.
- PgTruncateRuns.ExactMeansNoHarm: the log has truncations but no key changes.
- PgReplay.ApplyTwice: rows of tables without a key, and replica identities with NULL values, are not modelled; without a key inserts are repeated by an overlap, and updates and deletes are skipped by the code with a warning.
- PgReplay.LegalReplay: an update that resets a column generated always to its default is not a legal change of the model; the code leaves such columns out of what it sets.
- PgRuns.ReachesSnapshotMeansState: the position of a slot counts whole transactions; transactions in progress when the slot is created are not modelled.
- FileChain.DeltaIsExact: trees do not change while they are read; an entry that changes between directory and file is replaced in the model, while unpacking over it may fail; the reserved path for tombstones is not a path of the model.
- FileChain.EveryBackupRestores: the times of restored directories and links are not kept track of, and times before 1970 are not modelled; generations stay below the 32-bit limit (the code does not check the increment).
- AesStream.TruncationIsDetected: about an ideal AEAD that opens a frame only at its own nonce; AES-GCM itself, the choice of the nonce prefix and forged frames are not modelled.
- AesStream.EncryptSucceeds: the counter limit is that of the STREAM construction in the `aead` crate, which is not part of this model.
- Stages.StoreDumpStream: a reader behind the stages may give out its bytes in any pieces, but what it gives out is a function of the whole dump; codecs are abstract inverse pairs.
- Stages.ReverseUndoesForward: the key in the environment is assumed to be the one that encrypted.
- Inherit.ResolvesMeansAcyclic: needs that no base has the profile's own name; with such a base the walk from the profile is not the one the code follows.
- ConfigLaws.ProfileRoundTrip: keys and settings are constructors, not texts; profile names are printed unescaped and are taken to be bare keys.
- ConfigForms.EncryptNames: like the other laws of `ConfigForms` and `ConfigPlaces`, about tables in which no second key says the same; of two the later entry counts, which `ConfigForms.EncryptLater` and `ConfigForms.CompressLater` state for the algorithms and `ConfigMeaning.LaterWins` for any setting.
- Pitr.DecidedIsLastSecond: inside a slice the code reports counter 0 of the target second although the replay applies later entries of that second too, so only the second is claimed to be the last.
- Lock.RunExcludesMeansSparesLive: one profile and one host; lock files of other hosts are only left alone, and nothing outside the program removes the file.
- Errors of the input stream and of the sink while encrypting or decrypting: they propagate unchanged.
- An unreadable manifest counts as absent, as it does in the loops that skip it.
- Order of the reasons and the texts of errors, warnings and prune reasons: presentation only.
- MySQL chains and the application of entries to a server: same shape as what is modelled, or outside the repository's own algorithms.
- Database drivers, S3, subprocesses, hooks, webhooks, the daemon, the command line and the terminal interface: no algorithm of their own.
- Restore and migrate guards, exit codes, content digests and comparisons: correct by reading one body.

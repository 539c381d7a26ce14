# Verified cores of the Vortex backend

A Dafny model of the parts of the backend whose correctness does not show in any single function: protocols
interleaved at every `await`, procedures that may stop between any two statements, and arithmetic that has to add
up over whole runs. `dafny verify dfyconfig.toml` checks the project.

Conventions. An object with mutable fields is a class whose methods are proved equal to functions on its `View()`.
Where several activities interleave, each synchronous stretch between two awaits is one step of a state machine
(`Do`), a run is any finite sequence of steps (`Run`), a step that is not enabled changes nothing, and the theorems
hold for every run. A process that may stop, or a collaborator that may fail, is a nondeterministic branch in the
method, unless the run is `calm`: then nothing fails, and the contract says what is done. Clocks, loaders, uploads and the order in which a database returns rows are parameters or
nondeterminism.

| area | modules |
|---|---|
| read cache | `MemoryStore`, `ReadCache`, `ReadCacheProtocol`, `ReadCacheAnswers` |
| guardian actions | `Guardian`, `GuardianRuns`, `GuardianRestart` |
| archival, partitions, backfill | `Keyset`, `Archival`, `Restore`, `AuditPartitions`, `MonthNames`, `Backfill` |
| abuse rules | `AbuseRules`, `RuleStore`, `RuleQueue`, `RuleRefresh` |
| feature flags | `Flags` |
| fees | `Fees`, `FeeLedger` |
| auctions | `Dutch`, `Ticker` |
| health | `Health` |
| analytics and exports | `Analytics`, `AnalyticsRows`, `ChainPairs`, `TokenPairs`, `Csv` |
| shared helpers | `Common`, `Arithmetic`, `Sorting` |

## Where the code does less than it says

Each of these is proved with a concrete run or input, next to the exact condition under which the promise holds.

- An override of a guardian action awaits its audit record and then lifts whatever is under the key, so it can lift a
  newer activation (`GuardianRuns.OverrideRaceLiftsNewAction`; exact condition in `GuardianRuns.ActionsInForce`).
- A superseded guardian row stays active in the table, and the table is read back without an order, so a restart can
  drop an action in force (`GuardianRestart.UnorderedRestoreLosesAction`) or resurrect a cleared one
  (`GuardianRestart.ClearedActionReturns`; exact condition for both in `GuardianRestart.RestartConvergesIff`).
- Archival deletes whole rows but exports a fixed selection of columns, so the auction, idempotency key, source
  transaction and verification, fill verification, partial-fill terms, USD value and surrogate id of an intent are gone
  (`Restore.AuctionIsLost`), and so is the falsy metadata of an audit row (`Restore.FalsyMetadataIsLost`). A restore
  gives back whole rows if and only if those columns are what they are filled with and no metadata is falsy
  (`Restore.RestoredWholeIff`); the files alone determine the deleted intents if and only if there were none
  (`Restore.DeterminedIff`).
- The archival manifest is never read back before rows are deleted; if its own upload is corrupted the rows are safe
  in their files but `restoreDate` cannot use them (`Restore.CorruptManifestBlocksRestore`; exact condition in
  `Restore.ArchiveRestoreIff`).
- A refresh may show a remote rule change which a local change, committed before it, then hides for a while
  (`RuleRefresh.RemoteChangeMayFlicker`; exact condition in `RuleRefresh.GoesBackIff`). Local changes are always
  protected (`RuleRefresh.ReadYourWrites`).
- `possibleValues` also counts values that no context gets (`Flags.PossibleNeedNotOccur`; exactly the values that
  occur in `Flags.OccursIff`), which only ever asks for more approvals.
- A referral with an empty integrator id quotes a fee that can never be posted
  (`FeeLedger.EmptyIntegratorIdRefused`; exact condition in `FeeLedger.QuotedFillAccepted`).
- An auction that leaves the open list and returns before its price moved is recorded twice at that price
  (`Ticker.ReopenedRepeats`; exact condition in `Ticker.TicksFollowPrice`).
- An indicator named `readiness` mixes its flips with those of readiness (`Health.ReadinessNameClash`; exact condition
  in `Health.ReadinessRowsIff`).
- Partition names with month 13 are accepted and read as another month (`MonthNames.OutOfRangeMonthIsAliased`; exact
  condition in `MonthNames.OwnNameIff`). Two detached tables of one month share a manifest, so the second is dropped
  without being exported (`AuditPartitions.AliasedTableLost`; exact condition in `AuditPartitions.MonthExportedIff`).
- A detached audit table is dropped once objects with the right names exist, whatever they hold, so its rows are safe
  exactly when what was stored can be read (`AuditPartitions.GarbledTableLost`; exact condition in
  `AuditPartitions.ApartNothingLost`).
- Chain-pair rows are keyed by a joined string that is split again, so a chain name holding `::`, or a source chain
  ending in `:`, is reported under other names (`ChainPairs.TrailingColonMoves`; exact conditions in
  `ChainPairs.LabelsIff` for a row and `ChainPairs.ChainPairsExactIff` for the query).
- Token-pair rows are keyed by both symbols joined with a colon, so pairs whose symbols hold a colon can be merged
  (`TokenPairs.ColonMergesPairs`; exact conditions in `TokenPairs.KeySharedIff` for a key and
  `TokenPairs.TokenPairsExactIff` for the query).
- CSV column names are not escaped, so the RFC 4180 claim holds exactly for plain column names
  (`Csv.RoundTripIff`, `Csv.CommaInHeader`).

## Model

| member | source | states |
|---|---|---|
| `ReadCacheProtocol.NoStaleAnswer` | src/cache/cache.service.ts:83-139 | in every interleaving, a read that begins after an invalidation of its keyspace (local or remote) is answered only by a load that started after that invalidation |
| `ReadCacheProtocol.ReadsSeeInvalidatedWrites` | src/cache/cache.service.ts:83-201 | write, then invalidate, then read: the value read is that database version or a later one |
| `ReadCacheProtocol.OneLoadOneOutcome` | src/cache/cache.service.ts:95-138 | at most one shared loader is unsettled per key and generation, and everyone served by a load gets the same outcome, value or failure, for values that JSON gives back unchanged |
| `ReadCacheProtocol.InvariantHolds` | src/cache/cache.service.ts:83-201 | in every reachable state each stored entry and in-flight load belongs to the current generation of its keyspace |
| `ReadCacheProtocol.KeptByInvalidate` | src/cache/cache.service.ts:146-157 | dropping the generation and the flights of a keyspace and deleting its entries keeps the invariant: nothing older survives |
| `ReadCacheAnswers.InvalidateIsExact` | src/cache/cache.service.ts:146-197 | an invalidation removes exactly the keyspace's entries and flights and advances its generation alone |
| `ReadCacheProtocol.KeptByFinish` | src/cache/cache.service.ts:125-131 | a loader that resolves keeps the invariant: it writes back only while its generation is current, so no stored entry is older than the last invalidation |
| `ReadCacheProtocol.KeptByFinally` | src/cache/cache.service.ts:134-138 | clean-up keeps the invariant; what it removes is said by `ReadCacheAnswers.FinallyEndsFlight` |
| `ReadCacheAnswers.FinallyEndsFlight` | src/cache/cache.service.ts:134-138 | the clean-up of a settled load removes exactly the flight of that load and leaves everything else |
| `ReadCacheAnswers.ReadAfterFinally` | src/cache/cache.service.ts:93-138 | in every run, a read that begins after the clean-up of a load is answered by that load only from a stored value that was stored for longer than the time of the read |
| `ReadCacheAnswers.FailureIsNotKept` | src/cache/cache.service.ts:116-138 | in every run, a failed load answers no read that begins after its clean-up |
| `ReadCacheAnswers.ReadCoalesces` | src/cache/cache.service.ts:95-102 | a read that begins while a current shared load of its key is pending is answered by that load, whatever happens next |
| `ReadCacheAnswers.ReadHits` | src/cache/cache.service.ts:103-109 | a read that finds a live stored value and no pending load is answered by the load that stored it |
| `ReadCacheAnswers.MissLoads` | src/cache/cache.service.ts:104-133 | a read that finds neither starts a shared load and is answered by it; a store that failed is marked so that it is not written back to |
| `ReadCacheAnswers.BypassLoads` | src/cache/cache.service.ts:89-92 | a read that bypasses the cache is answered by a load of its own and leaves cache and flights alone |
| `ReadCacheAnswers.LoadAnswers` | src/cache/cache.service.ts:121-138 | a load that runs to its end gives a waiting caller the database's version, or its failure |
| `ReadCacheAnswers.FinishedIsStored` | src/cache/cache.service.ts:122-129 | a resolved load is found by readers of its key exactly until its time is up, if the store was healthy, has room and no invalidation intervened |
| `ReadCacheAnswers.EntriesStamped` | src/cache/cache.service.ts:203-209 | in every run each stored value was stored by a resolution of its load, for the time that resolution gave it |
| `ReadCache.CacheService.Look` | src/cache/cache.service.ts:93-109 | joins a pending load before touching the store, otherwise reads the store |
| `ReadCache.CacheService.JoinOrRegister` | src/cache/cache.service.ts:116-133 | after the store read, joins a load that raced ahead or registers a new one with the generation it saw |
| `ReadCache.CacheService.FinishLoad` | src/cache/cache.service.ts:125-131 | writes back only if the store was healthy and the generation has not moved |
| `ReadCache.CacheService.Finally` | src/cache/cache.service.ts:134-138 | deletes the in-flight entry only if it is this load's |
| `ReadCache.CacheService.Drop` | src/cache/cache.service.ts:192-197 | bumps the generation and removes exactly the keyspace's flights |
| `ReadCache.CacheService.InvalidateLocal` | src/cache/cache.service.ts:146-160 | the two loops together are one invalidation of every keyspace listed |
| `ReadCache.CacheService.OnRemoteInvalidation` | src/cache/cache.service.ts:181-190 | ignores its own echo, otherwise invalidates |
| `MemoryStore.MemoryCacheStore.Lookup` | src/cache/memory-cache.store.ts:23-31 | returns an unexpired value and forgets an expired one |
| `MemoryStore.MemoryCacheStore.Store` | src/cache/memory-cache.store.ts:33-41 | re-inserts last and evicts the oldest beyond the capacity, which may be zero |
| `MemoryStore.MemoryCacheStore.DeleteKeyspace` | src/cache/memory-cache.store.ts:43-48 | removes exactly the keys with the keyspace's prefix |
| `MemoryStore.GetAfterPut` | src/cache/memory-cache.store.ts:23-41 | a stored value is found until it expires, if the capacity is positive |
| `MemoryStore.GetKeeps` | src/cache/memory-cache.store.ts:23-31 | a read drops the entry it finds expired and no other |
| `MemoryStore.PutKeepsNewest` | src/cache/memory-cache.store.ts:33-41 | a write keeps the newest entries that fit beside the new one, in order |
| `MemoryStore.PrefixDecidesKeyspace` | src/cache/memory-cache.store.ts:43-48 | no keyspace's prefix matches a key of another keyspace, whatever the key contains |
| `MemoryStore.FullKeyInjective` | src/cache/cache.service.ts:93 | different keyspace and key pairs have different full keys |
| `GuardianRuns.ActionsInForce` | src/governance/guardian.service.ts:104-168 | with first deliveries in chain order and any re-deliveries and overrides, the active map shows exactly the latest non-overridden activations all along the run if and only if every override commits while its action, or nothing, is under the key |
| `GuardianRuns.CommitMirrorsIff` | src/governance/guardian.service.ts:149-168 | one override keeps the map faithful exactly under that condition |
| `GuardianRuns.OverrideRaceLiftsNewAction` | src/governance/guardian.service.ts:149-168 | the run in which an override lifts a newer activation |
| `GuardianRuns.ApplyMirrors` | src/governance/guardian.service.ts:104-142 | an event later by ledger, then index, than all before it moves the active map exactly as the chain moved |
| `GuardianRuns.DeliverMirrors` | src/governance/guardian.service.ts:104-142 | the same for any delivery, repeated ones included |
| `GuardianRestart.LaterActivationStands` | src/governance/guardian.service.ts:38-40 | deliveries in any order, repeated at will: a delivered activation, or one after it, is active under its key unless a clear after it was delivered |
| `GuardianRuns.PolicyFollowsActions` | src/governance/guardian.service.ts:210-215 | from any restored state, after any deliveries and overrides in any order, pause, suspensions and freezes point exactly to the active actions |
| `GuardianRuns.RestoreProjected` | src/governance/guardian.service.ts:188-215 | the policy a restore builds points exactly to the actions it activates |
| `GuardianRestart.RestartConvergesIff` | src/governance/guardian.service.ts:87-208 | stopped after a history and having missed any later events, restore in a given row order plus replay of a window of the chain reaches the uninterrupted active map if and only if every action in force is a missed event that is replayed or has its row read after the key's other active rows, and the clear of every cleared key that has an active row is in the window |
| `GuardianRestart.KeyRestoredIff` | src/governance/guardian.service.ts:87-208 | the same for one key, with the missed events split into those outside the window and those replayed |
| `GuardianRestart.ReplayNews` | src/governance/guardian.service.ts:104-142 | events nobody has seen, replayed in chain order, decide exactly the keys they name |
| `GuardianRestart.RestoredIsLast` | src/governance/guardian.service.ts:190-205 | the restored record of a key is that of its last active row |
| `GuardianRestart.ChainOrderRestores` | src/governance/guardian.service.ts:188-208 | rows read in chain order and a full replay give back the whole state, active map and seen set |
| `GuardianRestart.ChainOrderIsLast` | src/governance/guardian.service.ts:188-208 | in chain order the row of every action in force comes after the key's other active rows |
| `GuardianRestart.InForceNeverDropped` | src/governance/guardian.service.ts:104-142 | an action in force at the end of the history is never dropped at any point of its replay |
| `GuardianRestart.ReplayWindow` | src/governance/guardian.service.ts:87-101 | a replay over restored rows only ever clears, and clears exactly what some replayed clear follows |
| `GuardianRestart.ResurrectedCleared` | src/governance/guardian.service.ts:104-142 | a wrongly restored action is cleared exactly when the key's latest event is replayed |
| `GuardianRestart.TableHolds` | src/governance/guardian.service.ts:121-141 | the table holds one row per activation in chain order, and the row of an action in force is active |
| `GuardianRestart.SupersededRowStays` | src/governance/guardian.service.ts:110-141 | a superseded activation's row stays active in the table |
| `GuardianRestart.ClearedActionReturns` | src/governance/guardian.service.ts:188-208 | activated twice, then cleared: with the clear outside the window the restarted process has the first activation in force |
| `GuardianRestart.UnorderedRestoreLosesAction` | src/governance/guardian.service.ts:188-208 | the row order in which a restart and a full replay drop an action in force |
| `Guardian.GuardianService.Restore` | src/governance/guardian.service.ts:188-208 | the restore loop equals its fold over the rows, for state and policy |
| `Guardian.GuardianService.Apply` | src/governance/guardian.service.ts:104-142 | one event's effect on the active map, seen set, policy and table |
| `Guardian.ClearLiftsIff` | src/governance/guardian.service.ts:38-40 | a clear removes the activation under its key if and only if its ledger is larger, or the same with a larger index |
| `Guardian.ActivationTakesIff` | src/governance/guardian.service.ts:110-113 | an activation takes its key if and only if nothing is there or its ledger is larger, or the same with a larger index |
| `Guardian.GuardianService.FindActive` | src/governance/guardian.service.ts:149-151 | finds an active action with the id if there is one |
| `Guardian.GuardianService.FinishOverride` | src/governance/guardian.service.ts:159-167 | lifts the key, the policy and the row after the audit record |
| `Guardian.GuardianStateService.ProjectAction` | src/governance/guardian.service.ts:210-215 | routes an action to the one setter of its kind |
| `Archival.ArchivalService.ArchiveAll` | src/archival/archival.service.ts:102-333 | over any sequence of runs on any dates, each stopping anywhere and with any corrupted uploads, every row is still in the tables or its exported columns are in a file matching its verified digest, and an intent due on none of the dates is still in its table |
| `Archival.ArchivalService.ArchiveDate` | src/archival/archival.service.ts:102-333 | the same for one run; whatever the outcome, only filled, cancelled, expired or slashed intents created on that UTC day, and their audit rows, go; a completed run leaves none of them and has exported the columns of each exactly once; a calm run completes unless the date is archived already; a skipped or rejected run deletes nothing |
| `Archival.ArchivalService.ExportIntents` | src/archival/archival.service.ts:141-240 | the files written are, in order, exactly the exported columns of the selected intents, and the ids collected are theirs; calm, they all match their digests |
| `Archival.SelectedIff` | src/archival/archival.service.ts:123-152 | an intent is selected if and only if it is due: in one of the four terminal states, and created on the day of the date |
| `Archival.IdsAreDue` | src/archival/archival.service.ts:141-284 | the ids collected are those of the due intents, and the audit rows they name those of due intents |
| `Archival.ArchivalService.ExportAudits` | src/archival/archival.service.ts:244-284 | the files written are, in order, exactly the audit rows of the exported intents, falsy metadata becoming none |
| `Archival.ArchivalService.Verify` | src/archival/archival-manifest.ts:48-67 | passes exactly when every listed file is stored with its digest |
| `Archival.ArchivalService.DeleteRows` | src/archival/archival.service.ts:301-315 | stopped anywhere, it has deleted a prefix of the ids, audits never behind intents |
| `Archival.ArchivalService.DeleteArchived` | src/archival/archival.service.ts:293-315 | after verification, deletion keeps the exported columns of every row in a sealed file |
| `Archival.DeletionConserves` | src/archival/archival.service.ts:293-315 | whatever prefix was deleted, the exported columns of each deleted row are in the verified files |
| `Archival.SealedKept` | src/archival/archival.service.ts:601-611 | writes for a date without a manifest cannot reach a sealed file |
| `Keyset.NextPage` | src/archival/archival.service.ts:141-240 | the page after a page starts where it ended: nothing skipped, nothing repeated |
| `Keyset.PageRead` | src/intents/audit-partition.service.ts:261-296 | pages read so far followed by the rest are always the whole table |
| `Keyset.InsertMissingHolds` | src/archival/archival.service.ts:480-570 | inserting with conflicts ignored keeps old rows, adds the first of each new key and nothing else |
| `Keyset.InsertMissingConcat` | src/archival/archival.service.ts:480-570 | batches of inserts equal one insert |
| `Keyset.InsertAgain` | src/archival/archival.service.ts:480-570 | inserting again changes nothing |
| `Restore.RestoreDate` | src/archival/archival.service.ts:348-425 | the loop over files equals its specification, dry run or not, with its errors, what they leave behind and the counts of rows |
| `Restore.RestoreSucceedsIff` | src/archival/archival.service.ts:348-425 | exactly when a restore, or its dry run, goes through; a dry run changes nothing |
| `Restore.InsertRows` | src/archival/archival.service.ts:480-537 | batched inserts equal one insert of all rows |
| `Restore.RestoresExactlyIff` | src/archival/archival.service.ts:348-425 | whatever is stored as the manifest: exactly when a restore into an empty schema brings back given rows and nothing else |
| `Restore.ArchiveRestoreIff` | src/archival/archival.service.ts:348-425 | after a verified export, with the manifest stored intact or as something that is no manifest, a restore into an empty schema brings back exactly the exported columns of the archived intents and audits if and only if it is intact |
| `Restore.RestoredWholeIff` | src/archival/archival.service.ts:154-220 | for any way of filling the unexported columns, a restore from an intact manifest gives back the whole intents if and only if each one's unexported columns are what they are filled with, and the whole audit rows if and only if none has falsy metadata |
| `Restore.DeterminedIff` | src/archival/archival.service.ts:154-220 | the files of a completed run determine the intents it deleted if and only if it deleted none |
| `Restore.AuctionIsLost` | src/archival/archival.service.ts:154-183 | two intents that differ in their auction alone have one archive, so no way of filling it restores both |
| `Restore.FalsyMetadataIsLost` | src/archival/archival.service.ts:264-272 | an audit row whose metadata is `null`, `false`, `0` or the empty string is archived as one without metadata |
| `Restore.CorruptManifestBlocksRestore` | src/archival/archival.service.ts:289-293 | the verification before deletion passes although the stored manifest is unreadable |
| `AuditPartitions.AuditPartitionService.Execute` | src/intents/audit-partition.service.ts:134-166 | over any passes: no month at or after the cutoff is detached, every attached month stays or is detached unchanged under its own name; without errors no attached month is left before the cutoff, every readable detached table has its manifest and partitions exist ahead; a calm pass leaves attached only months whose detached name was taken, and no readable table if it drops; while the clock does not go back, tables of different months stay so, and then every detached table is still there or its rows are exported exactly as far as the uploads can be read |
| `AuditPartitions.AuditPartitionService.EnsureUpcoming` | src/intents/audit-partition.service.ts:185-203 | creates only months of the window, each with its rows of the default partition; the errors are exactly the months of the window still missing |
| `AuditPartitions.AuditPartitionService.ApplyRetention` | src/intents/audit-partition.service.ts:205-233 | detaches only months before the cutoff, unchanged; the errors are exactly the months before the cutoff still attached, which if nothing failed are those whose detached name was taken |
| `AuditPartitions.AuditPartitionService.Detach` | src/intents/audit-partition.service.ts:205-233 | a detach happens whole or not at all; if nothing fails, exactly when no table of that name exists |
| `AuditPartitions.AuditPartitionService.ExportTable` | src/intents/audit-partition.service.ts:261-296 | the part files listed, if they can be read, hold exactly what is exported of the table's rows, once and in order, and nothing else is touched; calm, they can |
| `AuditPartitions.AuditPartitionService.ExportOne` | src/intents/audit-partition.service.ts:236-318 | a table is dropped only if its month has a manifest; if there was one already nothing is written; if nothing fails the rows of a month without one are exported, and the table is dropped if it is to be |
| `AuditPartitions.AuditPartitionService.ExportDetached` | src/intents/audit-partition.service.ts:236-259 | whatever fails, the safety invariant holds; without errors every readable table has its manifest |
| `AuditPartitions.MonthExportedIff` | src/intents/audit-partition.service.ts:236-259 | in every reachable state, all tables of a month with a readable export are exported if and only if they have the same exported rows |
| `AuditPartitions.ApartNothingLost` | src/intents/audit-partition.service.ts:236-318 | with at most one table per month, a table that is gone has a manifest, and its rows are exported if and only if the manifest and the files it lists can be read |
| `AuditPartitions.AliasedTableLost` | src/intents/audit-partition.service.ts:236-259 | month 13 of a year beside the next January: the second table is gone and its rows are not in the bucket |
| `AuditPartitions.GarbledTableLost` | src/intents/audit-partition.service.ts:298-318 | a table whose part file was stored as something else is gone all the same |
| `AuditPartitions.MonthsAhead` | src/intents/audit-partition.service.ts:358-363 | counts exactly the contiguous months ahead |
| `MonthNames.SuffixRoundTripIff` | src/intents/audit-partition.service.ts:29-42 | a partition's name leads back to its month exactly for years 1000 to 9999 |
| `MonthNames.SuffixInjective` | src/intents/audit-partition.service.ts:34-36 | different months have different names |
| `MonthNames.OwnNameIff` | src/intents/audit-partition.service.ts:17-42 | a name read as a month is that month's own name if and only if its month is 01 to 12 and its year is at least 1000 |
| `MonthNames.OutOfRangeMonthIsAliased` | src/intents/audit-partition.service.ts:17-42 | the name of month 13 is read as January of the next year |
| `Backfill.AuditCopy.CopyAuditRows` | scripts/backfill-audit-partitions.ts:87-129 | for any batch size, retries and interruption, the target is the initial target plus every source row between the saved id and some id at or past the new saved one; a completed copy reached the end in as many batches as that takes; a run that is not killed and whose batches all land completes |
| `Backfill.AuditCopy.ResumeUntilDone` | scripts/backfill-audit-partitions.ts:87-136 | any interrupted runs resumed from the state file, then one that completes, as it does if it is not killed and its batches land: initial target plus every source row past the start, none of them missing by id and timestamp |
| `Backfill.AuditCopy.CopyBatch` | scripts/backfill-audit-partitions.ts:100-118 | a batch lands, once, if and only if some attempt within the retries succeeds after failures that may all be retried |
| `Backfill.Overlap` | scripts/backfill-audit-partitions.ts:87-129 | a run resumed behind what was already copied adds exactly the missing rows |
| `AbuseRules.StoreRoundTripIff` | src/abuse/abuse-rules.ts:102-114 | overrides survive storing and loading exactly when they are clean |
| `AbuseRules.SanitizeIsClean` | src/abuse/abuse-rules.ts:81-114 | whatever was stored, what is loaded has only known fields with values in range and no empty rule |
| `AbuseRules.SanitizeIdempotent` | src/abuse/abuse-rules.ts:102-114 | what is loaded is what a store of it loads again |
| `AbuseRules.SanitizeAt` | src/abuse/abuse-rules.ts:102-114 | a clean rule passes through untouched whatever the other rules hold |
| `AbuseRules.ValidatedChangeKept` | src/abuse/abuse-rules.ts:60-114 | an accepted change is stored in full: sanitising drops none of it |
| `AbuseRules.PatchFields` | src/abuse/abuse-score.service.ts:159-164 | after an accepted PATCH the body's fields have the body's values, the fields overridden before and not in the body keep theirs, no other field is overridden and no other rule has changed |
| `AbuseRules.PatchedRule` | src/abuse/abuse-score.service.ts:159-164 | the same of the effective rules: the body's values, and everything else as it was |
| `AbuseRules.PatchAcceptedIff` | src/abuse/abuse-rules.ts:60-79 | a body is accepted if and only if it sets something and sanitising would keep all of it |
| `AbuseRules.FieldRules` | src/abuse/abuse-rules.ts:81-95 | which values each field of each rule takes |
| `AbuseRules.MergeFields` | src/abuse/abuse-rules.ts:117-124 | an overridden field has the override, every other one the base value |
| `AbuseRules.PatchThenReset` | src/abuse/abuse-score.service.ts:159-173 | update then reset leaves no override of that signal and the others as they were |
| `AbuseRules.ResetRevertsToBase` | src/abuse/abuse-rules.ts:117-124 | so its effective rule is the base rule again and no other rule moved |
| `RuleStore.UpdatesLinearize` | src/abuse/abuse-rules.ts:164-188 | in every interleaving of instances, the stored value is that of a sequential store applying the same writes; an update that returned is in there exactly once with its value, any other not at all |
| `RuleStore.UpdateCompletes` | src/abuse/abuse-rules.ts:164-188 | an update that nobody interrupts stores and returns the mutation of the stored value |
| `RuleStore.UpdateRetries` | src/abuse/abuse-rules.ts:164-188 | one that somebody interrupts tries again until its attempts are used up |
| `RuleQueue.QueueRefines` | src/abuse/abuse-rules.ts:145-188 | with the queue, every run of updates sharing one WATCH per connection is a run in which each update watches on its own |
| `RuleQueue.QueuedUpdatesLinearize` | src/abuse/abuse-rules.ts:145-188 | so with the queue the stored value is that of a sequential store applying the same writes, an update that returned is in there exactly once with its value, and any other not at all |
| `RuleQueue.FirstCompletes` | src/abuse/abuse-rules.ts:145-188 | in every run the first unfinished update of a connection is let through, and commits if nobody interrupts it |
| `RuleQueue.UnqueuedUpdateIsLost` | src/abuse/abuse-rules.ts:145-150 | without the queue, an update that returned is overwritten unseen |
| `RuleStore.SequentialAgrees` | src/abuse/abuse-rules.ts:170-188 | a chain of writes, each the sanitised mutation of the one before, has the value of the sequential store |
| `RuleStore.InvariantHolds` | src/abuse/abuse-rules.ts:170-188 | every committed value is the sanitised mutation of the value it replaced |
| `RuleStore.RedisAbuseRulesStore.Attempt` | src/abuse/abuse-rules.ts:164-188 | one attempt: it fails only if somebody else has written meanwhile, and then has written nothing |
| `RuleStore.RedisAbuseRulesStore.UpdateOnce` | src/abuse/abuse-rules.ts:164-188 | an update that gives up has written nothing, and somebody else has written during every attempt; one that returns has written once, last, applied to the value it replaced |
| `RuleRefresh.ReadYourWrites` | src/abuse/abuse-score.service.ts:175-236 | in every interleaving of local changes, remote changes and refreshes, timed-out ones included, the effective rules are never older than a local change that has returned |
| `RuleRefresh.GoesBackIff` | src/abuse/abuse-score.service.ts:175-236 | in every run, the effective rules go back to an older commit exactly when a local change resumes after a refresh has shown a later one |
| `RuleRefresh.RefreshShows` | src/abuse/abuse-score.service.ts:209-236 | a refresh that nothing interrupts shows the newest commit, whoever made it |
| `RuleRefresh.OvertakenRefreshIgnored` | src/abuse/abuse-score.service.ts:218-233 | a refresh that a local change overtakes, or that fails, leaves the effective rules alone |
| `RuleRefresh.RemoteChangeMayFlicker` | src/abuse/abuse-score.service.ts:175-236 | the run in which a remote weight is shown and then replaced by an earlier local one |
| `RuleRefresh.AbuseScoreService.ChangeCommitted` | src/abuse/abuse-score.service.ts:186-187 | a finished local change advances the generation and is applied |
| `RuleRefresh.AbuseScoreService.RefreshRules` | src/abuse/abuse-score.service.ts:209-217 | at most one refresh runs, remembering the generation it began in |
| `RuleRefresh.AbuseScoreService.RefreshLoaded` | src/abuse/abuse-score.service.ts:218-233 | a loaded value is applied only if no local change finished since |
| `Flags.DryRunOffNeedsTwoAdmins` | src/flags/feature-flag.service.ts:160-241 | in production, in every interleaving of updates, concurrent approvals, landings and reloads, a dry-run evaluation that says false goes back to a request that two different admins agreed on |
| `Flags.RequestsApplyOnce` | src/flags/feature-flag.service.ts:180-203 | the same of every row ever stored, and no request is applied twice |
| `Flags.UpdateEffect` | src/flags/feature-flag.service.ts:160-177 | an update while nothing is frozen is stored at once, unless it may turn dry-run off in production: then it is a request and nothing stored has changed |
| `Flags.ApprovalEffect` | src/flags/feature-flag.service.ts:180-241 | another admin's approval of a pending request stores what was proposed with both names; nobody else's does anything |
| `Flags.StoredIsServed` | src/flags/feature-flag.service.ts:124-140 | a stored row is served once it has landed, and by every replica that reloads |
| `Flags.InvariantHolds` | src/flags/feature-flag.service.ts:124-241 | every stored, cached and reloaded row has the standing its key demands |
| `Flags.EvaluatesToPossible` | src/flags/flag-evaluator.ts:18-40 | every evaluation, in any context, is among the possible values |
| `Flags.OccursIff` | src/flags/flag-evaluator.ts:18-40 | exactly the values some context gets: the default if no rule is unconditional, and that of each rule one of whose narrowest targets is matched by no earlier rule |
| `Flags.FirstMatchIff` | src/flags/flag-evaluator.ts:18-35 | a rule is the first match of some context exactly under that condition, which empty lists and a percentage of zero never meet |
| `Flags.DefaultReachedIff` | src/flags/flag-evaluator.ts:30-32 | some context falls through to the default if and only if no rule is unconditional |
| `Flags.PossibleNeedNotOccur` | src/flags/flag-evaluator.ts:38-40 | a possible value that no context evaluates to |
| `Flags.FeatureFlagService.UpdateFlag` | src/flags/feature-flag.service.ts:160-177 | files a request where two approvals are needed, otherwise writes |
| `Flags.FeatureFlagService.BeginApprove` | src/flags/feature-flag.service.ts:180-187 | refuses unknown, applied, frozen and self-approved requests |
| `Flags.FeatureFlagService.FinishApprove` | src/flags/feature-flag.service.ts:193-241 | claims a pending request and writes its row, or changes nothing |
| `Fees.ReduceIsLastMaximal` | src/fees/fee-engine.ts:129-137 | the reduction returns the last of the matching rules of highest precedence |
| `Fees.SelectionOrderFree` | src/fees/fee-engine.ts:115-137 | the choice does not depend on list order when matching rules differ in scope or version |
| `Fees.TierBps` | src/fees/fee-engine.ts:139-150 | the loop returns the rate of the last applicable tier with the highest threshold, the rule's own rate if none applies, an error if a threshold is malformed |
| `Fees.TierAtIsTier` | src/fees/fee-engine.ts:139-150 | that tier, characterised by its threshold and position |
| `Fees.TierOrderFree` | src/fees/fee-engine.ts:139-150 | the tier does not depend on list order when thresholds differ |
| `Fees.TierRateOrderFree` | src/fees/fee-engine.ts:139-150 | nor does the rate or the error |
| `Fees.CeilIsLeastCover` | src/fees/fee-engine.ts:82-92 | the rounded-up fee is the least whole number covering the exact one |
| `Fees.CeilDivIs` | src/fees/fee-engine.ts:82-86 | the least number of parts of a positive size that covers a positive amount, none for others; an error exactly without a positive size |
| `Fees.PartsCost` | src/fees/fee-engine.ts:82-92 | n rounded-up parts cost between the whole and the whole plus n-1 |
| `Fees.PartialFillsCost` | src/fees/fee-engine.ts:166-195 | quoting an amount in n fills, under a rule without tiers or caps, costs between the whole fee and that fee plus n-1 |
| `Fees.DefaultFeeVersusProtocolFee` | src/common/amount.ts:130-132 | the default fee exceeds the truncated protocol fee by one, or by nothing exactly when 2000 divides the amount |
| `Fees.QuoteConserves` | src/fees/fee-engine.ts:152-195 | treasury and integrator shares are non-negative and add up to the fee, the fee respects both caps, and without an integrator there is no share |
| `Fees.QuoteIsPriced` | src/fees/fee-engine.ts:166-195 | a quote is that of the rule in charge: the rate of the tier at its volume, that share of the amount rounded up, raised to the floor and cut to the ceiling, and the first matching referral's share of it rounded down |
| `Fees.QuotedIff` | src/fees/fee-engine.ts:88-160 | a quote is refused exactly when an amount is malformed, a rate or share out of range, or the floor above the ceiling |
| `Fees.SelectedIsInCharge` | src/fees/fee-engine.ts:109-137 | the rule in charge: a matching pair rule before a chain rule before a default one, then the highest version, then the last; the built-in rule if none matches |
| `FeeLedger.PostingsAccepted` | src/fees/fee-ledger.ts:40-82 | a quote's batch is refused exactly when the credited shares do not add up to a non-zero fee |
| `FeeLedger.PostingsMove` | src/fees/fee-ledger.ts:40-82 | an accepted batch is balanced and moves the fee once from the user to treasury and integrator |
| `FeeLedger.PostedEntries` | src/fees/fee-ledger.ts:40-82 | who is charged and credited: the user, the treasury and the quote's integrator, for this fill, rule and time |
| `FeeLedger.RecentFees` | src/fees/fee-ledger.ts:105-126 | a fill at or after the start of the window counts its fee once, an earlier one nothing |
| `FeeLedger.QuotedFillAccepted` | src/fees/fee-ledger.ts:66-82 | a quote the engine made is refused exactly when an integrator with an empty id is due a share |
| `FeeLedger.EmptyIntegratorIdRefused` | src/fees/fee-ledger.ts:66-82 | such a quote |
| `FeeLedger.MemoryFeeLedger.Append` | src/fees/fee-ledger.ts:95-99 | a balanced batch is appended, an unbalanced one changes nothing |
| `FeeLedger.MemoryFeeLedger.GetTotals` | src/fees/fee-ledger.ts:105-126 | a balanced ledger always has totals; total fees are the sum of the user debits |
| `FeeLedger.PostingHolds` | src/fees/fees.service.ts:26-29 | posting keeps the ledger balanced and equal to the fees posted |
| `FeeLedger.FeesService.Post` | src/fees/fees.service.ts:26-29 | over any run: debits equal credits equal the fees of all posted quotes; a refused post changes nothing |
| `FeeLedger.FeesService.RecordFill` | src/fees/fees.service.ts:36-40 | posts exactly the quote of the fill, and fails exactly when quoting fails or the integrator id is empty |
| `Dutch.PriceMonotoneIff` | src/auctions/dutch.ts:10-20 | the price never rises over time if and only if the auction starts at or above its floor |
| `Dutch.PriceFalls` | src/auctions/dutch.ts:10-20 | later is never dearer, across the whole decay and both ends |
| `Dutch.PriceWithin` | src/auctions/dutch.ts:10-20 | the price stays between floor and start |
| `Dutch.PriceOnLine` | src/auctions/dutch.ts:16-19 | inside the decay the divisor is positive and the price is on the exact line or less than one unit above it |
| `Dutch.PriceOnRisingLine` | src/auctions/dutch.ts:16-19 | with a start below the floor the price lies on or less than one unit below the line |
| `Dutch.PriceEnds` | src/auctions/dutch.ts:16-19 | the start price until the decay begins, the floor once it is over |
| `Ticker.HistoryIsSuffix` | src/auctions/auction-ticker.service.ts:38-45 | over any run the stored history of each intent is the last `cap` ticks ever published for it |
| `Ticker.TicksFollowPrice` | src/auctions/auction-ticker.service.ts:48-71 | with a clock that does not go back and fixed terms, the log never rises, and strictly falls if and only if the price differs between any two consecutive listings of the intent that have a completed firing without it in between |
| `Ticker.OpenHistoryFalls` | src/auctions/auction-ticker.service.ts:48-71 | an intent that is listed by every completed firing once it was listed has a strictly falling, capped history, the end of its log |
| `Ticker.ReopenedRepeats` | src/auctions/auction-ticker.service.ts:66-71 | the run in which a reopened intent is recorded twice at one price |
| `Ticker.AuctionTickerService.PublishPriceTicks` | src/auctions/auction-ticker.service.ts:48-77 | one firing, which may fail at any broadcast and does nothing while another is publishing |
| `Ticker.AuctionTickerService.AppendPriceTick` | src/auctions/auction-ticker.service.ts:38-45 | appends and drops the oldest ticks beyond the cap |
| `Ticker.AuctionTickerService.ForgetInactive` | src/auctions/auction-ticker.service.ts:68-70 | forgets the last price of exactly the unlisted intents |
| `Health.FlipsIff` | src/health/health-indicator.registry.ts:173-185 | after the first evaluation, readiness falls exactly at the end of F failing evaluations and rises exactly at the end of S passing ones |
| `Health.FlipsApart` | src/health/health-indicator.registry.ts:173-185 | a fall comes at least F evaluations after any earlier flip, a rise at least S |
| `Health.ReadinessFollowsVerdicts` | src/health/health-indicator.registry.ts:131-185 | in any interleaving of settling checks and overlapping evaluations, readiness depends on the verdicts alone |
| `Health.VerdictIs` | src/health/health-indicator.registry.ts:150-180 | an evaluation passes if and only if no critical indicator's newest result is down |
| `Health.RowsStamped` | src/health/health-indicator.registry.ts:157-195 | each row carries the time of the step that made it and what that step left behind |
| `Health.TimelineIsFlips` | src/health/health-indicator.registry.ts:150-166 | the log holds exactly the flips of what was observed of each indicator, ending at its cached status |
| `Health.ReadinessRowsIff` | src/health/health-indicator.registry.ts:150-195 | the rows called readiness are exactly the flips of readiness if and only if no indicator of that name was seen to flip, and they chain if and only if at most one of the two flipped |
| `Health.ReadinessNameClash` | src/health/health-indicator.registry.ts:150-195 | a run in which both flip and the rows do not chain |
| `Health.BufferIsSuffix` | src/health/health-indicator.registry.ts:212-216 | the ring buffer holds the last `capacity` rows of the log, and nothing else depends on the capacity |
| `Health.ServedTimelineChains` | src/health/health-indicator.registry.ts:202-216 | in the buffer each indicator's rows chain and end at the cached status |
| `Health.HealthIndicatorRegistry.SettleCheck` | src/health/health-indicator.registry.ts:150-166 | caches a result and records a flip, never the first observation |
| `Health.HealthIndicatorRegistry.FinishEvaluation` | src/health/health-indicator.registry.ts:172-195 | updates streaks, readiness and its row |
| `Health.HealthIndicatorRegistry.RecordTransition` | src/health/health-indicator.registry.ts:212-216 | appends and drops the oldest rows beyond the capacity |
| `Analytics.SeriesConserves` | src/analytics/analytics.store.ts:147-175 | the points are in time order, one per bucket, are the running totals per bucket and add up to the matching total |
| `Analytics.SeriesSums` | src/analytics/analytics.store.ts:147-175 | summed over any classes of bucket starts, the points are the plain sums of the matching events |
| `Analytics.FinerSumsToCoarser` | src/analytics/analytics.store.ts:110-112 | minute points add up to the hour's point and hourly points to the day's, both to the plain sum |
| `Analytics.GroupedSums` | src/analytics/analytics.store.ts:267-288 | the rows returned for a bucket, summed over any classes of dimension values, are the plain sums of its events |
| `Analytics.GroupedOrdered` | src/analytics/analytics.store.ts:62-72 | they are ordered by bucket, then by each dimension as the locale compares strings |
| `Analytics.GroupedSumsToSeries` | src/analytics/analytics.store.ts:267-288 | summed over all dimensions they give the ungrouped point of the bucket |
| `Analytics.UngroupedIsSeries` | src/analytics/analytics.store.ts:267-288 | without dimensions the grouped query returns the rows of the ungrouped one, in the same order |
| `AnalyticsRows.GroupedByDimension` | src/analytics/analytics.store.ts:50-59 | the rows with some value in a requested dimension hold exactly the amount of the events with that value |
| `AnalyticsRows.DimensionsUsed` | src/analytics/analytics.store.ts:267-288 | the dimensions used are those requested, each once, in canonical order |
| `Analytics.SolverSharesAddUp` | src/analytics/analytics.store.ts:189-209 | in every bucket with volume, the shares of the k rows returned for it add up, in millionths, to more than a million minus k and at most a million |
| `Analytics.SolverSharesOrdered` | src/analytics/analytics.store.ts:208 | the rows are ordered by bucket, then by share, largest first |
| `AnalyticsRows.ShareRowIs` | src/analytics/analytics.store.ts:189-209 | a returned row is about one solver with events in one bucket: its volume is theirs, and its share that of the bucket's volume, rounded down |
| `AnalyticsRows.ShareRowExists` | src/analytics/analytics.store.ts:189-209 | every matching event has the row of its solver and bucket |
| `Analytics.TallySums` | src/analytics/analytics.store.ts:189-209 | totals accumulated per key, summed over any classes of keys, are plain sums |
| `Analytics.BucketHolds` | src/analytics/analytics.store.ts:110-112 | a bucket start is the multiple of the interval at or before the time, negative times included |
| `Analytics.BucketsNest` | src/analytics/analytics.store.ts:615-624 | minutes nest in hours and hours in days |
| `AnalyticsRows.WindowsAddUp` | src/analytics/analytics.store.ts:114-122 | adjacent stretches of time neither share nor miss an event |
| `AnalyticsRows.FiltersNarrow` | src/analytics/analytics.store.ts:114-122 | each filter that is given narrows a query by itself |
| `Analytics.IngestHolds` | src/analytics/analytics.store.ts:132-141 | stored events stay first and unchanged, each new id enters once, no other id enters |
| `Analytics.IngestIdempotent` | src/analytics/analytics.store.ts:132-141 | delivering stored events again, in any order and number, changes nothing |
| `Analytics.InMemoryAnalyticsStore.Ingest` | src/analytics/analytics.store.ts:132-141 | the loop, with the number newly stored |
| `Analytics.InMemoryAnalyticsStore.BucketEvents` | src/analytics/analytics.store.ts:143-157 | collects the matching events per bucket in insertion order |
| `Analytics.BucketsCollected` | src/analytics/analytics.store.ts:147-157 | each bucket start occurs once, with exactly its events in order |
| `Analytics.InMemoryAnalyticsStore.QueryMetric` | src/analytics/analytics.store.ts:159-175 | `queryVolume` and `queryFees` |
| `Analytics.InMemoryAnalyticsStore.QuerySolverShare` | src/analytics/analytics.store.ts:189-209 | one share row per solver and bucket, sorted |
| `Analytics.InMemoryAnalyticsStore.QueryGrouped` | src/analytics/analytics.store.ts:267-288 | one row per bucket and combination of dimension values, sorted |
| `ChainPairs.LabelsIff` | src/analytics/analytics.store.ts:290-309 | the labels split out of a row's key are those of its events if and only if no separator starts in the source chain, its last character included, and none lies in the destination chain |
| `ChainPairs.ChainPairSums` | src/analytics/analytics.store.ts:290-317 | while chain names are separable, the rows returned for a bucket and a pair of chains hold exactly the volume of its events |
| `ChainPairs.ChainPairsExactIff` | src/analytics/analytics.store.ts:290-317 | with positive volumes, the query reports every bucket and pair of chains exactly if and only if the chain names of the matching events are separable |
| `ChainPairs.RowLabels` | src/analytics/analytics.store.ts:297-302 | the labels split out of any key are separable themselves |
| `ChainPairs.ChainRowsOrdered` | src/analytics/analytics.store.ts:311-317 | the rows come bucket by bucket, then by both chains |
| `ChainPairs.TrailingColonMoves` | src/analytics/analytics.store.ts:297-302 | two pairs of chains that share a key |
| `ChainPairs.QueryChainPair` | src/analytics/analytics.store.ts:290-317 | both loops and the sort |
| `TokenPairs.KeySharedIff` | src/analytics/analytics.store.ts:214-218 | some other pair has a pair's key if and only if one of its symbols contains a colon |
| `TokenPairs.PairsExactIff` | src/analytics/analytics.store.ts:211-224 | with positive volumes, the rows of a bucket report every pair exactly if and only if no two of its pairs share a key |
| `TokenPairs.TokenPairSums` | src/analytics/analytics.store.ts:211-240 | while no bucket of matching events has pairs that share a key, as when no symbol holds a colon, the rows returned for a bucket and a pair hold exactly the volume and fees of its events |
| `TokenPairs.TokenPairsExactIff` | src/analytics/analytics.store.ts:211-240 | with positive volumes, the query reports every bucket and pair exactly if and only if no bucket of matching events has pairs that share a key |
| `TokenPairs.TokenRowsOrdered` | src/analytics/analytics.store.ts:234-240 | the rows come bucket by bucket, the larger volume first, equal ones in the order of their pairs |
| `TokenPairs.ColonMergesPairs` | src/analytics/analytics.store.ts:214-222 | two pairs that end up in one row |
| `TokenPairs.QueryTokenPair` | src/analytics/analytics.store.ts:211-240 | the loops and the sort |
| `Csv.RoundTripIff` | src/datasets/csv-exporter.ts:12-36 | a strict parser for section 2 of RFC 4180 with LF line ends recovers the header and every cell if and only if there is a column and every column name is plain |
| `Csv.LinesParse` | src/datasets/csv-exporter.ts:12-36 | escaped rows of any cell strings parse back to themselves: rows and columns never merge or split |
| `Csv.ParseLength` | src/datasets/csv-exporter.ts:12-17 | no text of a grid is shorter than its escaped lines, but for the last line end |
| `Csv.FieldParses` | src/datasets/csv-exporter.ts:12-17 | an escaped field parses back to its value |
| `Csv.CellPrints` | src/datasets/csv-exporter.ts:19-23 | nothing for null, the words for a boolean, a text as it stands |
| `Csv.GridCell` | src/datasets/csv-exporter.ts:30-33 | each cell holds what its record has under its column, nothing if it has nothing |
| `Csv.CommaInHeader` | src/datasets/csv-exporter.ts:26-28 | a comma in a column name splits the header |
| `Csv.ToCsv` | src/datasets/csv-exporter.ts:25-36 | the loop over records, with missing fields empty, and the round trip of what it returns |

## Left out

- Intent lifecycle and repositories: only their documentation is visible, so nothing is modelled on it.
- `RedisCacheStore`: its writes are several commands, so coherence is stated for the memory store; pub/sub is a delivered message.
- Read cache: a failed deletion in the store, shutdown, request counters and TTL jitter are not modelled; the TTL is a parameter, and loaders do not call `invalidate` synchronously.
- ReadCacheProtocol.OneLoadOneOutcome: a store hit returns the JSON round trip of the loaded value, so values are taken to be JSON-stable; a loader that returns dates, `undefined` or the like gives its later readers another value than its first ones.
- Canary registry, Timescale store and raw SQL: their semantics lie outside the code.
- Guardian event decoding beyond the shape of a target, `parseEventIndex` (an event's index is a field) and the cursor of `poll`.
- GuardianRestart.RestartConvergesIff: histories without overrides and with every table write done; failed writes are only logged by the code. The window is any suffix of the chain, of which the look-back of 17280 ledgers is one.
- Archival: intent ids are positive integers in the order of the ids, the exported columns are one text beside the two that are selected on, a date is the number of its UTC day, JSON is canonical text, the size check is subsumed by an injective digest, Parquet gives the exported columns back exactly, the tables do not change during a run, and the retention age described in a comment is not in the query. A time kept both as a number and as a timestamp is exported once; its twin is one of the unexported columns.
- Restore.RestoresExactlyIff: the SQL of a restore is taken to succeed; `user` is an unquoted column name in its CREATE TABLE and INSERT (src/archival/archival.service.ts:437, 523) and a reserved word in Postgres.
- Audit partitions: attached partitions have their own names, as the SQL function that creates them gives, row ids are positive, a month is a number of months, a corrupted upload is never a readable manifest or part, and detached tables are visited in any order.
- Abuse rules: numbers are reals, scoring, Redis windows and alerts are not modelled; the in-memory store's queue is the special case of one instance; an update whose EXEC throws, so that its outcome is unknown, is not modelled.
- RuleRefresh.ReadYourWrites: local changes resume in the order of their commits, at most one between commit and resumption, which is what the store's queue gives.
- Feature flags: bucketing is an arbitrary function, onto the hundred buckets where occurrence is decided, the landing of a write in the local copy and reloads are steps of the state machine and not methods of the class, and override parsing is not modelled.
- Fees: amounts are integers with negative ones standing for malformed strings, basis points are whole, and JSON configuration is not parsed.
- Ticker.AuctionTickerService.PublishPriceTicks: the list of open intents is a parameter; ISO times and price strings are integers.
- Health: details, durations, startup and liveness probes, the durable store and the `since` filter are not modelled; a fractional capacity is not.
- Analytics: latency, per-solver means, percentiles and slippage are floating point; a locale is any order of strings, and bucket starts are compared as numbers, as their ISO forms are for years of four digits; shares are millionths before their division into a float, and volumes are non-negative there.
- Csv: UTF-8 encoding and number formatting are not modelled.
- `applyVarianceScale` and other small amount helpers would only add easy members.
- Floating-point paths, signatures, hashing, controllers, metrics, logging and configuration.

# Verification of the indexing and accounting core

This project models the stateful core of the dashboard's backend in Dafny and proves
what it is meant to guarantee. `dafny verify dfyconfig.toml` checks all of it.

- **Replay.** Some twenty materializers copy or fold an event log, ordered by block and
  log index, into tables. Each has a persisted cursor, reads bounded batches merged from
  several sources, may fail at any row and be retried, and may be rewound
  (`EventLog`, `Replay`). On top of it: insert-once copies and their recovery after a
  reorg (`EventCopy`), the reconciled table of canonical updates (`CanonicalUpdates`),
  the FIFO validator queue (`ValidatorQueue`), what it becomes under redelivery and after
  a reorg (`QueueMerge`, `QueueRecovery`), provider state (`ProviderState`), the
  attesters of providers (`ProviderAttesters`), and tables derived from tables that are
  still being filled (`DerivedTables`, `ProviderList`, `DerivedRuns`).
- **Reorgs.** The detector with its hash cache and checkpoint (`ReorgDetector`), which
  mismatch it reports (`HashCompare`), its walk back to the fork (`ReorgWalk`), and
  detector and materializer together as the main loop runs them (`ReorgRecovery`).
- **Implied migrations.** The pairs of validator and rollup that deposits and
  canonical-rollup updates imply (`ValidatorRollup`, and over whole runs
  `MigrationClosure`).
- **Epochs.** The integrity score (`EpochIntegrity`), aggregation on two levels
  (`EpochAccounting`), and the score that freezes an epoch (`EpochFreeze`).
- **Web application.** The rate limiter (`RateLimiter`), rollup versions and the block
  filter (`RollupRegistry`), and the printers and parsers of two configuration lists
  (`Text`, `RollupConfig`).

Where the source updates fields or tables in place the model is a class whose methods
are proved against functions on values; what the source promises is then proved about
those functions, over single steps, whole runs and all reachable states. Row ids,
addresses and hashes are natural numbers, because only their equality matters; tables
are maps, and sequences where their order or a query's row order counts. Clocks, random
draws, the rows found by a query and the row at which a handler throws are parameters.
A list that a query returns ordered only by key, such as the rows of one provider event,
is taken in the order in which they are stored.

## Where code and documentation differ

- `base.ts:73-74` calls every write an idempotent upsert. Queue removal is not: replay from
  every position is harmless exactly when no remove finds two adds of its pair outstanding,
  and delivery of the whole log more than once exactly when no pair's last remove does.
- `ReorgDetector.ts:103-125` takes a reset to be a recovery. For the queue it is one exactly
  under a condition on every pair: removes of the old chain past the reset block stay done,
  and removes of the reset block itself are done again.
- `ReorgDetector.ts:147` promises the earliest mismatch. It is the earliest exactly when that
  one lies in the first chunk of 10000 rows, in the order in which the log returned them,
  that has any.
- `base.ts:76-82` moves the cursor to (block, 0) even if it lagged behind; rows in between
  are lost to event copies that are not reconciled.
- `ReorgDetector.ts:77-78` promises to catch blocks that are cached and indexed anew. It
  does while walking back. Otherwise only blocks above the checkpoint are compared, of which
  none is cached: a reorg after which Ponder has grown back by the next check is not seen,
  and rows of the old chain stay.
- `ReorgDetector.ts:114-121` deletes cached hashes before it moves the checkpoint; stopping
  in between ends a walk back early.
- `validator-rollup.ts:101-109` calls re-running the sync safe. A sync completes the set of
  pairs exactly when each missing pair still has a deposit row to carry it; withdrawals
  before the sync and resets below a shared row can take that row away.
- `EpochService.ts:46-71` freezes by the epoch the save names, not by the epoch of the row;
  the two differ once the fallback of 32 slots per epoch (`RollupConfigService.ts:54-58`)
  has been in use.
- `middleware.ts:45-50` describes the limit for validator operations as 30 requests; the
  code says 90.
- A committee of 48, the default stored by `EpochIntegrityStatsService.ts:215`, is large
  enough for one empty validator to be rounded away.
- `PREVIOUS_ROLLUPS` cannot carry a start block of zero, and labels keep leading spaces.

## Model

| member | source | states |
|---|---|---|
| EventLog.BatchIsLogPrefix | packages/materializer/src/materializers/stake-history.ts:82-88 | Taking n rows after the cursor from each source, sorting the merge stably and cutting it to n gives the first n rows after the cursor of the stably sorted union, for all sources, cursors and n, also when rows share a key |
| EventLog.SortSorted | packages/materializer/src/materializers/stake-history.ts:82-86 | Sorting by block, then log index, gives a strictly increasing log with the same rows |
| Replay.Materializer.constructor | packages/materializer/src/materializers/base.ts:23-30 | A materializer starts without a checkpoint, which stands for the cursor (0, 0), with batches of 10000 unless told otherwise |
| Replay.Materializer.Poll | packages/materializer/src/materializers/base.ts:32-56 | One poll, whether the handler fails at any row, the checkpoint cannot be written, or nothing fails: table, checkpoint, cursor of the last poll and row count afterwards; rows before a failure stay applied and the checkpoint stays |
| Replay.Materializer.ResetToBlock | packages/materializer/src/materializers/base.ts:70-82 | Reset deletes later rows unless told to keep them, and sets the cursor to (block, 0) unconditionally, forward or backward, with the count of what remains |
| Replay.Materializer.GetCursor | packages/materializer/src/materializers/base.ts:84-94 | A missing checkpoint reads as (0, 0); the row count is refreshed only when it is zero |
| Replay.PollReadsUnion | packages/materializer/src/materializers/base.ts:105-120 | Polling several source tables is polling their sorted union |
| Replay.PollAdvances | packages/materializer/src/materializers/base.ts:46-51 | A successful poll that finds rows moves the cursor strictly forward and leaves fewer rows ahead |
| Replay.DrainIsFold | packages/materializer/src/materializers/base.ts:32-56 | Polling until idle gives the fold of all rows after the cursor, the same for every batch size |
| Replay.CleanRunIsFold | packages/materializer/src/materializers/base.ts:32-56 | Polls of any sizes without failures apply the rows between the first cursor and the last, each once, in order |
| Replay.RunKeeps | packages/materializer/src/materializers/base.ts:32-82 | Any property of (table, position) that one row keeps and earlier positions inherit holds after every run of polls with any batch sizes, polls failing at any row and backward rewinds |
| Replay.PassesKeep | packages/materializer/src/materializers/base.ts:46-50 | The same for passes that stop at any row, even inside a group of rows with one key, and begin again at any earlier one |
| Replay.RunIsPasses | packages/materializer/src/materializers/base.ts:32-82 | Every run of polls, failing polls and backward rewinds is a chain of such passes, and the cursor never lies beyond the last one |
| EventCopy.NewDepositLifecycle | packages/materializer/src/materializers/deposit-lifecycle.ts:47-72 | The deposit-lifecycle materializer is the engine with insert-once copying, delete-after-block, the row count and batches of 10000, starting empty at (0, 0) |
| EventCopy.RunMaterializes | packages/materializer/src/materializers/base.ts:33-82 | On one chain, in any run: every row of the table is a log row past (0, 0), possibly one past the cursor after a failure or a rewind, and every log row between (0, 0) and the cursor is in the table |
| EventCopy.IdleIsExact | packages/materializer/src/materializers/base.ts:33-56 | An idle table is exactly the log's rows past (0, 0): none lost, none extra |
| EventCopy.CountIsExact | packages/materializer/src/materializers/deposit-lifecycle.ts:84-86 | The row count it then reports is the number of those rows |
| EventCopy.RecoveryExact | packages/materializer/src/materializers/base.ts:76-82 | After delete-after-block and cursor to (block, 0), any later run that becomes idle leaves exactly the new chain's rows past (0, 0) if and only if no row at or below (block, 0) was still unmaterialized at the reset |
| EventCopy.PendingIsLost | packages/materializer/src/materializers/base.ts:80 | A row that a lagging cursor had not reached when the reset moved it forward is never fetched again |
| EventCopy.CursorPastReset | packages/materializer/src/materializers/base.ts:76-82 | A cursor at or past the reset position has left nothing pending there |
| EventCopy.CatchUpExactIff | packages/materializer/src/materializers/base.ts:32-82 | From any table and cursor, any run that becomes idle leaves exactly the log's rows past (0, 0) if and only if every row was one of them at the start and none was missing behind the cursor |
| EventCopy.ReindexExact | packages/materializer/src/services/ReorgDetector.ts:54-68 | After a re-index that adds events and takes none away, with the cursor moved to (block, 0) and the rows kept, an idle table is exact if and only if nothing, the added events included, was pending at or below (block, 0) |
| CanonicalUpdates.CanonicalTable.OnIdle | packages/materializer/src/materializers/registry.ts:65-91 | At most once a minute the rows of the source missing in the table are materialized, and exactly if there are any the backfill and the status refresh follow, over the updates the table then holds |
| CanonicalUpdates.ReconcileExactIff | packages/materializer/src/materializers/registry.ts:57-91 | A reconcile makes the table an exact copy of the source if and only if the table held no foreign row: everything missing is restored, nothing is removed or corrected |
| CanonicalUpdates.ReconcileHeals | packages/materializer/src/materializers/registry.ts:57-98 | After a reset to any block the chains agree up to, and any run on the new chain, one reconcile leaves exactly the new chain's updates, also those the reset lost |
| CanonicalUpdates.FirstAndLast | packages/materializer/src/materializers/registry.ts:31-51 | A row delivered any number of times keeps the log index and transaction of its first delivery and has the block, instance, version and timestamp of its last |
| CanonicalUpdates.UpdatesAreRows | packages/materializer/src/services/validator-rollup-sync.ts:51-54 | The backfill reads the instance, block and transaction of exactly the stored rows |
| ReorgDetector.ReorgDetector.FindHashMismatch | packages/materializer/src/services/ReorgDetector.ts:147-173 | The mismatch found first: chunks of 10000 rows in the order the log returned them, lowest block within a chunk |
| ReorgDetector.FirstMismatch | packages/materializer/src/services/ReorgDetector.ts:147-173 | No mismatch is reported exactly when there is none, and a reported one is real; when it is the lowest is stated by the next row |
| HashCompare.EarliestIff | packages/materializer/src/services/ReorgDetector.ts:147-173 | For all rows in any order: the reported mismatch is the lowest if and only if the lowest one lies in the first chunk that has any |
| HashCompare.LaterMismatchReported | packages/materializer/src/services/ReorgDetector.ts:147-173 | A log of 10001 rows against which the check reports block 2 although block 1 differs too |
| HashCompare.RememberedIsReachable | packages/materializer/src/services/ReorgDetector.ts:41-125 | The detector reaches the memory of that example: it caches four blocks and then sees Ponder regress to the third |
| ReorgDetector.ReorgDetector.HandleReorg | packages/materializer/src/services/ReorgDetector.ts:100-125 | Every materializer is reset to ten blocks below the report; cached hashes from the report on are dropped; the checkpoint steps back with them |
| ReorgDetector.ReorgDetector.CheckAndReset | packages/materializer/src/services/ReorgDetector.ts:40-98 | One check of the protocol: memory, verdict and the state of every materializer afterwards |
| ReorgDetector.CheckKeeps | packages/materializer/src/services/ReorgDetector.ts:41-125 | One check keeps the cache window; a reported reorg strictly lowers the checkpoint; a hash mismatch strictly shrinks the cache; a regression beyond the depth empties it |
| ReorgDetector.ReachableWindowed | packages/materializer/src/services/ReorgDetector.ts:41-125 | In every reachable state, whatever the log did between checks, each cached block b has checkpoint - 200 <= b < checkpoint + 10 |
| ReorgDetector.GoesQuiet | packages/materializer/src/services/ReorgDetector.ts:41-125 | With Ponder frozen, checks are quiet for good after at most |cache| + 2 of them |
| ReorgDetector.SeenIff | packages/materializer/src/services/ReorgDetector.ts:44-84 | Outside a walk back a check reports a reorg if and only if Ponder's highest block is below the checkpoint; a quiet check leads to such a state again |
| ReorgDetector.UnseenIff | packages/materializer/src/services/ReorgDetector.ts:44-84 | From such a state no reorg is reported in any sequence of checks if and only if no log is lower than the one before; changed hashes do not count |
| ReorgWalk.QuietRemembers | packages/materializer/src/services/ReorgDetector.ts:82-98 | A quiet check that finds new blocks remembers, of the last two hundred blocks below the top, exactly those cached before, with their older hash, and those logged above the checkpoint, with Ponder's, at any height |
| ReorgWalk.FilledByRuns | packages/materializer/src/services/ReorgDetector.ts:74-98 | While Ponder follows one chain and never falls back, whatever the heights of its logs, the cache holds the checkpoint and the two hundred blocks below it, or all there are, with the chain's hashes |
| ReorgWalk.RegressedIsReached | packages/materializer/src/services/ReorgDetector.ts:41-98 | So the start of the walk back, a regression met with a dense cache and log, is reached after every such run from the beginning, when Ponder comes back on another chain lower by at most two hundred blocks and the fork is cached |
| ReorgWalk.WalkBackLandsOnFork | packages/materializer/src/services/ReorgDetector.ts:41-125 | After a regression of at most 200 blocks with a dense cache and log and the fork cached, the reports are the top, then nine blocks further down each time, and last the fork; the last reset goes at least ten blocks below it; the next check is quiet and every cached hash is Ponder's |
| ReorgWalk.WalkDownShape | packages/materializer/src/services/ReorgDetector.ts:70-80 | How many reports the walk takes and which block each one names |
| ReorgWalk.InterruptedRegression | packages/materializer/src/services/ReorgDetector.ts:114-121 | If the reset of a regression stops after cached hashes are deleted and before the checkpoint moves, the next check reports it again, with the same outcome |
| ReorgWalk.InterruptedWalk | packages/materializer/src/services/ReorgDetector.ts:114-121 | If a later reset of the walk back stops there, the walk is over: the next check is quiet, and the cache is Ponder's if and only if that reset was the last one |
| ReorgRecovery.RecoveryEndToEnd | packages/materializer/src/index.ts:79-101 | Main-loop rounds of check, reset and poll, with any batch sizes and failures, from the regression to the idle table: it is exactly the new chain's rows if and only if nothing was pending at or below the last reset's block |
| ReorgRecovery.RegressionRows | packages/materializer/src/services/ReorgDetector.ts:44-68 | A regression of more than two hundred blocks keeps every row, any other keeps exactly the rows of blocks up to ten below Ponder's top; the cursor goes there in both cases |
| ReorgRecovery.UnseenReorg | packages/materializer/src/services/ReorgDetector.ts:74-84 | When Ponder has grown back to the checkpoint by the next check, an idle table ends exact if and only if it held no row of the old chain only and none of the new chain's events lies behind the cursor without its row |
| ReorgRecovery.OrphanStays | packages/materializer/src/services/ReorgDetector.ts:74-84 | A row of the old chain then stays through all rounds |
| ReorgRecovery.InterruptedRecovery | packages/materializer/src/services/ReorgDetector.ts:109-121 | After a later reset of the walk back that stops before the checkpoint moves, an idle table ends exact if and only if, up to that reset's block, it held no row of the old chain only and nothing was pending |
| ReorgRecovery.InterruptedNearFork | packages/materializer/src/services/ReorgDetector.ts:109-121 | If that reset reported a block at most nine above the fork, the first half holds of itself and only pending rows matter |
| ValidatorQueue.QueueTable.AddToQueue | packages/materializer/src/materializers/validator-queue.ts:81-109 | An add is upserted under its transaction and log index |
| ValidatorQueue.QueueTable.RemoveFromQueue | packages/materializer/src/materializers/validator-queue.ts:111-125 | A remove takes the pair's entry with the earliest queued_at, and does nothing when there is none |
| ValidatorQueue.QueueTable.MaterializeBatch | packages/materializer/src/materializers/validator-queue.ts:71-79 | A batch is the fold of its rows in order |
| ValidatorQueue.QueueTable.DeleteAfterBlock | packages/materializer/src/materializers/validator-queue.ts:147-150 | Entries of later blocks are deleted, all others stay |
| ValidatorQueue.ClosedForm | packages/materializer/src/materializers/validator-queue.ts:71-125 | Replaying each event once leaves, for each pair, exactly its most recent n adds, n being the largest excess of adds over removes of any suffix of the log |
| ValidatorQueue.MaxExcessIsLargest | packages/materializer/src/materializers/validator-queue.ts:111-125 | n is attained by some suffix and exceeded by none, the empty suffix included |
| ValidatorQueue.EntryIsItsAdd | packages/materializer/src/materializers/validator-queue.ts:81-109 | Every entry of a replayed queue shows the pair, rollup, time and block of the add with its id |
| ValidatorQueue.QueueConverges | packages/materializer/src/materializers/base.ts:46-50 | If no remove finds two adds of its pair outstanding, every at-least-once run that passes the whole log ends in the exactly-once queue; QueueRecovery.DeliveryIff has the exact condition |
| ValidatorQueue.HarmlessIffUncontested | packages/materializer/src/materializers/validator-queue.ts:111-125 | Replay from every position over the applied state is harmless if and only if no remove ever finds two adds of its pair outstanding |
| ValidatorQueue.NewValidatorQueue | packages/materializer/src/materializers/validator-queue.ts:13-16 | The queue materializer is the engine with this handler, this deletion, the row count and batches of 10000, starting empty at (0, 0) |
| QueueMerge.BehindFold | packages/materializer/src/materializers/validator-queue.ts:71-125 | Rows act on the entries they do not add again as if the queue held no others: whatever else is there does not change which of them are left |
| QueueMerge.CountLeft | packages/materializer/src/materializers/validator-queue.ts:71-125 | How many of a pair's entries rows leave of any queue: the larger of what was there plus their excess of adds, and their largest excess over a suffix |
| QueueMerge.SurvivesIff | packages/materializer/src/materializers/validator-queue.ts:111-125 | An entry is left by later rows if and only if at least as many of its pair are older as the rows remove |
| QueueMerge.EndSameIff | packages/materializer/src/materializers/validator-queue.ts:71-125 | Two queues end the same under the same rows if and only if, for every pair, the rows empty it from both, or as many entries wait in both and those the removes do not reach are the same |
| QueueRecovery.RecoveryIff | packages/materializer/src/materializers/base.ts:76-82 | After a reset of any queue of the old chain, failure-free polls that become idle leave the new chain's queue if and only if every pair of the kept entries merges with the queue at the reset position |
| QueueRecovery.EveryRunExactIff | packages/materializer/src/materializers/base.ts:32-82 | From any cursor and queue, every run with failures and rewinds that becomes idle ends in the log's queue if and only if for every pair the last remove finds at most one entry, from the kept entries and from the true ones, and a pair without removes has the same entries in both |
| QueueRecovery.RecoveryUnderFailuresIff | packages/materializer/src/materializers/base.ts:76-82 | The same condition decides whether every run after a reset of any queue of the old chain is exact |
| QueueRecovery.DeliveryIff | packages/materializer/src/materializers/base.ts:46-50 | From the empty queue every at-least-once run that passes the whole log is exact if and only if every pair's last remove finds at most one entry |
| QueueRecovery.OrphanRemoveTakesAdd | packages/materializer/src/materializers/validator-queue.ts:147-150 | A reset after which an add at or below its block is missing for good, because a remove of the old chain past the block had taken it |
| QueueRecovery.ResetReplaysRemove | packages/materializer/src/materializers/base.ts:80 | A reset on one and the same chain after which a remove of the reset block, replayed over a kept add, takes that add |
| ProviderState.ProviderTable.HandleRegistered | packages/materializer/src/materializers/provider.ts:160-184 | Registration creates the provider, or updates it leaving the rewards recipient alone |
| ProviderState.ProviderTable.HandleRecipientUpdated | packages/materializer/src/materializers/provider.ts:203-218 | A recipient update of an unknown provider is dropped |
| ProviderState.ProviderTable.MaterializeBatch | packages/materializer/src/materializers/provider.ts:140-157 | A batch is the fold of its rows in order |
| ProviderState.ProvidersConverge | packages/materializer/src/materializers/provider.ts:140-245 | After any run of polls, failing polls and rewinds that keep rows, an idle table is the single-pass fold, field by field, although rows are never deleted |
| ProviderState.HarmlessIffSettled | packages/materializer/src/materializers/provider.ts:159-218 | Replay is harmless if and only if no provider's last recipient update precedes its registration and names another recipient than the registration does |
| ProviderState.LastWritersDecide | packages/materializer/src/materializers/provider.ts:159-238 | Each column of the single pass is that of the last event that carries it: rollup and timestamp from registrations, take rate and admin from registrations and their updates, the recipient from its updates, block, log index and transaction from any event |
| ProviderState.RegisteredRecipient | packages/materializer/src/materializers/provider.ts:160-184 | Without a later update the recipient is the one the first registration names, or else its admin |
| ProviderState.NewProviderMaterializer | packages/materializer/src/materializers/provider.ts:241-249 | The provider materializer is the engine with this handler, a reset that leaves the table as it is, a count of the providers whose rollup is the configured one, and batches of 10000 |
| ProviderState.ProvidersCatchUpIff | packages/materializer/src/materializers/provider.ts:241-245 | After a reset, which deletes no provider, catching up gives the single pass over a settled new chain if and only if no provider of the old chain is unknown to the new one, those registered earlier are there, and every field that no later row sets is final |
| ProviderAttesters.AttesterTable.MaterializeBatch | packages/materializer/src/materializers/provider.ts:277-314 | Every event becomes one upserted row per attester; an event whose list does not parse is skipped |
| ProviderAttesters.AttestersConverge | packages/materializer/src/materializers/provider.ts:277-314 | For a log of events with their lists: passes that stop between any two attesters and restart anywhere earlier end with a row exactly for each attester that an event lists, under that event's transaction, log index and provider and with its block |
| ProviderAttesters.AttestersCatchUpIff | packages/materializer/src/materializers/provider.ts:277-314 | From any table, such passes end so if and only if every stored row that no later row writes is already as the log says |
| ProviderAttesters.AttestersRecoveryIff | packages/materializer/src/materializers/provider.ts:320-324 | After a reset, which removes exactly the rows of later blocks, the exact condition on the table the reset found: every row key that no later row writes is there up to the reset's block with its event's block if the log has it, and not otherwise |
| ProviderAttesters.ExplodedOrdered | packages/materializer/src/materializers/provider.ts:288-312 | The exploded rows are in order, those of one event side by side under one key |
| ProviderList.ListTable.MaterializeBatch | packages/materializer/src/materializers/provider-validators.ts:62-106 | An add upserts the mapping, a drip deletes it, in order |
| ProviderList.ListConverges | packages/materializer/src/materializers/provider-validators.ts:62-106 | On every log, passes that stop at any row and restart at any earlier one end in the list of a single pass |
| ProviderList.OnePassIff | packages/materializer/src/materializers/provider-validators.ts:62-106 | A mapping is on the list of a single pass if and only if the last row that mentions it adds it, and then with that row's position and transaction |
| ProviderList.ListCatchesUpIff | packages/materializer/src/materializers/provider-validators.ts:62-119 | After a reset, from any list, such passes give the list of a single pass if and only if every mapping that no later row mentions is already as the single pass leaves it |
| ProviderList.ListRecoveryIff | packages/materializer/src/materializers/provider-validators.ts:115-119 | After a reset, which removes exactly the rows of later blocks, the exact condition on the list the reset found: every mapping that no later row mentions is on it up to the reset's block as the single pass leaves it, or else not on that list |
| ProviderList.LateDripIsLost | packages/materializer/src/materializers/provider-validators.ts:14-60 | A run in which a drip arrives after the poll has gone past it: the list keeps an attester the fold has dropped |
| ProviderList.CutGroupIsLost | packages/materializer/src/materializers/provider-validators.ts:48-59 | On any log, when a batch ends inside the group of rows of one event, an attester among the others, if no other row names it, is on the list of a single pass and never on this one |
| ProviderList.PairIsCut | packages/materializer/src/materializers/provider-validators.ts:48-59 | For every batch size n that happens with n - 1 events of one attester each and then one of two, all there from the start |
| DerivedTables.ExactIffCovered | packages/materializer/src/index.ts:86-101 | A table derived from tables still being filled has applied exactly the rows up to its cursor, each once, if and only if at every fetch all rows up to the last fetched key were there and no group was cut |
| DerivedTables.CoveredIsFold | packages/materializer/src/materializers/validator-queue.ts:33-66 | Then the derived table is the fold of all source rows up to its cursor |
| DerivedTables.FetchIsBatch | packages/materializer/src/materializers/provider-validators.ts:14-60 | The first n rows of each of two tables, merged by a stable sort and cut to n, are a batch of the log of all rows, whatever part of their rows the tables hold and whatever keys rows share |
| DerivedRuns.MovesArePasses | packages/materializer/src/index.ts:86-101 | Polls of a derived table that see only part of the rows, fail at any row or are rewound are a chain of passes over the log of all rows, if every fetch is covered |
| DerivedRuns.ListDelivered | packages/materializer/src/materializers/provider-validators.ts:14-106 | Every such run of the provider list that has passed all rows ends in the list of a single pass |
| DerivedRuns.QueueDeliveredIff | packages/materializer/src/materializers/validator-queue.ts:18-79 | Every such run of the queue that has passed all rows ends in the queue of a single pass if and only if every pair's last remove finds at most one entry |
| ValidatorRollup.ValidatorRollupTable.UpsertDeposits | packages/materializer/src/materializers/validator-rollup.ts:61-82 | First writer wins per (validator, rollup); a new pair that meets the constraint on (transaction, log index) fails the batch there |
| ValidatorRollup.ValidatorRollupTable.MaterializeDeposits | packages/materializer/src/materializers/validator-rollup.ts:61-85 | The same, and if no deposit is refused the backfill and the status refresh follow, which keep every row |
| ValidatorRollup.ValidatorRollupTable.DeleteAfterBlock | packages/materializer/src/materializers/validator-rollup.ts:91-96 | Rows of later blocks are deleted and the status of the others is refreshed |
| ValidatorRollup.ValidatorRollupTable.BackfillMigratedValidators | packages/materializer/src/services/validator-rollup-sync.ts:12-72 | The statement inserts one migration row per implied pair, numbered above every older row of the transaction, and touches no other row; the result is the number of rows inserted |
| ValidatorRollup.ValidatorRollupTable.RefreshMigrationStatus | packages/materializer/src/services/validator-rollup-sync.ts:79-116 | The refresh as a whole; the result is the number of rows whose status changed. What each row then shows is stated by the next rows |
| ValidatorRollup.RefreshShowsStatus | packages/materializer/src/services/validator-rollup-sync.ts:79-116 | Then a known validator's row is exited if and only if its withdrawal is finalized, exiting if and only if it is initiated and not finalized, migrated if neither and the validator's current rollup is another one, active otherwise; other columns and unknown validators' rows stay |
| ValidatorRollup.SyncShowsStatus | packages/materializer/src/services/validator-rollup-sync.ts:12-116 | The same for all rows after backfill and refresh, new migration rows included |
| ValidatorRollup.SyncAdds | packages/materializer/src/services/validator-rollup-sync.ts:12-72 | A row that a sync adds is a migration row with the block and transaction of an update to its rollup, later than an unwithdrawn deposit row of its validator on another rollup; its log index follows the highest of the transaction, or 100001, by at most the number of candidates of the transaction |
| ValidatorRollup.SyncOrders | packages/materializer/src/services/validator-rollup-sync.ts:38-50 | Of two rows that a sync adds in one transaction, the one with the lower address has the lower log index |
| ValidatorRollup.FirstDepositWins | packages/materializer/src/materializers/validator-rollup.ts:61-82 | A pair that deposits add has the row of its first deposit: its kind, block, transaction and log index, active; a pair already there keeps its row |
| ValidatorRollup.ValidatorRollupTable.OnIdle | packages/materializer/src/materializers/validator-rollup.ts:114-127 | Backfill and refresh at most once a minute |
| ValidatorRollup.BackfillFixpoint | packages/materializer/src/services/validator-rollup-sync.ts:12-72 | A second backfill over the same tables has no candidate and inserts nothing |
| ValidatorRollup.BackfillKeepsLogs | packages/materializer/src/services/validator-rollup-sync.ts:27-50 | Synthetic (transaction, log index) pairs stay unique against existing and newly inserted rows |
| ValidatorRollup.RefreshFixpoint | packages/materializer/src/services/validator-rollup-sync.ts:79-116 | A second refresh finds nothing stale |
| ValidatorRollup.CutKeepsShape | packages/materializer/src/materializers/validator-rollup.ts:91-96 | Delete-after-block never removes the deposit row that justifies a surviving migration row |
| MigrationClosure.RunsStaySound | packages/materializer/src/materializers/validator-rollup.ts:61-127 | In every run, with withdrawals and resets anywhere: log indexes never collide, every migration row has its deposit witness, and no pair exists that deposits and updates do not imply |
| MigrationClosure.DepositAccepted | packages/materializer/src/materializers/validator-rollup.ts:61-82 | With real log indexes up to 100000, no deposit of the chain is ever refused |
| MigrationClosure.ExactAfterSync | packages/materializer/src/services/validator-rollup-sync.ts:12-72 | After any run, with withdrawals and resets anywhere, a sync leaves exactly the pairs of the deposits and those they imply if and only if every such pair without a row has an unwithdrawn deposit row of its validator on another rollup, older than an update to the pair's rollup |
| MigrationClosure.StatusNeverBack | packages/materializer/src/services/validator-rollup-sync.ts:79-116 | In every run without resets in which withdrawal rows are not taken back, a status never goes from exited to exiting, nor from exiting to migrated or active |
| MigrationClosure.ClosureAfterSync | packages/materializer/src/services/validator-rollup-sync.ts:12-72 | Any interleaving of in-order deposits, retried deposits, updates, syncs, withdrawals of what is already carried over, and resets that keep every deposit's row, ending in a sync, has exactly these pairs |
| MigrationClosure.OrderlyIsComplete | packages/materializer/src/materializers/validator-rollup.ts:61-127 | Such a run satisfies the condition of the exact statement before every sync |
| MigrationClosure.SteadyIsOrderly | packages/materializer/src/materializers/validator-rollup.ts:28-59 | Without withdrawals and resets the one requirement is that deposits come in order |
| MigrationClosure.SteadyClosure | packages/materializer/src/materializers/validator-rollup.ts:28-85 | So without withdrawals and resets every in-order interleaving that ends in a sync has exactly these pairs |
| MigrationClosure.ResetMeans | packages/materializer/src/materializers/base.ts:70-82 | A reset leaves the rows and sources up to its block, and of all deposits exactly those of later blocks, and those of the block itself but for log index zero, are fetched again |
| MigrationClosure.SavedMeans | packages/materializer/src/materializers/base.ts:46-51 | Saving the cursor leaves exactly the deposits after it to be fetched, by block and then log index, and changes nothing else |
| MigrationClosure.ResetCovered | packages/materializer/src/materializers/validator-rollup.ts:91-96 | A reset keeps a row for every deposit that stays known if and only if it deletes none of the rows these deposits stand in |
| MigrationClosure.Confluent | packages/materializer/src/materializers/validator-rollup.ts:61-127 | Two runs over the same deposits and updates that satisfy the condition of the exact statement before their last sync end with the same pairs, whatever was withdrawn |
| MigrationClosure.WithdrawalsBreakConfluence | packages/materializer/src/services/validator-rollup-sync.ts:57-66 | Without the condition the interleaving matters: a withdrawal before or after a sync of one deposit, and a second deposit before or after it, end with different pairs over the same sources |
| MigrationClosure.ResetLosesDeposit | packages/materializer/src/materializers/validator-rollup.ts:91-96 | A run, ending in a sync, in which a reset has deleted the row of a deposit that stays on the chain; no continuation without another reset or an update to that rollup brings the pair back |
| MigrationClosure.LostForGood | packages/materializer/src/materializers/validator-rollup.ts:61-127 | In general: a deposit behind the cursor whose pair has no row stays without one until another reset or an update to its rollup |
| EpochIntegrity.AnalyzeEpochIntegrity | packages/shared-utils/src/epoch-integrity.ts:80-166 | Counts, validators, score and verdict of the four rules over any records |
| EpochIntegrity.BuildEpochSummary | packages/shared-utils/src/epoch-integrity.ts:231-281 | One pass gives the number of records, of distinct validators, and the six counts |
| EpochIntegrity.CountIsSize | packages/shared-utils/src/epoch-integrity.ts:88-99 | Each count is the number of positions whose record has the status |
| EpochIntegrity.ScoreInRange | packages/shared-utils/src/epoch-integrity.ts:116-153 | The score lies between 0 and 100 |
| EpochIntegrity.OrderIndependent | packages/shared-utils/src/epoch-integrity.ts:80-102 | The analysis is the same for every order of the records |
| EpochIntegrity.ScoreAtLeastIff | packages/shared-utils/src/epoch-integrity.ts:104-153 | For every score q from 1 to 100, in the fields of the tally: q is reached exactly when the block records off the number of slots, the attestation records off committee minus one for each mined or proposed checkpoint, the empty validators without a missed block, and a surplus of validators, weighted, leave that many points |
| EpochIntegrity.VerdictIff | packages/shared-utils/src/epoch-integrity.ts:116-163 | The same for the four verdicts: VALID up to half a point lost, WARNING up to ten and a half, PARTIAL up to fifty and a half, INVALID above |
| EpochIntegrity.CompleteEpoch | packages/shared-utils/src/epoch-integrity.ts:116-153 | An epoch with a block record for every slot, all attestations of its mined and proposed checkpoints and every validator of the committee scores 100, and with any surplus of validators 60 |
| EpochIntegrity.ValidIff | packages/shared-utils/src/epoch-integrity.ts:116-163 | In the fields of the tally, VALID holds exactly when there is no surplus validator and the three weighted shortfalls stay within half a point |
| EpochIntegrity.ValidIffSmall | packages/shared-utils/src/epoch-integrity.ts:116-163 | Below 60 slots and a committee of 40, VALID means: the four block counts add up to the slots, the validators are the committee, or no more than it if a block was missed, and 50 times the attestation difference is at most slots times committee |
| EpochIntegrity.OneEmptyValidator | packages/shared-utils/src/epoch-integrity.ts:146-151 | In an otherwise complete epoch, one empty validator prevents VALID exactly when the committee is below 40 |
| EpochIntegrity.ScoreWithoutSlots | packages/shared-utils/src/epoch-integrity.ts:116-153 | With zero slots, where a penalty divides by zero, any block record makes the score zero, and without one only the validators decide; the exact condition for every score |
| EpochIntegrity.ScoreWithoutCommittee | packages/shared-utils/src/epoch-integrity.ts:116-153 | With a committee of zero only block records and validators decide; the exact condition for every score |
| EpochAccounting.EpochStore.SaveValidatorAttestation | packages/indexer-custom/src/services/EpochService.ts:35-76 | A save is skipped when the epoch it names has a score of 100; otherwise the row of its slot and validator is inserted, or updated keeping its epoch |
| EpochAccounting.UpsertMeans | packages/indexer-custom/src/services/EpochService.ts:46-71 | Position by position: the row of the slot and validator takes status, stamp and index and keeps its epoch, a new one goes to the end, every other row stays |
| EpochAccounting.EpochStore.AnalyzeAndSave | packages/indexer-custom/src/services/EpochIntegrityStatsService.ts:118-173 | The stored analysis is that of the epoch's rows; issues are reported unless the score is 100 |
| EpochAccounting.EpochStore.UpdateValidatorEpochPerformance | packages/indexer-custom/src/services/EpochService.ts:81-158 | The six counts of the validator's rows in the epoch replace its performance row |
| EpochAccounting.EpochStore.UpdateEpochAggregates | packages/indexer-custom/src/services/EpochService.ts:163-247 | The aggregates are the sums over the epoch's performance rows, or zero without rows; with rows and no epoch record the update fails |
| EpochAccounting.EpochStore.CollectData | packages/indexer-custom/src/collectors/EpochAggregatesCollector.ts:104-155 | The repair pass, in batches of any size, gives every listed epoch with attestations the totals of its flat count |
| EpochAccounting.SumAfterUpdate | packages/indexer-custom/src/services/EpochService.ts:205-215 | After all validators with rows are recounted, each of the six sums is the flat count plus what performance rows of other validators hold |
| EpochAccounting.TotalsAreFlatCounts | packages/indexer-custom/src/collectors/EpochAggregatesCollector.ts:123-149 | The six totals equal the six counts of the epoch's attestation rows, the ones the summary gives |
| EpochAccounting.RepairPassExact | packages/indexer-custom/src/collectors/EpochAggregatesCollector.ts:104-155 | After the pass a listed epoch with attestations has its flat totals, and every other epoch what it had |
| EpochAccounting.RepairedTotals | packages/indexer-custom/src/services/EpochService.ts:205-243 | In the rows themselves: of a listed epoch with rows, each of the six stored totals is the number of its rows with that status, the proposals made are those with a proposed checkpoint, the missed ones and the expected attestations are the two kinds of each together |
| EpochAccounting.PerformanceCounts | packages/indexer-custom/src/services/EpochService.ts:81-158 | The stored performance holds, status by status, the numbers of the validator's own rows in the epoch |
| EpochAccounting.AnalysisCounts | packages/indexer-custom/src/services/EpochIntegrityStatsService.ts:118-173 | The stored analysis holds, status by status, the numbers of the epoch's rows, the number of its validators, and the score and verdict of these |
| EpochAccounting.SumPerformance | packages/indexer-custom/src/services/EpochService.ts:205-225 | The loop over performance rows gives the six sums, expected attestations as sent plus missed, and missed proposals as missed checkpoints plus missed blocks |
| EpochAccounting.RepairedTotalsAddUp | packages/indexer-custom/src/collectors/EpochAggregatesCollector.ts:104-155 | Conservation: the totals a repair pass stores for a listed epoch count each of its rows with a known status exactly once |
| EpochFreeze.FreezeIsAbsorbing | packages/indexer-custom/src/services/EpochService.ts:35-45 | Once a run has stored 100 for an epoch, no continuation changes its attestations or its analysis, if saves name the epoch stored with the row |
| EpochFreeze.FixedSlotsFreeze | packages/indexer-custom/src/services/EpochService.ts:35-76 | That holds whenever epochs are slots divided by a fixed number of slots per epoch |
| EpochFreeze.SaveThawsIff | packages/indexer-custom/src/services/EpochService.ts:46-71 | A save changes the rows of a frozen epoch exactly when it names another, unfrozen epoch for a slot and validator stored under the frozen one, with new contents |
| EpochFreeze.FreezeCanBreak | packages/indexer-custom/src/services/RollupConfigService.ts:54-58 | A run of saves as the collector makes them in which a stored 100 is undone: slot 1 is epoch 1 while an epoch has one slot, and epoch 0 under the fallback of 32 slots |
| EpochFreeze.AlwaysRepairable | packages/indexer-custom/src/services/EpochService.ts:81-158 | In every state that saves, analyses and recounts can reach, the condition of the repair pass holds |
| RateLimiter.RateLimitStore.IsRateLimited | apps/web/src/middleware.ts:185-222 | The decision and the new entry for one request, with or without a sweep before it |
| RateLimiter.RateLimitStore.Cleanup | apps/web/src/middleware.ts:149-163 | A sweep removes exactly the entries whose window is over |
| RateLimiter.LimitOf | apps/web/src/middleware.ts:29-72 | Paths under /api/validators have 90 requests a minute, those under /api/dashboard 120, all others 60 |
| RateLimiter.CleanupIsInvisible | apps/web/src/middleware.ts:149-194 | For a clock that does not go back, sweeps at any moments change no decision |
| RateLimiter.WindowBound | apps/web/src/middleware.ts:196-222 | For every limit, a window admits at most that many of the requests of its key that are subject to at most that limit |
| RateLimiter.IntervalBound | apps/web/src/middleware.ts:185-222 | For every limit and trace, no interval of the window's length admits more than twice the limit minus one of a key's requests that are subject to at most that limit |
| RateLimiter.KeyDetermines | apps/web/src/middleware.ts:189 | Without bars in address and fingerprint, a key belongs to one client and one path |
| RateLimiter.CallsAdmittedAre | apps/web/src/middleware.ts:185-222 | The admitted calls that the next two rows bound, call by call: those of the client to the path in the interval that what came before does not limit |
| RateLimiter.ClientBound | apps/web/src/middleware.ts:185-222 | No interval of the window's length admits more than twice the path's limit minus one of a client's calls to the path, whatever address it names and whatever else is requested, also under the same key |
| RateLimiter.ClientWindow | apps/web/src/middleware.ts:185-222 | And a window of their key admits no more of them than the path's limit |
| RateLimiter.BoundIsReached | apps/web/src/middleware.ts:185-222 | For every key and path, requests under that key to that path alone attain the bound |
| RollupConfig.PreviousRoundTrip | packages/indexer-ponder/src/config.ts:41-54 | Parsing the printed PREVIOUS_ROLLUPS gives the lower-cased list exactly when every start block is positive; with a zero among them it is refused |
| RollupConfig.PrintedEntry | scripts/env/propagate-indexer-ponder.js:42-44 | An entry is printed as address, start block and proposer, without a zero start block and whatever is empty, with colons between those left |
| RollupConfig.PrintedList | scripts/env/propagate-indexer-ponder.js:42-44 | And a list as its entries with commas between them |
| RollupConfig.EntryRoundTrip | scripts/env/propagate-indexer-ponder.js:42-44 | One printed entry comes back lower-cased if its start block is positive, and is an error if it is zero, because a zero is not printed |
| RollupConfig.AcceptedIff | packages/indexer-ponder/src/config.ts:42-53 | An entry is accepted if and only if its first part is an address, its second a numeral, and its third missing, empty or an address; what it then says, further parts ignored; an error names the entry |
| RollupConfig.ListAcceptedIff | packages/indexer-ponder/src/config.ts:41-54 | A list is accepted if and only if every entry that is not blank is, and holds what these say |
| RollupConfig.AddressForm | packages/indexer-ponder/src/config.ts:44 | An address is 0x and forty hexadecimal digits of either case |
| RollupConfig.RollupLabels | apps/web/src/services/rollupRegistry.ts:18-25 | The loop reads what the parser function reads |
| RollupConfig.LastLabelWins | apps/web/src/services/rollupRegistry.ts:18-25 | An address has the label of the last entry that gives it one, after trimming the entry, splitting it at colons and lower-casing the address, and no other address has any |
| RollupConfig.LabelsRoundTrip | scripts/env/propagate-app.js:11-19 | For distinct addresses, every label survives printing and parsing exactly when no label contains a comma or a colon or ends in a space |
| RollupConfig.PrintedLabels | scripts/env/propagate-app.js:11-19 | How the list is printed: lower-cased address, colon and label, with commas between, leaving out pairs with an empty address or label |
| Text.SplitJoin | packages/indexer-ponder/src/config.ts:42-43 | Splitting undoes joining when no part contains the separator |
| Text.DecimalValue | packages/indexer-ponder/src/config.ts:45-51 | A printed number is a numeral and reads as itself |
| Text.TrimMeans | packages/indexer-ponder/src/config.ts:42 | Trimming takes white space from both ends and nothing else, and leaves none at either |
| Text.LowerMeans | packages/indexer-ponder/src/config.ts:51-53 | Lower case leaves no capital letter, takes each to the small letter at its place in the alphabet, and keeps every other character |
| RollupRegistry.RegistryCache.GetRollupRegistry | apps/web/src/services/rollupRegistry.ts:28-98 | Within a minute the cached registry, otherwise the one built from the table, which the next row spells out |
| RollupRegistry.VersionsAreUpdates | apps/web/src/services/rollupRegistry.ts:37-94 | Each update is a version with the rollup it names, from its block to the next update's; a configured rollup without an update comes last, from the last update's block, or from zero, and is active |
| RollupRegistry.OwnsIffLastUpdate | apps/web/src/services/rollupRegistry.ts:37-58 | A version made from an update owns a block if and only if that update is the last one by the block |
| RollupRegistry.SomeLastUpdate | apps/web/src/services/rollupRegistry.ts:37-58 | And every block from the first update on has a last update, so that the updates fix each block's owner |
| RollupRegistry.OneCurrentVersion | apps/web/src/services/rollupRegistry.ts:37-94 | In every branch exactly one version is not deprecated: the last, and it is the active one |
| RollupRegistry.KnownRollupTiles | apps/web/src/services/rollupRegistry.ts:37-58 | With the configured rollup in the table, every block from the first start on belongs to exactly one version, and no earlier block to any |
| RollupRegistry.UnknownRollupOverlaps | apps/web/src/services/rollupRegistry.ts:60-78 | A configured rollup the table does not know shares exactly the blocks from the last known switch on with the last known version |
| RollupRegistry.FilterKeepsOwned | apps/web/src/lib/rollupParam.ts:35-61 | No block of a selected version is ever filtered out |
| RollupRegistry.FilterExactIffContiguous | apps/web/src/lib/rollupParam.ts:35-61 | For every table and configured rollup, the filter accepts exactly the selected versions' blocks if and only if some version is selected and each unselected one between selected ones is empty or never ends |
| RollupRegistry.FilterFollowsUpdates | apps/web/src/lib/rollupParam.ts:35-61 | For a selection without gaps the filter accepts exactly the blocks whose last update names a selected rollup and, if the configured rollup is selected and has no update, those from the last update on |
| RollupRegistry.RegistryStepped | apps/web/src/services/rollupRegistry.ts:37-94 | In every branch the versions start in order and each ends where the next starts, except that the last two may start together and both stay open |
| RollupRegistry.NothingSelected | apps/web/src/lib/rollupParam.ts:39-41 | A selection that names no version accepts every block from zero on |

## Left out

- Database engines, ORMs, SQL text, JSON, environment loading and schema validation: tables are maps or sequences and statements are set comprehensions or single assignments over them.
- RPC clients, retries, health checks, Redis, logging and the status display.
- All pages, components, hooks and formatters of the web application.
- Letter case and formats of addresses and hashes outside the two configuration lists: they are numbers. In particular the backfill compares addresses ignoring case and the status refresh does not.
- Lower-casing beyond ASCII letters, and integers that a JavaScript number cannot hold exactly: block numbers and start blocks are unbounded.
- Empty hashes and empty ids, which the source's truth tests treat as missing.
- Missing timestamps (the source substitutes the current time), and columns that are only copied.
- Validator activation dates, which the queue materializer writes on the side.
- ValidatorQueue.QueueTable.RemoveFromQueue: entries with equal queued_at are taken by id, where the database leaves the choice open; the closed form and the convergence assume increasing times per pair, so no choice arises there.
- ValidatorQueue.QueueConverges: its condition is sufficient only; the exact one is that of QueueRecovery.DeliveryIff.
- ValidatorRollup.ValidatorRollupTable.BackfillMigratedValidators: numbers ascend with the addresses within a transaction, as in the source, and lie within the number of its candidates, but the order among candidates of one address is left open, and with it which of several candidates of one pair is skipped.
- MigrationClosure.ClosureAfterSync: the conditions on withdrawals and resets are sufficient; the exact condition for a sync is that of MigrationClosure.ExactAfterSync.
- Replay.Materializer.Poll: the hook that runs when a poll finds nothing does nothing here, as in the base class; the hooks of the two materializers that replace it are modelled with them, outside the engine.
- ProviderState.ProvidersCatchUpIff: for logs in which every provider registers once and is settled; HarmlessIffSettled says what an unsettled log does.
- DerivedTables.ExactIffCovered: polls that do not fail and no rewinds, under which exactly-once makes sense; runs with both are the subject of DerivedRuns.
- Concurrent writers inside one statement, one save or one analysis: each is one step. The polls of one cycle run concurrently in the source; materializers that own their tables do not interact, and those that read others' tables are covered by arbitrary fetches of whatever is there.
- EpochIntegrity.AnalyzeEpochIntegrity: exact rationals instead of floating point, and no texts of issues; slots and committee are natural numbers.
- Comparing summaries across sentinels: it would only add an easy member.
- Failures inside the repair pass. Attestations are never deleted, as in the source.
- Labels of rollup versions and the derived contract addresses; only address, range and deprecation of a version are modelled.
- RateLimiter.RateLimitStore.IsRateLimited: the fingerprint is an input, and one reading of the clock serves a whole request.
- The remaining event-copy materializers: they differ from the deposit lifecycle only in their columns.
- Contract discovery, the validator list collector, reward and performance formulas, finalization, and `detectReorg`, which the main loop does not use.

# ChainWatch: a verified model of the indexer

ChainWatch follows an Ethereum chain that may reorganise, stores its ERC-20 transfers in
PostgreSQL and serves them page by page. This project models the indexing protocol and the
components around it in Dafny and proves what they promise.

## How the model is laid out

`Chain.dfy` holds the shared values. A *world* is the set of all blocks that may ever be mined, on
any fork. What the protocol may rely on is `WellFormed`: hashes are not empty and identify a block
with its parent and logs (logs are fetched by block hash, EIP-234), log indexes are unique inside a
block, and a transaction is mined at most once along one chain. Nothing says which fork the node
answers from: an environment (`Indexing.Env`) is a relation, so the canonical chain may switch
between any two calls, even between the lookup of a block and the request for its logs. A database
transaction is all or nothing, and the connection may be lost before or after its commit took
effect. There is a single writer, as the repository's README.md demands at line 684.

1. *Indexing.* `SequentialIndexer.dfy` is the plain loop, as a step relation, as a function of a
   script of fixed answers, and as a method over the store object. `ConcurrentIndexer.dfy` is the
   worker pool as a step system: dispatcher, workers, the unbuffered `jobs` channel (a rendezvous),
   the bounded `results` channel, the goroutine that closes it, and the coordinator. Every
   interleaving is a run. No bound on `pending` is claimed: one slow block lets it grow to the size
   of the remaining range.
2. *Store and runs.* `Store.dfy` has the three tables as values and `StoreOf(p)`, the tables that
   hold exactly the chain segment `p`; `PostgresStore.dfy` has the transactions as methods of an
   object. `Reorg.dfy` is the start-up reconciliation, `ContinuousIndexer.dfy` the polling loop, and
   `Runs.dfy` puts everything into runs of the process with stops and a crash at any step.
   `Lifetimes.dfy` follows the stored segment and the handler along a run, `Recovery.dfy` and
   `Rebuilding.dfy` are recovery on a chain that stays fixed, first with the cycle as a function and
   then over runs of the worker pool. `MemoryStore.dfy` is the in-memory store, with the big integers
   that callers may share, and its simulation of the PostgreSQL one.
3. *Pagination.* `Pagination.dfy` is the listing query and the walk along the next-page cursors. Its
   uniqueness assumption is discharged by the invariant of layer 2; `Listing.dfy` reads the pages
   from the states of a run.
4. *Self-contained cores.* `RateLimiter.dfy`, `Retry.dfy`, `TokenAmount.dfy`, `Ledger.dfy` and
   `MetadataCache.dfy`.

Main results: every interleaving of the concurrent indexer refines the plain loop, always ends and
leaves nothing behind (`ConcurrentEqualsSequential`, `EveryRunFinishesAndCleansUp`); in every state
of every run the stored history is one parent-linked chain segment and the transfer table is exactly
its transfers (`EveryStoreIsOneChain`); recovery converges to what indexing from scratch would have
stored (`RecoveryConverges`, and over the worker pool with crashes `RunsRebuildTheChain`); the
handler is given exactly what is committed (`HandlerSeesEveryBlock`); and the pages of a listing are
the matching rows, each once, even while blocks are committed between reads (`PagesListTheRun`).

Where a law is false beyond its range, a lemma gives an input and the range is exact:

- money is conserved up to 64-bit totals: `Ledger.MoneyVanishesBeyond64Bits`, `Ledger.TransactConservesIff`;
- cached metadata has its row for prefixed addresses: `MetadataCache.UnprefixedLosesItsRow`,
  `MetadataCache.CacheIsBackedIff`;
- a jittered wait fits a duration up to a bound on the configuration: `Retry.JitterOverflows`,
  `Retry.EveryWaitFitsIff`;
- row-by-row pages are complete for unique positions, which the primary key does not give:
  `Pagination.SharedPositionLosesARow`, `Pagination.OneRowWalkIsCompleteIff`;
- the memory store follows the PostgreSQL one where no block conflicts: `MemoryStore.SaveAgreesIff`.

## Model

| member | source | states |
|---|---|---|
| Chain.AgreementIsDownwardClosed | internal/indexer/reorg.go:103-140 | if two linked chains agree on one block hash they hold the same blocks all the way below it, so the first agreement met while descending is the highest |
| Store.HistoryAt | internal/store/postgres_block_persistence.go:156-191 | the history of a segment is contiguous: a number is recorded exactly when it lies in the segment, with that block's hash and parent |
| Store.SaveExtends | internal/store/postgres_block_persistence.go:41-85 | saving a block that continues the stored segment succeeds exactly when its values fit the columns, and then the tables are exactly those of the longer segment |
| Store.EnsureKeeps | internal/store/postgres_block_persistence.go:87-93 | re-recording the current checkpoint block, with no parent given, changes none of the tables and loses no known parent hash |
| Store.RollbackTruncates | internal/store/postgres_block_persistence.go:116-149 | rolling back to a recorded block leaves exactly the tables of the segment cut there: it undoes the saves above it |
| Store.TracksUnique | internal/store/postgres_block_persistence.go:156-191 | the tables determine the chain segment they hold |
| Store.TransferTableIsExact | internal/store/postgres_transfer_store.go:58-108 | every transfer of every block has, under its transaction hash and signed log index, a row with that block's number and hash and every field of the transfer; every row is one of these, and the counts agree, so conflict-do-nothing never absorbed a needed row |
| Store.PositionsAreUnique | migrations/002_create_erc20_transfers.sql:1-17 | two stored rows never share block number and log index, although the primary key does not say so |
| PostgresStore.InsertBlockTransfers | internal/store/postgres_transfer_store.go:58-108 | rows that were there stay, and each transfer whose key is new gets a row with its own fields; the loop is refused exactly when some value is nil or, after the conversion of the log index to int64, does not fit its column, and the first such transfer decides the error |
| PostgresStore.RealTransfersFit | migrations/002_create_erc20_transfers.sql:1-17 | every 256-bit amount and every log index below 2^31 fits its column |
| PostgresStore.SaveWrites | internal/store/postgres_block_persistence.go:41-85 | what a save changes in the three tables, row by row and field by field |
| PostgresStore.PostgresBlockPersistence.Load | internal/store/postgres_checkpoint.go:29-73 | answers the checkpoint row, its absence, or a query error |
| PostgresStore.PostgresBlockPersistence.LoadIndexedBlockHash | internal/store/postgres_block_persistence.go:95-114 | answers the recorded hash, its absence, or a query error |
| PostgresStore.PostgresBlockPersistence.RecordIndexedBlock | internal/store/postgres_block_persistence.go:156-202 | a different hash at the same number is a conflict and changes nothing; otherwise a missing parent is filled in and a known one stays |
| PostgresStore.PostgresBlockPersistence.SaveIndexedBlock | internal/store/postgres_block_persistence.go:41-85 | all three tables change together or not at all, also when the connection is lost around the commit |
| PostgresStore.PostgresBlockPersistence.EnsureIndexedBlock | internal/store/postgres_block_persistence.go:87-93 | only a missing history row is added, with no parent; rows that were there, checkpoint and transfers stay; a conflict changes nothing |
| PostgresStore.PostgresBlockPersistence.RollbackTo | internal/store/postgres_block_persistence.go:116-149 | rows above the ancestor go from both tables and the checkpoint becomes the ancestor, in one transaction |
| Indexing.Enter | internal/indexer/sequential_indexer.go:51-88 | a range never starts below the requested block or above its end |
| Indexing.EnterContinues | internal/indexer/concurrent_indexer.go:57-84 | a range that starts at or below checkpoint + 1 begins right above the stored segment and expects its top hash, or is already done |
| Indexing.EnterNeverWraps | internal/indexer/concurrent_indexer.go:69-84 | checkpoint + 1 is never taken where it would wrap around 64 bits |
| SequentialIndexer.AcceptedFollows | internal/indexer/reorg.go:145-158 | since hashes are never empty, a block that passes the parent check really sits on the stored top |
| SequentialIndexer.CommitNext | internal/indexer/sequential_indexer.go:90-147 | a committed block extends the one linked segment; a block of another fork is never committed on top of it |
| SequentialIndexer.ReachesKeeps | internal/indexer/sequential_indexer.go:90-147 | whatever the node answers, every reachable state of the loop holds the old segment plus consecutive linked blocks, and a success has committed the whole range |
| SequentialIndexer.FinishExtends | internal/indexer/sequential_indexer.go:90-147 | with fixed answers, too, the call leaves the old segment plus consecutive linked blocks |
| SequentialIndexer.ReachesFollowsScript | internal/indexer/sequential_indexer.go:90-147 | with fixed answers and no cancellation every run of the step relation that ends has the one outcome and tables of the function |
| SequentialIndexer.StepGrows | internal/indexer/sequential_indexer.go:90-147 | a pass of the loop appends one block to the stored segment or leaves it |
| SequentialIndexer.RangeNeverWraps | internal/indexer/sequential_indexer.go:90-147 | the range with its counter modulo 2^64 is the range over unbounded numbers, also for the end block 2^64 - 1 |
| SequentialIndexer.OutcomeExplained | internal/indexer/sequential_indexer.go:44-148 | every outcome for any answers: bad bounds, a failed load, a covered range, or linked answered blocks one by one from max(start, checkpoint + 1) up to the end or up to the first number whose lookup, logs, parent hash or save fails, which the error names with its cause |
| SequentialIndexer.SequentialIndexer.IndexRange | internal/indexer/sequential_indexer.go:44-148 | the loop over the store object has the outcome and leaves the tables of the specification function, for every script of answers and faults |
| ConcurrentIndexer.NeverDrainedEarly | internal/indexer/concurrent_indexer.go:226-231 | the fall-through return after the results loop is reached only under a cancelled caller context, never with a partial success |
| ConcurrentIndexer.WorkerStepCopies | internal/indexer/concurrent_indexer.go:104-144 | a worker or dispatcher step moves block numbers without duplicating any: dispatching adds one copy, only abandoning removes one |
| ConcurrentIndexer.WorkerStepConserves | internal/indexer/concurrent_indexer.go:104-144 | each dispatched, uncommitted block stays in exactly one of worker, results buffer and pending; under cancellation in at most one |
| ConcurrentIndexer.OtherStepConserves | internal/indexer/concurrent_indexer.go:146-231 | the same for the closer, the coordinator's receives and commits, and cancellation |
| ConcurrentIndexer.CommitIterates | internal/indexer/concurrent_indexer.go:164-224 | a pass of the coordinator over a pending result is one pass of the sequential loop body |
| ConcurrentIndexer.StepRefines | internal/indexer/concurrent_indexer.go:86-231 | every step of every actor is invisible to, or one step of, the sequential loop |
| ConcurrentIndexer.StepKeepsInv | internal/indexer/concurrent_indexer.go:86-231 | channel capacity, dispatch order, conservation, genuine answers and the refinement survive every step |
| ConcurrentIndexer.ConcurrentRefinesSequential | internal/indexer/concurrent_indexer.go:86-231 | in any environment, with cancellation, each state of each interleaving is one the sequential loop can reach; where the call returns its context's own error, which the sequential loop never does, it is a state in which that loop is still running |
| ConcurrentIndexer.ConcurrentEqualsSequential | internal/indexer/concurrent_indexer.go:42-232 | with answers fixed per block and no outside cancellation every call that returns, at once or after any interleaving, has the sequential call's tables, result list, and first failing block and cause |
| ConcurrentIndexer.NothingIsTruncated | internal/indexer/concurrent_indexer.go:164-231 | a nil error means exactly the requested remainder was committed in order; at every point the store is the old segment plus consecutive linked blocks, even if the chain switches mid-range |
| ConcurrentIndexer.CountersNeverWrap | internal/indexer/concurrent_indexer.go:129-144 | dispatcher and coordinator increment their counters only below the end block, so neither wraps at 2^64 - 1 |
| ConcurrentIndexer.SomeoneCanMove | internal/indexer/concurrent_indexer.go:86-231 | no deadlock: until the coordinator has returned and every goroutine is gone, some actor can move |
| ConcurrentIndexer.EveryScheduleStops | internal/indexer/concurrent_indexer.go:86-231 | every step lowers a measure, so every schedule is finite, also for the largest 64-bit end block |
| ConcurrentIndexer.EveryRunFinishesAndCleansUp | internal/indexer/concurrent_indexer.go:86-231 | if calls return, every run is bounded by a number fixed at the start and can be extended until the coordinator, dispatcher, all workers and the closer are done |
| Reorg.ReorgManager.Reconcile | internal/indexer/reorg.go:70-143 | the method has the result and leaves the tables of the specification function and fetches at most 1 + min(maxDepth, checkpoint) headers |
| Reorg.ReconcileExplained | internal/indexer/reorg.go:70-143 | for any answers and faults, what each result requires of node and history: a rollback needs the checkpoint and every height above the ancestor to have been read, found and looked up with another hash, and a failed read or lookup is reported for its height with nothing changed |
| Reorg.FirstUnforkedDecides | internal/indexer/reorg.go:103-140 | the first height below the checkpoint that is not seen to be forked decides: it cannot be read, is not recorded, cannot be looked up, or is the ancestor |
| Reorg.DescendFindsRecorded | internal/indexer/reorg.go:103-140 | an ancestor found is recorded, below the checkpoint and within the depth budget |
| Reorg.ReconcileTruncates | internal/indexer/reorg.go:70-143 | for any answers and faults the stored segment is at most truncated, never emptied, and an accepted checkpoint is the top of what is kept |
| Reorg.AgreementMeansPrefix | internal/indexer/reorg.go:103-140 | if the stored segment agrees with the chain at a height, everything stored up to there is the chain's |
| Reorg.DescendOnFixedChain | internal/indexer/reorg.go:103-140 | the bounded search stops at the highest agreement below its start, at the edge of history, or at its budget with no agreement within it |
| Reorg.ReconcileFindsHighestAncestor | internal/indexer/reorg.go:70-143 | on a fixed chain the store is cut at the highest recorded common ancestor exactly if it lies within maxDepth of the checkpoint; otherwise nothing changes and the error says whether history or depth ran out |
| ContinuousIndexer.SuccessIsConsecutive | internal/indexer/concurrent_indexer.go:57-84 | a successful range returns consecutive blocks from max(start, checkpoint + 1), none above its end, and its checkpoint is the last of them |
| ContinuousIndexer.ContinuousIndexer.RunCycle | internal/indexer/continuous_indexer.go:51-87 | a failed head lookup is reported and changes nothing, a head that confirms nothing new changes nothing, and otherwise the range up to head minus confirmationDepth is indexed and no block above it |
| ContinuousIndexer.ContinuousIndexer.Run | internal/indexer/continuous_indexer.go:89-164 | the polling and handler loops hand over, in order, what the successive cycles indexed, and stop for good at the first failing cycle, without an error if it stems from cancellation or if the context ends |
| ContinuousIndexer.TicksAreConsecutive | internal/indexer/continuous_indexer.go:51-164 | over any number of ticks, heads moving up or down, the handler sees consecutive blocks from max(startBlock, checkpoint + 1) to the final checkpoint, each once, each confirmed in its own tick |
| ContinuousIndexer.CycleNeverWraps | internal/indexer/continuous_indexer.go:65-77 | for any 64-bit head, start block and checkpoint the cycle with all arithmetic modulo 2^64 is the cycle over unbounded numbers |
| Runs.StartExplained | internal/app/application.go:193-250 | indexing starts right above the checkpoint that is stored after reconciliation, or at the confirmed head of a store without one; a failed head lookup or a refusal is passed on |
| Runs.StartNeverWraps | internal/app/application.go:193-250 | the start block never wraps around 64 bits, since a stored checkpoint fits a BIGINT |
| Runs.NextIsSound | internal/app/application.go:193-250 | start-up, each step of a cycle, its end and a crash all keep the stored history one linked segment that the next range continues |
| Runs.EveryStoreIsOneChain | internal/store/postgres_block_persistence.go:41-191 | in every state of every run from an empty store the checkpoint tops a contiguous parent-linked history and the transfer rows are, field by field, exactly the transfers of its blocks, whatever forks and crashes occurred |
| Lifetimes.SegmentsGrow | internal/indexer/concurrent_indexer.go:176-224 | between two start-ups the stored segment only grows, whatever the chain does |
| Lifetimes.HandlerSeesEveryBlock | internal/indexer/continuous_indexer.go:89-164 | over the worker pool and in any environment, between cycles the handler has been given exactly the blocks committed since the process was ready, consecutive from max(start, checkpoint + 1), each once |
| Lifetimes.HandedIsConfirmed | internal/indexer/continuous_indexer.go:65-77 | no block is handed over above the head less confirmationDepth of its cycle |
| Recovery.FixedRange | internal/indexer/sequential_indexer.go:90-147 | on a fixed chain a range appends exactly that stretch of the chain |
| Recovery.CyclesFollowChain | internal/indexer/continuous_indexer.go:51-87 | on a fixed chain any number of cycles, from stored history or from an empty store, ends with the chain stored up to the highest confirmed head seen if that raises it |
| Recovery.IndexingFromScratch | internal/indexer/sequential_indexer.go:44-148 | indexing a stretch of a fixed chain into empty tables stores that stretch and returns it |
| Recovery.RestartSucceedsIff | internal/app/application.go:193-250 | on a fixed chain start-up over recorded history succeeds exactly when the node knows the checkpoint's height and a recorded ancestor is within maxDepth; else it changes nothing |
| Recovery.RestartSettles | internal/indexer/reorg.go:70-143 | a successful start-up continues right above the highest common ancestor with only the chain's blocks stored |
| Recovery.RecoveryConverges | internal/indexer/reorg.go:70-143 | after any run with reorgs and crashes, also one that has stored nothing yet, a successful start-up and any cycles on a now fixed chain leave the tables of indexing that chain from scratch from the same first block to the same checkpoint, and no confirmed head is above it |
| Rebuilding.AcceptedIsCanonical | internal/indexer/reorg.go:86-140 | a checkpoint that Reconcile accepts is one whose hash the node has just confirmed |
| Rebuilding.BootHoldsChain | internal/app/application.go:193-250 | against a node that knows one chain, though its calls may fail, a successful start-up leaves exactly that chain from the first recorded block to the start block |
| Rebuilding.RunRebuilds | internal/store/postgres_block_persistence.go:41-149 | while the chain stays fixed the stored segment only grows, over crashes and further start-ups too |
| Rebuilding.SuccessReachesEnd | internal/indexer/concurrent_indexer.go:164-224 | a cycle that ends with a nil error has raised the checkpoint exactly to the end of its range |
| Rebuilding.RunsRebuildTheChain | internal/indexer/concurrent_indexer.go:42-232 | the same recovery for the worker pool, over runs of the process: in every state after a successful start-up on a fixed chain, under any schedule, failing calls, crashes and restarts, the tables are those of indexing that chain from scratch |
| MemoryStore.MemoryCheckpointStore.Load | internal/indexer/checkpoint.go:38-49 | answers the checkpoint, its absence, or the context's error |
| MemoryStore.MemoryCheckpointStore.SaveIndexedBlock | internal/indexer/checkpoint.go:68-91 | entry and checkpoint become the block, with no conflict check, in new big integers; a done context changes nothing |
| MemoryStore.MemoryCheckpointStore.EnsureIndexedBlock | internal/indexer/checkpoint.go:93-114 | a different recorded hash is refused without change; otherwise a bare entry replaces the old one |
| MemoryStore.MemoryCheckpointStore.LoadIndexedBlockHash | internal/indexer/checkpoint.go:116-128 | answers the entry's hash or its absence |
| MemoryStore.MemoryCheckpointStore.RollbackTo | internal/indexer/checkpoint.go:130-148 | deleting while ranging in any order removes exactly the entries above the checkpoint |
| MemoryStore.CloneBlockTransferIndex | internal/indexer/checkpoint.go:150-166 | the copy equals the original, nil values included, and every big integer in it is new |
| MemoryStore.ForeignChangesAreInvisible | internal/indexer/checkpoint.go:68-91 | whatever callers do to big integers that the store does not own, and a save makes it own only new ones, its state stays |
| MemoryStore.SaveAgreesIff | internal/indexer/checkpoint.go:68-91 | saving keeps the memory and PostgreSQL stores alike exactly when the block does not conflict with recorded history |
| MemoryStore.EnsureAgrees | internal/indexer/checkpoint.go:93-114 | both stores refuse the same checkpoints and stay alike otherwise |
| MemoryStore.RollbackAgrees | internal/indexer/checkpoint.go:130-148 | a rollback leaves both stores alike |
| MemoryStore.RangeAgrees | internal/indexer/sequential_indexer.go:90-147 | a range over either store ends alike and leaves the stores alike: the conflict on which they differ never arises |
| MemoryStore.ReconcileAgrees | internal/indexer/reorg.go:70-143 | Reconcile over either store gives the same result and leaves the stores alike |
| MemoryStore.StoresAgreeAlongRuns | internal/indexer/checkpoint.go:38-148 | from empty stores, along any ranges and reconciliations, both stores answer Load and LoadIndexedBlockHash identically |
| Pagination.RunQuery | internal/store/postgres_transfer_reader.go:177-193 | returns the newest rows up to the limit in descending order, each once |
| Pagination.ListTransfers | internal/store/postgres_transfer_reader.go:25-335 | a page is the newest matching rows, 100 by default and at most 1000, with a next cursor exactly when more match; it fails only over a fetched row with a negative log index |
| Pagination.RestIsPastCursor | internal/store/postgres_transfer_reader.go:134-166 | given unique positions, the keyset predicate selects exactly the matching rows the page left out |
| Pagination.WalkListsEverything | internal/store/postgres_transfer_reader.go:313-334 | following the cursors to the end returns every matching row exactly once, strictly descending, on ceil(n / limit) pages (one if nothing matches), also for exact multiples of the limit |
| Pagination.WalkEnds | internal/store/postgres_transfer_reader.go:313-334 | over any table, positions shared or not, the cursor descends to a last page |
| Pagination.OneByOneDescends | internal/store/postgres_transfer_reader.go:134-166 | even without unique positions, one-row pages strictly descend and hold only selected rows |
| Pagination.SharedPositionLosesARow | migrations/002_create_erc20_transfers.sql:16 | if two matching rows shared a position, reading one row at a time would lose one of them |
| Pagination.OneRowWalkIsCompleteIff | internal/store/postgres_transfer_reader.go:134-166 | reading row by row returns every matching row exactly when no two of them share a position |
| Pagination.WalkIsStable | internal/store/postgres_transfer_reader.go:134-166 | rows of higher blocks added between page reads do not disturb the walk: it lists the table as of the first read |
| Pagination.StoredRowsAreUnique | migrations/002_create_erc20_transfers.sql:16 | the store's invariant supplies the unique positions and column bounds that pagination needs |
| Pagination.RowsAreReadableIff | internal/store/postgres_transfer_reader.go:253-279 | no stored row fails the reader's sign check exactly when every stored log index fits an int64 |
| Pagination.CommitsOnlyAddNewer | internal/store/postgres_transfer_store.go:58-108 | commits keep all rows and add only rows of blocks above all stored ones |
| Pagination.PagesListTheIndex | internal/store/postgres_transfer_reader.go:25-335 | over the tables of growing segments the pages together are the matching transfers stored at the first read, newest first, each once |
| Listing.ListedIffAsked | internal/store/postgres_transfer_reader.go:80-166 | a stored transfer is listed exactly when it passes each filter given: block number equal, token equal up to case, sender or receiver equal up to case, and position past the cursor |
| Listing.PagesListTheRun | internal/store/postgres_transfer_reader.go:25-335 | for pages read at any moments of one run between two start-ups, while the worker pool commits and the chain changes: together they list exactly the transfers of the blocks stored at the first read that pass the filters, descending by block and log, each once |
| TokenAmount.UnitsAreExact | internal/metadata/token_amount.go:8-76 | the parser's reading of a decimal text is the exact rational it denotes |
| TokenAmount.FormatIsTheCanonicalText | internal/metadata/token_amount.go:8-76 | a string is the formatted amount exactly when it is canonical (no superfluous zero, minus sign only on negatives) and parses back to v / 10^decimals |
| TokenAmount.FormatIsInjective | internal/metadata/token_amount.go:8-76 | different amounts never look the same |
| TokenAmount.NilReadsZero | internal/metadata/token_amount.go:12-14 | a nil amount is written as zero is |
| TokenAmount.PaddedUnique | internal/metadata/token_amount.go:29-56 | the zero-padded digits are the only digit run of that value long enough to split, without a superfluous leading zero |
| Ledger.Blockchain.ProcessTransaction | internal/domain/blockchain.go:153-180 | rejects with the first failing check and changes nothing; an accepted transfer lowers the sender by the value, raises the receiver by it modulo 2^64, from zero without an account, and touches no other account; a self-transfer changes no balance |
| Ledger.Blockchain.ProcessBlock | internal/domain/blockchain.go:182-216 | a block is applied whole and appended, each account ending with what it had plus received less sent, or its first failing transaction's error is returned and nothing changes |
| Ledger.FirstFailureDecides | internal/domain/blockchain.go:182-216 | a rejected block's error is that of its first failing transaction on the ledger left by those before it |
| Ledger.TransactConservesIff | internal/domain/blockchain.go:153-180 | an accepted transaction keeps the total exactly when it is a self-transfer or the receiver's balance can take the value within 64 bits |
| Ledger.BlockConserves | internal/domain/blockchain.go:182-216 | an accepted block keeps the total, settles every account as unbounded sums, and its hashes are distinct and new |
| Ledger.EveryRunConservesMoney | internal/domain/blockchain.go:153-216 | with an initial total within 64 bits, any sequence of calls keeps the total, leaves each account what it had plus received less sent without any wrap, and accepts each hash at most once |
| Ledger.MoneyVanishesBeyond64Bits | internal/domain/blockchain.go:153-180 | with a larger total a credit wraps and the whole total is lost |
| RateLimiter.Limiter.TryTake | internal/ethereum/rpc_resilience.go:239-260 | the bucket is filled up to the burst for the time passed, unless the clock stepped back; a grant takes exactly one token and is given whenever one is there, and a refusal takes none and names the time the missing part needs |
| RateLimiter.Limiter.Wait | internal/ethereum/rpc_resilience.go:239-260 | exactly one token is taken on success and none otherwise; it stops early only when the context ends |
| RateLimiter.TokensAreServed | internal/ethereum/rpc_resilience.go:239-260 | while no time passes, n requests are granted exactly min(n, whole tokens there), each for one token |
| RateLimiter.FullBucketGrantsBurst | internal/ethereum/rpc_resilience.go:228-260 | a full bucket grants as many callers at once as its burst says |
| RateLimiter.AccountIsExact | internal/ethereum/rpc_resilience.go:239-260 | where the cap is not reached, tokens left plus grants equal what was there plus the inflow |
| RateLimiter.TokensAreAccounted | internal/ethereum/rpc_resilience.go:239-260 | over any readings, tokens left plus grants never exceed what was there plus the inflow |
| RateLimiter.GrantsAreBounded | internal/ethereum/rpc_resilience.go:228-260 | in every run, with any callers and a clock that may step back, grants over any stretch are at most burst + rate times the elapsed limiter time |
| RateLimiter.SleepingTheDelayGrantsIff | internal/ethereum/rpc_resilience.go:239-260 | a refused caller is granted next, if no other caller came first, exactly when it has slept the computed delay: it suffices and nothing shorter does |
| RateLimiter.TruncatedSleepAlmostGrants | internal/ethereum/rpc_resilience.go:252-258 | after a sleep cut to whole nanoseconds the caller is granted, or has less than a nanosecond left to wait |
| Retry.Backoff | internal/ethereum/rpc_resilience.go:183-205 | the doubling loop yields min(initial * 2^(k-1), max) for every attempt k, with no 64-bit overflow |
| Retry.DelaysDouble | internal/ethereum/rpc_resilience.go:183-205 | the first delay is the initial one and each next is twice the one before, capped |
| Retry.Jittered | internal/ethereum/rpc_resilience.go:195-204 | the sleep stays within (1 - j) and (1 + j) times the delay, up to the truncation, and in the int64 range, wherever the conversion to a duration is defined |
| Retry.JitterOverflows | internal/ethereum/rpc_resilience.go:195-204 | a policy that passes validation whose jittered delay exceeds int64, so that the conversion overflows |
| Retry.EveryDrawFitsIff | internal/ethereum/rpc_resilience.go:195-204 | no random draw overflows exactly when there is no jitter or delay * (1 + j) is at most 2^63 |
| Retry.EveryWaitFitsIff | internal/ethereum/rpc_resilience.go:31-48 | the configurations in which no wait overflows: a single attempt, no jitter, or a longest delay that stays within 2^63 under full jitter |
| Retry.Execute | internal/ethereum/rpc_resilience.go:129-172 | stops at the first conclusive attempt within maxAttempts calls; requests and retries are counted exactly and differ by 0 or 1; one failure is recorded exactly when a non-context error is returned; the final return is never reached |
| Retry.ConclusionIsUnique | internal/ethereum/rpc_resilience.go:129-172 | at most one attempt and one result fit that description, so it determines the result |
| MetadataCache.StepIsTruthful | internal/metadata/token_metadata_service.go:33-121 | every interleaved step of every caller, for addresses in any spelling, keeps rows, cache and results in agreement with the fetcher |
| MetadataCache.EveryRunIsTruthful | internal/metadata/token_metadata_service.go:33-121 | in every state of every interleaving each row, cached entry and success agrees with the fetcher, and only successes cache anything |
| MetadataCache.PrefixKeepsKey | internal/ethereum/ethereum_metadata.go:81-153 | the fetcher reports an address under the caller's key exactly when the address was given with its 0x prefix |
| MetadataCache.UnprefixedLosesItsRow | internal/metadata/token_metadata_service.go:33-121 | from any start, a call with an unprefixed, unstored address can run to success and leave its cached entry without a row |
| MetadataCache.CacheIsBackedIff | internal/metadata/token_metadata_service.go:33-121 | every run from a start keeps each cached entry backed by its row exactly when each caller's address has the prefix, is no hexadecimal address, or has its row already |
| MetadataCache.LaterCallsHitTheCache | internal/metadata/token_metadata_service.go:33-121 | once a call for a key has succeeded, a call for it that starts later never loads or fetches |
| MetadataCache.LoadAfterSave | internal/store/postgres_token_metadata.go:26-156 | a saved row is loaded under every case of its address and no other row changes |
| MetadataCache.TokenMetadataService.GetTokenMetadata | internal/metadata/token_metadata_service.go:33-121 | succeeds exactly from cache, row, or a saved fetch, in that order; a success agrees with the fetcher and is cached, a failure caches nothing, only the fetched token's row is ever written, and a safe address keeps every entry backed |

## Left out

- ConcurrentIndexer: modelled as a step system over values, not as an object; the loop and channels of the source are its steps.
- Recovery.RecoveryConverges: the cycles are the sequential specification and every call succeeds; `Rebuilding.RunsRebuildTheChain` is the statement for the worker pool, failing calls and crashes.
- Pagination.WalkIsStable: covers commits between page reads, not a rollback; rollbacks happen at start-up, before the API serves.
- Pagination.ListTransfers: the encoded cursor is an abstract value, and the reader's checks that a block number is not negative and that a value parses are left out, because no stored row fails them.
- Retry.Jittered: real arithmetic, so the rounding of the floating-point product is not modelled; what the conversion yields on overflow is left open, since the language does not define it.
- RateLimiter.Limiter.Wait: the readings are given, so how long a sleep takes is not part of its contract; floating-point rounding is not modelled.
- MemoryStore.StoresAgreeAlongRuns: compares checkpoint and hashes only, because EnsureIndexedBlock of the memory store replaces an entry by a bare one without its transfers; ranges start at or below checkpoint + 1, as start-up makes them, and blocks fit the columns.
- MetadataCache.EveryRunIsTruthful: the token's answers do not change over time, and a checksum changes the case of the digits only.
- ContinuousIndexer.TicksAreConsecutive: blocks committed in a range that later fails are not handed to the handler, as in the source, so the clause about the final checkpoint holds for cycles without error; the cycle is the sequential specification, and `Lifetimes.HandlerSeesEveryBlock` is the statement for the worker pool.
- ContinuousIndexer.ContinuousIndexer.Run: the branch without a handler and the check of the poll interval are not modelled; whether a failure stems from cancellation is an input.
- PostgresStore.PostgresBlockPersistence.EnsureIndexedBlock: a number beyond BIGINT is refused here, where the source would record it under a negative number; only loaded checkpoints are passed, and those fit.
- Ledger: maps are values, so that copyBalances and copyProcessedTransactions copy is built in; getters and printing are left out.
- SequentialIndexer.CommitNext: a parent or expected hash that is empty skips the check in the source; the world has no empty hashes, so that branch is modelled but never taken above a stored block.
- PostgresCheckpointStore.Save, PostgresBlockTransferStore.SaveBlock and MemoryCheckpointStore.Save: not used by the indexers; they could move a checkpoint without history.
- HTTP handlers, middleware, metrics, profiling, configuration loading and the process life cycle: plumbing with easy properties.
- Error texts and wrapping: outcomes carry the failing block and the category of the cause; which library errors are retryable is an input.
- ABI decoding, Keccak and address checksums, log topic matching, SQL text, secondary indexes and time stamp columns.
- The service's short retry loop around ProcessBlock: it would add an easier copy of the retry core.

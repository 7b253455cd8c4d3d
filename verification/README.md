# Hemera indexer: a verified model

Hemera reads an EVM chain block by block. A sync loop hands block ranges to a set of
jobs, the jobs collect and reduce what they need on a thread pool, and exporters write
the result to tables that the same blocks may reach again. This project models the
parts of that machinery that are hard to get right and proves what they are for.
`dafny verify dfyconfig.toml` checks everything.

| file | component |
|---|---|
| `TraceRows`, `TraceOrder`, `TraceAddress`, `TraceTree`, `TracePrune` | call traces: flattening to rows, the order and spelling of addresses, regrowing the tree on the heap, cutting out delegate proxies |
| `JobScheduling` | which jobs a run needs, and in which order they run |
| `Tables`, `Balances`, `TokenIds` | chunked inserts and upserts; the current-balance view; token id details under replay |
| `BatchExecution`, `ExecutorRuns` | the batch executor and its bounded pool as a state machine; why its runs change the batch size, retry and fail |
| `StreamSync` | the sync loop with its recorder, over restarts |
| `FilterPushdown` | log filters turned into queries and one predicate |
| `ExceptionRecording` | the exception recorder's queue, drained under two locks |
| `PoolPrices`, `TokenTransfers`, `HashJoin`, `Deposits` | Uniswap pool prices, token transfers, joins by key, bridge deposits |
| `Common`, `Grouping` | lexicographic order and stable sort; grouping by key |

How the model is built:

- Objects whose methods change fields are classes with those fields; the trace tree is
  built and pruned on real heap nodes, so that shared dictionaries can be told from
  separate ones. Loops are methods with loops, proved against functions; what the
  source promises is then proved of those functions.
- Threads are state machines. One step is one read, write, lock operation or handler
  call, and every interleaving is a run.
- RPC answers, clocks, exceptions, the order in which workers deliver and the points at
  which a database fails are parameters. An exception is a `None` or `false` result.
- Addresses, hashes and timestamps are opaque numbers or strings. Python integers are
  unbounded, as Dafny's are.

Where the code does not do what one would expect of it, the code is modelled and the
exact condition under which it does is proved:

- A normal return of the executor means that every item was handled exactly if
  `max_retries` is at least one; with zero it swallows failures
  (`ReturnMeansSuccessIffRetrying`).
- Pruning a call tree twice changes it again exactly if a surviving node's only call was
  a proxy (`PruningTwice`).
- Retries of failed balance exports restore the view in every run exactly if key and block
  determine a row (`RetriesRestoreTheViewIffDetermined`); two token ids of one ERC1155
  contract break that.
- The first row written for a token id decides its URI for good (`FirstWriteDecides`), so
  that mint insert and owner update commute exactly if the token id is there already
  (`LateUriIsLost`).
- Recorder writes strictly increase in every life of the service exactly if the loop gives
  up on every error that a write may raise after it has taken effect
  (`WritesIncreaseIffUnnoticedEnds`).
- An info filter of atomic specifications loses nothing exactly if one of them reads only
  what is there before the receipt, or if it names two recipients and accepts nothing
  (`AtomicFilterLosesNothingIff`); the empty filter loses everything it accepts.
- The length check after a join is right for every left side exactly if the right keys are
  unique (`LengthCheckIsExactIffKeysAreUnique`).
- The emitted pool value records, unlike the stored prices, do not depend on how the work
  was split exactly if no pool has two counted records (`SplitIsInvisibleIffPoolsDiffer`).
- The two deposit decoders agree exactly on creation bytes 0 and 1 (`DecodersAgree`).
- What a run buffers depends on its range alone exactly if nothing was left in the shared
  buffer; workers that outlive a failed run can leave something
  (`StreamDispatcher.Run`).

## Model

| member | source | states |
|---|---|---|
| TraceRows.ExtractTraces.GethTraceToTraces | indexer/jobs/export_traces_job.py:92-102 | The rows of a block are, transaction by transaction, the preorders of its call trees, each numbered from zero |
| TraceRows.ExtractTraces.IterateTransactionTrace | indexer/jobs/export_traces_job.py:104-160 | The recursion with its shared counter returns the preorder of the call tree and leaves the counter exactly the number of calls further |
| TraceRows.RowsDescribeCalls | indexer/jobs/export_traces_job.py:104-160 | A path leads to a row if and only if it leads to a call, and that row has the call's payload, kind, number of calls, status and this path as its address |
| TraceRows.FlattenedTreeIsAddressed | indexer/jobs/export_traces_job.py:146-158 | Every node of the flattened tree is stored under its own path |
| TraceRows.KindIsRecoverable | indexer/jobs/export_traces_job.py:112-122 | Trace type and call type together determine the kind of call, but for the two spellings of self-destruction |
| TraceRows.RowTypesByKind | indexer/jobs/export_traces_job.py:112-122 | The four kinds of call have trace type "call" and their own kind as call type; self-destruction becomes "suicide" and any other kind keeps its name, both without a call type |
| TraceRows.RowsAreNumbered | indexer/jobs/export_traces_job.py:106-110 | The rows of a transaction are numbered without gap or repetition in preorder |
| TraceRows.TransactionsAreNumbered | indexer/jobs/export_traces_job.py:92-102 | Each further transaction of a block adds exactly as many rows as it has calls, numbered from zero, behind the rows of the earlier ones |
| TraceRows.SortRestoresChainOrder | indexer/jobs/export_traces_job.py:68-69 | In whatever order workers deliver the rows of any number of blocks, the sorted buffer has them block by block, transaction by transaction, each in preorder |
| TraceOrder.SortedAddressesAreInTreeOrder | common/utils/web3_utils.py:147-156 | For the addresses of any tree, lexicographic order is enough for every insertion to extend `calls` by at most one |
| TraceOrder.PreorderIsTreeOrder | indexer/jobs/export_traces_job.py:146-158 | Preorder is strictly increasing in lexicographic order, reaches exactly the paths of the tree, and lets the builder insert one node at a time |
| TraceOrder.PreorderAddresses | indexer/jobs/export_traces_job.py:146-158 | The stored addresses, read in preorder, are the paths of the tree in that order |
| TraceOrder.QueryReturnsPreorder | api/app/db_service/traces.py:6-18 | Ordering by address returns the preorder, in whatever order the rows were stored |
| TraceAddress.ParseInvertsText | api/app/explorer/routes.py:813 | The text that the explorer writes for an address parses back to the same list of integers |
| TraceAddress.TextLooksLike | api/app/explorer/routes.py:813 | The text is the list in braces, with a comma and a blank between numbers |
| TraceTree.FillCalls | common/utils/web3_utils.py:151-152 | Filling `calls` appends one new dictionary as often as needed; more than one place to fill makes it shared |
| TraceTree.BuildTree | common/utils/web3_utils.py:142-166 | The grown structure is a tree of distinct nodes, with the rows' addresses and their ancestors and each row in its place, if the rows come in tree order, and contains a shared dictionary if they do not; it fails exactly on addresses that are not integers |
| TraceTree.RowsGrowTheTree | common/utils/web3_utils.py:142-163 | The flattened rows of any tree come in tree order and grow back that tree, row by row |
| TraceTree.RowsBuildTheTree | common/utils/web3_utils.py:147-163 | What is built on the heap from rows in tree order is the tree they grow, every node a dictionary of its own |
| TracePrune.PruningIsAFilter | common/utils/web3_utils.py:116-125 | The preorder of the pruned tree is the preorder of the tree without the rows of exactly the nodes whose one call is a delegatecall |
| TracePrune.PruningKeepsLeaves | common/utils/web3_utils.py:116-125 | The calls without calls stay, from left to right |
| TracePrune.ProxiesAreDelegations | indexer/jobs/export_traces_job.py:112-158 | A node of the flattened tree is a proxy to the pruning if and only if its call has exactly one call, and that of kind DELEGATECALL |
| TracePrune.PruningCutsDelegations | common/utils/web3_utils.py:116-125 | From the node's answer to the pruned tree: the payloads that survive flattening and pruning are, in preorder, those of the calls that do not merely delegate |
| TracePrune.PruningTwice | common/utils/web3_utils.py:116-125 | Pruning again changes nothing if and only if no surviving node had a delegate proxy as its only call |
| TracePrune.PruneDelegates | common/utils/web3_utils.py:116-125 | Pruning in place terminates, yields an unshared copy of the pruned tree out of the nodes it got, and raises KeyError exactly if an only call has no row |
| TracePrune.GetDebugTraceTransaction | common/utils/web3_utils.py:115-166 | On rows in tree order the whole function returns an unshared copy of the pruned tree they grow; it raises exactly if an address is not a list of integers or an only call has no row |
| TracePrune.CallTreesAreReadable | common/utils/web3_utils.py:115-166 | On the rows of a call tree neither exception can occur |
| TracePrune.StoredRowsReachTheExplorer | api/app/explorer/routes.py:795-821 | From the debug node to the explorer: stored in any order, queried by address, written as text and parsed, the rows are those the builder needs |
| JobScheduling.JobScheduler.constructor | indexer/jobs/job_scheduler.py:91-101 | The registered table lists exactly the producers of each type |
| JobScheduling.JobScheduler.GetRequiredJobClasses | indexer/jobs/job_scheduler.py:143-153 | The worklist ends with the least set of jobs closed under producing a wanted or depended-on type |
| JobScheduling.JobScheduler.ResolveDependencies | indexer/jobs/job_scheduler.py:155-180 | The result is a duplicate-free permutation of the required jobs in which every producer precedes its consumers; it fails if and only if they have a cycle, self-loops included |
| JobScheduling.ScheduledJobsHaveNoCycle | indexer/jobs/job_scheduler.py:177-180 | A schedule excludes a cycle |
| JobScheduling.StuckHasACycle | indexer/jobs/job_scheduler.py:169-178 | If the sort stops early, the jobs left over wait for each other in a cycle |
| JobScheduling.JobScheduler.InstantiateJobs | indexer/jobs/job_scheduler.py:103-134 | With the blocks job in front, once, every job still comes after all producers of what it reads |
| JobScheduling.JobScheduler.SetUp | indexer/jobs/job_scheduler.py:65-69 | Setting up fails exactly if the needed jobs form a cycle, and otherwise lists them and the blocks job in an order in which producers come first |
| JobScheduling.JobScheduler.RunJobs | indexer/jobs/job_scheduler.py:136-141 | Jobs run in that order: all of them, or exactly those before the first that fails |
| Tables.InsertAllAppend | indexer/exporters/postgres_item_exporter.py:43-57 | Chunks of do-nothing inserts leave what one statement would leave |
| Tables.UpsertAllAppend | indexer/exporters/postgres_item_exporter.py:43-50 | The same for upserts |
| Tables.InsertAllAt | indexer/exporters/postgres_item_exporter.py:53-57 | Do-nothing inserts keep the row that is there; otherwise the first row of a key wins |
| Tables.UpsertAllAt | indexer/exporters/postgres_item_exporter.py:45-51 | If no key comes twice, an upsert treats each key on its own |
| Tables.OnConflictDoUpdate | indexer/exporters/postgres_item_exporter.py:75-92 | The updated columns are those of the table that the domain class knows and that are not in the primary key |
| Tables.PgTable.ExportDoNothing | indexer/exporters/postgres_item_exporter.py:53-57 | A chunked export ends at the first chunk of 10000 rows at which the database fails, exactly if there is one, and leaves the effect of the rows before it |
| Tables.PgTable.ExportDoUpdate | indexer/exporters/postgres_item_exporter.py:45-51 | The same for upserts, where a chunk with a repeated key fails as well |
| Balances.DistinctCollectionsByGroup | indexer/utils/utils.py:162-173 | One row per holder and token, the first of those with the greatest block |
| Balances.BestIsGreatest | indexer/jobs/export_token_balances_job.py:92-111 | The reduced row has the greatest block of its key and is the row that the history insert keeps for that block |
| Balances.MergeReplaces | common/models/current_token_balances.py:25-35 | An update that passes the guard replaces the whole row |
| Balances.KeysIdentify | common/models/token_balances.py:25 | Current rows are told apart by holder and token, history rows by the block as well |
| Balances.ExportKeepsViewAt | common/models/current_token_balances.py:25-35 | A complete export, of any blocks, also repeated or with ties, keeps the current row equal to the history row at its key's greatest block |
| Balances.ViewHoldsInEveryState | indexer/jobs/export_token_balances_job.py:92-111 | In every state reached by complete exports in any order the current table has a row for a key if and only if the history has, and it is the history row at the greatest block |
| Balances.RetriesRestoreTheView | indexer/exporters/postgres_item_exporter.py:43-63 | Exports may fail between any two commits; once the failed rows have been exported again the view holds, if key and block determine a row |
| Balances.TiesBreakRetries | common/models/token_balances.py:25-35 | For any two different rows with one key and block, a first attempt that stops after the history insert and a retry that meets them in the other order leave the view wrong |
| Balances.RetriesRestoreTheViewIffDetermined | indexer/exporters/postgres_item_exporter.py:43-63 | In every run over the rows of a chain every completed export leaves the view right, if and only if key and block determine the rows of the chain |
| Balances.ExportTokenBalancesJob.Process | indexer/jobs/export_token_balances_job.py:92-111 | The buffer is sorted by block, with no balance lost or added, and reduced to one best row per holder and token |
| Balances.ExportTokenBalancesJob.Export | indexer/exporters/postgres_item_exporter.py:25-66 | The export is a complete one, or one that stopped between two commits with the history first; it is complete exactly if the database fails at no chunk of either table |
| TokenIds.UpdateLeavesUri | indexer/exporters/postgres_item_exporter.py:83-86 | An update sets owner, block and timestamp and leaves the token URI |
| TokenIds.KeysIdentify | common/models/erc721_token_id_details.py:25 | Rows are told apart by token and token id |
| TokenIds.SuppliesMergeAsOwners | common/models/erc1155_token_id_details.py:12-39 | An update of an ERC1155 supply treats its row as an update of an ERC721 owner does |
| TokenIds.UpdatesLeaveTheGreatest | common/models/erc721_token_id_details.py:36-41 | Guarded upserts in any order leave the later of the row that was there and the update with the greatest block |
| TokenIds.ReplaysConverge | common/models/erc721_token_id_details.py:36-41 | The same updates in any order and number turn the same table into the same table, if key and block determine an update |
| TokenIds.LastOfEachGroup | indexer/jobs/export_token_id_infos_job.py:134-148 | The last of each group of the sorted list is the update with the greatest block, and no token id comes twice |
| TokenIds.ReducingLosesNothing | indexer/jobs/export_token_id_infos_job.py:126-148 | Exporting the reduced updates has the effect of all of them one by one |
| TokenIds.RunsConverge | indexer/jobs/export_token_id_infos_job.py:126-148 | Runs over the same updates end in the same table, however they were batched, ordered and repeated |
| TokenIds.InsertsComeTooLate | common/models/erc721_token_id_details.py:28-42 | Once a token id has a row, mint inserts do nothing to it: the updates alone decide, and the URI stays |
| TokenIds.FirstWriteDecides | common/models/erc721_token_id_details.py:28-42 | After any mixture of mint inserts and guarded updates the row is the first one written with the later updates applied, and has the URI of that first row |
| TokenIds.LateUriStaysLost | common/models/erc721_token_id_details.py:28-42 | An update that comes before the mint row keeps the URI out, whatever inserts and updates follow |
| TokenIds.LateUriIsLost | common/models/erc721_token_id_details.py:28-42 | Inserting the mint row and updating commute if and only if the token id is there already |
| TokenIds.ExportTokenIdInfosJob.Process | indexer/jobs/export_token_id_infos_job.py:126-148 | Sorting and grouping leave exactly one greatest update per token id |
| TokenIds.ExportTokenIdInfosJob.Export | indexer/exporters/postgres_item_exporter.py:45-51 | The statement never carries a primary key twice, so the export is complete exactly if the database fails at no chunk, and otherwise leaves the effect of a prefix |
| BatchExecution.StepKeepsInv | indexer/executors/batch_work_executor.py:49-145 | Every step of the submitting thread and of every worker keeps the invariant of the executor |
| BatchExecution.BatchSizeStaysInRange | indexer/executors/batch_work_executor.py:89-109 | Whatever the races on it, the batch size stays between 1 and its maximum |
| BatchExecution.CallsAreBounded | indexer/executors/batch_work_executor.py:62-86 | No item is in more than one plus `max_retries` handler calls |
| BatchExecution.BatchesAreTheInput | indexer/utils/utils.py:108-118 | The submitted batches, one after the other, are the work list up to where it has been submitted, and all of it once the executor waits |
| BatchExecution.ReturningMeansAllSucceeded | indexer/executors/batch_work_executor.py:111-131 | A normal return means that every item was in a successful handler call, given at least one retry |
| BatchExecution.ReturnMeansSuccessIffRetrying | indexer/executors/batch_work_executor.py:134-145 | That holds if and only if `max_retries` is at least one: with zero, some run over every non-empty work list returns normally although not every item was handled |
| BatchExecution.PermitsAreKept | indexer/executors/bounded_executor.py:13-28 | Free permits and unreleased submissions add up to the bound in every reachable state, a failing submission included, and a blocked submitter has a task to wait for |
| ExecutorRuns.BatchSizeChangesForAReason | indexer/executors/batch_work_executor.py:62-109 | In every run a change of the batch size comes from one task, without custom splitting: to half its length, when its call failed retriably and the size it then read was its length, or to twice its length, when its call succeeded and the clock it then read was more than 120 seconds after the time of the last change it read |
| ExecutorRuns.FailureLeadsToHalving | indexer/executors/batch_work_executor.py:89-96 | After a retriable failure the next steps of the task read the size and, if it is its own length and above one, write half of it and the time |
| ExecutorRuns.SuccessLeadsToDoubling | indexer/executors/batch_work_executor.py:98-109 | After a success of at most half the largest size the next steps read clock and last change and, if that is more than 120 seconds ago, write twice the length and the time on the clock |
| ExecutorRuns.ChangesAreFinished | indexer/executors/batch_work_executor.py:62-109 | No task ends before such a change and its time are written |
| ExecutorRuns.TimeChangesAfterTheSize | indexer/executors/batch_work_executor.py:89-109 | The time of the last change is only written by a task that has written the size, and was on the clock at a step of that task |
| ExecutorRuns.BatchesHaveTheSizeRead | indexer/utils/utils.py:108-118 | A batch has as many items as the batch size was when it was begun, or the last items of the work list |
| ExecutorRuns.RetriesAreSingle | indexer/executors/batch_work_executor.py:70-84 | A failed batch is retried one item at a time, a custom one as a whole |
| ExecutorRuns.TasksFailForAReason | indexer/executors/batch_work_executor.py:62-86 | A task fails if and only if its first call ends in an exception that is not retriable, or a retry does, or the last retry fails |
| ExecutorRuns.ChecksAreComplete | indexer/executors/batch_work_executor.py:126-131 | While the executor waits, what it still has to look at is what it has not seen succeed |
| ExecutorRuns.RaisingHasAReason | indexer/executors/batch_work_executor.py:126-131 | The executor raises only if some task has failed or a submission has |
| StreamSync.ChainIsAnInterval | indexer/controller/stream_controller.py:69-84 | Ranges that each start no further than one past what has been reached cover an interval without gap |
| StreamSync.LifeIsSafe | indexer/controller/stream_controller.py:55-120 | Over any number of processes with any settings, with failing dispatches and writes and a head that goes back, the dispatched blocks are one interval and the recorded block never lies beyond it |
| StreamSync.DispatchGoesAsFarAsItMay | indexer/controller/stream_controller.py:125-129 | A dispatched range starts behind the last synced block and ends at the first of the head, the end block and the full step |
| StreamSync.IterationMovesIff | indexer/controller/stream_controller.py:63-84 | An iteration dispatches, writes and moves on if and only if the node is ahead, the end block is not reached, and nothing fails before; its error is the first failure, and otherwise it leaves everything as it is |
| StreamSync.FirstRangeStarts | indexer/controller/stream_controller.py:56-58 | The first range that a process adds starts right behind the block it started from |
| StreamSync.ProcessStaysInBounds | indexer/controller/stream_controller.py:60-84 | No dispatch of a process is longer than its step or goes beyond its end block, and what was dispatched before stays |
| StreamSync.WriteIncreasesIffAhead | indexer/controller/stream_controller.py:63-84 | A write is above all earlier ones if and only if the target computed for it is above the recorded block, which it is unless a write has taken effect unnoticed |
| StreamSync.WritesIncrease | indexer/utils/sync_recorder.py:41-81 | Recorder writes strictly increase over all processes, if no process goes on after a write that took effect unnoticed |
| StreamSync.WritesIncreaseIffUnnoticedEnds | indexer/controller/stream_controller.py:82-116 | Recorder writes strictly increase in every possible life if and only if the loop gives up on every error that a write may raise after taking effect, or can never write |
| StreamSync.StepsIsCeiling | indexer/controller/stream_controller.py:125-129 | The number of steps is the distance divided by the step size, rounded up |
| StreamSync.LoopTerminates | indexer/controller/stream_controller.py:60-116 | With an end block, positive steps and a head that is far enough, the loop ends within `max_retries` iterations per step, at the end block or by raising |
| StreamSync.FailuresExhaustPatience | indexer/controller/stream_controller.py:86-112 | Polls that fail with the same error raise at once if it is crashable or not retriable, or none of Hemera's and such errors are not retried, and otherwise at exactly the failure that makes `max_retries` in a row; nothing is dispatched meanwhile |
| StreamSync.SuccessForgetsFailures | indexer/controller/stream_controller.py:113-116 | An iteration without an exception resets the count of failures |
| StreamSync.ReturnsOnlyAtTheEnd | indexer/controller/stream_controller.py:60-116 | The loop returns only at or behind its end block, and never without one |
| StreamSync.SyncRecorder.SetLastSyncedBlock | indexer/utils/sync_recorder.py:41-68 | A write that fails leaves the recorded block, one that raises afterwards has changed it |
| StreamSync.StreamController.SyncOnce | indexer/controller/stream_controller.py:63-84 | The `try` block does to the loop variables and the recorder what the proofs about runs assume |
| StreamSync.StreamController.Handle | indexer/controller/stream_controller.py:86-116 | The handlers decide whether to raise, and count or reset the retries |
| StreamSync.StreamController.DoStream | indexer/controller/stream_controller.py:55-120 | The loop's outcome, iteration count and effect on the recorder are those of the run for the same events; the first range starts at the given block or behind the recorded one |
| FilterPushdown.QueryIsSpecification | indexer/specification/specification.py:83-103 | On normalised addresses the `eth_getLogs` query (EIP-1474, section eth_getLogs) selects what the specification selects |
| FilterPushdown.AndOfMore | indexer/specification/specification.py:9-49 | The empty conjunction holds, and one more member is one more condition |
| FilterPushdown.OrOfMore | indexer/specification/specification.py:9-49 | The empty disjunction does not hold, and one more member is one more possibility |
| FilterPushdown.AtomsMean | indexer/specification/specification.py:52-111 | What each atomic specification asks of sender, recipient, hash, and the first ten characters of the input |
| FilterPushdown.TopicsMean | indexer/specification/specification.py:83-95 | A topic specification asks for one log with one of its topics first and one of its addresses, and of either only if it names any |
| FilterPushdown.LogFilterIsExact | indexer/specification/specification.py:114-128 | A log filter lets through exactly the transactions it accepts, although the receipts come later |
| FilterPushdown.ReceiptFreeIsStable | indexer/specification/specification.py:9-80 | A specification that reads nothing the receipt fills in says the same before and after |
| FilterPushdown.FallingAndRising | indexer/specification/specification.py:9-111 | Filling in a receipt cannot make a falling specification true nor a rising one false; negation swaps the two |
| FilterPushdown.AcceptedIsLetThrough | indexer/specification/specification.py:114-139 | A filter lets through what it will accept, if it is a log filter or has one specification that the receipt cannot make true |
| FilterPushdown.InfoFilterKeepsIffNotEmpty | indexer/specification/specification.py:131-139 | An info filter of any receipt-free specifications loses nothing if and only if it is not empty |
| FilterPushdown.AtomicFilterLosesNothingIff | indexer/specification/specification.py:131-139 | An info filter of atomic specifications loses nothing if and only if one of them is receipt-free or two of them name different recipients |
| FilterPushdown.PushMeans | indexer/jobs/export_blocks_job.py:55-69 | The specification built up by a run is satisfied exactly by what satisfied the first one or is let through by some filter |
| FilterPushdown.SkippedBlocksAreEmpty | indexer/jobs/export_blocks_job.py:70-72 | A block that no query found has no transaction to choose |
| FilterPushdown.BlocksAreAskedForIff | indexer/jobs/export_blocks_job.py:70-72 | A filtering run with log filters only asks for a block if and only if one of its logs matches one of their queries; every other run asks for all blocks |
| FilterPushdown.UnfilteredRunsCollectAll | indexer/jobs/export_blocks_job.py:46-85 | Without filtering, whatever filters there are, all transactions of the range are collected in chain order |
| FilterPushdown.FilteredRunsCollectWhatPasses | indexer/jobs/export_blocks_job.py:46-85 | With filtering, whatever mix of filters, exactly the transactions are collected that some filter lets through, in chain order |
| FilterPushdown.PushdownIsExact | indexer/jobs/export_blocks_job.py:46-85 | With log filters only, a run collects, in chain order, exactly the transactions of the range whose receipt logs satisfy some filter |
| FilterPushdown.NoFilterLoses | indexer/jobs/export_blocks_job.py:46-85 | For any mix of log filters and info filters with one specification that the receipt cannot make true, and for any filters when the run does not filter, no job loses a transaction that its own filter accepts |
| FilterPushdown.ArrivalOrderIsInvisible | indexer/jobs/export_blocks_job.py:87-89 | Whatever the order in which workers deliver, the sorted buffer is the same |
| FilterPushdown.ExportBlocksJob.PushFilters | indexer/jobs/export_blocks_job.py:52-69 | The loop over the filters builds that specification and the set of found blocks, and fails exactly on unsupported filters and refused queries |
| FilterPushdown.ExportBlocksJob.CollectBatches | indexer/jobs/export_blocks_job.py:78-85 | The buffer grows by what the specification keeps of the arriving transactions |
| FilterPushdown.ExportBlocksJob.Run | indexer/jobs/base_job.py:62-79 | Whether or not a run raises, the predicate is the initial one afterwards; a run that ends adds exactly the collected transactions to the shared buffer, sorted |
| FilterPushdown.StreamDispatcher.Run | indexer/controller/dispatcher/stream_dispatcher.py:42-62 | After a run the buffer holds what late workers of a failed run append, and nothing else; a run buffers what its range alone determines if and only if nothing was left before it |
| ExceptionRecording.StepKeepsInv | indexer/utils/exception_recorder.py:34-67 | Every step of every thread keeps locks, conservation, safety of `get` and the bound of the queue |
| ExceptionRecording.NothingIsLostUnlessAnInsertFails | indexer/utils/exception_recorder.py:48-80 | At every moment the table, the entries held by the draining thread and the queue make up what was logged in that order, if and only if no insert of entries has failed |
| ExceptionRecording.GetNeverBlocks | indexer/utils/exception_recorder.py:53-56 | The drain loop never blocks in `get` |
| ExceptionRecording.QueueStaysShort | indexer/utils/exception_recorder.py:58-67 | The queue has less than 5000 entries whenever no thread is inside, and always less than that plus the number of threads |
| ExceptionRecording.ForcingFlushes | indexer/utils/exception_recorder.py:48-56 | Over every interleaving, when a forced flush is back, all that was logged before it was called has been taken for insertion, in order, and is in the table if no insert of entries has failed |
| ExceptionRecording.UnforcedFlushesAreLarge | indexer/utils/exception_recorder.py:58-67 | Over every interleaving in which nobody forces it, no insert has less than 5000 entries |
| ExceptionRecording.ShortQueuesAreLeft | indexer/utils/exception_recorder.py:58-61 | Logging to a queue below 5000 entries takes no lock, and a thread that finds it short under the lock leaves without an insert |
| ExceptionRecording.SomeoneCanGoOn | indexer/utils/exception_recorder.py:48-67 | The two locks cannot deadlock: while a thread is inside, some thread inside can go on |
| PoolPrices.GroupLogs | indexer/modules/custom/uniswap_v3/export_uniswap_v3_pool_job.py:74-85 | One log per pool, topic and block: the first with the greatest log index, in the order of first appearance |
| PoolPrices.RecordsAreInOrder | indexer/modules/custom/uniswap_v3/export_uniswap_v3_pool_job.py:74-85 | For logs in block order, later records of a pool have later blocks |
| PoolPrices.RecordsCover | indexer/modules/custom/uniswap_v3/export_uniswap_v3_pool_job.py:82-85 | Every log has a record of its pool, topic and block that is not before it |
| PoolPrices.LastIsNewest | indexer/modules/custom/uniswap_v3/export_uniswap_v3_pool_job.py:236-252 | Overwriting within a batch leaves each known pool's newest price |
| PoolPrices.MergeItemsIsMerge | indexer/modules/custom/uniswap_v3/export_uniswap_v3_pool_job.py:122-132 | The guarded merge does not depend on the order of the dictionary |
| PoolPrices.MergeKeepsNewest | indexer/modules/custom/uniswap_v3/export_uniswap_v3_pool_job.py:119-132 | Merging newest prices into newest prices gives the newest prices of both |
| PoolPrices.NewestIsUnique | indexer/modules/custom/uniswap_v3/export_uniswap_v3_pool_job.py:119-132 | The stored prices are determined by what was seen, not by batches or schedules |
| PoolPrices.StoredPricesAreLogs | indexer/modules/custom/uniswap_v3/export_uniswap_v3_pool_job.py:236-252 | Exactly the known pools with swap logs have a stored price, and it has price, block and log index of the last of those logs |
| PoolPrices.SplitIsInvisibleIffPoolsDiffer | indexer/modules/custom/uniswap_v3/export_uniswap_v3_pool_job.py:108-113 | The emitted value records are the same for every split of the records into batches if and only if no pool has two counted records |
| PoolPrices.ExportUniSwapV3PoolJob.UpdatePoolPrices | indexer/modules/custom/uniswap_v3/export_uniswap_v3_pool_job.py:119-132 | The loop under the lock performs the merge |
| PoolPrices.ExportUniSwapV3PoolJob.CollectBatch | indexer/modules/custom/uniswap_v3/export_uniswap_v3_pool_job.py:108-113 | One worker keeps the stored prices the newest of all prices merged so far |
| PoolPrices.ExportUniSwapV3PoolJob.Collect | indexer/modules/custom/uniswap_v3/export_uniswap_v3_pool_job.py:74-106 | For every split into batches, every order of taking the lock and batches tried again item by item, each known pool's stored price is the swap log with the greatest block and log index seen over all runs |
| TokenTransfers.HandleTransferBatch | indexer/domain/token_transfer.py:269-301 | A batch becomes one transfer per id, in the order of first appearance, and none if ids and values differ in number |
| TokenTransfers.BatchTotalIsConserved | indexer/domain/token_transfer.py:280-300 | The transfers of a batch together move what the batch moves (EIP-1155) |
| TokenTransfers.BatchHasEachIdOnce | indexer/domain/token_transfer.py:280-300 | Each id that a batch names has exactly one transfer, of the sum of its values, and there are no others |
| TokenTransfers.TransfersDoWhatTheEventDoes | indexer/domain/token_transfer.py:167-319 | For every account, what it gains by the transfers of a log is what the event gives it; wrapping comes from the zero address and unwrapping goes to it |
| TokenTransfers.LogGivesDistinctTransfers | indexer/domain/token_transfer.py:167-319 | The transfers of a log differ in token id and carry its position and address; exactly those with a token id are ERC1155 |
| TokenTransfers.SingleEventsGiveOne | indexer/domain/token_transfer.py:167-267 | A single event gives one transfer with its value; a plain one has no id and is ERC721 exactly with a third topic or no topics |
| TokenTransfers.ExtractionFailsIff | indexer/domain/token_transfer.py:167-319 | Extraction fails if and only if some log is of a kind that is read and cannot be decoded; such a deposit is skipped |
| TokenTransfers.ExtractedAreDistinct | indexer/jobs/export_tokens_and_transfers_job.py:220-222 | Logs at different places give transfers with different keys |
| TokenTransfers.EveryTokenIsCached | indexer/jobs/export_tokens_and_transfers_job.py:144-173 | Every extracted transfer finds its token in the cache |
| TokenTransfers.TokenIsNewest | indexer/jobs/export_tokens_and_transfers_job.py:144-157 | Each token is described by the first of its transfers with the greatest block |
| TokenTransfers.CacheLearns | indexer/jobs/export_tokens_and_transfers_job.py:158-173 | The cache forgets nothing; a new token is ERC1155 if its transfer is, and otherwise ERC20 exactly if its contract has decimals and answers nothing about token 1 |
| TokenTransfers.RowsKeepTheTransfers | indexer/domain/token_transfer.py:96-121 | A row has the fields of its transfer: with an id in the ERC1155 table with id and value, without one by the cached type, ERC721 with the value as token id, ERC20 and ERC1155 with the value in the ERC20 table |
| TokenTransfers.RowsExistIff | indexer/domain/token_transfer.py:108-121 | Rows fail if and only if a transfer without an id belongs to a token of a type without transfers |
| TokenTransfers.PrimaryKeysIdentify | common/models/erc1155_token_transfers.py:28 | Rows are told apart by table, transaction, block and log index, and by token id among ERC1155 rows only |
| TokenTransfers.RowsHaveDistinctKeys | indexer/domain/token_transfer.py:96-121 | Rows of different transfers have different primary keys, whatever types the cache decides on |
| TokenTransfers.InsertsLoseNothing | common/models/erc1155_token_transfers.py:28-37 | Do-nothing inserts of such rows store each of them, unless its key was there before |
| TokenTransfers.ExportTokensAndTransfersJob.Extract | indexer/jobs/export_tokens_and_transfers_job.py:190-193 | The extracted transfers are those of all logs, or an exception if one cannot be decoded |
| TokenTransfers.ExportTokensAndTransfersJob.GenerateTokenTransfers | indexer/jobs/export_tokens_and_transfers_job.py:195-199 | Each transfer becomes exactly one typed row; it fails exactly if some token has a type without transfers |
| TokenTransfers.ExportTokensAndTransfersJob.Collect | indexer/jobs/export_tokens_and_transfers_job.py:134-188 | A run ends with one row per extracted transfer, or with an exception exactly when extraction, a request or a token type fails; the cache is completed as soon as the token details are there, also if the run then fails |
| TokenTransfers.TransfersAreConserved | indexer/jobs/export_tokens_and_transfers_job.py:134-199 | From logs to tables: one row per transfer, with its origin, all keys different, each stored if its key is new, for every delivery order |
| TokenTransfers.RowsGainWhatTheLogsSay | indexer/jobs/export_tokens_and_transfers_job.py:134-199 | For every account and every delivery order, the rows of the two tables with values add up to what the logs of fungible tokens say it gains |
| HashJoin.HashJoinIsNestedLoop | indexer/utils/enrich.py:9-40 | The hash join yields each projected pair as often as the nested loop does |
| Grouping.GroupsGrow | indexer/utils/enrich.py:24-30 | Keys and the rows of a key stand in the order in which they came |
| Grouping.GroupCounts | indexer/utils/enrich.py:24-30 | A group has exactly the rows of its key, each as often as it came |
| HashJoin.LengthCheckIsExact | indexer/utils/enrich.py:43-91 | With unique right keys the length check passes if and only if every left row has a match |
| HashJoin.RepeatedKeyHidesALoss | indexer/utils/enrich.py:88-89 | For every right side with a repeated key some left side passes the check although a row is lost |
| HashJoin.LengthCheckIsExactIffKeysAreUnique | indexer/utils/enrich.py:43-91 | The length check passes exactly if every left row has a match, for all left sides, if and only if the right keys are unique |
| HashJoin.PairAt | indexer/utils/enrich.py:33-40 | A joined row has a field if and only if one of the lists names it, with the value of the source field; the right list wins |
| HashJoin.DictHasLast | indexer/utils/enrich.py:12-19 | The dictionary of a field list has each source field once, under its last name |
| HashJoin.DictIsInOrder | indexer/utils/enrich.py:12-19 | The dictionary has its source fields in the order in which they are first named |
| HashJoin.LastCounts | indexer/utils/enrich.py:35-38 | Of several copies to one field, or from one, the last one counts |
| HashJoin.FieldListToDict | indexer/utils/enrich.py:12-19 | The loop over a field list builds that dictionary, in the order of first appearance |
| HashJoin.Join | indexer/utils/enrich.py:9-40 | The grouped loops produce the hash join, or an exception exactly if an item lacks its join field |
| HashJoin.Enrich | indexer/utils/enrich.py:43-91 | A result is the nested loop's rows; with unique right keys there is one if and only if every left row has its partner |
| Deposits.Decode0InvertsPack | indexer/modules/bridge/bridge_utils.py:140-167 | Decoding version 0 inverts packing for all field values and payloads (OP Stack specification, Deposits) |
| Deposits.Decode1InvertsPack | indexer/modules/bridge/bridge_utils.py:102-137 | The same for version 1 |
| Deposits.Pack0InvertsDecode | indexer/modules/bridge/bridge_utils.py:140-167 | A payload is the encoding of what it decodes to if and only if its creation byte is 0 or 1 |
| Deposits.EightBytesFit | indexer/modules/bridge/bridge_utils.py:156-157 | The assertion on the gas value can never fail |
| Deposits.FirstByteWeighsMost | indexer/modules/bridge/bridge_utils.py:140-167 | Numbers are read with the most significant byte first |
| Deposits.UnmarshalDepositVersion0 | indexer/modules/bridge/bridge_utils.py:140-167 | The decoder with its running offset cuts the payload where the packing joined it, and fails exactly if it is too short |
| Deposits.UnmarshalDepositVersion1 | indexer/modules/bridge/bridge_utils.py:102-137 | The same for version 1 |
| Deposits.ContentIsFound | indexer/modules/bridge/bridge_utils.py:73-77 | The fixed slices of the event data find the content at any padding |
| Deposits.DecodersAgree | indexer/modules/bridge/bridge_utils.py:73-93 | The hexadecimal and the byte decoder agree on a payload, up to `None` for a mint of zero, if and only if its creation byte is 0 or 1 |
| Deposits.NonceReassembles | indexer/modules/bridge/bridge_utils.py:96-99 | Version and index reassemble every nonce and are the only pair that does |
| Deposits.GetVersionAndIndexFromNonce | indexer/modules/bridge/bridge_utils.py:96-99 | The index is below 2^240, version times 2^240 plus index is the nonce, and no other pair gives it |

## Left out

- TracePrune.GetDebugTraceTransaction: is stated for rows in tree order, which is what the query by address returns; for other rows `BuildTree` says that nodes are shared, and pruning a shared structure is not modelled.
- TraceAddress.ParseInvertsText: `int()` is modelled for blanks and digits only; signs, underscores and other digits of Python's syntax are rejected.
- TraceRows.ExtractTraces.GethTraceToTraces: the trace id text is kept as block, transaction and number; float formatting of values and gas is not modelled.
- JobScheduling.JobScheduler.InstantiateJobs: takes it that the blocks job exists and depends on nothing, as its class says.
- Balances.ExportTokenBalancesJob.Export: the columns `create_time`, `update_time` and `reorg` are not rows' content here.
- Balances.RetriesRestoreTheView: needs rows that key and block determine; `RetriesRestoreTheViewIffDetermined` shows that this is exact.
- BatchExecution.ReturningMeansAllSucceeded: a custom split method is an arbitrary partition of the work list, and handlers are calls with an outcome; a shutdown of the pool and reuse of an executor after a failed future are not modelled.
- StreamSync.LifeIsSafe: a start block given on the command line belongs to a single process (`DoStream`); restarts are those that continue from the recorder.
- StreamSync.WritesIncrease: is stated for processes that end after an unnoticed write, because otherwise it is false; `WritesIncreaseIffUnnoticedEnds` is exact.
- StreamSync.SyncRecorder.SetLastSyncedBlock: whether the write takes effect is a parameter, since the database session and its commit are.
- FilterPushdown.NoFilterLoses: asks of an info filter a specification that the receipt cannot make true; for atomic specifications that is exact (`AtomicFilterLosesNothingIff`), for conjunctions, disjunctions and negations, which no job of the repository puts into a filter, it is sufficient.
- FilterPushdown.ExportBlocksJob.Run: a log filter fails as a whole when the node refuses one of its queries; the block buffer, which is what this job exports, and the hour-to-block map are left out.
- ExceptionRecording.NothingIsLostUnlessAnInsertFails: the recorder without a database, which drops everything, is not modelled.
- PoolPrices.ExportUniSwapV3PoolJob.Collect: takes logs in block order, as the job that collects them leaves them; discovering pools by calls to contracts is a parameter, and a delivery is merged in one piece because it holds the lock.
- TokenTransfers.ExportTokensAndTransfersJob.GenerateTokenTransfers: transfers are values in a list rather than objects changed in place; total supplies and the names of tokens are not modelled.
- TokenTransfers.TransfersAreConserved: the rows are in delivery order; the sort in `_process` looks for a class in a dictionary of names and never runs.
- TokenTransfers.ExportTokensAndTransfersJob.Collect: a failed run leaves the cache behind, so a retry does not export the tokens again; convergence of the `tokens` table is not claimed.
- Deposits.NonceReassembles: is stated for any number of index digits, of which the code uses 60, as the other statements about deposits are for all field widths, of which it uses 32 and 8 bytes.
- Deposits.DecodersAgree: source hashes and the RLP form of the transaction need Keccak and are not modelled.
- HashJoin.Enrich: items without one of the copied fields give `None` for it; the renaming lists of the single callers are parameters.
- ABI decoding, RPC providers, Redis, database sessions, HTTP routes, the command line, logging and file exporters are plumbing or foreign libraries.
- `extract_token_parameters` and the fetching of balances and token details only prepare requests.
- `PostgresItemExporterV2`, `FixingController` and `FixingBlockConsensusJob` are not wired in.
- `internal_transactions_count` counts a group iterator that is already consumed, so there is nothing to state about it.
- `promote_delegate_calls` is never called.

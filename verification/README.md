# Verified core of the trading system

This project models the parts of the trading system that are easy to get subtly wrong, and proves
what they promise for every input, every interleaving and every reachable state.

- **Candle resampling** (`Candles`, `Resampling`, `ResamplingLaws`, `Timeframes`, `SqlCandles`).
  The grouping loop and the grid walk are verified methods. Their result is characterised exactly,
  is independent of row order, never looks past the boundary, merges consistently across
  timeframes, and equals the SQL aggregation of the web API although the two test completeness in
  different ways.
- **Job registry and SSE streams** (`JobRegistry`, `JobProtocol`, `LateFailures`, `WorkerPools`,
  `JobRunner`). The registry object with its retention rule, and a step machine of workers, event-loop
  callbacks and any number of streams, in which scheduling a wakeup may raise. No wakeup is lost,
  streams are faithful, only finished jobs are forgotten, what a raised wakeup can do is exactly
  described, and the single worker thread never finds its own job forgotten.
- **Data jobs** (`DataJobs`). Tasks, the semaphore, handlers and cancellation as a step machine.
- **Evidence pagination** (`Pagination`, `Executions`) and **decimal display** (`Decimals`), from
  the server's query to what the client shows.
- **Canonical forms** (`JsonOrder`, `Literals`, `SeriesResolution`, `Scaffold`): a total order on
  JSON values, an unambiguous literal printer, order-free series resolution, all-or-nothing writes.
- **Planners and monitors** (`Sweep`, `SweepPlan`, `Observability`): the grid of a sweep, and
  runner health as a function of the whole call history.

`Sequences` and `Sorting` hold shared facts about sorted lists, sets and strings.

Times are whole epoch seconds and may be negative. Decimal columns are exact reals and rounding to
floats is the last step. Clocks, the file system, the subprocess and the backtest itself are
parameters: each call that can raise takes its outcome as an argument. Job ids come from `uuid4`, so
the protocol registers an id at most once and names an event by its job.

Where the code does not keep a promise on all inputs, the exact condition is proved:

- A final status of a dry-run job is followed by another one exactly when scheduling the wakeup of its
  SUCCEEDED raised and its handler stored FAILED (`LateFailures.TerminalAbsorbsExactly`).
- With the one permitted worker, a clock that moves on and fewer than 200 jobs that escaped by an
  exception, no update finds its job forgotten, raising wakeups included
  (`WorkerPools.OneWorkerNeverMisses`); with 200 escaped jobs one can (`WorkerPools.EscapesReach`). With
  two live workers an update can still find no entry exactly when its job has not left the path to a
  success whose wakeup may raise (`WorkerPools.MissReachableExactly`). Two pools live at once when a
  shutdown still drains the old one, which it has already unset, and a new event loop starts another.
- A RUNNING data job holds the permit exactly when it was not cancelled (`DataJobs.RunningHoldsPermit`).
  So two can be RUNNING only when one was cancelled (`DataJobs.OverlapNeedsCancel`), and from every
  reachable state with a cancelled RUNNING job at most two more steps make it two
  (`DataJobs.CancellationOverlaps`).
- Rollback of the scaffold restores every file unless the failing write left a part of a new file
  (`Scaffold.Restored`).
- The uniqueness check on sweep axes lets two axes share a target, and then no cell holds both values and
  the order of the axes decides which one it holds (`SweepPlan.UniqueNamesCanClash`, and
  `SweepPlan.LegacyNamesClash` in the legacy branch). All values of a cell read back exactly when every
  two of its assignments have paths that are apart or are the same assignment (`SweepPlan.CellContract`,
  from `Sweep.AllReadBack`).
- Every order of the axes gives the same cell exactly when every two of the assignments that the base and
  the choices call for are apart or the same (`SweepPlan.AxisOrderFree`, from `Sweep.OrderFreeExactly`).
  This is about cells that end with the mode of their base, which every accepted cell does unless a
  deployed mode has all the settings of another (`SweepPlan.AcceptedKeepsMode`,
  `SweepPlan.ShippedSeparate`).
- Rows after the latest complete slot change the outcome only by repeating a time
  (`ResamplingLaws.LateRowsIrrelevant`).
- Series resolution depends on declaration order exactly when two different calculations have one
  sort key (`SeriesResolution.OrderFreeExactly`).
- Pagination skips a row when a page ends between two rows with one cursor
  (`Pagination.SharedCursorLosesRow`); all modelled queries have a unique cursor.

Verify everything with `dafny verify dfyconfig.toml`.

## Model

| member | source | states |
|---|---|---|
| `Candles.SlotHolds` | services/core-lib/core_lib/candles.py:113-116 | A grid slot is the bucket of exactly the times in its half-open interval. |
| `Candles.MaxOfMeaning` | services/core-lib/core_lib/candles.py:160-160 | The high is one of the highs and bounds them all. |
| `Candles.MinOfMeaning` | services/core-lib/core_lib/candles.py:161-161 | The low is one of the lows and bounds them all. |
| `Candles.BuildAppend` | services/core-lib/core_lib/candles.py:131-166 | A candle over concatenated rows is the join of the two candles: first open, extremes, last close, added volume, totals unknown if a part is. |
| `Candles.BuildOne` | services/core-lib/core_lib/candles.py:131-166 | The candle over one row carries exactly the numbers of that row. |
| `Candles.BuildTells` | services/core-lib/core_lib/candles.py:131-166 | A candle has the open of its first row and the close of its last, a high and a low that are those of some row and bound all rows, and the added volumes, quote volumes and trade counts, unknown if one is. |
| `Resampling.GroupRows` | services/core-lib/core_lib/candles.py:54-73 | The grouping loop fails exactly when two rows share a time; otherwise it holds every row under its slot and time. |
| `Resampling.ProgressionSorted` | services/core-lib/core_lib/candles.py:86-91 | The sorted times of a complete bucket are its minutes in order. |
| `Resampling.SlotCandle` | services/core-lib/core_lib/candles.py:85-101 | A slot yields a candle exactly when its times are the expected ones; it is the candle over its rows in time order (what that is in terms of the rows: `Candles.BuildTells`). |
| `Resampling.WalkGrid` | services/core-lib/core_lib/candles.py:80-104 | The while loop visits every slot from the first to the latest complete one, once. |
| `Resampling.ResampleConfirmed` | services/core-lib/core_lib/candles.py:40-104 | The whole run equals the declarative resampling of the rows, duplicate error included (told in terms of the rows alone by `ResamplingLaws.RunTells`). |
| `ResamplingLaws.WalkConserves` | services/core-lib/core_lib/candles.py:80-104 | Candles plus dropped buckets is the number of slots. |
| `ResamplingLaws.WalkExact` | services/core-lib/core_lib/candles.py:84-102 | Candles are grid-aligned, disjoint, increasing; each complete slot gives exactly one. |
| `ResamplingLaws.ExactUnique` | services/core-lib/core_lib/candles.py:84-104 | Those properties determine the list of candles. |
| `ResamplingLaws.RunLaws` | services/core-lib/core_lib/candles.py:75-104 | A run on distinct rows succeeds, is exact and conserves the slots of its range. |
| `ResamplingLaws.RunTells` | services/core-lib/core_lib/candles.py:40-104 | In terms of the rows alone: a run fails exactly on a repeated time; every candle spans one slot of 60 n seconds on the grid, closed by the boundary, with one row per minute and no other, and tells the opens, extremes, closes and totals of those rows; every such slot has its candle, in order; all other slots from the first row to the boundary are counted as dropped. |
| `ResamplingLaws.ClosedByBoundary` | services/core-lib/core_lib/candles.py:75-84 | Every candle closes at or before the boundary. |
| `ResamplingLaws.LateRowsIrrelevant` | services/core-lib/core_lib/candles.py:75-104 | Inputs that agree before the end of the latest complete slot have one outcome exactly when both or neither repeat a time. |
| `ResamplingLaws.LaterBoundaryExtends` | services/core-lib/core_lib/candles.py:75-104 | A later boundary only appends candles and never lowers the drop count. |
| `ResamplingLaws.OrderIndependent` | services/core-lib/core_lib/candles.py:40-104 | The outcome, error included, is the same for every permutation of the rows. |
| `Timeframes.CompleteMeans` | services/core-lib/core_lib/candles.py:86-87 | The expected-times test means: every minute present and no row between minutes. |
| `Timeframes.FineSlotsComplete` | services/core-lib/core_lib/candles.py:84-90 | A complete coarse slot consists of complete fine slots. |
| `Timeframes.JoinAllIsMerge` | services/core-lib/core_lib/candles.py:140-166 | Joining candles one by one is the merge by first, maximum, minimum, last and sums. |
| `Timeframes.BlockJoins` | services/core-lib/core_lib/candles.py:131-166 | The candle over k fine slots is those k candles joined. |
| `Timeframes.CoarseRunMergesFineRun` | services/core-lib/core_lib/candles.py:75-104 | Every candle of a coarse run is the merge of exactly k consecutive candles of the fine run on the same rows and boundary. |
| `Timeframes.PublishedHighMerges` | services/core-lib/core_lib/candles.py:160-160 | Rounding with any monotone function commutes with taking the high of a merge. |
| `Timeframes.PublishedLowMerges` | services/core-lib/core_lib/candles.py:161-161 | The same for the low. |
| `SqlCandles.CountingCompleteness` | services/web-api/web_api/repository.py:894-902 | Row count, minute alignment and endpoints hold together exactly when the times are the expected ones and the bucket closes by the end. |
| `SqlCandles.SumUnlessNullIsTotal` | services/web-api/web_api/repository.py:883-884 | The CASE on non-null counts is the total that is unknown when any part is. |
| `SqlCandles.CountUnlessNullIsTotal` | services/web-api/web_api/repository.py:885-886 | The same for trade counts. |
| `SqlCandles.PublishedIsCandle` | services/web-api/web_api/repository.py:876-938 | A complete aggregated row publishes the candle the program builds for that slot. |
| `SqlCandles.QueryExact` | services/web-api/web_api/repository.py:861-907 | The query lists exactly the complete slots that close by the end, in order. |
| `SqlCandles.QueryMatchesProgram` | services/web-api/web_api/repository.py:846-907 | Before LIMIT the query and the resampling program give the same candles in the same order. |
| `SqlCandles.QueryMatchesRun` | services/web-api/web_api/repository.py:846-907 | On the rows themselves: the query over a window gives the candles of a run on the rows with from <= time < to. |
| `JobRegistry.Registry.constructor` | services/web-api/web_api/jobs.py:72-76 | A new registry is empty. |
| `JobRegistry.Registry.Register` | services/web-api/web_api/jobs.py:78-93 | A known id is refused unchanged; otherwise the old entries are pruned, a QUEUED snapshot created and updated now is stored, at most 200 finished jobs remain, entries and events agree. |
| `JobRegistry.Registry.FinishedStates` | services/web-api/web_api/jobs.py:104-104 | Every finished snapshot is listed exactly once. |
| `JobRegistry.Registry.DropOldestFinished` | services/web-api/web_api/jobs.py:95-111 | Exactly the retention rule: only finished jobs go, the cap is met, none dropped is newer than one kept. |
| `JobRegistry.Registry.Update` | services/web-api/web_api/jobs.py:130-150 | A missing job changes nothing; otherwise one entry gets the status, the update time and the next revision, and keeps its id and creation time. |
| `JobRegistry.Registry.Get` | services/web-api/web_api/jobs.py:113-115 | A snapshot is found exactly when the job has an event, and it is the stored one. |
| `JobRegistry.KeyOrder` | services/web-api/web_api/jobs.py:108-108 | The retention key is a total order: earlier update first, then earlier creation, then the id that comes first in code-point order. |
| `JobRegistry.PrunedUnique` | services/web-api/web_api/jobs.py:95-111 | The retention rule determines which jobs stay. |
| `JobRegistry.DroppingPrunes` | services/web-api/web_api/jobs.py:104-111 | Deleting the first excess entries of the sorted list is the retention rule. |
| `JobRegistry.PrunedExists` | services/web-api/web_api/jobs.py:95-111 | Every registry has a result under the retention rule. |
| `JobProtocol.StoreKeeps` | services/web-api/web_api/jobs.py:130-147 | Storing a snapshot keeps the invariant: every stream it leaves behind has a wakeup coming. |
| `JobProtocol.CallbackKeeps` | services/web-api/web_api/jobs.py:148-150 | Running a scheduled event set resolves every pending future of the event and keeps the invariant. |
| `JobProtocol.SegmentKeeps` | services/web-api/web_api/jobs.py:159-168 | The uninterrupted clear, read, wait segment keeps the invariant although workers store in between. |
| `JobProtocol.StepKeeps` | services/web-api/web_api/jobs.py:78-168 | Every step of workers, loop callbacks, registrations and streams keeps the invariant. |
| `JobProtocol.RunKeeps` | services/web-api/web_api/jobs.py:78-168 | The invariant holds in every state of every run. |
| `JobProtocol.WakeupNeverLost` | services/web-api/web_api/jobs.py:117-168 | In every run, a blocked stream whose job moved on or was forgotten has a wakeup scheduled or about to be, unless the latest attempt to schedule one raised. |
| `JobProtocol.QuiescentIsCurrent` | services/web-api/web_api/jobs.py:152-168 | With nothing scheduled or about to be, every blocked stream whose wakeup did not raise knows the current, unfinished revision. |
| `JobProtocol.DrainDelivers` | services/web-api/web_api/jobs.py:148-168 | After the scheduled callbacks ran, a stream still blocked is up to date, unless its wakeup raised. |
| `JobProtocol.KeepaliveRecovers` | services/web-api/web_api/main.py:718-730 | Even then one keepalive timeout is enough: the stream sends the current snapshot, or ends when the job was forgotten. |
| `JobProtocol.StreamContract` | services/web-api/web_api/main.py:715-730 | Every stream sends strictly increasing revisions the job really had, none after a final status, and ends after one or because a finished job was forgotten. |
| `JobProtocol.RunExtends` | services/web-api/web_api/main.py:715-730 | Along every run nothing a stream sent is revised, an ended stream stays ended, histories only grow and a forgotten job stays forgotten. |
| `JobProtocol.RegistrationPrunes` | services/web-api/web_api/jobs.py:86-111 | After each registration at most 200 finished jobs remain; anything dropped was finished, and 200 jobs at least as recent were kept. |
| `LateFailures.TerminalAbsorbsExactly` | services/web-api/web_api/jobs.py:214-244 | Over every run, a final status is followed by another exactly when scheduling the wakeup of the job's success raised and its handler stored FAILED. |
| `LateFailures.FinalStatusAgrees` | services/web-api/web_api/main.py:717-726 | Two clients told a final status of one job were told the same one, unless the wakeup of its success raised. |
| `LateFailures.RetentionContract` | services/web-api/web_api/jobs.py:78-147 | In every run entries and events agree, only finished jobs are forgotten, and an update without an entry comes from the handler of a job that had stored SUCCEEDED and whose wakeup then raised. |
| `WorkerPools.OneWorkerNeverMisses` | services/web-api/web_api/jobs.py:95-111 | In every run of a pool of one with a clock that moves on and fewer than 200 escaped jobs, no update finds its job forgotten, raising wakeups included. |
| `WorkerPools.EscapesReach` | services/web-api/web_api/jobs.py:298-318 | The bound is sharp: some run of a pool of one with exactly 200 escaped jobs has an update without an entry. |
| `WorkerPools.MissReachableExactly` | services/web-api/web_api/jobs.py:185-203 | For any number of workers a miss can lie ahead only of a job on the way to a success, or whose handler runs after one; for two live workers it does lie ahead of each such job, from any point of any run. |
| `JobRunner.Submit` | services/web-api/web_api/jobs.py:321-330 | Submissions keep every unfinished job and forget finished ones at most. |
| `JobRunner.RunJob` | services/web-api/web_api/jobs.py:214-244 | What one job stores when calls raise and jobs are submitted between its stores: it ends final; only a success with a raising wakeup is overwritten, or missed when the job was forgotten. |
| `DataJobs.DataRegistry.Update` | services/web-api/web_api/data_jobs.py:174-202 | The next snapshot sets the start time once and the finish time exactly on a final status. |
| `DataJobs.AdvanceFits` | services/web-api/web_api/data_jobs.py:183-197 | One more snapshot keeps the life cycle. |
| `DataJobs.EnterKeeps` | services/web-api/web_api/data_jobs.py:380-391 | Taking the permit, storing RUNNING and launching, or failing before it, keeps the invariant. |
| `DataJobs.HolderLeaves` | services/web-api/web_api/data_jobs.py:392-417 | The holder stores a final status on an unfinished job and hands the permit on. |
| `DataJobs.CancelKeeps` | services/web-api/web_api/data_jobs.py:418-431 | Cancellation at any await keeps the invariant. |
| `DataJobs.StepKeeps` | services/web-api/web_api/data_jobs.py:374-471 | Every step of every task, handler and callback keeps the invariant. |
| `DataJobs.HistoryContract` | services/web-api/web_api/data_jobs.py:374-460 | In every run each history is queued; queued, running; queued, failed; or queued, running, final, with exact revisions and timestamps; only final jobs are forgotten. |
| `DataJobs.SucceededExactly` | services/web-api/web_api/data_jobs.py:374-471 | At every moment of every run a job has ended SUCCEEDED exactly when its subprocess was collected with exit code 0. |
| `DataJobs.CollectedEnds` | services/web-api/web_api/data_jobs.py:392-417 | In every run, from the collection of its output on, a job is SUCCEEDED when the exit code was 0 and FAILED otherwise, for good. |
| `DataJobs.RunningHoldsPermit` | services/web-api/web_api/data_jobs.py:380-417 | A RUNNING job holds the permit exactly when its task was not cancelled. |
| `DataJobs.OverlapNeedsCancel` | services/web-api/web_api/data_jobs.py:288-296 | Of two RUNNING jobs at least one was cancelled. |
| `DataJobs.OneAtATime` | services/web-api/web_api/data_jobs.py:288-296 | Without cancellation at most one data job is RUNNING. |
| `DataJobs.CancellationOverlaps` | services/web-api/web_api/data_jobs.py:418-431 | From every reachable state with a cancelled RUNNING job, at most two more steps give a second RUNNING job. |
| `DataJobs.CancelledRunning` | services/web-api/web_api/data_jobs.py:418-431 | Such a state is reached: a cancelled job is RUNNING while its subprocess is being stopped. |
| `Pagination.SelectExact` | services/web-api/web_api/evidence.py:149-206 | The selected rows are exactly the matching ones past the cursor, in strictly increasing cursor order. |
| `Pagination.SelectContinues` | services/web-api/web_api/evidence.py:185-206 | Asking past the p-th cursor gives the rest of the list: no repeat, no gap. |
| `Pagination.PageAt` | services/web-api/web_api/evidence.py:196-219 | A page is the next slice, has_more tells whether rows follow, and the next cursor moves on. |
| `Pagination.AllPages` | apps/web/src/hooks/use-evidence.ts:65-87 | The loop returns a prefix of the matching rows of the largest allowed length, in at most 25 requests, and truncated is true exactly when a row is missing. |
| `Pagination.SharedCursorLosesRow` | services/web-api/web_api/evidence.py:196-210 | Why the cursor must be unique: a row sharing the last cursor of a page is not on the next page. |
| `Executions.GroupMinGroups` | services/web-api/web_api/evidence.py:309-320 | Grouping keeps one entry per execution with its smallest trade. |
| `Executions.JoinOneRow` | services/web-api/web_api/evidence.py:308-321 | The left join gives one row per execution, showing its smallest trade or none. |
| `Executions.OneRowPerExecution` | services/web-api/web_api/evidence.py:299-322 | The joined relation has exactly one row per execution, in order. |
| `Executions.LinksMean` | services/web-api/web_api/evidence.py:311-319 | An execution and a trade are linked exactly when the execution entered or left the trade. |
| `Executions.RowShowsTrade` | services/web-api/web_api/evidence.py:299-321 | In terms of the trades: the row of an execution shows k exactly when k is the smallest id of a trade that it entered or left, and no trade exactly when there is none. |
| `Executions.ExecutionRowsKeyed` | services/web-api/web_api/evidence.py:299-322 | The execution id stays a key after the join. |
| `Executions.AllExecutions` | services/web-api/web_api/evidence.py:273-322 | All pages show, in execution order and with their data and smallest trade, executions that pass the trade filter; truncated is false exactly when all of these are shown; the rows are the longest allowed prefix, at most 5000 in at most 25 requests. |
| `Decimals.Reduce` | services/web-api/web_api/evidence.py:58-59 | The quotient keeps the value and at most the places of the scale, and leaves no trailing zero in the fraction. |
| `Decimals.ServerText` | services/web-api/web_api/evidence.py:58-59 | The decimal text of a stored value matches the client's pattern, has no superfluous leading or trailing zero and stands for the value divided by 10^8. |
| `Decimals.MatchFixed` | apps/web/src/lib/utils.ts:125-129 | The pattern splits sign, integer and fraction. |
| `Decimals.GroupingUndone` | apps/web/src/lib/utils.ts:130-130 | Removing the commas undoes the grouping. |
| `Decimals.GroupsOfThree` | apps/web/src/lib/utils.ts:130-130 | Every group after the first has exactly three digits, the first one to three. |
| `Decimals.DisplayLossless` | apps/web/src/lib/utils.ts:121-131 | Removing the commas from the display gives the server's text, whose value times 10^8 is the stored integer. |
| `Decimals.DisplayInjective` | apps/web/src/lib/utils.ts:121-131 | Different stored values are displayed differently. |
| `JsonOrder.ComparesLikeTypes` | services/trading-plugins/trading_plugins/facts.py:383-398 | Comparing two sort keys never meets unlike types and agrees with the reference order. |
| `JsonOrder.PyOrder` | services/trading-plugins/trading_plugins/facts.py:383-398 | The reference order is total, transitive and antisymmetric. |
| `JsonOrder.EqualKeysSameValues` | services/trading-plugins/trading_plugins/facts.py:383-398 | Keys are equal exactly for values equal up to 1 == 1.0 and member order. |
| `JsonOrder.MembersSorted` | services/trading-plugins/trading_plugins/facts.py:396-397 | Sorting the items of an object never consults the raw values: whatever comparing them would say, the result is the order of the keys. |
| `JsonOrder.ValueOrder` | services/trading-plugins/trading_plugins/facts.py:380-380 | Sorting by key uses Python's comparison, which is the reference order (what it is in terms of the values: the next rows). |
| `JsonOrder.KindsInOrder` | services/trading-plugins/trading_plugins/facts.py:383-392 | Kinds are ordered null, boolean, number, string, array, object; within a kind by value, strings in code-point order. |
| `JsonOrder.ArraysInOrder` | services/trading-plugins/trading_plugins/facts.py:393-394 | Arrays compare at the first item that is not level; an array comes before its extensions. |
| `JsonOrder.ObjectsInOrder` | services/trading-plugins/trading_plugins/facts.py:395-398 | Objects compare member by member in the code-point order of their keys, by key and then by value; one comes before its extensions. |
| `JsonOrder.ArrangementExists` | services/trading-plugins/trading_plugins/facts.py:397-397 | The members of every object can be arranged by their keys, so the order of objects is always decided. |
| `JsonOrder.CanonicalSorted` | services/trading-plugins/trading_plugins/facts.py:376-398 | The canonical list is the declared one with nulls, booleans, numbers, strings, arrays and objects in this order; within a kind false precedes true, smaller numbers and earlier strings come first, arrays and objects compare at the first item or member that differs. |
| `JsonOrder.CanonicalIsOrderFree` | services/trading-plugins/trading_plugins/facts.py:376-380 | Permuting the input leaves the canonical list unchanged up to equality of values. |
| `Literals.StringRead` | services/trading-plugins/trading_plugins/scaffold.py:340-341 | Reading undoes the string escapes of section 7 of RFC 8259. |
| `Literals.IntReprReads` | services/trading-plugins/trading_plugins/scaffold.py:342-343 | Integer text reads back as the integer. |
| `Literals.TupleReads` | services/trading-plugins/trading_plugins/scaffold.py:349-352 | Tuples of every length, the one-element tuple included, read back as tuples. |
| `Literals.ReadBack` | services/trading-plugins/trading_plugins/scaffold.py:336-353 | The reader recovers every nested value exactly, whatever text follows. |
| `Literals.PrintUnambiguous` | services/trading-plugins/trading_plugins/scaffold.py:336-353 | Different values never print the same text. |
| `Sweep.AssignReads` | services/web-api/web_api/main.py:466-482 | An assigned path reads back the assigned value. |
| `Sweep.AssignFrames` | services/web-api/web_api/main.py:466-482 | Every path apart from it reads what it read before. |
| `Sweep.AssignCommutes` | services/web-api/web_api/main.py:466-482 | Assignments to paths that are apart commute, failures included. |
| `Sweep.AllReadBack` | services/web-api/web_api/main.py:577-578 | Any number of writes of scalars all read back exactly when every two have paths that are apart or are the same write. |
| `Sweep.ReadsBackExactly` | services/web-api/web_api/main.py:577-578 | A single write reads back exactly when one of its occurrences is followed only by writes apart from it. |
| `Sweep.OrderFreeExactly` | services/web-api/web_api/main.py:577-578 | Every order of some writes of scalars gives one dictionary exactly when every two have paths that are apart or are the same write. |
| `SweepPlan.AxisIsAssignment` | services/web-api/web_api/main.py:485-507 | On any cell an axis is one assignment to its target path, followed in the legacy branch by one to the setting of that name. |
| `SweepPlan.SplitJoins` | services/web-api/web_api/main.py:467-467 | Joining the parts of a path with dots gives the parameter back, and no part holds a dot. |
| `SweepPlan.AxisSpelled` | services/web-api/web_api/main.py:485-507 | In the words of the parameter: the target is the dotted name below params or the money management, no part holding a dot, and the second assignment is made exactly for the three legacy parameters of the vessel-reference strategy under manual money. |
| `SweepPlan.SettledWrites` | services/web-api/web_api/main.py:494-507 | Unless a choice opens or closes the legacy branch, the assignments of a cell depend on the base and the choices alone, failures included. |
| `SweepPlan.CellContract` | services/web-api/web_api/main.py:575-584 | Every axis is written; paths apart from the assignments read as in the base; an axis reads its value exactly when no later assignment touches it with another one; all assigned values read back exactly when every two assignments are apart or equal. |
| `SweepPlan.SettledOrderFree` | services/web-api/web_api/main.py:575-584 | With compatible assignments any order of the axes gives the same cell or the same failure. |
| `SweepPlan.AxisOrderFree` | services/web-api/web_api/main.py:575-584 | For a cell that ends with the mode of its base, every order of the axes gives the same cell exactly when every two assignments are apart or equal. |
| `SweepPlan.AcceptedKeepsMode` | services/backtest-service/backtest_service/config/run_config.py:45-56 | Where no mode has all the settings of another, a cell that validation accepts ends with the mode of its base. |
| `SweepPlan.ShippedSeparate` | services/backtest-service/backtest_service/config/run_config.py:42-62 | Neither shipped mode has all the settings of the other. |
| `SweepPlan.UniqueNamesCanClash` | services/web-api/web_api/main.py:567-578 | Two leverage axes pass the uniqueness check, and for every base and every two different values the cell holds the value of the axis listed last, in either order. |
| `SweepPlan.LegacyNamesClash` | services/web-api/web_api/main.py:498-507 | The same for the leverage parameter and the leverage setting in the legacy branch. |
| `SweepPlan.ProductAt` | services/web-api/web_api/main.py:574-575 | Cell number i takes from each axis the value at its mixed-radix digit, and there is one cell per index vector. |
| `SweepPlan.IndexVectorsDiffer` | services/web-api/web_api/main.py:574-575 | Different cells have different index vectors. |
| `SweepPlan.NamesAreUnique` | services/web-api/web_api/main.py:567-569 | Axes are accepted exactly when their names are pairwise different. |
| `SweepPlan.FillCell` | services/web-api/web_api/main.py:576-578 | The inner loop assigns every axis in order and stops at the first that crosses a value. |
| `SweepPlan.PrepareGrid` | services/web-api/web_api/main.py:567-590 | A plan exists exactly when names are unique, there are at most 100 cells and no axis crosses a value; it lists every cell in index order; cell i is named with the trimmed base name and the number i + 1 in 24 characters and labelled grid-(i + 1); no two cells share a name. |
| `SweepPlan.CellNamed` | services/web-api/web_api/main.py:579-583 | A planned cell i has the run name of number i: the base name cut to the room left and stripped of dashes, then -g and the digits of i + 1; its sweep entry is that of the plan with fold_label grid-(i + 1). |
| `SweepPlan.RunNameShort` | services/web-api/web_api/main.py:460-463 | Run names have at most 24 characters. |
| `SweepPlan.RunNamesDistinct` | services/web-api/web_api/main.py:460-463 | The naming function never gives two numbers one name (so no two cells of a plan share one: `SweepPlan.PrepareGrid`). |
| `SeriesResolution.SeriesSpecs` | services/core-lib/core_lib/series_resolution.py:145-189 | Fails exactly when a descriptor does not resolve; otherwise lists the declared items in registry order, the first of each identity. |
| `Sorting.StringMeaning` | services/core-lib/core_lib/series_resolution.py:171-181 | Strings are ordered by code points: a prefix first, otherwise the smaller character at the first difference. |
| `SeriesResolution.ResolvedLists` | services/core-lib/core_lib/series_resolution.py:170-189 | In terms of the items: indicators before patterns, smaller position first, then the folded name, then the timeframe, both in code-point order; no identifier and timeframe twice; exactly the declared ones. |
| `SeriesResolution.DropRepeats` | services/core-lib/core_lib/series_resolution.py:182-189 | The loop with the seen set keeps the first item of each identity. |
| `SeriesResolution.ResolvedContract` | services/core-lib/core_lib/series_resolution.py:170-189 | Always: sorted by the registry key, no identity twice, exactly the declared identities. |
| `SeriesResolution.ResolvedStrict` | services/core-lib/core_lib/series_resolution.py:170-189 | Without clashes the order is strict and the items are exactly the declared ones. |
| `SeriesResolution.ClashShows` | services/core-lib/core_lib/series_resolution.py:171-181 | Of two clashing items the one declared first comes first in the result. |
| `SeriesResolution.OrderFreeExactly` | services/core-lib/core_lib/series_resolution.py:153-189 | The result is independent of order and repetition of descriptors exactly when no two items clash. |
| `SeriesResolution.UniqueNamesResolve` | services/core-lib/core_lib/series_resolution.py:153-189 | Unique indicator positions and casefold-unique pattern names exclude clashes. |
| `Observability.Runner.constructor` | services/service-commons/service_commons/observability.py:104-134 | A new runner is stopped, has no times, zero counters for exactly the configured names, and streaks only for configured failures. |
| `Observability.Runner.MarkRunning` | services/service-commons/service_commons/observability.py:136-143 | Starts a liveness window and zeroes every streak. |
| `Observability.Runner.MarkStopped` | services/service-commons/service_commons/observability.py:145-149 | Clears only the running flag. |
| `Observability.Runner.RecordWarmup` | services/service-commons/service_commons/observability.py:151-153 | Counts a warmup, or refuses without effect. |
| `Observability.Runner.RecordPoll` | services/service-commons/service_commons/observability.py:155-158 | Counts the cycle and moves the poll time, or refuses without effect. |
| `Observability.Runner.RecordPollSuccess` | services/service-commons/service_commons/observability.py:160-169 | Moves the success time and resets the recovered streaks. |
| `Observability.Runner.RecordFailure` | services/service-commons/service_commons/observability.py:171-197 | A failure raises its counter and its streak together. |
| `Observability.Runner.RecordSignals` | services/service-commons/service_commons/observability.py:176-192 | Counts signals and moves the progress time; zero does nothing, negative is refused. |
| `Observability.Runner.RecordProcessed` | services/service-commons/service_commons/observability.py:199-206 | Two counters in turn, with the partial effect when the second is not configured. |
| `Observability.Runner.HealthSnapshot` | services/service-commons/service_commons/observability.py:214-260 | Healthy exactly when running, started or polled within the limit, and both streaks below the threshold; when each stale reason is reported, and when the missing poll streak raises. |
| `Observability.HistoryDetermines` | services/service-commons/service_commons/observability.py:136-206 | For every call sequence with both streak counters, streaks, failure counters, running flag and times are functions of the history. |
| `Observability.CountersAreTotals` | services/service-commons/service_commons/observability.py:136-206 | For every call sequence each counter, signals by outcome included, is the sum of what the calls add to it, and the progress time is that of the last progress. |
| `Observability.StreaksBounded` | services/service-commons/service_commons/observability.py:171-197 | A streak never exceeds its counter. |
| `Observability.HealthIsHistory` | services/service-commons/service_commons/observability.py:245-260 | Over any history the snapshot does not raise, reports a stall exactly when neither the last start nor the last poll is recent, and is healthy exactly when moreover fewer failures than the threshold followed the last reset of each streak. |
| `Scaffold.Files.WriteAll` | services/trading-plugins/trading_plugins/scaffold.py:729-740 | The files and the list of written paths after success or after a failure at any step. |
| `Scaffold.Files.RollBack` | services/trading-plugins/trading_plugins/scaffold.py:741-747 | Removes exactly the listed files and restores the init script. |
| `Scaffold.Files.Scaffold` | services/trading-plugins/trading_plugins/scaffold.py:709-751 | Each answer exactly under its condition: a new file exists, the init script is missing, the line is there; otherwise a smooth run writes three new files and one new init line, and a failing one is rolled back and restores everything unless it left a part of a new file. |
| `Scaffold.OneLineAdded` | services/trading-plugins/trading_plugins/scaffold.py:740-740 | The init script loses only newlines at its end, keeps its non-blank lines in order and gains exactly one. |
| `Scaffold.Restored` | services/trading-plugins/trading_plugins/scaffold.py:741-747 | Rollback restores every file exactly when the failing write left nothing of a new file. |

## Left out

- User interface, request and response models, database connections, environment loading: no hard invariant.
- Engine, matcher, sizing, indicator states, wallet and broker: their behaviour is not part of the modelled files.
- Sub-second times, timezone conversion and type checks of candle rows: times are whole seconds and rows are typed.
- Rounding: Decimal sums are exact and `float()` is a last monotone step; a published volume of a merge is not claimed to be the sum of published volumes.
- Parsing of timeframe strings: durations are positive numbers of minutes, as the parser guarantees.
- LIMIT, total and has_more of the candle query: simple consequences of the ordered list.
- Result fields of job snapshots (run id, sweep id, hash, error text): stored as given and never inspected by the registry.
- That every queued job becomes final on shutdown: cancelled futures and twice-cancelled tasks return early, so the code does not promise it.
- Thread-pool size: the job protocol allows any number of concurrent workers; `WorkerPools` counts them, and starts a job only when a thread is free.
- A clock that is set back: `WorkerPools` takes each success to be later than every final snapshot in the registry.
- Cancelling all data jobs at once: the shutdown cancels every task, the machine cancels one task at a time. After a shutdown began, `CancellationOverlaps` needs a job that is submitted later.
- Re-registration of a forgotten job id: ids are random and never repeat.
- Why scheduling a wakeup raises: any attempt may raise, which covers a closed loop that is later replaced by a new one.
- Pruning loop and SSE loop of the data-job registry: the same code as for dry-run jobs; the data-job machine uses the proved retention rule.
- Sweep.AssignReads: nested dictionaries are modelled as values, because each cell is a deep copy; aliasing and insertion order are not captured.
- Validation of each sweep cell, except which settings a mode accepts, and the non-grid sweep types: they only call the configuration validator.
- The order of sweep axes in cells that change the mode: no shipped mode accepts them, so they matter only for deployed modes that have all the settings of another.
- Pagination.AllPages: the optional filters are one predicate on rows, and cursors are unbounded integers instead of JavaScript numbers.
- Decimals.ServerText: the quotient is exact, which Python guarantees up to 28 digits; stored values have 64 bits.
- JsonOrder.CanonicalIsOrderFree: NaN and infinities are not JSON numbers and are excluded.
- Literals.ReadBack: a float is represented by its `repr`; subclasses of the printed types are not distinguished.
- Descriptor parsing and registry lookup in series resolution: `resolve` is a parameter.
- Observability: a clock that returns naive datetimes, and constructor arguments that are refused.
- Scaffold: rendering, formatting, directory creation and the choice of the registration number; line separators other than newline; a rollback that itself fails.

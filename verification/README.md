# DB sync engine: a verified model

The program copies tables from one database to another, in full or incrementally, on a schedule. This project models its
copy protocol and everything the protocol's guarantees rest on, and proves what it keeps and exactly where it stops.

**The copy loop.** `Paging` holds the connector contract and the loop: each page query is evaluated afresh on a source
that may have grown, and a batch is committed whole or not at all. `Ties` says what the ORDER BY must provide for that
to be sound. `TableRun` is one incremental run of one table under a script of faults and arrivals (each fetch and insert
with its three attempts, a setup that fails, a checkpoint write that is done or lost, a process that dies before or
behind it). `Faults` says which faults end a run, how its log ends, and which stop the tables behind it. `History` is
about whole histories of arrivals, runs and resets: which rows are lost, a monotone checkpoint, the number of copies of
each row, and what disturbs a run. `Exactness` says exactly when the checkpoint moves and when every row is delivered
once; `Limits` holds the inputs on which the protocol falls short. `IncrementalExecution` is about all tables of an
execution, and `Delivery` projects the history of a job to the histories of its tables; `FullExecution` is the
truncate-and-copy executor, `FullFaults` says what faults do to it.

**The objects.** `IncrementalSync`, `FullSync`, `Checkpoints`, `Session`, `JobExecution`, `JobBoard` and `Schedule` hold
classes with the program's own mutable state and loops; every method is proved equal to the specification function that
the theorems above are about.

**The texts.** A checkpoint lives as text: `Text`, `Timestamps`, `Values`, `Literals` and `SqlText` take it from
Python's `str` through storage, parsing and SQL literals to the database's reading of the WHERE clause, and show when
comparing texts is comparing values. `ColumnTypes` names the types that are parsed, `Decimals` is about numeric
checkpoints, `TypeText` about column type strings.

A row is its primary key (one integer stands for the key's place in the key order) and the value of its incremental
column; the other columns play no part. Faults are oracles: a sequence of flags, one for each attempt. A run whose
script of events ends while it is still fetching is a process that died.

## What the code does that its documentation does not say

The model follows the code; each of these is a theorem.

- An integer column whose type name is not in the checkpoint parser's list (`smallint`, for one) keeps its checkpoint as
  text. A run that ends normally then moves the checkpoint if and only if some new value's decimal text sorts after the
  checkpoint's text; otherwise the next run copies the same rows again. Behind 99, the row 100 is copied by every run
  (`Exactness.CheckpointMovesIff`, `Exactness.RerunRepeatsUnlessMoved`, `ColumnTypes.OtherIntegersMoveByText`,
  `Limits.HundredAfterNinetyNine`). A table with nothing but NULLs in the column is copied by every run too, by the same
  theorems.
- A datetime column of an unlisted type (`timestamp without time zone`) is compared as text, and so is every date
  column. There the text order is the time order, so they behave like listed ones (`Timestamps.TextOrderIsTimeOrder`,
  `Timestamps.DateOrder`, `Values.GreaterIsLater`).
- The filter is strict. A row that arrives at or below the stored checkpoint, or with a NULL behind one, is late: it
  stays out of the target until a reset (`History.LateRowStaysLost`). Late rows are the only ones that undisturbed runs
  lose (`History.NoRowLost`).
- Paging by offset is sound exactly as long as no row that the query selects arrives and sorts before the last row
  copied (`Paging.DrainedDeliversIff`, `History.SavedRunAccountsIff`, `FullExecution.FullSyncConvergesIff`). With NULLs
  sorted last, rows with the greatest values so far break this during a first sync (`Limits.NullsCanHideARow`).
- A numeric checkpoint is parsed into a binary float. Above 2^53 the odd ones are rounded: the next value is then never
  selected, as behind 9007199254740995, or the last row is copied again (`Decimals.HidesNextIff`,
  `Decimals.RepeatsIff`).
- A text checkpoint is cast to timestamp in PostgreSQL, which drops its zone; the query is then bounded by the
  checkpoint exactly when the session has that zone (`SqlText.StoredCheckpointBounds`).
- A process that dies behind the checkpoint write leaves a log that is running and a checkpoint that has moved; a failed
  log never moves it (`Exactness.CheckpointMovesIff`).
- `SyncExecutor` overwrites an inner executor's failed status with completed whenever that executor returns
  (`JobExecution.RunIncrementalJob`, `JobExecution.RunFullJob`). The comment at executor.py:122-123 says that the job
  stays running if some tables succeeded; it stays running exactly when a `TableSyncError` escapes, and then neither
  trigger, pause nor resume ever moves it again (`JobBoard.EndWedgesIff`, `JobBoard.WedgedForever`).
- The status is saved before the thread is over, so a trigger in between starts a second live thread for the job
  (`JobBoard.WindowAdmitsSecond`).
- A run saves its whole copy of the job, with the due time it was triggered for. A completed or failed run then
  reschedules; one that ends in a connection error does not, so the due time is back and the next pass fires the job
  again, although its schedule has moved on (`Schedule.EndedRunFiresAgainIff`, `Schedule.UnreachableFiresTwice`).
- The full executor reports completed although a table never got a log (`FullExecution.FullExecutionDoneIff`,
  `FullExecution.FullDoneMeansEqual`).
- `completed_tables` misses every table that completes with no later table committing a batch, so always the last one
  (`IncrementalExecution.CompletedTablesFallShort`, `FullExecution.FullCompletedTablesFallShort`).
- Source tables with one mapped target name (`TableNames.TargetsCollide`): under the full executor only the last copy
  remains (`FullExecution.TargetIsLastCopy`), under the incremental one the rows mix
  (`IncrementalExecution.SharedTargetAccumulates`).
- A `once` job whose schedule time is past fires again on every pass (`Schedule.OnceFiresAgainIff`).
- A retry limit below one makes no attempt and returns None (`Retry.RetryOnError`).

## Model

| member | source | states |
|---|---|---|
| Paging.SelectSpec | dbsync_tool/sync_engine/query_builder.py:211-242 | the ordered result holds exactly the rows that pass the WHERE clause, as often as the table does, in order |
| Paging.FilterCount | dbsync_tool/sync_engine/query_builder.py:216-224 | filtering keeps the multiplicity of each row that passes and drops the others |
| Paging.SortedUnique | dbsync_tool/sync_engine/incremental_sync.py:305-314 | with the key as last sort column there is only one sorted arrangement of a result |
| Paging.AnyArrangementSamePage | dbsync_tool/connections/connectors/postgres.py:226-252 | however the database arranges the result for one page query, the page is the same slice |
| Paging.PrefixSurvivesIff | dbsync_tool/sync_engine/incremental_sync.py:305-403 | the first k rows of the result survive arrivals if and only if no arrival that the query sees sorts before the k-th |
| Paging.StepKeeps | dbsync_tool/sync_engine/incremental_sync.py:340-403 | one pass with harmless arrivals keeps: the committed rows are an initial part of the current ordered result, in whole batches |
| Paging.CopyKeeps | dbsync_tool/sync_engine/incremental_sync.py:333-403 | the same over every script of faults and harmless arrivals; a loop that ends normally has copied the whole result as of its last fetch |
| Paging.DrainedDeliversIff | dbsync_tool/sync_engine/incremental_sync.py:333-403 | a loop that ends normally has copied every row its last query could see if and only if no arrival, when it came, sorted before the last row copied |
| Paging.QuietCopy | dbsync_tool/sync_engine/incremental_sync.py:340-403 | without faults the loop is done after k more queries if and only if the pages asked for exceed the rows |
| Paging.DrainedBatches | dbsync_tool/sync_engine/incremental_sync.py:340-403 | a finished loop made ceil(n / size) batches |
| Paging.FixedSourceTerminates | dbsync_tool/sync_engine/incremental_sync.py:333-403 | over n rows at rest: termination if and only if more than n rows may be asked for, and then all are copied |
| Paging.LoopAbortsAtIff | dbsync_tool/sync_engine/incremental_sync.py:340-381 | a loop that has come to a pass ends there aborted, with nothing more committed, if and only if the fetch fails, or the insert does and there are rows left |
| Paging.LoopEndsIff | dbsync_tool/sync_engine/incremental_sync.py:340-403 | the loop is aborted exactly when a pass it comes to fails, and drained exactly when one it comes to finds nothing or inserts less than a page |
| Ties.TilesIffNoTieAcross | dbsync_tool/sync_engine/incremental_sync.py:305-314 | pages of independently sorted queries partition the result if and only if no page boundary lies inside a group of one rank that holds two different rows; equal rows are allowed |
| Ties.TieBreaksTiling | dbsync_tool/sync_engine/incremental_sync.py:305-314 | such a boundary admits listings whose pages hold one row too often and another too seldom |
| Ties.LoopCopiesIffNoTieAcross | dbsync_tool/sync_engine/full_sync.py:236-335 | the loop over a source at rest copies it exactly, whatever listings its queries see, under exactly that condition, with or without a primary key |
| Ties.UnorderedCopiesIffOnePage | dbsync_tool/sync_engine/full_sync.py:236-250 | with no ORDER BY, which a failed key lookup leaves, the loop copies its source for sure if and only if one page holds it or all its rows are equal |
| Ties.LoopIsCopy | dbsync_tool/sync_engine/full_sync.py:277-335 | where a total order leaves one listing, this loop commits what the copy loop of the executors commits |
| TableRun.StartOfRun | dbsync_tool/sync_engine/incremental_sync.py:268-284 | without a checkpoint a run selects everything; with one, exactly what lies above the stored value |
| TableRun.PassesUnsettled | dbsync_tool/sync_engine/query_builder.py:216-224 | the rows a run's query leaves out are those not above the stored checkpoint |
| TableRun.RunDelivers | dbsync_tool/sync_engine/incremental_sync.py:316-403 | under any faults a run commits an initial part of the ordered rows above the checkpoint, all of them when its loop ends normally |
| TableRun.DeliveredRows | dbsync_tool/sync_engine/incremental_sync.py:316-403 | what a run commits are source rows above the checkpoint, ordered, and when drained every such row |
| Faults.RunEndsIff | dbsync_tool/sync_engine/incremental_sync.py:340-403 | a run that enters its loop is aborted exactly when at some pass it comes to three fetches fail, or three inserts of rows that are left; drained exactly when a pass finds nothing or inserts less than a page |
| Faults.FailedPassCommitsNothing | dbsync_tool/sync_engine/incremental_sync.py:367-381 | the target keeps exactly what the passes before the failed one brought |
| Faults.TableEnds | dbsync_tool/sync_engine/incremental_sync.py:427-447 | a table stops the ones behind it exactly when its process stops, while fetching or at the save; otherwise its log is failed exactly when its setup failed or its loop was aborted, and else completed |
| Faults.LogSays | dbsync_tool/sync_engine/incremental_sync.py:383-441 | the log names its table, has that status, and counts the rows its target grew by, in whole pages |
| Faults.NothingDone | dbsync_tool/sync_engine/incremental_sync.py:93-127 | without tables nothing is to do and the status is completed; without a column or a database nothing is done, the status is failed and a TableSyncError is raised |
| Faults.ReturnsIffNoneStops | dbsync_tool/sync_engine/incremental_sync.py:129-180 | an execution returns if and only if no process stops in a table; then every table is reached, whichever others fail, and leaves the log it would leave alone |
| History.NoRowLost | dbsync_tool/sync_engine/incremental_sync.py:268-430 | over any history of undisturbed runs, arrivals anywhere and at any time, and resets: a source row that no later run selects is missing from the target if and only if no run selected it when it arrived |
| History.FreshIsSafe | dbsync_tool/sync_engine/incremental_sync.py:283-284 | a job that never ran misses nothing |
| History.RunAccounts | dbsync_tool/sync_engine/incremental_sync.py:198-447 | one undisturbed run keeps that account, whatever its faults and wherever its process dies |
| History.SavedMark | dbsync_tool/sync_engine/incremental_sync.py:405-425 | a checkpoint that moves was carried by a row this run delivered, strictly above the old checkpoint, wherever rows arrived meanwhile |
| History.CompletedRunDelivers | dbsync_tool/sync_engine/incremental_sync.py:405-430 | a run whose log is completed, even with a lost checkpoint write, leaves every source row but the late ones in the target |
| History.CompletedRunDeliversIff | dbsync_tool/sync_engine/incremental_sync.py:331-430 | a completed run has delivered everything but late rows if and only if nothing disturbed it |
| History.SavedRunAccountsIff | dbsync_tool/sync_engine/incremental_sync.py:331-415 | a run that saves its mark loses no row if and only if nothing disturbed it |
| History.RecoversInOneRun | dbsync_tool/sync_engine/incremental_sync.py:268-430 | after any failures one faultless run over a source at rest completes and leaves every row but the late ones in the target |
| History.LateRowStaysLost | dbsync_tool/sync_engine/query_builder.py:216-221 | a missing row at or below the checkpoint, or NULL behind one, is never delivered without a reset, whatever else arrives or disturbs |
| History.CheckpointNeverDecreases | dbsync_tool/sync_engine/incremental_sync.py:405-425 | over any history without reset, wherever rows arrive, the stored checkpoint never goes back in column order |
| History.CheckpointIsCarried | dbsync_tool/sync_engine/incremental_sync.py:338-415 | over any history, wherever rows arrive, the stored checkpoint is the text of a value in the target |
| History.MultiplicityIsDeliveries | dbsync_tool/sync_engine/incremental_sync.py:367-376 | over any history, wherever rows arrive, a row's multiplicity in the target grows by exactly the number of committed batches that held it |
| History.StepCount | dbsync_tool/sync_engine/incremental_sync.py:340-403 | an undisturbed run commits at most one batch with a row in it |
| History.SettledCount | dbsync_tool/sync_engine/query_builder.py:216-221 | once the checkpoint has reached a row its multiplicity is frozen until a reset, wherever rows arrive and whatever disturbs |
| Exactness.CheckpointMovesIff | dbsync_tool/sync_engine/incremental_sync.py:405-445 | for every column: the checkpoint moves if and only if the loop ended normally, the write got through and the source held a value the comparison takes for new; then it settles all rows delivered, and its log is completed, or running if the process died behind the write |
| Exactness.CheckpointIsLastValue | dbsync_tool/sync_engine/incremental_sync.py:405-415 | a checkpoint that moves is the greatest value delivered, and that of the last row delivered unless it is NULL |
| Exactness.RunKeepsSyncedIff | dbsync_tool/sync_engine/incremental_sync.py:331-430 | a run leaves the target in step if and only if it commits nothing or moves the checkpoint at its normal end |
| Exactness.ExactlyOnceIff | dbsync_tool/sync_engine/incremental_sync.py:268-430 | through a whole history the target is the settled part of the source without its late rows, each row once and nothing else, if and only if every step is clean |
| Exactness.CompletedRunEqualizes | dbsync_tool/sync_engine/incremental_sync.py:268-430 | from a target in step, a completed run leaves the target as the source without its late rows, as a multiset, whatever becomes of its checkpoint |
| Exactness.RerunRepeatsUnlessMoved | dbsync_tool/sync_engine/incremental_sync.py:405-425 | a second run over the same source repeats the whole first run, or nothing if there was a new value to move on |
| ColumnTypes.TimeTypesParse | dbsync_tool/sync_engine/timezone_utils.py:137-159 | for timestamp, datetime, date and timestamptz the texts of datetimes and dates are parsed and any other text stays |
| ColumnTypes.IntTypesParse | dbsync_tool/sync_engine/timezone_utils.py:160-165 | for integer, int, bigint and serial the texts of integers are parsed and any other text stays |
| ColumnTypes.OthersKeepText | dbsync_tool/sync_engine/timezone_utils.py:134-174 | for every other type name a checkpoint stays text, and an empty one is none |
| ColumnTypes.GreatestIsStored | dbsync_tool/sync_engine/incremental_sync.py:405-415 | on integer, int, bigint and serial columns, on dates and datetimes of any type name and on first syncs, a faultless run over a source with a new value stores the greatest value there is |
| ColumnTypes.OtherIntegersMoveByText | dbsync_tool/sync_engine/incremental_sync.py:449-474 | on integer columns of any other type name a faultless run moves the checkpoint if and only if the decimal text of a new value sorts after its text |
| ColumnTypes.NothingNewStays | dbsync_tool/sync_engine/incremental_sync.py:405-425 | without a new value the checkpoint stays, on every column |
| Limits.HundredAfterNinetyNine | dbsync_tool/sync_engine/incremental_sync.py:473-474 | on an unlisted integer type, every run without faults behind the checkpoint 99 delivers the row 100 and leaves the checkpoint at 99 |
| Limits.NullsCanHideARow | dbsync_tool/sync_engine/incremental_sync.py:331-415 | where NULL sorts last, for every page size: a first sync that completes, stores a checkpoint, and leaves a row below it out of the target |
| Values.StoreAndParse | dbsync_tool/sync_engine/timezone_utils.py:134-174 | storing as text and parsing gives the value back for the listed types, a date as its midnight, and its text otherwise |
| Values.FoldBatches | dbsync_tool/sync_engine/incremental_sync.py:363-366 | folding the maximum batch by batch equals one fold over the concatenation |
| Values.FoldProvenance | dbsync_tool/sync_engine/incremental_sync.py:476-494 | the result is the old mark or a non-null value that was seen, whatever the comparison does |
| Values.GreaterIsLater | dbsync_tool/sync_engine/incremental_sync.py:449-474 | the comparison decides by column order, also for dates and for a datetime against text |
| Values.FoldIsMaximum | dbsync_tool/sync_engine/incremental_sync.py:476-494 | the fold is at least the old mark and every value seen |
| Values.FoldIsLast | dbsync_tool/sync_engine/incremental_sync.py:476-494 | on ascending values above the old mark the maximum is the last of them |
| Values.IntegerTextFold | dbsync_tool/sync_engine/incremental_sync.py:473-474 | from a text mark, ascending integers leave it alone, or end at the last of them if some decimal text sorts after it |
| Timestamps.InstantOrder | dbsync_tool/sync_engine/incremental_sync.py:465-467 | datetime order is the order of the calendar fields, leap years included |
| Timestamps.KnownDates | dbsync_tool/sync_engine/incremental_sync.py:465-467 | leap years, month lengths and the day count agree with the Gregorian calendar at known dates, and days are counted from a Monday |
| Timestamps.KnownInstants | dbsync_tool/sync_engine/incremental_sync.py:465-467 | a zone is taken off a datetime |
| Timestamps.TextOrderIsTimeOrder | dbsync_tool/sync_engine/incremental_sync.py:473-474 | for datetimes of one zone the order of their `str` texts is the time order, with or without a fraction |
| Timestamps.DateOrder | dbsync_tool/sync_engine/incremental_sync.py:473-474 | the texts of dates, with a midnight behind them or not, sort as the dates do |
| Timestamps.ReadShow | dbsync_tool/sync_engine/timezone_utils.py:137-140 | the parser recovers every datetime from its `str` text |
| Timestamps.ReadDateShow | dbsync_tool/sync_engine/timezone_utils.py:137-140 | the parser recovers every date from its `str` text |
| Timestamps.KnownDate | dbsync_tool/sync_engine/checkpoint_manager.py:114-115 | how a date is written |
| Timestamps.KnownTime | dbsync_tool/sync_engine/checkpoint_manager.py:114-115 | how a time of day is written |
| Timestamps.KnownFraction | dbsync_tool/sync_engine/checkpoint_manager.py:114-115 | how a fraction and a zone are written |
| Text.KnownNumbers | dbsync_tool/sync_engine/checkpoint_manager.py:114-115 | how integers are written |
| Text.IntTextRoundTrip | dbsync_tool/sync_engine/timezone_utils.py:160-162 | `int` recovers every integer from its decimal text |
| Text.IntTextIsFloat | dbsync_tool/sync_engine/query_builder.py:258-262 | the decimal text of every integer passes the `float` probe |
| Text.ColonIsNotFloat | dbsync_tool/sync_engine/query_builder.py:258-263 | no text with a colon, so no datetime text, passes the `float` probe |
| Text.PlusSign | dbsync_tool/sync_engine/timezone_utils.py:160-162 | `int` reads a sign and rejects the empty text |
| Text.NotAnInt | dbsync_tool/sync_engine/timezone_utils.py:160-165 | a text with a character that is no digit, sign or underscore is no `int` |
| Text.StripSpec | dbsync_tool/sync_engine/query_builder.py:230-234 | `strip` takes away blanks at both ends, all of them and nothing else, and leaves a text as it is if and only if it is trimmed |
| Text.Blanks | dbsync_tool/sync_engine/query_builder.py:230-234 | which characters are blanks |
| SqlText.OrderColumnsRoundTrip | dbsync_tool/sync_engine/query_builder.py:227-234 | splitting the joined ORDER BY list recovers the names if and only if they are comma-free and trimmed |
| SqlText.OrderByColumns | dbsync_tool/sync_engine/incremental_sync.py:305-314 | the query sorts by the incremental column and then the key columns, under the same condition |
| Literals.QuotedRoundTrip | dbsync_tool/sync_engine/query_builder.py:264-269 | a reader of literals recovers every text and stops at the closing quote; where a backslash escapes, exactly when every backslash in it stands before a pattern sign |
| SqlText.TextLiteralRoundTrip | dbsync_tool/sync_engine/query_builder.py:258-269 | every non-numeric text checkpoint comes back from its literal whole, with the SQL behind it, in PostgreSQL and SQL Server; in MySQL under exactly that condition |
| SqlText.IntegerTextSurvives | dbsync_tool/sync_engine/query_builder.py:256-262 | store, parse and format is the identity on an integer's decimal text, for listed and unlisted types |
| SqlText.BoundOfMark | dbsync_tool/sync_engine/query_builder.py:216-221 | the WHERE clause built from a mark bounds the query by the mark's value, moved by the zone that a cast to timestamp drops |
| SqlText.StoredCheckpointBounds | dbsync_tool/sync_engine/incremental_sync.py:268-328 | stored as text, parsed, formatted and read by the database, a checkpoint bounds the query by the value it came from if and only if the cast keeps its zone |
| Decimals.ToDoubleIsNearest | dbsync_tool/sync_engine/timezone_utils.py:166-171 | no float is nearer to a whole decimal below 10^16, and of two as near the even one is taken |
| Decimals.DecimalBoundIff | dbsync_tool/sync_engine/timezone_utils.py:166-171 | a decimal checkpoint bounds the query by its own value if and only if it is a float: up to 2^53, or even |
| Decimals.HidesNextIff | dbsync_tool/sync_engine/query_builder.py:216-221 | it hides the next value if and only if it is rounded up: odd, above 2^53, with an odd half |
| Decimals.RepeatsIff | dbsync_tool/sync_engine/query_builder.py:216-221 | it selects the row it came from again if and only if it is rounded down |
| Retry.FirstSuccess | dbsync_tool/sync_engine/retry.py:32-48 | the first attempt that works within the limit, or the limit |
| Retry.PowerSumClosed | dbsync_tool/sync_engine/retry.py:47-48 | the total of the growing delays in closed form |
| Retry.RetryOnError | dbsync_tool/sync_engine/retry.py:26-52 | outcome, number of attempts and total sleep; fails if and only if all attempts fail |
| Retry.GetConnectorWithRetry | dbsync_tool/sync_engine/executor.py:175-204 | first success wins; giving up after n attempts has waited 2^(n-1) - 1 seconds |
| Retry.TwoToIsPower | dbsync_tool/sync_engine/executor.py:194-200 | the pauses double |
| Checkpoints.Stored | dbsync_tool/sync_engine/checkpoint_manager.py:85-88 | what is read is the stored row's own value, exactly when there is one and it is neither NULL nor empty |
| Checkpoints.CheckpointManager.GetValue | dbsync_tool/sync_engine/checkpoint_manager.py:46-88 | the stored value or none, and the two error cases |
| Checkpoints.CheckpointManager.CreateOrUpdate | dbsync_tool/sync_engine/checkpoint_manager.py:90-137 | exactly this job's, schema's and table's entry changes, and none on an error |
| Checkpoints.CheckpointManager.Delete | dbsync_tool/sync_engine/checkpoint_manager.py:139-170 | removes one entry and says if there was one; an error reads as nothing deleted |
| Checkpoints.CheckpointManager.ResetAll | dbsync_tool/sync_engine/checkpoint_manager.py:172-188 | removes this job's entries and no other's, and returns how many |
| TableNames.TargetsCollide | dbsync_tool/sync_engine/table_handler.py:87-97 | exactly when two source tables are mapped to one target table |
| TableNames.TargetCases | dbsync_tool/sync_engine/table_handler.py:87-97 | into the target database, from dbo in any case to public, or to its own name; the table name stays |
| Session.SyncSession.BulkInsert | dbsync_tool/connections/connectors/postgres.py:456-483 | the whole batch is appended to that table, or nothing changes |
| Session.SyncSession.UpdateLog | dbsync_tool/sync_engine/incremental_sync.py:383-397 | the log under way gets the batch's numbers, and the two execution counters follow from all logs |
| Execution.IncrementalDoneIff | dbsync_tool/sync_engine/incremental_sync.py:145-177 | completed if and only if every enabled table has a completed log, also when one never got a log |
| Execution.FullDoneIff | dbsync_tool/sync_engine/full_sync.py:125-155 | the status computed from the logs is completed if and only if some table completed and none failed |
| IncrementalExecution.OneDoesItsRun | dbsync_tool/sync_engine/incremental_sync.py:198-447 | a table's part of the world changes as its single run says |
| IncrementalExecution.SideIsolation | dbsync_tool/sync_engine/incremental_sync.py:129-143 | under any failures a table that is reached ends with the source and checkpoint it would have alone, even where targets are shared |
| IncrementalExecution.SharedTargetAccumulates | dbsync_tool/sync_engine/incremental_sync.py:231-243 | a target gets the rows of every table mapped to it, in order, on top of what it held |
| IncrementalExecution.IsolationIff | dbsync_tool/sync_engine/incremental_sync.py:129-143 | a table ends with the target it would have alone if and only if no other table commits a row to that target |
| IncrementalExecution.OthersUntouched | dbsync_tool/sync_engine/incremental_sync.py:129-143 | tables with other names and targets keep source, target and checkpoint |
| IncrementalExecution.Isolation | dbsync_tool/sync_engine/incremental_sync.py:129-143 | with targets apart, each table that is reached ends as if it ran alone, and one behind a dead process is untouched |
| IncrementalExecution.IsolationOfLogs | dbsync_tool/sync_engine/incremental_sync.py:245-251 | the logs are those of the tables run alone, even where targets are shared |
| IncrementalExecution.OnlyOwnEntries | dbsync_tool/sync_engine/checkpoint_manager.py:117-125 | an execution writes no checkpoint but those of its tables: other tables and other jobs keep theirs |
| IncrementalExecution.OpenCopyClose | dbsync_tool/sync_engine/incremental_sync.py:245-430 | opening the log, copying, saving and closing compose to the run's specification |
| IncrementalExecution.Conservation | dbsync_tool/sync_engine/incremental_sync.py:383-397 | total rows, the sum over the logs and the rows committed are one number; the logs count the endings |
| IncrementalExecution.DoneIffAllCompleted | dbsync_tool/sync_engine/incremental_sync.py:145-180 | an execution that returns is completed if and only if every enabled table completed |
| IncrementalExecution.CompletedTablesFallShort | dbsync_tool/sync_engine/incremental_sync.py:389-397 | completed_tables ends short of the completed logs by exactly the tables that completed with no later batch committed, and is right if and only if there is none |
| Delivery.DoneMeansCompleted | dbsync_tool/sync_engine/incremental_sync.py:145-180 | when the incremental executor reports completed, every enabled table had exactly its own run, and that run completed |
| Delivery.DoneMeansDelivered | dbsync_tool/sync_engine/incremental_sync.py:145-180 | when the incremental executor reports completed, each table whose run was not disturbed has every row but its late ones in its target, whatever happened to the others |
| Delivery.JobProjects | dbsync_tool/sync_engine/incremental_sync.py:69-196 | a history of executions, arrivals and resets of a job is, for each of its tables, a history of that table |
| Delivery.JobLosesNoRow | dbsync_tool/sync_engine/incremental_sync.py:69-430 | over any history of a job, each table whose own runs were not disturbed misses exactly its late rows, whatever happens to the others |
| Delivery.JobCheckpointNeverDecreases | dbsync_tool/sync_engine/incremental_sync.py:405-425 | over any history of a job no checkpoint of a table goes back but by a reset |
| Delivery.DoneAfterHistory | dbsync_tool/sync_engine/incremental_sync.py:145-180 | an execution behind any such history that reports completed leaves in each target all rows but the late ones |
| IncrementalSync.IncrementalSyncExecutor.GetMaxIncrementalValue | dbsync_tool/sync_engine/incremental_sync.py:476-494 | the loop computes the fold whose maximum property is proved |
| IncrementalSync.IncrementalSyncExecutor.InsertBatchWithRetry | dbsync_tool/sync_engine/incremental_sync.py:664-678 | the batch lands exactly once, or after three failures not at all; the pauses are none, one second, or one and two |
| IncrementalSync.IncrementalSyncExecutor.FetchBatchWithRetry | dbsync_tool/sync_engine/incremental_sync.py:654-662 | a page of the query as it is when one of three attempts gets through, or a failure, with the same pauses |
| IncrementalSync.IncrementalSyncExecutor.StoreBatch | dbsync_tool/sync_engine/incremental_sync.py:358-403 | a fetched batch is folded, inserted, logged and counted, or the loop aborts with nothing changed |
| IncrementalSync.IncrementalSyncExecutor.CopyPage | dbsync_tool/sync_engine/incremental_sync.py:340-403 | one pass refines the abstract step, for rows, offset, maximum, log and counters alike |
| IncrementalSync.IncrementalSyncExecutor.CopyBatches | dbsync_tool/sync_engine/incremental_sync.py:330-403 | the loop refines the abstract loop |
| IncrementalSync.IncrementalSyncExecutor.CopyAndSave | dbsync_tool/sync_engine/incremental_sync.py:330-441 | the loop, the checkpoint write and the final log status, with every other part of the world unchanged |
| IncrementalSync.IncrementalSyncExecutor.SyncPrepared | dbsync_tool/sync_engine/incremental_sync.py:316-441 | the same from the checkpoint that was read, including a query the database rejects |
| IncrementalSync.IncrementalSyncExecutor.SyncTable | dbsync_tool/sync_engine/incremental_sync.py:198-447 | the method changes the world exactly as the table's specification says |
| IncrementalSync.IncrementalSyncExecutor.Execute | dbsync_tool/sync_engine/incremental_sync.py:69-196 | the method changes the world, the status and the exit exactly as the execution's specification says |
| FullExecution.OptimizeBatchSize | dbsync_tool/sync_engine/full_sync.py:47-67 | 10000 between two PostgreSQL servers, 3000 with MySQL on either side, and 2000 otherwise |
| FullExecution.FullSyncConverges | dbsync_tool/sync_engine/full_sync.py:228-340 | a completed, undisturbed full sync makes the target the source as multisets from any earlier target, with all rows counted as fetched and inserted |
| FullExecution.FullSyncConvergesIff | dbsync_tool/sync_engine/full_sync.py:277-340 | a completed full sync equals its source if and only if nothing disturbed it |
| FullExecution.FullSyncLeavesWholeBatches | dbsync_tool/sync_engine/full_sync.py:277-361 | one that stops after the truncate leaves exactly the first k batches, all counted |
| FullExecution.FullSyncCompletes | dbsync_tool/sync_engine/full_sync.py:277-340 | without faults over a source at rest it completes and equalises |
| FullExecution.FullIsolation | dbsync_tool/sync_engine/full_sync.py:109-123 | each table that is reached ends with the source and target it would have alone |
| FullExecution.FullIsolationOfLogs | dbsync_tool/sync_engine/full_sync.py:109-123 | under any failures the logs are those of the tables copied alone, even where two of them share a target |
| FullExecution.TargetIsLastCopy | dbsync_tool/sync_engine/full_sync.py:196-234 | for any tables: a target ends with the copy of the last reached table that is mapped to it and truncates it, and is untouched without one |
| FullExecution.FullConservation | dbsync_tool/sync_engine/full_sync.py:315-329 | total rows, the sum over the logs and the rows committed are one number; the logs count the endings |
| FullExecution.FullCompletedTablesFallShort | dbsync_tool/sync_engine/full_sync.py:321-329 | completed_tables of the full executor falls short in the same way |
| FullExecution.FullExecutionDoneIff | dbsync_tool/sync_engine/full_sync.py:125-158 | a full execution that returns is completed if and only if some table completed and none has a failed log |
| FullExecution.FullDoneMeansEqual | dbsync_tool/sync_engine/full_sync.py:125-340 | when it is completed, every table whose log was created has a target equal to its source, and any other is left as it was |
| FullFaults.FullAbortsIff | dbsync_tool/sync_engine/full_sync.py:283-313 | the copy of a prepared table is aborted exactly when at some pass it comes to the fetch fails, or the insert of rows that are left |
| FullFaults.FullTableEnds | dbsync_tool/sync_engine/full_sync.py:337-361 | a table stops the ones behind it exactly when its process stops; otherwise its log is failed exactly when a step of its setup failed or its loop was aborted, and else completed |
| FullFaults.FullLogSays | dbsync_tool/sync_engine/full_sync.py:207-340 | nothing of the target is touched before the truncate, nothing is there behind it, and behind the loop what the loop copied; the log names its table and counts its rows in whole pages |
| FullFaults.FullReturnsIffNoneStops | dbsync_tool/sync_engine/full_sync.py:109-158 | a full execution returns if and only if no process stops in a table, and then reaches them all |
| FullSync.FullSyncExecutor.CopyPage | dbsync_tool/sync_engine/full_sync.py:283-335 | one pass refines the abstract step |
| FullSync.FullSyncExecutor.CopyAll | dbsync_tool/sync_engine/full_sync.py:277-355 | the loop and the final log status, with every other part of the world unchanged |
| FullSync.FullSyncExecutor.SyncTable | dbsync_tool/sync_engine/full_sync.py:176-361 | the method changes the world exactly as the table's specification says |
| FullSync.FullSyncExecutor.Execute | dbsync_tool/sync_engine/full_sync.py:81-174 | the method changes the world and the status as the execution's specification says |
| JobExecution.SyncExecutor.MarkFailed | dbsync_tool/sync_engine/executor.py:206-227 | the record, if there is one, and the job are failed |
| JobExecution.EndOfCall | dbsync_tool/sync_engine/executor.py:116-161 | a call ends completed, escaped, unreachable or failed by what happens in it: three failures of a server or an inner connection error make it unreachable |
| JobExecution.SyncExecutor.Execute | dbsync_tool/sync_engine/executor.py:46-173 | every exit leaves the record terminal; the job stays running if and only if a TableSyncError escapes, and then the record is as the inner executor left it; an error is raised exactly when there is no record, or both servers answered and the type is unknown or the inner executor raised any other error |
| JobExecution.RunIncrementalJob | dbsync_tool/sync_engine/executor.py:76-123 | a returned execution is recorded as completed, which agrees with its own status if and only if all tables completed; a job left running has a failed record |
| JobExecution.RunFullJob | dbsync_tool/sync_engine/executor.py:69-161 | a returned full execution is recorded as completed, whatever its own status; it never leaves the job running |
| JobBoard.AtMostOneThread | dbsync_tool/scheduler/utils.py:122-154 | over every interleaving a job has at most one thread that has not saved its end, and only while running |
| JobBoard.StepKeepsExclusive | dbsync_tool/scheduler/utils.py:122-154 | each single step keeps that |
| JobBoard.StartsOnlyIdle | dbsync_tool/scheduler/utils.py:127-137 | a thread starts if and only if a trigger finds the job neither running nor paused, and then every other live one has saved its end |
| JobBoard.WindowAdmitsSecond | dbsync_tool/sync_engine/executor.py:93-115 | between the save of the status and the end of the thread a trigger starts a second thread |
| JobBoard.PausedStaysIdle | dbsync_tool/sync_jobs/api_views.py:85-128 | a paused job stays paused, with no thread at work, until it is resumed |
| JobBoard.PauseHolds | dbsync_tool/sync_jobs/api_views.py:85-110 | behind an accepted pause, over any steps without a resume, the job is paused with its schedule off, no thread is at work, and no trigger starts one |
| JobBoard.ResumeStarts | dbsync_tool/sync_jobs/api_views.py:112-136 | behind an accepted resume the job is pending with its schedule on, and a trigger starts it |
| JobBoard.RefusedSteps | dbsync_tool/sync_jobs/api_views.py:90-121 | pause is refused for a paused and a running job, resume for any that is not paused |
| JobBoard.TriggerStartsIff | dbsync_tool/scheduler/utils.py:127-137 | a trigger starts a pending, a completed and a failed job, and no other |
| JobBoard.EndLeaves | dbsync_tool/sync_engine/executor.py:93-150 | the status a thread leaves, and that only an escaped TableSyncError leaves a job that cannot be started |
| JobBoard.EndWedgesIff | dbsync_tool/sync_engine/executor.py:116-123 | the end of a thread leaves the job running with no thread at work if and only if a TableSyncError escaped |
| JobBoard.WedgedForever | dbsync_tool/scheduler/utils.py:127-130 | no sequence of steps ever moves such a job |
| JobBoard.JobRecords.ExecuteSyncJobDirect | dbsync_tool/scheduler/utils.py:111-157 | the locked check and mark is the trigger step, and says if a thread was started |
| JobBoard.JobRecords.SaveThreadEnd | dbsync_tool/sync_engine/executor.py:93-151 | the thread counts as over and the job gets the status its ending gives |
| JobBoard.JobRecords.ExitThread | dbsync_tool/sync_engine/executor.py:162-173 | only the thread goes |
| JobBoard.JobRecords.PauseJob | dbsync_tool/sync_jobs/api_views.py:86-110 | refused for a paused or running job, otherwise paused, with its schedule disabled if it has one |
| JobBoard.JobRecords.ResumeJob | dbsync_tool/sync_jobs/api_views.py:113-136 | refused unless paused, otherwise pending, with its schedule enabled if it has one |
| Schedule.NextRunIsLeastBoundary | dbsync_tool/scheduler/utils.py:38-66 | without a future time stored: the least full hour, midnight or Monday midnight strictly after now |
| Schedule.BoundaryIsCalendar | dbsync_tool/scheduler/utils.py:43-66 | the boundaries are times without minutes, midnights, and midnights on a Monday |
| Schedule.CustomAndDisabled | dbsync_tool/scheduler/utils.py:26-74 | a custom schedule follows the cron parser, a disabled one has no next run, a time ahead is kept, and a once job past its time has none |
| Schedule.FiresIff | dbsync_tool/scheduler/service.py:237-255 | a pass fires exactly the pending, completed and failed jobs with an enabled schedule whose time has come |
| Schedule.NextRunNeverDecreases | dbsync_tool/scheduler/utils.py:79-108 | the stored time never goes back, and one still ahead stays |
| Schedule.DueJobs.TriggerDueJobs | dbsync_tool/scheduler/service.py:231-278 | every due job with an enabled schedule is marked and rescheduled, no other changes, and the count is right |
| Schedule.PassIsFirst | dbsync_tool/scheduler/service.py:257-263 | what a pass leaves of a job it fires is the record before the run's first write |
| Schedule.RowBeforeReschedule | dbsync_tool/sync_engine/executor.py:60-94 | a save of the whole job behind the pass brings back the old time of the job, but not of its schedule |
| Schedule.FiresAgainIff | dbsync_tool/scheduler/utils.py:124-154 | at any moment of the run behind the pass: a later pass fires the job again if and only if its end is saved and the record carries the old time or the new one has come |
| Schedule.EndedRunFiresAgainIff | dbsync_tool/sync_engine/executor.py:93-159 | once the run is over, a pass before the new time fires the job again if and only if the run ended in a connection error saved behind the pass |
| Schedule.CallFiresAgainIff | dbsync_tool/sync_engine/executor.py:125-159 | the same by what happens in the run: exactly when the record was created and a server did not answer in three attempts, or the inner executor met a connection error |
| Schedule.UnreachableFiresTwice | dbsync_tool/sync_engine/executor.py:206-227 | a concrete hourly job whose databases do not answer |
| Schedule.OnceFiresAgainIff | dbsync_tool/scheduler/utils.py:31-36 | a once job that has run fires again unless a TableSyncError escaped or one of the reschedules that count found its schedule time ahead |
| TypeText.LengthRoundTrip | dbsync_tool/core/type_mapping.py:335-364 | `BASE(n)` gives back the trimmed upper-case base and n, for every integer |
| TypeText.PrecisionRoundTrip | dbsync_tool/core/type_mapping.py:335-358 | `BASE(p,s)` gives back base, precision and scale |
| TypeText.SameDatabaseIdempotent | dbsync_tool/core/type_mapping.py:240-246 | mapping a same-database type twice is mapping it once, for every string |
| TypeText.MappedTypeHasLength | dbsync_tool/core/type_mapping.py:240-246 | a type that the mapping gave a length normalises to that length |
| TypeText.CharTypeGetsLength | dbsync_tool/core/type_mapping.py:240-245 | a type with char in its name, in any case, gets the length that is given in place of its own |
| TypeText.OthersStay | dbsync_tool/core/type_mapping.py:240-246 | every other type stays, and so does any type without a length or with length 0 |
| TypeText.NoLength | dbsync_tool/core/type_mapping.py:349-366 | a length that is no number is none |
| TypeText.MaxIsNoNumber | dbsync_tool/core/type_mapping.py:359-364 | MAX is no number |
| TypeText.KnownCases | dbsync_tool/core/type_mapping.py:242-335 | upper and lower case by example |
| TypeText.NoPrecisionNoScale | dbsync_tool/core/type_mapping.py:351-358 | a precision that is no number leaves no scale either, and a scale that is none leaves the precision |
| TypeText.NoParameters | dbsync_tool/core/type_mapping.py:335-343 | a type without parentheses is its own base |

## Left out

- History.NoRowLost: runs are undisturbed; `History.CompletedRunDeliversIff`, `History.SavedRunAccountsIff` and `Limits.NullsCanHideARow` say what happens otherwise. The table has a primary key; without one `Ties` says what the pages may miss.
- History.SavedRunAccountsIff: leaves out first syncs of a source with NULLs where NULL sorts last, in which a row that sorts before a copied NULL row may still lie above the checkpoint and be delivered later, and text checkpoints on integer columns.
- FullExecution.FullSyncConverges: the primary key is known; `Ties.LoopCopiesIffNoTieAcross` says, for a source at rest, exactly what sorting by a first column without it, or by nothing, costs, equal rows included.
- Values.StoreAndParse: float columns, numeric columns (`Decimals` covers what becomes of a whole decimal checkpoint; its comparison as text and fractions are not modelled) and text columns (the database's collation) are not part of the column type.
- Timestamps.ReadShow: the parser's fallback formats, a trailing `Z`, fractions of other than six digits and zone offsets with seconds are not modelled; only the texts `str` writes are.
- SqlText.StoredCheckpointBounds: the runs of `TableRun` take the zone as kept; the driver returns zoned values in the session's zone, so this fails only where that zone changes between two runs.
- JobBoard.AtMostOneThread: manual runs and runs started by an edit check the status without the row lock and are not steps of the model; pause and resume are single steps although the code saves twice.
- Schedule.DueJobs.TriggerDueJobs: states what the pass writes; the writes of the threads it starts come in with `Schedule.FiresAgainIff`, one run of one job at a time. Cron stepping is a parameter.
- Schedule.NextRunIsLeastBoundary: one fixed clock offset; the time-zone database and daylight saving are not modelled.
- Letters and digits outside ASCII: upper and lower case, and what `int` and `float` read, are modelled for ASCII only.
- Updates and deletes of source rows: the source only grows.
- Connector internals, drivers and catalogue queries: only their contract (ordered slice, atomic insert, truncate) is used.
- A commit that succeeded but was reported as failed: an insert that fails is taken to have been rolled back.
- Errors of the program's own database while it saves logs and statuses, except the checkpoint write, which the code handles.
- A process can die at page boundaries, before and behind the checkpoint write and before the final save of the log, not between a commit and the log update that follows it.
- A query the database rejects is modelled as failing at its first fetch; a table created before a failing setup step is not recorded as an empty target.
- The finite cross-database type table and the column loop of `create_table`.
- Sleeping, timestamps, messages, notifications, the user interface, encryption and migrations.

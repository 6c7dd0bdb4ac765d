# Verified models of the ch-diag core

ch-diag collects diagnostics from ClickHouse servers and turns them into one
report.  These modules model the parts of it whose correctness depends on
interleavings, on loops over dictionaries, or on several functions agreeing with
each other, and prove what those parts promise.

Loops, in-place updates and objects of the original are methods with loops,
arrays and classes here; each is proved against a function or a predicate, and
the promises are lemmas about that specification.

* **Scheduler** (`Scheduler`, `ScheduledSources`, `Schedule`, `SourceSchedules`).
  One source of samples is a state machine over deadlines, completions, the last
  await and cancellation.  Invariants hold over all its runs; the class of the
  source, which shares the record lists with the other sources, refines it.
* **Query pool** (`QueryPool`, `QueryPoolRuns`, `QueryPromise`).  Any number of
  query sources over what they share: the permits of the semaphore, the worker
  threads of the adapter and its identity lock.  The theorems say exactly when
  one source can hold up another.
* **Process sampler** (`ProcessSampler`).  The discover/selected machine keyed by
  process id, and the interval rates of a process and its threads.
* **Charts** (`ChartStream`, `ChartResults`, `ChartLaws`, `ChartCoverage`,
  `ChartBudget`).  The streaming pass with its dictionaries refines a declarative
  formula per point; what a point measures, alignment, coverage numbers and the
  two-level budget follow.
* **Tables** (`SnapshotTable`, `TableLaws`, `TableCells`, `TableRanking`, `Sorting`).
  Grouping, dropping, ranking and limiting: what they conserve, what each cell says
  about the rows of its group, and which rows stand at the top.
* **Plan soundness** (`Versioning`, `Content`, `ContentValidator`, `Filters`,
  `Planner`, `PlanLaws`, `PlanExact`, `Collector`, `CollectTarget`, `CollectionRun`).  The
  content validator runs once; variant selection, fallbacks, transports and the
  references of the artifact rely on it.  `CollectionRun.CollectSelection` ties
  the validator, the plan, the transports and the artifact together.
* **SQL masking** (`SqlMask`, `SqlSpans`, `SqlSplit`, `SqlDepth`, `SqlUnwrap`,
  `SqlRewrites`).  The mask is
  specified by a one-character automaton; locality and concatenation theorems
  justify masking parts of a statement on their own.
* **Adapter** (`AdapterRetry`, `AdapterClose`).  The write-once identity with
  bounded, re-verified repetition, and registration of clients against closing.

`dafny verify dfyconfig.toml` checks the whole project.

## Where the code and its promises differ

* Unwrapping `round` can change what a statement means: `-round(-x)` becomes
  `--x`, a comment, and a value that ends in a line comment takes the text behind
  the call into that comment.  The code is modelled as it is; `SqlUnwrap.RewriteMask`
  says, for every value, exactly when a rewrite keeps every part visible as it was,
  and `SqlUnwrap.MinusRoundMinus` and `SqlUnwrap.CommentTakesTheRest` are inputs for
  which it does not.
* `README.md` lines 257-258 say that a slow or failed source cannot shift
  another source's samples.  Sources do not touch each other's schedules and
  records (`ScheduledSources.StepBeside`), but query sources share three things: the
  permits of the semaphore, the threads of the executor, which a query that timed
  out may keep, and the lock around the identity check after a disconnect.
  `QueryPromise.PromiseHoldsExactly` proves that no run skips an entry of a source
  while another source holds up its task, if and only if there is one query source,
  or no source is due twice, or there are no reconnect attempts and the entries of
  all sources, with the threads still busy from before the window, exceed the workers
  by at most one.  `QueryPromise.NobodyIsHeldUpExactly` says when no task waits for
  another source at all; `PermitWaitExactly`, `ThreadWaitExactly` and
  `LockWaitExactly` say it for each of the three.  `QueryPromise.SlowQueryShifts`,
  `SlowIdentityCheckShifts` and `StuckWorkersShift` are runs in which it fails; in the
  last two there are as many workers as sources.
* Two observations of one series at the same timestamp share one point, the later
  one wins (`ChartResults.ChartPoint`, `ChartResults.SameTimeSharesAPoint`); what a
  series shows at the place of a sample was made in that sample exactly under the
  condition of `ChartResults.ShowsOwnExactly`.
* The loader accepts two spellings of one LTS branch (white space around it).  The
  coverage check then rejects some variants that serve every version;
  `ContentValidator.CheckIsExactWhenSpelledOnce` proves that this is the only way
  in which it is too strict.

## Model

| member | source | states |
|---|---|---|
| `Scheduler.StepInv` | `ch_diag/snapshots.py:168-194` | Every enabled step (time passing, a deadline, the end of a task, the last await, a cancellation) keeps the invariant: launches in schedule order and not before their deadline, only the newest task can be running, every handled entry is either launched or skipped, and the log agrees with the tasks |
| `Scheduler.RunInv` | `ch_diag/snapshots.py:141-194` | The invariant holds after every run, for any interleaving of deadlines and completions |
| `Scheduler.NothingLeftRunning` | `ch_diag/snapshots.py:188-194` | In every run: no two tasks run at once, no launch precedes its deadline, the first entry is never skipped, and once the source has returned or was cancelled no task is running |
| `Scheduler.RunAccounts` | `ch_diag/snapshots.py:169-189` | When a run returns, each schedule entry was either skipped or ended in exactly one task with a sample or an error, and the samples, errors and skip diagnostics together number the schedule |
| `Scheduler.SamplesAscend` | `ch_diag/snapshots.py:154-189` | On an ascending schedule the samples of a run have strictly increasing indices and clock readings that do not go back |
| `Scheduler.SampleAtCompletion` | `ch_diag/snapshots.py:154-166` | Every sample carries the clock reading at which its task succeeded |
| `Scheduler.RunIsBounded` | `ch_diag/snapshots.py:169-189` | A source takes a bounded number of steps other than waiting: each lowers a rank made of the entries left, the running task and the phase |
| `Scheduler.NeverStuck` | `ch_diag/snapshots.py:169-189` | A source that has not stopped always has a next step, at worst after waiting for its next deadline |
| `Scheduler.ReturnedAccounts` | `ch_diag/snapshots.py:188-189` | In every returned state that satisfies the invariant the lists of samples and diagnostics add up to the schedule |
| `ScheduledSources.AppendEach` | `ch_diag/snapshots.py:130-138` | Each listed source id gets the record appended to its own list; every other list is as before |
| `ScheduledSources.ScheduledSource.AtDeadline` | `ch_diag/snapshots.py:170-187` | The loop body after the sleep is the deadline step of the state machine for every id of the source: skip and record if the last task still runs, launch otherwise; no other id is touched |
| `ScheduledSources.ScheduledSource.Finish` | `ch_diag/snapshots.py:154-166` | The end of a task appends one sample or one error to each id of the source, as the state machine says, and leaves nothing running |
| `ScheduledSources.ScheduledSource.Drain` | `ch_diag/snapshots.py:188-189` | Returning is possible only past the whole schedule with nothing running |
| `ScheduledSources.ScheduledSource.Cancel` | `ch_diag/snapshots.py:190-194` | On cancellation a running task is stopped before the source ends; the log is as it was |
| `ScheduledSources.ScheduledSource.Loop` | `ch_diag/snapshots.py:169-187` | For any wake-ups that are not early and any completions in between, the loop handles the whole schedule and touches only its own ids |
| `ScheduledSources.ScheduledSource.Take` | `ch_diag/snapshots.py:168-194` | Any step of the source, with time passing, the final await, the return and a cancellation among them, is one event of the state machine for every id of the source and touches no other id |
| `ScheduledSources.ScheduledSource.Run` | `ch_diag/snapshots.py:141-189` | The whole function without cancellation: afterwards nothing runs, each id holds as many records as the schedule has entries, and for an ascending schedule every entry has left exactly one record for each id: a sample with its index, a skip with its index or an error |
| `ScheduledSources.StepBeside` | `ch_diag/snapshots.py:402-413` | Whatever step a source takes, the whole state of any other source of the same log stays as it was: schedule position, tasks, clock and records |
| `ScheduledSources.RunBeside` | `ch_diag/snapshots.py:402-413` | The same for the whole life of a source |
| `Scheduler.RecordedOnce` | `ch_diag/snapshots.py:154-189` | In a returned source every entry of an ascending schedule has left exactly one of a sample, a skip and an error, and at most one sample carries its index |
| `QueryPool.RunFits` | `ch_diag/snapshots.py:570-584` | In every run of the pool each source keeps the scheduling invariant, a stage exists exactly while a task runs, permits, threads and the identity lock are never given out more often than they are there, and whoever waits has a reason in the sources, the launches or the attempts |
| `QueryPool.OneTaskPerSource` | `ch_diag/snapshots.py:570-579` | In every run a source has at most one running task, so it asks for at most one permit at a time |
| `QueryPool.ThreadsBelowTasks` | `ch_diag/clickhouse.py:441-458` | Each task ever launched accounts for at most one worker thread, one it left behind included |
| `QueryPoolRuns.PermitRun` | `ch_diag/snapshots.py:344-348` | With fewer permits than sources there is a run in which the first sources hold all permits and the next one waits |
| `QueryPoolRuns.QueueRun` | `ch_diag/clickhouse.py:441-458` | When the entries outnumber the threads there is a run in which queries that timed out keep every thread and the query of a chosen source, holding a permit, waits in the queue behind a thread of another one |
| `QueryPoolRuns.LockRun` | `ch_diag/clickhouse.py:378-390` | With two sources, two workers and a reconnect attempt there is a run in which one source waits for the identity check of the other |
| `QueryPromise.PermitWaitExactly` | `ch_diag/snapshots.py:344-348` | No task ever waits for a permit in any run if and only if there are at most max(1, database_workers) query sources |
| `QueryPromise.ThreadWaitExactly` | `ch_diag/clickhouse.py:441-458` | No query ever waits for a thread in any run if and only if the entries of all sources and the threads left over are at most the workers, whatever the reconnect attempts |
| `QueryPromise.LockWaitExactly` | `ch_diag/clickhouse.py:194-200` | No task ever waits for the identity lock in any run if and only if there are no reconnect attempts, at most one source or at most one worker |
| `QueryPromise.WaitersAreHeldUp` | `ch_diag/clickhouse.py:194-200` | Whoever waits while nothing is free is held up by another source; for threads possibly by its own earlier queries or those from before the window |
| `QueryPromise.NobodyIsHeldUpExactly` | `README.md:254-260` | In no run does a task wait for a permit, a thread or the lock that another source has, if and only if there is at most one query source, or there are no reconnect attempts and at least one worker for each entry of all sources and each thread left over |
| `QueryPromise.ShiftIsRecorded` | `ch_diag/snapshots.py:175-186` | A shift adds the entry to the skips and one sample_skipped_source_busy record, launches nothing, and the query of the task is not running |
| `QueryPromise.PromiseHoldsExactly` | `README.md:254-260` | No run skips an entry of a source while another source holds up its task, if and only if there is at most one query source, or no source is due twice, or there are no reconnect attempts and at most one entry more than workers |
| `QueryPromise.SlowQueryShifts` | `README.md:257-258` | Two sources and one worker: a run in which the second task waits for the permit of the first past its next deadline, and that entry is recorded as skipped |
| `QueryPromise.SlowIdentityCheckShifts` | `ch_diag/clickhouse.py:194-200` | Two sources, two workers and one reconnect attempt: the second task waits for the identity check of the first past its next deadline, and that entry is recorded as skipped |
| `QueryPromise.StuckWorkersShift` | `ch_diag/clickhouse.py:444-458` | Two sources, two workers and no reconnect attempt: two queries of the first source timed out and keep both threads, and the second source loses an entry while its query is queued |
| `Schedule.ScheduleOffsets` | `ch_diag/snapshots.py:41-52` | Raises for a non-positive duration, then for a non-positive interval; otherwise the offsets are ceil(duration/interval) multiples of the interval from 0 below the duration, followed by the duration itself, with a last gap in (0, interval] |
| `Schedule.ScheduleAscends` | `ch_diag/snapshots.py:46-52` | The offsets strictly increase and every gap but the last is one interval |
| `Schedule.PyRound` | `ch_diag/snapshots.py:56` | The result is within one half of the argument, and even when the argument lies half-way |
| `Schedule.IostatParameters` | `ch_diag/snapshots.py:55-58` | Interval and number of points are at least one, and more than one point fits into the window |
| `Schedule.IostatParametersExactly` | `ch_diag/snapshots.py:55-58` | The seconds are the whole number nearest to the shorter of interval and window, at least one; the points are as many as fit, at least one |
| `Schedule.IostatElapsed` | `ch_diag/snapshots.py:70-93` | Raises without reports; otherwise the last `points` reports are kept and numbered so that the last one is report number `points` |
| `Schedule.IostatTimesAscend` | `ch_diag/snapshots.py:55-94` | With the parameters computed for the same window the elapsed times lie in (0, duration], strictly increase, and the last is that of report number `points` |
| `Schedule.ElapsedExactly` | `ch_diag/snapshots.py:80-94` | Each kept report ends after its number of intervals, or at the end of the window if that is earlier |
| `SourceSchedules.SourceScheduleAscends` | `ch_diag/snapshots.py:562-568` | Every source runs on an ascending schedule inside the window, whatever its collection scope |
| `SourceSchedules.WindowEndRunsOnce` | `ch_diag/snapshots.py:562-568` | A window_end source launches exactly one task, not before the end of the window, and a run that returns leaves one sample at that offset or one error |
| `SourceSchedules.SnapshotSchedule` | `ch_diag/snapshots.py:562-568` | An every_snapshot source is due at each whole interval below the duration and at the duration |
| `SourceSchedules.OnceRunsOnce` | `ch_diag/snapshots.py:562-568` | A once source has one entry, at the start of the window, and a run that returns leaves one sample of it or one error |
| `ProcessSampler.NormalizedThreadRows` | `ch_diag/samplers.py:222-267` | One row per thread in ascending thread id, each with the identity fields of its thread, and with rates exactly when the two observations can be compared |
| `ProcessSampler.ThreadRowFields` | `ch_diag/samplers.py:233-268` | A row copies the fields of its thread; a rate appears only for the same process, thread and start time, and then exactly when its counter did not fall and its access was there |
| `ProcessSampler.ThreadRatesSound` | `ch_diag/samplers.py:231-265` | A thread rate is present exactly for the same process, thread and start time without a counter reset (and, for I/O, access in both samples), and it is never negative; an I/O rate times the elapsed time is the growth of its own counter |
| `ProcessSampler.ProcessRatesSound` | `ch_diag/samplers.py:201-218` | A process I/O rate is present exactly for the same process and a counter read twice that did not fall; times the elapsed time it is the growth of its own counter |
| `ProcessSampler.ProcessShareSound` | `ch_diag/samplers.py:201-210` | The CPU share is present exactly for the same process and ticks that did not fall; times the elapsed ticks it is a hundred times their growth |
| `ProcessSampler.SelectionAlwaysFits` | `ch_diag/snapshots.py:449-458` | After any sequence of samples and failed commands, a selection of thread ids belongs to the process of the last successful sample |
| `ProcessSampler.SelectionOrigin` | `ch_diag/snapshots.py:433-458` | A selection was read by an earlier discover command, and every successful sample since then was of the same process |
| `ProcessSampler.PidChangeRediscovers` | `ch_diag/snapshots.py:435-458` | A sample of another process than the selected one makes the next command a discover |
| `ProcessSampler.SelectionIsSent` | `ch_diag/snapshots.py:422-458` | The ids a discover command read are sent with every later command while the process stays the same |
| `ProcessSampler.FirstRequest` | `ch_diag/snapshots.py:422-434` | The first command discovers; without thread samplers only the process is read |
| `ProcessSampler.LastSuccess` | `ch_diag/snapshots.py:502-524` | Rates are taken against the last successful sample, over the time since then |
| `ProcessSampler.WarningsOnce` | `ch_diag/snapshots.py:459-500` | No coverage warning is recorded twice, and each of the three is recorded exactly when some sample calls for it |
| `ProcessSampler.Sampler.CollectOnce` | `ch_diag/snapshots.py:429-533` | The command sent and the new memory are those of the selection machine; a failed command changes nothing; otherwise the rows compare the sample with the previous successful one |
| `ChartStream.CounterValue` | `ch_diag/samplers.py:472-479` | Rate and delta: the value is the formula against the latest earlier observation of the same series specification and dimensions, and the dictionary keeps holding the latest observations |
| `ChartStream.RatioValue` | `ch_diag/samplers.py:443-471` | The same for a ratio of deltas, with its own dictionary |
| `ChartStream.ObserveOne` | `ch_diag/samplers.py:431-498` | One usable value extends all dictionaries, the series order, the points and the active sets to what the longer list of observations prescribes |
| `ChartStream.Stream` | `ch_diag/samplers.py:426-498` | The triple loop leaves what the declarative description of all observations prescribes, with several rows per dimension tuple, shared names and name_from_ref included |
| `ChartResults.BuildChartResult` | `ch_diag/samplers.py:411-533` | The result consists of the aligned series that have a value, in order of first appearance, and the coverage of the active sets |
| `ChartResults.PointFormula` | `ch_diag/samplers.py:443-479` | A point shows the formula against the latest earlier usable observation of its specification and dimensions |
| `ChartLaws.ObservationOrigin` | `ch_diag/samplers.py:430-460` | Every observation is what some specification makes of some row: its number is the one at value_ref, its denominator the one at denominator_ref, its dimensions and epoch those of the row |
| `ChartLaws.RowIsObserved` | `ch_diag/samplers.py:430-460` | Every row that has the numbers a specification needs gives an observation |
| `ChartLaws.PointMeasures` | `ch_diag/samplers.py:448-479` | A gauge shows its number; a delta the growth of the counter; a rate times the seconds between, at least a millisecond, is that growth; a ratio times the growth of the denominator is the growth of the counter times the scale; and the value is there exactly when counter and epoch allow it |
| `ChartLaws.FirstIsGap` | `ch_diag/samplers.py:448-479` | The first observation of a specification and its dimensions is a gap, unless it is a gauge |
| `ChartLaws.ChartPointMeasures` | `ch_diag/samplers.py:448-506` | The same of the points of the chart, at the place of the sample |
| `ChartResults.GapExactly` | `ch_diag/samplers.py:449-479` | A counter point is null exactly when there is no earlier observation, a counter fell, the epoch differs or the denominator of a ratio did not grow |
| `ChartResults.NeverNegative` | `ch_diag/samplers.py:456-479` | No rate and no delta is negative; neither is a ratio whose scale is not |
| `ChartResults.ChartAligned` | `ch_diag/samplers.py:500-508` | Every kept series has one point per sample at the timestamp of the sample, and at least one value |
| `ChartLaws.SeriesExactly` | `ch_diag/samplers.py:499-512` | The chart has a series exactly for each observed name and dimensions that show some value |
| `ChartLaws.SeriesInOrder` | `ch_diag/samplers.py:486-512` | The series stand in the order in which they were first observed, each of them once |
| `ChartResults.ChartPoint` | `ch_diag/samplers.py:502-506` | The point at a sample shows the last observation of the series with that timestamp, and is null when there is none |
| `ChartResults.PointOwnsItsSample` | `ch_diag/samplers.py:502-506` | With distinct timestamps the point at a sample shows an observation of that sample and of no other |
| `ChartResults.ShowsOwnExactly` | `ch_diag/samplers.py:502-506` | For every series: whatever observation it shows at the place of a sample was made in that sample, if and only if no sample that brings an observation of the series shares its timestamp with another sample |
| `ChartResults.ChartPointIsOwn` | `ch_diag/samplers.py:502-506` | Under that condition the point of the chart at the place of a sample is the value of the last observation the sample brought for the series, and a gap if it brought none |
| `ChartResults.SameTimeSharesAPoint` | `ch_diag/samplers.py:502-506` | An input with two samples at one timestamp: the later value stands in both places |
| `ChartResults.DeltasTelescope` | `ch_diag/samplers.py:472-479` | Over a stretch without reset or epoch change the deltas sum to the last value minus the first |
| `ChartResults.ChartDeltasTelescope` | `ch_diag/samplers.py:472-479` | The points of a delta series over samples that each bring one observation of it, without reset or epoch change, sum to the last counter minus the first |
| `ChartResults.ChartCoverageLaws` | `ch_diag/samplers.py:510-532` | The chart keeps at most as many series as it observed, and its coverage numbers obey the coverage laws |
| `ChartCoverage.ComputeCoverage` | `ch_diag/samplers.py:510-520` | The loops compute the four coverage numbers of the samples from the first active one on |
| `ChartCoverage.CoverageLaws` | `ch_diag/samplers.py:510-532` | Missing observations are effective samples times observed series minus the sizes of the active sets; they are zero exactly when there is no topology change; there are at most twice as many changes as missing observations |
| `ChartCoverage.MissingZero` | `ch_diag/samplers.py:515-516` | Nothing is missing exactly when every effective sample shows every series |
| `ChartCoverage.ChangesBound` | `ch_diag/samplers.py:515-520` | There are at most twice as many topology changes as missing observations |
| `ChartCoverage.UnionOfEffective` | `ch_diag/samplers.py:510-515` | Leaving out the samples before the first active one leaves out no series |
| `ChartCoverage.WarningMeansGap` | `ch_diag/samplers.py:536-551` | The coverage warning appears exactly when two effective samples show different series |
| `ChartBudget.CutEach` | `ch_diag/samplers.py:569-572` | Every retained series object keeps its newest points, at most the limit |
| `ChartBudget.SpendTotal` | `ch_diag/samplers.py:574-584` | The second loop spends the total in order, cuts the series that exceeds it, skips empty series and stops when nothing is left |
| `ChartBudget.ApplyChartBudget` | `ch_diag/samplers.py:554-611` | Raises and changes nothing exactly when a limit is below one; otherwise the series lists are the budgeted ones, the counts are right and the diagnostic list is empty exactly when no series changed |
| `ChartBudget.ApplyLimits` | `ch_diag/samplers.py:565-611` | For positive limits: the truncation record holds the original and the retained counts and is written exactly when something was cut; kept series are original objects |
| `ChartBudget.BudgetTotal` | `ch_diag/samplers.py:568-584` | The points kept number exactly the smaller of the total limit and what the first two limits leave |
| `ChartBudget.BudgetRespected` | `ch_diag/samplers.py:568-585` | The result respects all three limits, and kept series i is a suffix of the i-th non-empty series among the first max_series |
| `ChartBudget.BudgetUnchanged` | `ch_diag/samplers.py:568-590` | A chart stays as it is exactly when it is within all limits and has no empty series |
| `ChartBudget.BudgetIdempotent` | `ch_diag/samplers.py:568-585` | A second application changes no series |
| `ChartBudget.CountsDecide` | `ch_diag/samplers.py:586-590` | Equal series and point counts mean equal series, so the test that decides on truncation is exact |
| `SnapshotTable.GroupRows` | `ch_diag/samplers.py:304-314` | After the grouping loops there is one group per distinct key in order of appearance, holding exactly the rows with that key, the last of them and their samples |
| `SnapshotTable.RenderGroups` | `ch_diag/samplers.py:332-362` | The rendering loop drops the all-zero groups and computes the cells of the others, in order |
| `SnapshotTable.BuildTableResult` | `ch_diag/samplers.py:298-397` | The whole function computes the specified table: sorted samples, groups, cells, ranking and limit |
| `TableLaws.GroupsPartitionRows` | `ch_diag/samplers.py:306-314` | Every row is in exactly one group: however rows are weighed, the groups weigh as much as the rows |
| `TableLaws.RowsStandAlone` | `ch_diag/samplers.py:309-314` | Without key references each row is a group of its own |
| `TableLaws.DroppingKeepsTotals` | `ch_diag/samplers.py:333-340` | Dropping all-zero groups leaves the total of every drop reference over all rows as it was |
| `TableLaws.RankingIsOrdered` | `ch_diag/samplers.py:370-383` | Ranking permutes the lines, puts missing values last, and no later line ranks before an earlier one |
| `TableLaws.TopLines` | `ch_diag/samplers.py:384-386` | No line cut off by the limit ranks before a kept one, and a line is cut off only when the limit is used up |
| `TableRanking.RankedInOrder` | `ch_diag/samplers.py:370-383` | Of any two ranked lines the numbers descend or ascend as asked, numbers stand before texts when ascending and behind them when descending, folded texts do the same, and missing cells come last |
| `TableRanking.RankingIsStable` | `ch_diag/samplers.py:380-383` | Lines whose cells rank alike stay in the order in which their groups appeared |
| `TableRanking.TableShows` | `ch_diag/samplers.py:384-396` | The rows are the cells of the first ranked lines, as many as a positive limit allows, and without the sort column the lines are not reordered |
| `TableRanking.TopRows` | `ch_diag/samplers.py:380-390` | No line cut off by the limit has a larger number than a row kept when descending, or a smaller one when ascending |
| `TableRanking.SamplesInOrder` | `ch_diag/samplers.py:305` | The samples are taken in the order of their timestamps, equal ones in the order they came |
| `TableRanking.TextBeforeMeaning` | `ch_diag/samplers.py:377` | Texts are ordered by their first difference |
| `TableRanking.SortIndexMeaning` | `ch_diag/samplers.py:366-369` | The column that sorts is the first one with the name |
| `TableLaws.TableIgnoresSampleOrder` | `ch_diag/samplers.py:305` | With distinct timestamps the table does not depend on the order of the samples |
| `TableLaws.MaximumIsGreatest` | `ch_diag/samplers.py:353-354` | A maximum cell is one of the numbers of its group and none of them is greater |
| `TableLaws.AverageBetween` | `ch_diag/samplers.py:351-352` | An average cell lies between any bounds of the numbers of its group |
| `TableLaws.SumCell` | `ch_diag/samplers.py:355-356` | A sum cell is the total weight of the rows of its group |
| `TableCells.EntriesMeaning` | `ch_diag/samplers.py:306-314` | The rows of the samples are grouped sample by sample in their order |
| `TableCells.KeysInOrder` | `ch_diag/samplers.py:308-311` | The groups stand in the order in which their keys first appear, each key once |
| `TableCells.GroupMeaning` | `ch_diag/samplers.py:311-314` | A group holds exactly the rows with its key and exactly the samples they came from |
| `TableCells.KeyCell` | `ch_diag/samplers.py:344-346` | A key cell is what every row of the group has at that key reference |
| `TableCells.LastCell` | `ch_diag/samplers.py:359-360` | A last cell is the value in the latest row of the group |
| `TableCells.CountCell` | `ch_diag/samplers.py:357-358` | A count cell is the number of samples that brought a row of the group |
| `TableCells.AverageCell` | `ch_diag/samplers.py:351-352` | An average times the number of rows with a number is the total of those numbers |
| `TableCells.NoNumberCell` | `ch_diag/samplers.py:351-356` | Without a number the reduced cells are empty |
| `TableCells.MaximumCell` | `ch_diag/samplers.py:353-354` | A maximum cell is there exactly when some row has a number, is one of them, and none is greater |
| `TableCells.LinesMeaning` | `ch_diag/samplers.py:333-362` | There is one line, with the cells of its columns, for each group that has a number other than zero at some drop reference |
| `Sorting.SortMeaning` | `ch_diag/samplers.py:305-382` | Sorting permutes its list and leaves no later element before an earlier one |
| `Sorting.SortIgnoresOrder` | `ch_diag/samplers.py:305` | Without ties the sorted list does not depend on the order of its input |
| `Versioning.VersionOrder` | `ch_diag/versioning.py:13-18` | The order of versions is total, antisymmetric and transitive |
| `Versioning.FirstDifferenceDecides` | `ch_diag/versioning.py:13-18` | The first field in which two versions differ decides their order |
| `Versioning.DecimalRoundTrip` | `ch_diag/versioning.py:34-47` | The decimal text of a number is made of digits, has no leading zero and reads back as the number |
| `Versioning.BranchRoundTrip` | `ch_diag/versioning.py:43-56` | The branch text of a version with a positive major number parses back to its major and minor numbers |
| `Versioning.ParseExactly` | `ch_diag/versioning.py:50-56` | A branch is accepted exactly when, without the white space around it, it is the text of a branch with a positive major number |
| `Versioning.ResolveLtsBranch` | `ch_diag/versioning.py:59-70` | The branch found is a supported one not above the version, no supported branch not above the version is greater, and there is one whenever some supported branch is not above the version |
| `Versioning.BranchResolvesToItself` | `ch_diag/versioning.py:59-70` | On an ascending list every supported branch resolves to itself |
| `Versioning.MatchingMeaning` | `ch_diag/versioning.py:91-103` | No match, exactly one match: the list of matching variants has length zero or one exactly then, and a single match is the one selected |
| `Content.AssignBranches` | `ch_diag/content_loader.py:787-796` | The loop over the branches of a variant stops with an error exactly when a branch is assigned for the second time |
| `Content.ScopeIsCovered` | `ch_diag/content_loader.py:781-802` | A scope passes exactly when no branch has two variants in it and, if any variant declares it, every supported branch has one |
| `Content.ValidateVariantLts` | `ch_diag/content_loader.py:775-802` | Both scopes pass exactly when the variants cover the supported branches in each |
| `Content.CoverGivesOne` | `ch_diag/versioning.py:88-103` | For covered variants, a declared scope and a version that resolves to a branch, selection does not raise and returns the one variant that serves the branch and the scope |
| `Content.UndeclaredSelectsNothing` | `ch_diag/versioning.py:88-103` | A scope that no variant serves selects nothing, for any version |
| `Content.VariantCheckExact` | `ch_diag/content_loader.py:780-802` | For ascending branches the coverage check accepts exactly the variant lists for which every version from the earliest branch on selects exactly one variant in every declared scope |
| `ContentValidator.ValidateItems` | `ch_diag/content_loader.py:361-440` | The loop accepts exactly the item lists with distinct ids, one existing source each and a fallback that is known, of the same kind, with distinct allowed triggers and at least the scopes of the primary query |
| `ContentValidator.ValidateFallbackItems` | `ch_diag/content_loader.py:442-465` | Accepts exactly when every fallback item has an id of its own with the required prefix, one existing query or script, and no fallback of its own |
| `ContentValidator.ValidateQuery` | `ch_diag/content_loader.py:499-549` | Accepts exactly the queries with variants that have an id, a file, distinct known branches, and that cover the supported branches |
| `ContentValidator.ValidateContent` | `ch_diag/content_loader.py:318-624` | The modelled checks together accept exactly the content packs that the declarative conditions describe |
| `ContentValidator.ResolvesFromEarliest` | `ch_diag/versioning.py:59-70` | With validated branches a version resolves exactly when it is not older than the first of them |
| `ContentValidator.ValidatorSound` | `ch_diag/content_loader.py:775-810` | If validation accepts, selecting a variant of any query never raises, and it finds one exactly for the declared scopes and the versions from the earliest branch on |
| `ContentValidator.ContentGuarantees` | `ch_diag/content_loader.py:318-678` | Accepted content has one source for each metric, complete query variants of supported branches, fallbacks of their own ids without a second fallback, and only triggers of their kind |
| `ContentValidator.CheckIsExactWhenSpelledOnce` | `ch_diag/content_loader.py:775-802` | For any branch list the loader accepts, the coverage check is exact if and only if no branch is spelled in two ways |
| `ContentValidator.SecondSpellingRejected` | `ch_diag/content_loader.py:797-802` | With two spellings of one branch there are variants that serve every version and are rejected |
| `Filters.NormalizedFilter` | `ch_diag/planner.py:108-118` | The nested loops collect the trimmed, non-empty comma-separated parts without repetition |
| `Filters.NormalizedMeaning` | `ch_diag/planner.py:108-118` | A normalised filter holds exactly the trimmed, non-empty parts of the given values |
| `Filters.SplitCommasJoin` | `ch_diag/planner.py:114` | Splitting at the commas loses nothing |
| `Filters.SelectedFiltersMeaning` | `ch_diag/planner.py:121-141` | Both filters raise, neither selects everything, item ids are accepted exactly when all of them are known, tags when all of them are |
| `Filters.NormalizedTokens` | `ch_diag/planner.py:113-118` | Every text of a normalised filter is trimmed, non-empty, without comma, and occurs once |
| `Filters.NormalizedIdempotent` | `ch_diag/planner.py:108-118` | Normalising a normalised filter changes nothing |
| `Filters.TagsStable` | `ch_diag/planner.py:135-141` | Canonical tags, given again in any order, select the same canonical tags |
| `Filters.SelectionStable` | `ch_diag/planner.py:203-211` | Filtering with the outcome of a first filtering gives the same selection, so the plan and the requirements computed inside it see the same items |
| `Planner.CollectionRequirements` | `ch_diag/planner.py:144-177` | Host and database items are exactly the selected items that need that target in this mode, in report order, with the placeholder for a cluster without database items |
| `Planner.NeedIdsMeaning` | `ch_diag/planner.py:158-174` | A target has items exactly when some item is selected, runs in this mode and reads from it |
| `Planner.OpenTransports` | `ch_diag/collector.py:185-225` | Which transports are open afterwards and when opening raises, for every collection mode and every combination of needs and SSH options |
| `Planner.PlanSelected` | `ch_diag/planner.py:225-329` | The item loop yields the plan items in report order, or the first error, and a dictionary that lists the ids of each section in plan order |
| `Planner.BuildSections` | `ch_diag/planner.py:331-343` | The section loop lists the non-empty sections in report order with their ids in plan order |
| `Planner.BuildPlan` | `ch_diag/planner.py:193-364` | The version checks come first, then the items, then the sections; every error case is stated |
| `PlanLaws.FallbackSound` | `ch_diag/planner.py:367-463` | For validated content a fallback is planned without error, is of the kind and the target of its primary, and has a variant in every scope the primary declares |
| `PlanLaws.PlanItemSound` | `ch_diag/planner.py:233-329` | Planning an item of validated content cannot fail; whenever it is planned and has a fallback, the fallback is planned too, with a variant for queries |
| `PlanLaws.PlannedFrom` | `ch_diag/planner.py:227-329` | Each planned item comes from a selected report item |
| `PlanExact.ReportItemsMeaning` | `ch_diag/content_loader.py:294-303` | The report lists the items of its sections, section by section, under the id of section and key |
| `PlanExact.PlanIsExact` | `ch_diag/planner.py:227-329` | For validated content and a fitting version the plan holds each wanted report item exactly once, in report order; a query runs exactly when some variant serves the scope, with the variant of the newest supported branch not above the version, a script unless the collection is remote-db-only, a metric in snapshots mode unless it is a sampler under remote-db-only; targets and fallbacks are those the content names |
| `PlanExact.NeededIsPlanned` | `ch_diag/planner.py:144-177` | An item calls for a transport exactly when it is planned, queries outside the scope apart |
| `PlanExact.NeedIdsExactly` | `ch_diag/planner.py:158-177` | The required ids are exactly those of the items that need the target, in report order |
| `PlanLaws.OpenForSelection` | `ch_diag/collector.py:177-225` | Opening the transports that the requirements ask for opens what the selection needs |
| `PlanLaws.TransportSufficiency` | `ch_diag/planner.py:203-302` | For validated content and any filters, modes and scope, planning does not fail, its assertion on the server version included, and every planned item and its fallback find their transport open |
| `PlanLaws.SectionsFollowPlan` | `ch_diag/planner.py:328-343` | The section lists, one after the other, are the ids of the plan items in plan order |
| `PlanLaws.PlannedIdsDistinct` | `ch_diag/planner.py:227-329` | No id is planned twice |
| `Collector.FallbackTriggerMeaning` | `ch_diag/collector.py:501-514` | A fallback trigger is found exactly when the primary was not successful and some diagnostic names an allowed failure kind or code; it is the one named first |
| `Collector.ExecuteSafely` | `ch_diag/collector.py:441-480` | The item keeps the id of the primary; its outcome is that of the fallback exactly when an allowed trigger was found and a fallback exists |
| `Collector.CollectedMeaning` | `ch_diag/collector.py:441-514` | An item shows the outcome of its fallback exactly when the primary failed and its diagnostics name a trigger; a metric collection that raises is an error of each metric; skipped and unsupported items are left out |
| `Collector.StatusKinds` | `ch_diag/artifact.py:34-35` | Every status is successful, failed, or one of unsupported and skipped |
| `Collector.Artifact.OmitUncollected` | `ch_diag/artifact.py:248-256` | Omitted ids leave the items and all sections, and sections left without ids go |
| `Collector.Artifact.ValidateReferences` | `ch_diag/artifact.py:283-291` | Accepts exactly when no id is listed twice and the ids listed are the ids of the items |
| `Collector.RetainedConcat` | `ch_diag/artifact.py:252-256` | Omitting ids section by section omits them from the whole order |
| `Collector.KeepMeaning` | `ch_diag/artifact.py:252-256` | What is kept are the listed ids that are not omitted, still without repetition |
| `CollectTarget.HandleAll` | `ch_diag/collector.py:338-399` | Either loop records, omits or reports every item of its list as specified, and stops early exactly with fail_fast at the first failed item, which it names |
| `CollectTarget.OnlyMeaning` | `ch_diag/collector.py:336-399` | The first loop handles every item but the planned metrics, the second the planned metrics, each in plan order |
| `CollectTarget.CollectedOrOmitted` | `ch_diag/collector.py:338-399` | Each id of a plan is collected exactly when it is not omitted |
| `CollectTarget.KeysAreKept` | `ch_diag/collector.py:338-400` | The collected keys are the plan ids without the omitted ones, and no key is omitted as well |
| `CollectTarget.ProgressOnce` | `ch_diag/collector.py:338-399` | Progress hears of each plan item exactly once |
| `CollectTarget.AccountedAtEnd` | `ch_diag/collector.py:338-405` | The final section lists concatenate to the plan order without the omitted ids, have no repetition, and equal the item keys; each collected item is the result of its plan item |
| `CollectTarget.CollectTarget` | `ch_diag/collector.py:318-405` | For any outcomes and without fail_fast the collection of one target ends with an artifact that accounts for the whole plan and passes its reference checks; with fail_fast it does so when no item failed, and otherwise names the item that failed first in the order of handling |
| `CollectionRun.PlanFitsCollection` | `ch_diag/planner.py:328-343` | The plan of validated content is what the collection needs: distinct ids, listed section by section |
| `CollectionRun.CollectSelection` | `ch_diag/collector.py:177-405` | From validated content and opened transports to the artifact: the plan is that of the content, version, mode and selection, item by item as the content asks (`PlanExact.PlanIs`); collecting it raises exactly when fail_fast is set and an item failed, every planned item and its fallback have their transport, and the artifact accounts for the plan |
| `CollectionRun.FinalizeSummary` | `ch_diag/artifact.py:142-176` | All counts of the summary; successes and failures are disjoint, complete items are successful; the completion status is succeeded exactly without failures and gaps, and failed exactly with a failure and no success |
| `SqlMask.SqlMask` | `tools/normalize_sql_outputs.py:16-53` | The in-place loop with its jumps over comments computes the mask of the character-by-character automaton |
| `SqlMask.MaskLineComment` | `tools/normalize_sql_outputs.py:35-40` | A line comment is blanked up to its newline and the rest of the text is still to be masked from there |
| `SqlMask.MaskBlockComment` | `tools/normalize_sql_outputs.py:41-48` | A block comment, closed or not, is blanked except for its newlines |
| `SqlMask.MaskShape` | `tools/normalize_sql_outputs.py:16-53` | The mask keeps length and newlines, every character is the original or a space, and it holds no quote and no comment opener |
| `SqlMask.MaskFixpoint` | `tools/normalize_sql_outputs.py:16-53` | A text is its own mask exactly when it holds no quote and no comment opener |
| `SqlMask.MaskIdempotent` | `tools/normalize_sql_outputs.py:16-53` | Masking a mask changes nothing |
| `SqlMask.LiteralIsBlank` | `tools/normalize_sql_outputs.py:23-34` | A quoted text is blanked from quote to quote except for newlines, and code goes on behind it |
| `SqlMask.LineCommentIsBlank` | `tools/normalize_sql_outputs.py:35-40` | A line comment is blanked and code goes on at its newline |
| `SqlMask.MaskLocality` | `tools/normalize_sql_outputs.py:16-53` | Masking a slice that starts and ends in code is slicing the mask |
| `SqlMask.VisibleIsCut` | `tools/normalize_sql_outputs.py:16-53` | Next to every visible character the text can be cut without changing any mask |
| `SqlMask.MaskConcat` | `tools/normalize_sql_outputs.py:35-48` | Two texts, the first ending in code, mask independently of each other exactly when no comment opener straddles the joint |
| `SqlMask.MaskConcatLine` | `tools/normalize_sql_outputs.py:35-40` | Two texts, the first ending in a line comment, mask independently of each other exactly when the second survives the comment: it shows nothing before its first newline, and what it shows from there on does not depend on what stands before |
| `SqlMask.SurvivesByBlanks` | `tools/normalize_sql_outputs.py:35-40` | When no literal or block comment reaches across that newline, only the blanks before it matter |
| `SqlMask.QuoteAcrossNewline` | `tools/normalize_sql_outputs.py:23-34` | An input that shows nothing before its newline and still does not survive a comment, because a literal reaches across |
| `SqlSpans.SelectSpans` | `tools/normalize_sql_outputs.py:56-76` | The spans returned are those of the token pairs in token order: exactly the spans from a select token to the next from token at its depth, each once, in ascending order |
| `SqlSpans.ScanDepths` | `tools/normalize_sql_outputs.py:59-66` | The table holds the parenthesis depth of the mask at every offset, and zero at its end |
| `SqlSpans.TokenPairsMeaning` | `tools/normalize_sql_outputs.py:68-75` | The token pairs are each select with the first from behind it at the same depth, and no others |
| `SqlSpans.TokensCover` | `tools/normalize_sql_outputs.py:58` | Every character that can start a word lies in some token |
| `SqlDepth.FromOnLevel` | `tools/normalize_sql_outputs.py:67-75` | While the level of a select is not left, a from closes it exactly when every parenthesis opened in between is closed in between |
| `SqlDepth.FromInSubquery` | `tools/normalize_sql_outputs.py:67-75` | A from inside a parenthesised part behind the select does not close it, unless the level of the select was left before that part |
| `SqlDepth.LeftLevelMatches` | `tools/normalize_sql_outputs.py:59-66` | Behind a level that was left a parenthesised part can be as deep as the select was, so that exception is real |
| `SqlSpans.SpanLocality` | `tools/normalize_sql_outputs.py:56-76` | Masking a span on its own equals the same slice of the whole mask, and both ends have the same depth |
| `SqlSpans.SliceDepth` | `tools/normalize_sql_outputs.py:84-88` | Seen in isolation, depth counts from the lowest level reached so far, which is what ignoring a stray closing parenthesis amounts to |
| `SqlSpans.SpanCommas` | `tools/normalize_sql_outputs.py:79-93` | The commas at which the isolated select list is split are exactly the commas of the statement inside the span at the lowest level the span has reached before them |
| `SqlSpans.SpanOwnCommas` | `tools/normalize_sql_outputs.py:79-93` | Where the span has not climbed out of its level, these are the commas at its own depth |
| `SqlSplit.SplitExpressions` | `tools/normalize_sql_outputs.py:79-93` | The loop cuts the text at its top-level commas |
| `SqlSplit.JoinSplit` | `tools/normalize_sql_outputs.py:79-93` | Joining the pieces with commas gives the text back |
| `SqlSplit.SplitPiecesWhole` | `tools/normalize_sql_outputs.py:79-93` | Splitting a piece again, on its own, gives the piece |
| `SqlSplit.SplitCount` | `tools/normalize_sql_outputs.py:84-92` | There is one cut at every top-level comma and none elsewhere |
| `SqlDepth.NetCounts` | `tools/normalize_sql_outputs.py:109-115` | The net count of a stretch is the number of its opening less that of its closing parentheses |
| `SqlDepth.DepthIsExcess` | `tools/normalize_sql_outputs.py:84-88` | The depth is the number of opening less that of closing parentheses before, less the least such difference of any prefix |
| `SqlDepth.DepthCounts` | `tools/normalize_sql_outputs.py:84-88` | Where no prefix closes more than it opens, the depth is the number of opening less that of closing parentheses |
| `SqlDepth.DepthZeroExactly` | `tools/normalize_sql_outputs.py:84-88` | The depth is zero exactly where every parenthesis opened before is closed before |
| `SqlDepth.TopCommaExactly` | `tools/normalize_sql_outputs.py:89-91` | A comma splits exactly when it is visible and every parenthesis opened before it is closed before it |
| `SqlDepth.CommaInPair` | `tools/normalize_sql_outputs.py:89-91` | A comma between a parenthesis and its partner never splits |
| `SqlDepth.CommaOutsidePairs` | `tools/normalize_sql_outputs.py:89-91` | Where every parenthesis has a partner, a visible comma outside all pairs splits |
| `SqlUnwrap.ScanClosing` | `tools/normalize_sql_outputs.py:133-140` | The scan finds the partner of the opening parenthesis, and reports an imbalance exactly when there is none |
| `SqlUnwrap.SearchRound` | `tools/normalize_sql_outputs.py:129-132` | The first round call of the mask, with its parenthesis, is found exactly when there is one |
| `SqlUnwrap.CallValueIsFirstArgument` | `tools/normalize_sql_outputs.py:143-146` | The value that replaces the call is the stripped text up to the first comma that is not nested |
| `SqlUnwrap.ArgumentsKeepTheirMask` | `tools/normalize_sql_outputs.py:143` | Masking the arguments on their own shows what the whole mask shows there |
| `SqlUnwrap.UnwrapRound` | `tools/normalize_sql_outputs.py:124-147` | The loop computes the repeated rewriting of the first call, or the error it raises, and terminates |
| `SqlUnwrap.UnwrapRoundMeaning` | `tools/normalize_sql_outputs.py:124-147` | Unless it raises, the result has no visible round call, is a subsequence of the text, and equals it exactly when there was no call |
| `SqlRewrites.RoundRewrites` | `tools/normalize_sql_outputs.py:127-147` | The first visible call whose parenthesis is closed is replaced by its stripped first argument, and the loop goes on with exactly that text |
| `SqlRewrites.RoundWithoutValue` | `tools/normalize_sql_outputs.py:144-145` | A call without a value argument raises |
| `SqlRewrites.RoundUnbalanced` | `tools/normalize_sql_outputs.py:141-142` | A call whose parenthesis is never closed raises |
| `SqlRewrites.StripMeaning` | `tools/normalize_sql_outputs.py:146` | The value loses all white space at both ends and nothing else |
| `SqlRewrites.SeamExampleUnwraps` | `tools/normalize_sql_outputs.py:124-147` | -round(-x) becomes --x |
| `SqlRewrites.CommentExampleUnwraps` | `tools/normalize_sql_outputs.py:124-147` | round(x --c, newline, 2)*y becomes x --c*y |
| `SqlUnwrap.ValueEnd` | `tools/normalize_sql_outputs.py:143-146` | The value of a call ends in code, or in a line comment whose newline was stripped |
| `SqlUnwrap.RewriteMask` | `tools/normalize_sql_outputs.py:143-147` | For every value that is not empty, one rewrite shows the text before, the value and the text after, each masked as it was, exactly when the value forms no comment opener with its new neighbours and, if it ends in a line comment, the text after survives that comment |
| `SqlUnwrap.CommentTakesTheRest` | `tools/normalize_sql_outputs.py:146-147` | Such a comment exists: unwrapping a round call whose value lost its newline comments out the text behind the call, although no new comment opener arises |
| `SqlUnwrap.MinusRoundMinus` | `tools/normalize_sql_outputs.py:147` | Such a neighbour exists: unwrapping -round(-x) gives --x, whose mask is blank |
| `SqlUnwrap.FormatFreeMeaning` | `tools/normalize_sql_outputs.py:101-106` | The search ends exactly when no size word with a later parenthesis is left behind the search position |
| `SqlUnwrap.UnwrapFormatReadableSize` | `tools/normalize_sql_outputs.py:96-121` | The loop computes the repeated removal of the size calls behind the search position, or the error it raises, and terminates |
| `SqlUnwrap.UnwrapFormatMeaning` | `tools/normalize_sql_outputs.py:96-121` | The result is a subsequence of the text, and is the text itself exactly when no size call is visible |
| `SqlRewrites.FormatRewrites` | `tools/normalize_sql_outputs.py:100-121` | The first size word that has a parenthesis behind it loses word and parentheses, its arguments stay whole, and the search goes on behind them |
| `SqlRewrites.FormatUnbalanced` | `tools/normalize_sql_outputs.py:116-117` | A size call whose parenthesis is never closed raises |
| `SqlRewrites.FormatStops` | `tools/normalize_sql_outputs.py:101-106` | Without a size word that has a parenthesis behind it the text is returned as it is |
| `SqlRewrites.SizeExampleUnwraps` | `tools/normalize_sql_outputs.py:96-121` | formatReadableSize(x) becomes x |
| `AdapterRetry.Adapter.ExecuteRaw` | `ch_diag/clickhouse.py:392-439` | The pinned identity stays; a query is sent right after the identity query if an identity is pinned, and then only to the pinned server; rows come from the server that was sent the query; result and pinned identity are stated for every connection |
| `AdapterRetry.Adapter.ReadRuntimeContext` | `ch_diag/clickhouse.py:161-192` | No user query is sent; the identity returned is that of the first connection, which is the pinned one if there is one |
| `AdapterRetry.Adapter.DetectRuntimeContext` | `ch_diag/clickhouse.py:153-159` | A successful detection leaves exactly the identity it returned pinned, and a pinned one is never replaced |
| `AdapterRetry.Adapter.VerifyReconnectIdentity` | `ch_diag/clickhouse.py:194-200` | Success means that the server of the check is the pinned one; no user query is sent |
| `AdapterRetry.Adapter.FirstTurn` | `ch_diag/clickhouse.py:371-376` | At most one user query; rows come from the pinned server if there is one |
| `AdapterRetry.Adapter.AttemptTurn` | `ch_diag/clickhouse.py:381-389` | A repeated query is sent at most once per attempt, only after the identity check of that attempt, and its rows come from the pinned server |
| `AdapterRetry.Adapter.ExecuteWithReconnect` | `ch_diag/clickhouse.py:365-390` | At most 1 + reconnect_attempts turns and sent queries; every later turn follows a disconnect and repeats the query only after its identity check; the outcome, rows or the failure raised, is stated for all connections; an identity change found by an attempt is never retried |
| `AdapterRetry.ReconnectSucceeds` | `ch_diag/clickhouse.py:371-390` | With a pinned server, a healthy attempt among the allowed ones brings the rows if only disconnects came before it |
| `AdapterRetry.ChangedServerStops` | `ch_diag/clickhouse.py:384-385` | An attempt that finds another server ends the loop with the identity error, whatever later attempts would bring |
| `AdapterRetry.RowsFromPinned` | `ch_diag/clickhouse.py:378-390` | The rows a repeated query returns come from the pinned server |
| `AdapterRetry.HealthyAnswers` | `ch_diag/clickhouse.py:365-372` | A working connection to the pinned server, or to any when none is pinned, answers at once |
| `AdapterRetry.AttemptDecides` | `ch_diag/clickhouse.py:378-390` | After an attempt a disconnect goes on to the next attempt, if there is one; anything else is the outcome |
| `AdapterRetry.MismatchIsFinal` | `ch_diag/clickhouse.py:194-200` | A check that reads another identity than the pinned one raises the error that is never repeated, and never replaces a pinned identity |
| `AdapterRetry.OtherFailuresStop` | `ch_diag/clickhouse.py:373-376` | A failure other than a disconnect is not repeated |
| `AdapterRetry.NoAttemptNoRepeat` | `ch_diag/clickhouse.py:373-376` | Without reconnect attempts nothing is repeated |
| `AdapterRetry.ContextNeedsEverything` | `ch_diag/clickhouse.py:161-180` | A context read succeeds exactly when both of its queries and all of its checks do |
| `AdapterRetry.Adapter.PerformAll` | `ch_diag/clickhouse.py:153-200` | Over any series of detections, identity checks and query executions, whatever the connections answer and other tasks do in between, an identity once pinned is never replaced |
| `AdapterRetry.UserQueryCounts` | `ch_diag/clickhouse.py:412-432` | Identity and context queries do not count: one execution adds at most one to the number of times the user query was sent |
| `AdapterClose.StepInv` | `ch_diag/clickhouse.py:397-439` | Every step of an execution, a worker or a closer keeps the invariant: the dictionary holds exactly the registered clients, and once the list is taken every registered client is in it |
| `AdapterClose.RunInv` | `ch_diag/clickhouse.py:397-479` | The invariant holds in every interleaving |
| `AdapterClose.EveryClientIsCovered` | `ch_diag/clickhouse.py:404-410` | Once close has taken its list, every client ever registered was removed by its worker or is in the list |
| `AdapterClose.NoneAfterClose` | `ch_diag/clickhouse.py:404-410` | After the flag is set no client is registered any more |
| `AdapterClose.SnapshotIsFinal` | `ch_diag/clickhouse.py:463-467` | The list is taken once and does not change |
| `AdapterClose.ClosedMeansCancelled` | `ch_diag/clickhouse.py:468-479` | When close has gone through its list, every client still registered was cancelled |
| `AdapterClose.CancelledExactly` | `ch_diag/clickhouse.py:468-474` | A client is recorded as cancelled exactly when close has cancelled it |
| `AdapterClose.CloseGoesThrough` | `ch_diag/clickhouse.py:468-479` | Close can always go through the rest of its list |
| `AdapterClose.DoubleCheckNeeded` | `ch_diag/clickhouse.py:398-410` | Without the second test under the lock the invariant fails: a client admitted before close would be registered behind its list |
| `AdapterClose.Registry.RegisterClient` | `ch_diag/clickhouse.py:404-410` | The locked section registers the client exactly when the adapter is not closed, as the step of the state machine does |
| `AdapterClose.Registry.RemoveClient` | `ch_diag/clickhouse.py:433-439` | The locked section at the end of a worker takes its client out, as the step of the state machine does |
| `AdapterClose.Registry.MarkClosed` | `ch_diag/clickhouse.py:463-465` | Only the first close sets the flag; a later one changes nothing |
| `AdapterClose.Registry.TakeSnapshot` | `ch_diag/clickhouse.py:466-467` | The list copied under the lock is that of the state machine |
| `AdapterClose.Registry.TakeAll` | `ch_diag/clickhouse.py:398-479` | Any interleaving of executions, workers and closers leaves the fields as the state machine has them |
| `AdapterClose.RegistryRun` | `ch_diag/clickhouse.py:460-479` | After any interleaving from a new adapter every client still registered is in the list close works on, once there is one |

## Left out

- Arithmetic: Python floats are reals, without rounding, infinities or NaN; a value that is not a finite number is a missing number. Integers are unbounded in both.
- Text: ASCII only. `casefold` is the lower-casing of ASCII letters, white space is the ASCII white space of `strip` and `\s`, and `re` word boundaries are those of ASCII letters, digits and underscore.
- Scheduler: `_sleep_until` is taken never to wake before its deadline. A second cancellation that arrives while the cancelled task is awaited is not modelled.
- Scheduler: what `collect_proc_once` computes for its rows (the Linux counters) is not modelled, only that it appends one sample or raises. Query sources that record several diagnostics of one execution, snapshot markers and the separate iostat process are left out.
- QueryPool: the event loop may wake tasks in any order, and a permit, the lock or a free thread may go to any waiting task, so the order of the waiters is left open. Every query source has at least one schedule entry, as the schedules of the source have. A thread counts as free from the moment it hands over its result; the lock around the dictionary of clients, held for one dictionary operation, and the event loop itself, which encodes results, are not modelled as shared. A cancellation that arrives while a timed-out query waits for its worker is not modelled.
- QueryPool: sources that run on the host (procfs, process, iostat) use no permit, thread or lock of the adapter and are no members of the pool.
- ScheduledSources.ScheduledSource.Run: the timings of wake-ups and completions are inputs; at most one completion per sleep, because at most one task runs. Cancellation is in `Cancel` and in the state machine.
- ProcessSampler: the parser of the script output and the aggregation of threads into pools are not modelled; a sample arrives parsed, with its coverage numbers.
- Charts and tables: rows are maps from a dotted path to a value, so nested dictionaries are flattened; values are compared as texts with their truth value and number. Column descriptors, `json_safe`, labels, units, colours and the delta window are left out.
- SnapshotTable.BuildTableResult: `key_index` is a natural number; Python's negative indices are not modelled.
- ChartBudget.ApplyChartBudget: the series of a chart are distinct objects, because they are updated in place.
- ContentValidator.ValidateContent: only the checks that later code relies on: report items, fallbacks, query variants, metric sources and supported branches. Schema and policy fields, tags, states, instructions, shared queries and files, the text of SQL files, result contracts and chart specifications are left out.
- ContentValidator.ValidateFallbackItems: the check of a fallback item's instruction text is left out.
- ContentValidator.ValidateQuery: the checks of required tables and columns, scope names, SQL files, their text and row limits are left out; scopes are a type here.
- Versioning: parsing a full server version text is not modelled; versions arrive parsed. `select_variant` is modelled with the list of supported branches given, as every caller in the core does.
- Planner: titles, states, metadata, render settings, instructions and file names of plan items are left out; their effect on rendering is not a property of the plan. Section ids of a report are distinct because they are the keys of a mapping.
- Collector: executing a source is an answer given as input, for the primary and for the fallback; exceptions are already error items. Messages, timing, redaction, deadlines of the runtime and the output files are left out.
- Collector.ExecuteSafely: of the replaced item only identity, outcome, coverage and trigger; its title, reason, timing, metadata and the diagnostic put first are left out.
- CollectTarget.CollectTarget: one target only; the counter behind the percentage is not reset between targets, so no claim is made over several.
- CollectTarget.HandleAll: the dictionaries, the omitted set and the progress list that the loops extend are handed from turn to turn; the artifact object receives them afterwards and is changed in place from there on.
- CollectTarget.CollectTarget: of `validate_artifact` only the reference checks are proved; required fields, statuses, columns and rows are left out.
- CollectionRun.FinalizeSummary: the completeness ratio is left out because it is rounded.
- SqlUnwrap.UnwrapFormatReadableSize: one pass leaves a size call that is nested in another one, as the code does.
- `normalize_select_list`, `normalize_sql`, `unwrap_direct_to_string` and `output_alias`: the code gives neither meaning preservation nor idempotence for them.
- AdapterRetry: which kind of failure an exception is, and what each connection answers, are inputs; a timeout of the executor is one of the failures. Delays, settings and the capability cache are left out; the identity lock and the worker threads are in `QueryPool`, not here. Another task may pin the identity wherever the original awaits.
- AdapterRetry.Adapter.VerifyReconnectIdentity: the check of one task; the lock that makes concurrent tasks take turns is in `QueryPool`.
- AdapterClose: clients are named after their execution, which stands for the object identity the dictionary uses. The dictionary is not claimed to be empty after `close`: a queued execution that is cancelled never runs its cleanup.
- SSH sessions, subprocesses, driver calls, files, YAML, HTML, the command line and the test tools: input and output.

# stream-dashboard: a Dafny model of the reactive data pipeline

This project models the pure logic of the stream-dashboard repository, a
Streamlit dashboard that re-renders data files as they appear, change or
disappear. It covers five pieces:

- **File watcher** (`file_watcher.py`, module `FileWatcher`). It diffs the
  previous and the current path→mtime snapshots into `new` / `updated` /
  `unchanged` / `deleted` reports, and `watch` remembers the current snapshot.
- **Reconciliation loop** (`load_json_data` in `dashboard.py`, module
  `Supervisor`). It keeps one display slot and one task handle per
  declaration file, driven by the watcher's statuses. It renders a
  declaration's data inline, from a `.json` file beside it, or by starting a
  streaming ingester over a `.jsonl` file.
- **Streaming ingester** (`async_file_load` in `dashboard.py`, module
  `Ingester`). It batches lines from a JSON-lines file. It flushes on every
  1000th line, or when a read finds nothing new while something is pending.
- **Operation interpreter** (`create_component` and `prepro_MA` in
  `dashboard.py`, module `Pipeline`, on the pandas-like tables of module
  `Frame`). It runs a declaration's named operations over a table and a single
  chart slot. Then it renders the chart, a download button and a preview.
- **Parsers and generators:**
  - the `top -b` output parser (`top.py`, module `TopParser`);
  - the Chrome-trace B/E/X span matcher (`trace-dashboard/trace-dashboard.py`,
    module `TraceSpans`);
  - the FizzBuzz log generator (`data-collector.py`, module `DataCollector`).

Shared helpers:
- `Wrappers`: `Option` and `Result`.
- `OrderedDict`: a Python `dict` with its insertion order.
- `Text`: `strip`, whitespace `split`, `join` and decimal digits.

I/O becomes input, and rendering becomes output:
- the glob result, `getmtime`, file contents and successive `readline()`
  results are parameters;
- `os.path.realpath` is a function parameter;
- Streamlit and plotly calls are events in an output log;
- a chart is an abstract value that records how it was built;
- a started asyncio task is a token with a `cancelled` flag.

The model follows the code as written:
- A failing `getmtime` is not caught. It ends the reconciliation loop as a
  `MetadataError` (file_watcher.py:16). It is not treated as a deletion.
- A line that is not JSON ends the ingester task (dashboard.py:337, 371-373).
  The task does not skip the line.
- A `deleted` status empties the slot but neither cancels the path's task nor
  forgets its handle (dashboard.py:282-284). When the file comes back, the
  handle is overwritten and the old task can never be cancelled.
  `Supervisor.DeleteThenRecreateOrphansTask` proves this leak.
- `prepro.MA` is idempotent only when its destination column differs from
  `src`. With `dst` equal to `src`, a second run averages the average
  (`Pipeline.MovingAverageInPlaceTwice`).
- An exception escaping the loop body (a missing slot, an unreadable file,
  bad JSON, a declaration without `funcs`) ends the whole loop. The model does
  not isolate it per file.

## Model

| member | source | states |
|---|---|---|
| FileWatcher.Init | file_watcher.py:9-11 | a fresh watcher remembers the empty snapshot |
| FileWatcher.ModTimesFrom | file_watcher.py:13-17 | succeeds iff every listed file has a readable time; a failure names a listed file without one; on success the snapshot maps exactly the listed files, each to its own time |
| FileWatcher.ModTimesFromOrder | file_watcher.py:13-17 | the snapshot's iteration order is the order of the (distinct) listing |
| FileWatcher.ClassifyCurrentSpec | file_watcher.py:22-30 | the first loop reports every current path in the current order, with its current time; the status is new when the previous snapshot lacks the path, updated when the times differ (a backdated time included), unchanged when equal |
| FileWatcher.ListDeletedSpec | file_watcher.py:32-34 | the second loop reports exactly the previous paths that are gone, each once, as deleted with no time |
| FileWatcher.CompareFileDictsSpec | file_watcher.py:19-36 | the report names each path of either snapshot exactly once, current paths first in their order; each entry's status and time agree with `Labelled`: new iff only current, deleted iff only previous, updated/unchanged by whether the times differ |
| FileWatcher.Watch | file_watcher.py:38-44 | fails iff some listed file has no readable time, naming such a file; otherwise the pattern is kept and the new snapshot is well formed |
| FileWatcher.WatchSnapshot | file_watcher.py:38-44 | after `watch` the remembered snapshot is the current one (same paths, same times, listing order), and the report compares the old snapshot with it |
| FileWatcher.WatchReport | file_watcher.py:38-44 | the report covers each path that was remembered or is listed now, exactly once, labelled against the old and new snapshots |
| FileWatcher.WatchAgainAllUnchanged | file_watcher.py:38-44 | polling again over an unchanged filesystem reports every path unchanged |
| FileWatcher.DeletedThenReappearsIsNew | file_watcher.py:22-43 | a path reported deleted and listed at the next poll is reported new |
| FileWatcher.NoRepeatedNew | file_watcher.py:22-43 | a path reported with any status but deleted is never reported new at the next poll |
| DataCollector.TallyLine | data-collector.py:55-68 | the substring tests on the generated line bump fizzbuzz for multiples of 15, else fizz for multiples of 3, else buzz for multiples of 5, else nothing |
| DataCollector.CountersAfterCountMultiples | data-collector.py:52-68 | after n iterations from 0, fizzbuzz counts the multiples of 15 below n, and fizz / buzz count the multiples of 3 / 5 that are not multiples of 15 |
| DataCollector.CountersMonotone | data-collector.py:63-68 | counters never decrease from one iteration to a later one |
| DataCollector.LoopEmitsCounters | data-collector.py:53-76 | iteration i emits its clock reading with the counters after the first cnt+i+1 lines |
| DataCollector.ParseAppLogRecords | data-collector.py:45-76 | one record per iteration, carrying that iteration's time and the multiple counts, with counters monotone across records |
| Text.RStrip | top.py:67 | removes exactly the trailing whitespace: a prefix, not ending in whitespace, with only whitespace dropped |
| Text.SplitJoinRoundTrip | top.py:86-90 | splitting the single-space join of whitespace-free words gives the words back |
| Text.DigitsRoundTrip | data-collector.py:55 | the decimal text of `cnt` reads back as `cnt` |
| TopParser.Lit | top.py:35 | a literal matches iff the text starts with it, and the rest is what follows |
| TopParser.UpHour | top.py:35 | `\d{1,2}` takes one or two digits, greedily |
| TopParser.MatchHeaderSound | top.py:34-36 | a matched header is well shaped, and the line is the header's rendering followed by arbitrary text |
| TopParser.MatchHeaderComplete | top.py:34-36 | every well-shaped header, with any number of spaces and any trailing text, is matched with exactly its groups |
| TopParser.GetTopTime | top.py:33-47 | Err(Unmatched) iff the regex fails; Ok iff it matches with a non-empty day count and a valid clock, giving the base date with the header's hour, minute and second and microsecond 0 |
| TopParser.GetTopTimeOfHeader | top.py:33-47 | a rendered header with days and a valid clock reads back as its own time on the base date |
| TopParser.NoDaysUnmatched | top.py:34-39 | a line with no digit run after `up ` followed by ` days,` is reported unmatched |
| TopParser.ShortUptimeUnmatched | top.py:34-39 | every header whose uptime is under a day (`up`, any blanks, one or two hour digits, a colon), with any clock and any trailing text, is reported unmatched |
| TopParser.OneDayUptimeUnmatched | top.py:34-39 | every header whose uptime reads `1 day,`, with any clock and any trailing text, is reported unmatched |
| TopParser.RowOfLine | top.py:86-106 | a row line with at least 12 fields gives eleven one-word columns and a command whose words are fields 11.., and key = PID + " " + COMMAND |
| TopParser.HeaderStep | top.py:70-74 | a `top -` line sets the scan time or fails with its error; any other line leaves the scan alone |
| TopParser.TableStep | top.py:75-107 | lines before `  PID` are ignored; the column header enters the table; a blank line ends the block with the rows so far; a short row fails; a row is appended with the current scan time |
| TopParser.ScanLines | top.py:60-108 | a parsed block consumes a non-empty prefix of the input; rows only grow and are well shaped; without follow the parse never waits |
| TopParser.RowsCarryScanTime | top.py:70-104 | with no further `top -` line, every new row carries the current scan time |
| TopParser.NoRowsBeforeHeader | top.py:75-79 | no row is produced before a `  PID` line |
| TopParser.BlankLineEndsBlock | top.py:80-84 | inside the table, a blank line ends the block with the rows collected so far |
| TopParser.EndOfFileEndsParse | top.py:61-64 | without follow, end of file ends the parse with the rows so far |
| TopParser.ShortRowFails | top.py:86-88 | a table row with fewer than 12 fields fails the parse |
| TopParser.BadHeaderFails | top.py:70-73 | a `top -` line whose time cannot be read fails the parse with that error |
| TopParser.StreamBlocks | top.py:118-131 | written blocks only grow, each non-empty and well shaped; without follow the loop never suspends |
| TopParser.StreamTopOutput | top.py:111-132 | an unreadable creation time aborts before anything is written; every written block is non-empty |
| TopParser.FirstFailureStops | top.py:119-122 | the first parse failure ends the stream with nothing written; `Unmatched` and `ShortRow` are the source's returned errors, while `BadInt` and `BadClock` stand for the ValueError that `int('')` or `datetime()` raises out of the function |
| TopParser.FirstBlockWritten | top.py:123-131 | a non-empty first block is written and the loop continues on the remaining input |
| TraceSpans.Apply | trace-dashboard/trace-dashboard.py:74-95 | processing an event keeps the state's dicts well formed |
| TraceSpans.OpenRecordsDepth | trace-dashboard/trace-dashboard.py:77-92 | B and X push an open span at the thread's current depth, then raise that depth by one |
| TraceSpans.EndClosesTop | trace-dashboard/trace-dashboard.py:81-87 | E closes the top open span of its key at the event's time and lowers the depth; with no open span it only warns |
| TraceSpans.ApplyKeepsInv | trace-dashboard/trace-dashboard.py:74-95 | each thread's depth equals its number of open spans; X queues one event; opened spans are counted once, open or closed |
| TraceSpans.DepthNonNegative | trace-dashboard/trace-dashboard.py:50-92 | a thread's depth is never negative |
| TraceSpans.Select | trace-dashboard/trace-dashboard.py:58-69 | picks the first queue whose last X ended strictly before the next event on its thread (any non-empty queue at the end), and none is due when it picks none |
| TraceSpans.Run | trace-dashboard/trace-dashboard.py:52-95 | the loop terminates with every queue drained and every opening event accounted for as an open or closed span |
| TraceSpans.SortByStart | trace-dashboard/trace-dashboard.py:100 | the result is sorted by start and is a permutation of the spans |
| TraceSpans.RowsOfClosed | trace-dashboard/trace-dashboard.py:101-111 | one row per closed span, in order, with duration = end - start and y = -tid*1000 - depth |
| TraceSpans.KeyRowsSorted | trace-dashboard/trace-dashboard.py:98-112 | a key's rows are sorted by start, with duration = end - start and y from the span's depth |
| TraceSpans.ProcessTraceAccounts | trace-dashboard/trace-dashboard.py:45-114 | at the end all queues are drained, every opening event is an open or closed span, and no depth is negative |
| Frame.FromRecords | dashboard.py:295 | the table has every key of the records in first-appearance order, one row per record, and a missing key gives a null cell |
| Frame.SetColumn | dashboard.py:204 | writing a column keeps an existing column's place or appends a new one, and leaves all other columns alone |
| Frame.DropColumn | dashboard.py:243-244 | dropping a column removes exactly that column |
| Frame.ResetIndex | dashboard.py:362 | prepends a positional 0..n-1 column named `index` (`level_0` when `index` exists), and raises when both names are taken |
| Pipeline.RollingMean | dashboard.py:204 | same length; the first window-1 positions are null; every value is null or a number |
| Pipeline.RollingMeanOfConstant | dashboard.py:204 | over a constant column every full window averages to the constant |
| Pipeline.RollingMeanExample | dashboard.py:204 | a window of 5 over 1..6 gives four nulls, then 3 and 4 |
| Pipeline.MovingAverage | dashboard.py:198-204 | a successful `prepro_MA` keeps the row count and a well-formed table |
| Pipeline.MovingAverageNoSource | dashboard.py:199-201 | without a truthy `src` the table is unchanged |
| Pipeline.MovingAverageShape | dashboard.py:202-204 | the average goes to `dst` or `{src}(MA_{window})`, with window 5 by default; its first window-1 rows are null; every other column is kept |
| Pipeline.MovingAverageIdempotent | dashboard.py:198-204 | when the destination column differs from `src`, running the same `prepro.MA` twice gives the same table as once |
| Pipeline.MovingAverageInPlaceTwice | dashboard.py:198-204 | when `dst` names `src` itself a second run averages the average, so the operation is not idempotent: over 1, 3 with window 2 the column goes to null, 2 and then to null, null |
| Pipeline.NeedArgs | dashboard.py:211-235 | `func["args"]` succeeds iff the operation has arguments |
| Pipeline.ArgColumn | dashboard.py:229-234 | the axis lookup succeeds iff the argument names an existing column, and yields that column |
| Pipeline.AddTrace | dashboard.py:228-235 | adding a trace needs an existing chart and changes neither table nor log; the declaration's arguments are left as they were |
| Pipeline.AddTraceAsWrittenFirstCall | dashboard.py:228-235 | on a declaration fresh from JSON, the as-written `add_scatter` / `add_bar` succeeds exactly when `AddTrace` does, with the same x and y columns |
| Pipeline.AddTraceAsWrittenSecondCallRaises | dashboard.py:228-235 | after one successful call, the as-written operation holds a column in place of its `x` name, so calling it again raises KeyError on any table |
| Pipeline.AddTraceRepeatable | dashboard.py:228-235 | with the arguments left alone, a later table with the same columns and a chart gets the trace again |
| Pipeline.Step | dashboard.py:208-239 | an operation keeps the table well formed with the same rows and appends at most one non-render event |
| Pipeline.Display | dashboard.py:212-239 | a display operation appends exactly one non-render event and changes neither table nor chart |
| Pipeline.Plot | dashboard.py:220-235 | a chart operation changes neither table nor log |
| Pipeline.UnknownNameSkipped | dashboard.py:238-239 | an unknown name is reported and nothing else changes |
| Pipeline.ChartConstructorsReplaceSlot | dashboard.py:220-225 | make_subplots, px.line and px.scatter replace the chart slot with a fresh chart of their arguments |
| Pipeline.EditWithoutChartRaises | dashboard.py:226-235 | update_layout, add_scatter and add_bar with no chart raise |
| Pipeline.RunOps | dashboard.py:207-239 | the loop keeps the table's shape and only appends to the log |
| Pipeline.RunOpsConcat | dashboard.py:207-239 | running a + b is running a, then b from where a stopped, and b never runs once a raised |
| Pipeline.AbortSkipsRest | dashboard.py:207-258 | the first raising operation aborts all later ones with the state it left |
| Pipeline.OpsEmitNoRender | dashboard.py:208-239 | the operation loop itself renders no chart, download or preview; the `top` operation is one abstract `TopGraph` event, although `create_top_graph` draws three charts of its own |
| Pipeline.Enrich | dashboard.py:182-191 | the added date columns keep all existing columns and rows; the millisecond fallback that also rewrites `unixtime` is not modelled |
| Pipeline.CreateComponent | dashboard.py:180-258 | raises to its caller iff the declaration has no `funcs`, with enrichment taken never to raise (a `unixtime` that `pd.to_datetime` rejects would also raise to the caller) |
| Pipeline.AbortedRendersNothing | dashboard.py:255-258 | an aborted run ends with the reported error and renders nothing |
| Pipeline.CompletedRendering | dashboard.py:240-254 | a completed run renders a chart iff one was made, always a download titled by the declaration (default "data"), and a preview iff the table has fewer than 1000 rows |
| Ingester.Build | dashboard.py:350-359 | over objects, lists of objects and other values, builds a table iff all values are objects or all are lists of objects, with one row per record |
| Ingester.FlushNow | dashboard.py:346-364 | a flush moves pending data onto the cumulative data and clears pending; the flushed table has one row per record and a positional index column first |
| Ingester.Ingest | dashboard.py:332-364 | renderings only grow, each sees a prefix of the next, and while running nothing read is lost: data + pending = everything read |
| Ingester.Continue | dashboard.py:346-364 | a flush that fails stops the task, and one that succeeds is recorded before the loop continues |
| Ingester.LineBuffered | dashboard.py:335-341 | a line that does not bring the line count to a multiple of 1000 is buffered without a flush |
| Ingester.ThousandthLineFlushes | dashboard.py:335-364 | the 1000th, 2000th, … line triggers a flush of all data read so far |
| Ingester.NoDataFlushesIffPending | dashboard.py:342-347 | an empty read flushes iff something is pending, and otherwise only waits |
| Ingester.FlushHandsOnAll | dashboard.py:346-348 | a flush hands on the cumulative data, with pending appended in order |
| Ingester.MalformedLineStops | dashboard.py:337-373 | a line that is not JSON ends the task |
| Ingester.PendingBelowThreshold | dashboard.py:334-341 | fewer than 1000 values are ever pending |
| Supervisor.Start | dashboard.py:263-267 | the empty loop state satisfies the loop invariant |
| Supervisor.Dirname | dashboard.py:297-298 | the directory name is a prefix of the path |
| Supervisor.PathJoin | dashboard.py:300-301 | an absolute reference replaces the base; otherwise the result starts with the base and ends with the reference |
| Supervisor.Extension | dashboard.py:302 | the extension is empty or a dot-led suffix of the path without slashes |
| Supervisor.ReferenceBesideDeclaration | dashboard.py:297-301 | a relative reference resolves beside the declaration file |
| Supervisor.ExtensionOfSuffix | dashboard.py:302 | `stem.x` has extension `.x` |
| Supervisor.HiddenNameHasNoExtension | dashboard.py:302 | a dot file `dir/.x` has no extension |
| Supervisor.Show | dashboard.py:319 | rendering into the path's slot raises exactly when the declaration lacks `funcs` |
| Supervisor.ShowIsCreateComponent | dashboard.py:319 | that failure is exactly `create_component` raising, with its exception |
| Supervisor.LoadJson | dashboard.py:303-305 | a missing or invalid `.json` file ends the loop; a readable one is rendered and starts no task |
| Supervisor.LoadRef | dashboard.py:297-314 | `.jsonl` starts one task for the path and stores its handle; `.json` renders; any other extension reports it in the slot and starts nothing |
| Supervisor.LoadDecl | dashboard.py:294-319 | inline `data` renders; neither field reports it; a task starts iff the declaration streams |
| Supervisor.Load | dashboard.py:291-293 | a missing or invalid declaration file ends the loop; otherwise it is loaded |
| Supervisor.CancelTask | dashboard.py:277-278 | cancels exactly the stored task, if any, and nothing else |
| Supervisor.NewSlot | dashboard.py:272-274 | new gives the path a fresh slot after all others, and a None task handle |
| Supervisor.HandleNew | dashboard.py:272-319 | a new path gets the next slot; the path's earlier running tasks lose their handle |
| Supervisor.ClearSlot | dashboard.py:275-279 | updated empties the slot and cancels the stored task, if any |
| Supervisor.HandleUpdated | dashboard.py:275-319 | updated keeps the slot and cancels exactly the stored task before anything new starts |
| Supervisor.HandleDeleted | dashboard.py:282-284 | deleted empties the slot, leaves the task handle, and fails only when the path has no slot |
| Supervisor.Notify | dashboard.py:285-287 | an unknown status is reported outside the slots and the path is skipped |
| Supervisor.Handle | dashboard.py:270-287 | unchanged does nothing; deleted only empties the slot; updated cancels; new takes the next slot; the only missing slot is that of an updated or deleted path never seen as new |
| Supervisor.TaskStartedIffStreams | dashboard.py:294-319 | for new and updated paths a task is stored iff the declaration has `ref-data` with a `.jsonl` file, and then it follows the declaration's directory |
| Supervisor.DeleteThenRecreateOrphansTask | dashboard.py:272-284 | deleting leaves the task running with its handle, and a later new status orphans it |
| Supervisor.Entries | dashboard.py:270-271 | the loop visits the report's entries in order, with each status's name |
| Supervisor.ReconcileCreatesSlots | dashboard.py:270-274 | every path reported new has a slot afterwards |
| Supervisor.ReconcileKeepsNotices | dashboard.py:270-287 | with only known statuses nothing is reported outside the slots |
| Supervisor.ReconcileMissingSlot | dashboard.py:275-284 | a missing slot belongs to a path reported updated or deleted that had none before |
| Supervisor.ReconcileUnchanged | dashboard.py:280-281 | a report of only unchanged paths changes nothing |
| Supervisor.Apply | dashboard.py:270-319 | reconciling a watcher report keeps the invariant, never hits a missing slot, and keeps orphans orphaned |
| Supervisor.Cycle | dashboard.py:268-321 | a poll fails on metadata iff some listed file has no time; otherwise the invariant holds, no slot is ever missing, and orphans stay orphaned |
| Supervisor.QuietPollChangesNothing | dashboard.py:268-321 | a poll that finds the filesystem as remembered leaves everything as it was |
| Supervisor.WatchAgainQuiet | file_watcher.py:38-44 | when the watcher comes back as it was, every report entry is unchanged |
| Supervisor.Supervise | dashboard.py:268-321 | across any sequence of polls the invariant holds and no slot is ever missing |
| Supervisor.SuperviseKeepsOrphans | dashboard.py:268-321 | across any sequence of polls nothing is reported outside the slots and an orphaned task stays orphaned for good |

## Left out

- Streamlit and plotly internals are abstract events and chart values. This
  covers `st.*`, `px.*`, `make_subplots`, `update_layout`, `add_scatter`,
  `add_bar` and `create_top_graph`.
- asyncio scheduling and interleaving are not modelled. Each ingester is a
  separate function of its own input. A task is a token, and
  `task.cancel()` sets its flag.
- `st.session_state.running` is not modelled. The loops run for as long as
  their input lasts.
- Sleeps, the clock, `uuid` and the download file name are left out. So are
  `pd.to_datetime` and the time-zone columns: `Pipeline.Enrich` adds the two
  date columns with opaque values.
- `glob`, `os.path.realpath` and file reads become inputs. The path listing,
  the readable modification times and the parsed contents are given.
- `get_file_creation_time` is not modelled. Its result is an input of
  `TopParser.StreamTopOutput`.
- Pipeline.AddTrace: it does not rewrite the operation's `args` in place as
  `add_scatter` and `add_bar` do. That rewrite matters: a streamed
  declaration is one dict that `Ingester.Ingest` passes to every flush
  (dashboard.py:308, 364). So from the second flush on, the lookup raises
  KeyError, and the error replaces the chart, download and preview. The model
  keeps the intended behaviour; the Findings table below records the defect.
- `components.py`, `authenticate`, `scripts/gen-password-hash.py` and the
  memory, `ls` and top-graph loops are UI or I/O only.
- `FileWatcherConst` is not part of this model. Its four constants are taken
  to be the status strings `new`, `updated`, `unchanged` and `deleted`.
- `test.py` calls `transform_link_path`, which is not part of this model.
- The source's regex `\d` also accepts non-ASCII decimal digits. The model
  accepts only ASCII digits.
- Floating-point arithmetic is exact `real` arithmetic. This affects the
  rolling mean and trace timestamps, which are taken as integers.
- Ingester.Build: a line holding a list of non-objects, such as `[1, 2]` or
  `[[1, 2], [3, 4]]`, is a `Scalar` value, so the model raises and stops the
  task. pandas would build a table with integer-named columns instead.
- pandas is approximated:
  - mixed object / list values make the table builder raise a ValueError;
  - a non-numeric column under `prepro.MA` raises a DataError;
  - a window of 0 gives all nulls;
  - the positional index assumes the default `RangeIndex`.
- `pd.to_datetime` in `Pipeline.Enrich` is taken never to raise. A
  non-numeric `unixtime` would make `create_component` raise to its caller.
  The millisecond fallback that also rewrites `unixtime` is left out.
- In `Pipeline.AddTraceAsWritten` a column stored back into the arguments is
  an opaque value that pandas does not accept as a column key. A column whose
  values all name columns would instead select those columns.
- Trace events are assumed to carry every field the function reads. A
  missing key would raise.
- A slot holds what was drawn into it as `(records, declaration)`. The page
  that drew is `Supervisor.Drawn`, which is `create_component`'s log.
- TraceSpans.SortByStart: stability of Python's sort is not proved. Spans
  with equal starts may come out in any order in the model's statement.
- Pipeline.MovingAverage: its own contract states only the table's shape. The
  column contents are stated by `Pipeline.MovingAverageShape`,
  `Pipeline.MovingAverageNoSource` and `Pipeline.RollingMean`.
- Pipeline.CreateComponent: its own contract states only when it raises. What
  it renders is stated by `Pipeline.CompletedRendering` and
  `Pipeline.AbortedRendersNothing`.

## Findings

| source | as written | input that shows it | evidently intended | confidence | as-written member | corrected member |
|---|---|---|---|---|---|---|
| dashboard.py:228-235 | `add_scatter` and `add_bar` overwrite `func["args"]["x"]` and `["y"]` with the looked-up columns, and the dict belongs to the declaration | a `.jsonl` stream whose declaration has `px.line`, then `add_scatter` with `x: "t"`, `y: "v"`, given 1000 lines and then one more line before a quiet read: the second flush raises KeyError and shows the error in place of the chart | every flush draws the chart from the declaration's column names | high; not executed | Pipeline.AddTraceAsWrittenSecondCallRaises | Pipeline.AddTraceRepeatable |

# Resumable solver sweep: a verified model of its bookkeeping

The script `compute-times-parallel.py` runs a SAT solver over every `*.cnf` file in a
folder. A process pool runs the tasks and kills any task that exceeds a per-file timeout.
Results go to a checkpoint CSV (`filename, seconds, sat, nof_vars, nof_clauses`), and a
later run resumes from that file. This project models the script's bookkeeping in Dafny
and proves properties of it:

- **Work selection** (`collect_files`, module `Selection`). It keeps the scanned files that
  the checkpoint does not name, in scan order. It then appends the filename of every
  checkpoint row that has no verdict and whose `seconds` is below the timeout.
- **Dispatch and recording** (`process_files_in_folder`, module `Dispatch`). This is a
  sequential fold over the work list. Each file first gets the placeholder
  `[timeout, None, None, None]`. The worker itself overwrites it with its record (line 28);
  the done-callback (lines 68-77) never writes the table. So the entry is the worker's
  record whenever the worker reached that assignment, and the placeholder when a timeout
  kill or an exception came first. The progress counter goes up once per task.
- **Checkpoint merge** (the `__main__` block, modules `Checkpoint` and `Resume`). The prior
  rows and the new rows are concatenated, prior rows first, with no de-duplication.

Modelling choices:

- The result dictionary is an insertion-ordered list of rows (`Dispatch.Table`). A Python
  dict keeps its keys in first-insertion order, and assigning to an existing key keeps its
  position.
- `seconds` and the timeout are `real`. The model only compares them.
- The script's `timeout` is a module global set in `__main__`. `process_files_in_folder`
  gets the same value as a parameter. The model passes one explicit `timeout` everywhere.
- `SOLVE_TIMEOUT` is the `retryTimedOut` parameter of `Selection.CollectFiles`.
  `Resume.RunMain` and `Resume.RunMainCorrected` pass the script's value, `true`.
- Each task's result is an abstract `Records.Outcome`. `Completed(...)` means the worker
  reached the assignment at line 28, even if the pool later reports a kill or an exception
  (for instance while the solver is being closed). `TimedOut` and `Failed` are a kill or an
  exception before that line.

Behaviours of the code that a reader of its comments might not expect, and that the model
keeps as written:

- Saving concatenates the prior and the new rows (line 106); it does not replace a file's
  old rows.
- The work list is not de-duplicated. The code appends one retry entry per retryable row
  (line 51), so a file with two retryable rows is scheduled twice.
- A first run (no checkpoint file) that has nothing to scan ends with a `ValueError` at the
  save (line 109): the empty result dictionary becomes a table with no columns, which
  cannot take the four header names. `Resume.RunMain` returns `HeaderWithoutColumns` then.

## Model

| member | source | states |
|---|---|---|
| `Selection.CollectFiles` | compute-times-parallel.py:30-57 | A folder that is not a directory gives the `ValueError` and nothing else does. With no checkpoint, the result is exactly the scan, in order. With a checkpoint, a file is selected iff it is scanned and named in no row, or (when retrying is on) some row for it has no verdict and `seconds` below the timeout. |
| `Selection.SelectionShape` | compute-times-parallel.py:44-51 | The selection starts with the unrecorded scanned files, as a subsequence of the scan and covering all of them. The rest is exactly the filename column of the retryable rows, one entry per row, in row order (and empty when retrying is off). |
| `Selection.RecordedFileOnlyRetried` | compute-times-parallel.py:44-51 | A scanned file that the checkpoint names is selected iff it has a retryable row. |
| `Selection.SettledFileNotSelected` | compute-times-parallel.py:49-51 | A named file whose rows are all done (verdict present) or exhausted (`seconds >= timeout`) is never selected. |
| `Selection.RetryNames` | compute-times-parallel.py:49-51 | A filename is in the retry list iff some row for it is retryable. The list is no longer than the checkpoint. |
| `Selection.RetryNamesAreFilteredColumn` | compute-times-parallel.py:49-51 | The retry list is the filename column of the retryable rows, in row order, one entry per row. Duplicates are kept. |
| `Selection.Unrecorded` | compute-times-parallel.py:44-45 | A file is kept iff it is scanned and named in no checkpoint row. The kept files are a subsequence of the scan. |
| `Sequences.Filter` | compute-times-parallel.py:45 | `list(filter(...))` keeps exactly the elements that satisfy the predicate, in their original order. |
| `Sequences.DistinctKeepsFirstOrder` | compute-times-parallel.py:82-83 | Dropping repeats keeps each value in the order of its first occurrence: `dict` keys, assigned in work-list order, keep their first-insertion position. |
| `Sequences.FilterMultiplicity` | compute-times-parallel.py:45 | Filtering keeps each accepted element as often as it occurs and drops every rejected one. |
| `Records.StatusPartition` | compute-times-parallel.py:50 | Under a given timeout, every row is exactly one of done, retryable or exhausted. |
| `Records.PlaceholderRetryableIffLarger` | compute-times-parallel.py:83 | A placeholder written under timeout `T` is exhausted under `T`. A later run retries it iff that run's timeout is strictly larger than `T`. |
| `Records.EntryRetryableOnlyIfInconclusive` | compute-times-parallel.py:26-28 | Under the timeout it was written with, a settled entry is retryable iff its task completed with no verdict in less than the timeout. |
| `Dispatch.Put` | compute-times-parallel.py:83 | Dict assignment: the key then maps to the new record and every other key keeps its value. An existing key keeps its position; a new key is appended. |
| `Dispatch.Settle` | compute-times-parallel.py:68-86 | One task's life: afterwards its file maps to the worker's record if the worker reached its assignment at line 28, and to the placeholder otherwise. Other files are untouched and the counter goes up by exactly one. |
| `Dispatch.ProcessFiles` | compute-times-parallel.py:59-88 | The counter ends at the length of the work list, whatever mix of completions, timeouts and failures. The table's keys are the distinct scheduled files in first-scheduling order. Each file holds what its last task left: the adapter's record or the placeholder. |
| `Dispatch.EveryDispatchedFileHasOneEntry` | compute-times-parallel.py:82-83 | The returned keys are exactly the scheduled files, each exactly once, and every scheduled file has an entry. |
| `Dispatch.RowsAreRecordsOrPlaceholders` | compute-times-parallel.py:71-83 | Every returned row is the settled entry of one of its file's tasks: an adapter record or the run's placeholder, never anything else. |
| `Dispatch.LookupRow` | compute-times-parallel.py:88 | In a table with distinct keys, looking up a row's filename returns that row's record. |
| `Checkpoint.Append` | compute-times-parallel.py:104-106 | The written checkpoint is the prior rows, unchanged and in place, followed by the new rows. Its length is the sum of the two. |
| `Checkpoint.AppendKeepsDuplicates` | compute-times-parallel.py:106 | For each filename, the written file has as many rows as the prior file and the new rows together. A row is written iff it is a prior row or a new row. |
| `Checkpoint.Upsert` | compute-times-parallel.py:104-109 | The corrected merge writes every new row. A prior row is kept, in its original order, iff no new row has its filename. |
| `Resume.RunMain` | compute-times-parallel.py:91-109 | A bad folder aborts the run. A first run with nothing scanned fails at the save. Every other run writes the prior rows, unchanged, followed by one row per distinct selected file, in selection order, holding what that file's last task left. |
| `Resume.RunMainCorrected` | compute-times-parallel.py:99-109 | With the corrected merge, the failures are the same. Otherwise the written file ends with one row per distinct selected file, holding what its last task left. Every prior row of a file that was not selected survives. |
| `Resume.CorrectedRunWrites` | compute-times-parallel.py:99-109 | The checkpoint a corrected run leaves for the next run is the merge of this run's table, except after a first run with nothing scanned, which leaves none. |
| `Resume.AppendKeepsStaleRetry` | compute-times-parallel.py:106 | As written, once a retryable row is in the checkpoint, every later run with that timeout selects its file again, whatever rows were appended after it. |
| `Resume.CorrectedResumeSettles` | compute-times-parallel.py:42-51 | With the corrected merge, the next run with the same timeout and scan selects only files whose last task in this run completed with no verdict in less than the timeout. |
| `Resume.SettledFromWritten` | compute-times-parallel.py:42-51 | The same, given that the written checkpoint is the merge of this run's table. |
| `Resume.CorrectedResumeIsIdempotent` | compute-times-parallel.py:42-51 | With the corrected merge, if no scheduled task ended with no verdict before the timeout, the next run with the same timeout and scan selects nothing. |
| `Resume.SettledAfterCorrectedRun` | compute-times-parallel.py:49-51 | After a corrected run, each file the next selection picks is a selected file of this run whose last task ended with no verdict before the timeout. |
| `Checkpoint.UpsertNames` | compute-times-parallel.py:104-109 | The corrected merge names a file iff the prior rows or the new rows name it: no file is lost and none is invented. |
| `Resume.ScannedFileRecorded` | compute-times-parallel.py:44-51 | After a corrected run, the checkpoint names every scanned file: each was either selected and so got a new row, or already named by the prior checkpoint. |
| `Resume.RetryableRowIsNew` | compute-times-parallel.py:49-51 | After a corrected run, every retryable row is a new row: the entry of its file's last task in this run, which completed with no verdict in less than the timeout. |
| `Scenarios.FreshRunMixedOutcomes` | compute-times-parallel.py:68-86 | No checkpoint, timeout 5: `a` solves in 1 s, `b` times out and `c` raises. The counter is 3. `a` holds its record, and `b` and `c` keep the 5-second placeholder. |
| `Scenarios.ResumeRetriesShortTimeout` | compute-times-parallel.py:44-51 | `a` is solved and `b` was cut off at 2 s. With threshold 5 the selection is `c` then `b`, and `a` is skipped. |
| `Scenarios.ResumeSkipsExhausted` | compute-times-parallel.py:49-51 | `b` was cut off at 9 s. With threshold 5 it is exhausted and not selected. |
| `Scenarios.StaleFileRerun` | compute-times-parallel.py:44-51 | A placeholder from a 5-second run is retried by a 10-second run, and the completed task leaves one row. |
| `Scenarios.StaleFileAppended` | compute-times-parallel.py:104-106 | As written, the solved row is appended after the stale placeholder. |
| `Scenarios.SolvedFileSelectedAgain` | compute-times-parallel.py:49-51 | As written, the next 10-second run selects the solved file again. |
| `Scenarios.EmptyRunSave` | compute-times-parallel.py:101-109 | An empty first run fails at the save. The same empty run with a checkpoint file writes the prior rows back unchanged. |
| `Scenarios.StaleFileReplaced` | compute-times-parallel.py:104-106 | With the corrected merge, the solved row replaces the stale placeholder. |
| `Scenarios.SolvedFileSettledWhenCorrected` | compute-times-parallel.py:49-51 | With the corrected merge, the next 10-second run selects nothing. |

## Findings

| source | as written | input that shows it | evidently intended | confidence | as-written member | corrected member |
|---|---|---|---|---|---|---|
| compute-times-parallel.py:106 | The new rows are appended after the prior rows, so a file's old placeholder row stays in the checkpoint. Line 50 then looks at every row separately, so the stale row keeps the file "not computed". | Checkpoint `f: 5 s, no verdict`. A run with timeout 10 solves `f` in 3 s and appends `f: 3 s, sat`. The next run with timeout 10 selects `f` again, and so does every later one. | A file's newest row replaces its older ones, as the "Filter already done" / "Re-add not computed" comments (lines 43, 47) describe, and as resuming needs. Then a solved or exhausted file is never re-selected. | not executed; high | `Resume.AppendKeepsStaleRetry` (with `Scenarios.SolvedFileSelectedAgain`) | `Resume.CorrectedResumeIsIdempotent` (over `Checkpoint.Upsert` and `Resume.RunMainCorrected`) |

`Resume.RunMain` keeps the script's concatenation. `Resume.RunMainCorrected` is
`Resume.RunMain` with the replace-by-filename merge, and the resume theorems are proved over it. A
side effect of the same cause: two stale retryable rows for one file put that file into the
work list twice.

## Left out

- Process pool, manager dict, callbacks and timeout kill (lines 63-86): concurrency and
  process control. Each task is reduced to its `Outcome`, classified by whether the worker
  reached line 28 rather than by what the pool reports, and tasks are folded in dispatch
  order. The bounded worker count, completion order and the real kill are not modelled.
- `Dispatch.ProcessFiles`: when a file occurs twice in the work list, it states that the
  file's last task wins. With concurrent completions the winner depends on timing, which
  the sequential fold does not model.
- `process_cnf` and pysat (lines 14-28): a foreign library call. Its effect is the
  `Completed` outcome's fields; parsing and solving are not modelled.
- `os.path.isdir`, `glob.glob` and the `recursive` pattern (lines 34-40): file-system I/O.
  The directory test is the `isDir` flag and the scan is the `scanned` input list.
- Checkpoint reading and writing with pandas (lines 42-44, 49, 101-109): library I/O. The
  checkpoint is an optional list of rows. The model does not cover CSV column typing,
  NaN encoding or the `exists`/`isfile` difference between lines 42 and 104.
- After a failed save, the next run is taken to read the checkpoint that was there before
  (`Resume.NextCheckpoint`). Whether pandas leaves a partly written file behind is not
  modelled; the only failing save has no prior file.
- tqdm and the prints (lines 54, 66, 74, 97, 102, 107): presentation only. The progress
  bar appears only as the counter.
- gen-data.py: corpus generation, a wrapper over cnfgen with floating-point clause counts,
  outside the bookkeeping.
- Seconds are `real` and only compared. Float precision and NaN seconds are not modelled.

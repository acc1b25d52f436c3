/** One run of the script's `__main__`: select, dispatch, write the checkpoint, and what the
    next run with the same timeout selects from the file so written. */
module Resume {
  import opened Wrappers
  import opened Sequences
  import opened Records
  import opened Selection
  import opened Dispatch
  import opened Checkpoint

  /** The outcome of every scheduled task, by its position in the work list. */
  function Outcomes(n: nat, outcomeOf: nat -> Outcome): (os: seq<Outcome>)
    ensures |os| == n && forall i :: 0 <= i < n ==> os[i] == outcomeOf(i)
  {
    seq(n, i requires 0 <= i < n => outcomeOf(i))
  }

  /** Why a run writes no checkpoint: the folder is not a directory, or a run without a
      checkpoint file produced no rows, so the table handed to the save has no columns for
      the four header names (a `ValueError` at the save). */
  datatype RunError = BadFolder(SelectError) | HeaderWithoutColumns

  /** `__main__` as written: the rows it writes to the checkpoint file are the prior rows,
      unchanged, followed by one new row per distinct selected file, in selection order,
      holding what that file's last task left. */
  function RunMain(isDir: bool, scanned: seq<FileName>, checkpoint: Option<seq<Row>>,
                   timeout: real, outcomeOf: nat -> Outcome): (r: Result<seq<Row>, RunError>)
    ensures !isDir ==> r == Failure(BadFolder(NotADirectory))
    ensures isDir && checkpoint.None? && scanned == [] ==> r == Failure(HeaderWithoutColumns)
    ensures isDir && (checkpoint.Some? || scanned != []) ==> r.Success?
    ensures r.Success? ==>
      var sel := CollectFiles(true, scanned, checkpoint, timeout, SolveTimeout).value;
      var prior := PriorRows(checkpoint);
      && |r.value| == |prior| + |Distinct(sel)|
      && r.value[..|prior|] == prior
      && Names(r.value[|prior|..]) == Distinct(sel)
      && forall i :: 0 <= i < |sel| && LastOccurrence(sel, i) ==>
           Lookup(r.value[|prior|..], sel[i]) == Some(Entry(outcomeOf(i), timeout))
  {
    match CollectFiles(isDir, scanned, checkpoint, timeout, SolveTimeout)
    case Failure(e) => Failure(BadFolder(e))
    case Success(files) =>
      var batch := ProcessFiles(files, Outcomes(|files|, outcomeOf), timeout);
      NoRowsOnlyForNoFiles(files, batch.table);
      if checkpoint.None? && |batch.table| == 0 then Failure(HeaderWithoutColumns)
      else Success(Append(checkpoint, batch.table))
  }

  /** `__main__` with the corrected merge: new rows replace prior rows of the same file. */
  function RunMainCorrected(isDir: bool, scanned: seq<FileName>, checkpoint: Option<seq<Row>>,
                            timeout: real, outcomeOf: nat -> Outcome): (r: Result<seq<Row>, RunError>)
    ensures !isDir ==> r == Failure(BadFolder(NotADirectory))
    ensures isDir && checkpoint.None? && scanned == [] ==> r == Failure(HeaderWithoutColumns)
    ensures isDir && (checkpoint.Some? || scanned != []) ==> r.Success?
    ensures r.Success? ==>
      var sel := CollectFiles(true, scanned, checkpoint, timeout, SolveTimeout).value;
      && |Distinct(sel)| <= |r.value|
      && Names(r.value[|r.value| - |Distinct(sel)|..]) == Distinct(sel)
      && (forall i :: 0 <= i < |sel| && LastOccurrence(sel, i) ==>
            Lookup(r.value[|r.value| - |Distinct(sel)|..], sel[i]) == Some(Entry(outcomeOf(i), timeout)))
      && forall row :: row in PriorRows(checkpoint) && row.filename !in sel ==> row in r.value
  {
    match CollectFiles(isDir, scanned, checkpoint, timeout, SolveTimeout)
    case Failure(e) => Failure(BadFolder(e))
    case Success(files) =>
      var batch := ProcessFiles(files, Outcomes(|files|, outcomeOf), timeout);
      NoRowsOnlyForNoFiles(files, batch.table);
      if checkpoint.None? && |batch.table| == 0 then Failure(HeaderWithoutColumns)
      else Success(Upsert(checkpoint, batch.table))
  }

  /** The dispatch table is empty exactly when nothing was scheduled. */
  lemma NoRowsOnlyForNoFiles(files: seq<FileName>, t: Table)
    requires Names(t) == Distinct(files)
    ensures |t| == 0 <==> files == []
  {
    if files != [] {
      assert files[0] in Distinct(files);
    }
  }

  /** The checkpoint the next run reads: the file just written, or, when the save failed,
      whatever was there before. */
  function NextCheckpoint(r: Result<seq<Row>, RunError>, checkpoint: Option<seq<Row>>): Option<seq<Row>> {
    if r.Success? then Some(r.value) else checkpoint
  }

  /** As written, a retryable row is never removed from the checkpoint: whatever the run
      writes after it, its file is selected again by every later run with that timeout. */
  lemma AppendKeepsStaleRetry(scanned: seq<FileName>, rows: seq<Row>, newRows: seq<Row>, timeout: real, f: FileName)
    requires HasRetryableRow(rows, f, timeout)
    ensures f in CollectFiles(true, scanned, Some(Append(Some(rows), newRows)), timeout, SolveTimeout).value
  {
    var j :| 0 <= j < |rows| && rows[j].filename == f && Retryable(rows[j].rec, timeout);
    assert Append(Some(rows), newRows)[j] == rows[j];
  }

  /** With the corrected merge, the next run with the same timeout selects only files whose
      last task in this run completed without a verdict in less than the timeout. */
  lemma {:induction false} CorrectedResumeSettles(scanned: seq<FileName>, checkpoint: Option<seq<Row>>,
                                                  timeout: real, outcomeOf: nat -> Outcome, f: FileName)
    returns (i: nat)
    requires f in CollectFiles(true, scanned,
      NextCheckpoint(RunMainCorrected(true, scanned, checkpoint, timeout, outcomeOf), checkpoint),
      timeout, SolveTimeout).value
    ensures var sel := CollectFiles(true, scanned, checkpoint, timeout, SolveTimeout).value;
      i < |sel| && sel[i] == f && LastOccurrence(sel, i)
    ensures outcomeOf(i).Completed? && outcomeOf(i).sat.None? && outcomeOf(i).seconds < timeout
  {
    var ck := CorrectedRunWrites(scanned, checkpoint, timeout, outcomeOf);
    if checkpoint.None? && scanned == [] {
      assert false;
    }
    i := SettledFromWritten(scanned, checkpoint, timeout, outcomeOf, ck, f);
  }

  /** `CorrectedResumeSettles` once the written checkpoint is known to be the merge. */
  lemma SettledFromWritten(scanned: seq<FileName>, checkpoint: Option<seq<Row>>,
                           timeout: real, outcomeOf: nat -> Outcome, ck: seq<Row>, f: FileName)
    returns (i: nat)
    requires var sel := CollectFiles(true, scanned, checkpoint, timeout, SolveTimeout).value;
      ck == Upsert(checkpoint, ProcessFiles(sel, Outcomes(|sel|, outcomeOf), timeout).table)
    requires f in CollectFiles(true, scanned, Some(ck), timeout, SolveTimeout).value
    ensures var sel := CollectFiles(true, scanned, checkpoint, timeout, SolveTimeout).value;
      i < |sel| && sel[i] == f && LastOccurrence(sel, i)
    ensures outcomeOf(i).Completed? && outcomeOf(i).sat.None? && outcomeOf(i).seconds < timeout
  {
    var sel := CollectFiles(true, scanned, checkpoint, timeout, SolveTimeout).value;
    var outcomes := Outcomes(|sel|, outcomeOf);
    SelectedFromCheckpoint(scanned, ck, timeout, f);
    SelectionCovers(scanned, checkpoint, timeout);
    i := SettledAfterCorrectedRun(scanned, checkpoint, timeout, sel, outcomes, f);
    assert outcomes[i] == outcomeOf(i);
  }

  /** The checkpoint a corrected run leaves for the next run: the merge of this run's table,
      or, only when a fresh run had nothing to scan, still no checkpoint. */
  lemma CorrectedRunWrites(scanned: seq<FileName>, checkpoint: Option<seq<Row>>,
                           timeout: real, outcomeOf: nat -> Outcome) returns (ck: seq<Row>)
    ensures var sel := CollectFiles(true, scanned, checkpoint, timeout, SolveTimeout).value;
      ck == Upsert(checkpoint, ProcessFiles(sel, Outcomes(|sel|, outcomeOf), timeout).table)
    ensures var next := NextCheckpoint(RunMainCorrected(true, scanned, checkpoint, timeout, outcomeOf), checkpoint);
      if checkpoint.None? && scanned == [] then next == None else next == Some(ck)
  {
    var sel := CollectFiles(true, scanned, checkpoint, timeout, SolveTimeout).value;
    ck := Upsert(checkpoint, ProcessFiles(sel, Outcomes(|sel|, outcomeOf), timeout).table);
  }

  /** A file selected against a checkpoint is an unrecorded scanned file or has a retryable row. */
  lemma SelectedFromCheckpoint(scanned: seq<FileName>, rows: seq<Row>, timeout: real, f: FileName)
    requires f in CollectFiles(true, scanned, Some(rows), timeout, SolveTimeout).value
    ensures (f in scanned && f !in Names(rows)) || HasRetryableRow(rows, f, timeout)
  {
  }

  /** The selection covers every scanned file not named by the checkpoint and every file
      with a retryable checkpoint row. */
  lemma SelectionCovers(scanned: seq<FileName>, checkpoint: Option<seq<Row>>, timeout: real)
    ensures var sel := CollectFiles(true, scanned, checkpoint, timeout, SolveTimeout).value;
      && (forall g :: g in scanned ==> g in sel || (checkpoint.Some? && g in Names(checkpoint.value)))
      && (forall g :: HasRetryableRow(PriorRows(checkpoint), g, timeout) ==> g in sel)
  {
  }

  /** The core of `CorrectedResumeSettles`, stated over the facts it needs about the first
      selection: it covers the scan and every retryable prior row. */
  lemma SettledAfterCorrectedRun(scanned: seq<FileName>, checkpoint: Option<seq<Row>>, timeout: real,
                                 sel: seq<FileName>, outcomes: seq<Outcome>, f: FileName) returns (i: nat)
    requires |outcomes| == |sel|
    requires forall g :: g in scanned ==> g in sel || (checkpoint.Some? && g in Names(checkpoint.value))
    requires forall g :: HasRetryableRow(PriorRows(checkpoint), g, timeout) ==> g in sel
    requires var ck := Upsert(checkpoint, ProcessFiles(sel, outcomes, timeout).table);
      (f in scanned && f !in Names(ck)) || HasRetryableRow(ck, f, timeout)
    ensures i < |sel| && sel[i] == f && LastOccurrence(sel, i)
    ensures outcomes[i].Completed? && outcomes[i].sat.None? && outcomes[i].seconds < timeout
  {
    var t := ProcessFiles(sel, outcomes, timeout).table;
    var ck := Upsert(checkpoint, t);
    if f in scanned && f !in Names(ck) {
      ScannedFileRecorded(scanned, checkpoint, sel, t, f);
      assert false;
    }
    var row := RetryableRowOf(ck, f, timeout);
    i := RetryableRowIsNew(checkpoint, timeout, sel, outcomes, t, row);
  }

  /** After a corrected run, the checkpoint names every scanned file. */
  lemma ScannedFileRecorded(scanned: seq<FileName>, checkpoint: Option<seq<Row>>,
                            sel: seq<FileName>, t: Table, f: FileName)
    requires Names(t) == Distinct(sel)
    requires forall g :: g in scanned ==> g in sel || (checkpoint.Some? && g in Names(checkpoint.value))
    requires f in scanned
    ensures f in Names(Upsert(checkpoint, t))
  {
    UpsertNames(checkpoint, t, f);
  }

  /** A retryable row of `f`, when there is one. */
  lemma RetryableRowOf(rows: seq<Row>, f: FileName, timeout: real) returns (row: Row)
    requires HasRetryableRow(rows, f, timeout)
    ensures row in rows && row.filename == f && Retryable(row.rec, timeout)
  {
    var j :| 0 <= j < |rows| && rows[j].filename == f && Retryable(rows[j].rec, timeout);
    row := rows[j];
  }

  /** After a corrected run, a retryable row of the checkpoint is a new row, written for a
      task that completed without a verdict in less than the timeout. */
  lemma RetryableRowIsNew(checkpoint: Option<seq<Row>>, timeout: real,
                          sel: seq<FileName>, outcomes: seq<Outcome>, t: Table, row: Row) returns (i: nat)
    requires |outcomes| == |sel| && t == ProcessFiles(sel, outcomes, timeout).table
    requires HasRetryableRow(PriorRows(checkpoint), row.filename, timeout) ==> row.filename in sel
    requires row in Upsert(checkpoint, t) && Retryable(row.rec, timeout)
    ensures i < |sel| && sel[i] == row.filename && LastOccurrence(sel, i)
    ensures row in t && row.rec == Entry(outcomes[i], timeout)
    ensures outcomes[i].Completed? && outcomes[i].sat.None? && outcomes[i].seconds < timeout
  {
    var f := row.filename;
    if row in t {
      var m :| 0 <= m < |t| && t[m] == row;
      LookupRow(t, m);
      assert f in Names(t) by { assert Names(t)[m] == f; }
      i := LastIndex(sel, f);
      EntryRetryableOnlyIfInconclusive(outcomes[i], timeout);
    } else {
      assert false;
    }
  }

  /** With the corrected merge, when no task of this run ended without a verdict in less than
      the timeout, the next run with the same timeout and scan selects nothing. */
  lemma CorrectedResumeIsIdempotent(scanned: seq<FileName>, checkpoint: Option<seq<Row>>,
                                    timeout: real, outcomeOf: nat -> Outcome)
    requires forall i: nat :: i < |CollectFiles(true, scanned, checkpoint, timeout, SolveTimeout).value| ==>
      !(outcomeOf(i).Completed? && outcomeOf(i).sat.None? && outcomeOf(i).seconds < timeout)
    ensures CollectFiles(true, scanned,
      NextCheckpoint(RunMainCorrected(true, scanned, checkpoint, timeout, outcomeOf), checkpoint),
      timeout, SolveTimeout).value == []
  {
    var next := CollectFiles(true, scanned,
      NextCheckpoint(RunMainCorrected(true, scanned, checkpoint, timeout, outcomeOf), checkpoint),
      timeout, SolveTimeout).value;
    if |next| > 0 {
      assert next[0] in next;
      var i := CorrectedResumeSettles(scanned, checkpoint, timeout, outcomeOf, next[0]);
      assert false;
    }
  }
}

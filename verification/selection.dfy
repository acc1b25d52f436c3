/** Work selection: `collect_files` of compute-times-parallel.py, with the directory test,
    the glob and the CSV read abstracted into inputs. */
module Selection {
  import opened Wrappers
  import opened Sequences
  import opened Records

  /** The `ValueError` raised when the folder is not a directory. */
  datatype SelectError = NotADirectory

  /** The value of `SOLVE_TIMEOUT` in the script. */
  const SolveTimeout: bool := true

  /** Some checkpoint row for `f` is retryable under `timeout`. */
  predicate HasRetryableRow(rows: seq<Row>, f: FileName, timeout: real) {
    exists j :: 0 <= j < |rows| && rows[j].filename == f && Retryable(rows[j].rec, timeout)
  }

  /** The filenames of the retryable checkpoint rows, one per row, in file order. */
  function RetryNames(rows: seq<Row>, timeout: real): (r: seq<FileName>)
    ensures forall f :: f in r <==> HasRetryableRow(rows, f, timeout)
    ensures |r| <= |rows|
  {
    if |rows| == 0 then []
    else
      var rest := RetryNames(rows[1..], timeout);
      assert forall f :: HasRetryableRow(rows[1..], f, timeout) ==> HasRetryableRow(rows, f, timeout) by {
        forall f | HasRetryableRow(rows[1..], f, timeout)
          ensures HasRetryableRow(rows, f, timeout)
        {
          var j :| 0 <= j < |rows[1..]| && rows[1..][j].filename == f && Retryable(rows[1..][j].rec, timeout);
          assert rows[j + 1] == rows[1..][j];
        }
      }
      assert forall f :: HasRetryableRow(rows, f, timeout) ==>
          (f == rows[0].filename && Retryable(rows[0].rec, timeout)) || HasRetryableRow(rows[1..], f, timeout) by {
        forall f | HasRetryableRow(rows, f, timeout)
          ensures (f == rows[0].filename && Retryable(rows[0].rec, timeout)) || HasRetryableRow(rows[1..], f, timeout)
        {
          var j :| 0 <= j < |rows| && rows[j].filename == f && Retryable(rows[j].rec, timeout);
          if j > 0 {
            assert rows[1..][j - 1] == rows[j];
          }
        }
      }
      if Retryable(rows[0].rec, timeout) then [rows[0].filename] + rest else rest
  }

  /** The retry list is the filename column of the retryable rows, so it repeats a file
      once per retryable row of that file and keeps the rows' order. */
  lemma {:induction false} RetryNamesAreFilteredColumn(rows: seq<Row>, timeout: real)
    ensures RetryNames(rows, timeout) == Names(Filter(rows, (row: Row) => Retryable(row.rec, timeout)))
  {
    if |rows| > 0 {
      RetryNamesAreFilteredColumn(rows[1..], timeout);
    }
  }

  /** The scanned files named in no checkpoint row, in scan order. */
  function Unrecorded(scanned: seq<FileName>, rows: seq<Row>): (r: seq<FileName>)
    ensures forall f :: f in r <==> f in scanned && f !in Names(rows)
    ensures IsSubsequence(r, scanned)
  {
    var names := Names(rows);
    Filter(scanned, f => f !in names)
  }

  /** `collect_files`: fails when the folder is not a directory; without a checkpoint returns
      the scan unchanged; with one, keeps the scanned files the checkpoint does not name and,
      when `retryTimedOut` holds, appends the filename of every retryable checkpoint row. */
  function CollectFiles(isDir: bool, scanned: seq<FileName>, checkpoint: Option<seq<Row>>,
                        timeout: real, retryTimedOut: bool): (r: Result<seq<FileName>, SelectError>)
    ensures r.Failure? <==> !isDir
    ensures r.Failure? ==> r.error == NotADirectory
    ensures isDir && checkpoint.None? ==> r == Success(scanned)
    ensures isDir && checkpoint.Some? ==>
      forall f :: f in r.value <==>
        (f in scanned && f !in Names(checkpoint.value))
        || (retryTimedOut && HasRetryableRow(checkpoint.value, f, timeout))
  {
    if !isDir then Failure(NotADirectory)
    else if checkpoint.None? then Success(scanned)
    else
      var rows := checkpoint.value;
      var unrecorded := Unrecorded(scanned, rows);
      if retryTimedOut then Success(unrecorded + RetryNames(rows, timeout)) else Success(unrecorded)
  }

  /** With a checkpoint, the selection starts with the unrecorded scanned files (the first
      `k` entries) as a subsequence of the scan, and every later entry is the name of a
      retryable row. */
  lemma SelectionShape(scanned: seq<FileName>, rows: seq<Row>, timeout: real, retryTimedOut: bool)
    returns (k: nat)
    ensures var sel := CollectFiles(true, scanned, Some(rows), timeout, retryTimedOut).value;
      && k <= |sel|
      && IsSubsequence(sel[..k], scanned)
      && (forall f :: f in sel[..k] <==> f in scanned && f !in Names(rows))
      && (forall i :: k <= i < |sel| ==> retryTimedOut && HasRetryableRow(rows, sel[i], timeout))
      && sel[k..] == if retryTimedOut then Names(Filter(rows, (row: Row) => Retryable(row.rec, timeout))) else []
  {
    var unrecorded := Unrecorded(scanned, rows);
    var retried := if retryTimedOut then RetryNames(rows, timeout) else [];
    var sel := unrecorded + retried;
    assert CollectFiles(true, scanned, Some(rows), timeout, retryTimedOut).value == sel;
    k := |unrecorded|;
    assert sel[..k] == unrecorded;
    forall i | k <= i < |sel|
      ensures retryTimedOut && HasRetryableRow(rows, sel[i], timeout)
    {
      assert sel[i] == retried[i - k];
      assert sel[i] in retried;
    }
    assert sel[k..] == retried;
    if retryTimedOut {
      RetryNamesAreFilteredColumn(rows, timeout);
    }
    assert IsSubsequence(sel[..k], scanned);
    assert forall f :: f in sel[..k] <==> f in scanned && f !in Names(rows);
  }

  /** A scanned file that the checkpoint names is selected only through the retry list. */
  lemma RecordedFileOnlyRetried(scanned: seq<FileName>, rows: seq<Row>, timeout: real, retryTimedOut: bool, f: FileName)
    requires f in Names(rows)
    ensures f in CollectFiles(true, scanned, Some(rows), timeout, retryTimedOut).value
        <==> retryTimedOut && HasRetryableRow(rows, f, timeout)
  {
  }

  /** A file whose checkpoint rows are all done or exhausted is never selected again. */
  lemma SettledFileNotSelected(scanned: seq<FileName>, rows: seq<Row>, timeout: real, retryTimedOut: bool, f: FileName)
    requires f in Names(rows)
    requires forall j :: 0 <= j < |rows| && rows[j].filename == f ==> Done(rows[j].rec) || Exhausted(rows[j].rec, timeout)
    ensures f !in CollectFiles(true, scanned, Some(rows), timeout, retryTimedOut).value
  {
  }
}

/** The rows of the result table and of the checkpoint file, and the abstract
    outcome of one solver task. */
module Records {
  import opened Wrappers

  /** A formula file path, compared by exact string equality. */
  type FileName = string

  /** One result: the list `[seconds, sat, nof_vars, nof_clauses]` the script stores per file.
      `sat` is None when the solver gave no verdict or the task never finished. */
  datatype Record = Record(seconds: real, sat: Option<bool>, nofVars: Option<nat>, nofClauses: Option<nat>)

  /** One line of the checkpoint CSV (`filename, seconds, sat, nof_vars, nof_clauses`). */
  datatype Row = Row(filename: FileName, rec: Record)

  /** How far one scheduled task got. The worker writes its record into the shared table
      itself, as its last assignment, and the done-callback never writes the table; so what
      counts is whether that assignment happened, not what the pool reports afterwards.
      `Completed` means the worker made the assignment, carrying what it wrote (elapsed solver
      time, the verdict of `solve_limited`, the two size metrics), even if the task was then
      killed or raised while closing the solver. `TimedOut` is a timeout kill and `Failed`
      an exception, each before the assignment. */
  datatype Outcome =
    | Completed(seconds: real, sat: Option<bool>, nofVars: nat, nofClauses: nat)
    | TimedOut
    | Failed

  /** The conservative entry written for a file before its task is scheduled. */
  function Placeholder(timeout: real): Record {
    Record(timeout, None, None, None)
  }

  /** The record the solve adapter stores for a completed task. */
  function AdapterRecord(o: Outcome): Record
    requires o.Completed?
  {
    Record(o.seconds, o.sat, Some(o.nofVars), Some(o.nofClauses))
  }

  /** What the result table holds for an item once its task has resolved: the worker's
      record if the worker wrote it, the untouched placeholder otherwise. */
  function Entry(o: Outcome, timeout: real): Record {
    if o.Completed? then AdapterRecord(o) else Placeholder(timeout)
  }

  /** A row with a definitive verdict. */
  predicate Done(rec: Record) {
    rec.sat.Some?
  }

  /** A row without a verdict whose elapsed time is below the current timeout:
      the row that the resume logic schedules again. */
  predicate Retryable(rec: Record, timeout: real) {
    rec.sat.None? && rec.seconds < timeout
  }

  /** A row without a verdict that already used at least the current timeout. */
  predicate Exhausted(rec: Record, timeout: real) {
    rec.sat.None? && rec.seconds >= timeout
  }

  /** The filename column of a list of rows. */
  function Names(rows: seq<Row>): (ns: seq<FileName>)
    ensures |ns| == |rows|
    ensures forall i :: 0 <= i < |rows| ==> ns[i] == rows[i].filename
  {
    if |rows| == 0 then [] else [rows[0].filename] + Names(rows[1..])
  }

  lemma NamesAppend(a: seq<Row>, b: seq<Row>)
    ensures Names(a + b) == Names(a) + Names(b)
  {
  }

  /** Every row is exactly one of done, retryable or exhausted under a given timeout. */
  lemma StatusPartition(rec: Record, timeout: real)
    ensures Done(rec) || Retryable(rec, timeout) || Exhausted(rec, timeout)
    ensures !(Done(rec) && Retryable(rec, timeout))
    ensures !(Done(rec) && Exhausted(rec, timeout))
    ensures !(Retryable(rec, timeout) && Exhausted(rec, timeout))
  {
  }

  /** A placeholder written under timeout `t` is exhausted under `t` itself and becomes
      retryable exactly when a later run uses a strictly larger timeout. */
  lemma PlaceholderRetryableIffLarger(t: real, later: real)
    ensures Exhausted(Placeholder(t), t)
    ensures Retryable(Placeholder(t), later) <==> t < later
  {
  }

  /** Under the timeout it was written with, a settled entry is retryable only when the task
      completed without a verdict in less than the timeout. */
  lemma EntryRetryableOnlyIfInconclusive(o: Outcome, timeout: real)
    ensures Retryable(Entry(o, timeout), timeout) <==> o.Completed? && o.sat.None? && o.seconds < timeout
  {
  }
}

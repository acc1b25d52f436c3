/** Dispatch and recording: `process_files_in_folder` of compute-times-parallel.py, with the
    process pool reduced to a sequential fold over the per-item outcomes. */
module Dispatch {
  import opened Wrappers
  import opened Sequences
  import opened Records

  /** The shared result dictionary. A Python dict keeps keys in first-insertion order and an
      update keeps a key's position, so the table is a list of rows with distinct filenames. */
  type Table = seq<Row>

  /** `results.get(k)`: the record stored under `k`, if any. */
  function Lookup(t: Table, k: FileName): (r: Option<Record>)
    ensures r.Some? <==> k in Names(t)
  {
    if |t| == 0 then None
    else if t[0].filename == k then Some(t[0].rec)
    else Lookup(t[1..], k)
  }

  /** `results[k] = rec`: an existing key is overwritten in place, a new key is appended. */
  function Put(t: Table, k: FileName, rec: Record): (t': Table)
    ensures Lookup(t', k) == Some(rec)
    ensures forall k' :: k' != k ==> Lookup(t', k') == Lookup(t, k')
    ensures Names(t') == if k in Names(t) then Names(t) else Names(t) + [k]
  {
    if |t| == 0 then [Row(k, rec)]
    else
      UnfoldTable(t);
      if t[0].filename == k then
        ConsRow(Row(k, rec), t[1..]);
        [Row(k, rec)] + t[1..]
      else
        var rest := Put(t[1..], k, rec);
        ConsRow(t[0], rest);
        [t[0]] + rest
  }

  /** A table is its first row followed by the rest, column by column. */
  lemma UnfoldTable(t: Table)
    requires |t| > 0
    ensures t == [t[0]] + t[1..]
    ensures Names(t) == [t[0].filename] + Names(t[1..])
    ensures forall k :: Lookup(t, k) == if t[0].filename == k then Some(t[0].rec) else Lookup(t[1..], k)
  {
  }

  /** Putting a row in front of a table: the names and lookups it gives. */
  lemma ConsRow(row: Row, t: Table)
    ensures Names([row] + t) == [row.filename] + Names(t)
    ensures forall k :: Lookup([row] + t, k) == if row.filename == k then Some(row.rec) else Lookup(t, k)
  {
    assert ([row] + t)[1..] == t;
  }

  /** In a table with distinct keys, every row is what a lookup of its filename returns. */
  lemma {:induction false} LookupRow(t: Table, i: nat)
    requires i < |t|
    requires NoDuplicates(Names(t))
    ensures Lookup(t, t[i].filename) == Some(t[i].rec)
  {
    if i > 0 {
      assert Names(t)[0] != Names(t)[i];
      assert NoDuplicates(Names(t[1..])) by {
        forall a, b | 0 <= a < b < |t[1..]|
          ensures Names(t[1..])[a] != Names(t[1..])[b]
        {
          assert Names(t)[a + 1] != Names(t)[b + 1];
        }
      }
      LookupRow(t[1..], i - 1);
    }
  }

  /** The result table together with the progress bar's counter. */
  datatype Batch = Batch(table: Table, progress: nat)

  /** One file's full life in the pool: the placeholder written at scheduling time, the
      worker's own record written over it if the worker reaches that assignment (a kill or
      an exception before it writes nothing), and one progress tick from the done-callback's
      `finally`. */
  function Settle(b: Batch, f: FileName, o: Outcome, timeout: real): (b': Batch)
    ensures b'.progress == b.progress + 1
    ensures Lookup(b'.table, f) == Some(Entry(o, timeout))
    ensures forall k :: k != f ==> Lookup(b'.table, k) == Lookup(b.table, k)
    ensures Names(b'.table) == if f in Names(b.table) then Names(b.table) else Names(b.table) + [f]
  {
    var placed := Put(b.table, f, Placeholder(timeout));
    var settled := if o.Completed? then Put(placed, f, AdapterRecord(o)) else placed;
    Batch(settled, b.progress + 1)
  }

  /** `process_files_in_folder` after `collect_files`: the work list `files` is scheduled in
      order and task `i` resolves as `outcomes[i]`. The table gets one row per distinct file,
      in first-scheduling order, holding what the file's last task left there, and the
      counter ends at the number of scheduled tasks. */
  function ProcessFiles(files: seq<FileName>, outcomes: seq<Outcome>, timeout: real): (b: Batch)
    requires |outcomes| == |files|
    ensures b.progress == |files|
    ensures Names(b.table) == Distinct(files)
    ensures forall i :: 0 <= i < |files| && LastOccurrence(files, i) ==>
      Lookup(b.table, files[i]) == Some(Entry(outcomes[i], timeout))
    decreases |files|
  {
    if |files| == 0 then Batch([], 0)
    else
      var n := |files| - 1;
      var before := ProcessFiles(files[..n], outcomes[..n], timeout);
      var b := Settle(before, files[n], outcomes[n], timeout);
      DistinctStep(files, Names(before.table));
      LastOccurrenceOfPrefix(files, outcomes, timeout, before, b);
      b
  }

  /** Scheduling one more file adds it to the distinct files unless it was already there. */
  lemma DistinctStep(files: seq<FileName>, names: seq<FileName>)
    requires |files| > 0 && names == Distinct(files[..|files| - 1])
    ensures Distinct(files) == if files[|files| - 1] in names then names else names + [files[|files| - 1]]
  {
  }

  /** The inductive step of `ProcessFiles` for the files scheduled before the last one. */
  lemma LastOccurrenceOfPrefix(files: seq<FileName>, outcomes: seq<Outcome>, timeout: real, before: Batch, b: Batch)
    requires |outcomes| == |files| > 0
    requires forall i :: 0 <= i < |files| - 1 && LastOccurrence(files[..|files| - 1], i) ==>
      Lookup(before.table, files[i]) == Some(Entry(outcomes[i], timeout))
    requires forall k :: k != files[|files| - 1] ==> Lookup(b.table, k) == Lookup(before.table, k)
    requires Lookup(b.table, files[|files| - 1]) == Some(Entry(outcomes[|files| - 1], timeout))
    ensures forall i :: 0 <= i < |files| && LastOccurrence(files, i) ==>
      Lookup(b.table, files[i]) == Some(Entry(outcomes[i], timeout))
  {
    var n := |files| - 1;
    forall i | 0 <= i < |files| && LastOccurrence(files, i)
      ensures Lookup(b.table, files[i]) == Some(Entry(outcomes[i], timeout))
    {
      if i < n {
        assert files[n] != files[i];
        assert LastOccurrence(files[..n], i) by {
          forall j | i < j < n ensures files[..n][j] != files[..n][i] {
            assert files[j] != files[i];
          }
        }
      }
    }
  }

  /** The keys of the returned table are exactly the scheduled files, each once. */
  lemma {:induction false} EveryDispatchedFileHasOneEntry(files: seq<FileName>, outcomes: seq<Outcome>, timeout: real)
    requires |outcomes| == |files|
    ensures var t := ProcessFiles(files, outcomes, timeout).table;
      && (forall f :: f in Names(t) <==> f in files)
      && NoDuplicates(Names(t))
      && (forall f :: f in files ==> Lookup(t, f).Some?)
  {
  }

  /** Every row of the returned table is either the record a worker wrote for its file
      or the placeholder of the run's timeout. */
  lemma {:induction false} RowsAreRecordsOrPlaceholders(files: seq<FileName>, outcomes: seq<Outcome>, timeout: real)
    requires |outcomes| == |files|
    ensures var t := ProcessFiles(files, outcomes, timeout).table;
      forall j :: 0 <= j < |t| ==>
        exists i :: 0 <= i < |files| && files[i] == t[j].filename && t[j].rec == Entry(outcomes[i], timeout)
  {
    var t := ProcessFiles(files, outcomes, timeout).table;
    forall j | 0 <= j < |t|
      ensures exists i :: 0 <= i < |files| && files[i] == t[j].filename && t[j].rec == Entry(outcomes[i], timeout)
    {
      var i := RowSource(files, outcomes, timeout, j);
    }
  }

  /** The task whose outcome row `j` of the returned table records: the last one of its file. */
  lemma RowSource(files: seq<FileName>, outcomes: seq<Outcome>, timeout: real, j: nat) returns (i: nat)
    requires |outcomes| == |files|
    requires j < |ProcessFiles(files, outcomes, timeout).table|
    ensures var t := ProcessFiles(files, outcomes, timeout).table;
      i < |files| && files[i] == t[j].filename && t[j].rec == Entry(outcomes[i], timeout)
  {
    var t := ProcessFiles(files, outcomes, timeout).table;
    var f := t[j].filename;
    assert f in files by { assert Names(t)[j] == f; }
    i := LastIndex(files, f);
    LookupRow(t, j);
  }

  /** The position of the last occurrence of `f` in `s`. */
  function LastIndex(s: seq<FileName>, f: FileName): (i: nat)
    requires f in s
    ensures i < |s| && s[i] == f && LastOccurrence(s, i)
  {
    if s[|s| - 1] == f then |s| - 1
    else
      assert f in s[..|s| - 1] by { assert s == s[..|s| - 1] + [s[|s| - 1]]; }
      LastIndex(s[..|s| - 1], f)
  }
}

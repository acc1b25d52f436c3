/** The checkpoint file written at the end of a run: the concatenation the script performs,
    and the replace-by-filename merge the resume logic needs (see `Resume` for why). */
module Checkpoint {
  import opened Wrappers
  import opened Sequences
  import opened Records

  /** The rows of the checkpoint file, or none when the file does not exist. */
  function PriorRows(checkpoint: Option<seq<Row>>): seq<Row> {
    if checkpoint.Some? then checkpoint.value else []
  }

  /** `pd.concat([solved, df])` when a checkpoint exists, `df` alone otherwise: the prior rows
      come first and are kept unchanged, then every new row; nothing is de-duplicated. */
  function Append(checkpoint: Option<seq<Row>>, newRows: seq<Row>): (r: seq<Row>)
    ensures |r| == |PriorRows(checkpoint)| + |newRows|
    ensures r[..|PriorRows(checkpoint)|] == PriorRows(checkpoint)
    ensures r[|PriorRows(checkpoint)|..] == newRows
  {
    if checkpoint.Some? then checkpoint.value + newRows else newRows
  }

  /** The number of rows for each filename in the appended file is the number in the prior
      file plus the number of new rows: a retried file ends up with several rows. */
  lemma AppendKeepsDuplicates(checkpoint: Option<seq<Row>>, newRows: seq<Row>)
    ensures multiset(Names(Append(checkpoint, newRows))) == multiset(Names(PriorRows(checkpoint))) + multiset(Names(newRows))
    ensures forall row :: row in Append(checkpoint, newRows) <==> row in PriorRows(checkpoint) || row in newRows
  {
    NamesAppend(PriorRows(checkpoint), newRows);
    assert Append(checkpoint, newRows) == PriorRows(checkpoint) + newRows;
  }

  /** The corrected merge: every new row is written, and a prior row is kept, in its original
      order, only when no new row has the same filename. */
  function Upsert(checkpoint: Option<seq<Row>>, newRows: seq<Row>): (r: seq<Row>)
    ensures forall row :: row in r <==> row in newRows || (row in PriorRows(checkpoint) && row.filename !in Names(newRows))
    ensures |newRows| <= |r| <= |PriorRows(checkpoint)| + |newRows|
    ensures r[|r| - |newRows|..] == newRows
    ensures IsSubsequence(r[..|r| - |newRows|], PriorRows(checkpoint))
  {
    var replaced := Names(newRows);
    var kept := Filter(PriorRows(checkpoint), (row: Row) => row.filename !in replaced);
    assert IsSubsequence(kept, PriorRows(checkpoint));
    SubsequenceLength(kept, PriorRows(checkpoint));
    var r := kept + newRows;
    assert r[..|kept|] == kept;
    r
  }

  /** The corrected merge names exactly the files that the prior rows or the new rows name. */
  lemma UpsertNames(checkpoint: Option<seq<Row>>, newRows: seq<Row>, f: FileName)
    ensures f in Names(Upsert(checkpoint, newRows)) <==> f in Names(newRows) || f in Names(PriorRows(checkpoint))
  {
    var prior := PriorRows(checkpoint);
    var r := Upsert(checkpoint, newRows);
    if f in Names(r) {
      var j := NamedRow(r, f);
      assert r[j] in r;
      if r[j] in newRows {
        RowNamed(newRows, r[j]);
      } else {
        RowNamed(prior, r[j]);
      }
    }
    if f in Names(newRows) {
      var j := NamedRow(newRows, f);
      assert newRows[j] in newRows;
      RowNamed(r, newRows[j]);
    } else if f in Names(prior) {
      var j := NamedRow(prior, f);
      assert prior[j] in prior;
      RowNamed(r, prior[j]);
    }
  }

  lemma {:induction false} SubsequenceLength(a: seq<Row>, b: seq<Row>)
    requires IsSubsequence(a, b)
    ensures |a| <= |b|
    decreases |b|
  {
    if |a| > 0 {
      if a[0] == b[0] {
        SubsequenceLength(a[1..], b[1..]);
      } else {
        SubsequenceLength(a, b[1..]);
      }
    }
  }

  /** A filename of a listed row is in the filename column. */
  lemma RowNamed(rows: seq<Row>, row: Row)
    requires row in rows
    ensures row.filename in Names(rows)
  {
    var j :| 0 <= j < |rows| && rows[j] == row;
    assert Names(rows)[j] == row.filename;
  }

  /** A filename in the filename column belongs to some row. */
  lemma NamedRow(rows: seq<Row>, f: FileName) returns (j: nat)
    requires f in Names(rows)
    ensures j < |rows| && rows[j].filename == f
  {
    var k :| 0 <= k < |Names(rows)| && Names(rows)[k] == f;
    j := k;
  }
}

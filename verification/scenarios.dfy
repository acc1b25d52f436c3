/** Concrete runs: resume scenarios, and the input that shows the
    concatenating merge re-selecting a solved file. */
module Scenarios {
  import opened Wrappers
  import opened Sequences
  import opened Records
  import opened Selection
  import opened Dispatch
  import opened Checkpoint
  import opened Resume

  function SolvedRecord(seconds: real): Record {
    Record(seconds, Some(true), Some(20), Some(91))
  }

  function SolvedInThreeSeconds(i: nat): Outcome {
    Completed(3.0, Some(true), 20, 91)
  }

  /** A placeholder left by an earlier run with timeout 5. */
  const Stale: seq<Row> := [Row("f", Placeholder(5.0))]

  /** The second run, with timeout 10, selects the stale file and records it as solved. */
  lemma StaleFileRerun()
    ensures CollectFiles(true, ["f"], Some(Stale), 10.0, SolveTimeout) == Success(["f"])
    ensures ProcessFiles(["f"], Outcomes(1, SolvedInThreeSeconds), 10.0).table == [Row("f", SolvedRecord(3.0))]
  {
    assert Names(Stale) == ["f"];
    assert Unrecorded(["f"], Stale) == [];
    assert RetryNames(Stale, 10.0) == ["f"];
    assert CollectFiles(true, ["f"], Some(Stale), 10.0, SolveTimeout) == Success([] + ["f"]);
    assert [] + ["f"] == ["f"];
    assert Outcomes(1, SolvedInThreeSeconds) == [SolvedInThreeSeconds(0)];
    assert ["f"][..0] == [];
  }

  /** As written, the second run appends the solved row after the stale placeholder. */
  lemma StaleFileAppended()
    ensures RunMain(true, ["f"], Some(Stale), 10.0, SolvedInThreeSeconds)
         == Success(Stale + [Row("f", SolvedRecord(3.0))])
  {
    StaleFileRerun();
  }

  /** As written, a third run with the same timeout selects the solved file yet again. */
  lemma SolvedFileSelectedAgain()
    ensures CollectFiles(true, ["f"], Some(Stale + [Row("f", SolvedRecord(3.0))]), 10.0, SolveTimeout)
         == Success(["f"])
  {
    var ck := Stale + [Row("f", SolvedRecord(3.0))];
    assert Names(ck) == ["f", "f"];
    assert Unrecorded(["f"], ck) == [];
    assert RetryNames(ck, 10.0) == ["f"];
    assert CollectFiles(true, ["f"], Some(ck), 10.0, SolveTimeout) == Success([] + ["f"]);
    assert [] + ["f"] == ["f"];
  }

  /** A first run over an empty folder has no rows to save and fails at the save; with a
      checkpoint file present, the same empty run writes the prior rows back unchanged. */
  lemma EmptyRunSave()
    ensures RunMain(true, [], None, 5.0, SolvedInThreeSeconds) == Failure(HeaderWithoutColumns)
    ensures RunMain(true, [], Some(Stale), 5.0, SolvedInThreeSeconds) == Success(Stale)
  {
    var none: seq<FileName> := [];
    assert Names(Stale) == ["f"];
    assert Unrecorded(none, Stale) == [];
    assert RetryNames(Stale, 5.0) == [];
    assert CollectFiles(true, none, Some(Stale), 5.0, SolveTimeout) == Success(none + none);
    assert none + none == none;
    assert ProcessFiles(none, Outcomes(0, SolvedInThreeSeconds), 5.0).table == [];
    assert Stale + [] == Stale;
  }

  /** With the corrected merge, the solved row replaces the stale placeholder. */
  lemma StaleFileReplaced()
    ensures RunMainCorrected(true, ["f"], Some(Stale), 10.0, SolvedInThreeSeconds)
         == Success([Row("f", SolvedRecord(3.0))])
  {
    StaleFileRerun();
    var solvedRow := Row("f", SolvedRecord(3.0));
    assert Names([solvedRow]) == ["f"];
    assert Upsert(Some(Stale), [solvedRow]) == [solvedRow];
  }

  /** With the corrected merge, a third run with the same timeout selects nothing. */
  lemma SolvedFileSettledWhenCorrected()
    ensures CollectFiles(true, ["f"], Some([Row("f", SolvedRecord(3.0))]), 10.0, SolveTimeout) == Success([])
  {
    var ck := [Row("f", SolvedRecord(3.0))];
    assert Names(ck) == ["f"];
    assert Unrecorded(["f"], ck) == [];
    assert RetryNames(ck, 10.0) == [];
    var none: seq<FileName> := [];
    assert CollectFiles(true, ["f"], Some(ck), 10.0, SolveTimeout) == Success(none + none);
    assert none + none == none;
  }

  function MixedOutcome(i: nat): Outcome {
    if i == 0 then Completed(1.0, Some(true), 20, 91)
    else if i == 1 then TimedOut
    else Failed
  }

  /** No checkpoint, timeout 5: `a` solves in one second, `b` times out, `c` raises. */
  lemma FreshRunMixedOutcomes()
    ensures CollectFiles(true, ["a", "b", "c"], None, 5.0, SolveTimeout) == Success(["a", "b", "c"])
    ensures var batch := ProcessFiles(["a", "b", "c"], Outcomes(3, MixedOutcome), 5.0);
      && batch.progress == 3
      && Lookup(batch.table, "a") == Some(SolvedRecord(1.0))
      && Lookup(batch.table, "b") == Some(Placeholder(5.0))
      && Lookup(batch.table, "c") == Some(Placeholder(5.0))
  {
    var files := ["a", "b", "c"];
    var outcomes := Outcomes(3, MixedOutcome);
    assert LastOccurrence(files, 0) && LastOccurrence(files, 1) && LastOccurrence(files, 2);
    assert outcomes[0] == MixedOutcome(0) && outcomes[1] == TimedOut && outcomes[2] == Failed;
  }

  /** Prior checkpoint: `a` solved, `b` cut off after 2 seconds. With threshold 5 the run
      selects the new file `c` and retries `b`, and skips `a`. */
  lemma ResumeRetriesShortTimeout()
    ensures CollectFiles(true, ["a", "b", "c"],
      Some([Row("a", SolvedRecord(1.0)), Row("b", Placeholder(2.0))]), 5.0, SolveTimeout) == Success(["c", "b"])
  {
    var rows := [Row("a", SolvedRecord(1.0)), Row("b", Placeholder(2.0))];
    assert Names(rows) == ["a", "b"];
    assert Unrecorded(["a", "b", "c"], rows) == ["c"];
    assert RetryNames(rows, 5.0) == ["b"];
    assert CollectFiles(true, ["a", "b", "c"], Some(rows), 5.0, SolveTimeout) == Success(["c"] + ["b"]);
    assert ["c"] + ["b"] == ["c", "b"];
  }

  /** Prior checkpoint: `b` cut off after 9 seconds. With threshold 5 it is exhausted. */
  lemma ResumeSkipsExhausted()
    ensures CollectFiles(true, ["a", "b", "c"], Some([Row("b", Placeholder(9.0))]), 5.0, SolveTimeout)
         == Success(["a", "c"])
  {
    var rows := [Row("b", Placeholder(9.0))];
    assert Names(rows) == ["b"];
    assert Unrecorded(["a", "b", "c"], rows) == ["a", "c"];
    assert RetryNames(rows, 5.0) == [];
    assert CollectFiles(true, ["a", "b", "c"], Some(rows), 5.0, SolveTimeout) == Success(["a", "c"] + []);
    assert ["a", "c"] + [] == ["a", "c"];
  }
}

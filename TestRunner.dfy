/**
 * The single-test recorder: it finds the first row (after the header) that
 * carries the test number and writes the result, the note if there is one,
 * and the run date into it. Reading and writing the file is not modelled
 * and the run date is a parameter.
 *
 * As written, the row is padded to 12 cells only, so writing a note into
 * cell 12 of a row that had at most 12 cells raises an index error and the
 * file is not rewritten; the corrected recorder pads to 13 cells like the
 * batch recorder does.
 */
module TestRunner {
  import opened Wrappers
  import opened UpdateTestResults

  /** What a run leaves: the rows written back, or the index error that stops it first. */
  datatype RunOutcome = Written(rows: seq<Row>) | IndexError

  /** Row `i` is not the header, is non-empty and starts with the test number. */
  predicate Matching(rows: seq<Row>, testNo: string, i: int) {
    0 < i < |rows| && |rows[i]| > 0 && rows[i][0] == testNo
  }

  /** The first matching row at or after `from`. */
  function FirstMatchFrom(rows: seq<Row>, testNo: string, from: nat): (r: Option<nat>)
    requires from >= 1
    ensures r.Some? ==> (from <= r.value < |rows| && Matching(rows, testNo, r.value)
      && forall j :: from <= j < r.value ==> !Matching(rows, testNo, j))
    ensures r.None? ==> forall j :: from <= j < |rows| ==> !Matching(rows, testNo, j)
    decreases |rows| - from
  {
    if from >= |rows| then None
    else if Matching(rows, testNo, from) then Some(from)
    else FirstMatchFrom(rows, testNo, from + 1)
  }

  /** The row the search stops at: the first matching row after the header. */
  function FirstMatch(rows: seq<Row>, testNo: string): (r: Option<nat>)
    ensures r.Some? ==> (Matching(rows, testNo, r.value)
      && forall j :: 1 <= j < r.value ==> !Matching(rows, testNo, j))
    ensures r.None? <==> forall j :: 0 <= j < |rows| ==> !Matching(rows, testNo, j)
  {
    FirstMatchFrom(rows, testNo, 1)
  }

  // ---------------------------------------------------------------------
  // As written
  // ---------------------------------------------------------------------

  /** The matched row as written: padded to 12, the result, the note into cell 12 if any, the date; `None` where cell 12 is missing. */
  function RunnerRowAsWritten(row: Row, result: string, note: string, date: string): Option<Row> {
    var padded := Padded(row, 12)[RESULT_COLUMN := result];
    if |note| > 0 && |padded| <= NOTE_COLUMN then None
    else if |note| > 0 then Some(padded[NOTE_COLUMN := note][DATE_COLUMN := date])
    else Some(padded[DATE_COLUMN := date])
  }

  /** `update_test_result` as written. */
  function TestRunnerAsWritten(rows: seq<Row>, testNo: string, result: string, note: string, date: string): RunOutcome {
    match FirstMatch(rows, testNo)
    case None => Written(rows)
    case Some(i) =>
      match RunnerRowAsWritten(rows[i], result, note, date)
      case None => IndexError
      case Some(row) => Written(rows[i := row])
  }

  /** The search loop as written: skip the header, stop at the first matching row. */
  method UpdateTestResultAsWritten(rows: seq<Row>, testNo: string, result: string, note: string, date: string)
    returns (outcome: RunOutcome)
    ensures outcome == TestRunnerAsWritten(rows, testNo, result, note, date)
  {
    var sheet := rows;
    for i := 0 to |sheet|
      invariant sheet == rows
      invariant forall j :: 1 <= j < i ==> !Matching(rows, testNo, j)
    {
      if i == 0 {
        continue;
      }
      var row := sheet[i];
      if |row| > 0 && row[0] == testNo {
        assert Matching(rows, testNo, i);
        assert FirstMatch(rows, testNo) == Some(i);
        if |row| < 12 {
          row := row + seq(12 - |row|, _ => "");
        }
        row := row[RESULT_COLUMN := result];
        if |note| > 0 {
          if |row| <= NOTE_COLUMN {
            return IndexError;
          }
          row := row[NOTE_COLUMN := note];
        }
        row := row[DATE_COLUMN := date];
        sheet := sheet[i := row];
        break;
      }
    }
    outcome := Written(sheet);
  }

  /** The run fails exactly when a matching row is found, a note is given, and the row had at most 12 cells. */
  lemma AsWrittenFailsExactly(rows: seq<Row>, testNo: string, result: string, note: string, date: string)
    ensures TestRunnerAsWritten(rows, testNo, result, note, date).IndexError? <==>
      (FirstMatch(rows, testNo).Some? && |note| > 0 && |rows[FirstMatch(rows, testNo).value]| <= NOTE_COLUMN)
  {
  }

  /** A one-cell row for test 1 and a note: the as-written recorder stops with an index error. */
  lemma AsWrittenShortRowWithNote()
    ensures TestRunnerAsWritten([["No"], ["1"]], "1", "OK", "memo", "2025-01-01") == IndexError
  {
    assert Matching([["No"], ["1"]], "1", 1);
  }

  // ---------------------------------------------------------------------
  // Corrected
  // ---------------------------------------------------------------------

  /** `update_test_result` with the row padded to 13 cells: the first matching row is recorded as the batch recorder records it. */
  function TestRunner(rows: seq<Row>, testNo: string, result: string, note: string, date: string): (r: seq<Row>)
    ensures |r| == |rows|
  {
    match FirstMatch(rows, testNo)
    case None => rows
    case Some(i) => rows[i := RecordedRow(rows[i], result, note, date)]
  }

  /** The search loop with the row padded to 13 cells. */
  method UpdateTestResult(rows: seq<Row>, testNo: string, result: string, note: string, date: string)
    returns (written: seq<Row>)
    ensures written == TestRunner(rows, testNo, result, note, date)
  {
    written := rows;
    for i := 0 to |written|
      invariant written == rows
      invariant forall j :: 1 <= j < i ==> !Matching(rows, testNo, j)
    {
      if i == 0 {
        continue;
      }
      var row := written[i];
      if |row| > 0 && row[0] == testNo {
        assert Matching(rows, testNo, i);
        assert FirstMatch(rows, testNo) == Some(i);
        row := PadRow(row, ROW_WIDTH);
        row := row[RESULT_COLUMN := result];
        if |note| > 0 {
          row := row[NOTE_COLUMN := note];
        }
        row := row[DATE_COLUMN := date];
        assert row == RecordedRow(rows[i], result, note, date);
        written := written[i := row];
        break;
      }
    }
  }

  /**
   * Only the first matching row changes, and it is recorded: at least 13
   * cells, the date, the result, and the note when one is given; without
   * a matching row nothing changes.
   */
  lemma OnlyFirstMatchChanges(rows: seq<Row>, testNo: string, result: string, note: string, date: string)
    ensures var r := TestRunner(rows, testNo, result, note, date);
      (FirstMatch(rows, testNo).None? ==> r == rows)
      && (FirstMatch(rows, testNo).Some? ==>
        var i := FirstMatch(rows, testNo).value;
        (forall j :: 0 <= j < |rows| && j != i ==> r[j] == rows[j])
        && |r[i]| >= ROW_WIDTH && r[i][DATE_COLUMN] == date && r[i][RESULT_COLUMN] == result
        && (|note| > 0 ==> r[i][NOTE_COLUMN] == note))
  {
    if FirstMatch(rows, testNo).Some? {
      var i := FirstMatch(rows, testNo).value;
      RecordedRowCells(rows[i], result, note, date);
    }
  }

  /** The corrected recorder never fails, and where the as-written one succeeds it differs at most by a trailing empty cell. */
  lemma CorrectedExtendsAsWritten(rows: seq<Row>, testNo: string, result: string, note: string, date: string)
    ensures TestRunnerAsWritten(rows, testNo, result, note, date).Written? ==>
      var w := TestRunnerAsWritten(rows, testNo, result, note, date).rows;
      |w| == |rows|
      && forall j :: 0 <= j < |rows| ==> TestRunner(rows, testNo, result, note, date)[j] == Padded(w[j], if j == 0 || FirstMatch(rows, testNo) != Some(j) then 0 else ROW_WIDTH)
  {
    if FirstMatch(rows, testNo).Some? && TestRunnerAsWritten(rows, testNo, result, note, date).Written? {
      var i := FirstMatch(rows, testNo).value;
      var row := RunnerRowAsWritten(rows[i], result, note, date).value;
      var recorded := RecordedRow(rows[i], result, note, date);
      assert |recorded| == |Padded(row, ROW_WIDTH)|;
      forall j | 0 <= j < |recorded| ensures recorded[j] == Padded(row, ROW_WIDTH)[j] {
        var p12 := Padded(rows[i], 12);
        var p13 := Padded(rows[i], ROW_WIDTH);
        assert j < |p12| ==> p12[j] == p13[j] by {
          if j < |rows[i]| {
            assert p12[..|rows[i]|][j] == p12[j] && p13[..|rows[i]|][j] == p13[j];
          }
        }
      }
    }
  }

  /** The corrected recorder writes the note of the one-cell row that the as-written one fails on. */
  lemma CorrectedShortRowWithNote()
    ensures var r := TestRunner([["No"], ["1"]], "1", "OK", "memo", "2025-01-01");
      |r[1]| == ROW_WIDTH && r[1][0] == "1" && r[1][NOTE_COLUMN] == "memo" && r[1][RESULT_COLUMN] == "OK"
  {
    assert Matching([["No"], ["1"]], "1", 1);
    RecordedRowCells(["1"], "OK", "memo", "2025-01-01");
  }
}

/**
 * The batch recorder of the test-specification sheet: every row whose test
 * number has a result gets the run date, the result and, when there is
 * one, the note. The sheet is a sequence of rows of cells; reading and
 * writing the file is not modelled and the run date is a parameter.
 */
module UpdateTestResults {
  import opened Wrappers
  import opened Text

  /** One row of the sheet. */
  type Row = seq<string>

  /** The columns the recorders write: run date, result and note. */
  const DATE_COLUMN: nat := 10
  const RESULT_COLUMN: nat := 11
  const NOTE_COLUMN: nat := 12
  /** The width every updated row is padded to. */
  const ROW_WIDTH: nat := 13

  /** The row with empty cells appended up to `width` cells. */
  function Padded(row: Row, width: nat): (r: Row)
    ensures |r| == if |row| < width then width else |row|
    ensures r[..|row|] == row
    ensures forall j :: |row| <= j < |r| ==> r[j] == ""
  {
    if |row| < width then row + seq(width - |row|, _ => "") else row
  }

  /** The padding loop: `while len(row) < width: row.append('')`. */
  method PadRow(row: Row, width: nat) returns (padded: Row)
    ensures padded == Padded(row, width)
  {
    padded := row;
    while |padded| < width
      invariant padded[..|row|] == row && |row| <= |padded|
      invariant |padded| <= width || padded == row
      invariant forall j :: |row| <= j < |padded| ==> padded[j] == ""
      decreases width - |padded|
    {
      padded := padded + [""];
    }
  }

  /** A row with its result recorded: padded, dated, the result set, and the note if there is one. */
  function RecordedRow(row: Row, result: string, note: string, date: string): Row {
    var padded := Padded(row, ROW_WIDTH)[DATE_COLUMN := date][RESULT_COLUMN := result];
    if |note| > 0 then padded[NOTE_COLUMN := note] else padded
  }

  /**
   * A recorded row has at least 13 cells, the date at 10 and the result at
   * 11; cell 12 is the note when there is one and is kept otherwise; every
   * other cell is the old one, or empty where the row was too short.
   */
  lemma RecordedRowCells(row: Row, result: string, note: string, date: string)
    ensures var r := RecordedRow(row, result, note, date);
      |r| == (if |row| < ROW_WIDTH then ROW_WIDTH else |row|)
      && r[DATE_COLUMN] == date && r[RESULT_COLUMN] == result
      && r[NOTE_COLUMN] == (if |note| > 0 then note else if NOTE_COLUMN < |row| then row[NOTE_COLUMN] else "")
      && (forall j :: 0 <= j < |r| && j != DATE_COLUMN && j != RESULT_COLUMN && j != NOTE_COLUMN ==>
            r[j] == if j < |row| then row[j] else "")
  {
    var p := Padded(row, ROW_WIDTH);
    forall j | 0 <= j < |row| ensures p[j] == row[j] {
      assert p[..|row|][j] == p[j];
    }
  }

  // ---------------------------------------------------------------------
  // The result table
  // ---------------------------------------------------------------------

  /** One entry of `test_results`: `(test_no, result, note)`. */
  datatype TestResult = TestResult(testNo: int, result: string, note: string)

  /** The dictionary key of an entry: `str(no)`. */
  function KeyOf(t: TestResult): string {
    IntToString(t.testNo)
  }

  /** `{str(no): (result, note) for no, result, note in test_results}`. */
  function TestDict(testResults: seq<TestResult>): map<string, (string, string)>
    decreases |testResults|
  {
    if testResults == [] then map[]
    else
      var last := testResults[|testResults| - 1];
      TestDict(testResults[..|testResults| - 1])[KeyOf(last) := (last.result, last.note)]
  }

  /** A test number is a key exactly when some entry carries it. */
  lemma {:induction false} TestDictKeys(testResults: seq<TestResult>, key: string)
    ensures key in TestDict(testResults) <==> exists i :: 0 <= i < |testResults| && KeyOf(testResults[i]) == key
    decreases |testResults|
  {
    if testResults != [] {
      var n := |testResults|;
      var init := testResults[..n - 1];
      TestDictKeys(init, key);
      if exists i :: 0 <= i < n && KeyOf(testResults[i]) == key {
        var i :| 0 <= i < n && KeyOf(testResults[i]) == key;
        if i < n - 1 {
          assert init[i] == testResults[i];
        }
      }
      if exists i :: 0 <= i < n - 1 && KeyOf(init[i]) == key {
        var i :| 0 <= i < n - 1 && KeyOf(init[i]) == key;
        assert init[i] == testResults[i];
      }
    }
  }

  /** When entry `i` carries the key and no later entry does, the key maps to entry `i`'s result and note. */
  lemma {:induction false} TestDictLastWins(testResults: seq<TestResult>, i: nat)
    requires i < |testResults|
    requires forall j :: i < j < |testResults| ==> KeyOf(testResults[j]) != KeyOf(testResults[i])
    ensures KeyOf(testResults[i]) in TestDict(testResults)
    ensures TestDict(testResults)[KeyOf(testResults[i])] == (testResults[i].result, testResults[i].note)
    decreases |testResults|
  {
    var n := |testResults|;
    if i < n - 1 {
      var init := testResults[..n - 1];
      assert init[i] == testResults[i];
      forall j | i < j < |init| ensures KeyOf(init[j]) != KeyOf(init[i]) {
        assert init[j] == testResults[j];
      }
      TestDictLastWins(init, i);
    }
  }

  /** The last entry carrying a key that some entry carries. */
  lemma {:induction false} LastWithKey(testResults: seq<TestResult>, key: string) returns (i: nat)
    requires exists k :: 0 <= k < |testResults| && KeyOf(testResults[k]) == key
    ensures i < |testResults| && KeyOf(testResults[i]) == key
    ensures forall j :: i < j < |testResults| ==> KeyOf(testResults[j]) != key
    decreases |testResults|
  {
    var n := |testResults|;
    if KeyOf(testResults[n - 1]) == key {
      i := n - 1;
    } else {
      var init := testResults[..n - 1];
      var k :| 0 <= k < n && KeyOf(testResults[k]) == key;
      assert k < n - 1 && init[k] == testResults[k];
      i := LastWithKey(init, key);
      assert init[i] == testResults[i];
      forall j | i < j < n ensures KeyOf(testResults[j]) != key {
        if j < n - 1 {
          assert init[j] == testResults[j];
        }
      }
    }
  }

  // ---------------------------------------------------------------------
  // The update
  // ---------------------------------------------------------------------

  /** Whether row `i` is recorded: not the header, non-empty, and its number has a result. */
  predicate Selected(rows: seq<Row>, i: int, dict: map<string, (string, string)>)
    requires 0 <= i < |rows|
  {
    i != 0 && |rows[i]| > 0 && rows[i][0] in dict
  }

  /** The sheet after the update: the selected rows recorded, the rest as they were. */
  function UpdatedSheet(rows: seq<Row>, testResults: seq<TestResult>, date: string): (r: seq<Row>)
    ensures |r| == |rows|
  {
    var dict := TestDict(testResults);
    seq(|rows|, i requires 0 <= i < |rows| =>
      if Selected(rows, i, dict) then RecordedRow(rows[i], dict[rows[i][0]].0, dict[rows[i][0]].1, date)
      else rows[i])
  }

  /** `update_test_results(csv_file, test_results)` on the rows read from the file. */
  method UpdateTestResultsRows(rows: seq<Row>, testResults: seq<TestResult>, date: string) returns (written: seq<Row>)
    ensures written == UpdatedSheet(rows, testResults, date)
  {
    written := rows;
    var testDict := TestDict(testResults);
    for i := 0 to |written|
      invariant |written| == |rows|
      invariant forall k :: 0 <= k < i ==> written[k] == UpdatedSheet(rows, testResults, date)[k]
      invariant forall k :: i <= k < |rows| ==> written[k] == rows[k]
    {
      if i == 0 {
        continue;
      }
      var row := written[i];
      if |row| > 0 && row[0] in testDict {
        var (result, note) := testDict[row[0]];
        row := PadRow(row, ROW_WIDTH);
        row := row[DATE_COLUMN := date];
        row := row[RESULT_COLUMN := result];
        if |note| > 0 {
          row := row[NOTE_COLUMN := note];
        }
        written := written[i := row];
      }
    }
  }

  /**
   * The header and every unselected row are unchanged; a selected row is
   * recorded with the result and note of the last entry for its number.
   */
  lemma UpdatedSheetRows(rows: seq<Row>, testResults: seq<TestResult>, date: string, i: nat)
    requires i < |rows|
    ensures i == 0 ==> UpdatedSheet(rows, testResults, date)[0] == rows[0]
    ensures !Selected(rows, i, TestDict(testResults)) ==> UpdatedSheet(rows, testResults, date)[i] == rows[i]
    ensures Selected(rows, i, TestDict(testResults)) ==>
      exists k :: 0 <= k < |testResults| && KeyOf(testResults[k]) == rows[i][0]
        && UpdatedSheet(rows, testResults, date)[i] == RecordedRow(rows[i], testResults[k].result, testResults[k].note, date)
        && forall j :: k < j < |testResults| ==> KeyOf(testResults[j]) != rows[i][0]
  {
    if Selected(rows, i, TestDict(testResults)) {
      var key := rows[i][0];
      TestDictKeys(testResults, key);
      var k := LastWithKey(testResults, key);
      TestDictLastWins(testResults, k);
    }
  }
}

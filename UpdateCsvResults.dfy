/**
 * The one-off sheet update: every numbered row after the header is dated
 * and marked OK, except three tests that are put on hold with a fixed
 * note. Reading and writing the file is not modelled and the run date is
 * a parameter.
 */
module UpdateCsvResults {
  import opened Text
  import opened UpdateTestResults

  /** The tests put on hold, with their status and note. */
  const HELD_RESULTS: map<string, (string, string)> := map[
    "41" := ("保留", "ネットワーク切断テストは環境依存のため保留"),
    "131" := ("保留", "キャッシュ機能の確認はネットワークタブでの確認が必要なため保留"),
    "132" := ("保留", "ネットワークエラーテストは環境依存のため保留")
  ]

  /** The status of every other numbered test. */
  const PASSED: string := "OK"

  /** `str.isdigit()` on the first cell: non-empty and every character a decimal digit. */
  predicate IsNumbered(cell: string) {
    |cell| > 0 && forall k :: 0 <= k < |cell| ==> IsDigit(cell[k])
  }

  /** A numbered row after the update: padded to 13, dated, and the held status and note or `OK` with the note kept. */
  function UpdatedRow(row: Row, date: string): Row
    requires |row| > 0
  {
    var padded := Padded(row, ROW_WIDTH)[DATE_COLUMN := date];
    if row[0] in HELD_RESULTS then
      padded[RESULT_COLUMN := HELD_RESULTS[row[0]].0][NOTE_COLUMN := HELD_RESULTS[row[0]].1]
    else
      padded[RESULT_COLUMN := PASSED]
  }

  /** Whether row `i` is updated: after the header, non-empty and numbered. */
  predicate Updated(rows: seq<Row>, i: int)
    requires 0 <= i < |rows|
  {
    i >= 1 && |rows[i]| > 0 && IsNumbered(rows[i][0])
  }

  /** The whole sheet after the update. */
  function UpdatedSheet(rows: seq<Row>, date: string): (r: seq<Row>)
    ensures |r| == |rows|
  {
    seq(|rows|, i requires 0 <= i < |rows| => if Updated(rows, i) then UpdatedRow(rows[i], date) else rows[i])
  }

  /** The script's loop over the rows after the header. */
  method UpdateCsvResults(rows: seq<Row>, testDate: string) returns (written: seq<Row>)
    ensures written == UpdatedSheet(rows, testDate)
  {
    written := rows;
    var i := 1;
    while i < |written|
      invariant 1 <= i && (i <= |rows| || |rows| == 0)
      invariant |written| == |rows|
      invariant |rows| > 0 ==> written[0] == rows[0]
      invariant forall k :: 1 <= k < i && k < |rows| ==> written[k] == UpdatedSheet(rows, testDate)[k]
      invariant forall k :: i <= k < |rows| ==> written[k] == rows[k]
    {
      var row := written[i];
      if |row| > 0 && IsNumbered(row[0]) {
        var testNo := row[0];
        row := PadRow(row, ROW_WIDTH);
        row := row[DATE_COLUMN := testDate];
        if testNo in HELD_RESULTS {
          row := row[RESULT_COLUMN := HELD_RESULTS[testNo].0];
          row := row[NOTE_COLUMN := HELD_RESULTS[testNo].1];
        } else {
          row := row[RESULT_COLUMN := PASSED];
        }
        written := written[i := row];
      }
      i := i + 1;
    }
  }

  /** Every held test has a non-empty note. */
  lemma HeldNotesNonEmpty(testNo: string)
    requires testNo in HELD_RESULTS
    ensures |HELD_RESULTS[testNo].1| > 0
  {
  }

  /**
   * A numbered row is updated exactly as the batch recorder records a
   * result: the held status and note for the three held tests, `OK` with no
   * note otherwise.
   */
  lemma UpdatedRowIsRecorded(row: Row, date: string)
    requires |row| > 0
    ensures row[0] in HELD_RESULTS ==>
      UpdatedRow(row, date) == RecordedRow(row, HELD_RESULTS[row[0]].0, HELD_RESULTS[row[0]].1, date)
    ensures row[0] !in HELD_RESULTS ==> UpdatedRow(row, date) == RecordedRow(row, PASSED, "", date)
  {
    if row[0] in HELD_RESULTS {
      HeldNotesNonEmpty(row[0]);
    }
  }

  /**
   * The header and every row that is empty or not numbered are unchanged;
   * a numbered row gets at least 13 cells, the date, its status, the held
   * note for a held test, and its old note (or an empty cell) otherwise.
   */
  lemma UpdatedSheetRows(rows: seq<Row>, date: string, i: nat)
    requires i < |rows|
    ensures !Updated(rows, i) ==> UpdatedSheet(rows, date)[i] == rows[i]
    ensures Updated(rows, i) ==>
      var r := UpdatedSheet(rows, date)[i];
      |r| >= ROW_WIDTH && r[0] == rows[i][0] && r[DATE_COLUMN] == date
      && (rows[i][0] in HELD_RESULTS ==> r[RESULT_COLUMN] == HELD_RESULTS[rows[i][0]].0 && r[NOTE_COLUMN] == HELD_RESULTS[rows[i][0]].1)
      && (rows[i][0] !in HELD_RESULTS ==>
        r[RESULT_COLUMN] == PASSED && r[NOTE_COLUMN] == if NOTE_COLUMN < |rows[i]| then rows[i][NOTE_COLUMN] else "")
  {
    if Updated(rows, i) {
      UpdatedRowIsRecorded(rows[i], date);
      if rows[i][0] in HELD_RESULTS {
        RecordedRowCells(rows[i], HELD_RESULTS[rows[i][0]].0, HELD_RESULTS[rows[i][0]].1, date);
      } else {
        RecordedRowCells(rows[i], PASSED, "", date);
      }
    }
  }

  /** The header is never touched. */
  lemma HeaderUnchanged(rows: seq<Row>, date: string)
    requires |rows| > 0
    ensures UpdatedSheet(rows, date)[0] == rows[0]
  {
  }
}

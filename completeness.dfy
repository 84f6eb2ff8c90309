/**
 * Completeness check (quality_audit.py:26-32): is any cell of any column null,
 * and how many nulls does each column hold (df.isnull().sum()).
 */
module Completeness {
  import opened Dataset

  /** One entry of the per-column missing-value summary. */
  datatype ColumnCount = ColumnCount(column: string, missing: nat)

  /** Reference definition: some cell of the table is null. */
  ghost predicate HasNullCell(t: Table) {
    exists i, j :: 0 <= i < |t.rows| && 0 <= j < |t.columns| && IsNull(t.rows[i], t.columns[j])
  }

  /** Indices of the rows whose cell in column `c` is null. */
  ghost function NullRows(rows: seq<Row>, c: string): set<nat> {
    set i: nat | i < |rows| && IsNull(rows[i], c)
  }

  /** Does `row` hold a null in one of `cols`? */
  function RowHasNull(row: Row, cols: seq<string>): bool {
    if cols == [] then false
    else RowHasNull(row, cols[..|cols| - 1]) || IsNull(row, cols[|cols| - 1])
  }

  /** Does any of `rows` hold a null in one of `cols`? */
  function AnyNull(rows: seq<Row>, cols: seq<string>): bool {
    if rows == [] then false
    else AnyNull(rows[..|rows| - 1], cols) || RowHasNull(rows[|rows| - 1], cols)
  }

  /** The completeness verdict, df.isnull().values.any() (line 26). */
  function HasMissingValues(t: Table): bool {
    AnyNull(t.rows, t.columns)
  }

  lemma {:induction false} RowHasNullIff(row: Row, cols: seq<string>)
    ensures RowHasNull(row, cols) <==> exists j :: 0 <= j < |cols| && IsNull(row, cols[j])
  {
    if cols != [] {
      RowHasNullIff(row, cols[..|cols| - 1]);
    }
  }

  lemma {:induction false} AnyNullIff(rows: seq<Row>, cols: seq<string>)
    ensures AnyNull(rows, cols) <==> exists i, j :: 0 <= i < |rows| && 0 <= j < |cols| && IsNull(rows[i], cols[j])
  {
    if rows != [] {
      var n := |rows| - 1;
      AnyNullIff(rows[..n], cols);
      RowHasNullIff(rows[n], cols);
    }
  }

  /** The check reports an issue exactly when some cell of the table is null. */
  lemma HasMissingValuesIff(t: Table)
    ensures HasMissingValues(t) <==> HasNullCell(t)
  {
    AnyNullIff(t.rows, t.columns);
  }

  /** Number of rows whose cell in column `c` is null. */
  function NullCount(rows: seq<Row>, c: string): nat {
    if rows == [] then 0
    else NullCount(rows[..|rows| - 1], c) + (if IsNull(rows[|rows| - 1], c) then 1 else 0)
  }

  /** The summary printed at line 29: one count per column, in header order. */
  function MissingCounts(t: Table): seq<ColumnCount> {
    seq(|t.columns|, j requires 0 <= j < |t.columns| => ColumnCount(t.columns[j], NullCount(t.rows, t.columns[j])))
  }

  /** Sum of the counts of a summary. */
  function TotalMissing(counts: seq<ColumnCount>): nat {
    if counts == [] then 0 else TotalMissing(counts[..|counts| - 1]) + counts[|counts| - 1].missing
  }

  /** Number of nulls among the cells of one row. */
  function RowNullCount(row: Row, cols: seq<string>): nat {
    if cols == [] then 0
    else RowNullCount(row, cols[..|cols| - 1]) + (if IsNull(row, cols[|cols| - 1]) then 1 else 0)
  }

  /** Number of null cells of the table, counted row by row. */
  function NullCells(rows: seq<Row>, cols: seq<string>): nat {
    if rows == [] then 0 else NullCells(rows[..|rows| - 1], cols) + RowNullCount(rows[|rows| - 1], cols)
  }

  /** The count of a column is exactly the number of its null cells. */
  lemma {:induction false} NullCountIsExact(rows: seq<Row>, c: string)
    ensures NullCount(rows, c) == |NullRows(rows, c)|
  {
    if rows != [] {
      var n := |rows| - 1;
      var init := rows[..n];
      NullCountIsExact(init, c);
      if IsNull(rows[n], c) {
        assert NullRows(rows, c) == NullRows(init, c) + {n};
      } else {
        assert NullRows(rows, c) == NullRows(init, c);
      }
    }
  }

  /** Every entry of the printed summary names its column and its exact null count. */
  lemma MissingCountsExact(t: Table)
    ensures |MissingCounts(t)| == |t.columns|
    ensures forall j :: 0 <= j < |t.columns| ==>
      MissingCounts(t)[j].column == t.columns[j] &&
      MissingCounts(t)[j].missing == |NullRows(t.rows, t.columns[j])|
  {
    forall j | 0 <= j < |t.columns| ensures MissingCounts(t)[j].missing == |NullRows(t.rows, t.columns[j])| {
      NullCountIsExact(t.rows, t.columns[j]);
    }
  }

  lemma {:induction false} NullCellsSplitLastColumn(rows: seq<Row>, cols: seq<string>)
    requires cols != []
    ensures NullCells(rows, cols) == NullCells(rows, cols[..|cols| - 1]) + NullCount(rows, cols[|cols| - 1])
  {
    if rows != [] {
      NullCellsSplitLastColumn(rows[..|rows| - 1], cols);
    }
  }

  /** The per-column counts add up to the number of null cells of the table. */
  lemma {:induction false} MissingCountsSum(t: Table)
    ensures TotalMissing(MissingCounts(t)) == NullCells(t.rows, t.columns)
    decreases |t.columns|
  {
    var cols := t.columns;
    if cols != [] {
      var n := |cols| - 1;
      var t' := Table(cols[..n], t.rows);
      MissingCountsSum(t');
      var counts := MissingCounts(t);
      assert counts[..n] == MissingCounts(t');
      assert counts[n].missing == NullCount(t.rows, cols[n]);
      NullCellsSplitLastColumn(t.rows, cols);
      calc {
        TotalMissing(counts);
        TotalMissing(counts[..n]) + counts[n].missing;
        NullCells(t.rows, cols[..n]) + NullCount(t.rows, cols[n]);
      }
    } else {
      NullCellsNoColumns(t.rows);
    }
  }

  lemma {:induction false} NullCellsNoColumns(rows: seq<Row>)
    ensures NullCells(rows, []) == 0
  {
    if rows != [] {
      NullCellsNoColumns(rows[..|rows| - 1]);
    }
  }

  lemma {:induction false} RowNullCountPositive(row: Row, cols: seq<string>)
    ensures RowNullCount(row, cols) > 0 <==> RowHasNull(row, cols)
  {
    if cols != [] {
      RowNullCountPositive(row, cols[..|cols| - 1]);
    }
  }

  lemma {:induction false} NullCellsPositive(rows: seq<Row>, cols: seq<string>)
    ensures NullCells(rows, cols) > 0 <==> AnyNull(rows, cols)
  {
    if rows != [] {
      NullCellsPositive(rows[..|rows| - 1], cols);
      RowNullCountPositive(rows[|rows| - 1], cols);
    }
  }

  /** The check flags the table exactly when the printed counts are not all zero. */
  lemma MissingIffCountsPositive(t: Table)
    ensures HasMissingValues(t) <==> TotalMissing(MissingCounts(t)) > 0
  {
    MissingCountsSum(t);
    NullCellsPositive(t.rows, t.columns);
  }
}

/**
 * The in-memory table the audit runs over: a header of column names and an
 * ordered sequence of rows, each row mapping column names to cells. A cell is
 * either a value or null (pandas' NaN / None).
 */
module Dataset {

  datatype Option<+T> = None | Some(value: T)

  /** A typed cell value as the loader infers it: numeric or textual. */
  datatype Value = Num(x: real) | Text(s: string)

  type Row = map<string, Option<Value>>

  /** The loaded dataset; `columns` is the header (df.columns), `rows` the data. */
  datatype Table = Table(columns: seq<string>, rows: seq<Row>)

  /** Outcome of the load step: a dataset, or the source file was not found. */
  datatype LoadResult = Loaded(table: Table) | NotFound

  /**
   * The cell of `row` in column `c`. A row that has no entry for `c` reads as
   * null, as a data frame fills a missing field with NaN.
   */
  function Cell(row: Row, c: string): Option<Value> {
    if c in row then row[c] else None
  }

  predicate IsNull(row: Row, c: string) {
    Cell(row, c).None?
  }

  /**
   * A row as it appears in a frame with header `cols`: only the entries of
   * header columns are kept, since a data frame has no cell outside its header.
   */
  function Restrict(row: Row, cols: seq<string>): Row {
    map c | c in row && c in cols :: row[c]
  }

  /** Restricting keeps every header cell as it was and nothing outside the header. */
  lemma RestrictCells(row: Row, cols: seq<string>)
    ensures forall c :: c in cols ==> Cell(Restrict(row, cols), c) == Cell(row, c)
    ensures forall c :: c in Restrict(row, cols) ==> c in cols
  {
  }
}

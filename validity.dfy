/**
 * Validity check (quality_audit.py:35-41): when the table has a `Quantity`
 * column, find the rows whose Quantity is negative (df[df['Quantity'] < 0]).
 */
module Validity {
  import opened Dataset

  const Quantity: string := "Quantity"

  /** A row of the offending-row output, labelled with its original row index. */
  datatype IndexedRow = IndexedRow(index: nat, row: Row)

  /**
   * The comparison `cell < 0`: a null cell (NaN) compares false; only a numeric
   * cell can be negative.
   */
  predicate IsNegative(v: Option<Value>) {
    v.Some? && v.value.Num? && v.value.x < 0.0
  }

  predicate NegativeQuantity(row: Row) {
    IsNegative(Cell(row, Quantity))
  }

  /** (df['Quantity'] < 0).any() */
  function AnyNegative(rows: seq<Row>): bool {
    if rows == [] then false
    else AnyNegative(rows[..|rows| - 1]) || NegativeQuantity(rows[|rows| - 1])
  }

  /** The guard of line 35: the column exists and some Quantity is negative. */
  function HasInvalidQuantities(t: Table): bool {
    Quantity in t.columns && AnyNegative(t.rows)
  }

  lemma {:induction false} AnyNegativeIff(rows: seq<Row>)
    ensures AnyNegative(rows) <==> exists i :: 0 <= i < |rows| && NegativeQuantity(rows[i])
  {
    if rows != [] {
      AnyNegativeIff(rows[..|rows| - 1]);
    }
  }

  /**
   * The check reports an issue exactly when the column exists and some row has
   * a negative Quantity; an absent column, or only non-negative and null
   * quantities, give the `[OK]` line.
   */
  lemma HasInvalidQuantitiesIff(t: Table)
    ensures HasInvalidQuantities(t) <==> Quantity in t.columns && exists i :: 0 <= i < |t.rows| && NegativeQuantity(t.rows[i])
  {
    AnyNegativeIff(t.rows);
  }

  /**
   * The offending rows printed at line 38: the rows with a negative Quantity,
   * in their original order, each showing the cells of the header `cols`.
   */
  function NegativeRows(rows: seq<Row>, cols: seq<string>): seq<IndexedRow> {
    if rows == [] then []
    else
      var n := |rows| - 1;
      var before := NegativeRows(rows[..n], cols);
      if NegativeQuantity(rows[n]) then before + [IndexedRow(n, Restrict(rows[n], cols))] else before
  }

  /**
   * The offending rows are exactly the rows with a negative Quantity, each
   * shown with its header cells and labelled with its own index, in increasing
   * index order.
   */
  lemma {:induction false} NegativeRowsExact(rows: seq<Row>, cols: seq<string>)
    ensures forall k :: 0 <= k < |NegativeRows(rows, cols)| ==>
      var e := NegativeRows(rows, cols)[k];
      e.index < |rows| && e.row == Restrict(rows[e.index], cols) && NegativeQuantity(rows[e.index])
    ensures forall k, l :: 0 <= k < l < |NegativeRows(rows, cols)| ==>
      NegativeRows(rows, cols)[k].index < NegativeRows(rows, cols)[l].index
    ensures forall i :: 0 <= i < |rows| && NegativeQuantity(rows[i]) ==>
      IndexedRow(i, Restrict(rows[i], cols)) in NegativeRows(rows, cols)
  {
    if rows != [] {
      NegativeRowsExact(rows[..|rows| - 1], cols);
    }
  }

  /** The offending-row output is empty exactly when no Quantity is negative. */
  lemma NegativeRowsEmptyIff(rows: seq<Row>, cols: seq<string>)
    ensures NegativeRows(rows, cols) == [] <==> !AnyNegative(rows)
  {
    NegativeRowsExact(rows, cols);
    AnyNegativeIff(rows);
    if AnyNegative(rows) {
      var i :| 0 <= i < |rows| && NegativeQuantity(rows[i]);
      assert IndexedRow(i, Restrict(rows[i], cols)) in NegativeRows(rows, cols);
    }
  }

  /**
   * Appending a row with a negative Quantity to a table that has the column
   * flags the table and adds that row, with its index, at the end of the output.
   */
  lemma AppendNegativeRow(t: Table, row: Row)
    requires Quantity in t.columns && NegativeQuantity(row)
    ensures HasInvalidQuantities(Table(t.columns, t.rows + [row]))
    ensures NegativeRows(t.rows + [row], t.columns) ==
      NegativeRows(t.rows, t.columns) + [IndexedRow(|t.rows|, Restrict(row, t.columns))]
  {
    var rows := t.rows + [row];
    assert rows[..|rows| - 1] == t.rows;
    assert NegativeQuantity(rows[|t.rows|]);
    AnyNegativeIff(rows);
  }

  /** Appending a row whose Quantity is not negative changes neither verdict nor output. */
  lemma AppendNonNegativeRow(t: Table, row: Row)
    requires !NegativeQuantity(row)
    ensures HasInvalidQuantities(Table(t.columns, t.rows + [row])) == HasInvalidQuantities(t)
    ensures NegativeRows(t.rows + [row], t.columns) == NegativeRows(t.rows, t.columns)
  {
    var rows := t.rows + [row];
    assert rows[..|rows| - 1] == t.rows;
  }
}

/**
 * Three end-to-end runs over small material logs, complete and clean,
 * with a negative quantity, and with one material in two units.
 */
module Scenarios {
  import opened Dataset
  import opened Completeness
  import opened Validity
  import opened Consistency
  import opened Audit

  const Source: string := "material_logs.csv"
  const LogColumns: seq<string> := [MaterialID, Quantity, UnitOfMeasure]

  function LogRow(material: string, quantity: real, unit: string): Row {
    map[MaterialID := Some(Text(material)), Quantity := Some(Num(quantity)), UnitOfMeasure := Some(Text(unit))]
  }

  lemma LogRowCells(material: string, quantity: real, unit: string)
    ensures Cell(LogRow(material, quantity, unit), MaterialID) == Some(Text(material))
    ensures Cell(LogRow(material, quantity, unit), Quantity) == Some(Num(quantity))
    ensures Cell(LogRow(material, quantity, unit), UnitOfMeasure) == Some(Text(unit))
  {
  }

  /** A log row has no cell outside the log header, so the header shows it whole. */
  lemma LogRowWithinHeader(material: string, quantity: real, unit: string)
    ensures Restrict(LogRow(material, quantity, unit), LogColumns) == LogRow(material, quantity, unit)
  {
  }

  /** Every cell of a table built from log rows is filled. */
  lemma LogTableComplete(t: Table)
    requires t.columns == LogColumns
    requires forall i :: 0 <= i < |t.rows| ==> exists m, q, u :: t.rows[i] == LogRow(m, q, u)
    ensures !HasMissingValues(t)
  {
    HasMissingValuesIff(t);
    forall i, j | 0 <= i < |t.rows| && 0 <= j < |t.columns| ensures !IsNull(t.rows[i], t.columns[j]) {
      var m, q, u :| t.rows[i] == LogRow(m, q, u);
      LogRowCells(m, q, u);
    }
  }

  /** A table whose rows all carry quantities that are not negative passes the validity check. */
  lemma NoNegativeQuantity(t: Table)
    requires forall i :: 0 <= i < |t.rows| ==> !NegativeQuantity(t.rows[i])
    ensures !HasInvalidQuantities(t)
  {
    HasInvalidQuantitiesIff(t);
  }

  /** A table whose rows all carry the same unit passes the consistency check. */
  lemma SingleUnit(t: Table, unit: Value)
    requires forall i :: 0 <= i < |t.rows| ==> Cell(t.rows[i], UnitOfMeasure) == Some(unit)
    ensures !HasInconsistentUnits(t)
  {
    HasInconsistentUnitsIff(t);
    assert forall m :: !HasTwoUnits(t.rows, m);
  }

  function CleanLog(): Table { Table(LogColumns, [LogRow("M1", 5.0, "kg"), LogRow("M1", 3.0, "kg")]) }
  function NegativeLog(): Table { Table(LogColumns, [LogRow("M1", -2.0, "kg")]) }
  function TwoUnitLog(): Table { Table(LogColumns, [LogRow("M1", 5.0, "kg"), LogRow("M1", 3.0, "lb")]) }

  /** Two rows of M1 in kg with positive quantities: every check passes. */
  lemma ScenarioClean()
    ensures AuditReport(Source, Loaded(CleanLog())) ==
      [AuditStarted, RowsRead(2, Source), ReportStarted, CompletenessOk, ValidityOk, ConsistencyOk, AuditComplete, Passed]
  {
    var t := CleanLog();
    LogRowCells("M1", 5.0, "kg");
    LogRowCells("M1", 3.0, "kg");
    LogTableComplete(t);
    NoNegativeQuantity(t);
    SingleUnit(t, Text("kg"));
  }

  /** A single row of M1 with quantity -2: the validity check flags that row. */
  lemma ScenarioNegative()
    ensures AuditReport(Source, Loaded(NegativeLog())) ==
      [AuditStarted, RowsRead(1, Source), ReportStarted, CompletenessOk,
       ValidityIssue, OffendingRows([IndexedRow(0, LogRow("M1", -2.0, "kg"))]), Separator,
       ConsistencyOk, AuditComplete, ActionRequired]
  {
    NegativeChecks();
  }

  lemma NegativeChecks()
    ensures !HasMissingValues(NegativeLog()) && !HasInconsistentUnits(NegativeLog())
    ensures HasInvalidQuantities(NegativeLog())
    ensures NegativeRows(NegativeLog().rows, NegativeLog().columns) == [IndexedRow(0, LogRow("M1", -2.0, "kg"))]
  {
    var t := NegativeLog();
    var r0 := LogRow("M1", -2.0, "kg");
    LogRowCells("M1", -2.0, "kg");
    LogTableComplete(t);
    AppendNegativeRow(Table(LogColumns, []), r0);
    LogRowWithinHeader("M1", -2.0, "kg");
    assert [] + [r0] == t.rows;
    SingleUnit(t, Text("kg"));
  }

  lemma TwoUnitGroups()
    ensures Materials(TwoUnitLog().rows) == {Text("M1")}
    ensures UnitsOf(TwoUnitLog().rows, Text("M1")) == {Text("kg"), Text("lb")}
  {
    LogRowCells("M1", 5.0, "kg");
    LogRowCells("M1", 3.0, "lb");
    MaterialsIff(TwoUnitLog().rows);
    UnitsOfIff(TwoUnitLog().rows, Text("M1"));
  }

  /** M1 logged in kg and in lb: the consistency check reports M1 with two distinct units. */
  lemma ScenarioTwoUnits()
    ensures AuditReport(Source, Loaded(TwoUnitLog())) ==
      [AuditStarted, RowsRead(2, Source), ReportStarted, CompletenessOk, ValidityOk,
       ConsistencyIssue, InconsistentUnits(map[Text("M1") := 2]), Separator, AuditComplete, ActionRequired]
  {
    TwoUnitChecks();
  }

  lemma TwoUnitChecks()
    ensures !HasMissingValues(TwoUnitLog()) && !HasInvalidQuantities(TwoUnitLog())
    ensures ConsistencyApplies(TwoUnitLog()) && InconsistentMaterials(TwoUnitLog().rows) == map[Text("M1") := 2]
  {
    var t := TwoUnitLog();
    LogRowCells("M1", 5.0, "kg");
    LogRowCells("M1", 3.0, "lb");
    LogTableComplete(t);
    NoNegativeQuantity(t);
    TwoUnitReport();
  }

  lemma TwoUnitReport()
    ensures InconsistentMaterials(TwoUnitLog().rows) == map[Text("M1") := 2]
  {
    TwoUnitGroups();
    assert |{Text("kg"), Text("lb")}| == 2;
  }
}

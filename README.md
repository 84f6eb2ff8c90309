# AEC data-quality audit, modelled in Dafny

This project models `run_quality_audit` of the AEC Data Quality Auditor. The routine takes a
material log (a table with, among others, the columns `MaterialID`, `Quantity` and
`UnitOfMeasure`). It runs three independent checks over it and prints a report that ends in a
verdict:

- **completeness**: is any cell null, with a per-column count of nulls;
- **validity**: when a `Quantity` column exists, which rows have a negative quantity;
- **consistency**: when both `MaterialID` and `UnitOfMeasure` exist, which materials are logged
  in more than one distinct unit.

The model is split into modules by component:

- `Dataset` (`dataset.dfy`): the table and its cells.
  - A `Table` is a header `columns: seq<string>` plus `rows: seq<Row>`.
  - A `Row` is a `map<string, Option<Value>>`, where `None` is a null cell (pandas' NaN).
  - A `Value` is numeric (`Num(real)`) or textual (`Text(string)`).
  - A row with no entry for a column reads as null there, as a data frame fills a missing field
    with NaN.
  - The load step is its outcome only: `Loaded(table)` or `NotFound`.
- `Completeness`, `Validity`, `Consistency`: each check as pure functions over the table (the
  source writes them as vectorised pandas expressions). Each function comes with reference
  definitions (quantified predicates over cells) and lemmas proving the two equal.
- `Audit` (`audit.dfy`): the report.
  - A report is a `seq<Line>`, one `Line` constructor per print statement of the routine.
  - `AuditReport` is the specification function for the whole printed output.
  - `RunQualityAudit` is the imperative routine. It raises `has_issues` after each flagged
    check, appends lines, and is proved equal to `AuditReport`.
  - Lemmas state what the report means.
- `Scenarios` (`scenarios.dfy`): three concrete runs (clean log, negative quantity, one material
  in two units), each proved to print exactly the expected report.

The checks take the table as an immutable value, so the model cannot modify the dataset, and
every check is a function of the table alone.

Points where the routine's behaviour is easy to misread:

- When the `Quantity` column is absent, the code prints the validity `[OK]` line (line 40-41). It
  does not report the check as skipped.
- When either consistency column is absent, the code prints nothing for that check (line 44).
- The completeness summary lists every column, zero counts included (line 29).
- An offending row is shown with the header's cells only, because `df[mask]` keeps the frame's
  columns (line 38). A row mapping that carries keys outside the header does not leak them.
- The validity `[OK]` line says "positive", but a zero quantity passes: the test is `< 0`
  (line 35).

## Model

| member | source | states |
|---|---|---|
| Completeness.RowHasNullIff | quality_audit.py:26 | a row has a null among the header's columns exactly when some column of the header is null in it |
| Completeness.AnyNullIff | quality_audit.py:26 | `isnull().values.any()` holds exactly when some (row, column) cell is null |
| Completeness.HasMissingValuesIff | quality_audit.py:26-32 | the completeness check reports an issue iff at least one cell of the table is null; a table with no null yields the `[OK]` branch |
| Completeness.NullCountIsExact | quality_audit.py:29 | the count for a column is exactly the number of rows whose cell in it is null |
| Completeness.MissingCountsExact | quality_audit.py:29 | the printed summary has one entry per column, in header order, naming that column with its exact null count |
| Completeness.MissingCountsSum | quality_audit.py:29 | the per-column counts add up to the number of null cells of the table, counted row by row |
| Completeness.MissingIffCountsPositive | quality_audit.py:26-29 | the check fires exactly when the printed counts are not all zero |
| Validity.AnyNegativeIff | quality_audit.py:35 | `(df['Quantity'] < 0).any()` holds exactly when some row has a non-null numeric Quantity below zero; a null never compares below zero |
| Validity.HasInvalidQuantitiesIff | quality_audit.py:35-41 | the validity check reports an issue iff the `Quantity` column exists and some row's Quantity is negative; an absent column, or only non-negative and null quantities, yields the `[OK]` line |
| Dataset.RestrictCells | quality_audit.py:38 | a row shown in the frame keeps every header cell unchanged and has no cell outside the header |
| Validity.NegativeRowsExact | quality_audit.py:38 | the offending-row output is exactly the rows with a negative Quantity, each showing its cells in the header columns and labelled with its own index, in strictly increasing index order |
| Validity.NegativeRowsEmptyIff | quality_audit.py:35-38 | the offending-row output is empty exactly when no Quantity is negative |
| Validity.AppendNegativeRow | quality_audit.py:35-38 | appending a row with a negative Quantity flags the table and adds exactly that row, with its index, at the end of the output |
| Validity.AppendNonNegativeRow | quality_audit.py:35-38 | appending a row whose Quantity is not negative changes neither the verdict nor the output |
| Consistency.MaterialsIff | quality_audit.py:45 | the group keys are exactly the non-null MaterialIDs; rows with a null key are dropped |
| Consistency.UnitsOfIff | quality_audit.py:45 | the units of a group are exactly the non-null UnitOfMeasure values of its rows |
| Consistency.TwoUnitsIff | quality_audit.py:45-46 | a material's distinct-unit count is at least two iff two of its rows carry different non-null units |
| Consistency.InconsistentIff | quality_audit.py:45-46 | a material is reported iff its rows carry more than one distinct non-null unit, iff its count is at least two, and it is reported with that count; a single-unit material is absent |
| Consistency.HasInconsistentUnitsIff | quality_audit.py:44-48 | the consistency check reports an issue iff both columns exist and some material has two distinct units |
| Audit.CompletenessBlock | quality_audit.py:25-32 | the completeness block prints its section and raises `has_issues` iff some cell is null |
| Audit.ValidityBlock | quality_audit.py:34-41 | the validity block prints its section and raises `has_issues` iff the column exists and some Quantity is negative |
| Audit.ConsistencyBlock | quality_audit.py:43-53 | the consistency block prints its section, nothing when a column is absent, and raises `has_issues` iff some material has two units |
| Audit.RunQualityAudit | quality_audit.py:6-59 | the routine prints exactly `AuditReport`. On `NotFound` it prints only the start banner and the error line, runs no check and returns `has_issues` false. Otherwise `has_issues` ends true iff some check finds its defect, and the last line is the matching verdict |
| Audit.HasIssuesIff | quality_audit.py:23-48 | the final `has_issues` (the OR of the three check flags) is true iff some check's defect is present |
| Audit.CheckOrder | quality_audit.py:25-53 | the status lines of a run are one for completeness, then one for validity, then one for consistency when both columns exist, whatever earlier checks found; each is `[ISSUE FOUND]` iff that check's defect is present |
| Audit.ConsistencySkipped | quality_audit.py:44 | with either consistency column absent, no consistency line is printed and the verdict depends on the other two checks only |
| Audit.VerdictIff | quality_audit.py:55-59 | the report ends in the verdict, which is SUCCESS iff no check finds its defect and ACTION REQUIRED otherwise |
| Audit.MissingDetail | quality_audit.py:28-29 | the per-column summary is printed iff some cell is null |
| Audit.OffendingDetail | quality_audit.py:37-38 | the offending rows are printed iff the column exists and some Quantity is negative |
| Audit.InconsistentDetail | quality_audit.py:49-50 | the inconsistent materials are printed iff both columns exist and some material has two distinct units |
| Scenarios.ScenarioClean | quality_audit.py:22-57 | two M1 rows in kg with quantities 5 and 3 print three `[OK]` lines and SUCCESS |
| Scenarios.ScenarioNegative | quality_audit.py:35-59 | one M1 row with quantity -2 prints the validity issue with exactly that row (index 0) and ACTION REQUIRED |
| Scenarios.ScenarioTwoUnits | quality_audit.py:44-59 | M1 in kg and in lb prints the consistency issue reporting M1 with 2 distinct units, and ACTION REQUIRED |

## Left out

- Reading the CSV (`pd.read_csv`), file-system access and the `FileNotFoundError` catch (lines 13-19): this is real I/O. The load outcome is an input, `Loaded(table)` or `NotFound`. Other read errors, which the source does not catch, are not modelled.
- Column typing by the loader: a textual `Quantity` value is treated as never negative. pandas would raise a `TypeError` comparing a text column with 0. The model leaves column typing to the loader.
- Floating point: quantities are Dafny `real`s and NaN is `None`. IEEE behaviour is not modelled.
- The wording of the printed lines and pandas' rendering of the Series and frames printed at lines 29, 38 and 50: each line is a `Line` constructor carrying the printed data (counts, indexed rows, material-to-count map).
- The order of the inconsistent-materials output (pandas sorts it by key): it is a `map`.
- Duplicate header names, which pandas renames on load: the header is taken as given.
- The `__main__` entry point and its file-name constant (lines 63-65): the source path is a parameter of `RunQualityAudit`.
- Audit.RunQualityAudit: it returns `has_issues` as an out-parameter so that its final value can be stated; the source keeps it local. On `NotFound` it returns false, since the source returns before the flag exists.
- Audit.RunQualityAudit: the three check blocks, inline in the source, are the methods `CompletenessBlock`, `ValidityBlock` and `ConsistencyBlock`. Each returns its lines and whether it raised the flag, and the routine sets `has_issues` from that.

/**
 * Report assembly (quality_audit.py:6-59): load, run the three checks in a
 * fixed order without short-circuit, raise `has_issues` once per flagged check
 * and print the verdict. The printed report is a sequence of `Line` values,
 * one constructor per print statement of the routine.
 */
module Audit {
  import opened Dataset
  import opened Completeness
  import opened Validity
  import opened Consistency

  datatype Line =
    | AuditStarted                                  // line 11
    | RowsRead(count: nat, source: string)          // line 16
    | SourceNotFound(source: string)                // line 18
    | ReportStarted                                 // line 22
    | CompletenessIssue                             // line 28
    | MissingPerColumn(counts: seq<ColumnCount>)    // line 29
    | CompletenessOk                                // line 32
    | ValidityIssue                                 // line 37
    | OffendingRows(rows: seq<IndexedRow>)          // line 38
    | ValidityOk                                    // line 41
    | ConsistencyIssue                              // line 49
    | InconsistentUnits(materials: map<Value, nat>) // line 50
    | ConsistencyOk                                 // line 53
    | Separator                                     // lines 30, 39 and 51
    | AuditComplete                                 // line 55
    | Passed                                        // line 57
    | ActionRequired                                // line 59
  {
    /** The `[OK]` and `[ISSUE FOUND]` lines, one per check that runs. */
    predicate IsStatus() {
      CompletenessIssue? || CompletenessOk? || ValidityIssue? || ValidityOk? || ConsistencyIssue? || ConsistencyOk?
    }

    /** The lines that only the consistency check prints. */
    predicate IsConsistencyLine() {
      ConsistencyIssue? || ConsistencyOk? || InconsistentUnits?
    }
  }

  /** The final value of `has_issues`: the OR of the three check flags. */
  predicate HasIssues(t: Table) {
    HasMissingValues(t) || HasInvalidQuantities(t) || HasInconsistentUnits(t)
  }

  function CompletenessSection(t: Table): seq<Line> {
    if HasMissingValues(t) then [CompletenessIssue, MissingPerColumn(MissingCounts(t)), Separator]
    else [CompletenessOk]
  }

  function ValiditySection(t: Table): seq<Line> {
    if HasInvalidQuantities(t) then [ValidityIssue, OffendingRows(NegativeRows(t.rows, t.columns)), Separator]
    else [ValidityOk]
  }

  function ConsistencySection(t: Table): seq<Line> {
    if !ConsistencyApplies(t) then []
    else if |InconsistentMaterials(t.rows)| > 0 then
      [ConsistencyIssue, InconsistentUnits(InconsistentMaterials(t.rows)), Separator]
    else [ConsistencyOk]
  }

  function Verdict(t: Table): Line {
    if HasIssues(t) then ActionRequired else Passed
  }

  /** The whole printed report of one run over the outcome of the load step. */
  function AuditReport(source: string, load: LoadResult): seq<Line> {
    match load
    case NotFound => [AuditStarted, SourceNotFound(source)]
    case Loaded(t) =>
      Header(source, |t.rows|) + CompletenessSection(t) + ValiditySection(t) + ConsistencySection(t)
      + [AuditComplete, Verdict(t)]
  }

  /** Reference definition of the verdict: some check finds its defect. */
  ghost predicate DefectFound(t: Table) {
    || HasNullCell(t)
    || (Quantity in t.columns && exists i :: 0 <= i < |t.rows| && NegativeQuantity(t.rows[i]))
    || (ConsistencyApplies(t) && exists m :: HasTwoUnits(t.rows, m))
  }

  /** The lines printed before the checks run, for a table of `count` rows. */
  function Header(source: string, count: nat): seq<Line> {
    [AuditStarted, RowsRead(count, source), ReportStarted]
  }

  /** Block 1 (lines 25-32): the lines it prints and whether it raises `has_issues`. */
  method CompletenessBlock(df: Table) returns (lines: seq<Line>, raised: bool)
    ensures lines == CompletenessSection(df)
    ensures raised <==> HasNullCell(df)
  {
    raised := HasMissingValues(df);
    lines := CompletenessSection(df);
    HasMissingValuesIff(df);
  }

  /** Block 2 (lines 34-41). */
  method ValidityBlock(df: Table) returns (lines: seq<Line>, raised: bool)
    ensures lines == ValiditySection(df)
    ensures raised <==> Quantity in df.columns && exists i :: 0 <= i < |df.rows| && NegativeQuantity(df.rows[i])
  {
    raised := HasInvalidQuantities(df);
    lines := ValiditySection(df);
    HasInvalidQuantitiesIff(df);
  }

  /** Block 3 (lines 43-53): prints nothing unless both columns exist. */
  method ConsistencyBlock(df: Table) returns (lines: seq<Line>, raised: bool)
    ensures lines == ConsistencySection(df)
    ensures raised <==> ConsistencyApplies(df) && exists m :: HasTwoUnits(df.rows, m)
  {
    raised := HasInconsistentUnits(df);
    lines := ConsistencySection(df);
    HasInconsistentUnitsIff(df);
  }

  /**
   * run_quality_audit: runs the three blocks in order, raising `has_issues`
   * after each block that found an issue, then prints the verdict.
   * `hasIssues` is returned so that its final value can be stated; on a load
   * failure the routine returns before any check, with `hasIssues` false.
   */
  method RunQualityAudit(source: string, load: LoadResult) returns (report: seq<Line>, hasIssues: bool)
    ensures report == AuditReport(source, load)
    ensures load.NotFound? ==> report == [AuditStarted, SourceNotFound(source)] && !hasIssues
    ensures load.Loaded? ==> (hasIssues <==> DefectFound(load.table))
    ensures load.Loaded? ==> report[|report| - 1] == (if hasIssues then ActionRequired else Passed)
  {
    report := [AuditStarted];
    if load.NotFound? {
      report := report + [SourceNotFound(source)];
      hasIssues := false;
      return;
    }
    var df := load.table;
    report := report + [RowsRead(|df.rows|, source)];

    report := report + [ReportStarted];
    hasIssues := false;
    assert report == Header(source, |df.rows|);

    var lines, raised := CompletenessBlock(df);
    if raised { hasIssues := true; }
    report := report + lines;

    lines, raised := ValidityBlock(df);
    if raised { hasIssues := true; }
    report := report + lines;

    lines, raised := ConsistencyBlock(df);
    if raised { hasIssues := true; }
    report := report + lines;

    ghost var body := report;
    report := report + [AuditComplete];
    if !hasIssues {
      report := report + [Passed];
    } else {
      report := report + [ActionRequired];
    }
    HasIssuesIff(df);
    assert report == body + [AuditComplete, Verdict(df)];
  }

  /** `has_issues` ends up true exactly when some check finds its defect. */
  lemma HasIssuesIff(t: Table)
    ensures HasIssues(t) <==> DefectFound(t)
  {
    HasMissingValuesIff(t);
    HasInvalidQuantitiesIff(t);
    HasInconsistentUnitsIff(t);
  }

  /** The status lines of a report, in order. */
  function Statuses(lines: seq<Line>): seq<Line> {
    if lines == [] then []
    else (if lines[0].IsStatus() then [lines[0]] else []) + Statuses(lines[1..])
  }

  lemma {:induction false} StatusesAppend(a: seq<Line>, b: seq<Line>)
    ensures Statuses(a + b) == Statuses(a) + Statuses(b)
  {
    if a == [] {
      assert a + b == b;
    } else {
      assert (a + b)[0] == a[0];
      assert (a + b)[1..] == a[1..] + b;
      StatusesAppend(a[1..], b);
    }
  }

  lemma StatusesSingle(l: Line)
    ensures Statuses([l]) == if l.IsStatus() then [l] else []
  {
    assert [l][1..] == [];
  }

  lemma StatusesTriple(a: Line, b: Line, c: Line)
    ensures Statuses([a, b, c]) == Statuses([a]) + Statuses([b]) + Statuses([c])
  {
    assert [a, b, c] == [a] + [b] + [c];
    StatusesAppend([a] + [b], [c]);
    StatusesAppend([a], [b]);
  }

  /** The status lines of header, sections and tail, when header and tail hold none. */
  lemma StatusesOfRun(head: seq<Line>, c: seq<Line>, v: seq<Line>, k: seq<Line>, tail: seq<Line>)
    requires Statuses(head) == [] && Statuses(tail) == []
    ensures Statuses(head + c + v + k + tail) == Statuses(c) + Statuses(v) + Statuses(k)
  {
    StatusesAppend(head + c + v + k, tail);
    StatusesAppend(head + c + v, k);
    StatusesAppend(head + c, v);
    StatusesAppend(head, c);
  }

  lemma HeaderAndTailHaveNoStatus(source: string, count: nat, verdict: Line)
    requires verdict == Passed || verdict == ActionRequired
    ensures Statuses(Header(source, count)) == []
    ensures Statuses([AuditComplete, verdict]) == []
  {
    StatusesTriple(AuditStarted, RowsRead(count, source), ReportStarted);
    StatusesSingle(AuditStarted);
    StatusesSingle(RowsRead(count, source));
    StatusesSingle(ReportStarted);
    assert [AuditComplete, verdict] == [AuditComplete] + [verdict];
    StatusesAppend([AuditComplete], [verdict]);
    StatusesSingle(AuditComplete);
    StatusesSingle(verdict);
  }

  /** Splits the status lines of a loaded run into those of the sections. */
  lemma StatusesOfReport(source: string, t: Table)
    ensures Statuses(AuditReport(source, Loaded(t))) ==
      Statuses(CompletenessSection(t)) + Statuses(ValiditySection(t)) + Statuses(ConsistencySection(t))
  {
    HeaderAndTailHaveNoStatus(source, |t.rows|, Verdict(t));
    StatusesOfRun(Header(source, |t.rows|), CompletenessSection(t), ValiditySection(t),
      ConsistencySection(t), [AuditComplete, Verdict(t)]);
  }

  /** An issue section holds one status line, its first. */
  lemma IssueSectionStatuses(issue: Line, detail: Line)
    requires issue.IsStatus() && !detail.IsStatus()
    ensures Statuses([issue, detail, Separator]) == [issue]
  {
    StatusesTriple(issue, detail, Separator);
    StatusesSingle(issue);
    StatusesSingle(detail);
    StatusesSingle(Separator);
  }

  lemma CompletenessStatuses(t: Table)
    ensures Statuses(CompletenessSection(t)) == [if HasMissingValues(t) then CompletenessIssue else CompletenessOk]
  {
    IssueSectionStatuses(CompletenessIssue, MissingPerColumn(MissingCounts(t)));
    StatusesSingle(CompletenessOk);
  }

  lemma ValidityStatuses(t: Table)
    ensures Statuses(ValiditySection(t)) == [if HasInvalidQuantities(t) then ValidityIssue else ValidityOk]
  {
    IssueSectionStatuses(ValidityIssue, OffendingRows(NegativeRows(t.rows, t.columns)));
    StatusesSingle(ValidityOk);
  }

  lemma ConsistencyStatuses(t: Table)
    ensures Statuses(ConsistencySection(t)) ==
      if ConsistencyApplies(t) then [if HasInconsistentUnits(t) then ConsistencyIssue else ConsistencyOk] else []
  {
    IssueSectionStatuses(ConsistencyIssue, InconsistentUnits(InconsistentMaterials(t.rows)));
    StatusesSingle(ConsistencyOk);
  }

  /**
   * Every check runs, whatever the earlier ones found: the report of a loaded
   * table holds one status line for completeness, then one for validity, then
   * one for consistency when both of its columns exist, and each says
   * `[ISSUE FOUND]` exactly when that check's defect is present.
   */
  lemma CheckOrder(source: string, t: Table)
    ensures Statuses(AuditReport(source, Loaded(t))) ==
      [if HasNullCell(t) then CompletenessIssue else CompletenessOk,
       if Quantity in t.columns && exists i :: 0 <= i < |t.rows| && NegativeQuantity(t.rows[i])
       then ValidityIssue else ValidityOk]
      + (if ConsistencyApplies(t)
         then [if exists m :: HasTwoUnits(t.rows, m) then ConsistencyIssue else ConsistencyOk]
         else [])
  {
    StatusesOfReport(source, t);
    CompletenessStatuses(t);
    ValidityStatuses(t);
    ConsistencyStatuses(t);
    HasMissingValuesIff(t);
    HasInvalidQuantitiesIff(t);
    HasInconsistentUnitsIff(t);
  }

  /** Membership in the report of a loaded table, section by section. */
  lemma InReport(source: string, t: Table, l: Line)
    ensures l in AuditReport(source, Loaded(t)) <==>
      l in Header(source, |t.rows|) || l in CompletenessSection(t) || l in ValiditySection(t)
      || l in ConsistencySection(t) || l == AuditComplete || l == Verdict(t)
  {
    assert AuditReport(source, Loaded(t)) == Header(source, |t.rows|) + CompletenessSection(t)
      + ValiditySection(t) + ConsistencySection(t) + [AuditComplete, Verdict(t)];
  }

  /**
   * Without a MaterialID or a UnitOfMeasure column the consistency check prints
   * nothing, and the verdict depends on the other two checks alone.
   */
  lemma ConsistencySkipped(source: string, t: Table)
    requires !ConsistencyApplies(t)
    ensures forall l :: l in AuditReport(source, Loaded(t)) ==> !l.IsConsistencyLine()
    ensures Verdict(t) == Passed <==> !HasMissingValues(t) && !HasInvalidQuantities(t)
  {
    forall l | l in AuditReport(source, Loaded(t)) ensures !l.IsConsistencyLine() {
      InReport(source, t, l);
    }
  }

  /** The verdict line is SUCCESS exactly when no check finds its defect. */
  lemma VerdictIff(source: string, t: Table)
    ensures Verdict(t) == Passed <==> !DefectFound(t)
    ensures Verdict(t) == ActionRequired <==> DefectFound(t)
    ensures AuditReport(source, Loaded(t))[|AuditReport(source, Loaded(t))| - 1] == Verdict(t)
  {
    HasIssuesIff(t);
  }

  /** The summary of line 29 is printed exactly when some cell is null. */
  lemma MissingDetail(source: string, t: Table)
    ensures MissingPerColumn(MissingCounts(t)) in AuditReport(source, Loaded(t)) <==> HasNullCell(t)
  {
    HasMissingValuesIff(t);
    InReport(source, t, MissingPerColumn(MissingCounts(t)));
  }

  /** The offending rows of line 38 are printed exactly when the check flags the table. */
  lemma OffendingDetail(source: string, t: Table)
    ensures OffendingRows(NegativeRows(t.rows, t.columns)) in AuditReport(source, Loaded(t)) <==>
      Quantity in t.columns && exists i :: 0 <= i < |t.rows| && NegativeQuantity(t.rows[i])
  {
    HasInvalidQuantitiesIff(t);
    InReport(source, t, OffendingRows(NegativeRows(t.rows, t.columns)));
  }

  /** The materials of line 50 are printed exactly when the check flags the table. */
  lemma InconsistentDetail(source: string, t: Table)
    ensures InconsistentUnits(InconsistentMaterials(t.rows)) in AuditReport(source, Loaded(t)) <==>
      ConsistencyApplies(t) && exists m :: HasTwoUnits(t.rows, m)
  {
    HasInconsistentUnitsIff(t);
    InReport(source, t, InconsistentUnits(InconsistentMaterials(t.rows)));
  }
}

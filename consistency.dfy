/**
 * Consistency check (quality_audit.py:44-53): group the rows by non-null
 * MaterialID, count the distinct non-null units of each group
 * (groupby('MaterialID')['UnitOfMeasure'].nunique()) and report the materials
 * whose count exceeds one. Skipped when either column is absent.
 */
module Consistency {
  import opened Dataset

  const MaterialID: string := "MaterialID"
  const UnitOfMeasure: string := "UnitOfMeasure"

  /** The guard of line 44: both columns are present. */
  predicate ConsistencyApplies(t: Table) {
    MaterialID in t.columns && UnitOfMeasure in t.columns
  }

  /** Does `row` belong to the group of material `m` and carry unit `u`? */
  predicate HasUnit(row: Row, m: Value, u: Value) {
    Cell(row, MaterialID) == Some(m) && Cell(row, UnitOfMeasure) == Some(u)
  }

  /** The group keys: every non-null MaterialID (rows with a null key are dropped). */
  function Materials(rows: seq<Row>): set<Value> {
    if rows == [] then {}
    else
      var n := |rows| - 1;
      var key := Cell(rows[n], MaterialID);
      Materials(rows[..n]) + (if key.Some? then {key.value} else {})
  }

  /** The distinct non-null units carried by the rows of material `m`. */
  function UnitsOf(rows: seq<Row>, m: Value): set<Value> {
    if rows == [] then {}
    else
      var n := |rows| - 1;
      var unit := Cell(rows[n], UnitOfMeasure);
      UnitsOf(rows[..n], m) + (if Cell(rows[n], MaterialID) == Some(m) && unit.Some? then {unit.value} else {})
  }

  lemma {:induction false} MaterialsIff(rows: seq<Row>)
    ensures forall m :: m in Materials(rows) <==> exists i :: 0 <= i < |rows| && Cell(rows[i], MaterialID) == Some(m)
  {
    if rows != [] {
      MaterialsIff(rows[..|rows| - 1]);
    }
  }

  lemma {:induction false} UnitsOfIff(rows: seq<Row>, m: Value)
    ensures forall u :: u in UnitsOf(rows, m) <==> exists i :: 0 <= i < |rows| && HasUnit(rows[i], m, u)
  {
    if rows != [] {
      UnitsOfIff(rows[..|rows| - 1], m);
    }
  }

  /** material_units (line 45): each material with its number of distinct units. */
  function DistinctUnitCounts(rows: seq<Row>): map<Value, nat> {
    map m | m in Materials(rows) :: |UnitsOf(rows, m)|
  }

  /** inconsistent_materials (line 46): the materials with more than one unit. */
  function InconsistentMaterials(rows: seq<Row>): map<Value, nat> {
    var counts := DistinctUnitCounts(rows);
    map m | m in counts && counts[m] > 1 :: counts[m]
  }

  /** Line 44 and 47: the check runs and finds at least one inconsistent material. */
  function HasInconsistentUnits(t: Table): bool {
    ConsistencyApplies(t) && |InconsistentMaterials(t.rows)| > 0
  }

  /** Reference definition: two rows of material `m` carry two different non-null units. */
  ghost predicate HasTwoUnits(rows: seq<Row>, m: Value) {
    exists i, j, u, v :: 0 <= i < |rows| && 0 <= j < |rows| && u != v && HasUnit(rows[i], m, u) && HasUnit(rows[j], m, v)
  }

  lemma AtLeastTwoIff<T>(s: set<T>)
    ensures |s| >= 2 <==> exists a, b :: a in s && b in s && a != b
  {
    if |s| >= 2 {
      var a :| a in s;
      assert |s - {a}| == |s| - 1;
      var b :| b in s - {a};
    } else if exists a, b :: a in s && b in s && a != b {
      var a, b :| a in s && b in s && a != b;
      assert {a, b} <= s;
      assert |{a, b}| == 2;
      SubsetCard({a, b}, s);
    }
  }

  lemma SubsetCard<T>(a: set<T>, b: set<T>)
    requires a <= b
    ensures |a| <= |b|
  {
    assert b == a + (b - a);
  }

  /**
   * A material is reported exactly when its rows carry two different non-null
   * units, that is when it has at least two distinct units (so a material with
   * a single unit is never reported), and it is reported with that number.
   */
  lemma InconsistentIff(rows: seq<Row>, m: Value)
    ensures m in InconsistentMaterials(rows) <==> HasTwoUnits(rows, m)
    ensures m in InconsistentMaterials(rows) <==> |UnitsOf(rows, m)| >= 2
    ensures m in InconsistentMaterials(rows) ==> InconsistentMaterials(rows)[m] == |UnitsOf(rows, m)|
  {
    TwoUnitsIff(rows, m);
    if |UnitsOf(rows, m)| >= 2 {
      MaterialsIff(rows);
      UnitsOfIff(rows, m);
      var u :| u in UnitsOf(rows, m);
      assert m in Materials(rows);
    }
  }

  /** Two different units among the rows of `m` are two distinct elements of its unit set. */
  lemma TwoUnitsIff(rows: seq<Row>, m: Value)
    ensures HasTwoUnits(rows, m) <==> |UnitsOf(rows, m)| >= 2
  {
    var units := UnitsOf(rows, m);
    AtLeastTwoIff(units);
    UnitsOfIff(rows, m);
    if |units| >= 2 {
      var u, v :| u in units && v in units && u != v;
      var i :| 0 <= i < |rows| && HasUnit(rows[i], m, u);
      var j :| 0 <= j < |rows| && HasUnit(rows[j], m, v);
    }
    if HasTwoUnits(rows, m) {
      var i, j, u, v :| 0 <= i < |rows| && 0 <= j < |rows| && u != v && HasUnit(rows[i], m, u) && HasUnit(rows[j], m, v);
      assert u in units && v in units;
    }
  }

  /** The check flags the table exactly when it runs and some material has two units. */
  lemma HasInconsistentUnitsIff(t: Table)
    ensures HasInconsistentUnits(t) <==> ConsistencyApplies(t) && exists m :: HasTwoUnits(t.rows, m)
  {
    var bad := InconsistentMaterials(t.rows);
    if |bad| > 0 {
      var m :| m in bad;
      InconsistentIff(t.rows, m);
    }
    if exists m :: HasTwoUnits(t.rows, m) {
      var m :| HasTwoUnits(t.rows, m);
      InconsistentIff(t.rows, m);
      assert m in bad;
    }
  }
}

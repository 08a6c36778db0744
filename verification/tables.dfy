/**
 * The tables the dashboard works on.
 *
 * An equipment table is an ordered sequence of rows with the six columns the
 * workbook provides (name, quantity, cost_usd, energy_kw, land_area_m2,
 * lifespan_years).  The name is text; every other column is a raw cell that
 * aggregation coerces on use.
 */
module Tables {
  import opened Cells

  datatype Column = Quantity | CostUsd | EnergyKw | LandAreaM2 | LifespanYears

  datatype Row = Row(
    name: string,
    quantity: Cell,
    costUsd: Cell,
    energyKw: Cell,
    landAreaM2: Cell,
    lifespanYears: Cell)
  {
    function Get(col: Column): Cell {
      match col
      case Quantity => quantity
      case CostUsd => costUsd
      case EnergyKw => energyKw
      case LandAreaM2 => landAreaM2
      case LifespanYears => lifespanYears
    }
  }

  type Table = seq<Row>

  /** One row of the battery/tank lookup (workbook columns J to P). */
  datatype BatteryRow = BatteryRow(
    batteryFraction: Cell,
    tankFraction: Cell,
    batteryKwh: Cell,
    tankGal: Cell,
    batteryCost: Cell,
    tankCost: Cell,
    totalCost: Cell)

  /** One row of a two-column energy lookup (TDS or depth against kW). */
  datatype LookupRow = LookupRow(x: Cell, kw: Cell)

  /** Everything the workbook provides, as `load_data` returns it. */
  datatype Dashboard = Dashboard(
    electrical: Table,
    mechanical: Table,
    miscellaneous: Table,
    batteryLookup: seq<BatteryRow>,
    tdsLookup: seq<LookupRow>,
    depthLookup: seq<LookupRow>)

  /** The row filter `df["name"] == name`. */
  function IsNamed(name: string): string -> bool {
    n => n == name
  }

  /** The row filter `df["name"] != name`. */
  function IsNotNamed(name: string): string -> bool {
    n => n != name
  }

  /**
   * `pd.to_numeric(df[col], errors="coerce").sum()`: NaN entries are skipped,
   * so a column with no numeric cell sums to 0, and non-negative entries give
   * a non-negative sum.
   */
  function ColumnSum(t: Table, col: Column): (r: real)
    ensures (forall i :: 0 <= i < |t| ==> Coerce(t[i].Get(col)).None?) ==> r == 0.0
    ensures (forall i :: 0 <= i < |t| ==> CoerceOrZero(t[i].Get(col)) >= 0.0) ==> r >= 0.0
  {
    if t == [] then 0.0 else ColumnSum(t[..|t| - 1], col) + CoerceOrZero(t[|t| - 1].Get(col))
  }

  /** The same sum restricted to rows whose name satisfies `keep`. */
  function ColumnSumWhere(t: Table, col: Column, keep: string -> bool): real {
    if t == [] then 0.0
    else
      var last := t[|t| - 1];
      ColumnSumWhere(t[..|t| - 1], col, keep) + (if keep(last.name) then CoerceOrZero(last.Get(col)) else 0.0)
  }

  /** Sums split over concatenation, so a column sum does not depend on how a table is cut. */
  lemma {:induction false} ColumnSumAppend(a: Table, b: Table, col: Column)
    ensures ColumnSum(a + b, col) == ColumnSum(a, col) + ColumnSum(b, col)
  {
    if b != [] {
      var b' := b[..|b| - 1];
      assert (a + b)[..|a + b| - 1] == a + b';
      ColumnSumAppend(a, b', col);
    } else {
      assert a + b == a;
    }
  }

  /** Row order does not matter to a column sum: swapping the two halves keeps it. */
  lemma ColumnSumSwap(a: Table, b: Table, col: Column)
    ensures ColumnSum(a + b, col) == ColumnSum(b + a, col)
  {
    ColumnSumAppend(a, b, col);
    ColumnSumAppend(b, a, col);
  }

  /** Every row falls on exactly one side of a name filter. */
  lemma {:induction false} ColumnSumSplit(t: Table, col: Column, keep: string -> bool)
    ensures ColumnSumWhere(t, col, keep) + ColumnSumWhere(t, col, n => !keep(n)) == ColumnSum(t, col)
  {
    if t != [] {
      ColumnSumSplit(t[..|t| - 1], col, keep);
    }
  }

  predicate HasName(t: Table, name: string) {
    exists i :: 0 <= i < |t| && t[i].name == name
  }
}

/** Scorecard aggregation (`compute_scorecard_metrics`). */
module Metrics {
  import opened Cells
  import opened Tables

  /** Cost in USD, land area in square metres, and total power draw in kW (lower is better). */
  datatype SystemMetrics = SystemMetrics(cost: real, landArea: real, efficiency: real)

  /** The three coerced column sums of one equipment table. */
  function Aggregate(t: Table): SystemMetrics {
    SystemMetrics(ColumnSum(t, CostUsd), ColumnSum(t, LandAreaM2), ColumnSum(t, EnergyKw))
  }

  /** Scorecard metrics for exactly the mechanical and electrical systems. */
  function ScorecardMetrics(mechanical: Table, electrical: Table): (r: map<string, SystemMetrics>)
    ensures r.Keys == {"mechanical", "electrical"}
    ensures r["mechanical"].cost == ColumnSum(mechanical, CostUsd)
    ensures r["mechanical"].landArea == ColumnSum(mechanical, LandAreaM2)
    ensures r["mechanical"].efficiency == ColumnSum(mechanical, EnergyKw)
    ensures r["electrical"].cost == ColumnSum(electrical, CostUsd)
    ensures r["electrical"].landArea == ColumnSum(electrical, LandAreaM2)
    ensures r["electrical"].efficiency == ColumnSum(electrical, EnergyKw)
  {
    map["mechanical" := Aggregate(mechanical), "electrical" := Aggregate(electrical)]
  }

  /** An empty table scores zero on every metric. */
  lemma AggregateEmpty()
    ensures Aggregate([]) == SystemMetrics(0.0, 0.0, 0.0)
  {
  }

  /**
   * Appending a row adds exactly its coerced cells: a cell that does not
   * coerce adds zero and does not stop the remaining rows from counting.
   */
  lemma AggregateAppend(t: Table, row: Row)
    ensures Aggregate(t + [row]).cost == Aggregate(t).cost + CoerceOrZero(row.costUsd)
    ensures Aggregate(t + [row]).landArea == Aggregate(t).landArea + CoerceOrZero(row.landAreaM2)
    ensures Aggregate(t + [row]).efficiency == Aggregate(t).efficiency + CoerceOrZero(row.energyKw)
  {
    assert (t + [row])[..|t|] == t;
  }

  /** A row whose cells are all non-numeric changes no metric. */
  lemma AggregateIgnoresNonNumericRow(a: Table, row: Row, b: Table)
    requires Coerce(row.costUsd).None? && Coerce(row.landAreaM2).None? && Coerce(row.energyKw).None?
    ensures Aggregate(a + [row] + b) == Aggregate(a + b)
  {
    forall col: Column | col in {CostUsd, LandAreaM2, EnergyKw}
      ensures ColumnSum(a + [row] + b, col) == ColumnSum(a + b, col)
    {
      ColumnSumAppend(a + [row], b, col);
      ColumnSumAppend(a, [row], col);
      ColumnSumAppend(a, b, col);
      assert [row][..0] == [];
    }
  }

  /** Metrics do not depend on row order. */
  lemma AggregateOrderIndependent(a: Table, b: Table)
    ensures Aggregate(a + b) == Aggregate(b + a)
  {
    ColumnSumSwap(a, b, CostUsd);
    ColumnSumSwap(a, b, LandAreaM2);
    ColumnSumSwap(a, b, EnergyKw);
  }
}

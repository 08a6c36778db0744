/**
 * The battery/tank storage-cost lookup: `np.interp` over the
 * (battery_fraction, total_cost) columns, and the slider's ratio label.
 */
module Interpolation {
  import opened Cells
  import opened Tables

  type Point = (real, real)

  predicate StrictlyIncreasing(pts: seq<Point>) {
    forall i, j :: 0 <= i < j < |pts| ==> pts[i].0 < pts[j].0
  }

  /** The straight line through `p` and `q`, evaluated at `x`. */
  function Lerp(p: Point, q: Point, x: real): real
    requires p.0 < q.0
  {
    p.1 + (x - p.0) * (q.1 - p.1) / (q.0 - p.0)
  }

  lemma LerpEnds(p: Point, q: Point)
    requires p.0 < q.0
    ensures Lerp(p, q, p.0) == p.1 && Lerp(p, q, q.0) == q.1
  {
    assert (q.0 - p.0) * (q.1 - p.1) / (q.0 - p.0) == q.1 - p.1;
  }

  /**
   * `np.interp(x, xp, fp)`: piecewise-linear through the points, constant
   * at the first value below the table and at the last value above it.
   */
  function Interp(x: real, pts: seq<Point>): (r: real)
    requires |pts| >= 1 && StrictlyIncreasing(pts)
    ensures x <= pts[0].0 ==> r == pts[0].1
    ensures x >= pts[|pts| - 1].0 ==> r == pts[|pts| - 1].1
    ensures forall k :: 0 <= k < |pts| - 1 && pts[k].0 <= x <= pts[k + 1].0 ==> r == Lerp(pts[k], pts[k + 1], x)
    decreases |pts|
  {
    if |pts| == 1 then pts[0].1
    else
      LerpEnds(pts[0], pts[1]);
      if x <= pts[0].0 then pts[0].1
      else if x <= pts[1].0 then Lerp(pts[0], pts[1], x)
      else Interp(x, pts[1..])
  }

  /** At a tabulated point the tabulated value is returned exactly. */
  lemma InterpAtSamplePoint(pts: seq<Point>, k: nat)
    requires |pts| >= 1 && StrictlyIncreasing(pts) && k < |pts|
    ensures Interp(pts[k].0, pts) == pts[k].1
  {
    if k + 1 < |pts| {
      LerpEnds(pts[k], pts[k + 1]);
    }
  }

  // ---------------------------------------------------------------------------
  // The battery/tank lookup table
  // ---------------------------------------------------------------------------

  /**
   * What `np.interp` needs of the table: at least one row, numeric
   * fraction and total-cost cells, fractions strictly increasing.
   */
  predicate WellFormedLookup(table: seq<BatteryRow>) {
    && |table| >= 1
    && (forall i :: 0 <= i < |table| ==> Coerce(table[i].batteryFraction).Some? && Coerce(table[i].totalCost).Some?)
    && (forall i, j :: 0 <= i < j < |table| ==>
          Coerce(table[i].batteryFraction).GetOr(0.0) < Coerce(table[j].batteryFraction).GetOr(0.0))
  }

  function Fraction(row: BatteryRow): real {
    Coerce(row.batteryFraction).GetOr(0.0)
  }

  function TotalCost(row: BatteryRow): real {
    Coerce(row.totalCost).GetOr(0.0)
  }

  function Points(table: seq<BatteryRow>): (pts: seq<Point>)
    ensures |pts| == |table|
    ensures forall i :: 0 <= i < |table| ==> pts[i] == (Fraction(table[i]), TotalCost(table[i]))
  {
    seq(|table|, i requires 0 <= i < |table| => (Fraction(table[i]), TotalCost(table[i])))
  }

  /**
   * `interpolate_battery_cost`: the total storage cost at a battery fraction.
   * Exact at a tabulated fraction, linear between neighbours, clamped
   * outside the table.
   */
  function InterpolateBatteryCost(fraction: real, table: seq<BatteryRow>): (r: real)
    requires WellFormedLookup(table)
    ensures forall k :: 0 <= k < |table| && fraction == Fraction(table[k]) ==> r == TotalCost(table[k])
    ensures fraction <= Fraction(table[0]) ==> r == TotalCost(table[0])
    ensures fraction >= Fraction(table[|table| - 1]) ==> r == TotalCost(table[|table| - 1])
    ensures forall k :: 0 <= k < |table| - 1 && Fraction(table[k]) <= fraction <= Fraction(table[k + 1]) ==>
              r == Lerp(Points(table)[k], Points(table)[k + 1], fraction)
  {
    var pts := Points(table);
    assert StrictlyIncreasing(pts);
    AllSamplePoints(pts);
    Interp(fraction, pts)
  }

  lemma AllSamplePoints(pts: seq<Point>)
    requires |pts| >= 1 && StrictlyIncreasing(pts)
    ensures forall k :: 0 <= k < |pts| ==> Interp(pts[k].0, pts) == pts[k].1
  {
    forall k | 0 <= k < |pts| ensures Interp(pts[k].0, pts) == pts[k].1 {
      InterpAtSamplePoint(pts, k);
    }
  }

  /**
   * The two percentages of `battery_ratio_label`: the battery share rounded
   * to a whole percent (ties to even), the tank share its complement.
   */
  function BatteryRatio(fraction: real): (r: (int, int))
    ensures r.0 + r.1 == 100
    ensures -0.5 <= fraction * 100.0 - r.0 as real <= 0.5
    ensures 0.0 <= fraction <= 1.0 ==> 0 <= r.0 <= 100 && 0 <= r.1 <= 100
  {
    var battery := RoundHalfEven(fraction * 100.0);
    (battery, 100 - battery)
  }

  /** "70% Battery / 30% Tank". */
  function BatteryRatioLabel(fraction: real): string {
    var (battery, tank) := BatteryRatio(fraction);
    IntToString(battery) + "% Battery / " + IntToString(tank) + "% Tank"
  }
}

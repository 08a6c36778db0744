/**
 * The comparison-chart aggregation (`compute_chart_data`): cost over time,
 * land area, turbine count and energy by stage for each system, plus the
 * live electrical total at the current battery/tank slider position.
 */
module ChartData {
  import opened Wrappers
  import opened Cells
  import opened Tables
  import opened Config
  import opened StageLookup
  import opened Interpolation
  import opened CostSeries

  /** One value per system; the hybrid system is a placeholder of zeros. */
  datatype PerSystem<T> = PerSystem(mechanical: T, electrical: T, hybrid: T)

  datatype Charts = Charts(
    costOverTime: PerSystem<seq<real>>,
    landArea: PerSystem<real>,
    turbineCount: PerSystem<int>,
    energyBreakdown: PerSystem<map<string, real>>,
    electricalTotalCost: real)

  // ---------------------------------------------------------------------------
  // Turbine count
  // ---------------------------------------------------------------------------

  /** The summed quantity of the rows named exactly `name`, truncated; 0 when there are none. */
  function TurbineCount(t: Table, name: string): (n: int)
    ensures !HasName(t, name) ==> n == 0
  {
    if HasName(t, name) then Trunc(ColumnSumWhere(t, Quantity, IsNamed(name))) else 0
  }

  lemma {:induction false} SumWhereNoMatch(t: Table, col: Column, name: string)
    requires !HasName(t, name)
    ensures ColumnSumWhere(t, col, IsNamed(name)) == 0.0
  {
    if t != [] {
      var init := t[..|t| - 1];
      assert !HasName(init, name) by {
        forall i | 0 <= i < |init| ensures init[i].name != name {
          assert init[i] == t[i];
        }
      }
      SumWhereNoMatch(init, col, name);
    }
  }

  /** The `len(...) > 0` guard changes nothing: an empty selection sums to 0. */
  lemma TurbineGuardIsRedundant(t: Table, name: string)
    ensures TurbineCount(t, name) == Trunc(ColumnSumWhere(t, Quantity, IsNamed(name)))
  {
    if !HasName(t, name) {
      SumWhereNoMatch(t, Quantity, name);
    }
  }

  lemma {:induction false} SumWhereAppendOther(t: Table, col: Column, row: Row, name: string)
    requires row.name != name
    ensures ColumnSumWhere(t + [row], col, IsNamed(name)) == ColumnSumWhere(t, col, IsNamed(name))
  {
    assert (t + [row])[..|t|] == t;
  }

  /** Rows with other names do not add turbines. */
  lemma TurbineCountIgnoresOtherRows(t: Table, row: Row, name: string)
    requires row.name != name
    ensures TurbineCount(t + [row], name) == TurbineCount(t, name)
  {
    TurbineGuardIsRedundant(t, name);
    TurbineGuardIsRedundant(t + [row], name);
    SumWhereAppendOther(t, Quantity, row, name);
  }

  // ---------------------------------------------------------------------------
  // Energy by stage
  // ---------------------------------------------------------------------------

  /** A row that draws power: a numeric, non-zero kW cell. */
  predicate Draws(row: Row) {
    Coerce(row.energyKw).Some? && Coerce(row.energyKw).value != 0.0
  }

  /** `_energy_by_stage`: the kW of drawing rows, accumulated per process stage. */
  function EnergyByStage(t: Table, system: string): (r: map<string, real>)
    ensures forall s :: s in r ==> s == Other || s in StageNames(StagesOf(system))
  {
    if t == [] then map[]
    else
      var r0 := EnergyByStage(t[..|t| - 1], system);
      var row := t[|t| - 1];
      if !Draws(row) then r0
      else
        var s := EquipmentStage(row.name, system);
        r0[s := (if s in r0 then r0[s] else 0.0) + Coerce(row.energyKw).value]
  }

  /** The row filter "belongs to stage `s` of `system`". */
  function InStage(system: string, s: string): string -> bool {
    n => EquipmentStage(n, system) == s
  }

  lemma EnergyByStageSnoc(t: Table, system: string)
    requires t != []
    ensures EnergyByStage(t, system).Keys
            == EnergyByStage(t[..|t| - 1], system).Keys
               + (if Draws(t[|t| - 1]) then {EquipmentStage(t[|t| - 1].name, system)} else {})
  {
  }

  /** A stage appears in the breakdown exactly when one of its rows draws power. */
  lemma {:induction false} EnergyByStageKeys(t: Table, system: string, s: string)
    ensures s in EnergyByStage(t, system)
            <==> exists i :: 0 <= i < |t| && Draws(t[i]) && EquipmentStage(t[i].name, system) == s
  {
    if t != [] {
      var init := t[..|t| - 1];
      EnergyByStageKeys(init, system, s);
      EnergyByStageSnoc(t, system);
      assert forall i :: 0 <= i < |init| ==> init[i] == t[i];
      if s in EnergyByStage(init, system) {
        var i :| 0 <= i < |init| && Draws(init[i]) && EquipmentStage(init[i].name, system) == s;
        assert Draws(t[i]) && EquipmentStage(t[i].name, system) == s;
      }
    }
  }

  /**
   * Each stage's entry is the coerced energy column summed over that
   * stage's rows; a stage without an entry sums to 0.
   */
  lemma {:induction false} EnergyByStageValues(t: Table, system: string, s: string)
    ensures (if s in EnergyByStage(t, system) then EnergyByStage(t, system)[s] else 0.0)
            == ColumnSumWhere(t, EnergyKw, InStage(system, s))
  {
    if t != [] {
      EnergyByStageValues(t[..|t| - 1], system, s);
    }
  }

  // ---------------------------------------------------------------------------
  // Electrical total
  // ---------------------------------------------------------------------------

  /**
   * Every electrical cost except the battery row, plus the interpolated
   * storage cost: the whole cost column with the battery rows' own cost
   * traded for the interpolated one.
   */
  function ElectricalTotalCost(electrical: Table, lookup: seq<BatteryRow>, fraction: real): (r: real)
    requires WellFormedLookup(lookup)
    ensures r + ColumnSumWhere(electrical, CostUsd, IsNamed(ElectricalBattery))
            == ColumnSum(electrical, CostUsd) + InterpolateBatteryCost(fraction, lookup)
  {
    NamedSplit(electrical, CostUsd, ElectricalBattery);
    ColumnSumWhere(electrical, CostUsd, IsNotNamed(ElectricalBattery)) + InterpolateBatteryCost(fraction, lookup)
  }

  lemma {:induction false} NamedSplit(t: Table, col: Column, name: string)
    ensures ColumnSumWhere(t, col, IsNotNamed(name)) + ColumnSumWhere(t, col, IsNamed(name)) == ColumnSum(t, col)
  {
    if t != [] {
      NamedSplit(t[..|t| - 1], col, name);
    }
  }

  /** The override `compute_chart_data` passes for the electrical system. */
  function BatteryOverride(x: real): map<string, real> {
    map[ElectricalBattery := x]
  }

  /** How many rows are named `name` and carry a numeric cost. */
  function PricedCount(t: Table, name: string): nat {
    if t == [] then 0
    else PricedCount(t[..|t| - 1], name) + (if t[|t| - 1].name == name && Coerce(t[|t| - 1].costUsd).Some? then 1 else 0)
  }

  /** No row is bought every zero-or-fewer years. */
  predicate PositiveLifespans(t: Table, overrides: map<string, real>) {
    forall i :: 0 <= i < |t| && RowPlan(t[i], overrides).Every? ==> RowPlan(t[i], overrides).step > 0
  }

  lemma RowYearZeroWithOverride(row: Row, name: string, x: real)
    requires !RowPlan(row, map[name := x]).Every? || RowPlan(row, map[name := x]).step > 0
    ensures PlanYearZero(RowPlan(row, map[name := x]))
            == (if IsNotNamed(name)(row.name) then CoerceOrZero(row.costUsd) else 0.0)
               + (if row.name == name && Coerce(row.costUsd).Some? then x else 0.0)
  {
  }

  /**
   * Year-0 spend with the rows named `name` priced at `x`: the other costs
   * plus `x` per priced row of that name.
   */
  lemma {:induction false} YearZeroWithOverride(t: Table, name: string, x: real)
    requires PositiveLifespans(t, map[name := x])
    ensures YearZeroSpend(t, map[name := x])
            == ColumnSumWhere(t, CostUsd, IsNotNamed(name)) + Times(x, PricedCount(t, name))
  {
    if t != [] {
      PositiveLifespansInit(t, map[name := x]);
      YearZeroWithOverride(t[..|t| - 1], name, x);
      RowYearZeroWithOverride(t[|t| - 1], name, x);
      PricedStep(t, name, x);
    }
  }

  /** The priced rows of `t` are those of its first rows plus possibly its last. */
  lemma PricedStep(t: Table, name: string, x: real)
    requires t != []
    ensures Times(x, PricedCount(t, name))
            == Times(x, PricedCount(t[..|t| - 1], name))
               + (if t[|t| - 1].name == name && Coerce(t[|t| - 1].costUsd).Some? then x else 0.0)
  {
    var k := PricedCount(t[..|t| - 1], name);
    if t[|t| - 1].name == name && Coerce(t[|t| - 1].costUsd).Some? {
      assert Times(x, k + 1) == Times(x, k) + x;
    }
  }

  lemma PositiveLifespansInit(t: Table, overrides: map<string, real>)
    requires t != [] && PositiveLifespans(t, overrides)
    ensures PositiveLifespans(t[..|t| - 1], overrides)
    ensures !RowPlan(t[|t| - 1], overrides).Every? || RowPlan(t[|t| - 1], overrides).step > 0
  {
    assert forall i | 0 <= i < |t| - 1 :: t[..|t| - 1][i] == t[i];
  }

  // ---------------------------------------------------------------------------
  // The chart bundle
  // ---------------------------------------------------------------------------

  /**
   * `compute_chart_data`.  It fails (as the source raises) exactly when one
   * of the two cost projections does.
   */
  function ComputeChartData(data: Dashboard, fraction: real, years: nat): (r: Result<Charts, CostError>)
    requires WellFormedLookup(data.batteryLookup)
    ensures r.Success? <==> CostOverTime(data.mechanical, years, map[]).Success?
                            && CostOverTime(data.electrical, years,
                                            BatteryOverride(InterpolateBatteryCost(fraction, data.batteryLookup))).Success?
    ensures r.Success? ==> |r.value.costOverTime.mechanical| == years + 1
                           && |r.value.costOverTime.electrical| == years + 1
    ensures r.Success? ==> r.value.costOverTime.hybrid == Zeros(years + 1)
                           && r.value.landArea.hybrid == 0.0 && r.value.turbineCount.hybrid == 0
                           && r.value.energyBreakdown.hybrid == map[]
    ensures r.Success? ==> r.value.landArea.mechanical == ColumnSum(data.mechanical, LandAreaM2)
                           && r.value.landArea.electrical == ColumnSum(data.electrical, LandAreaM2)
    ensures r.Success? ==> r.value.costOverTime.mechanical == CostOverTime(data.mechanical, years, map[]).value
    ensures r.Success? ==> r.value.costOverTime.electrical
                           == CostOverTime(data.electrical, years,
                                           BatteryOverride(InterpolateBatteryCost(fraction, data.batteryLookup))).value
    ensures r.Success? ==> r.value.electricalTotalCost == ElectricalTotalCost(data.electrical, data.batteryLookup, fraction)
  {
    var interpolated := InterpolateBatteryCost(fraction, data.batteryLookup);
    var mech :- CostOverTime(data.mechanical, years, map[]);
    var elec :- CostOverTime(data.electrical, years, BatteryOverride(interpolated));
    Success(Charts(
      PerSystem(mech, elec, Zeros(years + 1)),
      PerSystem(ColumnSum(data.mechanical, LandAreaM2), ColumnSum(data.electrical, LandAreaM2), 0.0),
      PerSystem(TurbineCount(data.mechanical, MechanicalTurbine), TurbineCount(data.electrical, ElectricalTurbine), 0),
      PerSystem(EnergyByStage(data.mechanical, "mechanical"), EnergyByStage(data.electrical, "electrical"), map[]),
      ElectricalTotalCost(data.electrical, data.batteryLookup, fraction)))
  }

  /**
   * With one priced battery row and every lifespan positive, the live
   * electrical total equals year 0 of the electrical cost curve.
   */
  lemma LiveTotalIsYearZero(data: Dashboard, fraction: real, years: nat)
    requires WellFormedLookup(data.batteryLookup)
    requires ComputeChartData(data, fraction, years).Success?
    requires PricedCount(data.electrical, ElectricalBattery) == 1
    requires PositiveLifespans(data.electrical, BatteryOverride(InterpolateBatteryCost(fraction, data.batteryLookup)))
    ensures ComputeChartData(data, fraction, years).value.costOverTime.electrical[0]
            == ComputeChartData(data, fraction, years).value.electricalTotalCost
  {
    var x := InterpolateBatteryCost(fraction, data.batteryLookup);
    CostOverTimeYearZero(data.electrical, years, BatteryOverride(x));
    YearZeroWithOverride(data.electrical, ElectricalBattery, x);
  }

  /** The chart's turbine counts and energy breakdowns are the module's definitions. */
  lemma ChartFields(data: Dashboard, fraction: real, years: nat)
    requires WellFormedLookup(data.batteryLookup)
    requires ComputeChartData(data, fraction, years).Success?
    ensures ComputeChartData(data, fraction, years).value.turbineCount.mechanical == TurbineCount(data.mechanical, MechanicalTurbine)
    ensures ComputeChartData(data, fraction, years).value.turbineCount.electrical == TurbineCount(data.electrical, ElectricalTurbine)
    ensures ComputeChartData(data, fraction, years).value.energyBreakdown.mechanical == EnergyByStage(data.mechanical, "mechanical")
    ensures ComputeChartData(data, fraction, years).value.energyBreakdown.electrical == EnergyByStage(data.electrical, "electrical")
  {
  }

  /**
   * The electrical outputs on every input: the series runs from the year-0
   * purchases to the total planned spend with the battery priced at the
   * interpolated cost, and the live total is the cost column with the
   * battery rows' own cost traded for the interpolated one.
   */
  lemma ElectricalOutputs(data: Dashboard, fraction: real, years: nat)
    requires WellFormedLookup(data.batteryLookup)
    requires ComputeChartData(data, fraction, years).Success?
    ensures ComputeChartData(data, fraction, years).value.costOverTime.electrical[0]
            == YearZeroSpend(data.electrical, BatteryOverride(InterpolateBatteryCost(fraction, data.batteryLookup)))
    ensures ComputeChartData(data, fraction, years).value.costOverTime.electrical[years]
            == TotalPlanned(data.electrical, BatteryOverride(InterpolateBatteryCost(fraction, data.batteryLookup)), years)
    ensures ComputeChartData(data, fraction, years).value.electricalTotalCost
            + ColumnSumWhere(data.electrical, CostUsd, IsNamed(ElectricalBattery))
            == ColumnSum(data.electrical, CostUsd) + InterpolateBatteryCost(fraction, data.batteryLookup)
  {
    var x := InterpolateBatteryCost(fraction, data.batteryLookup);
    CostOverTimeYearZero(data.electrical, years, BatteryOverride(x));
    HorizonTotal(data.electrical, years, BatteryOverride(x));
  }
}

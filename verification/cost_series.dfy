/**
 * The replacement-schedule cost projection (`compute_cost_over_time`).
 *
 * Every equipment row with a numeric cost buys its item at year 0; an item
 * with a numeric lifespan L is bought again at years L, 2L, ... up to the
 * horizon.  The per-year spend is summed over rows and returned as a
 * running total, one entry per year 0..years.
 */
module CostSeries {
  import opened Wrappers
  import opened Cells
  import opened Tables

  /** `range(0, years + 1, 0)` raises ValueError: a lifespan that truncates to zero. */
  datatype CostError = ZeroLifespan

  /** What one row contributes to the annual-spend array. */
  datatype Plan = Skip | Once(cost: real) | Every(cost: real, step: int)

  // ---------------------------------------------------------------------------
  // Per-row decision
  // ---------------------------------------------------------------------------

  /**
   * `int(float(lifespan))`, or `None` where that raises TypeError or
   * ValueError (a blank cell, NaN, text that is not a number).
   */
  function LifespanYears(c: Cell): (r: Option<int>)
    ensures c.Blank? || c.NotANumber? ==> r == None
    ensures c.Num? ==> r == Some(Trunc(c.value))
  {
    match c
    case Num(v) => Some(Trunc(v))
    case Text(t) =>
      (match ParseDecimal(Strip(t))
       case None => None
       case Some(v) => Some(Trunc(v)))
    case Blank => None
    case NotANumber => None
  }

  /**
   * The schedule of one row: skipped when its own cost does not coerce
   * (even if an override is given for its name), otherwise priced at the
   * override when there is one, bought once for an "indefinite" or
   * unparseable lifespan, and every `step` years for a numeric one.
   */
  function RowPlan(row: Row, overrides: map<string, real>): (p: Plan)
    ensures p.Skip? <==> Coerce(row.costUsd).None?
    ensures !p.Skip? && row.name in overrides ==> p.cost == overrides[row.name]
    ensures !p.Skip? && row.name !in overrides ==> p.cost == Coerce(row.costUsd).value
    ensures p.Every? <==> !p.Skip? && !(row.lifespanYears.Text? && IsIndefinite(row.lifespanYears.text))
                          && LifespanYears(row.lifespanYears).Some?
    ensures p.Every? ==> p.step == LifespanYears(row.lifespanYears).value
    ensures p.Once? <==> !p.Skip? && !p.Every?
  {
    match Coerce(row.costUsd)
    case None => Skip
    case Some(c) =>
      var cost := if row.name in overrides then overrides[row.name] else c;
      if row.lifespanYears.Text? && IsIndefinite(row.lifespanYears.text) then Once(cost)
      else match LifespanYears(row.lifespanYears)
        case None => Once(cost)
        case Some(l) => Every(cost, l)
  }

  // ---------------------------------------------------------------------------
  // Annual spend
  // ---------------------------------------------------------------------------

  function Zeros(n: nat): (z: seq<real>)
    ensures |z| == n && forall k :: 0 <= k < n ==> z[k] == 0.0
  {
    seq(n, _ => 0.0)
  }

  /** The spend array with `c` added at every multiple of `step` (step > 0). */
  function AddEvery(a: seq<real>, c: real, step: int): (r: seq<real>)
    requires step > 0
    ensures |r| == |a|
    ensures forall k :: 0 <= k < |a| ==> r[k] == a[k] + (if k % step == 0 then c else 0.0)
  {
    seq(|a|, k requires 0 <= k < |a| => a[k] + (if k % step == 0 then c else 0.0))
  }

  /** Adds one row's purchases to the spend array. */
  function AddPlan(a: seq<real>, p: Plan): (r: Result<seq<real>, CostError>)
    requires |a| >= 1
    ensures r.Failure? <==> p.Every? && p.step == 0
    ensures r.Success? ==> |r.value| == |a|
  {
    match p
    case Skip => Success(a)
    case Once(c) => Success(a[0 := a[0] + c])
    case Every(c, step) =>
      if step == 0 then Failure(ZeroLifespan)
      else if step < 0 then Success(a)
      else Success(AddEvery(a, c, step))
  }

  /** The per-year spend after processing the rows in order. */
  function Annual(rows: Table, overrides: map<string, real>, years: nat): (r: Result<seq<real>, CostError>)
    ensures r.Success? ==> |r.value| == years + 1
  {
    if rows == [] then Success(Zeros(years + 1))
    else match Annual(rows[..|rows| - 1], overrides, years)
      case Failure(e) => Failure(e)
      case Success(a) => AddPlan(a, RowPlan(rows[|rows| - 1], overrides))
  }

  // ---------------------------------------------------------------------------
  // Cumulative sum
  // ---------------------------------------------------------------------------

  function Sum(a: seq<real>): real {
    if a == [] then 0.0 else Sum(a[..|a| - 1]) + a[|a| - 1]
  }

  /** `np.cumsum`: entry i is the total of entries 0..i. */
  function CumSum(a: seq<real>): (r: seq<real>)
    ensures |r| == |a|
    ensures forall i :: 0 <= i < |a| ==> r[i] == Sum(a[..i + 1])
  {
    if a == [] then []
    else
      var p := a[..|a| - 1];
      assert a[..|a|] == a;
      assert forall j :: 0 < j <= |p| ==> p[..j] == a[..j];
      CumSum(p) + [Sum(a)]
  }

  /** `compute_cost_over_time`: the cumulative spend for years 0..years. */
  function CostOverTime(rows: Table, years: nat, overrides: map<string, real>): (r: Result<seq<real>, CostError>)
    ensures r.Success? ==> |r.value| == years + 1
    ensures r.Success? <==> Annual(rows, overrides, years).Success?
  {
    match Annual(rows, overrides, years)
    case Failure(e) => Failure(e)
    case Success(a) => Success(CumSum(a))
  }

  // ---------------------------------------------------------------------------
  // Failure
  // ---------------------------------------------------------------------------

  predicate ZeroStep(p: Plan) {
    p.Every? && p.step == 0
  }

  /** The projection fails exactly when some row's lifespan truncates to zero. */
  lemma AnnualFailsIff(rows: Table, overrides: map<string, real>, years: nat)
    ensures Annual(rows, overrides, years).Failure?
            <==> exists i :: 0 <= i < |rows| && ZeroStep(RowPlan(rows[i], overrides))
  {
    if Annual(rows, overrides, years).Failure? {
      var i := FailureHasCause(rows, overrides, years);
    }
    if exists i :: 0 <= i < |rows| && ZeroStep(RowPlan(rows[i], overrides)) {
      var i :| 0 <= i < |rows| && ZeroStep(RowPlan(rows[i], overrides));
      CauseFails(rows, overrides, years, i);
    }
  }

  /** A failed projection points at a row whose lifespan truncates to zero. */
  lemma {:induction false} FailureHasCause(rows: Table, overrides: map<string, real>, years: nat) returns (i: nat)
    requires Annual(rows, overrides, years).Failure?
    ensures i < |rows| && ZeroStep(RowPlan(rows[i], overrides))
  {
    var n := |rows|;
    AnnualFailStep(rows, overrides, years);
    if ZeroStep(RowPlan(rows[n - 1], overrides)) {
      i := n - 1;
    } else {
      i := FailureHasCause(rows[..n - 1], overrides, years);
      InitKeepsRow(rows, i);
    }
  }

  /** One row whose lifespan truncates to zero makes the whole projection fail. */
  lemma {:induction false} CauseFails(rows: Table, overrides: map<string, real>, years: nat, i: nat)
    requires i < |rows| && ZeroStep(RowPlan(rows[i], overrides))
    ensures Annual(rows, overrides, years).Failure?
    decreases |rows|
  {
    AnnualFailStep(rows, overrides, years);
    if i < |rows| - 1 {
      InitKeepsRow(rows, i);
      CauseFails(rows[..|rows| - 1], overrides, years, i);
    }
  }

  lemma InitKeepsRow(rows: Table, i: nat)
    requires i < |rows| - 1
    ensures rows[..|rows| - 1][i] == rows[i]
  {
  }

  /** Processing one more row fails exactly when the rows before it did or its lifespan truncates to zero. */
  lemma AnnualFailStep(rows: Table, overrides: map<string, real>, years: nat)
    requires rows != []
    ensures Annual(rows, overrides, years).Failure?
            <==> Annual(rows[..|rows| - 1], overrides, years).Failure? || ZeroStep(RowPlan(rows[|rows| - 1], overrides))
  {
  }

  // ---------------------------------------------------------------------------
  // Totals
  // ---------------------------------------------------------------------------

  /** How many of the years 0..n-1 are multiples of `step`. */
  function CountMultiples(step: int, n: nat): nat
    requires step > 0
  {
    if n == 0 then 0 else CountMultiples(step, n - 1) + (if (n - 1) % step == 0 then 1 else 0)
  }

  lemma {:induction false} MulBounds(d: int, step: int)
    requires step > 0
    ensures d >= 1 ==> d * step >= step
    ensures d <= -1 ==> d * step <= -step
    decreases if d < 0 then -d else d
  {
    if d > 1 {
      MulBounds(d - 1, step);
      assert d * step == (d - 1) * step + step;
    } else if d < -1 {
      MulBounds(d + 1, step);
      assert d * step == (d + 1) * step - step;
    }
  }

  lemma DivModUnique(n: int, step: int, q: int, r: int)
    requires step > 0 && n == q * step + r && 0 <= r < step
    ensures n / step == q && n % step == r
  {
    var d := q - n / step;
    assert d * step == q * step - (n / step) * step;
    assert d * step == n % step - r;
    MulBounds(d, step);
  }

  /** `range(0, years + 1, step)` has `years // step + 1` elements. */
  lemma {:induction false} CountMultiplesClosed(step: int, years: nat)
    requires step > 0
    ensures CountMultiples(step, years + 1) == years / step + 1
  {
    if years > 0 {
      CountMultiplesClosed(step, years - 1);
      NextYearQuotient(step, years);
    }
  }

  /** From year `years - 1` to `years` the quotient grows by one exactly at a multiple of `step`. */
  lemma NextYearQuotient(step: int, years: int)
    requires step > 0 && years > 0
    ensures years / step == (years - 1) / step + (if years % step == 0 then 1 else 0)
  {
    var q := (years - 1) / step;
    var r := (years - 1) % step;
    if r + 1 < step {
      DivModUnique(years, step, q, r + 1);
    } else {
      assert years == (q + 1) * step;
      DivModUnique(years, step, q + 1, 0);
    }
  }

  lemma {:induction false} SumBumpFirst(a: seq<real>, c: real)
    requires |a| >= 1
    ensures Sum(a[0 := a[0] + c]) == Sum(a) + c
  {
    if |a| > 1 {
      var b := a[0 := a[0] + c];
      var p := a[..|a| - 1];
      assert b[..|b| - 1] == p[0 := p[0] + c];
      SumBumpFirst(p, c);
    }
  }

  lemma AddEveryPrefix(a: seq<real>, c: real, step: int, m: nat)
    requires step > 0 && m <= |a|
    ensures AddEvery(a, c, step)[..m] == AddEvery(a[..m], c, step)
  {
  }

  /** `c` added up `k` times. */
  function Times(c: real, k: nat): real {
    if k == 0 then 0.0 else Times(c, k - 1) + c
  }

  lemma {:induction false} TimesIsProduct(c: real, k: nat)
    ensures Times(c, k) == c * k as real
  {
    if k > 0 {
      TimesIsProduct(c, k - 1);
      assert c * k as real == c * (k - 1) as real + c;
    }
  }

  lemma {:induction false} SumAddEvery(a: seq<real>, c: real, step: int)
    requires step > 0
    ensures Sum(AddEvery(a, c, step)) == Sum(a) + Times(c, CountMultiples(step, |a|))
  {
    if a != [] {
      var n := |a|;
      AddEveryPrefix(a, c, step, n - 1);
      SumAddEvery(a[..n - 1], c, step);
    }
  }

  /** The money one plan spends over years 0..years: its cost times its purchases. */
  function PlanTotal(p: Plan, years: nat): real {
    match p
    case Skip => 0.0
    case Once(c) => c
    case Every(c, step) => if step > 0 then Times(c, years / step + 1) else 0.0
  }

  /** The money all rows' plans spend over years 0..years. */
  function TotalPlanned(rows: Table, overrides: map<string, real>, years: nat): real {
    if rows == [] then 0.0
    else TotalPlanned(rows[..|rows| - 1], overrides, years) + PlanTotal(RowPlan(rows[|rows| - 1], overrides), years)
  }

  lemma SumZeros(n: nat)
    ensures Sum(Zeros(n)) == 0.0
  {
    if n > 0 {
      assert Zeros(n)[..n - 1] == Zeros(n - 1);
      SumZeros(n - 1);
    }
  }

  lemma AddEveryTotal(a: seq<real>, c: real, step: int)
    requires |a| >= 1 && step > 0
    ensures Sum(AddEvery(a, c, step)) == Sum(a) + PlanTotal(Every(c, step), |a| - 1)
  {
    SumAddEvery(a, c, step);
    CountMultiplesClosed(step, |a| - 1);
  }

  lemma AddPlanTotal(a: seq<real>, p: Plan)
    requires |a| >= 1 && AddPlan(a, p).Success?
    ensures Sum(AddPlan(a, p).value) == Sum(a) + PlanTotal(p, |a| - 1)
  {
    match p
    case Skip =>
    case Once(c) => OnceTotal(a, c);
    case Every(c, step) =>
      if step > 0 {
        assert AddPlan(a, p).value == AddEvery(a, c, step);
        AddEveryTotal(a, c, step);
      }
  }

  lemma OnceTotal(a: seq<real>, c: real)
    requires |a| >= 1
    ensures Sum(AddPlan(a, Once(c)).value) == Sum(a) + c
  {
    var b := AddPlan(a, Once(c)).value;
    assert b == a[0 := a[0] + c];
    SumBumpFirst(a, c);
  }

  lemma {:induction false} AnnualTotal(rows: Table, overrides: map<string, real>, years: nat)
    requires Annual(rows, overrides, years).Success?
    ensures Sum(Annual(rows, overrides, years).value) == TotalPlanned(rows, overrides, years)
  {
    if rows == [] {
      SumZeros(years + 1);
    } else {
      var init := rows[..|rows| - 1];
      AnnualTotal(init, overrides, years);
      AddPlanTotal(Annual(init, overrides, years).value, RowPlan(rows[|rows| - 1], overrides));
    }
  }

  /**
   * The last entry of the projection is every row's cost times the number
   * of purchases it makes within the horizon.
   */
  lemma HorizonTotal(rows: Table, years: nat, overrides: map<string, real>)
    requires CostOverTime(rows, years, overrides).Success?
    ensures CostOverTime(rows, years, overrides).value[years] == TotalPlanned(rows, overrides, years)
  {
    var a := Annual(rows, overrides, years).value;
    assert a[..years + 1] == a;
    AnnualTotal(rows, overrides, years);
  }

  /** What a plan spends in year 0. */
  function PlanYearZero(p: Plan): real {
    match p
    case Skip => 0.0
    case Once(c) => c
    case Every(c, step) => if step > 0 then c else 0.0
  }

  function YearZeroSpend(rows: Table, overrides: map<string, real>): real {
    if rows == [] then 0.0
    else YearZeroSpend(rows[..|rows| - 1], overrides) + PlanYearZero(RowPlan(rows[|rows| - 1], overrides))
  }

  /** Year 0 of the projection is every row's first purchase. */
  lemma {:induction false} AnnualYearZero(rows: Table, overrides: map<string, real>, years: nat)
    requires Annual(rows, overrides, years).Success?
    ensures Annual(rows, overrides, years).value[0] == YearZeroSpend(rows, overrides)
  {
    if rows != [] {
      var init := rows[..|rows| - 1];
      AnnualYearZero(init, overrides, years);
      var p := RowPlan(rows[|rows| - 1], overrides);
      if p.Every? && p.step > 0 {
        assert 0 % p.step == 0;
      }
    }
  }

  lemma CostOverTimeYearZero(rows: Table, years: nat, overrides: map<string, real>)
    requires CostOverTime(rows, years, overrides).Success?
    ensures CostOverTime(rows, years, overrides).value[0] == YearZeroSpend(rows, overrides)
  {
    AnnualYearZero(rows, overrides, years);
    var a := Annual(rows, overrides, years).value;
    assert a[..1] == [a[0]];
    assert Sum(a[..1]) == Sum([]) + a[0];
  }

  // ---------------------------------------------------------------------------
  // Monotonicity
  // ---------------------------------------------------------------------------

  predicate NonNegativeCosts(rows: Table, overrides: map<string, real>) {
    forall i :: 0 <= i < |rows| && !RowPlan(rows[i], overrides).Skip? ==> RowPlan(rows[i], overrides).cost >= 0.0
  }

  lemma {:induction false} AnnualNonNegative(rows: Table, overrides: map<string, real>, years: nat)
    requires NonNegativeCosts(rows, overrides)
    requires Annual(rows, overrides, years).Success?
    ensures forall k :: 0 <= k <= years ==> Annual(rows, overrides, years).value[k] >= 0.0
  {
    if rows != [] {
      var init := rows[..|rows| - 1];
      assert forall i :: 0 <= i < |init| ==> init[i] == rows[i];
      AnnualNonNegative(init, overrides, years);
    }
  }

  lemma CumSumNonDecreasing(a: seq<real>)
    requires forall k :: 0 <= k < |a| ==> a[k] >= 0.0
    ensures forall i, j :: 0 <= i <= j < |a| ==> CumSum(a)[i] <= CumSum(a)[j]
  {
    var r := CumSum(a);
    forall i | 0 <= i < |a| - 1
      ensures r[i] <= r[i + 1]
    {
      assert a[..i + 2][..i + 1] == a[..i + 1];
    }
    forall i, j | 0 <= i <= j < |a|
      ensures r[i] <= r[j]
    {
      var k := i;
      while k < j
        invariant i <= k <= j
        invariant r[i] <= r[k]
      {
        k := k + 1;
      }
    }
  }

  /** With no negative costs or overrides the cumulative spend never falls. */
  lemma CostOverTimeNonDecreasing(rows: Table, years: nat, overrides: map<string, real>)
    requires NonNegativeCosts(rows, overrides)
    requires CostOverTime(rows, years, overrides).Success?
    ensures forall i, j :: 0 <= i <= j <= years
              ==> CostOverTime(rows, years, overrides).value[i] <= CostOverTime(rows, years, overrides).value[j]
  {
    AnnualNonNegative(rows, overrides, years);
    CumSumNonDecreasing(Annual(rows, overrides, years).value);
  }

  // ---------------------------------------------------------------------------
  // Single rows
  // ---------------------------------------------------------------------------

  lemma SingleRowAnnual(row: Row, years: nat, overrides: map<string, real>)
    ensures Annual([row], overrides, years) == AddPlan(Zeros(years + 1), RowPlan(row, overrides))
  {
    assert [row][..0] == [];
  }

  lemma CumSumOfOnce(n: nat, c: real)
    requires n >= 1
    ensures CumSum(Zeros(n)[0 := c]) == seq(n, _ => c)
  {
    var a := Zeros(n)[0 := c];
    forall i | 0 <= i < n
      ensures CumSum(a)[i] == c
    {
      assert a[..i + 1] == Zeros(i + 1)[0 := c];
      SumBumpFirst(Zeros(i + 1), c);
      SumZeros(i + 1);
    }
  }

  lemma CumSumOfEvery(n: nat, c: real, step: int)
    requires step > 0
    ensures forall i :: 0 <= i < n ==> CumSum(AddEvery(Zeros(n), c, step))[i] == Times(c, i / step + 1)
  {
    forall i | 0 <= i < n
      ensures CumSum(AddEvery(Zeros(n), c, step))[i] == Times(c, i / step + 1)
    {
      CumSumOfEveryAt(n, c, step, i);
    }
  }

  lemma CumSumOfEveryAt(n: nat, c: real, step: int, i: nat)
    requires step > 0 && i < n
    ensures CumSum(AddEvery(Zeros(n), c, step))[i] == Times(c, i / step + 1)
  {
    AddEveryPrefix(Zeros(n), c, step, i + 1);
    assert Zeros(n)[..i + 1] == Zeros(i + 1);
    SumAddEvery(Zeros(i + 1), c, step);
    SumZeros(i + 1);
    CountMultiplesClosed(step, i);
  }

  /** An item bought once (indefinite or unparseable lifespan) is a flat line at its cost. */
  lemma OnceRowIsFlat(row: Row, years: nat, overrides: map<string, real>)
    requires RowPlan(row, overrides).Once?
    ensures CostOverTime([row], years, overrides)
            == Success(seq(years + 1, _ => RowPlan(row, overrides).cost))
  {
    SingleRowAnnual(row, years, overrides);
    CumSumOfOnce(years + 1, RowPlan(row, overrides).cost);
  }

  /** An item replaced every `step` years has been bought `i / step + 1` times by year i. */
  lemma PeriodicRowSteps(row: Row, years: nat, overrides: map<string, real>)
    requires RowPlan(row, overrides).Every? && RowPlan(row, overrides).step > 0
    ensures CostOverTime([row], years, overrides).Success?
    ensures forall i :: 0 <= i <= years ==>
              CostOverTime([row], years, overrides).value[i]
              == Times(RowPlan(row, overrides).cost, i / RowPlan(row, overrides).step + 1)
  {
    var p := RowPlan(row, overrides);
    SingleRowAnnual(row, years, overrides);
    CumSumOfEvery(years + 1, p.cost, p.step);
  }

  /** A 1000-dollar item lasting two years, over a five-year horizon. */
  lemma TwoYearItemExample(name: string)
    ensures CostOverTime([Row(name, Blank, Num(1000.0), Blank, Blank, Num(2.0))], 5, map[])
            == Success([1000.0, 1000.0, 2000.0, 2000.0, 3000.0, 3000.0])
  {
    var row := Row(name, Blank, Num(1000.0), Blank, Blank, Num(2.0));
    assert Trunc(2.0) == 2;
    assert RowPlan(row, map[]) == Every(1000.0, 2);
    PeriodicRowSteps(row, 5, map[]);
    assert Times(1000.0, 1) == 1000.0 && Times(1000.0, 2) == 2000.0 && Times(1000.0, 3) == 3000.0;
    var r := CostOverTime([row], 5, map[]).value;
    assert r[0] == 1000.0 && r[1] == 1000.0 && r[2] == 2000.0;
    assert r[3] == 2000.0 && r[4] == 3000.0 && r[5] == 3000.0;
    assert |r| == 6;
    assert r == [1000.0, 1000.0, 2000.0, 2000.0, 3000.0, 3000.0];
  }

  /** A row that is skipped, or whose lifespan is negative, changes nothing. */
  lemma InertRowChangesNothing(rows: Table, row: Row, years: nat, overrides: map<string, real>)
    requires RowPlan(row, overrides).Skip? || (RowPlan(row, overrides).Every? && RowPlan(row, overrides).step < 0)
    ensures CostOverTime(rows + [row], years, overrides) == CostOverTime(rows, years, overrides)
  {
    assert (rows + [row])[..|rows|] == rows;
  }

  /** An override prices a row exactly as if the override were its cost cell. */
  lemma OverrideReplacesCost(row: Row, overrides: map<string, real>)
    requires row.name in overrides && Coerce(row.costUsd).Some?
    ensures RowPlan(row, overrides) == RowPlan(row.(costUsd := Num(overrides[row.name])), map[])
  {
  }

  /** An override does not revive a row whose own cost is missing. */
  lemma OverrideNeedsOwnCost(row: Row, years: nat, overrides: map<string, real>)
    requires Coerce(row.costUsd).None?
    ensures RowPlan(row, overrides) == Skip
    ensures CostOverTime([row], years, overrides) == Success(Zeros(years + 1))
  {
    SingleRowAnnual(row, years, overrides);
    var z := Zeros(years + 1);
    forall i | 0 <= i < |z|
      ensures CumSum(z)[i] == z[i]
    {
      assert Zeros(years + 1)[..i + 1] == Zeros(i + 1);
      SumZeros(i + 1);
    }
    assert CumSum(z) == z;
  }

  /** "indefinite" in any case and padding (such as " Indefinite\n") means a single purchase. */
  lemma IndefiniteLifespanBuysOnce(name: string, cost: real, lifespan: string)
    requires IsIndefinite(lifespan)
    ensures RowPlan(Row(name, Blank, Num(cost), Blank, Blank, Text(lifespan)), map[]) == Once(cost)
  {
  }

  /** A lifespan that `float()` rejects also means a single purchase. */
  lemma MissingLifespanBuysOnce(name: string, cost: real)
    ensures RowPlan(Row(name, Blank, Num(cost), Blank, Blank, Blank), map[]) == Once(cost)
    ensures RowPlan(Row(name, Blank, Num(cost), Blank, Blank, NotANumber), map[]) == Once(cost)
  {
  }

  /** A fractional lifespan is truncated; one under a year stops the projection. */
  lemma FractionalLifespan(name: string, cost: real)
    ensures RowPlan(Row(name, Blank, Num(cost), Blank, Blank, Num(20.9)), map[]) == Every(cost, 20)
    ensures CostOverTime([Row(name, Blank, Num(cost), Blank, Blank, Num(0.5))], 10, map[]).Failure?
  {
    assert Trunc(20.9) == 20;
    assert Trunc(0.5) == 0;
    SingleRowAnnual(Row(name, Blank, Num(cost), Blank, Blank, Num(0.5)), 10, map[]);
  }

  /**
   * A whole-number lifespan padded with white space, such as "12" between two
   * no-break spaces, is read as the number, because `float()` ignores the
   * padding; the row is then bought every `n` years.
   */
  lemma PaddedLifespanIsRead(n: nat, c: char)
    requires IsSpace(c)
    ensures Strip([c] + NatToString(n) + [c]) == NatToString(n)
    ensures LifespanYears(Text([c] + NatToString(n) + [c])) == Some(n)
  {
    var d := NatToString(n);
    assert !IsSpace(d[0]) && !IsSpace(d[|d| - 1]);
    StripOnePadding(c, d, c);
    NatToStringParses(n);
  }

  /** Such a row is bought again every `n` years. */
  lemma PaddedLifespanRepeats(n: nat, c: char, name: string, cost: real)
    requires IsSpace(c)
    ensures RowPlan(Row(name, Blank, Num(cost), Blank, Blank, Text([c] + NatToString(n) + [c])), map[])
            == Every(cost, n)
  {
    var d := NatToString(n);
    var row := Row(name, Blank, Num(cost), Blank, Blank, Text([c] + d + [c]));
    PaddedLifespanIsRead(n, c);
    assert Lower(d)[0] == LowerChar(d[0]) != 'i';
    assert !IsIndefinite([c] + d + [c]);
    assert Coerce(row.costUsd) == Some(cost);
    var p := RowPlan(row, map[]);
    assert p.Every? && p.step == n && p.cost == cost;
  }

  /** Text such as "indefinite" in the cost column drops the row. */
  lemma TextCostIsSkipped(name: string, lifespan: Cell)
    ensures RowPlan(Row(name, Blank, Text("indefinite"), Blank, Blank, lifespan), map[]) == Skip
  {
    IndefiniteIsMissing();
  }

  // ---------------------------------------------------------------------------
  // The loops as the source writes them
  // ---------------------------------------------------------------------------

  lemma NextMultiple(k: int, y: int, step: int)
    requires step > 0 && y >= 0 && y % step == 0 && y < k < y + step
    ensures k % step != 0
  {
    DivModUnique(k, step, y / step, k - y);
  }

  /** The spend array with `c` added at the multiples of `step` below `y`. */
  function AddEveryBelow(a: seq<real>, c: real, step: int, y: int): (r: seq<real>)
    requires step > 0
    ensures |r| == |a|
  {
    seq(|a|, k requires 0 <= k < |a| => a[k] + (if k < y && k % step == 0 then c else 0.0))
  }

  lemma AddEveryBelowStep(a: seq<real>, c: real, step: int, y: int)
    requires step > 0 && 0 <= y < |a| && y % step == 0
    ensures (y + step) % step == 0
    ensures AddEveryBelow(a, c, step, y)[y := AddEveryBelow(a, c, step, y)[y] + c]
            == AddEveryBelow(a, c, step, y + step)
  {
    forall k | y < k < y + step
      ensures k % step != 0
    {
      NextMultiple(k, y, step);
    }
    assert y + step == (y / step + 1) * step;
    DivModUnique(y + step, step, y / step + 1, 0);
  }

  lemma AddEveryBelowDone(a: seq<real>, c: real, step: int, y: int)
    requires step > 0 && y >= |a|
    ensures AddEveryBelow(a, c, step, y) == AddEvery(a, c, step)
  {
  }

  /** Once a row has failed the projection, later rows cannot rescue it. */
  lemma {:induction false} FailureSticks(rows: Table, n: nat, overrides: map<string, real>, years: nat)
    requires n <= |rows| && Annual(rows[..n], overrides, years).Failure?
    ensures Annual(rows, overrides, years).Failure?
    decreases |rows| - n
  {
    if n < |rows| {
      assert rows[..n + 1][..n] == rows[..n];
      FailureSticks(rows, n + 1, overrides, years);
    } else {
      assert rows[..n] == rows;
    }
  }

  lemma AnnualSnoc(rows: Table, i: nat, overrides: map<string, real>, years: nat)
    requires i < |rows| && Annual(rows[..i], overrides, years).Success?
    ensures Annual(rows[..i + 1], overrides, years)
            == AddPlan(Annual(rows[..i], overrides, years).value, RowPlan(rows[i], overrides))
  {
    assert rows[..i + 1][..i] == rows[..i];
  }

  /** `for yr in range(0, years + 1, step): annual[yr] += cost`. */
  method AddEveryYear(annual: seq<real>, cost: real, step: int) returns (r: seq<real>)
    requires step > 0
    ensures r == AddEvery(annual, cost, step)
  {
    r := annual;
    var y := 0;
    assert r == AddEveryBelow(annual, cost, step, 0);
    while y < |annual|
      invariant y >= 0 && y % step == 0
      invariant r == AddEveryBelow(annual, cost, step, y)
      decreases |annual| - y
    {
      AddEveryBelowStep(annual, cost, step, y);
      r := r[y := r[y] + cost];
      y := y + step;
    }
    AddEveryBelowDone(annual, cost, step, y);
  }

  /** `np.cumsum(annual)`. */
  method RunningTotal(annual: seq<real>) returns (total: seq<real>)
    ensures total == CumSum(annual)
  {
    total := [];
    var running := 0.0;
    var j := 0;
    while j < |annual|
      invariant 0 <= j <= |annual|
      invariant |total| == j && running == Sum(annual[..j])
      invariant forall m :: 0 <= m < j ==> total[m] == Sum(annual[..m + 1])
    {
      assert annual[..j + 1][..j] == annual[..j];
      running := running + annual[j];
      total := total + [running];
      j := j + 1;
    }
  }

  /** One row's purchases: once at year 0, or every `step` years. */
  method ApplyPlan(annual: seq<real>, plan: Plan) returns (r: Result<seq<real>, CostError>)
    requires |annual| >= 1
    ensures r == AddPlan(annual, plan)
  {
    match plan {
      case Skip =>
        r := Success(annual);
      case Once(cost) =>
        r := Success(annual[0 := annual[0] + cost]);
      case Every(cost, step) =>
        if step == 0 {
          r := Failure(ZeroLifespan);
        } else if step > 0 {
          var added := AddEveryYear(annual, cost, step);
          r := Success(added);
        } else {
          r := Success(annual);
        }
    }
  }

  /**
   * `compute_cost_over_time` written with the source's loops: a zero array,
   * one pass over the rows adding each purchase, and a running total.
   */
  method ComputeCostOverTime(rows: Table, years: nat, overrides: map<string, real>)
    returns (r: Result<seq<real>, CostError>)
    ensures r == CostOverTime(rows, years, overrides)
  {
    var annual := Zeros(years + 1);
    var i := 0;
    while i < |rows|
      invariant 0 <= i <= |rows|
      invariant Annual(rows[..i], overrides, years) == Success(annual)
    {
      AnnualSnoc(rows, i, overrides, years);
      var next := ApplyPlan(annual, RowPlan(rows[i], overrides));
      if next.Failure? {
        FailureSticks(rows, i + 1, overrides, years);
        assert Annual(rows, overrides, years).error.ZeroLifespan?;
        return Failure(ZeroLifespan);
      }
      annual := next.value;
      i := i + 1;
    }
    assert rows[..|rows|] == rows;
    var total := RunningTotal(annual);
    return Success(total);
  }
}

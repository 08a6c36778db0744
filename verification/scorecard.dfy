/**
 * The RAG scorecard: three metrics compared head to head between the
 * mechanical and the electrical system, the green dots each system
 * collects, and the "best overall" verdict drawn from them.
 */
module Scorecard {
  import opened Wrappers
  import opened Config
  import opened Tables
  import opened Rag
  import opened Metrics

  datatype Verdict = MechanicalBest | ElectricalBest | Tied

  datatype ScorecardView = ScorecardView(
    metrics: map<string, SystemMetrics>,
    costColors: map<string, string>,
    landColors: map<string, string>,
    energyColors: map<string, string>,
    mechanicalGreens: nat,
    electricalGreens: nat,
    best: Verdict)

  /** `rag_color({"mechanical": m, "electrical": e}, metric)`. */
  function Colors(m: real, e: real, metric: string): map<string, string> {
    RagColor([("mechanical", Some(m)), ("electrical", Some(e))], metric)
  }

  /** `colors.get(system) == green_hex` as 0 or 1. */
  function GreenDot(colors: map<string, string>, system: string): (r: nat)
    ensures r <= 1
    ensures r == 1 <==> system in colors && colors[system] == GreenHex
  {
    if system in colors && colors[system] == GreenHex then 1 else 0
  }

  /** Number of the colour maps that give `system` a green dot. */
  function Greens(colorMaps: seq<map<string, string>>, system: string): (r: nat)
    ensures r <= |colorMaps|
  {
    if colorMaps == [] then 0 else GreenDot(colorMaps[0], system) + Greens(colorMaps[1..], system)
  }

  /** The system with more green dots; equal counts tie. */
  function BestOverall(mechanicalGreens: nat, electricalGreens: nat): (v: Verdict)
    ensures v == MechanicalBest <==> mechanicalGreens > electricalGreens
    ensures v == ElectricalBest <==> electricalGreens > mechanicalGreens
    ensures v == Tied <==> mechanicalGreens == electricalGreens
  {
    if mechanicalGreens > electricalGreens then MechanicalBest
    else if electricalGreens > mechanicalGreens then ElectricalBest
    else Tied
  }

  /** `make_scorecard_table`, less its rendering. */
  function BuildScorecard(mechanical: Table, electrical: Table): (r: ScorecardView)
    ensures r.metrics.Keys == {"mechanical", "electrical"}
    ensures r.mechanicalGreens == GreenDot(r.costColors, "mechanical") + GreenDot(r.landColors, "mechanical")
                                 + GreenDot(r.energyColors, "mechanical")
    ensures r.electricalGreens == GreenDot(r.costColors, "electrical") + GreenDot(r.landColors, "electrical")
                                  + GreenDot(r.energyColors, "electrical")
    ensures r.best == BestOverall(r.mechanicalGreens, r.electricalGreens)
    ensures r.mechanicalGreens + r.electricalGreens == 3
    ensures r.best != Tied
    ensures r.best == MechanicalBest <==> r.mechanicalGreens >= 2
    ensures GreenDot(r.costColors, "mechanical") == 1 <==> ColumnSum(mechanical, CostUsd) <= ColumnSum(electrical, CostUsd)
    ensures GreenDot(r.landColors, "mechanical") == 1 <==> ColumnSum(mechanical, LandAreaM2) <= ColumnSum(electrical, LandAreaM2)
    ensures GreenDot(r.energyColors, "mechanical") == 1 <==> ColumnSum(mechanical, EnergyKw) <= ColumnSum(electrical, EnergyKw)
  {
    var metrics := ScorecardMetrics(mechanical, electrical);
    var mech := metrics["mechanical"];
    var elec := metrics["electrical"];
    var cost := Colors(mech.cost, elec.cost, "cost");
    var land := Colors(mech.landArea, elec.landArea, "land_area");
    var energy := Colors(mech.efficiency, elec.efficiency, "efficiency");
    var maps := [cost, land, energy];
    var mg := Greens(maps, "mechanical");
    var eg := Greens(maps, "electrical");
    OneGreenPerMetric(mech.cost, elec.cost, "cost");
    OneGreenPerMetric(mech.landArea, elec.landArea, "land_area");
    OneGreenPerMetric(mech.efficiency, elec.efficiency, "efficiency");
    GreensOfThree(cost, land, energy, "mechanical");
    GreensOfThree(cost, land, energy, "electrical");
    ScorecardView(metrics, cost, land, energy, mg, eg, BestOverall(mg, eg))
  }

  /**
   * On every metric exactly one of the two systems is green, and mechanical
   * is the one exactly when its value is no larger (all three metrics are
   * lower-is-better, and a tie keeps mechanical, the first listed, ahead).
   */
  lemma OneGreenPerMetric(m: real, e: real, metric: string)
    requires metric in BetterIsLower
    ensures GreenDot(Colors(m, e, metric), "mechanical") + GreenDot(Colors(m, e, metric), "electrical") == 1
    ensures GreenDot(Colors(m, e, metric), "mechanical") == 1 <==> m <= e
    ensures Colors(m, e, metric).Keys == {"mechanical", "electrical"}
  {
    HeadToHead("mechanical", "electrical", m, e, metric);
    RagColorsDistinct();
  }

  lemma GreensOfThree(a: map<string, string>, b: map<string, string>, c: map<string, string>, system: string)
    ensures Greens([a, b, c], system) == GreenDot(a, system) + GreenDot(b, system) + GreenDot(c, system)
  {
    assert [a, b, c][1..] == [b, c];
    assert [b, c][1..] == [c];
    assert [c][1..] == [];
    assert Greens([c], system) == GreenDot(c, system);
    assert Greens([b, c], system) == GreenDot(b, system) + GreenDot(c, system);
  }

  /** Two identical tables tie on every metric, and the tie goes to mechanical on all three. */
  lemma IdenticalSystemsFavourMechanical(t: Table)
    ensures BuildScorecard(t, t).mechanicalGreens == 3
    ensures BuildScorecard(t, t).best == MechanicalBest
  {
    var r := BuildScorecard(t, t);
    GreensOfThree(r.costColors, r.landColors, r.energyColors, "mechanical");
  }
}

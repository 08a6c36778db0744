/**
 * Static reference data: the process-stage membership table and the
 * traffic-light colours.  Equipment names are kept byte for byte, trailing
 * spaces included, because stage membership is decided by exact match.
 */
module Config {

  /** Ordered stage name -> equipment names, in declaration order. */
  type StageMap = seq<(string, seq<string>)>

  const WaterExtraction := "Water Extraction"
  const PreTreatment := "Pre-Treatment"
  const Desalination := "Desalination"
  const PostTreatment := "Post-Treatment"
  const BrineDisposal := "Brine Disposal"
  const Control := "Control"
  /** The fallback stage of an unclassified item; never a key of the table. */
  const Other := "Other"

  /** The five stages every system declares, in pipeline order. */
  const PipelineStages: seq<string> :=
    [WaterExtraction, PreTreatment, Desalination, PostTreatment, BrineDisposal]

  const MechanicalTurbine := "250kW aeromotor turbine "
  const ElectricalTurbine := "Turbine"
  const ElectricalBattery := "Battery (1 day of power)"

  const MechanicalStages: StageMap := [
    (WaterExtraction, [MechanicalTurbine, "Submersible pump ", "Wind turbine rotor lock"]),
    (PreTreatment, ["Pipes", "Gate valve"]),
    (Desalination, ["2 RO membranes in parallel", "Gear and Booster Pump"]),
    (PostTreatment, ["Calcite bed contactors"]),
    (BrineDisposal, ["Extra storage tank"])
  ]

  const ElectricalStages: StageMap := [
    (WaterExtraction, [ElectricalTurbine, "Submersible pump", ElectricalBattery]),
    (PreTreatment, ["Multi-Media Filtration", "Pipes (total)"]),
    (Desalination, ["RO membranes in parallel", "Booster Pump"]),
    (PostTreatment, ["Calcite bed contactors"]),
    (BrineDisposal, ["Brine Well"]),
    (Control, ["PLC"])
  ]

  const MiscellaneousStages: StageMap := [
    (WaterExtraction, ["Piston pump"]),
    (PreTreatment, ["Antiscalant (assuming 3g/L of antiscalant)"]),
    (Desalination, ["2 RO membranes in parallel", "RO membranes in parallel", "Gear and Booster Pump", "Booster Pump"]),
    (PostTreatment, [
      "Green blend addition",
      "Activated carbon (annual)",
      "55 gallon container is 2500 USD, for 1 million gal/day lasts about 20 days"]),
    (BrineDisposal, ["Evaporation Pond"])
  ]

  const ProcessStages: seq<(string, StageMap)> := [
    ("mechanical", MechanicalStages),
    ("electrical", ElectricalStages),
    ("miscellaneous", MiscellaneousStages)
  ]

  const RedHex := "#DC3545"
  const YellowHex := "#FFC107"
  const GreenHex := "#28A745"

  const RagColors: map<string, string> := map["red" := RedHex, "yellow" := YellowHex, "green" := GreenHex]

  function StageNames(m: StageMap): (names: seq<string>)
    ensures |names| == |m|
    ensures forall i :: 0 <= i < |m| ==> names[i] == m[i].0
  {
    if m == [] then [] else [m[0].0] + StageNames(m[1..])
  }

  /** `PROCESS_STAGES.get(system, {})`: the stage table of a system, empty when unknown. */
  function StagesOf(system: string): (m: StageMap)
    ensures system == "mechanical" ==> m == MechanicalStages
    ensures system == "electrical" ==> m == ElectricalStages
    ensures system == "miscellaneous" ==> m == MiscellaneousStages
    ensures system !in {"mechanical", "electrical", "miscellaneous"} ==> m == []
  {
    if system == "mechanical" then MechanicalStages
    else if system == "electrical" then ElectricalStages
    else if system == "miscellaneous" then MiscellaneousStages
    else []
  }

  /** "Other" is never a declared stage, so it cannot be confused with a match. */
  lemma OtherIsNotAStage(system: string)
    ensures forall i :: 0 <= i < |StagesOf(system)| ==> StagesOf(system)[i].0 != Other
  {
    StageDeclarationOrder();
    var names := StageNames(StagesOf(system));
    assert Other !in names;
  }

  /** Each system's table is well formed (see `StageTablesAreWellFormed`). */
  lemma StagesOfWellFormed(system: string)
    ensures NoNameInTwoStages(StagesOf(system))
  {
    StageTablesAreWellFormed();
  }

  /** No equipment name is listed under two stages of the same system. */
  predicate NoNameInTwoStages(m: StageMap) {
    forall i, j, n :: 0 <= i < j < |m| && n in m[i].1 ==> n !in m[j].1
  }

  predicate DistinctStageNames(m: StageMap) {
    forall i, j :: 0 <= i < j < |m| ==> m[i].0 != m[j].0
  }

  lemma StageTablesAreWellFormed()
    ensures NoNameInTwoStages(MechanicalStages) && DistinctStageNames(MechanicalStages)
    ensures NoNameInTwoStages(ElectricalStages) && DistinctStageNames(ElectricalStages)
    ensures NoNameInTwoStages(MiscellaneousStages) && DistinctStageNames(MiscellaneousStages)
  {
    MechanicalWellFormed();
    ElectricalWellFormed();
    MiscellaneousWellFormed();
  }

  lemma MechanicalWellFormed()
    ensures NoNameInTwoStages(MechanicalStages) && DistinctStageNames(MechanicalStages)
  {
  }

  lemma ElectricalWellFormed()
    ensures NoNameInTwoStages(ElectricalStages) && DistinctStageNames(ElectricalStages)
  {
  }

  lemma MiscellaneousWellFormed()
    ensures NoNameInTwoStages(MiscellaneousStages) && DistinctStageNames(MiscellaneousStages)
  {
  }

  /** Every system declares the pipeline stages in the same order; only electrical adds Control. */
  lemma StageDeclarationOrder()
    ensures StageNames(MechanicalStages) == PipelineStages
    ensures StageNames(ElectricalStages) == PipelineStages + [Control]
    ensures StageNames(MiscellaneousStages) == PipelineStages
    ensures Other !in StageNames(MechanicalStages) + StageNames(ElectricalStages) + StageNames(MiscellaneousStages)
  {
    MechanicalOrder();
    ElectricalOrder();
    MiscellaneousOrder();
    assert Other !in PipelineStages + [Control];
  }

  lemma MechanicalOrder()
    ensures StageNames(MechanicalStages) == PipelineStages
  {
  }

  lemma ElectricalOrder()
    ensures StageNames(ElectricalStages) == PipelineStages + [Control]
  {
  }

  lemma MiscellaneousOrder()
    ensures StageNames(MiscellaneousStages) == PipelineStages
  {
  }

  /** The items the chart aggregation looks up by name are all Water Extraction items. */
  lemma LookupNamesAreWaterExtraction()
    ensures MechanicalStages[0] == (WaterExtraction, MechanicalStages[0].1) && MechanicalTurbine in MechanicalStages[0].1
    ensures ElectricalStages[0] == (WaterExtraction, ElectricalStages[0].1)
    ensures ElectricalTurbine in ElectricalStages[0].1 && ElectricalBattery in ElectricalStages[0].1
  {
  }

  /** Near-duplicate names stay distinct keys; the shared calcite item is Post-Treatment in both. */
  lemma NearDuplicateNames()
    ensures "Submersible pump " != "Submersible pump"
    ensures "Submersible pump " in MechanicalStages[0].1 && "Submersible pump " !in ElectricalStages[0].1
    ensures "Submersible pump" in ElectricalStages[0].1 && "Submersible pump" !in MechanicalStages[0].1
    ensures MechanicalStages[3] == (PostTreatment, ["Calcite bed contactors"])
    ensures ElectricalStages[3] == (PostTreatment, ["Calcite bed contactors"])
  {
  }

  /** Three colour keys with three distinct hex values, so equality on hex identifies the colour. */
  lemma RagColorsDistinct()
    ensures RagColors.Keys == {"red", "yellow", "green"}
    ensures RagColors["red"] == RedHex && RagColors["yellow"] == YellowHex && RagColors["green"] == GreenHex
    ensures RedHex != YellowHex && YellowHex != GreenHex && RedHex != GreenHex
  {
  }
}

/** Classifying an equipment item into a process stage by exact name. */
module StageLookup {
  import opened Wrappers
  import opened Config

  /** Index of the first stage, in declaration order, whose list holds `name`. */
  function FirstStageIndex(m: StageMap, name: string): (r: Option<nat>)
    ensures r.Some? ==> r.value < |m| && name in m[r.value].1
    ensures r.Some? ==> forall j :: 0 <= j < r.value ==> name !in m[j].1
    ensures r.None? ==> forall j :: 0 <= j < |m| ==> name !in m[j].1
  {
    if m == [] then None
    else if name in m[0].1 then Some(0)
    else match FirstStageIndex(m[1..], name)
      case None => None
      case Some(i) => Some(i + 1)
  }

  /** When no name is listed twice, the first match is the only match. */
  lemma FirstMatchIsUniqueMatch(m: StageMap, name: string, i: nat)
    requires NoNameInTwoStages(m)
    requires i < |m| && name in m[i].1
    ensures FirstStageIndex(m, name) == Some(i)
  {
  }

  /**
   * `get_equipment_stage`: the first stage of `system` listing `name`, or
   * "Other" when none does or the system is unknown.
   */
  function EquipmentStage(name: string, system: string): (r: string)
    ensures r == Other || r in StageNames(StagesOf(system))
    ensures r == Other <==> forall j :: 0 <= j < |StagesOf(system)| ==> name !in StagesOf(system)[j].1
  {
    var m := StagesOf(system);
    OtherIsNotAStage(system);
    match FirstStageIndex(m, name)
    case None => Other
    case Some(i) => m[i].0
  }

  /** Within a system the stage of a listed name is the one stage that lists it. */
  lemma UniqueMatch(name: string, system: string, i: nat)
    requires i < |StagesOf(system)| && name in StagesOf(system)[i].1
    ensures EquipmentStage(name, system) == StagesOf(system)[i].0
  {
    StagesOfWellFormed(system);
    FirstMatchIsUniqueMatch(StagesOf(system), name, i);
  }

  /** Only electrical items ever classify as Control. */
  lemma ControlOnlyInElectrical(name: string, system: string)
    requires system != "electrical"
    ensures EquipmentStage(name, system) != Control
  {
    StageDeclarationOrder();
  }

  lemma KnownClassifications()
    ensures EquipmentStage(MechanicalTurbine, "mechanical") == WaterExtraction
    ensures EquipmentStage(ElectricalTurbine, "electrical") == WaterExtraction
    ensures EquipmentStage(ElectricalBattery, "electrical") == WaterExtraction
    ensures EquipmentStage("Calcite bed contactors", "mechanical") == PostTreatment
    ensures EquipmentStage("Calcite bed contactors", "electrical") == PostTreatment
  {
    UniqueMatch(MechanicalTurbine, "mechanical", 0);
    UniqueMatch(ElectricalTurbine, "electrical", 0);
    UniqueMatch(ElectricalBattery, "electrical", 0);
    UniqueMatch("Calcite bed contactors", "mechanical", 3);
    UniqueMatch("Calcite bed contactors", "electrical", 3);
  }
}

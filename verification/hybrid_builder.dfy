/**
 * The hybrid pipeline builder: five stage slots, each a dropdown of the
 * miscellaneous items of that stage which exist in some equipment table,
 * the slot store the dropdowns write, the Clear All reset and the
 * "n/5 slots filled" counter.
 */
module HybridBuilder {
  import opened Wrappers
  import opened Cells
  import opened Tables
  import opened Config
  import opened StageLookup

  /** The pipeline slots, left to right. */
  const SlotStages: seq<string> := [WaterExtraction, PreTreatment, Desalination, PostTreatment, BrineDisposal]

  /** The slots are the pipeline stages every system declares, in the same order. */
  lemma SlotsFollowPipeline()
    ensures SlotStages == PipelineStages == StageNames(MiscellaneousStages)
    ensures Distinct(SlotStages)
  {
    MiscellaneousOrder();
    SlotStagesDistinct();
  }

  lemma SlotStagesDistinct()
    ensures Distinct(SlotStages)
  {
  }

  // ---------------------------------------------------------------------------
  // Dropdown options
  // ---------------------------------------------------------------------------

  datatype DropdownOption = DropdownOption(labelText: string, value: string)

  /** `PROCESS_STAGES["miscellaneous"].get(stage, [])`. */
  function StageItems(m: StageMap, stage: string): (items: seq<string>)
    ensures forall i :: 0 <= i < |m| && m[i].0 == stage && (forall j :: 0 <= j < i ==> m[j].0 != stage)
              ==> items == m[i].1
    ensures (forall i :: 0 <= i < |m| ==> m[i].0 != stage) ==> items == []
  {
    if m == [] then []
    else if m[0].0 == stage then m[0].1
    else StageItems(m[1..], stage)
  }

  /** The name has a row in the miscellaneous, mechanical or electrical table. */
  predicate FoundInAny(name: string, data: Dashboard) {
    HasName(data.miscellaneous, name) || HasName(data.mechanical, name) || HasName(data.electrical, name)
  }

  /** The values of a list of options, in order. */
  function Values(r: seq<DropdownOption>): (vs: seq<string>)
    ensures |vs| == |r| && forall k :: 0 <= k < |r| ==> vs[k] == r[k].value
  {
    if r == [] then [] else [r[0].value] + Values(r[1..])
  }

  function OptionsFor(items: seq<string>, data: Dashboard): (r: seq<DropdownOption>)
    ensures |r| <= |items|
    ensures forall k :: 0 <= k < |r| ==> r[k].labelText == r[k].value && r[k].value in items && FoundInAny(r[k].value, data)
    ensures forall n :: n in items && FoundInAny(n, data) ==> n in Values(r)
  {
    if items == [] then []
    else
      var rest := OptionsFor(items[1..], data);
      if FoundInAny(items[0], data) then [DropdownOption(items[0], items[0])] + rest else rest
  }

  /** `a` is `b` with some elements dropped and the rest kept in order. */
  predicate SubsequenceOf(a: seq<string>, b: seq<string>)
    decreases |b|
  {
    if a == [] then true
    else if b == [] then false
    else (a[0] == b[0] && SubsequenceOf(a[1..], b[1..])) || SubsequenceOf(a, b[1..])
  }

  /** The options keep the declared order of the stage's items. */
  lemma {:induction false} OptionsKeepOrder(items: seq<string>, data: Dashboard)
    ensures SubsequenceOf(Values(OptionsFor(items, data)), items)
  {
    if items != [] {
      OptionsKeepOrder(items[1..], data);
      var rest := OptionsFor(items[1..], data);
      if FoundInAny(items[0], data) {
        var r := [DropdownOption(items[0], items[0])] + rest;
        assert r[1..] == rest;
        assert Values(r)[0] == items[0] && Values(r)[1..] == Values(rest);
      }
    }
  }

  /**
   * `_build_dropdown_options`: the stage's miscellaneous items, in declared
   * order, that some table can look up, each labelled by its own name.
   */
  function DropdownOptions(stage: string, data: Dashboard): (r: seq<DropdownOption>)
    ensures forall k :: 0 <= k < |r| ==> r[k].labelText == r[k].value && FoundInAny(r[k].value, data)
    ensures SubsequenceOf(Values(r), StageItems(MiscellaneousStages, stage))
  {
    OptionsKeepOrder(StageItems(MiscellaneousStages, stage), data);
    OptionsFor(StageItems(MiscellaneousStages, stage), data)
  }

  /**
   * An item is offered for a slot exactly when the miscellaneous stage list
   * of that slot names it and some table holds it.
   */
  lemma DropdownOffersExactly(i: nat, data: Dashboard, name: string)
    requires i < |SlotStages|
    ensures name in Values(DropdownOptions(SlotStages[i], data))
            <==> name in MiscellaneousStages[i].1 && FoundInAny(name, data)
  {
    StageDeclarationOrder();
    StageTablesAreWellFormed();
    assert StageItems(MiscellaneousStages, SlotStages[i]) == MiscellaneousStages[i].1;
  }

  /** Every option of a slot classifies back into that slot's stage. */
  lemma OptionsClassifyIntoTheirSlot(i: nat, data: Dashboard, k: nat)
    requires i < |SlotStages| && k < |DropdownOptions(SlotStages[i], data)|
    ensures EquipmentStage(DropdownOptions(SlotStages[i], data)[k].value, "miscellaneous") == SlotStages[i]
  {
    StageDeclarationOrder();
    StageTablesAreWellFormed();
    assert StageItems(MiscellaneousStages, SlotStages[i]) == MiscellaneousStages[i].1;
    UniqueMatch(DropdownOptions(SlotStages[i], data)[k].value, "miscellaneous", i);
  }

  /** A stage name the miscellaneous table does not declare has no options. */
  lemma UnknownStageHasNoOptions(stage: string, data: Dashboard)
    requires stage !in PipelineStages
    ensures DropdownOptions(stage, data) == []
  {
    StageDeclarationOrder();
    assert forall i :: 0 <= i < |MiscellaneousStages| ==> MiscellaneousStages[i].0 == PipelineStages[i];
  }

  // ---------------------------------------------------------------------------
  // Slot store and counter
  // ---------------------------------------------------------------------------

  type SlotStore = map<string, Option<string>>

  /** The map sending `keys[i]` to `vals[i]`. */
  function Assign(keys: seq<string>, vals: seq<Option<string>>): (m: SlotStore)
    requires |keys| == |vals|
    ensures m.Keys == set k | k in keys
  {
    if keys == [] then map[]
    else Assign(keys[..|keys| - 1], vals[..|vals| - 1])[keys[|keys| - 1] := vals[|vals| - 1]]
  }

  predicate Distinct(keys: seq<string>) {
    forall i, j :: 0 <= i < j < |keys| ==> keys[i] != keys[j]
  }

  lemma {:induction false} AssignAt(keys: seq<string>, vals: seq<Option<string>>, i: nat)
    requires |keys| == |vals| && Distinct(keys) && i < |keys|
    ensures Assign(keys, vals)[keys[i]] == vals[i]
  {
    var n := |keys|;
    if i < n - 1 {
      AssignAt(keys[..n - 1], vals[..n - 1], i);
    }
  }

  /** `update_slot_store`: all five dropdown values keyed by their stage. */
  function UpdateSlotStore(water: Option<string>, pretreat: Option<string>, desal: Option<string>,
                           posttreat: Option<string>, brine: Option<string>): (r: SlotStore)
    ensures r.Keys == set k | k in SlotStages
    ensures r[WaterExtraction] == water && r[PreTreatment] == pretreat && r[Desalination] == desal
    ensures r[PostTreatment] == posttreat && r[BrineDisposal] == brine
  {
    var vals := [water, pretreat, desal, posttreat, brine];
    SlotStagesDistinct();
    AssignAt(SlotStages, vals, 0);
    AssignAt(SlotStages, vals, 1);
    AssignAt(SlotStages, vals, 2);
    AssignAt(SlotStages, vals, 3);
    AssignAt(SlotStages, vals, 4);
    Assign(SlotStages, vals)
  }

  /** `clear_all_slots`: every dropdown reset to no selection. */
  function ClearAllSlots(): (r: seq<Option<string>>)
    ensures |r| == |SlotStages| && forall i :: 0 <= i < |r| ==> r[i].None?
  {
    [None, None, None, None, None]
  }

  /** The stages of a store that hold a selection. */
  function FilledStages(m: SlotStore): set<string> {
    set k | k in m && m[k].Some?
  }

  /**
   * The number `update_slot_counter` reports: 0 for a missing store, none
   * exactly when no stage holds a selection, all of them exactly when every
   * stage does.
   */
  function FilledCount(slots: Option<SlotStore>): (n: nat)
    ensures slots.None? ==> n == 0
    ensures slots.Some? ==> n <= |slots.value.Keys|
    ensures slots.Some? ==> (n == 0 <==> forall k :: k in slots.value ==> slots.value[k].None?)
    ensures slots.Some? ==> (n == |slots.value.Keys| <==> forall k :: k in slots.value ==> slots.value[k].Some?)
  {
    match slots
    case None => 0
    case Some(m) =>
      FilledStagesBounds(m);
      |FilledStages(m)|
  }

  lemma FilledStagesBounds(m: SlotStore)
    ensures |FilledStages(m)| <= |m.Keys|
    ensures |FilledStages(m)| == 0 <==> forall k :: k in m ==> m[k].None?
    ensures |FilledStages(m)| == |m.Keys| <==> forall k :: k in m ==> m[k].Some?
  {
    SubsetCard(FilledStages(m), m.Keys);
    if exists k :: k in m && m[k].None? {
      var k :| k in m && m[k].None?;
      assert FilledStages(m) <= m.Keys - {k};
      SubsetCard(FilledStages(m), m.Keys - {k});
    } else {
      assert FilledStages(m) == m.Keys;
    }
    if exists k :: k in m && m[k].Some? {
      var k :| k in m && m[k].Some?;
      assert k in FilledStages(m);
    }
  }

  lemma {:induction false} SubsetCard<T>(a: set<T>, b: set<T>)
    requires a <= b
    ensures |a| <= |b|
    decreases |b|
  {
    if a != {} {
      var x :| x in a;
      SubsetCard(a - {x}, b - {x});
    }
  }

  /** `update_slot_counter`: "n/5 slots filled", whose leading digits read back as the count. */
  function SlotCounterLabel(slots: Option<SlotStore>): (r: string)
    ensures |r| > |"/5 slots filled"| && r[|r| - |"/5 slots filled"|..] == "/5 slots filled"
    ensures AllDigits(r[..|r| - |"/5 slots filled"|])
    ensures DigitsValue(r[..|r| - |"/5 slots filled"|]) == FilledCount(slots)
  {
    var digits := NatToString(FilledCount(slots));
    DigitsValueOfNatToString(FilledCount(slots));
    assert (digits + "/5 slots filled")[..|digits|] == digits;
    digits + "/5 slots filled"
  }

  function Filled(v: Option<string>): nat {
    if v.Some? then 1 else 0
  }

  lemma FilledAdd(m: SlotStore, k: string, v: Option<string>)
    requires k !in m
    ensures FilledStages(m[k := v]) == FilledStages(m) + (if v.Some? then {k} else {})
    ensures |FilledStages(m[k := v])| == |FilledStages(m)| + Filled(v)
  {
    assert FilledStages(m[k := v]) == FilledStages(m) + (if v.Some? then {k} else {});
  }

  function CountSome(vals: seq<Option<string>>): nat {
    if vals == [] then 0 else CountSome(vals[..|vals| - 1]) + Filled(vals[|vals| - 1])
  }

  lemma {:induction false} FilledOfAssign(keys: seq<string>, vals: seq<Option<string>>)
    requires |keys| == |vals| && Distinct(keys)
    ensures |FilledStages(Assign(keys, vals))| == CountSome(vals)
  {
    if keys != [] {
      var n := |keys|;
      DistinctInit(keys);
      FilledOfAssign(keys[..n - 1], vals[..n - 1]);
      FilledAdd(Assign(keys[..n - 1], vals[..n - 1]), keys[n - 1], vals[n - 1]);
    }
  }

  /** Dropping the last key keeps the keys distinct, and the last key is not among the others. */
  lemma DistinctInit(keys: seq<string>)
    requires keys != [] && Distinct(keys)
    ensures Distinct(keys[..|keys| - 1]) && keys[|keys| - 1] !in keys[..|keys| - 1]
  {
  }

  /** The counter counts exactly the dropdowns that hold a selection. */
  lemma CounterCountsSelections(water: Option<string>, pretreat: Option<string>, desal: Option<string>,
                                posttreat: Option<string>, brine: Option<string>)
    ensures FilledCount(Some(UpdateSlotStore(water, pretreat, desal, posttreat, brine)))
            == Filled(water) + Filled(pretreat) + Filled(desal) + Filled(posttreat) + Filled(brine)
    ensures FilledCount(Some(UpdateSlotStore(water, pretreat, desal, posttreat, brine))) <= 5
  {
    var vals := [water, pretreat, desal, posttreat, brine];
    SlotStagesDistinct();
    FilledOfAssign(SlotStages, vals);
    CountSomeFive(water, pretreat, desal, posttreat, brine);
  }

  lemma CountSomeFive(a: Option<string>, b: Option<string>, c: Option<string>, d: Option<string>, e: Option<string>)
    ensures CountSome([a, b, c, d, e]) == Filled(a) + Filled(b) + Filled(c) + Filled(d) + Filled(e)
  {
    assert [a][..0] == [];
    assert CountSome([a]) == Filled(a);
    assert [a, b][..1] == [a];
    assert CountSome([a, b]) == Filled(a) + Filled(b);
    assert [a, b, c][..2] == [a, b];
    assert CountSome([a, b, c]) == Filled(a) + Filled(b) + Filled(c);
    assert [a, b, c, d][..3] == [a, b, c];
    assert CountSome([a, b, c, d]) == Filled(a) + Filled(b) + Filled(c) + Filled(d);
    assert [a, b, c, d, e][..4] == [a, b, c, d];
  }

  /** The counter texts for no slots and all slots, spelled out. */
  lemma CounterLiterals()
    ensures "0" + "/5 slots filled" == "0/5 slots filled"
    ensures "5" + "/5 slots filled" == "5/5 slots filled"
  {
    var tail := "/5 slots filled";
    forall i | 0 <= i < 1 + |tail|
      ensures ("0" + tail)[i] == "0/5 slots filled"[i] && ("5" + tail)[i] == "5/5 slots filled"[i]
    {
    }
  }

  /** Clear All, cascading through the store, shows "0/5 slots filled", as does a missing store. */
  lemma ClearAllEmptiesCounter()
    ensures SlotCounterLabel(Some(UpdateSlotStore(ClearAllSlots()[0], ClearAllSlots()[1], ClearAllSlots()[2],
                                                  ClearAllSlots()[3], ClearAllSlots()[4]))) == "0/5 slots filled"
    ensures SlotCounterLabel(None) == "0/5 slots filled"
  {
    var s := ClearAllSlots();
    var store := Some(UpdateSlotStore(s[0], s[1], s[2], s[3], s[4]));
    CounterCountsSelections(s[0], s[1], s[2], s[3], s[4]);
    assert FilledCount(store) == 0;
    assert NatToString(0) == "0";
    assert SlotCounterLabel(store) == NatToString(FilledCount(store)) + "/5 slots filled";
    CounterLiterals();
  }

  /** With every slot chosen the counter reads "5/5 slots filled". */
  lemma FullPipelineCounter(water: string, pretreat: string, desal: string, posttreat: string, brine: string)
    ensures SlotCounterLabel(Some(UpdateSlotStore(Some(water), Some(pretreat), Some(desal), Some(posttreat), Some(brine))))
            == "5/5 slots filled"
  {
    var store := Some(UpdateSlotStore(Some(water), Some(pretreat), Some(desal), Some(posttreat), Some(brine)));
    CounterCountsSelections(Some(water), Some(pretreat), Some(desal), Some(posttreat), Some(brine));
    assert FilledCount(store) == 5;
    assert NatToString(5) == "5";
    assert SlotCounterLabel(store) == NatToString(FilledCount(store)) + "/5 slots filled";
    CounterLiterals();
  }
}

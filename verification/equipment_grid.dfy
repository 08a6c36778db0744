/**
 * The equipment grid of one system view (`make_equipment_section`): rows
 * grouped under their process stage in a fixed display order, the hybrid
 * gate, and the cross-system comparison shown inside each expanded item.
 */
module EquipmentGrid {
  import opened Wrappers
  import opened Cells
  import opened Tables
  import opened Config
  import opened StageLookup

  /** `_STAGE_ORDER`: display order of the stage sections. */
  const StageOrder: seq<string> :=
    [WaterExtraction, PreTreatment, Desalination, PostTreatment, BrineDisposal, Control, Other]

  predicate DistinctStrings(s: seq<string>) {
    forall i, j :: 0 <= i < j < |s| ==> s[i] != s[j]
  }

  /** Whatever a row classifies as, the grid has a section for it. */
  lemma ClassificationIsDisplayed(name: string, system: string)
    ensures EquipmentStage(name, system) in StageOrder
  {
    StageDeclarationOrder();
    assert StageOrder == PipelineStages + [Control, Other];
  }

  // ---------------------------------------------------------------------------
  // Grouping by stage
  // ---------------------------------------------------------------------------

  /**
   * The group a row joins: its stage, or "Other" should the stage have no
   * group.  Every stage has one, so the fallback never changes anything.
   */
  function GroupStage(name: string, system: string): (s: string)
    ensures s in StageOrder
    ensures s == EquipmentStage(name, system)
  {
    var stage := EquipmentStage(name, system);
    ClassificationIsDisplayed(name, system);
    if stage in StageOrder then stage else Other
  }

  /** The group of every row, in table order. */
  function Labels(t: Table, system: string): (ls: seq<string>)
    ensures |ls| == |t|
    ensures forall i :: 0 <= i < |t| ==> ls[i] == EquipmentStage(t[i].name, system)
  {
    seq(|t|, i requires 0 <= i < |t| => GroupStage(t[i].name, system))
  }

  /** Positions labelled `stage`, in increasing order. */
  function GroupOf(ls: seq<string>, stage: string): (g: seq<nat>)
    ensures forall k :: 0 <= k < |g| ==> g[k] < |ls| && ls[g[k]] == stage
    ensures forall i :: 0 <= i < |ls| && ls[i] == stage ==> i in g
    ensures forall k, l :: 0 <= k < l < |g| ==> g[k] < g[l]
  {
    if ls == [] then []
    else
      var g0 := GroupOf(ls[..|ls| - 1], stage);
      if ls[|ls| - 1] == stage then g0 + [|ls| - 1] else g0
  }

  /** One stage header with its accordion of rows. */
  datatype Section = Section(stage: string, rows: seq<nat>)

  function SectionsFrom(ls: seq<string>, stages: seq<string>): (r: seq<Section>)
    ensures forall a :: 0 <= a < |r| ==> r[a].stage in stages && r[a].rows != [] && r[a].rows == GroupOf(ls, r[a].stage)
  {
    if stages == [] then []
    else
      var g := GroupOf(ls, stages[0]);
      var rest := SectionsFrom(ls, stages[1..]);
      if g == [] then rest else [Section(stages[0], g)] + rest
  }

  /** A stage of `stages` that labels some row gets a section. */
  lemma {:induction false} SectionsCover(ls: seq<string>, stages: seq<string>, i: nat)
    requires i < |ls| && ls[i] in stages
    ensures exists a :: 0 <= a < |SectionsFrom(ls, stages)| && SectionsFrom(ls, stages)[a].stage == ls[i]
  {
    var g := GroupOf(ls, stages[0]);
    var rest := SectionsFrom(ls, stages[1..]);
    var r := SectionsFrom(ls, stages);
    if ls[i] == stages[0] {
      assert i in g;
      assert r == [Section(stages[0], g)] + rest;
      assert r[0].stage == ls[i];
    } else {
      assert ls[i] in stages[1..];
      SectionsCover(ls, stages[1..], i);
      var a :| 0 <= a < |rest| && rest[a].stage == ls[i];
      if g == [] {
        assert r[a].stage == ls[i];
      } else {
        assert r[a + 1].stage == ls[i];
      }
    }
  }

  /** The stage sections of a table: its non-empty stage groups, in `StageOrder`. */
  function EquipmentSections(t: Table, system: string): seq<Section> {
    SectionsFrom(Labels(t, system), StageOrder)
  }

  /** Position of a string in a sequence (its length when absent). */
  function PositionIn(s: seq<string>, x: string): (p: nat)
    ensures p <= |s|
    ensures p < |s| ==> s[p] == x
    ensures forall q :: 0 <= q < p ==> s[q] != x
  {
    if s == [] then 0 else if s[0] == x then 0 else 1 + PositionIn(s[1..], x)
  }

  /** Sections come in the order their stages have in `stages`. */
  predicate InOrderOf(r: seq<Section>, stages: seq<string>) {
    forall a, b :: 0 <= a < b < |r| ==> PositionIn(stages, r[a].stage) < PositionIn(stages, r[b].stage)
  }

  lemma {:induction false} SectionsFollowOrder(ls: seq<string>, stages: seq<string>)
    requires DistinctStrings(stages)
    ensures InOrderOf(SectionsFrom(ls, stages), stages)
  {
    if stages != [] {
      var tail := stages[1..];
      DistinctTail(stages);
      SectionsFollowOrder(ls, tail);
      var rest := SectionsFrom(ls, tail);
      forall a | 0 <= a < |rest|
        ensures PositionIn(stages, rest[a].stage) == 1 + PositionIn(tail, rest[a].stage)
      {
        PositionInTail(stages, rest[a].stage);
      }
      var g := GroupOf(ls, stages[0]);
      if g != [] {
        PrependKeepsOrder(stages, Section(stages[0], g), rest);
      }
    }
  }

  lemma DistinctTail(s: seq<string>)
    requires s != [] && DistinctStrings(s)
    ensures DistinctStrings(s[1..])
  {
    var tail := s[1..];
    forall i, j | 0 <= i < j < |tail| ensures tail[i] != tail[j] {
      assert tail[i] == s[i + 1] && tail[j] == s[j + 1];
    }
  }

  /** Past the head of a sequence without repeats, positions shift by one. */
  lemma PositionInTail(s: seq<string>, x: string)
    requires s != [] && DistinctStrings(s) && x in s[1..]
    ensures PositionIn(s, x) == 1 + PositionIn(s[1..], x)
  {
    var p :| 0 <= p < |s[1..]| && s[1..][p] == x;
    assert s[p + 1] == x;
  }

  /** A section for the first stage, put in front of sections of later stages, keeps the order. */
  lemma PrependKeepsOrder(stages: seq<string>, first: Section, rest: seq<Section>)
    requires stages != [] && first.stage == stages[0] && InOrderOf(rest, stages[1..])
    requires forall a :: 0 <= a < |rest| ==> PositionIn(stages, rest[a].stage) == 1 + PositionIn(stages[1..], rest[a].stage)
    ensures InOrderOf([first] + rest, stages)
  {
    var r := [first] + rest;
    forall a, b | 0 <= a < b < |r|
      ensures PositionIn(stages, r[a].stage) < PositionIn(stages, r[b].stage)
    {
      assert r[b] == rest[b - 1];
      if a > 0 {
        assert r[a] == rest[a - 1];
      }
    }
  }

  /**
   * Every row of the table is shown in exactly one section, the one of its
   * own stage.
   */
  lemma SectionsPartitionRows(t: Table, system: string, i: nat)
    requires i < |t|
    ensures exists a :: 0 <= a < |EquipmentSections(t, system)|
              && EquipmentSections(t, system)[a].stage == EquipmentStage(t[i].name, system)
              && i in EquipmentSections(t, system)[a].rows
    ensures forall a :: 0 <= a < |EquipmentSections(t, system)| && i in EquipmentSections(t, system)[a].rows
              ==> EquipmentSections(t, system)[a].stage == EquipmentStage(t[i].name, system)
  {
    var ls := Labels(t, system);
    var r := EquipmentSections(t, system);
    ClassificationIsDisplayed(t[i].name, system);
    SectionsCover(ls, StageOrder, i);
    var a :| 0 <= a < |r| && r[a].stage == ls[i];
    assert i in GroupOf(ls, ls[i]);
    forall b | 0 <= b < |r| && i in r[b].rows
      ensures r[b].stage == ls[i]
    {
      var k :| 0 <= k < |r[b].rows| && r[b].rows[k] == i;
    }
  }

  lemma StageOrderDistinct()
    ensures DistinctStrings(StageOrder)
  {
  }

  /** The sections come in display order. */
  lemma SectionsInDisplayOrder(t: Table, system: string)
    ensures InOrderOf(EquipmentSections(t, system), StageOrder)
  {
    StageOrderDistinct();
    SectionsFollowOrder(Labels(t, system), StageOrder);
  }

  lemma {:induction false} NoRowsNoSections(stages: seq<string>)
    ensures SectionsFrom([], stages) == []
  {
    if stages != [] {
      NoRowsNoSections(stages[1..]);
    }
  }

  /** The grid is empty exactly when the table is. */
  lemma NoSectionsIffEmpty(t: Table, system: string)
    ensures EquipmentSections(t, system) == [] <==> t == []
  {
    if t == [] {
      assert Labels(t, system) == [];
      NoRowsNoSections(StageOrder);
    } else {
      SectionsPartitionRows(t, system, 0);
    }
  }

  // ---------------------------------------------------------------------------
  // The system view, with the hybrid gate
  // ---------------------------------------------------------------------------

  /** An accordion item: the row's position and the system its details are read from. */
  datatype Item = Item(index: nat, system: string)

  datatype View =
    | GateClosed                           // "Fill all 5 slots to see equipment details."
    | HybridItems(items: seq<Item>)
    | Sections(sections: seq<Section>)
    | NoEquipment                          // "No equipment data available for this system."

  /**
   * `make_equipment_section`.  The hybrid view is gated on the selected
   * equipment being available; its items are read as miscellaneous rows.
   */
  function MakeEquipmentSection(t: Table, system: string, hybridSelected: Option<Table>): (v: View)
    ensures system == "hybrid" ==> (v.GateClosed? <==> hybridSelected.None?)
    ensures system == "hybrid" && hybridSelected.Some? ==>
              v == HybridItems(seq(|hybridSelected.value|, k requires 0 <= k => Item(k, "miscellaneous")))
    ensures system != "hybrid" ==> v.Sections? || v.NoEquipment?
    ensures system != "hybrid" ==> (v.NoEquipment? <==> t == [])
    ensures system != "hybrid" && v.Sections? ==> v.sections == EquipmentSections(t, system)
    ensures v.Sections? ==> v.sections != []
  {
    NoSectionsIffEmpty(t, system);
    if system == "hybrid" then
      match hybridSelected
      case None => GateClosed
      case Some(h) => HybridItems(seq(|h|, k requires 0 <= k => Item(k, "miscellaneous")))
    else
      var sections := EquipmentSections(t, system);
      if sections == [] then NoEquipment else Sections(sections)
  }

  /** A non-hybrid view says "no equipment" exactly for an empty table. */
  lemma NoEquipmentIffEmpty(t: Table, system: string, hybridSelected: Option<Table>)
    requires system != "hybrid"
    ensures MakeEquipmentSection(t, system, hybridSelected).NoEquipment? <==> t == []
  {
    NoSectionsIffEmpty(t, system);
  }

  /** `f"item-{system}-{idx}"`. */
  function ItemId(system: string, index: nat): string {
    "item-" + system + "-" + NatToString(index)
  }

  /** Items of one system never share an id. */
  lemma ItemIdsDistinct(system: string, i: nat, j: nat)
    requires i != j
    ensures ItemId(system, i) != ItemId(system, j)
  {
    var p := "item-" + system + "-";
    assert ItemId(system, i)[|p|..] == NatToString(i);
    assert ItemId(system, j)[|p|..] == NatToString(j);
    DigitsValueOfNatToString(i);
    DigitsValueOfNatToString(j);
  }

  // ---------------------------------------------------------------------------
  // Cross-system comparison
  // ---------------------------------------------------------------------------

  /** Looking a system table up in the data dict fails for anything but the three systems. */
  datatype GridError = UnknownSystem(system: string)

  function SystemTable(data: Dashboard, system: string): (r: Result<Table, GridError>)
    ensures r.Success? <==> system in {"mechanical", "electrical", "miscellaneous"}
  {
    if system == "mechanical" then Success(data.mechanical)
    else if system == "electrical" then Success(data.electrical)
    else if system == "miscellaneous" then Success(data.miscellaneous)
    else Failure(UnknownSystem(system))
  }

  function UpperChar(c: char): char {
    if 'a' <= c <= 'z' then (c as int - 'a' as int + 'A' as int) as char else c
  }

  /** `str.capitalize` on ASCII text. */
  function Capitalize(s: string): (r: string)
    ensures |r| == |s|
  {
    if s == [] then [] else [UpperChar(s[0])] + Lower(s[1..])
  }

  lemma CapitalizeLowercase(s: string)
    requires |s| >= 1 && forall i :: 1 <= i < |s| ==> 'a' <= s[i] <= 'z'
    ensures Capitalize(s) == [UpperChar(s[0])] + s[1..]
  {
  }

  /** The "System" column reads "Mechanical", "Electrical" or "Miscellaneous". */
  lemma SystemLabels()
    ensures Capitalize("mechanical") == "Mechanical"
    ensures Capitalize("electrical") == "Electrical"
    ensures Capitalize("miscellaneous") == "Miscellaneous"
  {
    CapitalizeLowercase("mechanical");
    CapitalizeLowercase("electrical");
    CapitalizeLowercase("miscellaneous");
  }

  datatype Metric = Cost | Energy | LandArea

  /** One line of the comparison table. */
  datatype ComparisonRow = ComparisonRow(system: string, name: string, cost: Cell, energy: Cell, landArea: Cell) {
    function Get(m: Metric): Cell {
      match m
      case Cost => cost
      case Energy => energy
      case LandArea => landArea
    }
  }

  function ToComparisonRow(system: string, row: Row): ComparisonRow {
    ComparisonRow(Capitalize(system), row.name, row.costUsd, row.energyKw, row.landAreaM2)
  }

  /** Position `i` holds the first row of `t` named `name`. */
  predicate FirstNamed(t: Table, name: string, i: int) {
    0 <= i < |t| && t[i].name == name && forall j :: 0 <= j < i ==> t[j].name != name
  }

  /** The expanded item itself: the first row of its own table carrying its name. */
  function CurrentRow(t: Table, system: string, name: string): (r: seq<ComparisonRow>)
    ensures |r| <= 1
    ensures r == [] <==> !HasName(t, name)
    ensures r != [] ==> r[0].name == name && r[0].system == Capitalize(system)
    ensures r != [] ==> exists i :: FirstNamed(t, name, i) && r[0] == ToComparisonRow(system, t[i])
  {
    if t == [] then []
    else if t[0].name == name then
      assert FirstNamed(t, name, 0);
      [ToComparisonRow(system, t[0])]
    else
      var rest := CurrentRow(t[1..], system, name);
      assert rest != [] ==> exists i :: FirstNamed(t, name, i) && rest[0] == ToComparisonRow(system, t[i]) by {
        if rest != [] {
          var i :| FirstNamed(t[1..], name, i) && rest[0] == ToComparisonRow(system, t[1..][i]);
          assert t[i + 1] == t[1..][i];
          forall j | 0 <= j < i + 1 ensures t[j].name != name {
            if j > 0 {
              assert t[j] == t[1..][j - 1];
            }
          }
          assert FirstNamed(t, name, i + 1);
        }
      }
      assert HasName(t, name) <==> HasName(t[1..], name) by {
        if HasName(t, name) {
          var i :| 0 <= i < |t| && t[i].name == name;
          assert t[1..][i - 1].name == name;
        }
        if HasName(t[1..], name) {
          var i :| 0 <= i < |t[1..]| && t[1..][i].name == name;
          assert t[i + 1].name == name;
        }
      }
      rest
  }

  /** The rows of a system that classify into `stage`, in table order. */
  function RowsInStage(t: Table, system: string, stage: string): (r: seq<ComparisonRow>)
    ensures |r| == |GroupOf(Labels(t, system), stage)|
    ensures forall j :: 0 <= j < |r| ==> r[j] == ToComparisonRow(system, t[GroupOf(Labels(t, system), stage)[j]])
  {
    var g := GroupOf(Labels(t, system), stage);
    seq(|g|, j requires 0 <= j < |g| => ToComparisonRow(system, t[g[j]]))
  }

  /** Positions of `other`'s rows in `stage`, or none when `other` is the item's own system. */
  function OtherGroup(t: Table, other: string, system: string, stage: string): (g: seq<nat>)
    ensures forall k :: 0 <= k < |g| ==> g[k] < |t|
  {
    if other != system then GroupOf(Labels(t, other), stage) else []
  }

  /** The rows of `other` at those positions. */
  function OtherPart(t: Table, other: string, system: string, stage: string): (p: seq<ComparisonRow>)
    ensures |p| == |OtherGroup(t, other, system, stage)|
    ensures forall j :: 0 <= j < |p| ==> p[j] == ToComparisonRow(other, t[OtherGroup(t, other, system, stage)[j]])
  {
    if other != system then RowsInStage(t, other, stage) else []
  }

  /** The rows of mechanical and electrical, less the item's own system, in the item's stage. */
  function OtherRows(data: Dashboard, system: string, stage: string): (r: seq<ComparisonRow>)
    ensures forall k :: 0 <= k < |r| ==> FromOtherSystem(data, system, stage, r[k])
    ensures forall i :: 0 <= i < |data.mechanical| && system != "mechanical"
                        && EquipmentStage(data.mechanical[i].name, "mechanical") == stage
                        ==> ToComparisonRow("mechanical", data.mechanical[i]) in r
    ensures forall i :: 0 <= i < |data.electrical| && system != "electrical"
                        && EquipmentStage(data.electrical[i].name, "electrical") == stage
                        ==> ToComparisonRow("electrical", data.electrical[i]) in r
  {
    var mech := OtherPart(data.mechanical, "mechanical", system, stage);
    var elec := OtherPart(data.electrical, "electrical", system, stage);
    PartsFromOtherSystem(data, system, stage, mech, elec);
    PartsComplete(data, system, stage, mech, elec);
    mech + elec
  }

  /**
   * The other rows, exactly: mechanical's rows of the stage first, then
   * electrical's, each in table order, so each such row appears once.
   */
  lemma OtherRowsExactly(data: Dashboard, system: string, stage: string)
    ensures |OtherRows(data, system, stage)| == |OtherGroup(data.mechanical, "mechanical", system, stage)|
                                                + |OtherGroup(data.electrical, "electrical", system, stage)|
    ensures forall j :: 0 <= j < |OtherGroup(data.mechanical, "mechanical", system, stage)| ==>
              OtherRows(data, system, stage)[j]
              == ToComparisonRow("mechanical", data.mechanical[OtherGroup(data.mechanical, "mechanical", system, stage)[j]])
    ensures forall j :: |OtherGroup(data.mechanical, "mechanical", system, stage)| <= j < |OtherRows(data, system, stage)| ==>
              OtherRows(data, system, stage)[j]
              == ToComparisonRow("electrical", data.electrical[
                   OtherGroup(data.electrical, "electrical", system, stage)[j - |OtherGroup(data.mechanical, "mechanical", system, stage)|]])
  {
    var mech := OtherPart(data.mechanical, "mechanical", system, stage);
    var elec := OtherPart(data.electrical, "electrical", system, stage);
    var m := OtherGroup(data.mechanical, "mechanical", system, stage);
    var e := OtherGroup(data.electrical, "electrical", system, stage);
    JoinedParts(OtherRows(data, system, stage), mech, elec, "mechanical", "electrical",
                data.mechanical, data.electrical, m, e);
  }

  /** Two parts, each lined up with its own group positions, stay lined up once joined. */
  lemma JoinedParts(r: seq<ComparisonRow>, a: seq<ComparisonRow>, b: seq<ComparisonRow>, sa: string, sb: string,
                    ta: Table, tb: Table, ga: seq<nat>, gb: seq<nat>)
    requires r == a + b
    requires |a| == |ga| && |b| == |gb|
    requires forall j :: 0 <= j < |ga| ==> ga[j] < |ta|
    requires forall j :: 0 <= j < |gb| ==> gb[j] < |tb|
    requires forall j :: 0 <= j < |a| ==> a[j] == ToComparisonRow(sa, ta[ga[j]])
    requires forall j :: 0 <= j < |b| ==> b[j] == ToComparisonRow(sb, tb[gb[j]])
    ensures |r| == |ga| + |gb|
    ensures forall j :: 0 <= j < |ga| ==> r[j] == ToComparisonRow(sa, ta[ga[j]])
    ensures forall j :: |ga| <= j < |r| ==> r[j] == ToComparisonRow(sb, tb[gb[j - |ga|]])
  {
    forall j | |ga| <= j < |r|
      ensures r[j] == ToComparisonRow(sb, tb[gb[j - |ga|]])
    {
      assert r[j] == b[j - |a|];
    }
  }

  lemma PartsFromOtherSystem(data: Dashboard, system: string, stage: string, mech: seq<ComparisonRow>, elec: seq<ComparisonRow>)
    requires mech == OtherPart(data.mechanical, "mechanical", system, stage)
    requires elec == OtherPart(data.electrical, "electrical", system, stage)
    ensures forall k :: 0 <= k < |mech + elec| ==> FromOtherSystem(data, system, stage, (mech + elec)[k])
  {
    forall k | 0 <= k < |mech + elec| ensures FromOtherSystem(data, system, stage, (mech + elec)[k]) {
      if k < |mech| {
        assert (mech + elec)[k] == mech[k];
        RowsInStageFromOtherSystem(data, system, "mechanical", stage, k);
      } else {
        assert (mech + elec)[k] == elec[k - |mech|];
        RowsInStageFromOtherSystem(data, system, "electrical", stage, k - |mech|);
      }
    }
  }

  lemma PartsComplete(data: Dashboard, system: string, stage: string, mech: seq<ComparisonRow>, elec: seq<ComparisonRow>)
    requires mech == OtherPart(data.mechanical, "mechanical", system, stage)
    requires elec == OtherPart(data.electrical, "electrical", system, stage)
    ensures forall i :: 0 <= i < |data.mechanical| && system != "mechanical"
                        && EquipmentStage(data.mechanical[i].name, "mechanical") == stage
                        ==> ToComparisonRow("mechanical", data.mechanical[i]) in mech + elec
    ensures forall i :: 0 <= i < |data.electrical| && system != "electrical"
                        && EquipmentStage(data.electrical[i].name, "electrical") == stage
                        ==> ToComparisonRow("electrical", data.electrical[i]) in mech + elec
  {
    AllRowsInStage(data.mechanical, "mechanical", stage);
    AllRowsInStage(data.electrical, "electrical", stage);
  }

  lemma AllRowsInStage(t: Table, system: string, stage: string)
    ensures forall i :: 0 <= i < |t| && EquipmentStage(t[i].name, system) == stage
                        ==> ToComparisonRow(system, t[i]) in RowsInStage(t, system, stage)
  {
    forall i | 0 <= i < |t| && EquipmentStage(t[i].name, system) == stage
      ensures ToComparisonRow(system, t[i]) in RowsInStage(t, system, stage)
    {
      RowsInStageComplete(t, system, stage, i);
    }
  }

  datatype Comparison =
    | NoEquivalent     // "No equivalent equipment found in other systems for this process stage."
    | Compared(stage: string, rows: seq<ComparisonRow>)

  /**
   * `_make_cross_system_comparison`: the expanded item followed by every
   * row of the other systems in the same stage; with at most one row there
   * is nothing to compare.
   */
  function CrossSystemComparison(name: string, system: string, data: Dashboard): (r: Result<Comparison, GridError>)
    ensures r.Success? <==> system in {"mechanical", "electrical", "miscellaneous"}
    ensures r.Success? && r.value.Compared? ==> |r.value.rows| >= 2 && r.value.stage == EquipmentStage(name, system)
  {
    CompareWithin(name, system, EquipmentStage(name, system), data)
  }

  /**
   * The comparison once the item's stage is known: the item itself (when its
   * own table has it) and then exactly the other systems' rows of that stage.
   */
  function CompareWithin(name: string, system: string, stage: string, data: Dashboard): (r: Result<Comparison, GridError>)
    ensures r.Success? <==> system in {"mechanical", "electrical", "miscellaneous"}
    ensures r.Success? && r.value.Compared? ==> |r.value.rows| >= 2 && r.value.stage == stage
    ensures r.Success? ==> (r.value.Compared? <==>
              |CurrentRow(SystemTable(data, system).value, system, name)| + |OtherRows(data, system, stage)| >= 2)
    ensures r.Success? && r.value.Compared? ==>
              r.value.rows == CurrentRow(SystemTable(data, system).value, system, name) + OtherRows(data, system, stage)
  {
    var own :- SystemTable(data, system);
    var rows := CurrentRow(own, system, name) + OtherRows(data, system, stage);
    if |rows| <= 1 then Success(NoEquivalent) else Success(Compared(stage, rows))
  }

  lemma RowsInStageShareStage(t: Table, system: string, stage: string, j: nat)
    requires j < |RowsInStage(t, system, stage)|
    ensures exists i :: 0 <= i < |t| && RowsInStage(t, system, stage)[j] == ToComparisonRow(system, t[i])
                        && EquipmentStage(t[i].name, system) == stage
  {
    var g := GroupOf(Labels(t, system), stage);
    assert Labels(t, system)[g[j]] == stage;
  }

  /** A row of another system, among mechanical and electrical, in `stage`. */
  predicate FromOtherSystem(data: Dashboard, system: string, stage: string, row: ComparisonRow) {
    exists s, i :: s in {"mechanical", "electrical"} && s != system
                   && 0 <= i < |SystemTable(data, s).value|
                   && row == ToComparisonRow(s, SystemTable(data, s).value[i])
                   && EquipmentStage(SystemTable(data, s).value[i].name, s) == stage
  }

  lemma RowsInStageFromOtherSystem(data: Dashboard, system: string, s: string, stage: string, j: nat)
    requires s in {"mechanical", "electrical"} && s != system
    requires j < |RowsInStage(SystemTable(data, s).value, s, stage)|
    ensures FromOtherSystem(data, system, stage, RowsInStage(SystemTable(data, s).value, s, stage)[j])
  {
    var t := SystemTable(data, s).value;
    RowsInStageShareStage(t, s, stage, j);
  }

  /**
   * Every compared row after the item itself is a row of another system,
   * among mechanical and electrical, in the item's stage.
   */
  lemma ComparedRowsShareStage(name: string, system: string, data: Dashboard, k: nat)
    requires system in {"mechanical", "electrical", "miscellaneous"}
    requires CrossSystemComparison(name, system, data).value.Compared?
    requires k < |CrossSystemComparison(name, system, data).value.rows|
    requires k > 0 || !HasName(SystemTable(data, system).value, name)
    ensures FromOtherSystem(data, system, CrossSystemComparison(name, system, data).value.stage,
                            CrossSystemComparison(name, system, data).value.rows[k])
  {
    var stage := EquipmentStage(name, system);
    if k == 0 {
      assert CurrentRow(SystemTable(data, system).value, system, name) == [];
    }
    var j := ComparedRowIsOtherRow(name, system, stage, data, k);
  }

  /** Past the item itself, the k-th compared row is the j-th of `OtherRows`. */
  lemma ComparedRowIsOtherRow(name: string, system: string, stage: string, data: Dashboard, k: nat) returns (j: nat)
    requires system in {"mechanical", "electrical", "miscellaneous"}
    requires CompareWithin(name, system, stage, data).value.Compared?
    requires |CurrentRow(SystemTable(data, system).value, system, name)| <= k < |CompareWithin(name, system, stage, data).value.rows|
    ensures j < |OtherRows(data, system, stage)|
    ensures CompareWithin(name, system, stage, data).value.rows[k] == OtherRows(data, system, stage)[j]
  {
    var c := CompareWithin(name, system, stage, data).value;
    var cur := CurrentRow(SystemTable(data, system).value, system, name);
    var o := OtherRows(data, system, stage);
    assert c.rows == cur + o;
    j := k - |cur|;
    AfterPrefix(cur, o, k);
    assert c.rows[k] == o[j];
  }

  lemma AfterPrefix<T>(a: seq<T>, b: seq<T>, k: nat)
    requires |a| <= k < |a + b|
    ensures k - |a| < |b| && (a + b)[k] == b[k - |a|]
  {
  }

  lemma RowsInStageComplete(t: Table, system: string, stage: string, i: nat)
    requires i < |t| && EquipmentStage(t[i].name, system) == stage
    ensures ToComparisonRow(system, t[i]) in RowsInStage(t, system, stage)
  {
    var g := GroupOf(Labels(t, system), stage);
    assert i in g;
    var j :| 0 <= j < |g| && g[j] == i;
    assert RowsInStage(t, system, stage)[j] == ToComparisonRow(system, t[i]);
  }

  /** Every same-stage row of every other system is in the comparison. */
  lemma EveryEquivalentIsCompared(name: string, system: string, data: Dashboard, other: string, i: nat)
    requires system in {"mechanical", "electrical", "miscellaneous"}
    requires other in {"mechanical", "electrical"} && other != system
    requires i < |SystemTable(data, other).value|
    requires EquipmentStage(SystemTable(data, other).value[i].name, other) == EquipmentStage(name, system)
    ensures CrossSystemComparison(name, system, data).value.Compared? || !HasName(SystemTable(data, system).value, name)
    ensures CrossSystemComparison(name, system, data).value.Compared?
            ==> ToComparisonRow(other, SystemTable(data, other).value[i]) in CrossSystemComparison(name, system, data).value.rows
  {
    var stage := EquipmentStage(name, system);
    var row := ToComparisonRow(other, SystemTable(data, other).value[i]);
    RowsInStageComplete(SystemTable(data, other).value, other, stage, i);
    var cur := CurrentRow(SystemTable(data, system).value, system, name);
    var rows := cur + OtherRows(data, system, stage);
    assert row in rows;
  }

  // ---------------------------------------------------------------------------
  // Best value per metric
  // ---------------------------------------------------------------------------

  /** The smallest coerced value of a metric over the rows, if any coerces. */
  function Best(rows: seq<ComparisonRow>, m: Metric): (r: Option<real>)
    ensures r.None? <==> forall k :: 0 <= k < |rows| ==> Coerce(rows[k].Get(m)).None?
    ensures r.Some? ==> forall k :: 0 <= k < |rows| && Coerce(rows[k].Get(m)).Some? ==> r.value <= Coerce(rows[k].Get(m)).value
    ensures r.Some? ==> exists k :: 0 <= k < |rows| && Coerce(rows[k].Get(m)) == Some(r.value)
  {
    if rows == [] then None
    else
      var init := rows[..|rows| - 1];
      assert forall k :: 0 <= k < |init| ==> init[k] == rows[k];
      var b0 := Best(init, m);
      match Coerce(rows[|rows| - 1].Get(m))
      case None => b0
      case Some(v) => if b0.None? || v < b0.value then Some(v) else b0
  }

  /** A cell is drawn in green exactly when its value equals the column's best. */
  predicate Highlighted(rows: seq<ComparisonRow>, k: nat, m: Metric): (b: bool)
    requires k < |rows|
    ensures b <==> Coerce(rows[k].Get(m)).Some?
                   && forall l :: 0 <= l < |rows| && Coerce(rows[l].Get(m)).Some?
                                  ==> Coerce(rows[k].Get(m)).value <= Coerce(rows[l].Get(m)).value
  {
    Best(rows, m).Some? && Coerce(rows[k].Get(m)) == Some(Best(rows, m).value)
  }

  /** Some cell of a column is green as soon as one value in it is numeric, and no green cell is beaten. */
  lemma HighlightIsMinimum(rows: seq<ComparisonRow>, m: Metric)
    ensures (exists k :: 0 <= k < |rows| && Highlighted(rows, k, m))
            <==> exists k :: 0 <= k < |rows| && Coerce(rows[k].Get(m)).Some?
    ensures forall k, l ::
              (0 <= k < |rows| && 0 <= l < |rows| && Highlighted(rows, k, m) && Coerce(rows[l].Get(m)).Some?)
              ==> Coerce(rows[k].Get(m)).value <= Coerce(rows[l].Get(m)).value
  {
    if exists k :: 0 <= k < |rows| && Coerce(rows[k].Get(m)).Some? {
      var k :| 0 <= k < |rows| && Coerce(rows[k].Get(m)) == Some(Best(rows, m).value);
      assert Highlighted(rows, k, m);
    }
  }
}

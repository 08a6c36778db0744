/**
 * Reading the workbook (`load_data`).  The "Part 1" sheet holds three
 * equipment sections stacked in column B, each opened by a header row, and
 * the battery/tank lookup in columns J to P; the "Part 2" sheet holds the TDS
 * and depth lookups.  Cell values are kept as read, with one exception:
 * building an equipment table turns the missing cells of a column that holds
 * numbers and no text into NaN, as pandas' column type inference does.
 */
module Loader {
  import opened Wrappers
  import opened Cells
  import opened Tables
  import opened Formatting

  /**
   * A worksheet: the values of its non-empty cells by 1-based (row, column),
   * and its last used row.  Every other cell reads as blank (openpyxl `None`).
   */
  datatype Sheet = Sheet(cells: map<(int, int), Cell>, maxRow: nat)

  function CellAt(ws: Sheet, r: int, c: int): Cell {
    if (r, c) in ws.cells then ws.cells[(r, c)] else Blank
  }

  /** A workbook: its sheets by name. */
  datatype Workbook = Workbook(sheets: map<string, Sheet>)

  /** An equipment row as read: every column, the name included, is a raw cell. */
  datatype RawRow = RawRow(
    name: Cell,
    quantity: Cell,
    costUsd: Cell,
    energyKw: Cell,
    landAreaM2: Cell,
    lifespanYears: Cell)
  {
    function Get(col: Column): Cell {
      match col
      case Quantity => quantity
      case CostUsd => costUsd
      case EnergyKw => energyKw
      case LandAreaM2 => landAreaM2
      case LifespanYears => lifespanYears
    }
  }

  /** Columns B to G of row `r`. */
  function RawAt(ws: Sheet, r: int): RawRow {
    RawRow(CellAt(ws, r, 2), CellAt(ws, r, 3), CellAt(ws, r, 4), CellAt(ws, r, 5), CellAt(ws, r, 6), CellAt(ws, r, 7))
  }

  // ---------------------------------------------------------------------------
  // One equipment section
  // ---------------------------------------------------------------------------

  /** Section-total rows carry "Total" in column B. */
  predicate IsTotal(ws: Sheet, r: int) {
    CellAt(ws, r, 2) == Text("Total")
  }

  /** A row that ends a section: past the last row, a stop row, or a blank name. */
  predicate EndsSection(ws: Sheet, r: int, stopRows: set<int>) {
    r > ws.maxRow || r in stopRows || CellAt(ws, r, 2).Blank?
  }

  /** The first row from `r` on that ends the section. */
  function SectionEnd(ws: Sheet, r: int, stopRows: set<int>): (e: int)
    ensures r <= e && EndsSection(ws, e, stopRows)
    ensures forall q :: r <= q < e ==> !EndsSection(ws, q, stopRows)
    decreases ws.maxRow + 1 - r
  {
    if EndsSection(ws, r, stopRows) then r else SectionEnd(ws, r + 1, stopRows)
  }

  /** The rows in `[lo, hi)` that are not total rows, in sheet order. */
  function Kept(ws: Sheet, lo: int, hi: int): seq<int>
    decreases hi - lo
  {
    if hi <= lo then []
    else if IsTotal(ws, hi - 1) then Kept(ws, lo, hi - 1)
    else Kept(ws, lo, hi - 1) + [hi - 1]
  }

  /** `Kept` lists, in increasing order, exactly the rows of the range that are not total rows. */
  lemma {:induction false} KeptRows(ws: Sheet, lo: int, hi: int)
    ensures forall k :: 0 <= k < |Kept(ws, lo, hi)| ==> lo <= Kept(ws, lo, hi)[k] < hi && !IsTotal(ws, Kept(ws, lo, hi)[k])
    ensures forall q :: lo <= q < hi && !IsTotal(ws, q) ==> q in Kept(ws, lo, hi)
    ensures forall k, l :: 0 <= k < l < |Kept(ws, lo, hi)| ==> Kept(ws, lo, hi)[k] < Kept(ws, lo, hi)[l]
    decreases hi - lo
  {
    if hi > lo {
      KeptRows(ws, lo, hi - 1);
    }
  }

  /** Row numbers `_parse_section` reads after `headerRow`. */
  function SectionRows(ws: Sheet, headerRow: int, stopRows: set<int>): seq<int> {
    Kept(ws, headerRow + 1, SectionEnd(ws, headerRow + 1, stopRows))
  }

  function Raws(ws: Sheet, rows: seq<int>): (r: seq<RawRow>)
    ensures |r| == |rows| && forall k :: 0 <= k < |rows| ==> r[k] == RawAt(ws, rows[k])
  {
    seq(|rows|, k requires 0 <= k < |rows| => RawAt(ws, rows[k]))
  }

  /** `_parse_section`: the equipment rows below a header, up to the first row that ends the section. */
  function ParseSection(ws: Sheet, headerRow: int, stopRows: set<int>): (rows: seq<RawRow>)
    ensures forall k :: 0 <= k < |rows| ==> !rows[k].name.Blank? && rows[k].name != Text("Total")
  {
    var rs := SectionRows(ws, headerRow, stopRows);
    KeptRows(ws, headerRow + 1, SectionEnd(ws, headerRow + 1, stopRows));
    assert forall k :: 0 <= k < |rs| ==> !EndsSection(ws, rs[k], stopRows);
    Raws(ws, rs)
  }

  /**
   * The rows read are exactly the non-total rows strictly between the header
   * and the first row that ends the section, and none of them is a stop row.
   */
  lemma SectionRowsExactly(ws: Sheet, headerRow: int, stopRows: set<int>, q: int)
    ensures q in SectionRows(ws, headerRow, stopRows) <==>
            headerRow < q && !IsTotal(ws, q) && forall p :: headerRow < p <= q ==> !EndsSection(ws, p, stopRows)
  {
    var e := SectionEnd(ws, headerRow + 1, stopRows);
    var rs := SectionRows(ws, headerRow, stopRows);
    KeptRows(ws, headerRow + 1, e);
    if q in rs {
      var k :| 0 <= k < |rs| && rs[k] == q;
    }
    if headerRow < q && !IsTotal(ws, q) && forall p :: headerRow < p <= q ==> !EndsSection(ws, p, stopRows) {
      assert q < e;
    }
  }

  /** A section never reaches past its stop row. */
  lemma SectionStopsBeforeStopRow(ws: Sheet, headerRow: int, stop: int)
    requires headerRow < stop
    ensures forall k :: 0 <= k < |SectionRows(ws, headerRow, {stop})| ==>
              headerRow < SectionRows(ws, headerRow, {stop})[k] < stop
  {
    var e := SectionEnd(ws, headerRow + 1, {stop});
    KeptRows(ws, headerRow + 1, e);
    assert EndsSection(ws, stop, {stop});
  }

  /** A section with a total row between its two items, followed by the next section's header. */
  const TotalRowSheet: Sheet :=
    Sheet(map[(1, 2) := Text("Electrical Components"), (2, 2) := Text("Turbine"), (3, 2) := Text("Total"),
              (4, 2) := Text("PLC"), (5, 2) := Text("Mechanical Components")], 5)

  /**
   * A total row inside a section is skipped and reading goes on past it; the
   * next section's header stops it.
   */
  lemma TotalRowSkipped()
    ensures SectionRows(TotalRowSheet, 1, {5}) == [2, 4]
  {
    var ws := TotalRowSheet;
    assert !EndsSection(ws, 2, {5}) && !EndsSection(ws, 3, {5}) && !EndsSection(ws, 4, {5});
    EndIsFirstStop(ws, 2, 5, {5});
    assert IsTotal(ws, 3) && !IsTotal(ws, 2) && !IsTotal(ws, 4);
    KeptStep(ws, 2, 2);
    KeptStep(ws, 2, 3);
    KeptStep(ws, 2, 4);
  }

  lemma RawsSnoc(ws: Sheet, rows: seq<int>, q: int)
    ensures Raws(ws, rows + [q]) == Raws(ws, rows) + [RawAt(ws, q)]
  {
  }

  /** The loop of `_parse_section`, with its `break` and `continue`. */
  method ParseSectionLoop(ws: Sheet, headerRow: int, stopRows: set<int>) returns (rows: seq<RawRow>)
    ensures rows == ParseSection(ws, headerRow, stopRows)
  {
    rows := [];
    var r := headerRow + 1;
    ghost var e := SectionEnd(ws, headerRow + 1, stopRows);
    while r < ws.maxRow + 1
      invariant headerRow + 1 <= r <= e
      invariant rows == Raws(ws, Kept(ws, headerRow + 1, r))
      decreases ws.maxRow + 1 - r
    {
      if r in stopRows {
        break;
      }
      var name := CellAt(ws, r, 2);
      if name.Blank? {
        break;
      }
      BeforeSectionEnd(ws, headerRow + 1, r, stopRows);
      LoopStep(ws, headerRow + 1, r, rows);
      if !IsTotal(ws, r) {
        rows := rows + [RawAt(ws, r)];
      }
      r := r + 1;
    }
    LoopResult(ws, headerRow, stopRows, r, rows);
  }

  /** Rows read up to the first row that ends the section are the section. */
  lemma LoopResult(ws: Sheet, headerRow: int, stopRows: set<int>, r: int, rows: seq<RawRow>)
    requires headerRow + 1 <= r <= SectionEnd(ws, headerRow + 1, stopRows) && EndsSection(ws, r, stopRows)
    requires rows == Raws(ws, Kept(ws, headerRow + 1, r))
    ensures rows == ParseSection(ws, headerRow, stopRows)
  {
    StopIsSectionEnd(ws, headerRow + 1, r, stopRows);
  }

  /** A row inside the section that does not end it is not the section's end. */
  lemma BeforeSectionEnd(ws: Sheet, lo: int, r: int, stopRows: set<int>)
    requires lo <= r <= SectionEnd(ws, lo, stopRows) && !EndsSection(ws, r, stopRows)
    ensures r < SectionEnd(ws, lo, stopRows)
  {
  }

  /** The first row that ends the section, reached from inside it, is the section's end. */
  lemma StopIsSectionEnd(ws: Sheet, lo: int, r: int, stopRows: set<int>)
    requires lo <= r <= SectionEnd(ws, lo, stopRows) && EndsSection(ws, r, stopRows)
    ensures r == SectionEnd(ws, lo, stopRows)
  {
  }

  /** One more row read: a total row adds nothing, any other row adds its raw cells. */
  lemma LoopStep(ws: Sheet, lo: int, r: int, rows: seq<RawRow>)
    requires lo <= r && rows == Raws(ws, Kept(ws, lo, r))
    ensures Raws(ws, Kept(ws, lo, r + 1)) == if IsTotal(ws, r) then rows else rows + [RawAt(ws, r)]
  {
    KeptStep(ws, lo, r);
    RawsSnoc(ws, Kept(ws, lo, r), r);
  }

  lemma KeptStep(ws: Sheet, lo: int, r: int)
    requires lo <= r
    ensures Kept(ws, lo, r + 1) == if IsTotal(ws, r) then Kept(ws, lo, r) else Kept(ws, lo, r) + [r]
  {
  }

  /** A row that ends the section, with nothing before it that does, is the section end. */
  lemma EndIsFirstStop(ws: Sheet, lo: int, r: int, stopRows: set<int>)
    requires lo <= r && EndsSection(ws, r, stopRows)
    requires forall q :: lo <= q < r ==> !EndsSection(ws, q, stopRows)
    ensures SectionEnd(ws, lo, stopRows) == r
  {
  }

  // ---------------------------------------------------------------------------
  // Fixed-range lookups
  // ---------------------------------------------------------------------------

  /** Columns J to P of row `r`. */
  function BatteryAt(ws: Sheet, r: int): BatteryRow {
    BatteryRow(CellAt(ws, r, 10), CellAt(ws, r, 11), CellAt(ws, r, 12), CellAt(ws, r, 13),
               CellAt(ws, r, 14), CellAt(ws, r, 15), CellAt(ws, r, 16))
  }

  /** `_parse_battery_lookup`: rows 4 to 14 of "Part 1", whatever they hold. */
  function ParseBatteryLookup(ws: Sheet): (t: seq<BatteryRow>)
    ensures |t| == 11
    ensures forall k :: 0 <= k < 11 ==> t[k] == BatteryAt(ws, k + 4)
  {
    seq(11, k requires 0 <= k < 11 => BatteryAt(ws, k + 4))
  }

  datatype LoadError =
    | FileNotFound
    | MissingSheet(sheet: string)
    | MissingSections(missing: seq<string>)

  /**
   * `_parse_part2_lookups`: rows 2 to 21 of "Part 2"; TDS from columns A
   * and B, depth from columns D and E.
   */
  function ParsePart2Lookups(wb: Workbook): (r: Result<(seq<LookupRow>, seq<LookupRow>), LoadError>)
    ensures r.Failure? <==> "Part 2" !in wb.sheets
    ensures r.Failure? ==> r.error == MissingSheet("Part 2")
    ensures r.Success? ==> |r.value.0| == 20 && |r.value.1| == 20
    ensures r.Success? ==> forall k :: 0 <= k < 20 ==>
              r.value.0[k] == LookupRow(CellAt(wb.sheets["Part 2"], k + 2, 1), CellAt(wb.sheets["Part 2"], k + 2, 2))
    ensures r.Success? ==> forall k :: 0 <= k < 20 ==>
              r.value.1[k] == LookupRow(CellAt(wb.sheets["Part 2"], k + 2, 4), CellAt(wb.sheets["Part 2"], k + 2, 5))
  {
    if "Part 2" !in wb.sheets then Failure(MissingSheet("Part 2"))
    else
      var ws := wb.sheets["Part 2"];
      Success((seq(20, k requires 0 <= k < 20 => LookupRow(CellAt(ws, k + 2, 1), CellAt(ws, k + 2, 2))),
               seq(20, k requires 0 <= k < 20 => LookupRow(CellAt(ws, k + 2, 4), CellAt(ws, k + 2, 5)))))
  }

  // ---------------------------------------------------------------------------
  // Locating the sections
  // ---------------------------------------------------------------------------

  /** `SECTION_HEADERS`; "Miscalleneous" is spelled as the workbook spells it. */
  const SectionHeaders: map<string, string> := map[
    "Electrical Components" := "electrical",
    "Mechanical Components" := "mechanical",
    "Miscalleneous" := "miscellaneous"]

  /** The required section keys, in sorted order. */
  const RequiredSections: seq<string> := ["electrical", "mechanical", "miscellaneous"]

  /** The section a column-B cell opens, if it is a header. */
  function HeaderAt(ws: Sheet, r: int): Option<string> {
    match CellAt(ws, r, 2)
    case Text(h) => if h in SectionHeaders then Some(SectionHeaders[h]) else None
    case _ => None
  }

  /**
   * The header scan over rows 1 to `upto`: each section key maps to the row
   * of its header, and a header that appears twice is found at its last row.
   */
  function ScanHeaders(ws: Sheet, upto: int): (m: map<string, int>)
    ensures forall key :: key in m ==> 1 <= m[key] <= upto && HeaderAt(ws, m[key]) == Some(key)
    ensures forall r :: 1 <= r <= upto && HeaderAt(ws, r).Some? ==>
              HeaderAt(ws, r).value in m && r <= m[HeaderAt(ws, r).value]
    decreases upto
  {
    if upto < 1 then map[]
    else
      var m := ScanHeaders(ws, upto - 1);
      match HeaderAt(ws, upto)
      case Some(key) => m[key := upto]
      case None => m
  }

  /** `sorted(required - found)`. */
  function MissingFrom(keys: seq<string>, found: map<string, int>): (r: seq<string>)
    ensures forall x :: x in r <==> x in keys && x !in found
    ensures |r| <= |keys|
  {
    if keys == [] then []
    else (if keys[0] in found then [] else [keys[0]]) + MissingFrom(keys[1..], found)
  }

  /** Plain lexicographic order on strings, as Python compares them. */
  predicate StringLess(a: string, b: string) {
    if a == [] then b != []
    else b != [] && (a[0] < b[0] || (a[0] == b[0] && StringLess(a[1..], b[1..])))
  }

  lemma RequiredSectionsSorted()
    ensures SortedStrings(RequiredSections)
  {
    assert "mechanical"[1..] == "echanical" && "miscellaneous"[1..] == "iscellaneous";
    assert StringLess(RequiredSections[0], RequiredSections[1]);
    assert StringLess(RequiredSections[1], RequiredSections[2]);
    assert StringLess(RequiredSections[0], RequiredSections[2]);
  }

  /** The three equipment sections, the battery lookup and the Part 2 lookups, cells as read. */
  datatype Loaded = Loaded(
    electrical: seq<RawRow>,
    mechanical: seq<RawRow>,
    miscellaneous: seq<RawRow>,
    batteryLookup: seq<BatteryRow>,
    tdsLookup: seq<LookupRow>,
    depthLookup: seq<LookupRow>)

  /**
   * `load_data`.  The workbook is `None` when the file does not exist.  The
   * Part 2 lookups are read before Part 1 is looked at, so a workbook
   * missing both sheets reports Part 2.
   */
  function LoadData(file: Option<Workbook>): (r: Result<Loaded, LoadError>)
    ensures r.Success? ==> |r.value.batteryLookup| == 11 && |r.value.tdsLookup| == 20 && |r.value.depthLookup| == 20
  {
    if file.None? then Failure(FileNotFound)
    else
      var wb := file.value;
      var lookups :- ParsePart2Lookups(wb);
      if "Part 1" !in wb.sheets then Failure(MissingSheet("Part 1"))
      else ReadPart1(wb.sheets["Part 1"], lookups)
  }

  /** Steps 3 to 6 of `load_data`: locate the sections, check all three are there, read them. */
  function ReadPart1(ws: Sheet, lookups: (seq<LookupRow>, seq<LookupRow>)): (r: Result<Loaded, LoadError>)
    ensures r.Success? ==> |r.value.batteryLookup| == 11 && r.value.tdsLookup == lookups.0 && r.value.depthLookup == lookups.1
    ensures r.Success? <==> HasAllSections(ScanHeaders(ws, ws.maxRow))
    ensures r.Success? ==> r.value == ReadSections(ws, ScanHeaders(ws, ws.maxRow), lookups)
  {
    var found := ScanHeaders(ws, ws.maxRow);
    var missing := MissingFrom(RequiredSections, found);
    NothingMissingIff(found);
    if missing != [] then Failure(MissingSections(missing))
    else Success(ReadSections(ws, found, lookups))
  }

  /** The header scan found all three sections. */
  predicate HasAllSections(found: map<string, int>) {
    "electrical" in found && "mechanical" in found && "miscellaneous" in found
  }

  /** Nothing is reported missing exactly when all three sections were found. */
  lemma NothingMissingIff(found: map<string, int>)
    ensures MissingFrom(RequiredSections, found) == [] <==> HasAllSections(found)
  {
    var m := MissingFrom(RequiredSections, found);
    if m != [] {
      assert m[0] in m;
    }
  }

  /** Reading the three sections once their headers are found: each runs to the next one's header. */
  function ReadSections(ws: Sheet, found: map<string, int>, lookups: (seq<LookupRow>, seq<LookupRow>)): (l: Loaded)
    requires HasAllSections(found)
    ensures |l.batteryLookup| == 11 && l.tdsLookup == lookups.0 && l.depthLookup == lookups.1
  {
    var elec := found["electrical"];
    var mech := found["mechanical"];
    var misc := found["miscellaneous"];
    Loaded(
      ParseSection(ws, elec, {mech}),
      ParseSection(ws, mech, {misc}),
      ParseSection(ws, misc, {}),
      ParseBatteryLookup(ws),
      lookups.0,
      lookups.1)
  }

  /** Part 1 has a header row for `key` somewhere in column B. */
  predicate HasHeader(ws: Sheet, key: string) {
    exists r :: 1 <= r <= ws.maxRow && HeaderAt(ws, r) == Some(key)
  }

  /** Loading fails exactly for a missing file, a missing sheet or a missing section header, reported in that order. */
  lemma LoadFailsIff(file: Option<Workbook>)
    ensures LoadData(file).Failure? <==>
              || file.None?
              || "Part 2" !in file.value.sheets
              || "Part 1" !in file.value.sheets
              || exists key :: key in RequiredSections && !HasHeader(file.value.sheets["Part 1"], key)
    ensures file.None? ==> LoadData(file) == Failure(FileNotFound)
    ensures file.Some? && "Part 2" !in file.value.sheets ==> LoadData(file) == Failure(MissingSheet("Part 2"))
    ensures file.Some? && "Part 2" in file.value.sheets && "Part 1" !in file.value.sheets ==>
              LoadData(file) == Failure(MissingSheet("Part 1"))
  {
    if file.Some? && "Part 2" in file.value.sheets && "Part 1" in file.value.sheets {
      var ws := file.value.sheets["Part 1"];
      var found := ScanHeaders(ws, ws.maxRow);
      forall key | key in RequiredSections
        ensures key in found <==> HasHeader(ws, key)
      {
        if HasHeader(ws, key) {
          var r :| 1 <= r <= ws.maxRow && HeaderAt(ws, r) == Some(key);
        }
      }
      var missing := MissingFrom(RequiredSections, found);
      if missing != [] {
        assert missing[0] in missing;
      }
    }
  }

  /** The missing sections are reported sorted, each one exactly once. */
  lemma MissingSectionsReport(file: Option<Workbook>, ws: Sheet)
    requires LoadData(file).Failure? && LoadData(file).error.MissingSections?
    requires ws == file.value.sheets["Part 1"]
    ensures forall key :: key in LoadData(file).error.missing <==> key in RequiredSections && !HasHeader(ws, key)
    ensures 1 <= |LoadData(file).error.missing| <= 3
    ensures SortedStrings(LoadData(file).error.missing)
  {
    var found := ScanHeaders(ws, ws.maxRow);
    forall key | key in RequiredSections
      ensures key in found <==> HasHeader(ws, key)
    {
      if HasHeader(ws, key) {
        var r :| 1 <= r <= ws.maxRow && HeaderAt(ws, r) == Some(key);
      }
    }
    MissingIsOrdered(found);
  }

  predicate SortedStrings(s: seq<string>) {
    forall i, j :: 0 <= i < j < |s| ==> StringLess(s[i], s[j])
  }

  /** Filtering keeps a sorted list sorted. */
  lemma {:induction false} MissingFromSorted(keys: seq<string>, found: map<string, int>)
    requires SortedStrings(keys)
    ensures SortedStrings(MissingFrom(keys, found))
  {
    if keys != [] {
      var tail := keys[1..];
      assert SortedStrings(tail) by {
        forall i, j | 0 <= i < j < |tail| ensures StringLess(tail[i], tail[j]) {
          assert tail[i] == keys[i + 1] && tail[j] == keys[j + 1];
        }
      }
      MissingFromSorted(tail, found);
      var rest := MissingFrom(tail, found);
      forall x | x in rest ensures StringLess(keys[0], x) {
        var j :| 0 <= j < |tail| && tail[j] == x;
        assert keys[j + 1] == x;
      }
    }
  }

  lemma MissingIsOrdered(found: map<string, int>)
    ensures SortedStrings(MissingFrom(RequiredSections, found))
  {
    RequiredSectionsSorted();
    MissingFromSorted(RequiredSections, found);
  }

  /**
   * On success each section is read from its header's last occurrence up to
   * the next section's header: electrical stops at mechanical, mechanical
   * at miscellaneous, miscellaneous at the first blank name or the last row.
   */
  lemma LoadedSections(file: Option<Workbook>, ws: Sheet, found: map<string, int>)
    requires LoadData(file).Success?
    requires ws == file.value.sheets["Part 1"] && found == ScanHeaders(ws, ws.maxRow)
    ensures HasAllSections(found)
    ensures LoadData(file).value.electrical == ParseSection(ws, found["electrical"], {found["mechanical"]})
    ensures LoadData(file).value.mechanical == ParseSection(ws, found["mechanical"], {found["miscellaneous"]})
    ensures LoadData(file).value.miscellaneous == ParseSection(ws, found["miscellaneous"], {})
    ensures LoadData(file).value.batteryLookup == ParseBatteryLookup(ws)
  {
    var lookups := ParsePart2Lookups(file.value).value;
    Part1IsRead(file);
    ReadPart1Sections(ws, lookups, found);
  }

  /** Once both sheets are present, loading is reading Part 1. */
  lemma Part1IsRead(file: Option<Workbook>)
    requires file.Some? && "Part 2" in file.value.sheets && "Part 1" in file.value.sheets
    ensures LoadData(file) == ReadPart1(file.value.sheets["Part 1"], ParsePart2Lookups(file.value).value)
  {
  }

  lemma ReadPart1Sections(ws: Sheet, lookups: (seq<LookupRow>, seq<LookupRow>), found: map<string, int>)
    requires ReadPart1(ws, lookups).Success? && found == ScanHeaders(ws, ws.maxRow)
    ensures HasAllSections(found)
    ensures ReadPart1(ws, lookups).value.electrical == ParseSection(ws, found["electrical"], {found["mechanical"]})
    ensures ReadPart1(ws, lookups).value.mechanical == ParseSection(ws, found["mechanical"], {found["miscellaneous"]})
    ensures ReadPart1(ws, lookups).value.miscellaneous == ParseSection(ws, found["miscellaneous"], {})
    ensures ReadPart1(ws, lookups).value.batteryLookup == ParseBatteryLookup(ws)
  {
  }

  // ---------------------------------------------------------------------------
  // From raw rows to equipment tables
  // ---------------------------------------------------------------------------

  /** The name of an equipment row as the rest of the dashboard compares it. */
  function NameText(c: Cell): string {
    match c
    case Text(s) => s
    case _ => ""
  }

  /**
   * How `pd.DataFrame(rows, columns=...)` types a column: one that holds no
   * text and at least one number becomes float64, and its missing cells NaN;
   * any other column keeps its values, `None` included, as objects.
   */
  predicate NumericColumn(raw: seq<RawRow>, col: Column) {
    && (forall k :: 0 <= k < |raw| ==> !raw[k].Get(col).Text?)
    && (exists k :: 0 <= k < |raw| && (raw[k].Get(col).Num? || raw[k].Get(col).NotANumber?))
  }

  /** The cell the data frame holds for row `k` of column `col`. */
  function FrameCell(raw: seq<RawRow>, k: nat, col: Column): Cell
    requires k < |raw|
  {
    if raw[k].Get(col).Blank? && NumericColumn(raw, col) then NotANumber else raw[k].Get(col)
  }

  /**
   * An equipment data frame: every present cell is kept, a missing cell
   * becomes NaN exactly in a numeric column, and no number changes.
   */
  function ToTable(raw: seq<RawRow>): (t: Table)
    ensures |t| == |raw|
    ensures forall k :: 0 <= k < |raw| ==> raw[k].name.Text? ==> t[k].name == raw[k].name.text
    ensures forall k, col :: 0 <= k < |raw| && !raw[k].Get(col).Blank? ==> t[k].Get(col) == raw[k].Get(col)
    ensures forall k, col :: 0 <= k < |raw| && raw[k].Get(col).Blank? ==>
              (t[k].Get(col).Blank? || t[k].Get(col).NotANumber?)
              && (t[k].Get(col).NotANumber? <==> NumericColumn(raw, col))
    ensures forall k, col :: 0 <= k < |raw| ==> Coerce(t[k].Get(col)) == Coerce(raw[k].Get(col))
  {
    seq(|raw|, k requires 0 <= k < |raw| =>
      Row(NameText(raw[k].name), FrameCell(raw, k, Quantity), FrameCell(raw, k, CostUsd), FrameCell(raw, k, EnergyKw),
          FrameCell(raw, k, LandAreaM2), FrameCell(raw, k, LifespanYears)))
  }

  /**
   * What that means on screen: a missing cell reads "N/A" in a column that
   * also holds text, and "nan" in a column of numbers.
   */
  lemma MissingCellDisplay(raw: seq<RawRow>, k: nat, col: Column)
    requires k < |raw| && raw[k].Get(col).Blank?
    ensures !NumericColumn(raw, col) ==> Fmt(ToTable(raw)[k].Get(col)) == NotAvailable
    ensures NumericColumn(raw, col) ==> Fmt(ToTable(raw)[k].Get(col)) == Verbatim("nan")
  {
  }

  /**
   * `t` is `raw` as a frame: same rows, the text names, every cell that was
   * written, and a missing cell NaN exactly in a column of numbers.
   */
  predicate KeepsCells(raw: seq<RawRow>, t: Table) {
    && |t| == |raw|
    && (forall k :: 0 <= k < |raw| && raw[k].name.Text? ==> t[k].name == raw[k].name.text)
    && (forall k, col :: 0 <= k < |raw| && !raw[k].Get(col).Blank? ==> t[k].Get(col) == raw[k].Get(col))
    && (forall k, col :: 0 <= k < |raw| && raw[k].Get(col).Blank? ==>
          (t[k].Get(col).Blank? || t[k].Get(col).NotANumber?)
          && (t[k].Get(col).NotANumber? <==> NumericColumn(raw, col)))
  }

  /**
   * The dictionary `load_data` returns, as the dashboard consumes it: each
   * equipment table is its section turned into a frame, keeping names, text
   * and numbers, and the lookups are passed on as read.
   */
  function ToDashboard(l: Loaded): (d: Dashboard)
    ensures d.electrical == ToTable(l.electrical) && d.mechanical == ToTable(l.mechanical)
            && d.miscellaneous == ToTable(l.miscellaneous)
    ensures KeepsCells(l.electrical, d.electrical) && KeepsCells(l.mechanical, d.mechanical)
            && KeepsCells(l.miscellaneous, d.miscellaneous)
    ensures |d.electrical| == |l.electrical| && |d.mechanical| == |l.mechanical| && |d.miscellaneous| == |l.miscellaneous|
    ensures forall k, col :: 0 <= k < |l.electrical| ==> Coerce(d.electrical[k].Get(col)) == Coerce(l.electrical[k].Get(col))
    ensures forall k, col :: 0 <= k < |l.mechanical| ==> Coerce(d.mechanical[k].Get(col)) == Coerce(l.mechanical[k].Get(col))
    ensures forall k, col :: 0 <= k < |l.miscellaneous| ==>
              Coerce(d.miscellaneous[k].Get(col)) == Coerce(l.miscellaneous[k].Get(col))
    ensures d.batteryLookup == l.batteryLookup && d.tdsLookup == l.tdsLookup && d.depthLookup == l.depthLookup
  {
    Dashboard(ToTable(l.electrical), ToTable(l.mechanical), ToTable(l.miscellaneous),
              l.batteryLookup, l.tdsLookup, l.depthLookup)
  }
}

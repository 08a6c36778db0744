# Desalination dashboard: aggregation engine and decision logic in Dafny

This project models the computational core of a dashboard that compares
three ways of building a small desalination plant: mechanical, electrical
and a hybrid assembled from miscellaneous parts. Equipment is read from a
two-sheet workbook. The model covers:

- **Loading.** Section headers are located in column B of "Part 1". Each
  section's rows are read up to the next section or a blank name, and
  "Total" rows are skipped. The 11-row battery/tank lookup and the two
  20-row lookups of "Part 2" are read. A missing sheet or section is an
  error value.
- **Cells.** A cell is a number, text, blank or NaN. Numeric coercion
  (`pd.to_numeric(..., errors="coerce")`) is one total function
  `Cell -> Option<real>`.
- **The aggregation engine.**
  - The RAG ranker (`rag_color`) colours systems green, yellow and red.
  - The scorecard sums per system.
  - The first-match stage classifier uses the `PROCESS_STAGES` table, with
    its trailing-space names copied exactly.
  - Battery cost is interpolated by clamped piecewise-linear lookup.
  - The replacement-schedule cost projection is turned into a running total.
  - The chart-data bundle combines all of these.
- **Decision logic around the engine.**
  - The scorecard's green counts and best-overall verdict.
  - The stage grouping and hybrid gate of the equipment grid.
  - The cross-system comparison and its per-column best value.
  - The hybrid builder's dropdown options, slot store, Clear All and slot
    counter.
  - Which branch each display formatter takes.

Money, power and land are Dafny `real`: the arithmetic is exact, not IEEE
floating point.

Each module follows one source file, or one part of one:

| Module | Models |
|---|---|
| `Wrappers` | `Option` and `Result` |
| `Cells` | Cells, coercion, lifespan spelling and truncation |
| `Tables` | Equipment rows and column sums |
| `Config` | `PROCESS_STAGES` and `RAG_COLORS` |
| `StageLookup` | `get_equipment_stage` |
| `Rag` | `rag_color` |
| `Metrics` | `compute_scorecard_metrics` |
| `Interpolation` | `interpolate_battery_cost` and `battery_ratio_label` |
| `CostSeries` | `compute_cost_over_time` |
| `ChartData` | `compute_chart_data` |
| `Formatting` | `fmt_cost`, `fmt_num`, `fmt` and the grid's `_fmt_*` |
| `Scorecard` | `make_scorecard_table` |
| `EquipmentGrid` | `make_equipment_section` and `_make_cross_system_comparison` |
| `HybridBuilder` | The slot callbacks |
| `Loader` | `load_data` and its parsers |

## Model

| member | source | states |
|---|---|---|
| Cells.Coerce | src/data/processing.py:198-200 | A number coerces to itself; blank and NaN coerce to nothing; text coerces to its decimal reading when it has one |
| Cells.IndefiniteIsMissing | src/data/processing.py:321-323 | "indefinite" and "$ 2500 per ton" do not coerce to a number |
| Cells.IntToStringParses | src/data/processing.py:335-336 | Every integer written in decimal reads back as that integer |
| Cells.ForeignCharDoesNotParse | src/data/processing.py:335-339 | Text holding a character outside digits, sign and point never coerces |
| Cells.IndefiniteSpellings | src/data/processing.py:332 | "indefinite" and " Indefinite\n" count as indefinite after strip and lower-casing; "12" does not |
| Cells.ShortTextNotIndefinite | src/data/processing.py:332 | Text with fewer than ten characters is never indefinite |
| Cells.Strip | src/data/processing.py:332 | The stripped text is a slice of the input, everything cut from either end is white space in the sense of `str.isspace`, the slice neither starts nor ends with white space, and it is empty exactly when the input is all white space |
| Cells.StripLeft | src/data/processing.py:332 | Strips only leading whitespace, and all of it |
| Cells.StripRight | src/data/processing.py:332 | Strips only trailing whitespace, and all of it |
| Cells.Trunc | src/data/processing.py:336 | `int()` truncates toward zero: the result is the integer part of the real, for either sign |
| Cells.RoundHalfEven | src/data/processing.py:284 | `round()` lands within one half of the value, and on an exact half picks the even neighbour |
| Tables.ColumnSumAppend | src/data/processing.py:197-205 | A column sum over two tables joined is the sum of their column sums |
| Tables.ColumnSumSwap | src/data/processing.py:197-205 | Column sums do not depend on the order of the tables joined |
| Tables.ColumnSumSplit | src/data/processing.py:444-450 | Rows kept by a filter and rows it drops together sum to the whole column |
| Tables.ColumnSum | src/data/processing.py:197-205 | A column with no numeric cell sums to 0, and a column of non-negative values has a non-negative sum |
| Config.StagesOf | src/data/processing.py:236-240 | Each known system has its own stage table; an unknown system has none |
| Config.StageTablesAreWellFormed | src/config.py:45-113 | No equipment name appears in two stages of a system, and no stage name twice |
| Config.StageDeclarationOrder | src/config.py:46-112 | Every system declares the five pipeline stages in order; only electrical adds Control; none declares "Other" |
| Config.LookupNamesAreWaterExtraction | src/config.py:47-51 | The mechanical turbine ("250kW aeromotor turbine ", trailing space), the electrical turbine and the battery are all Water Extraction items |
| Config.NearDuplicateNames | src/config.py:49-82 | "Submersible pump " (mechanical) and "Submersible pump" (electrical) are different names; "Calcite bed contactors" is Post-Treatment in both systems |
| Config.RagColorsDistinct | src/config.py:36-40 | The colour keys are exactly red, yellow and green, and their three hex values differ |
| Config.OtherIsNotAStage | src/config.py:45-113 | No system declares a stage called "Other" |
| StageLookup.FirstStageIndex | src/data/processing.py:236-239 | Finds the first stage, in declared order, whose list holds the exact name, or reports that none does |
| StageLookup.EquipmentStage | src/data/processing.py:217-240 | The result is "Other" or a stage of that system, and "Other" exactly when no stage lists the name |
| StageLookup.FirstMatchIsUniqueMatch | src/config.py:45-113 | Where a name is listed in only one stage, first match finds that stage |
| StageLookup.UniqueMatch | src/data/processing.py:236-240 | A name listed in a stage of a system classifies into that stage |
| StageLookup.ControlOnlyInElectrical | src/config.py:87-89 | No mechanical or miscellaneous item, and no item of an unknown system, classifies as Control |
| StageLookup.KnownClassifications | src/config.py:47-82 | The turbine, battery and calcite names classify as their declared stages |
| Rag.Valid | src/data/processing.py:137-140 | Keeps exactly the entries whose value is present |
| Rag.Sort | src/data/processing.py:146-147 | The ranking is a permutation of the valid entries, sorted best first |
| Rag.InsertSorted | src/data/processing.py:146-147 | Inserting into a sorted ranking keeps it sorted |
| Rag.SortKeys | src/data/processing.py:146-147 | Sorting neither adds nor loses a system |
| Rag.Paint | src/data/processing.py:149-164 | Colours every ranked system, by rank alone |
| Rag.RagColor | src/data/processing.py:113-164 | A system gets a colour exactly when its value is present; every colour is green, yellow or red |
| Rag.RagIsPaintedRanking | src/data/processing.py:142-162 | The colour map covers exactly the ranked systems, and a system's colour depends only on its rank |
| Rag.RagColorCounts | src/data/processing.py:142-162 | No valid value gives the empty map. One valid system is green. Otherwise exactly one system is green, exactly one is red, and all between are yellow |
| Rag.RagGreenIsBest | src/data/processing.py:146-156 | The green system's value is at least as good as every valid value, in the metric's direction |
| Rag.RagRedIsWorst | src/data/processing.py:146-162 | Every valid value is at least as good as the red system's |
| Rag.HeadToHead | src/data/processing.py:146-156 | Of two valid systems, the better one is green and the other red; on a tie the first listed wins |
| Rag.RagTieFavoursFirst | src/data/processing.py:146-147 | Equal values keep insertion order: the first listed is green, the second red |
| Rag.RankedTieKeepsOrder | src/data/processing.py:146-147 | The sort is stable on equal values, in both directions |
| Metrics.ScorecardMetrics | src/data/processing.py:171-210 | The keys are exactly mechanical and electrical; each system's cost, land area and efficiency are its table's coerced sums of the cost, land-area and energy columns |
| Metrics.AggregateEmpty | src/data/processing.py:197-205 | An empty table aggregates to zero on all three metrics |
| Metrics.AggregateAppend | src/data/processing.py:197-205 | Each metric grows by the row's coerced value, or by 0 when the cell is not numeric |
| Metrics.AggregateIgnoresNonNumericRow | src/data/processing.py:197-205 | A row without numeric cost, land or energy leaves the aggregate unchanged |
| Metrics.AggregateOrderIndependent | src/data/processing.py:197-205 | The aggregate does not depend on row order |
| Scorecard.GreenDot | src/layout/scorecard.py:103-110 | A system scores a dot exactly when the map colours it green |
| Scorecard.BestOverall | src/layout/scorecard.py:112-117 | Mechanical when its count is strictly larger, Electrical when its count is, Tied otherwise |
| Scorecard.OneGreenPerMetric | src/layout/scorecard.py:88-99 | On each lower-is-better metric exactly one of the two systems is green: mechanical exactly when its value is no larger |
| Scorecard.GreensOfThree | src/layout/scorecard.py:102-110 | A system's green count is the number of the three colour maps that colour it green |
| Scorecard.BuildScorecard | src/layout/scorecard.py:82-117 | Each system's green count is its number of green dots across the cost, land and energy colour maps; the verdict is the one those counts give; the counts sum to 3, so the verdict is never Tied, and mechanical wins exactly with two or more greens |
| Scorecard.IdenticalSystemsFavourMechanical | src/layout/scorecard.py:83-117 | Two identical tables give mechanical all three greens and the verdict |
| Interpolation.LerpEnds | src/data/processing.py:268 | A segment's line passes through both of its end points |
| Interpolation.Interp | src/data/processing.py:268 | `np.interp`: at or below the first sample point the first value, at or above the last the last value, and between two neighbouring sample points the value on their line |
| Interpolation.InterpAtSamplePoint | src/data/processing.py:268 | At a sample point the sample value is returned exactly |
| Interpolation.InterpolateBatteryCost | src/data/processing.py:247-268 | Returns a row's total cost at its tabulated fraction, interpolates linearly between neighbours, and clamps outside the table |
| Interpolation.BatteryRatio | src/data/processing.py:284-286 | The two percentages sum to 100; the battery share is within 0.5 of the fraction times 100; both lie in 0..100 for a fraction in [0, 1] |
| CostSeries.LifespanYears | src/data/processing.py:335-340 | Blank and NaN lifespans do not parse; a numeric lifespan truncates toward zero |
| CostSeries.PaddedLifespanIsRead | src/data/processing.py:335-336 | A whole-number lifespan text padded with any white space, the no-break space included, strips to its digits and reads as that number |
| CostSeries.PaddedLifespanRepeats | src/data/processing.py:331-342 | A row with such a padded lifespan is bought again every that many years |
| CostSeries.RowPlan | src/data/processing.py:321-340 | A non-numeric cost skips the row, even when overridden. Otherwise the cost is the override or the cell's. An indefinite lifespan buys once; a parseable one gives purchases every `LifespanYears` years, the step being exactly that truncated lifespan; an unparseable one buys once |
| CostSeries.AddEvery | src/data/processing.py:341-342 | Adds the cost exactly at the years divisible by the step |
| CostSeries.AddPlan | src/data/processing.py:332-342 | Fails exactly for a replacement step of 0, the `range` error; otherwise the horizon length is kept |
| CostSeries.CumSum | src/data/processing.py:344 | Entry i is the total spend of years 0 through i |
| CostSeries.CostOverTime | src/data/processing.py:289-344 | The series has `years + 1` entries, and fails exactly when the annual spend does |
| CostSeries.Annual | src/data/processing.py:318-342 | A successful annual spend has one entry per year 0..years; its failure, total and year 0 are stated by the lemmas below |
| CostSeries.AnnualFailsIff | src/data/processing.py:341-342 | The projection fails exactly when some priced row's lifespan truncates to 0 |
| CostSeries.FailureHasCause | src/data/processing.py:341-342 | A failed projection names a row whose step is 0 |
| CostSeries.CauseFails | src/data/processing.py:341-342 | A row with step 0 makes the whole projection fail |
| CostSeries.CountMultiplesClosed | src/data/processing.py:341-342 | A step of L over years 0..n makes ⌊n/L⌋+1 purchases |
| CostSeries.SumAddEvery | src/data/processing.py:341-342 | Periodic buying adds the cost once per purchase year to the total |
| CostSeries.AnnualTotal | src/data/processing.py:318-342 | The annual spend adds up to each priced row's cost times its number of purchases |
| CostSeries.HorizonTotal | src/data/processing.py:318-344 | The last entry of the series is the total planned spend over the horizon |
| CostSeries.AnnualYearZero | src/data/processing.py:318-342 | Year 0 holds one purchase of every priced row with a positive step |
| CostSeries.CostOverTimeYearZero | src/data/processing.py:318-344 | The series starts at the year-0 purchases |
| CostSeries.AnnualNonNegative | src/data/processing.py:318-342 | With non-negative costs every year's spend is non-negative |
| CostSeries.CumSumNonDecreasing | src/data/processing.py:344 | The running sum of non-negative spends never decreases |
| CostSeries.CostOverTimeNonDecreasing | src/data/processing.py:289-344 | With non-negative costs the cumulative series never decreases |
| CostSeries.OnceRowIsFlat | src/data/processing.py:332-340 | An item bought once is a flat line at its cost |
| CostSeries.PeriodicRowSteps | src/data/processing.py:341-344 | An item replaced every L years has cost i/L+1 purchases by year i |
| CostSeries.TwoYearItemExample | src/data/processing.py:341-344 | A 1000-dollar item lasting two years over five years costs 1000, 1000, 2000, 2000, 3000, 3000 |
| CostSeries.InertRowChangesNothing | src/data/processing.py:321-342 | A skipped row, or one with a negative lifespan, leaves the series unchanged |
| CostSeries.OverrideReplacesCost | src/data/processing.py:326-327 | An override acts as if the row's own cost were the override |
| CostSeries.OverrideNeedsOwnCost | src/data/processing.py:321-327 | A row whose cost does not coerce adds nothing, even when its name is overridden |
| CostSeries.IndefiniteLifespanBuysOnce | src/data/processing.py:332-333 | An indefinite lifespan, in any spacing or capitalisation, buys once at year 0 |
| CostSeries.MissingLifespanBuysOnce | src/data/processing.py:337-340 | A blank or NaN lifespan buys once at year 0 |
| CostSeries.FractionalLifespan | src/data/processing.py:336-342 | 20.9 years truncates to 20; 0.5 years truncates to 0 and the projection fails |
| CostSeries.TextCostIsSkipped | src/data/processing.py:321-323 | A cost written as text is skipped whatever its lifespan |
| CostSeries.FailureSticks | src/data/processing.py:341-342 | Once a prefix of the rows fails, the whole table fails |
| CostSeries.AddEveryYear | src/data/processing.py:341-342 | The loop adds the cost at every multiple of the step |
| CostSeries.RunningTotal | src/data/processing.py:344 | The loop computes the running sum |
| CostSeries.ComputeCostOverTime | src/data/processing.py:318-344 | The row loop computes the projection, failure included |
| ChartData.TurbineCount | src/data/processing.py:418-423 | A table with no row of that exact name counts 0 turbines |
| ChartData.TurbineGuardIsRedundant | src/data/processing.py:418-423 | The empty-selection guard changes nothing: the count is always the truncated quantity sum over exact-name rows |
| ChartData.TurbineCountIgnoresOtherRows | src/data/processing.py:418-423 | Rows of any other name do not change the count |
| ChartData.EnergyByStage | src/data/processing.py:428-436 | Every key is "Other" or a stage of the system |
| ChartData.EnergyByStageKeys | src/data/processing.py:428-436 | A stage has an entry exactly when one of its rows has a non-zero numeric kW |
| ChartData.EnergyByStageValues | src/data/processing.py:428-436 | A stage's entry is the coerced kW summed over its rows, NaN and zero contributing nothing |
| ChartData.ElectricalTotalCost | src/data/processing.py:444-450 | The live total is the electrical cost sum with the battery rows' own cost replaced by the interpolated cost |
| ChartData.ElectricalOutputs | src/data/processing.py:401-450 | The electrical series starts at the year-0 purchases and ends at the horizon total, both with the interpolated battery cost in place of the battery rows' cost; the live total swaps the battery cost the same way |
| ChartData.YearZeroWithOverride | src/data/processing.py:401-405 | With one priced battery row, year-0 spend under the override equals the non-battery cost sum plus the override |
| ChartData.ComputeChartData | src/data/processing.py:347-474 | Succeeds exactly when both projections do. Both series have `years + 1` entries. The hybrid series, land, turbines and energy are zeros, 0, 0 and empty. Land areas are the column sums. The mechanical series is the cost projection with no override; the electrical series is the projection with the interpolated battery cost overriding the battery row; the live total is that of `ElectricalTotalCost` |
| ChartData.LiveTotalIsYearZero | src/data/processing.py:401-450 | With one priced battery row and positive lifespans, the live electrical total equals year 0 of the electrical series |
| ChartData.ChartFields | src/data/processing.py:391-474 | Turbine counts and energy breakdowns come from their own computations |
| HybridBuilder.SlotsFollowPipeline | src/layout/hybrid_builder.py:58-64 | The slots are the five pipeline stages in order, without Control, and are the miscellaneous table's stages |
| HybridBuilder.StageItems | src/layout/hybrid_builder.py:101 | The items are the declared list of the stage, or empty for an unknown stage |
| HybridBuilder.OptionsFor | src/layout/hybrid_builder.py:102-110 | Every option is labelled by its own value, comes from the items and has a row somewhere; every such item is offered |
| HybridBuilder.OptionsKeepOrder | src/layout/hybrid_builder.py:102-110 | The options are a subsequence of the stage's items |
| HybridBuilder.DropdownOptions | src/layout/hybrid_builder.py:80-112 | Options are labelled by their value, found in some table, and in declared order |
| HybridBuilder.DropdownOffersExactly | src/layout/hybrid_builder.py:101-112 | A name is offered for a slot exactly when that slot's miscellaneous list names it and some table holds it |
| HybridBuilder.OptionsClassifyIntoTheirSlot | src/layout/hybrid_builder.py:101-112 | Every option of a slot classifies back into that slot's stage |
| HybridBuilder.UnknownStageHasNoOptions | src/layout/hybrid_builder.py:101 | A stage the miscellaneous table does not declare has no options |
| HybridBuilder.Assign | src/layout/hybrid_builder.py:270-276 | The store's keys are exactly the given stages |
| HybridBuilder.AssignAt | src/layout/hybrid_builder.py:270-276 | Each stage maps to its own value |
| HybridBuilder.UpdateSlotStore | src/layout/hybrid_builder.py:246-276 | The store holds exactly the five stages, each mapped to its own argument |
| HybridBuilder.ClearAllSlots | src/layout/hybrid_builder.py:288-304 | All five slots are cleared |
| HybridBuilder.FilledCount | src/layout/hybrid_builder.py:324-327 | 0 for a missing store; otherwise at most the number of stages, 0 exactly when no stage holds a selection, and all of them exactly when every stage does |
| HybridBuilder.SlotCounterLabel | src/layout/hybrid_builder.py:324-327 | The label ends in "/5 slots filled" and its leading digits read back as the filled count |
| HybridBuilder.FilledOfAssign | src/layout/hybrid_builder.py:324-327 | The filled stages of a store number its selected values |
| HybridBuilder.CounterCountsSelections | src/layout/hybrid_builder.py:311-327 | The counter reports how many of the five arguments are selected, never more than 5 |
| HybridBuilder.ClearAllEmptiesCounter | src/layout/hybrid_builder.py:304-327 | After Clear All, and for a missing store, the counter reads "0/5 slots filled" |
| HybridBuilder.FullPipelineCounter | src/layout/hybrid_builder.py:311-327 | Five selections read "5/5 slots filled" |
| EquipmentGrid.ClassificationIsDisplayed | src/layout/equipment_grid.py:410-416 | Every classification is a displayed stage, so the "Other" fallback never fires |
| EquipmentGrid.GroupOf | src/layout/equipment_grid.py:406-416 | A stage's group is exactly the positions of its rows, in table order |
| EquipmentGrid.SectionsFrom | src/layout/equipment_grid.py:419-441 | Each section is a non-empty stage group |
| EquipmentGrid.SectionsCover | src/layout/equipment_grid.py:419-441 | A stage that labels some row gets a section |
| EquipmentGrid.SectionsPartitionRows | src/layout/equipment_grid.py:406-441 | Every row appears in exactly one section, the one of its stage |
| EquipmentGrid.SectionsFollowOrder | src/layout/equipment_grid.py:419-441 | Sections come in the order of their stages |
| EquipmentGrid.SectionsInDisplayOrder | src/layout/equipment_grid.py:29-37 | The sections follow the display order of stages |
| EquipmentGrid.NoSectionsIffEmpty | src/layout/equipment_grid.py:442-448 | There are no sections exactly when the table is empty |
| EquipmentGrid.MakeEquipmentSection | src/layout/equipment_grid.py:344-450 | The hybrid gate is closed exactly without a selection, and otherwise shows one item per selected row. Any other system shows "no equipment" exactly for an empty table, and otherwise the stage sections of its table |
| EquipmentGrid.NoEquipmentIffEmpty | src/layout/equipment_grid.py:442-450 | A non-hybrid system says "no equipment" exactly for an empty table |
| EquipmentGrid.ItemIdsDistinct | src/layout/equipment_grid.py:336 | Items of one system never share an id |
| EquipmentGrid.SystemTable | src/layout/equipment_grid.py:173 | The lookup succeeds exactly for the three systems |
| EquipmentGrid.SystemLabels | src/layout/equipment_grid.py:178 | The system column reads "Mechanical", "Electrical" or "Miscellaneous" |
| EquipmentGrid.CurrentRow | src/layout/equipment_grid.py:173-183 | At most one row, present exactly when the item's table has its name; that row is the first row with the name (`.iloc[0]`), with its own cost, energy and land area |
| EquipmentGrid.OtherRows | src/layout/equipment_grid.py:168-199 | Every row is from another of mechanical and electrical, in the stage, and every such row of those systems is included |
| EquipmentGrid.OtherRowsExactly | src/layout/equipment_grid.py:168-199 | The list itself: mechanical's rows in the stage, in table order, then electrical's, each system skipped when it is the item's own; its length is the number of such rows, so each appears exactly once |
| EquipmentGrid.RowsInStage | src/layout/equipment_grid.py:190-199 | The rows of a system that classify into the stage, in table order |
| EquipmentGrid.CrossSystemComparison | src/layout/equipment_grid.py:140-208 | Fails only for an unknown system; a comparison has at least two rows, all in the item's stage |
| EquipmentGrid.CompareWithin | src/layout/equipment_grid.py:166-208 | A comparison is drawn exactly when the item's row and the other systems' same-stage rows number two or more |
| EquipmentGrid.ComparedRowsShareStage | src/layout/equipment_grid.py:185-199 | Every compared row past the item is from another of mechanical and electrical, in the same stage |
| EquipmentGrid.ComparedRowIsOtherRow | src/layout/equipment_grid.py:185-199 | Past the item itself, compared rows are the other systems' rows |
| EquipmentGrid.EveryEquivalentIsCompared | src/layout/equipment_grid.py:185-208 | Every same-stage row of every other system is compared |
| EquipmentGrid.Best | src/layout/equipment_grid.py:210-220 | The best value is missing exactly when no cell coerces. Otherwise it is the smallest numeric value, taken from some row |
| EquipmentGrid.Highlighted | src/layout/equipment_grid.py:210-254 | A cell is green exactly when it is numeric and no numeric cell of its column is smaller |
| EquipmentGrid.HighlightIsMinimum | src/layout/equipment_grid.py:243-250 | Some cell is green once any is numeric, and no green cell is beaten by another numeric cell |
| Formatting.FmtCost | src/data/processing.py:47-55 | "N/A" exactly for a non-numeric cell; a figure exactly for a numeric one, with a "$" prefix, at most one decimal, an "M", "K" or no suffix, and the figure times its unit equal to the value |
| Formatting.FmtCostBranches | src/data/processing.py:51-55 | "M" from a million, "K" from a thousand, plain below; the figure times its unit is the value |
| Formatting.FmtNum | src/data/processing.py:58-77 | "N/A" exactly for blank; other non-numeric cells pass through; numbers show one decimal |
| Formatting.Fmt | src/data/processing.py:80-101 | "N/A" exactly for blank; other non-numeric cells pass through; numbers show no decimals |
| Formatting.FmtAndFmtNumAgree | src/data/processing.py:58-101 | Both take the same branch on every cell and differ only in decimals |
| Formatting.FmtEnergy | src/layout/equipment_grid.py:44-49 | "N/A" exactly for a non-numeric cell; a figure exactly for a numeric one, showing that value in whole kW |
| Formatting.FmtLand | src/layout/equipment_grid.py:52-57 | "N/A" exactly for a non-numeric cell; a figure exactly for a numeric one, showing that value in m² with two decimals |
| Formatting.FmtLifespan | src/layout/equipment_grid.py:60-67 | "N/A" exactly for blank; text such as "indefinite" shows as itself; numbers show as years |
| Formatting.TextHandling | src/data/processing.py:47-101 | Free text shows as itself in the pass-through formatters and as "N/A" in the cost, energy and land ones |
| Loader.SectionEnd | src/data/loader.py:96-102 | The section ends at the first stop row, blank name or the end of the sheet |
| Loader.KeptRows | src/data/loader.py:103-105 | The kept rows are exactly the non-Total rows of the range, in increasing order |
| Loader.ParseSection | src/data/loader.py:71-114 | No returned row has a blank name or the name "Total" |
| Loader.SectionRowsExactly | src/data/loader.py:95-114 | A row is returned exactly when it lies after the header, before the section end, and is not a Total row |
| Loader.SectionStopsBeforeStopRow | src/data/loader.py:96-98 | Every returned row lies strictly between the header and the stop row |
| Loader.TotalRowSkipped | src/data/loader.py:103-105 | A Total row inside a section is skipped and scanning continues past it |
| Loader.ParseSectionLoop | src/data/loader.py:95-114 | The row loop computes the section |
| Loader.ParseBatteryLookup | src/data/loader.py:117-139 | Always 11 rows, taken from sheet rows 4 to 14 |
| Loader.ParsePart2Lookups | src/data/loader.py:142-182 | Fails exactly when "Part 2" is missing; otherwise two 20-row tables from rows 2 to 21 |
| Loader.ScanHeaders | src/data/loader.py:236-242 | Each found key maps to a row holding its header; a header found twice keeps its last row |
| Loader.MissingFrom | src/data/loader.py:245-246 | The missing keys are exactly the required keys without a header |
| Loader.MissingSectionsReport | src/data/loader.py:245-252 | The error lists, sorted, exactly the required sections without a header |
| Loader.NothingMissingIff | src/data/loader.py:245-247 | Nothing is missing exactly when all three sections were found |
| Loader.LoadFailsIff | src/data/loader.py:216-252 | Loading fails exactly for a missing file, a missing sheet or a missing section; the first failing check names the error |
| Loader.LoadedSections | src/data/loader.py:255-268 | Electrical stops at the mechanical header, mechanical at the miscellaneous header, miscellaneous only at a blank name |
| Loader.ReadPart1 | src/data/loader.py:233-278 | Reading Part 1 succeeds exactly when all three sections are found, and keeps the Part 2 lookups |
| Loader.LoadData | src/data/loader.py:189-278 | A loaded workbook has an 11-row battery lookup and two 20-row lookups |
| Loader.ToTable | src/data/loader.py:272-274 | One row per parsed row; present cells are kept; a missing cell becomes NaN exactly in a column with a number and no text; no cell's numeric value changes |
| Loader.MissingCellDisplay | src/data/loader.py:272-274 | A missing cell is shown as "N/A" in a column holding text and as "nan" in a column of numbers |
| Loader.ToDashboard | src/data/loader.py:271-278 | Each equipment table is its section as a frame: same rows, text names kept, every written cell (text or number) kept, a missing cell NaN exactly in a numeric column, numeric values unchanged; the lookups are passed on as read |

## Left out

- Workbook I/O is left out. This covers opening the file with openpyxl and
  the file-existence check; the workbook arrives as an `Option` argument,
  with `None` for a missing file. The `print` logging is left out too.
- All Dash and Plotly construction is left out: components, styles, the
  chart figures, navigation, the error page and app start-up. The views are
  reduced to the decisions they display.
- The module-level `_data`/`set_data` store of the hybrid builder is left
  out; tables are passed explicitly.
- Formatting: the rendering of a figure into digits is not carried out. This
  covers rounding, thousands separators and `str()` of floats. Each
  formatter's branch, prefix, suffix, scaled value and decimal count are
  modelled.
- Cells.Coerce: reads a decimal grammar (sign, digits, optional point).
  Exponents, "inf", "nan", underscores, non-ASCII decimal digits and
  surrounding whitespace in text cells are not modelled. The lifespan
  reading (CostSeries.LifespanYears) does strip surrounding whitespace
  first, as `float()` ignores it.
- Floating-point effects are not modelled: IEEE rounding of sums,
  interpolation and division. Arithmetic is exact over `real`.
- Loader.ToTable: a name cell that is not text becomes the empty name. The
  source keeps the cell's own value and renders it with `str()`, so a row
  named by the number 5 shows as "5" and its comparison looks up "5", which
  matches no row (src/layout/equipment_grid.py:173-174 and 302). In the
  model that row is named "" and its own-row lookup finds
  it. Numeric names are not modelled.
- Loader.ToDashboard: the battery and energy lookups also pass through a
  data frame, where a missing cell of a numeric column becomes NaN. The
  model keeps it blank. Every use of these lookups coerces the cell, and
  blank and NaN coerce alike.
- CostSeries.CostOverTime: the horizon is a `nat`. In the source a horizon
  of -1 gives an empty spend array (`np.zeros(0)`). Priced rows with a
  positive lifespan then add nothing (an empty `range`), so the series is
  empty, while a row bought once raises IndexError at `annual[0]`. A
  horizon below -1 makes numpy raise. None of these negative cases is
  modelled.
- CostSeries.LifespanYears: a numeric text lifespan such as "inf" raises an
  uncaught overflow in the source; this is not modelled, because text is read
  by the decimal grammar above.
- Interpolation.InterpolateBatteryCost: requires a non-empty lookup with
  strictly increasing fractions. This is the input `np.interp` documents it
  needs; its output on other input is not modelled.
- Interpolation.BatteryRatioLabel: the label text itself carries no
  contract; `Interpolation.BatteryRatio` states the two percentages.
- CostSeries.AddEveryYear, CostSeries.RunningTotal, CostSeries.ApplyPlan,
  CostSeries.ComputeCostOverTime and Loader.ParseSectionLoop: these loop
  versions are proved equal to their functional definitions. Their
  properties are the ones proved about those functions.
- ChartData.ChartFields: states only that the turbine counts and energy
  breakdowns come from their own computations; their properties live on
  TurbineCount and EnergyByStage. The cost series and the live total are
  stated on ChartData.ComputeChartData and ChartData.ElectricalOutputs.
- ChartData.LiveTotalIsYearZero: proved only for a table with exactly one
  priced battery row and no zero lifespan.
- Scorecard.BestOverall: the Tied branch is modelled but cannot be reached
  from BuildScorecard. Every metric is a sum and so always valid, and each
  head-to-head gives exactly one green.
- Rag.Sort: ties keep insertion order, as Python's stable `sorted` does even
  with `reverse=True`. No other tie-break is assumed.
- EquipmentGrid.MakeEquipmentSection: the "Other" fallback for an
  unlisted stage is not a separate branch. Every classification is already a
  displayed stage (EquipmentGrid.ClassificationIsDisplayed).
- EquipmentGrid.MakeEquipmentSection: a hybrid item is numbered by its
  row's position. The source uses the selected table's index label
  (src/layout/equipment_grid.py:390-392). The two agree when that table has
  the default 0..n-1 index. No modelled code builds the table, and other
  indexes are not modelled.
- Hybrid composition, comparison sentences, and TDS/depth energy offsets
  (`interpolate_energy`) are left out. The repository's tests
  (tests/test_interpolate_energy.py and
  tests/test_compute_chart_data_sliders.py) call an `interpolate_energy`
  function and `tds_ppm`/`depth_m` arguments, but the modelled source code
  has none of them: the hybrid series is a zero placeholder and
  `compute_chart_data` takes no TDS or depth argument. The model follows
  the code.

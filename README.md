# Earthquakes dashboard — a Dafny model of its views and converter

The dashboard shows NOAA earthquake records in four linked views: a
year × month histogram ("date selection"), a scatterplot of two chosen
numeric attributes, an OpenLayers map with markers and a heatmap, and a
detail panel for one selected earthquake. The views talk to each other
directly: a gesture in one view calls the `update` of the others with a
subset of the records. An offline Python script turns the NOAA TSV
exports into the GeoJSON the dashboard loads.

This project models, module by module:

| module | file | what it models |
|---|---|---|
| `DateSelection` | `date_selection.dfy` | the current histogram: the rollup keys (`parseInt` of year and month, a missing month counting as January), the back-filled year × month grid, the adaptive bucket width, the year ranges, the row labels and their parse on a tick click, the per-range aggregation and the brush highlight |
| `DateSelectionLegacy` | `date_selection_legacy.dfy` | the earlier heat map: rollup flattened by two nested loops, the sorted year domain, the fixed month domain and the colour domain |
| `Scatterplot` | `scatterplot.dfy` | the current scatterplot: which features are plotted, the linear/symlog scale choice, the highlight colours, and the ctrl-brush cross-filter it sends to the other views |
| `ScatterplotLegacy` | `scatterplot_legacy.dfy` | the earlier magnitude/depth scatterplot: click selection by loose equality and the brush |
| `GeoMap` | `geo_map.dfy` | the map as a class: marker and heatmap layers, the click selection, the ctrl drag-box split across wrapped worlds, and the calls it sends |
| `GeoMapStyling` | `geo_map_styling.dfy` | marker colours and radii, the stateful country palette (a class), and the legend |
| `DetailedView` | `detailed_view.dfy` | the detail panel text, the points of interest, the related-tsunami lookup and the date string |
| `TsvToGeoJson` | `tsv_to_geojson.dfy` | the converter loop: rows with usable coordinates become point features |

Shared modules: `Wrappers` (`Option`, `Result`), `Decimal` (integers as
decimal text and back), `JsValues` (GeoJSON features, JavaScript
truthiness, `parseInt`, `Number()` and loose `==`), `Seqs` (filter, dedup
and keyed sums) and `Views` (the `update` calls one view makes on
another).

Conventions:
- Numbers are `real`. A JavaScript `NaN` is `None` where it matters.
- A JavaScript `TypeError` (reading a property of `undefined`) is a
  `Throws` result.
- Cross-view calls are returned as a sequence of `ViewCall` values, in
  call order.
- What only the runtime can supply is a parameter:
  - the map projection;
  - the d3 pixel scales of the scatterplot and the histogram;
  - number-to-text formatting;
  - Python's `float()` on text.

Notes on the code, which the model follows as written:
- The bucket width uses strict `>` comparisons, so a span of exactly 100
  years gets width 10 and a span of exactly 10 years gets width 1.
- A click on a multi-year row label in the histogram re-renders the
  histogram with the records of that row's years. A single-year label
  does nothing (see Findings).
- The current scatterplot's click handler is commented out. The earlier
  scatterplot has one (frontend/scatterplot.js:82-95), but its brush is
  attached after the dots are drawn (lines 98-125), and the brush's
  full-size overlay lies over them. A plain click therefore lands on the overlay or on the
  brush's selection rectangle, whose datum has no `mag` or `z`, and sends
  an empty selection (`ScatterplotLegacy.OnClick` with `OnOtherDatum`).
  The dot case of that handler is modelled as written, for a click that
  reaches a circle.
- The scatterplot brush sends the records it cross-selects to the
  histogram and the map.
- The detail panel shows a message when more than one record is
  selected.

## Model

| member | source | states |
|---|---|---|
| DateSelection.YearKey | frontend/plots/date-selection.js:33 | definition: `parseInt` of the record's year, `None` for NaN; KeyListCountsDatedRecords and NoKeysNoDatedRecords state its use |
| DateSelection.MonthKey | frontend/plots/date-selection.js:34-38 | definition: `parseInt` of the month minus one, with NaN counted as January; MissingMonthIsJanuary and MonthKeyOfCalendarMonth state it |
| DateSelection.MissingMonthIsJanuary | frontend/plots/date-selection.js:34-38 | a record without a month and a record with month 1 both fall in month 0 |
| DateSelection.MonthKeyOfCalendarMonth | frontend/plots/date-selection.js:34-38 | calendar month 1..12 becomes the 0-based key 0..11 |
| DateSelection.KeyListCountsDatedRecords | frontend/plots/date-selection.js:30-39 | the rollup's counts add up to the number of records whose year parses |
| DateSelection.YearExtent | frontend/plots/date-selection.js:46 | no extent iff no dated record; otherwise min ≤ max, both attained, and every dated record's year lies between them |
| DateSelection.Filled | frontend/plots/date-selection.js:50-61 | definition: a year's month counts after the back-fill; FilledKeys and FillMissingMonths state it |
| DateSelection.FilledKeys | frontend/plots/date-selection.js:50-61 | a year without records gets months 0..11; a year with records gets its own months plus 1..11 |
| DateSelection.FillMissingMonths | frontend/plots/date-selection.js:55-60 | the loop adds months 1..11 with count 0 and keeps every existing count |
| DateSelection.PushMonths | frontend/plots/date-selection.js:63-65 | appends one cell per month of the map, each with that map's count, no month twice, and keeps the earlier cells |
| DateSelection.BuildYearMonthData | frontend/plots/date-selection.js:49-66 | the grid covers every (year, month) of the back-filled rollup between min and max year, with the rollup's counts and no pair twice |
| DateSelection.EveryYearHasCells | frontend/plots/date-selection.js:50-61 | every year between min and max has cells for months 1..11 |
| DateSelection.EmptyYearIsTwelveZeros | frontend/plots/date-selection.js:52-53 | a year without records has exactly the twelve months, all with count 0 |
| DateSelection.NoRecordsNoYear | frontend/plots/date-selection.js:30-33 | a year no record has is not a rollup key |
| DateSelection.BackFilledMonths | frontend/plots/date-selection.js:54-60 | a year with records has month 0 only when some record has month 0 (the back-fill starts at 1) |
| DateSelection.CellCountIsRecordCount | frontend/plots/date-selection.js:30-39 | each cell's count is the number of records with that (year, month) |
| DateSelection.RecordKeysHaveCells | frontend/plots/date-selection.js:49-66 | every dated record's (year, month) has a cell |
| DateSelection.GridCountsEveryDatedRecord | frontend/plots/date-selection.js:30-66 | the grid's counts add up to the number of dated records |
| DateSelection.RangeSize | frontend/plots/date-selection.js:75-90 | the width is 1, 10, 100 or 500; it is 1 iff the span is at most 10; above 1 it is below the span; a span up to 500 is shorter than 11 widths |
| DateSelection.CreateYearRanges | frontend/plots/date-selection.js:263-272 | the ranges tile [min, max] in order: the first starts at min, the last ends at max, each is full width except possibly the last, and each starts right after the previous one |
| DateSelection.TileStart | frontend/plots/date-selection.js:265 | range i starts at min + i × width |
| DateSelection.TilesCount | frontend/plots/date-selection.js:263-272 | the number of ranges is the span divided by the width, rounded up |
| DateSelection.RowsBounded | frontend/plots/date-selection.js:82-94 | for spans up to 500 there are at most 11 rows |
| DateSelection.TilesOrdered | frontend/plots/date-selection.js:263-272 | earlier ranges end before later ranges start |
| DateSelection.FindTile | frontend/plots/date-selection.js:263-272 | every year in [min, max] lies in a range at or after any range starting before it |
| DateSelection.TilesCover | frontend/plots/date-selection.js:263-272 | every year in [min, max] lies in exactly one range |
| DateSelection.YearAxisTitleBySpan | frontend/plots/date-selection.js:178-185 | the axis reads "Year" iff the span is at most 10, and "Year Ranges" otherwise |
| DateSelection.Label | frontend/plots/date-selection.js:98 | definition: the row label, one year or "start-end"; PairLabelShape, LabelRoundTrip and LabelInjective state it |
| DateSelection.MatchFrom | frontend/plots/date-selection.js:155 | definition: the scan of the pattern `(?<!\d)-?\d+` from a position; SingleLabelRoundTrip and PairLabelRoundTrip state it |
| DateSelection.MatchNumbers | frontend/plots/date-selection.js:155 | definition: every match of that pattern in a label, as numbers; LabelRoundTrip states it |
| DateSelection.SingleLabelRoundTrip | frontend/plots/date-selection.js:155 | the number pattern applied to a single-year label yields that year |
| DateSelection.PairLabelRoundTrip | frontend/plots/date-selection.js:155 | applied to a "start-end" label it yields start then end, negative years included |
| DateSelection.PairLabelShape | frontend/plots/date-selection.js:98 | a range label is the start year, a hyphen, then the end year |
| DateSelection.LabelRoundTrip | frontend/plots/date-selection.js:155-157 | parsing a row label gives back the range's bounds |
| DateSelection.LabelInjective | frontend/plots/date-selection.js:98 | two ranges with the same label are the same range |
| DateSelection.TickYears | frontend/plots/date-selection.js:155-157 | a click fails iff the label has no number |
| DateSelection.TickClick | frontend/plots/date-selection.js:154-166 | a click fails iff the label has no number; when it re-renders, it uses a non-empty selection of the records, kept in order |
| DateSelection.SelectData | frontend/plots/date-selection.js:274-280 | keeps, in order, exactly the records whose parsed year is within the bounds; nothing when the end is undefined |
| DateSelection.TickDrillsIntoRange | frontend/plots/date-selection.js:154-166 | clicking a multi-year label re-renders with exactly that range's records, or does nothing when it has none |
| DateSelection.SingleYearTickIgnored | frontend/plots/date-selection.js:155-165 | as written: clicking a single-year label never selects anything |
| DateSelection.IntendedTickYears | frontend/plots/date-selection.js:155-157 | corrected parse: a single number is both bounds; fails iff there is no number |
| DateSelection.IntendedTickDrillsIntoRange | frontend/plots/date-selection.js:154-166 | with the corrected parse every label, single-year included, drills into exactly its range |
| DateSelection.InRangeCells | frontend/plots/date-selection.js:253 | definition: the cells whose year is within the range, in order; InRangeMembers states it |
| DateSelection.InRangeMembers | frontend/plots/date-selection.js:253 | a cell is kept iff it is one of the cells and its year is within the range |
| DateSelection.InRangeTotal | frontend/plots/date-selection.js:253 | the cells kept for a range hold exactly the counts of the years in the range |
| DateSelection.SplitRangeSum | frontend/plots/date-selection.js:253 | the count of a year range is the count of its lower part plus that of its upper part |
| DateSelection.RangeMonths | frontend/plots/date-selection.js:254-260 | definition: the months of a range's cells in first-seen order; RangeMonthsCover states it |
| DateSelection.RangeMonthsCover | frontend/plots/date-selection.js:254-260 | the grouped months are exactly the months of the range's cells |
| DateSelection.MonthRowsCoverMonths | frontend/plots/date-selection.js:260 | every grouped month has a row |
| DateSelection.Aggregate | frontend/plots/date-selection.js:252-261 | one row per month present in the range, no month twice, each with the sum of that month's counts |
| DateSelection.AggregatePreservesTotal | frontend/plots/date-selection.js:252-261 | a range's row total equals the total of its cells |
| DateSelection.SplitRangeTotal | frontend/plots/date-selection.js:253 | splitting a year range splits the total |
| DateSelection.ChainTotal | frontend/plots/date-selection.js:94-99 | consecutive ranges together hold the total of their union |
| DateSelection.RowsTotalOfAggregates | frontend/plots/date-selection.js:97-100 | the rows' totals add up to the ranges' totals |
| DateSelection.NoKeysNoDatedRecords | frontend/plots/date-selection.js:30-46 | the rollup is empty iff no record's year parses |
| DateSelection.Render | frontend/plots/date-selection.js:15-100 | the grid, the year ranges and one labelled, aggregated row per range; no rows iff no dated record; the rows hold every dated record once |
| DateSelection.RenderTotal | frontend/plots/date-selection.js:94-100 | the histogram's total equals the number of dated records |
| DateSelection.BandHit | frontend/plots/date-selection.js:209-221 | definition: the closed overlap test of a brush side and a band; BandHitMeansSharedPoint states it |
| DateSelection.BandHitMeansSharedPoint | frontend/plots/date-selection.js:209-221 | the overlap test is true iff the brush and the band share a point |
| DateSelection.SelectedMonthsFrom | frontend/plots/date-selection.js:216-221 | a month is selected iff its column overlaps the brush horizontally |
| DateSelection.SelectedLabels | frontend/plots/date-selection.js:209-214 | a label is selected iff its row overlaps the brush vertically |
| DateSelection.Brushed | frontend/plots/date-selection.js:199-239 | no brush changes nothing; otherwise a cell is green iff its row and month are selected, else shaded by its count |
| DateSelection.BrushHighlightsTouchedCells | frontend/plots/date-selection.js:232-238 | a cell turns green iff its row band and its month column both overlap the brush |
| DateSelectionLegacy.MonthOf | frontend/date-selection.js:31-33 | definition: `parseInt(Mo - 1)`, `None` for NaN; MonthOfCalendarMonth states it |
| DateSelectionLegacy.Tally | frontend/date-selection.js:25-34 | definition: each record's (year, month) key with weight 1; TallyCountsRecords and WeightOfPresent state it |
| DateSelectionLegacy.MonthOfCalendarMonth | frontend/date-selection.js:31-33 | calendar month 1..12, as a number or text, becomes key 0..11, inside the month columns |
| DateSelectionLegacy.WeightOfPresent | frontend/date-selection.js:25-34 | a key has a count of at least 1 iff some record has it |
| DateSelectionLegacy.TallyCountsRecords | frontend/date-selection.js:25-34 | the rollup's count for a (year, month) is the number of records with that key |
| DateSelectionLegacy.MonthsWithYear | frontend/date-selection.js:40 | a month is listed for a year iff some record has that year and month |
| DateSelectionLegacy.BlockMembers | frontend/date-selection.js:40-42 | the inner loop visits a key iff it has that year and some record has it |
| DateSelectionLegacy.BlockDistinct | frontend/date-selection.js:40-42 | the inner loop never visits a key twice |
| DateSelectionLegacy.PairsMembers | frontend/date-selection.js:39-43 | the nested loops visit a key iff its year is among the visited years and some record has it |
| DateSelectionLegacy.PairsDistinct | frontend/date-selection.js:39-43 | the nested loops never visit a key twice |
| DateSelectionLegacy.PairsAppend | frontend/date-selection.js:39-43 | one more year adds that year's block at the end |
| DateSelectionLegacy.FlattenYear | frontend/date-selection.js:40-42 | the inner loop pushes one entry per month of the year, in first-seen order, with its count |
| DateSelectionLegacy.FlattenYears | frontend/date-selection.js:39-43 | the outer loop pushes each year's block in turn |
| DateSelectionLegacy.Flattened | frontend/date-selection.js:36-43 | definition: the rollup's entries in first-seen year, then month, order; Flatten, FlattenListsRecordedPairs, FlattenDistinctPositive and FlattenCountsEveryRecord state it |
| DateSelectionLegacy.Flatten | frontend/date-selection.js:36-43 | the flat list is the rollup's entries in first-seen year, then month, order |
| DateSelectionLegacy.PairsAreRecordKeys | frontend/date-selection.js:25-43 | the visited keys are exactly the records' keys |
| DateSelectionLegacy.FlattenListsRecordedPairs | frontend/date-selection.js:25-43 | an entry exists for a (year, month) iff some record has it |
| DateSelectionLegacy.FlattenDistinctPositive | frontend/date-selection.js:25-43 | no (year, month) appears twice and every count is at least 1 |
| DateSelectionLegacy.FlattenCountsEveryRecord | frontend/date-selection.js:25-43 | the counts add up to the number of records |
| DateSelectionLegacy.Insert | frontend/date-selection.js:46 | inserting into a sorted list keeps it sorted and adds exactly that element |
| DateSelectionLegacy.SortAscending | frontend/date-selection.js:46 | the result is sorted and a permutation of the input |
| DateSelectionLegacy.NumericYears | frontend/date-selection.js:46 | keeps exactly the years that are numbers |
| DateSelectionLegacy.YearDomain | frontend/date-selection.js:46 | definition: the distinct entry years, numeric ones only, sorted ascending; YearDomainIncreasing and YearDomainExact state it |
| DateSelectionLegacy.YearDomainIncreasing | frontend/date-selection.js:46 | the year rows are strictly increasing |
| DateSelectionLegacy.YearDomainExact | frontend/date-selection.js:46 | the year rows are exactly the entries' numeric years |
| DateSelectionLegacy.MaxCount | frontend/date-selection.js:61-63 | no upper colour bound iff there are no entries; otherwise the largest count, attained by some entry |
| DateSelectionLegacy.Render | frontend/date-selection.js:4-63 | the flat entries, year rows, twelve month columns and colour bound; the bound is missing iff there are no records |
| Scatterplot.Plottable | frontend/plots/scatterplot.js:19-22 | keeps, in order, exactly the features that have both chosen attributes |
| Scatterplot.PlottedDotsAreFeaturePoints | frontend/plots/scatterplot.js:19-31 | the filter plot draws a dot exactly where some feature with both attributes has its point |
| Scatterplot.AxisTop | frontend/plots/scatterplot.js:47-48 | no top iff no value is a number; otherwise the largest number, attained |
| Scatterplot.ScaleFor | frontend/plots/scatterplot.js:50-67 | symlog iff the top exceeds 1000, with that top; linear otherwise |
| Scatterplot.HighlightFills | frontend/plots/scatterplot.js:212-217 | one fill per drawn dot: yellow iff some selected feature has the dot's x value and some selected feature has its y value; black otherwise |
| Scatterplot.Render | frontend/plots/scatterplot.js:10-219 | definition: the filter and highlight modes of `render`; FilterShowsPlottable, SymlogIffLargeValue, NonTextActionChangesNothing and HighlightRender state it |
| Scatterplot.FilterShowsPlottable | frontend/plots/scatterplot.js:20-37 | "No data available" iff no feature has both attributes; otherwise the dots of the plottable features |
| Scatterplot.SymlogIffLargeValue | frontend/plots/scatterplot.js:47-67 | each axis is symlog iff some plotted value on it exceeds 1000 |
| Scatterplot.NonTextActionChangesNothing | frontend/plots/scatterplot.js:25-194 | an action that is a feature list or undefined changes nothing on the plot |
| Scatterplot.HighlightShowsSelection | frontend/plots/scatterplot.js:212-217 | a drawn dot of a selected feature turns yellow |
| Scatterplot.HighlightRender | frontend/plots/scatterplot.js:194-218 | the highlight recolours the drawn dots against the plottable selection |
| Scatterplot.InBrush | frontend/plots/scatterplot.js:148-159 | definition: the half-open brush test on the scaled point; BrushedDots and BrushSelectsExactlyInside state its use |
| Scatterplot.CrossMember | frontend/plots/scatterplot.js:161-165 | definition: x among the brushed x values and y among the brushed y values; CrossSelectIsInside states it |
| Scatterplot.BrushedDots | frontend/plots/scatterplot.js:148-159 | the brushed dots are exactly the dots inside the half-open brush, in order |
| Scatterplot.CrossSelect | frontend/plots/scatterplot.js:161-165 | keeps, in order, exactly the features whose x and y each occur among the brushed dots |
| Scatterplot.OnBrush | frontend/plots/scatterplot.js:141-171 | ignored without ctrl; a cleared brush paints every dot black; a brush paints and sends |
| Scatterplot.BrushColoursAndSends | frontend/plots/scatterplot.js:144-167 | a dot is green iff inside the brush; the histogram and the map receive the same cross-selected features |
| Scatterplot.InsideIsCrossMember | frontend/plots/scatterplot.js:148-165 | a feature whose dot is inside the brush is cross-selected |
| Scatterplot.CrossMemberIsInside | frontend/plots/scatterplot.js:148-165 | a cross-selected feature's dot is inside the brush (the brush is a rectangle) |
| Scatterplot.CrossSelectIsInside | frontend/plots/scatterplot.js:148-165 | the cross-selection is exactly the features whose dot is inside the brush |
| Scatterplot.BrushSelectsExactlyInside | frontend/plots/scatterplot.js:144-167 | the brush sends exactly the plottable features inside it |
| ScatterplotLegacy.Kept | frontend/scatterplot.js:7-10 | keeps, in order, exactly the features with a magnitude and a depth |
| ScatterplotLegacy.LegacyPoints | frontend/scatterplot.js:26-31 | one dot per kept feature holding its magnitude and depth |
| ScatterplotLegacy.OnClick | frontend/scatterplot.js:82-95 | a click on an element without a datum throws; a click on the brush overlay that covers the dots, or on another element without `mag` and `z`, sends an empty selection; a dot click sends exactly the kept features loosely equal to the dot on both axes |
| ScatterplotLegacy.ClickSelectsClickedFeature | frontend/scatterplot.js:89-93 | clicking a feature's dot selects that feature |
| ScatterplotLegacy.ClickSelectsEqualPoints | frontend/scatterplot.js:89-93 | with numeric values a dot click selects exactly the features with that same point |
| ScatterplotLegacy.OnLegacyBrush | frontend/scatterplot.js:98-124 | a cleared brush paints black and sends nothing; a brush paints the dots inside green, keeps them as its value and sends one update |
| ScatterplotLegacy.LegacyBrushSelectsInside | frontend/scatterplot.js:100-116 | the brush sends exactly the kept features whose dot is inside it |
| GeoMap.ReadFeatures | frontend/plots/geo-map.js:142-145 | one fresh, distinct map feature per record, projected, in order |
| GeoMap.Shown | frontend/plots/geo-map.js:133-141 | definition: all data for an empty update, else the update; ShownNeverBlank states it |
| GeoMap.ShownNeverBlank | frontend/plots/geo-map.js:133-141 | an empty update shows all records; otherwise exactly the given ones |
| GeoMap.WorldOf | frontend/plots/geo-map.js:237-238 | the coordinate lies inside the world copy it is assigned to |
| GeoMap.SubExtent | frontend/plots/geo-map.js:242-244 | each world's slice of the box stays inside the world's x range and keeps the box's y range |
| GeoMap.BoxInsideWorld | frontend/plots/geo-map.js:235-244 | a box inside the base world is one slice, the box itself |
| GeoMap.WorldSplitCoversWrappedBox | frontend/plots/geo-map.js:235-253 | a point lies in some slice iff its y is in the box and a wrapped copy of it lies in the box's x range |
| GeoMap.WrappedWorldInRange | frontend/plots/geo-map.js:238-241 | every wrapped copy inside the box comes from a world the loop visits |
| GeoMap.WorldFeatures | frontend/plots/geo-map.js:246-253 | definition: the markers inside one world's slice and not yet selected; SweepMembers and SweepNoRepeats state it |
| GeoMap.Sweep | frontend/plots/geo-map.js:241-253 | definition: the selection after the worlds from the first to the last; SweepKeepsSelection, SweepNoRepeats and SweepMembers state it |
| GeoMap.SweepKeepsSelection | frontend/plots/geo-map.js:241-284 | the sweep only appends to the selection |
| GeoMap.SweepNoRepeats | frontend/plots/geo-map.js:246-253 | the sweep never adds a feature already selected |
| GeoMap.SweepMembers | frontend/plots/geo-map.js:241-284 | after the sweep a feature is selected iff it was before or it is a marker inside some visited world's slice |
| GeoMap.BoxData | frontend/plots/geo-map.js:289-300 | keeps, in order, exactly the records whose x and y values each occur among the selected features |
| GeoMap.BoxDataHasSelectedPairs | frontend/plots/geo-map.js:289-300 | a record sharing both values with a selected feature is kept |
| GeoMap.PointsOnly | frontend/plots/geo-map.js:186-188 | keeps, in order, exactly the point features |
| GeoMap.FirstWithId | frontend/plots/geo-map.js:194-196 | none iff no record has that Id; otherwise the first record with it |
| GeoMap.SelectCalls | frontend/plots/geo-map.js:184-217 | throws iff a marker was picked but no record has its Id; otherwise three calls (detail panel, histogram, scatterplot over all data), and for a picked marker the detail panel and the histogram both get one record from the data |
| GeoMap.SelectNothingResets | frontend/plots/geo-map.js:206-216 | selecting no point clears the detail panel and resets the histogram and scatterplot to all records |
| GeoMap.SelectMarkerShowsFirstWithId | frontend/plots/geo-map.js:192-205 | selecting a marker sends the first record with its Id to the detail panel, the histogram and the scatterplot |
| GeoMap.AfterClick | frontend/plots/geo-map.js:177-184 | definition: the select interaction's collection after a plain click; AfterClickMembers and UnchangedClickKeepsCollection state it |
| GeoMap.SelectionChanges | frontend/plots/geo-map.js:177-184 | definition: the click deselects or newly selects a feature; SelectFiresIffSetChanges states it |
| GeoMap.AfterClickMembers | frontend/plots/geo-map.js:177-184 | after a click exactly the features under the pointer are selected |
| GeoMap.SelectFiresIffSetChanges | frontend/plots/geo-map.js:184 | the handler runs iff the set of selected features changes |
| GeoMap.UnchangedClickKeepsCollection | frontend/plots/geo-map.js:177-184 | a click that changes nothing leaves the collection, order included, as it was |
| GeoMap.MapView.constructor | frontend/plots/geo-map.js:44-126 | marker and heatmap layers hold one point feature per record, in order, at the record's projected position; nothing selected |
| GeoMap.MapView.Update | frontend/plots/geo-map.js:127-152 | both layers hold the same fresh point features for the shown records, in order, at their projected positions; the selection is kept |
| GeoMap.MapView.BoxStart | frontend/plots/geo-map.js:314-316 | the selection is cleared |
| GeoMap.MapView.OnSelect | frontend/plots/geo-map.js:177-217 | the collection is rebuilt from the features under the pointer; only a click that selects or deselects something runs the handler, whose calls are those of SelectCalls on the new collection; otherwise nothing is sent and the selection is unchanged |
| GeoMap.MapView.BoxEnd | frontend/plots/geo-map.js:232-311 | the selection grows by the sweep over the visited worlds; the scatterplot, histogram and detail panel receive the box data in that order |
| GeoMapStyling.PaletteRepeat | frontend/plots/geo-map-styling.js:5-16 | the palette has 60 entries and entry 30 equals entry 52 |
| GeoMapStyling.CountryPalette.constructor | frontend/plots/geo-map-styling.js:3-18 | no country has a colour yet and the index is 0 |
| GeoMapStyling.CountryPalette.CountryColor | frontend/plots/geo-map-styling.js:20-27 | a falsy country is #cccccc; a known one keeps its colour; a new one gets the next palette entry modulo 60 and advances the index |
| GeoMapStyling.SameCountrySameColour | frontend/plots/geo-map-styling.js:20-27 | asking twice for one country gives the same colour and advances the index at most once |
| GeoMapStyling.SameCountrySameFill | frontend/plots/geo-map-styling.js:20-34 | two markers of the same country get the same fill, whichever is styled first |
| GeoMapStyling.DescriptionIndex | frontend/plots/geo-map-styling.js:36-45 | only the codes 0..4, as numbers or digit text, index the description colours |
| GeoMapStyling.ColorScale | frontend/plots/geo-map-styling.js:31-68 | falsy values and unknown properties are grey; Tsu is blue iff truthy; a Mag or MMI ramp appears only for that property and carries its value; a truthy description value has a colour iff it is a code, and then the code's colour |
| GeoMapStyling.Scaled | frontend/plots/geo-map-styling.js:53 | a number is scaled by 1.5 |
| GeoMapStyling.SizeScale | frontend/plots/geo-map-styling.js:52-69 | falsy values and unknown properties give radius 1; magnitude and intensity scale by 1.5 |
| GeoMapStyling.GetStyle | frontend/plots/geo-map-styling.js:29-79 | the radius is the size scale of the size property. For a property other than Country, the fill is its colour scale and the palette is untouched. For Country: #cccccc when the country is falsy; the remembered colour for a known country; for a new one the next palette entry, with the index advanced and the country remembered |
| GeoMapStyling.ComputeRadius | frontend/plots/geo-map-styling.js:212-234 | definition: the legend's radius for a sample; LegendRadiusMatchesMarkers states it |
| GeoMapStyling.LegendRadiusMatchesMarkers | frontend/plots/geo-map-styling.js:212-234 | the legend's radius for a sample equals a marker's radius for that value |
| GeoMapStyling.SizeSamples | frontend/plots/geo-map-styling.js:148-157 | definition: the size-legend samples of a property; SizeSamplesShape states it |
| GeoMapStyling.SizeSamplesShape | frontend/plots/geo-map-styling.js:148-157 | exactly the eight size properties have samples: "Unknown" then four increasing positive values |
| GeoMapStyling.ColorMapping | frontend/plots/geo-map-styling.js:81-142 | definition: the colour-legend entries of a property; ColourLegendMatchesMarkers and DescriptionZeroIsGrey state it |
| GeoMapStyling.DescriptionLabels | frontend/plots/geo-map-styling.js:102-141 | definition: the five labels of each description legend, None first; DescriptionMapping states the colours beside them |
| GeoMapStyling.DescriptionMapping | frontend/plots/geo-map-styling.js:102-141 | each description attribute's legend lists the five palette colours in order, then Unknown in grey |
| GeoMapStyling.ColourLegendMatchesMarkers | frontend/plots/geo-map-styling.js:81-141 | for codes 1..4, missing values and Tsu, the marker colour is the legend's colour |
| GeoMapStyling.DescriptionZeroIsGrey | frontend/plots/geo-map-styling.js:36-45 | as written: code 0 is drawn grey while its legend entry is #88cc88 |
| GeoMapStyling.IntendedDescriptionColor | frontend/plots/geo-map-styling.js:36-45 | corrected: a missing value is grey |
| GeoMapStyling.IntendedDescriptionMatchesLegend | frontend/plots/geo-map-styling.js:102-109 | corrected: every code 0..4 and a missing value get the legend's colour |
| GeoMapStyling.ColourItems | frontend/plots/geo-map-styling.js:176-183 | one colour item per legend entry, in order |
| GeoMapStyling.SizeItems | frontend/plots/geo-map-styling.js:191-201 | one size item per sample, with the marker radius for that sample |
| GeoMapStyling.UpdateLegend | frontend/plots/geo-map-styling.js:164-206 | nothing without a legend element; a colour section iff the property is not Country and has a mapping; a size section iff it has samples; each section's items in order |
| DetailedView.Poi | frontend/plots/detailed-view.js:52-74 | Ids 3227 and 7843 (strictly equal numbers) get their link and text; anything else gets the no-point-of-interest text |
| DetailedView.FirstMatch | frontend/plots/detailed-view.js:82-84 | none iff no tsunami's Id loosely equals the value; otherwise the first match |
| DetailedView.RelatedTsunami | frontend/plots/detailed-view.js:77-86 | no Tsu gives the no-related text; otherwise it throws iff no tsunami matches, else the first match's location name |
| DetailedView.DetailText | frontend/plots/detailed-view.js:31-37 | definition: the "key: value" lines joined by breaks; DetailTextAppend states it |
| DetailedView.Join | frontend/plots/detailed-view.js:31-37 | definition: lines joined by a separator; DetailTextAppend states it |
| DetailedView.DetailTextAppend | frontend/plots/detailed-view.js:31-37 | one more property adds its line after a break |
| DetailedView.ShowQuake | frontend/plots/detailed-view.js:26-46 | the point of interest is always set; the panel fails iff the tsunami lookup throws; the tsunami line is added iff a related tsunami exists |
| DetailedView.Update | frontend/plots/detailed-view.js:10-48 | nothing or an empty list gives the no-selection texts; more than one gives the multiple-selection texts |
| DetailedView.SingletonIsFeature | frontend/plots/detailed-view.js:22-24 | a one-element list is shown like its feature |
| DetailedView.TsunamiLineCases | frontend/plots/detailed-view.js:39-43 | without Tsu the panel is just the properties; with Tsu it fails iff no tsunami matches |
| DetailedView.DateString | frontend/plots/detailed-view.js:88-105 | definition: the month name (or "undefined"), a space and the year; DateStringInjective states it |
| DetailedView.MonthNamesDistinct | frontend/plots/detailed-view.js:89-102 | no two months share a name |
| DetailedView.DateStringInjective | frontend/plots/detailed-view.js:88-105 | different (month, year) pairs give different strings |
| TsvToGeoJson.Find | tsv_to_geojson.py:8-9 | missing iff no column has the name; found iff exactly one does, with that cell; ambiguous iff two do |
| TsvToGeoJson.NonNull | tsv_to_geojson.py:13 | the properties are exactly the row's non-null cells, each keyed by its column |
| TsvToGeoJson.NonNullInColumnOrder | tsv_to_geojson.py:13 | one property per non-null cell, in column order: entry i comes from the non-null column preceded by exactly i non-null cells |
| TsvToGeoJson.Coordinate | tsv_to_geojson.py:8-12 | definition: a coordinate column found once, non-null and convertible; RowFeature states it |
| TsvToGeoJson.RowFeature | tsv_to_geojson.py:7-24 | a row is kept iff both coordinates are found once, non-null and convertible; its point is [longitude, latitude] and its properties are exactly its non-null columns |
| TsvToGeoJson.ToGeoJson | tsv_to_geojson.py:4-28 | the loop yields a feature collection of the rows' features in row order |
| TsvToGeoJson.Converted | tsv_to_geojson.py:5-24 | definition: the features of the rows in order, skipped rows left out; ConvertedAppend, ConvertedSingle, ConvertedBound and ConvertedMembers state it |
| TsvToGeoJson.ConvertedAppend | tsv_to_geojson.py:5-24 | two runs of rows convert to the first run's features then the second's: a skipped row does not affect the others |
| TsvToGeoJson.ConvertedSingle | tsv_to_geojson.py:22-24 | one row yields its feature or nothing |
| TsvToGeoJson.ConvertedBound | tsv_to_geojson.py:5-22 | never more features than rows |
| TsvToGeoJson.ConvertedMembers | tsv_to_geojson.py:5-22 | a feature is in the result iff some row yields it |

## Left out

- Rendering: SVG, the DOM, the OpenLayers map, layers and sources, the legend HTML, axes, margins, client sizes and the gradient stops.
- d3 scales are parameters (`sx`, `sy`, row and column positions). Their `nice()` and `unknown()` behaviour is not modelled.
- `console.log` output.
- The detail panel's `render` only writes the no-selection text. That is the text `DetailedView.Update` gives for no selection, so it has no member of its own.
- `update` of both histograms and both scatterplots calls `render`. The render members model both.
- The scatterplot's axis dropdowns (`addScatterplotAxisInteractions`) are DOM wiring. They only call the scatterplot's update with "filter" and the chosen labels.
- The map's colour and size dropdown handlers only refresh the legend and the layer, with `GeoMapStyling.UpdateLegend` and `GeoMapStyling.GetStyle`.
- The heatmap weights and the 361 × 181 background grid are floating-point weights on foreign objects.
- The selected-marker style is left out.
- GeoMap.MapView.BoxEnd: the obliquely rotated branch (rotating the box and the features) is not modelled. The model assumes a view that is not rotated.
- GeoMap.MapView.OnSelect: the hit test is a parameter (`picked`, the features OpenLayers finds under the click; at most one, since `multi` is off). A shift-click is treated as a plain click, although the interaction's default toggle condition would toggle the features under the pointer.
- GeoMap.ReadFeatures: the projection is a parameter, and tectonic plates are not read.
- GeoMapStyling.ColorScale: the Mag and MMI colours are kept symbolic (`MagRamp`, `MmiRamp`). The `rgba` text of the template strings is not computed.
- GeoMapStyling.SizeScale: the `Math.log` radii are kept symbolic (`LogRadius`).
- GeoMapStyling.ColorScale: indexing a description colour with a fractional number or non-digit text gives `NoColor` (undefined). Property names inherited from `Object.prototype` are not modelled.
- GeoMapStyling.CountryPalette.CountryColor: countries are keyed by their value. JavaScript keys them by `String(value)`, so a number and its decimal text would share a colour there. This is not modelled.
- GeoMapStyling.PaletteRepeat: the contract shows the one repeated colour. It does not prove that the other 59 entries are pairwise distinct.
- DetailedView.Lines: number-to-text formatting is a parameter (`showNum`). Property order is the order stored in the feature; JavaScript's reordering of integer-like keys is not modelled.
- DateSelection.RangeSize: it takes the span as a natural number. With no dated record the source computes `NaN` and gets width 0; `DateSelection.Render` handles that case as "no ranges".
- DateSelection.CreateYearRanges: it requires a positive width, which `DateSelection.RangeSize` always gives.
- DateSelectionLegacy.YearDomainExact: covers only the numeric years. Where a `NaN` year lands in the sorted domain is not modelled.
- DateSelectionLegacy.MonthOf: `parseInt` of a number goes through its text form. For ordinary months that is truncation, which is how the model computes it. Exponent forms of huge or tiny numbers are not modelled.
- Scatterplot.AxisTop: the extent is taken over the numbers only. d3 compares text values as text, and that is not modelled.
- TsvToGeoJson.ToGeoJson: the pandas reads and the JSON writes are not modelled. The `float()` of text is a parameter, so text that parses to `NaN` or infinity is not modelled.
- TsvToGeoJson.NonNull: when two columns share a name, `to_dict` collapses them to one key. The model keeps both, since pandas renames duplicate headers on read.
- TsvToGeoJson.Find: other `TypeError` sources in `float()` are not modelled. The model's cells are only numbers, text or null.
- JsValues.ToNumber / JsValues.ParseInt: only empty text and optionally signed integer text convert. `Number(" 3")` is 3, `Number("5.5")` is 5.5, `Number("+5")` is 5, `Number("1e3")` is 1000 and `Number(" ")` is 0 in JavaScript, but the model gives NaN (`None`) for each. `parseInt("  1995")` skips the leading blanks in JavaScript, but the model gives `None`. These cases reach the loose equality in `ScatterplotLegacy.EqualsClicked` and `DetailedView.FirstMatch`, the size scaling in `GeoMapStyling.Scaled` (`"5.5" * 1.5`) and `DateSelectionLegacy.MonthOf` (`"3.0" - 1`).
- DateSelection.PushMonths: the months of a year's map are appended in some order, not in the map's insertion order. So the month order of the cells `DateSelection.Aggregate` builds is not pinned to the source's; their contents and counts are.
- GeoMap.WorldFeatures: the markers of one world's slice come in layer order. The source's `getFeaturesInExtent` returns them in spatial-index order, so the order of the swept selection is not the source's; its members and the absence of repeats are.
- The two small Python statements that call the converter on the two input files are I/O.

## Findings

| source | as written | input that shows it | evidently intended | confidence | as-written member | corrected member |
|---|---|---|---|---|---|---|
| frontend/plots/date-selection.js:155-165 | a single-year row label (lines 98, 155) holds one number, so the end year is `undefined`; every comparison with it is false, the selection is empty and the click returns without drilling | a data set whose years span at most 10 (every row is a single year), clicking the row "1995" while 1995 has records | clicking a single-year row selects that year's records | high, not executed | DateSelection.SingleYearTickIgnored | DateSelection.IntendedTickDrillsIntoRange |
| frontend/plots/geo-map-styling.js:36-45 | the description colour scales test the value for truthiness first, so code 0 ("None") falls to grey `#888888` | an earthquake with `Total Death Description` 0, coloured by that property | code 0 is drawn `#88cc88`, the colour its legend entry shows (lines 102-108) | high, not executed | GeoMapStyling.DescriptionZeroIsGrey | GeoMapStyling.IntendedDescriptionMatchesLegend |

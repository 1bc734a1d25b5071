# Carpentry workshop analyses — a verified model

`analyse_workshops.py` reads a table of Carpentry workshops and writes an
Excel workbook with one sheet per analysis. Each sheet holds a table and a
column chart drawn from it. The ten analyses are:
- workshops per year, per type, and per type over years;
- online versus in-person;
- workshops per host, and per host over years;
- estimated attendance per year, per type, and per type over years;
- workshops per UK region.

This project models the aggregation behind each sheet and the cells each
table occupies. It also models which cells each chart series reads, and how
the analyses fill the shared workbook one after the other. It proves that
the numbers on each sheet are the row counts they claim to be.

Modules:
- `Table` (table.dfy): the workshop record, a `Key` that is a year, a text
  or a pair of keys, and the ascending order pandas sorts group keys in.
- `GroupBy` (groupby.dfy): the grouping calls, restated as functions.
  - `groupby(key).size()` drops null keys and sorts keys ascending.
  - `groupby(key)[value].count()` counts the non-null values of each group.
  - `sort_values()` orders the groups by count.
  - Multiplication by the attendance estimate.
- `Pivots` (pivot.dfy): `pivot_table` with its mean aggregation and NaN
  cells, and `fillna(0).astype('int')` with truncation.
- `Text` (text.dfy): the substring test of `str.contains('online')`, and
  `str()` of the totals written in the notes.
- `Workshops` (workshops.dfy): the ten aggregations over `seq<Workshop>`.
  Each is stated against `CountWhere`, a direct count of the rows that
  meet a condition.
- `Charts` (charts.dfy): the `[sheet, first_row, first_col, last_row,
  last_col]` ranges of every `add_series` call. It includes the loop that
  adds one series per pivot column.
- `Sheets` (sheets.dfy): what `to_excel` writes, as a map from (row,
  column) to cell.
  - A flat table has its header in row 0.
  - A pivot has three header rows.
  - The lemmas check the chart ranges against these layouts.
- `Report` (report.dfy): the writer as a `Workbook` class whose sheet map
  the analyses update in place.
  - There is one method per analysis, and the analysis part of `main` runs
    them in order.
  - The run stops when the online split raises. `main`'s catch-all
    handler then skips the remaining analyses and the save.

Points of the program's behaviour the model follows as the code has them:
- `main` calls ten analyses (analyse_workshops.py:53-66).
- The host-by-year pivot has hosts as rows and years as columns
  (analyse_workshops.py:181-182).
- In-person is the non-null slug count minus the online count
  (analyse_workshops.py:250). It equals the row count minus the online
  count only when every row has a slug (`OnlineVsInPersonSplit`).
- A null tag makes the online split raise (analyse_workshops.py:249). The
  handler at analyse_workshops.py:70-72 then skips the remaining analyses
  and the save.
- The region analysis drops no rows explicitly (analyse_workshops.py:500-501).
  Rows without a region fall out of the grouping anyway.
- Estimated attendance per type counts non-null slugs, not rows
  (analyse_workshops.py:318).

## Model

| member | source | states |
|---|---|---|
| GroupBy.DistinctKeys | analyse_workshops.py:80 | the group keys are every non-null key of the column, each once, strictly ascending |
| GroupBy.Tally | analyse_workshops.py:80 | one group per key, in key order, counting the rows that carry it |
| GroupBy.SizeGroups | analyse_workshops.py:79-80 | `size()` has every non-null key exactly once, ascending, with a positive count equal to its rows; the counts add up to the non-null rows |
| GroupBy.CountValuesGroups | analyse_workshops.py:284 | `groupby(key)[value].count()` has the same keys as `size()`, ascending; each count is the group's rows with a non-null value, at most its rows; the counts add up to the non-null values |
| GroupBy.Scale | analyse_workshops.py:284 | multiplying by the estimate keeps every key and its position and multiplies each value |
| GroupBy.ScaleTotal | analyse_workshops.py:307 | the scaled values add up to the factor times the original total |
| GroupBy.SortByCount | analyse_workshops.py:219 | `sort_values()` gives a permutation of the groups in non-decreasing count |
| GroupBy.SortByCountKeys | analyse_workshops.py:219 | sorting groups with distinct keys keeps the keys distinct |
| GroupBy.SortByCountTotal | analyse_workshops.py:219 | sorting does not change the total of the counts |
| GroupBy.SortByCountMembers | analyse_workshops.py:219 | a group is in the sorted result exactly when it is in the input |
| GroupBy.ScaleMembers | analyse_workshops.py:284 | scaling keeps ascending keys, and its groups are exactly the original groups with the value multiplied |
| Pivots.PivotTable | analyse_workshops.py:144 | the pivot has one cell per row and column, and both axes are strictly ascending |
| Pivots.FillZero | analyse_workshops.py:183 | `fillna(0).astype('int')` keeps both axes and fills every cell |
| Pivots.MeanOfOne | analyse_workshops.py:144 | the mean of a single count is that count |
| Pivots.PivotOfGroups | analyse_workshops.py:142-144 | pivoting a two-key `size()`: rows and columns are exactly the key parts that occur; a cell is its pair's row count, or NaN when no row has the pair |
| Pivots.PivotOfScaledGroups | analyse_workshops.py:348-352 | the same for counts multiplied by a factor: a cell is the factor times its pair's count, or NaN |
| Pivots.PivotTotal | analyse_workshops.py:142-144 | the present cells of a two-key `size()` pivot add up to the rows with a non-null pair |
| Pivots.FilledPivotCounts | analyse_workshops.py:179-183 | after `fillna(0).astype('int')`, every cell is its pair's row count, 0 where no row has it |
| Text.ContainsIff | analyse_workshops.py:249 | the substring test is true exactly when the word occurs at some position |
| Text.DecimalString | analyse_workshops.py:103 | `str()` of a count is a non-empty string of digits with no leading zero |
| Text.DecimalRoundTrip | analyse_workshops.py:103 | reading back the digits of a count gives the count |
| Workshops.CountWherePositive | analyse_workshops.py:80 | some row is counted exactly when some row meets the condition |
| Workshops.WorkshopsPerYearCounts | analyse_workshops.py:79-80 | every year once, ascending, exactly the years of the rows, each with its number of rows; the counts add up to the number of rows |
| Workshops.WorkshopsPerTypeCounts | analyse_workshops.py:111-112 | every workshop type once, ascending, each with its number of rows; the counts add up to the number of rows |
| Workshops.WorkshopsPerTypePerYearCells | analyse_workshops.py:142-144 | rows are exactly the years, columns exactly the types; a cell is the number of rows with that year and type, or NaN when there are none; the present cells add up to the number of rows |
| Workshops.DropNullHostsCount | analyse_workshops.py:216 | dropping rows without a host changes no count of rows that need a host |
| Workshops.DropNullHostsExists | analyse_workshops.py:216 | dropping rows without a host loses no row that has one |
| Workshops.WorkshopsPerHostCounts | analyse_workshops.py:216-219 | every host once, never a null host, each with its number of rows, in non-decreasing count; the counts add up to the rows with a host |
| Workshops.WorkshopsPerHostPerYearCells | analyse_workshops.py:177-183 | a full grid: rows are the hosts, columns the years of rows with a host, both ascending; every cell is the number of rows of that host and year, 0 if none |
| Workshops.TaggedIff | analyse_workshops.py:249 | a row counts as online exactly when it has tags and "online" occurs in them |
| Workshops.OnlineVsInPersonCounts | analyse_workshops.py:249-253 | the split raises exactly when some row has null tags; otherwise it is ["Online": rows tagged online, "In-person": rows with a slug minus those], and the two add up to the slug count |
| Workshops.OnlineVsInPersonSplit | analyse_workshops.py:249-250 | when every row has tags and a slug, both values are non-negative and add up to the number of rows |
| Workshops.AttendanceKeys | analyse_workshops.py:284 | the attendance groups have the keys of the `size()` groups, in the same order |
| Workshops.AttendanceValues | analyse_workshops.py:284 | each attendance value is 20 times the group's rows with a slug |
| Workshops.AttendanceTotal | analyse_workshops.py:307 | the attendance values add up to 20 times the rows with a slug |
| Workshops.EstimatedAttendancePerYearCounts | analyse_workshops.py:283-284 | the years of the per-year counts, in the same order, each with 20 times its rows that have a slug; the total is 20 times the rows with a slug |
| Workshops.EstimatedAttendancePerTypeCounts | analyse_workshops.py:317-318 | the types of the per-type counts, in the same order, each with 20 times its rows that have a slug; the total is 20 times the rows with a slug |
| Workshops.EstimatedAttendancePerTypePerYearCells | analyse_workshops.py:348-352 | rows are the years, columns the types; a cell is 20 times the rows of that year and type whose attendance is recorded, or NaN when no row has the pair |
| Workshops.WorkshopsPerRegionCounts | analyse_workshops.py:500-501 | every region once, never a null region, each with its number of rows, in non-decreasing count; the counts add up to the rows with a region |
| Charts.FlatSeries | analyse_workshops.py:88-90 | over an n-row table the categories are exactly rows 1..n of column 0 and the values rows 1..n of column 1; the series has no name |
| Charts.PivotSeries | analyse_workshops.py:154-158 | series i is named by cell (1, i); its categories are exactly rows 3..n+2 of column 0 and its values rows 3..n+2 of column i |
| Charts.PivotChart | analyse_workshops.py:151-160 | a stacked chart with one series per pivot column, series k reading column k+1 |
| Charts.StackedChart | analyse_workshops.py:153-160 | the loop adds exactly the series of `PivotChart`, one per column, in column order |
| Charts.StackedChartCoversData | analyse_workshops.py:192-198 | every data cell of the pivot is read by exactly one series, the one named by the header above it; categories read only the index column |
| Sheets.FlatGridCells | analyse_workshops.py:81 | `to_excel(index=False)`: the header in row 0, line i in row i+1, two columns and no other cell |
| Sheets.PivotGridCells | analyse_workshops.py:146 | a pivot written with its index: the column keys in row 1, index key i and its cells in row i+3, and no cell outside that block |
| Sheets.GroupLinesShowGroups | analyse_workshops.py:79-92 | on a table of groups with distinct year or text keys, no two rows show the same key, and the value column adds up to the groups' total |
| Sheets.TotalNoteReadsBack | analyse_workshops.py:103 | the note is its prefix followed by digits that read back as the total |
| Sheets.FlatChartReadsTable | analyse_workshops.py:88-90 | every cell of a flat chart's ranges is on the sheet; categories read the line's name, values its value, never the header |
| Sheets.PivotChartReadsTable | analyse_workshops.py:153-158 | series k is named by column key k; its categories read the index keys and its values the cells of column k |
| Report.Overlay | analyse_workshops.py:81 | written cells replace what was there and all other cells stay |
| Report.ToExcelBook | analyse_workshops.py:81 | `to_excel` creates the sheet if needed and writes the table over it, keeping its charts; no other sheet changes |
| Report.WriteBook | analyse_workshops.py:103 | `worksheet.write` sets one cell and changes nothing else |
| Report.ChartBook | analyse_workshops.py:100 | `insert_chart` appends one chart to one sheet and changes nothing else |
| Report.Workbook.constructor | analyse_workshops.py:44 | a new writer has no sheets |
| Report.Workbook.ToExcel | analyse_workshops.py:81 | the sheet map becomes `ToExcelBook`; a new sheet name is added to the creation order once |
| Report.Workbook.Write | analyse_workshops.py:103 | the sheet map becomes `WriteBook`; the order is unchanged |
| Report.Workbook.InsertChart | analyse_workshops.py:100 | the sheet map becomes `ChartBook`; the order is unchanged |
| Report.Emit | analyse_workshops.py:81-100 | the sheet holds the table over its old cells and gains the chart; no other sheet changes |
| Report.Apply | analyse_workshops.py:81-103 | an analysis creates its sheet and changes no other sheet |
| Report.ApplyContents | analyse_workshops.py:81-103 | the sheet holds the table over its old cells, then the note at (0, 3), and gains the chart |
| Report.EmitFlat | analyse_workshops.py:81-100 | writes a flat table and inserts its one-series chart |
| Report.EmitPivot | analyse_workshops.py:146-167 | writes a pivot and inserts the stacked chart built by the series loop |
| Report.WorkshopsPerYearAnalysis | analyse_workshops.py:75-104 | returns the per-year counts; the workbook gains their sheet, column chart and "Total workshops" note |
| Report.WorkshopsPerTypeAnalysis | analyse_workshops.py:107-135 | returns the per-type counts; the workbook gains their sheet and chart |
| Report.WorkshopsPerTypePerYearAnalysis | analyse_workshops.py:138-169 | returns the type-by-year pivot; the workbook gains its sheet and stacked chart |
| Report.OnlineWorkshopAnalysis | analyse_workshops.py:245-276 | returns the split; on success the workbook gains its sheet and chart, and on a null tag the workbook is unchanged |
| Report.WorkshopsPerHostAnalysis | analyse_workshops.py:210-242 | returns the per-host counts; the workbook gains their sheet and chart |
| Report.WorkshopsPerHostPerYearAnalysis | analyse_workshops.py:172-207 | returns the filled host-by-year pivot; the workbook gains its sheet and stacked chart |
| Report.EstimatedAttendancePerYearAnalysis | analyse_workshops.py:279-309 | returns the attendance per year; the workbook gains its sheet, chart and "Total attendees" note |
| Report.EstimatedAttendancePerTypeAnalysis | analyse_workshops.py:312-341 | returns the attendance per type; the workbook gains its sheet and chart |
| Report.EstimatedAttendancePerTypePerYearAnalysis | analyse_workshops.py:344-379 | returns the attendance pivot; the workbook gains its sheet and stacked chart |
| Report.WorkshopsPerRegionAnalysis | analyse_workshops.py:496-525 | returns the per-region counts; the workbook gains their sheet and chart |
| Report.FirstAnalyses | analyse_workshops.py:53-55 | the workbook is the first three analyses applied in order |
| Report.LaterAnalyses | analyse_workshops.py:59-66 | the workbook is the six later analyses applied in order |
| Report.RunAnalyses | analyse_workshops.py:53-72 | the workbook is the run's analyses applied in order, stopping after the first three when the online split raises; the run saves exactly when every row has tags |
| Report.HelperBook | analyse_workshops.py:44-51 | the workbook handed to the analyses holds the data sheet and the readme tab and no other sheet |
| Report.WriteReport | analyse_workshops.py:44-68 | starting from a fresh writer with the data sheet and the readme tab, the run leaves each planned analysis sheet holding exactly its table, note and one chart, keeps the data and readme sheets as the helper wrote them, adds no other sheet, and saves exactly when every row has tags |
| Report.HelperRun | analyse_workshops.py:44-66 | on the helper's workbook, the analyses leave their planned sheets as written, the data and readme sheets as they were, and nothing else |
| Report.RunLeavesSheets | analyse_workshops.py:53-66 | on a workbook without analysis sheets, each planned sheet holds exactly its cells and one chart, every sheet found is kept as it was, and no other sheet is added |
| Report.ApplyAllAppend | analyse_workshops.py:53-66 | applying two lists of analyses one after the other is applying their concatenation |
| Report.ApplyAllFrame | analyse_workshops.py:44-66 | every analysed sheet exists afterwards, and every sheet no analysis names is left as it was |
| Report.ApplyAllFresh | analyse_workshops.py:53-66 | with distinct names on a workbook without them, each sheet ends with exactly its analysis's cells and one chart |
| Report.PlanLength | analyse_workshops.py:53-66 | a run writes ten sheets when the online split succeeds and three otherwise |
| Report.RunCompletes | analyse_workshops.py:57 | the online split succeeds, and a run writes all ten sheets, exactly when every row has tags |
| Report.PlanNames | analyse_workshops.py:53-66 | the analyses write their sheets in the fixed order of the ten sheet names |
| Report.PlanDistinct | analyse_workshops.py:53-66 | no two analyses of a run write the same sheet |
| Report.RunSheets | analyse_workshops.py:53-66 | after a run on a workbook without the analysis sheets, the i-th sheet holds exactly the i-th analysis's cells and its chart |
| Report.RunKeepsOtherSheets | analyse_workshops.py:44-66 | a run leaves every other sheet, such as the data and readme sheets, as it was |
| Report.PerYearNoteStatesRowCount | analyse_workshops.py:102-103 | the per-year note reads "Total workshops: " and then the digits of the number of rows |
| Report.AttendanceNoteStatesEstimate | analyse_workshops.py:307-308 | the attendance note reads "Total attendees: " and then the digits of 20 times the rows with a slug |
| Report.FlatChartReadsGroups | analyse_workshops.py:81-92 | on a written table of groups, the chart's categories read each row's key and its values read each row's count |
| Report.PerYearChartCounts | analyse_workshops.py:79-92 | on the per-year sheet, each bar reads the number of workshops of the year named on its row |
| Report.PivotChartReadsCells | analyse_workshops.py:146-160 | on a written pivot, series k is named by column key k and reads the index keys and the k-th column's cells, with NaN as an empty cell |
| Report.TypePerYearSheetCells | analyse_workshops.py:142-146 | on the type-by-year sheet, the cell of a year and a type is empty exactly when no workshop has both, and otherwise holds their number of workshops |
| Report.HostPerYearSheetCells | analyse_workshops.py:177-185 | on the host-by-year sheet, the cell of a host and a year holds the number of workshops of that host in that year, 0 when there are none |
| Report.OnlineSheetCells | analyse_workshops.py:249-255 | when the split succeeds, the online sheet shows "Online" with the rows tagged online and "In-person" with the rows with a slug less those, and the two numbers add up to the rows with a slug |

## Left out

- Command-line parsing, CSV reading, directory creation and output path derivation in `main` are I/O. The data and readme sheets are written by `lib.helper`, which is not part of this model. They appear only as sheets a run leaves as it was.
- Report.WriteReport: the cells of the data sheet and the readme tab are parameters, and so is the readme tab's name, which `lib.helper` chooses. The model assumes that name is not one of the analysis sheet names.
- `excel_writer.save()` and the printed messages are left out. `RunAnalyses` and `WriteReport` return whether the save would happen.
- Chart styling and placement are presentation only: `gap`, axis names, legends, titles and the anchor cell of `insert_chart`. A chart is modelled as its kind and its series ranges.
- The commented-out attendance functions at analyse_workshops.py:382-493 are dead code.
- test_analyse_instructors.py tests a module that is not part of this model.
- Floating point: pivot cells are exact reals. Every cell is the mean of one whole count, so the mean is exact (`MeanOfOne`). `astype('int')` is truncation toward zero.
- Workshops.WorkshopsPerHost, Workshops.WorkshopsPerRegion: the order of groups with equal counts is one valid choice (stable insertion), because `sort_values()` does not fix it. Only non-decreasing count and permutation are promised.
- `str.contains('online')` is modelled as a literal substring test. Its regular-expression reading is the same for this word.
- Null years and workshop types are not modelled. The record gives every workshop a `year` and a `workshop_type`, so the row-count totals are stated against the number of rows.
- Sheets.PivotGridCells: the merged header cells xlsxwriter writes for a pivot's column-name row are not modelled. Only the cell values are.
- The workbook's sheet creation order is tracked and kept free of duplicates. No property of the saved file's tab order is stated beyond that.
- An input with no rows gives an empty pivot here. pandas' own handling of `pivot_table` on an empty frame is not modelled.
- Numbers keep their integer or real kind. Excel's display formatting of numbers is not modelled.

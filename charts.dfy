/** The chart series the analyses add: which worksheet cells each series
    reads its name, categories and values from. Rows and columns are
    0-based, as xlsxwriter's [sheet, first_row, first_col, last_row,
    last_col] lists are. */
module Charts {
  import opened Table

  datatype CellRef = CellRef(sheet: string, row: int, col: int)

  /** A rectangular block of cells on one sheet, both ends included. */
  datatype Range = Range(sheet: string, firstRow: int, firstCol: int, lastRow: int, lastCol: int)

  predicate InRange(r: Range, row: int, col: int)
  {
    r.firstRow <= row <= r.lastRow && r.firstCol <= col <= r.lastCol
  }

  /** One `add_series` call: an optional name cell, the category cells and
      the value cells. */
  datatype Series = Series(name: Option<CellRef>, categories: Range, values: Range)

  datatype ChartKind = ColumnChart | StackedColumnChart

  datatype Chart = Chart(kind: ChartKind, series: seq<Series>)

  /** The series of a two-column table with `n` data rows written below
      one header row: categories are the keys in column 0, values the
      numbers in column 1, both on rows 1..n; the header is not read. */
  function FlatSeries(sheet: string, n: nat): (s: Series)
    ensures s.name.None?
    ensures s.categories.sheet == sheet && s.values.sheet == sheet
    ensures forall row, col :: InRange(s.categories, row, col) <==> 1 <= row <= n && col == 0
    ensures forall row, col :: InRange(s.values, row, col) <==> 1 <= row <= n && col == 1
  {
    Series(None, Range(sheet, 1, 0, n, 0), Range(sheet, 1, 1, n, 1))
  }

  /** The column chart of a flat table: a single series. */
  function FlatChart(sheet: string, n: nat): Chart
  {
    Chart(ColumnChart, [FlatSeries(sheet, n)])
  }

  /** Series `i` (1-based) of a pivot sheet with `n` index rows: named by
      the column key in row 1, categories the index keys in column 0 and
      values column `i`, both on rows 3..n+2 below the three header rows. */
  function PivotSeries(sheet: string, n: nat, i: nat): (s: Series)
    requires i >= 1
    ensures s.name == Some(CellRef(sheet, 1, i))
    ensures s.categories.sheet == sheet && s.values.sheet == sheet
    ensures forall row, col :: InRange(s.categories, row, col) <==> 3 <= row <= n + 2 && col == 0
    ensures forall row, col :: InRange(s.values, row, col) <==> 3 <= row <= n + 2 && col == i
  {
    Series(Some(CellRef(sheet, 1, i)), Range(sheet, 3, 0, n + 2, 0), Range(sheet, 3, i, n + 2, i))
  }

  /** The stacked column chart of a pivot sheet with `rows` index rows and
      `columns` value columns: one series per value column, in column
      order. */
  function PivotChart(sheet: string, rows: nat, columns: nat): (chart: Chart)
    ensures chart.kind == StackedColumnChart
    ensures |chart.series| == columns
    ensures forall k :: 0 <= k < columns ==> chart.series[k] == PivotSeries(sheet, rows, k + 1)
  {
    Chart(StackedColumnChart, seq(columns, k requires 0 <= k < columns => PivotSeries(sheet, rows, k + 1)))
  }

  /** The loop that adds the series of a pivot sheet's chart one value
      column at a time, for i in 1..columns. */
  method StackedChart(sheet: string, rows: nat, columns: nat) returns (chart: Chart)
    ensures chart.kind == StackedColumnChart
    ensures |chart.series| == columns
    ensures forall k :: 0 <= k < columns ==> chart.series[k] == PivotSeries(sheet, rows, k + 1)
    ensures chart == PivotChart(sheet, rows, columns)
  {
    var series: seq<Series> := [];
    for i := 1 to columns + 1
      invariant |series| == i - 1
      invariant forall k :: 0 <= k < i - 1 ==> series[k] == PivotSeries(sheet, rows, k + 1)
    {
      series := series + [PivotSeries(sheet, rows, i)];
    }
    chart := Chart(StackedColumnChart, series);
  }

  /** In the stacked chart of a pivot sheet, every data cell is read by
      exactly one series, the one named by the header cell above it; the
      index column and the header rows are read by no series' values. */
  lemma StackedChartCoversData(sheet: string, rows: nat, columns: nat, series: seq<Series>)
    requires |series| == columns
    requires forall k :: 0 <= k < columns ==> series[k] == PivotSeries(sheet, rows, k + 1)
    ensures forall k :: 0 <= k < columns ==> series[k].name == Some(CellRef(sheet, 1, k + 1))
    ensures forall k, row, col :: 0 <= k < columns && col == k + 1 && 3 <= row <= rows + 2 ==>
              InRange(series[k].values, row, col)
    ensures forall k, row, col :: 0 <= k < columns && InRange(series[k].values, row, col) ==>
              k == col - 1 && 3 <= row <= rows + 2
    ensures forall k, row, col :: 0 <= k < columns && InRange(series[k].categories, row, col) ==>
              col == 0 && 3 <= row <= rows + 2
  {
  }
}

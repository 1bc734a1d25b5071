/** What `to_excel` writes on a sheet for each kind of result, as a map
    from (row, column) to cell, and what the chart series of each sheet
    read from it. */
module Sheets {
  import opened Table
  import opened GroupBy
  import opened Pivots
  import opened Text
  import opened Charts

  datatype Cell = Blank | Number(n: int) | Decimal(r: real) | Str(s: string)

  type Grid = map<(int, int), Cell>

  /** The cells of a block of `rows` rows by `cols` columns from (0, 0). */
  function Block(rows: nat, cols: nat): set<(int, int)>
  {
    set r, c | 0 <= r < rows && 0 <= c < cols :: (r, c)
  }

  /** How a group key is written: years as numbers, text as text. */
  function KeyCell(k: Key): Cell
  {
    match k
    case Year(y) => Number(y)
    case Name(s) => Str(s)
    case Pair(_, _) => Blank
  }

  /** A row of a two-column table: the label or key, then the value. */
  datatype Line = Line(name: Cell, value: Cell)

  function GroupLines(gs: seq<Group>): (ls: seq<Line>)
    ensures |ls| == |gs|
  {
    seq(|gs|, i requires 0 <= i < |gs| => Line(KeyCell(gs[i].key), Number(gs[i].count)))
  }

  /** A two-column table written with its header in row 0 and one row per
      line from row 1: `to_excel(index=False)` of a reset-index frame, or
      `to_excel(index=True)` of a labelled series. */
  function FlatGrid(header: Line, lines: seq<Line>): Grid
  {
    map p | p in Block(|lines| + 1, 2) ::
      if p.0 == 0 then (if p.1 == 0 then header.name else header.value)
      else if p.1 == 0 then lines[p.0 - 1].name
      else lines[p.0 - 1].value
  }

  /** A pivot written with `to_excel`: row 0 carries the name of the value
      column, row 1 the name of the column axis then the column keys, row 2
      the name of the index, and from row 3 one row per index key: the key
      in column 0, then the cells. */
  function PivotGrid(valueName: string, columnsName: string, indexName: string,
                     index: seq<Key>, columns: seq<Key>, cells: seq<seq<Cell>>): Grid
    requires Shaped(cells, |index|, |columns|)
  {
    map p | p in Block(|index| + 3, |columns| + 1) ::
      if p.0 == 0 then (if p.1 == 1 then Str(valueName) else Blank)
      else if p.0 == 1 then (if p.1 == 0 then Str(columnsName) else KeyCell(columns[p.1 - 1]))
      else if p.0 == 2 then (if p.1 == 0 then Str(indexName) else Blank)
      else if p.1 == 0 then KeyCell(index[p.0 - 3])
      else cells[p.0 - 3][p.1 - 1]
  }

  /** The flat layout: the header in row 0, line i in row i + 1, two
      columns and nothing else. */
  lemma FlatGridCells(header: Line, lines: seq<Line>)
    ensures var g := FlatGrid(header, lines);
            && (forall p :: p in g <==> p in Block(|lines| + 1, 2))
            && g[(0, 0)] == header.name && g[(0, 1)] == header.value
            && forall i :: 0 <= i < |lines| ==> g[(i + 1, 0)] == lines[i].name && g[(i + 1, 1)] == lines[i].value
  {
  }

  /** The pivot layout: the names in column 0 of the three header rows,
      the column keys in row 1, index key i and its cells in row i + 3,
      and nothing outside that block. */
  lemma PivotGridCells(valueName: string, columnsName: string, indexName: string,
                       index: seq<Key>, columns: seq<Key>, cells: seq<seq<Cell>>)
    requires Shaped(cells, |index|, |columns|)
    ensures var g := PivotGrid(valueName, columnsName, indexName, index, columns, cells);
            && (forall p :: p in g <==> p in Block(|index| + 3, |columns| + 1))
            && g[(1, 0)] == Str(columnsName) && g[(2, 0)] == Str(indexName)
            && (forall j :: 0 <= j < |columns| ==> g[(1, j + 1)] == KeyCell(columns[j]))
            && (forall i :: 0 <= i < |index| ==> g[(i + 3, 0)] == KeyCell(index[i]))
            && forall i, j :: 0 <= i < |index| && 0 <= j < |columns| ==> g[(i + 3, j + 1)] == cells[i][j]
  {
  }

  /** A pivot cell: a number, or an empty cell for NaN. */
  function RealCell(v: Option<real>): Cell
  {
    if v.Some? then Decimal(v.value) else Blank
  }

  function RealCells(p: Pivot): (cs: seq<seq<Cell>>)
    requires Shaped(p.cells, |p.index|, |p.columns|)
    ensures Shaped(cs, |p.index|, |p.columns|)
  {
    seq(|p.index|, i requires 0 <= i < |p.index| =>
      seq(|p.columns|, j requires 0 <= j < |p.columns| => RealCell(p.cells[i][j])))
  }

  function IntCells(p: IntPivot): (cs: seq<seq<Cell>>)
    requires Shaped(p.cells, |p.index|, |p.columns|)
    ensures Shaped(cs, |p.index|, |p.columns|)
  {
    seq(|p.index|, i requires 0 <= i < |p.index| =>
      seq(|p.columns|, j requires 0 <= j < |p.columns| => Number(p.cells[i][j])))
  }

  /** The sum of the numbers in the value column of a two-column table. */
  function ValueTotal(ls: seq<Line>): int
  {
    if ls == [] then 0 else (if ls[0].value.Number? then ls[0].value.n else 0) + ValueTotal(ls[1..])
  }

  /** A table of groups with year or text keys names each group on one row
      only, and its value column adds up to the groups' total, the sum of
      the bars of its column chart. */
  lemma {:induction false} GroupLinesShowGroups(gs: seq<Group>)
    requires KeysDistinct(gs)
    requires forall i :: 0 <= i < |gs| ==> !gs[i].key.Pair?
    ensures forall i, j :: 0 <= i < |gs| && 0 <= j < |gs| && GroupLines(gs)[i].name == GroupLines(gs)[j].name ==> i == j
    ensures ValueTotal(GroupLines(gs)) == Total(gs)
  {
    if gs != [] {
      assert KeysDistinct(gs[1..]) by {
        forall i, j | 0 <= i < j < |gs[1..]|
          ensures gs[1..][i].key != gs[1..][j].key
        {
          assert gs[1..][i] == gs[i + 1] && gs[1..][j] == gs[j + 1];
        }
      }
      GroupLinesShowGroups(gs[1..]);
      assert GroupLines(gs)[1..] == GroupLines(gs[1..]);
    }
  }

  /** The note written at (0, 3) beside a table: a label and a total. */
  function TotalNote(prefix: string, total: nat): Cell
  {
    Str(prefix + DecimalString(total))
  }

  /** The note reads back as its label followed by the digits of the total. */
  lemma TotalNoteReadsBack(prefix: string, total: nat)
    ensures TotalNote(prefix, total).s[..|prefix|] == prefix
    ensures AllDigits(TotalNote(prefix, total).s[|prefix|..])
    ensures DecimalValue(TotalNote(prefix, total).s[|prefix|..]) == total
  {
    var s := TotalNote(prefix, total).s;
    assert s[|prefix|..] == DecimalString(total);
    DecimalRoundTrip(total);
  }

  /** The column chart of a flat table reads the labels as categories and
      the values as values, one data row each, and never the header. */
  lemma FlatChartReadsTable(sheet: string, header: Line, lines: seq<Line>)
    ensures var g := FlatGrid(header, lines);
            var s := FlatSeries(sheet, |lines|);
            && (forall row, col :: InRange(s.categories, row, col) ==>
                  (row, col) in g && g[(row, col)] == lines[row - 1].name)
            && (forall row, col :: InRange(s.values, row, col) ==>
                  (row, col) in g && g[(row, col)] == lines[row - 1].value)
            && !InRange(s.categories, 0, 0) && !InRange(s.values, 0, 1)
  {
    var g := FlatGrid(header, lines);
    var s := FlatSeries(sheet, |lines|);
    FlatGridCells(header, lines);
    forall row, col | InRange(s.categories, row, col)
      ensures (row, col) in g && g[(row, col)] == lines[row - 1].name
    {
      assert (row, col) in Block(|lines| + 1, 2);
      assert g[((row - 1) + 1, 0)] == lines[row - 1].name;
    }
    forall row, col | InRange(s.values, row, col)
      ensures (row, col) in g && g[(row, col)] == lines[row - 1].value
    {
      assert (row, col) in Block(|lines| + 1, 2);
      assert g[((row - 1) + 1, 1)] == lines[row - 1].value;
    }
  }

  /** Series k of the stacked chart of a pivot sheet is named by column
      key k, takes the index keys as categories and column k's cells as
      values. */
  lemma PivotChartReadsTable(sheet: string, valueName: string, columnsName: string, indexName: string,
                             index: seq<Key>, columns: seq<Key>, cells: seq<seq<Cell>>, k: nat)
    requires Shaped(cells, |index|, |columns|)
    requires k < |columns|
    ensures var g := PivotGrid(valueName, columnsName, indexName, index, columns, cells);
            var s := PivotSeries(sheet, |index|, k + 1);
            && s.name.Some? && (s.name.value.row, s.name.value.col) in g
            && g[(s.name.value.row, s.name.value.col)] == KeyCell(columns[k])
            && (forall row, col :: InRange(s.categories, row, col) ==>
                  (row, col) in g && g[(row, col)] == KeyCell(index[row - 3]))
            && (forall row, col :: InRange(s.values, row, col) ==>
                  (row, col) in g && g[(row, col)] == cells[row - 3][k])
  {
    var g := PivotGrid(valueName, columnsName, indexName, index, columns, cells);
    var s := PivotSeries(sheet, |index|, k + 1);
    PivotGridCells(valueName, columnsName, indexName, index, columns, cells);
    assert (1, k + 1) in Block(|index| + 3, |columns| + 1);
    forall row, col | InRange(s.categories, row, col)
      ensures (row, col) in g && g[(row, col)] == KeyCell(index[row - 3])
    {
      assert (row, col) in Block(|index| + 3, |columns| + 1);
      assert g[((row - 3) + 3, 0)] == KeyCell(index[row - 3]);
    }
    forall row, col | InRange(s.values, row, col)
      ensures (row, col) in g && g[(row, col)] == cells[row - 3][k]
    {
      assert (row, col) in Block(|index| + 3, |columns| + 1);
      assert g[((row - 3) + 3, k + 1)] == cells[row - 3][k];
    }
  }
}

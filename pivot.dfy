/** `pivot_table(index=..., columns=...)` applied to the result of a
    group-by on two columns, with pandas' default mean aggregation, and the
    `fillna(0).astype('int')` that follows it for the host-by-year table.
    The groups of a two-column group-by carry `Pair` keys; the pivot puts
    one part of the pair on its rows (the index) and the other on its
    columns. */
module Pivots {
  import opened Table
  import opened GroupBy

  /** Which part of a two-column key becomes the pivot's index. */
  datatype Axis = First | Second

  function Other(a: Axis): Axis
  {
    if a == First then Second else First
  }

  /** The part of a two-column key on the given axis. */
  function Part(k: Key, axis: Axis): Option<Key>
  {
    if !k.Pair? then None
    else if axis == First then Some(k.fst)
    else Some(k.snd)
  }

  /** The two-column key whose index part is `r` and column part is `c`. */
  function Cross(r: Key, c: Key, index: Axis): (k: Key)
    ensures Part(k, index) == Some(r) && Part(k, Other(index)) == Some(c)
  {
    if index == First then Pair(r, c) else Pair(c, r)
  }

  /** The key column of `groupby([a, b])`: a row whose key is null in
      either column belongs to no group. */
  function PairColumn(a: Column, b: Column): (pc: Column)
    requires |a| == |b|
    ensures |pc| == |a|
  {
    if a == [] then []
    else
      [if a[0].Some? && b[0].Some? then Some(Pair(a[0].value, b[0].value)) else None]
      + PairColumn(a[1..], b[1..])
  }

  ghost predicate AllPairs(pairs: Column)
  {
    forall k :: Some(k) in pairs ==> k.Pair?
  }

  lemma {:induction false} PairColumnPairs(a: Column, b: Column)
    requires |a| == |b|
    ensures AllPairs(PairColumn(a, b))
  {
    if a != [] {
      PairColumnPairs(a[1..], b[1..]);
      assert PairColumn(a, b)[1..] == PairColumn(a[1..], b[1..]);
    }
  }

  /** The parts on one axis of a grouped result's keys, as a column. */
  function Parts(gs: seq<Group>, axis: Axis): (col: Column)
    ensures |col| == |gs|
  {
    if gs == [] then [] else [Part(gs[0].key, axis)] + Parts(gs[1..], axis)
  }

  /** The values of the groups whose key is `k`. */
  function ValuesAt(gs: seq<Group>, k: Key): seq<nat>
  {
    if gs == [] then []
    else (if gs[0].key == k then [gs[0].count] else []) + ValuesAt(gs[1..], k)
  }

  function Sum(vs: seq<nat>): nat
  {
    if vs == [] then 0 else vs[0] + Sum(vs[1..])
  }

  /** The mean aggregation of pivot_table; no value gives NaN (None). */
  function Mean(vs: seq<nat>): Option<real>
  {
    if vs == [] then None else Some(Sum(vs) as real / |vs| as real)
  }

  /** A pivoted table: the index keys (rows), the column keys, and one cell
      per row and column, None standing for NaN. */
  datatype Pivot = Pivot(index: seq<Key>, columns: seq<Key>, cells: seq<seq<Option<real>>>)

  /** A pivoted table after `fillna(0).astype('int')`. */
  datatype IntPivot = IntPivot(index: seq<Key>, columns: seq<Key>, cells: seq<seq<int>>)

  predicate Shaped<T>(cells: seq<seq<T>>, rows: nat, cols: nat)
  {
    |cells| == rows && forall i :: 0 <= i < rows ==> |cells[i]| == cols
  }

  /** `pivot_table(index, columns)`: the distinct index parts ascending as
      rows, the distinct column parts ascending as columns, and in each cell
      the mean of the values of the groups with that pair of parts. */
  function PivotTable(gs: seq<Group>, index: Axis): (p: Pivot)
    ensures Shaped(p.cells, |p.index|, |p.columns|)
    ensures StrictlyAscending(p.index) && StrictlyAscending(p.columns)
  {
    var rows := DistinctKeys(Parts(gs, index));
    var cols := DistinctKeys(Parts(gs, Other(index)));
    Pivot(rows, cols,
      seq(|rows|, i requires 0 <= i < |rows| =>
        seq(|cols|, j requires 0 <= j < |cols| =>
          Mean(ValuesAt(gs, Cross(rows[i], cols[j], index))))))
  }

  /** `astype('int')` on a float: truncation toward zero. */
  function Truncate(v: real): int
  {
    if v >= 0.0 then v.Floor else -((-v).Floor)
  }

  /** `fillna(0).astype('int')`. */
  function FillZero(p: Pivot): (q: IntPivot)
    requires Shaped(p.cells, |p.index|, |p.columns|)
    ensures q.index == p.index && q.columns == p.columns
    ensures Shaped(q.cells, |q.index|, |q.columns|)
  {
    IntPivot(p.index, p.columns,
      seq(|p.index|, i requires 0 <= i < |p.index| =>
        seq(|p.columns|, j requires 0 <= j < |p.columns| =>
          if p.cells[i][j].Some? then Truncate(p.cells[i][j].value) else 0)))
  }

  lemma {:induction false} ValuesAtTally(ks: seq<Key>, col: Column, k: Key)
    requires StrictlyAscending(ks)
    ensures ValuesAt(Tally(ks, col), k) == if k in ks then [Occurrences(col, k)] else []
  {
    if ks != [] {
      assert StrictlyAscending(ks[1..]);
      ValuesAtTally(ks[1..], col, k);
      assert Tally(ks, col)[1..] == Tally(ks[1..], col);
      AscendingIsDistinct(ks);
      assert k in ks <==> k == ks[0] || k in ks[1..];
    }
  }

  lemma {:induction false} PartsOfTally(ks: seq<Key>, col: Column, axis: Axis, r: Key)
    ensures Some(r) in Parts(Tally(ks, col), axis) <==> exists k :: k in ks && Part(k, axis) == Some(r)
  {
    if ks != [] {
      PartsOfTally(ks[1..], col, axis, r);
      assert Tally(ks, col)[1..] == Tally(ks[1..], col);
      assert Parts(Tally(ks, col), axis) == [Part(ks[0], axis)] + Parts(Tally(ks[1..], col), axis);
      if exists k :: k in ks && Part(k, axis) == Some(r) {
        var k :| k in ks && Part(k, axis) == Some(r);
        if k != ks[0] {
          assert k in ks[1..];
        }
      }
    }
  }

  lemma MeanOfOne(v: nat)
    ensures Mean([v]) == Some(v as real)
  {
    assert Sum([v]) == v + Sum([]);
  }

  /** Pivoting the groups of a two-column group-by whose values count the
      rows of `values`: the rows are the index parts that occur, the
      columns the column parts that occur, and each cell holds its group's
      single value (the mean of one value is that value) or is missing
      (NaN) when no row has that pair of keys. */
  lemma PivotOfGroups(pairs: Column, values: Column, index: Axis, p: Pivot)
    requires p == PivotTable(Tally(DistinctKeys(pairs), values), index)
    ensures forall r :: r in p.index <==> exists k :: Some(k) in pairs && Part(k, index) == Some(r)
    ensures forall c :: c in p.columns <==> exists k :: Some(k) in pairs && Part(k, Other(index)) == Some(c)
    ensures forall i, j :: 0 <= i < |p.index| && 0 <= j < |p.columns| ==>
              p.cells[i][j] == if Some(Cross(p.index[i], p.columns[j], index)) in pairs
                               then Some(Occurrences(values, Cross(p.index[i], p.columns[j], index)) as real)
                               else None
  {
    var ks := DistinctKeys(pairs);
    var gs := Tally(ks, values);
    forall r
      ensures r in p.index <==> exists k :: Some(k) in pairs && Part(k, index) == Some(r)
    {
      PartsOfTally(ks, values, index, r);
    }
    forall c
      ensures c in p.columns <==> exists k :: Some(k) in pairs && Part(k, Other(index)) == Some(c)
    {
      PartsOfTally(ks, values, Other(index), c);
    }
    forall i, j | 0 <= i < |p.index| && 0 <= j < |p.columns|
      ensures p.cells[i][j] == if Some(Cross(p.index[i], p.columns[j], index)) in pairs
                               then Some(Occurrences(values, Cross(p.index[i], p.columns[j], index)) as real)
                               else None
    {
      var k := Cross(p.index[i], p.columns[j], index);
      ValuesAtTally(ks, values, k);
      MeanOfOne(Occurrences(values, k));
    }
  }

  lemma {:induction false} PartsOfScale(gs: seq<Group>, factor: nat, axis: Axis)
    ensures Parts(Scale(gs, factor), axis) == Parts(gs, axis)
  {
    if gs != [] {
      PartsOfScale(gs[1..], factor, axis);
      assert Scale(gs, factor)[1..] == Scale(gs[1..], factor);
    }
  }

  lemma {:induction false} ValuesAtScaledTally(ks: seq<Key>, col: Column, factor: nat, k: Key)
    requires StrictlyAscending(ks)
    ensures ValuesAt(Scale(Tally(ks, col), factor), k) == if k in ks then [factor * Occurrences(col, k)] else []
  {
    if ks != [] {
      assert StrictlyAscending(ks[1..]);
      ValuesAtScaledTally(ks[1..], col, factor, k);
      assert Tally(ks, col)[1..] == Tally(ks[1..], col);
      assert Scale(Tally(ks, col), factor)[1..] == Scale(Tally(ks[1..], col), factor);
      AscendingIsDistinct(ks);
      assert k in ks <==> k == ks[0] || k in ks[1..];
    }
  }

  /** The same for groups whose counts were multiplied by `factor`: each
      cell holds `factor` times its group's count, or is missing. */
  lemma PivotOfScaledGroups(pairs: Column, values: Column, factor: nat, index: Axis, p: Pivot)
    requires p == PivotTable(Scale(Tally(DistinctKeys(pairs), values), factor), index)
    ensures forall r :: r in p.index <==> exists k :: Some(k) in pairs && Part(k, index) == Some(r)
    ensures forall c :: c in p.columns <==> exists k :: Some(k) in pairs && Part(k, Other(index)) == Some(c)
    ensures forall i, j :: 0 <= i < |p.index| && 0 <= j < |p.columns| ==>
              p.cells[i][j] == if Some(Cross(p.index[i], p.columns[j], index)) in pairs
                               then Some((factor * Occurrences(values, Cross(p.index[i], p.columns[j], index))) as real)
                               else None
  {
    var ks := DistinctKeys(pairs);
    var gs := Tally(ks, values);
    PartsOfScale(gs, factor, index);
    PartsOfScale(gs, factor, Other(index));
    PivotOfGroups(pairs, values, index, PivotTable(gs, index));
    forall i, j | 0 <= i < |p.index| && 0 <= j < |p.columns|
      ensures p.cells[i][j] == if Some(Cross(p.index[i], p.columns[j], index)) in pairs
                               then Some((factor * Occurrences(values, Cross(p.index[i], p.columns[j], index))) as real)
                               else None
    {
      ScaledCell(ks, values, factor, Cross(p.index[i], p.columns[j], index));
    }
  }

  lemma ScaledCell(ks: seq<Key>, values: Column, factor: nat, k: Key)
    requires StrictlyAscending(ks)
    ensures Mean(ValuesAt(Scale(Tally(ks, values), factor), k))
            == if k in ks then Some((factor * Occurrences(values, k)) as real) else None
  {
    ValuesAtScaledTally(ks, values, factor, k);
    MeanOfOne(factor * Occurrences(values, k));
  }

  /** For a row key `r`, the column parts of the rows whose index part is
      `r`; every other row is null. */
  function Slice(pairs: Column, r: Key, index: Axis): (s: Column)
    ensures |s| == |pairs|
  {
    if pairs == [] then []
    else
      [if pairs[0].Some? && Part(pairs[0].value, index) == Some(r)
       then Part(pairs[0].value, Other(index)) else None]
      + Slice(pairs[1..], r, index)
  }

  /** The index parts of the rows. */
  function Heads(pairs: Column, index: Axis): (h: Column)
    ensures |h| == |pairs|
  {
    if pairs == [] then []
    else [if pairs[0].Some? then Part(pairs[0].value, index) else None] + Heads(pairs[1..], index)
  }

  lemma {:induction false} SliceOccurrences(pairs: Column, r: Key, c: Key, index: Axis)
    requires AllPairs(pairs)
    ensures Occurrences(Slice(pairs, r, index), c) == Occurrences(pairs, Cross(r, c, index))
  {
    if pairs != [] {
      assert AllPairs(pairs[1..]) by {
        forall k | Some(k) in pairs[1..] ensures k.Pair? { assert Some(k) in pairs; }
      }
      SliceOccurrences(pairs[1..], r, c, index);
      if pairs[0].Some? {
        assert pairs[0].value.Pair?;
      }
    }
  }

  lemma {:induction false} SliceNonNull(pairs: Column, r: Key, index: Axis)
    requires AllPairs(pairs)
    ensures NonNull(Slice(pairs, r, index)) == Occurrences(Heads(pairs, index), r)
  {
    if pairs != [] {
      assert AllPairs(pairs[1..]) by {
        forall k | Some(k) in pairs[1..] ensures k.Pair? { assert Some(k) in pairs; }
      }
      SliceNonNull(pairs[1..], r, index);
      if pairs[0].Some? {
        assert pairs[0].value.Pair?;
      }
    }
  }

  lemma {:induction false} HeadsNonNull(pairs: Column, index: Axis)
    requires AllPairs(pairs)
    ensures NonNull(Heads(pairs, index)) == NonNull(pairs)
  {
    if pairs != [] {
      assert AllPairs(pairs[1..]) by {
        forall k | Some(k) in pairs[1..] ensures k.Pair? { assert Some(k) in pairs; }
      }
      HeadsNonNull(pairs[1..], index);
      if pairs[0].Some? {
        assert pairs[0].value.Pair?;
      }
    }
  }

  lemma {:induction false} HeadsMembers(pairs: Column, index: Axis, r: Key)
    ensures Some(r) in Heads(pairs, index) ==> exists k :: Some(k) in pairs && Part(k, index) == Some(r)
  {
    if pairs != [] && Some(r) in Heads(pairs, index) {
      if Heads(pairs, index)[0] == Some(r) {
        assert Some(pairs[0].value) in pairs;
      } else {
        assert Some(r) in Heads(pairs[1..], index);
        HeadsMembers(pairs[1..], index, r);
        var k :| Some(k) in pairs[1..] && Part(k, index) == Some(r);
        assert Some(k) in pairs;
      }
    }
  }

  lemma {:induction false} SliceMembers(pairs: Column, r: Key, index: Axis, c: Key)
    ensures Some(c) in Slice(pairs, r, index) ==> exists k :: Some(k) in pairs && Part(k, Other(index)) == Some(c)
  {
    if pairs != [] && Some(c) in Slice(pairs, r, index) {
      if Slice(pairs, r, index)[0] == Some(c) {
        assert Some(pairs[0].value) in pairs;
      } else {
        assert Some(c) in Slice(pairs[1..], r, index);
        SliceMembers(pairs[1..], r, index, c);
        var k :| Some(k) in pairs[1..] && Part(k, Other(index)) == Some(c);
        assert Some(k) in pairs;
      }
    }
  }

  /** The sum, over row keys `rows` and column keys `cols`, of the number
      of rows with each pair of keys. */
  function GridTotal(rows: seq<Key>, cols: seq<Key>, pairs: Column, index: Axis): nat
  {
    if rows == [] then 0
    else Total(Tally(cols, Slice(pairs, rows[0], index))) + GridTotal(rows[1..], cols, pairs, index)
  }

  lemma {:induction false} GridTotalByRows(rows: seq<Key>, cols: seq<Key>, pairs: Column, index: Axis)
    requires AllPairs(pairs) && StrictlyAscending(cols)
    requires forall c, r :: Some(c) in Slice(pairs, r, index) ==> c in cols
    ensures GridTotal(rows, cols, pairs, index) == Total(Tally(rows, Heads(pairs, index)))
  {
    if rows != [] {
      GridTotalByRows(rows[1..], cols, pairs, index);
      assert Tally(rows, Heads(pairs, index))[1..] == Tally(rows[1..], Heads(pairs, index));
      var s := Slice(pairs, rows[0], index);
      TallyTotal(cols, s);
      CountInAll(s, Elements(cols));
      SliceNonNull(pairs, rows[0], index);
    }
  }

  /** When the row and column keys include every pair that occurs, the
      grid of counts adds up to all the rows with a non-null pair. */
  lemma GridTotalAll(rows: seq<Key>, cols: seq<Key>, pairs: Column, index: Axis)
    requires AllPairs(pairs) && StrictlyAscending(rows) && StrictlyAscending(cols)
    requires forall r :: Some(r) in Heads(pairs, index) ==> r in rows
    requires forall c, r :: Some(c) in Slice(pairs, r, index) ==> c in cols
    ensures GridTotal(rows, cols, pairs, index) == NonNull(pairs)
  {
    GridTotalByRows(rows, cols, pairs, index);
    TallyTotal(rows, Heads(pairs, index));
    CountInAll(Heads(pairs, index), Elements(rows));
    HeadsNonNull(pairs, index);
  }

  function CellValue(c: Option<real>): real
  {
    if c.Some? then c.value else 0.0
  }

  /** The sum of a pivot row's non-missing cells. */
  function RowSum(row: seq<Option<real>>): real
  {
    if row == [] then 0.0 else CellValue(row[0]) + RowSum(row[1..])
  }

  /** The sum of all non-missing cells. */
  function CellsTotal(cells: seq<seq<Option<real>>>): real
  {
    if cells == [] then 0.0 else RowSum(cells[0]) + CellsTotal(cells[1..])
  }

  lemma {:induction false} RowSumOfCounts(row: seq<Option<real>>, gs: seq<Group>)
    requires |row| == |gs|
    requires forall j :: 0 <= j < |row| ==> CellValue(row[j]) == gs[j].count as real
    ensures RowSum(row) == Total(gs) as real
  {
    if row != [] {
      RowSumOfCounts(row[1..], gs[1..]);
    }
  }

  lemma {:induction false} CellsTotalOfRows(cells: seq<seq<Option<real>>>, rows: seq<Key>, cols: seq<Key>,
                                            pairs: Column, index: Axis)
    requires |cells| == |rows|
    requires forall i :: 0 <= i < |rows| ==>
               RowSum(cells[i]) == Total(Tally(cols, Slice(pairs, rows[i], index))) as real
    ensures CellsTotal(cells) == GridTotal(rows, cols, pairs, index) as real
  {
    if cells != [] {
      CellsTotalOfRows(cells[1..], rows[1..], cols, pairs, index);
    }
  }

  /** The non-missing cells of the pivot of a two-column `size()` add up to
      the number of rows with a non-null pair of keys. */
  lemma PivotTotal(pairs: Column, index: Axis, p: Pivot)
    requires AllPairs(pairs)
    requires p == PivotTable(Size(pairs), index)
    ensures CellsTotal(p.cells) == NonNull(pairs) as real
  {
    PivotOfGroups(pairs, pairs, index, p);
    PivotRowSums(pairs, index, p);
    CellsTotalOfRows(p.cells, p.index, p.columns, pairs, index);
    PivotAxesCover(pairs, index, p);
    GridTotalAll(p.index, p.columns, pairs, index);
  }

  /** Each row of the pivot of a two-column `size()` adds up to the tally
      of that row's slice over the columns. */
  lemma PivotRowSums(pairs: Column, index: Axis, p: Pivot)
    requires AllPairs(pairs)
    requires p == PivotTable(Size(pairs), index)
    ensures Shaped(p.cells, |p.index|, |p.columns|)
    ensures forall i :: 0 <= i < |p.index| ==>
              RowSum(p.cells[i]) == Total(Tally(p.columns, Slice(pairs, p.index[i], index))) as real
  {
    PivotOfGroups(pairs, pairs, index, p);
    forall i | 0 <= i < |p.index|
      ensures RowSum(p.cells[i]) == Total(Tally(p.columns, Slice(pairs, p.index[i], index))) as real
    {
      SliceRowSum(pairs, index, p.index[i], p.columns, p.cells[i]);
    }
  }

  /** A pivot row whose cells count the rows with each pair of keys adds up
      to the tally of the row's slice. */
  lemma SliceRowSum(pairs: Column, index: Axis, r: Key, columns: seq<Key>, row: seq<Option<real>>)
    requires AllPairs(pairs)
    requires |row| == |columns|
    requires forall j :: 0 <= j < |columns| ==>
               row[j] == if Some(Cross(r, columns[j], index)) in pairs
                         then Some(Occurrences(pairs, Cross(r, columns[j], index)) as real)
                         else None
    ensures RowSum(row) == Total(Tally(columns, Slice(pairs, r, index))) as real
  {
    var gs := Tally(columns, Slice(pairs, r, index));
    forall j | 0 <= j < |columns|
      ensures CellValue(row[j]) == gs[j].count as real
    {
      SliceOccurrences(pairs, r, columns[j], index);
    }
    RowSumOfCounts(row, gs);
  }

  /** Every key of a pair lies on the matching axis of the pivot. */
  lemma PivotAxesCover(pairs: Column, index: Axis, p: Pivot)
    requires p == PivotTable(Size(pairs), index)
    ensures forall r :: Some(r) in Heads(pairs, index) ==> r in p.index
    ensures forall c, r :: Some(c) in Slice(pairs, r, index) ==> c in p.columns
  {
    PivotOfGroups(pairs, pairs, index, p);
    forall r | Some(r) in Heads(pairs, index)
      ensures r in p.index
    {
      HeadsMembers(pairs, index, r);
    }
    forall c, r | Some(c) in Slice(pairs, r, index)
      ensures c in p.columns
    {
      SliceMembers(pairs, r, index, c);
    }
  }

  /** After `fillna(0).astype('int')` the pivot of a two-column `size()` is
      a full grid of counts: every cell is the number of rows with its pair
      of keys, 0 where no row has it. */
  lemma FilledPivotCounts(pairs: Column, index: Axis, q: IntPivot)
    requires q == FillZero(PivotTable(Size(pairs), index))
    ensures forall i, j :: 0 <= i < |q.index| && 0 <= j < |q.columns| ==>
              q.cells[i][j] == Occurrences(pairs, Cross(q.index[i], q.columns[j], index))
  {
    var p := PivotTable(Size(pairs), index);
    PivotOfGroups(pairs, pairs, index, p);
  }
}

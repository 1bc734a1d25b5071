/** The grouping the analyses use, restated: `groupby(key).size()`,
    `groupby(key)[value].count()`, `Series.count()` and `sort_values()`.
    A group-by column is a sequence of keys, one per row, where a null key
    (NaN) is None; pandas leaves rows with a null key out of every group. */
module GroupBy {
  import opened Table

  type Column = seq<Option<Key>>

  /** One row of a grouped result: the key and its aggregated value. */
  datatype Group = Group(key: Key, count: nat)

  /** The number of rows whose key is `k`. */
  function Occurrences(col: Column, k: Key): (n: nat)
    ensures n <= |col|
    ensures n > 0 <==> Some(k) in col
  {
    if col == [] then 0
    else (if col[0] == Some(k) then 1 else 0) + Occurrences(col[1..], k)
  }

  /** `Series.count()`: the number of non-null entries. */
  function NonNull(col: Column): (n: nat)
    ensures n <= |col|
  {
    if col == [] then 0
    else (if col[0].Some? then 1 else 0) + NonNull(col[1..])
  }

  /** The number of rows whose key is one of `ks`. */
  function CountIn(col: Column, ks: set<Key>): nat
  {
    if col == [] then 0
    else (if col[0].Some? && col[0].value in ks then 1 else 0) + CountIn(col[1..], ks)
  }

  function Elements(ks: seq<Key>): set<Key>
  {
    set k | k in ks
  }

  /** Counting the rows of a set of keys that holds every key present
      counts every non-null row. */
  lemma {:induction false} CountInAll(col: Column, ks: set<Key>)
    requires forall k :: Some(k) in col ==> k in ks
    ensures CountIn(col, ks) == NonNull(col)
  {
    if col != [] {
      forall k | Some(k) in col[1..]
        ensures k in ks
      {
        assert Some(k) in col;
      }
      CountInAll(col[1..], ks);
    }
  }

  lemma {:induction false} CountInAdd(col: Column, ks: set<Key>, k: Key)
    requires k !in ks
    ensures CountIn(col, ks + {k}) == CountIn(col, ks) + Occurrences(col, k)
  {
    if col != [] {
      CountInAdd(col[1..], ks, k);
    }
  }

  lemma {:induction false} CountInNothing(col: Column)
    ensures CountIn(col, {}) == 0
  {
    if col != [] {
      CountInNothing(col[1..]);
    }
  }

  /** Prepending a key below every key of an ascending list keeps it
      ascending. */
  lemma PrependAscending(k: Key, ks: seq<Key>)
    requires StrictlyAscending(ks)
    requires forall x :: x in ks ==> KeyLt(k, x)
    ensures StrictlyAscending([k] + ks)
  {
    forall i, j | 0 <= i < j < |[k] + ks|
      ensures KeyLt(([k] + ks)[i], ([k] + ks)[j])
    {
      if i == 0 {
        assert ks[j - 1] in ks;
      }
    }
  }

  /** Adds `k` to an ascending key list unless it is there already. */
  function Insert(ks: seq<Key>, k: Key): (r: seq<Key>)
    requires StrictlyAscending(ks)
    ensures StrictlyAscending(r)
    ensures forall x :: x in r <==> x in ks || x == k
  {
    if ks == [] then [k]
    else if k == ks[0] then ks
    else if KeyLt(k, ks[0]) then
      InsertBelow(k, ks);
      [k] + ks
    else
      KeyLtTotal(k, ks[0]);
      var rest := Insert(ks[1..], k);
      InsertAbove(k, ks, rest);
      [ks[0]] + rest
  }

  lemma InsertBelow(k: Key, ks: seq<Key>)
    requires StrictlyAscending(ks) && ks != [] && KeyLt(k, ks[0])
    ensures StrictlyAscending([k] + ks)
  {
    forall x | x in ks
      ensures KeyLt(k, x)
    {
      if x != ks[0] {
        var j :| 0 < j < |ks| && ks[j] == x;
        KeyLtTransitive(k, ks[0], x);
      }
    }
    PrependAscending(k, ks);
  }

  lemma InsertAbove(k: Key, ks: seq<Key>, rest: seq<Key>)
    requires StrictlyAscending(ks) && ks != [] && KeyLt(ks[0], k)
    requires StrictlyAscending(rest)
    requires forall x :: x in rest <==> x in ks[1..] || x == k
    ensures StrictlyAscending([ks[0]] + rest)
  {
    forall x | x in rest
      ensures KeyLt(ks[0], x)
    {
      if x != k {
        var j :| 0 <= j < |ks[1..]| && ks[1..][j] == x;
        assert ks[j + 1] == x;
      }
    }
    PrependAscending(ks[0], rest);
  }

  /** The group keys: every non-null key of the column once, ascending. */
  function DistinctKeys(col: Column): (ks: seq<Key>)
    ensures StrictlyAscending(ks)
    ensures forall k :: k in ks <==> Some(k) in col
  {
    if col == [] then []
    else if col[0].None? then DistinctKeys(col[1..])
    else Insert(DistinctKeys(col[1..]), col[0].value)
  }

  /** The groups of keys `ks`, each with the number of rows of `col` that
      carry its key. */
  function Tally(ks: seq<Key>, col: Column): (gs: seq<Group>)
    ensures |gs| == |ks|
    ensures forall i :: 0 <= i < |ks| ==> gs[i] == Group(ks[i], Occurrences(col, ks[i]))
  {
    if ks == [] then []
    else [Group(ks[0], Occurrences(col, ks[0]))] + Tally(ks[1..], col)
  }

  /** The sum of a grouped result's values. */
  function Total(gs: seq<Group>): nat
  {
    if gs == [] then 0 else gs[0].count + Total(gs[1..])
  }

  /** Over distinct keys, the group counts add up to the rows carrying one
      of the keys. */
  lemma {:induction false} TallyTotal(ks: seq<Key>, col: Column)
    requires StrictlyAscending(ks)
    ensures Total(Tally(ks, col)) == CountIn(col, Elements(ks))
  {
    if ks != [] {
      TallyTotal(ks[1..], col);
      assert Tally(ks, col)[1..] == Tally(ks[1..], col);
      AscendingIsDistinct(ks);
      assert ks[0] !in ks[1..];
      assert Elements(ks) == Elements(ks[1..]) + {ks[0]};
      CountInAdd(col, Elements(ks[1..]), ks[0]);
    } else {
      assert Elements(ks) == {};
      CountInNothing(col);
    }
  }

  /** `groupby(key).size()`: one group per distinct non-null key, ascending,
      with its number of rows. */
  function Size(col: Column): seq<Group>
  {
    Tally(DistinctKeys(col), col)
  }

  /** The key column restricted to rows whose value is non-null: the other
      rows keep their group but are not counted in it. */
  function Mask(col: Column, present: seq<bool>): (m: Column)
    requires |present| == |col|
    ensures |m| == |col|
  {
    if col == [] then []
    else [if present[0] then col[0] else None] + Mask(col[1..], present[1..])
  }

  /** `groupby(key)[value].count()`: one group per distinct non-null key,
      ascending, counting the rows of the group whose value is non-null. */
  function CountValues(keys: Column, present: seq<bool>): seq<Group>
    requires |present| == |keys|
  {
    Tally(DistinctKeys(keys), Mask(keys, present))
  }

  /** A grouped result with every value multiplied by `factor`. */
  function Scale(gs: seq<Group>, factor: nat): (r: seq<Group>)
    ensures |r| == |gs|
    ensures forall i :: 0 <= i < |gs| ==> r[i] == Group(gs[i].key, factor * gs[i].count)
  {
    if gs == [] then [] else [Group(gs[0].key, factor * gs[0].count)] + Scale(gs[1..], factor)
  }

  /** Scaling every value scales the sum. */
  lemma {:induction false} ScaleTotal(gs: seq<Group>, factor: nat)
    ensures Total(Scale(gs, factor)) == factor * Total(gs)
  {
    if gs != [] {
      ScaleTotal(gs[1..], factor);
      assert Scale(gs, factor)[1..] == Scale(gs[1..], factor);
    }
  }

  predicate KeysAscending(gs: seq<Group>)
  {
    forall i, j :: 0 <= i < j < |gs| ==> KeyLt(gs[i].key, gs[j].key)
  }

  predicate KeysDistinct(gs: seq<Group>)
  {
    forall i, j :: 0 <= i < j < |gs| ==> gs[i].key != gs[j].key
  }

  predicate CountsAscending(gs: seq<Group>)
  {
    forall i, j :: 0 <= i < j < |gs| ==> gs[i].count <= gs[j].count
  }

  /** `groupby(key).size()` has every non-null key exactly once, in
      ascending order, each with a positive count equal to its rows, and the
      counts add up to the non-null rows. */
  lemma SizeGroups(col: Column)
    ensures KeysAscending(Size(col)) && KeysDistinct(Size(col))
    ensures forall k :: (exists g :: g in Size(col) && g.key == k) <==> Some(k) in col
    ensures forall g :: g in Size(col) ==> g.count == Occurrences(col, g.key) && g.count >= 1
    ensures Total(Size(col)) == NonNull(col)
  {
    var ks := DistinctKeys(col);
    var gs := Size(col);
    AscendingIsDistinct(ks);
    forall k | Some(k) in col
      ensures exists g :: g in gs && g.key == k
    {
      var i :| 0 <= i < |ks| && ks[i] == k;
      assert gs[i] in gs;
    }
    TallyTotal(ks, col);
    CountInAll(col, Elements(ks));
  }

  lemma {:induction false} MaskKeys(col: Column, present: seq<bool>, k: Key)
    requires |present| == |col|
    ensures Some(k) in Mask(col, present) ==> Some(k) in col
    ensures Occurrences(Mask(col, present), k) <= Occurrences(col, k)
  {
    if col != [] {
      MaskKeys(col[1..], present[1..], k);
    }
  }

  /** `groupby(key)[value].count()` has every non-null key exactly once, in
      ascending order, each with the count of its rows whose value is
      non-null (possibly 0), and the counts add up to the rows whose key
      and value are both non-null. */
  lemma CountValuesGroups(keys: Column, present: seq<bool>)
    requires |present| == |keys|
    ensures KeysAscending(CountValues(keys, present))
    ensures forall k :: (exists g :: g in CountValues(keys, present) && g.key == k) <==> Some(k) in keys
    ensures forall g :: g in CountValues(keys, present) ==>
              g.count == Occurrences(Mask(keys, present), g.key) <= Occurrences(keys, g.key)
    ensures Total(CountValues(keys, present)) == NonNull(Mask(keys, present))
  {
    var ks := DistinctKeys(keys);
    var gs := CountValues(keys, present);
    forall k | Some(k) in keys
      ensures exists g :: g in gs && g.key == k
    {
      var i :| 0 <= i < |ks| && ks[i] == k;
      assert gs[i] in gs;
    }
    forall g | g in gs
      ensures Occurrences(Mask(keys, present), g.key) <= Occurrences(keys, g.key)
    {
      MaskKeys(keys, present, g.key);
    }
    forall k | Some(k) in Mask(keys, present)
      ensures k in Elements(ks)
    {
      MaskKeys(keys, present, k);
    }
    TallyTotal(ks, Mask(keys, present));
    CountInAll(Mask(keys, present), Elements(ks));
  }

  lemma PrependCounts(g: Group, gs: seq<Group>)
    requires CountsAscending(gs)
    requires forall h :: h in gs ==> g.count <= h.count
    ensures CountsAscending([g] + gs)
  {
    forall i, j | 0 <= i < j < |[g] + gs|
      ensures ([g] + gs)[i].count <= ([g] + gs)[j].count
    {
      if i == 0 {
        assert gs[j - 1] in gs;
      }
    }
  }

  /** Places `g` before the first group whose count is not smaller. */
  function InsertByCount(g: Group, gs: seq<Group>): (r: seq<Group>)
    requires CountsAscending(gs)
    ensures CountsAscending(r)
    ensures multiset(r) == multiset(gs) + multiset{g}
  {
    if gs == [] || g.count <= gs[0].count then
      PrependCounts(g, gs);
      [g] + gs
    else
      var rest := InsertByCount(g, gs[1..]);
      InsertAfterHead(g, gs, rest);
      assert gs == [gs[0]] + gs[1..];
      [gs[0]] + rest
  }

  lemma InsertAfterHead(g: Group, gs: seq<Group>, rest: seq<Group>)
    requires CountsAscending(gs) && gs != [] && gs[0].count < g.count
    requires CountsAscending(rest)
    requires multiset(rest) == multiset(gs[1..]) + multiset{g}
    ensures CountsAscending([gs[0]] + rest)
  {
    forall h | h in rest
      ensures gs[0].count <= h.count
    {
      assert h in multiset(rest);
      if h != g {
        assert h in multiset(gs[1..]);
        var j :| 0 <= j < |gs[1..]| && gs[1..][j] == h;
        assert gs[j + 1] == h;
      }
    }
    PrependCounts(gs[0], rest);
  }

  lemma PrependKeys(g: Group, gs: seq<Group>)
    requires KeysDistinct(gs)
    requires forall h :: h in gs ==> h.key != g.key
    ensures KeysDistinct([g] + gs)
  {
    forall i, j | 0 <= i < j < |[g] + gs|
      ensures ([g] + gs)[i].key != ([g] + gs)[j].key
    {
      if i == 0 {
        assert gs[j - 1] in gs;
      }
    }
  }

  lemma InsertByCountMembers(g: Group, gs: seq<Group>)
    requires CountsAscending(gs)
    ensures forall h :: h in InsertByCount(g, gs) <==> h in gs || h == g
  {
    var r := InsertByCount(g, gs);
    forall h
      ensures h in r <==> h in gs || h == g
    {
      assert h in r <==> h in multiset(r);
      assert h in gs <==> h in multiset(gs);
    }
  }

  /** Inserting a group whose key is new keeps the keys distinct. */
  lemma {:induction false} InsertByCountKeys(g: Group, gs: seq<Group>)
    requires CountsAscending(gs) && KeysDistinct(gs)
    requires forall h :: h in gs ==> h.key != g.key
    ensures KeysDistinct(InsertByCount(g, gs))
  {
    if gs == [] || g.count <= gs[0].count {
      PrependKeys(g, gs);
    } else {
      var rest := InsertByCount(g, gs[1..]);
      InsertByCountKeys(g, gs[1..]);
      InsertByCountMembers(g, gs[1..]);
      PrependKeys(gs[0], rest);
    }
  }

  /** `sort_values()` on a grouped result: the same groups, by
      non-decreasing count. Pandas does not fix the order of equal counts;
      this one is a valid choice. */
  function SortByCount(gs: seq<Group>): (r: seq<Group>)
    ensures CountsAscending(r)
    ensures multiset(r) == multiset(gs)
  {
    if gs == [] then []
    else
      assert gs == [gs[0]] + gs[1..];
      InsertByCount(gs[0], SortByCount(gs[1..]))
  }

  /** Sorting groups with distinct keys keeps the keys distinct. */
  lemma {:induction false} SortByCountKeys(gs: seq<Group>)
    requires KeysDistinct(gs)
    ensures KeysDistinct(SortByCount(gs))
  {
    if gs != [] {
      var rest := SortByCount(gs[1..]);
      SortByCountKeys(gs[1..]);
      forall h | h in rest
        ensures h.key != gs[0].key
      {
        assert h in multiset(rest);
        assert h in multiset(gs[1..]);
        var j :| 0 <= j < |gs[1..]| && gs[1..][j] == h;
        assert gs[j + 1] == h;
      }
      InsertByCountKeys(gs[0], rest);
    }
  }

  lemma {:induction false} InsertByCountTotal(g: Group, gs: seq<Group>)
    requires CountsAscending(gs)
    ensures Total(InsertByCount(g, gs)) == g.count + Total(gs)
  {
    if gs != [] && g.count > gs[0].count {
      InsertByCountTotal(g, gs[1..]);
      assert ([gs[0]] + InsertByCount(g, gs[1..]))[1..] == InsertByCount(g, gs[1..]);
    }
  }

  /** Reordering the groups does not change their total. */
  lemma {:induction false} SortByCountTotal(gs: seq<Group>)
    ensures Total(SortByCount(gs)) == Total(gs)
  {
    if gs != [] {
      SortByCountTotal(gs[1..]);
      InsertByCountTotal(gs[0], SortByCount(gs[1..]));
    }
  }

  lemma SortByCountMembers(gs: seq<Group>)
    ensures forall g :: g in SortByCount(gs) <==> g in gs
  {
    var r := SortByCount(gs);
    forall g
      ensures g in r <==> g in gs
    {
      assert g in r <==> g in multiset(r);
      assert g in gs <==> g in multiset(gs);
    }
  }

  /** The groups of a scaled result are the original groups, each with its
      value multiplied, in the same order. */
  lemma ScaleMembers(gs: seq<Group>, factor: nat)
    ensures KeysAscending(gs) ==> KeysAscending(Scale(gs, factor))
    ensures forall g :: g in Scale(gs, factor) <==> exists h :: h in gs && g == Group(h.key, factor * h.count)
  {
    var r := Scale(gs, factor);
    forall g
      ensures g in r <==> exists h :: h in gs && g == Group(h.key, factor * h.count)
    {
      if g in r {
        var i :| 0 <= i < |r| && r[i] == g;
        assert gs[i] in gs;
      }
      if exists h :: h in gs && g == Group(h.key, factor * h.count) {
        var h :| h in gs && g == Group(h.key, factor * h.count);
        var i :| 0 <= i < |gs| && gs[i] == h;
        assert r[i] == g;
      }
    }
  }
}

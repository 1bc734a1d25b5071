/** The aggregations behind the report sheets of analyse_workshops.py, as
    functions of the workshop table, and what each one promises, stated
    against a direct count of the rows that satisfy a condition. */
module Workshops {
  import opened Table
  import opened GroupBy
  import opened Pivots
  import opened Text

  /** The columns the analyses group by. */
  datatype Field = YearField | TypeField | HostField | RegionField

  /** The columns the analyses count non-null values of. */
  datatype ValueField = SlugField | AttendanceField | TagsField

  /** The group key of a row in a column; None for a null entry. */
  function KeyOf(w: Workshop, f: Field): Option<Key>
  {
    match f
    case YearField => Some(Year(w.year))
    case TypeField => Some(Name(w.workshopType))
    case HostField => if w.host.Some? then Some(Name(w.host.value)) else None
    case RegionField => if w.region.Some? then Some(Name(w.region.value)) else None
  }

  function HasValue(w: Workshop, v: ValueField): bool
  {
    match v
    case SlugField => w.slug.Some?
    case AttendanceField => w.attendance.Some?
    case TagsField => w.tags.Some?
  }

  /** `df[f]` as a group-by column. */
  function KeyColumn(ws: seq<Workshop>, f: Field): (col: Column)
    ensures |col| == |ws|
  {
    if ws == [] then [] else [KeyOf(ws[0], f)] + KeyColumn(ws[1..], f)
  }

  /** `df[v].notnull()`. */
  function Present(ws: seq<Workshop>, v: ValueField): (p: seq<bool>)
    ensures |p| == |ws|
  {
    if ws == [] then [] else [HasValue(ws[0], v)] + Present(ws[1..], v)
  }

  /** A condition on one row, used to state what the aggregations count. */
  datatype Condition =
    | Is(field: Field, key: Key)
    | Known(known: Field)
    | Has(value: ValueField)
    | Tagged(word: string)
    | Both(left: Condition, right: Condition)

  predicate Holds(w: Workshop, c: Condition)
  {
    match c
    case Is(f, k) => KeyOf(w, f) == Some(k)
    case Known(f) => KeyOf(w, f).Some?
    case Has(v) => HasValue(w, v)
    case Tagged(word) => w.tags.Some? && Contains(w.tags.value, word)
    case Both(a, b) => Holds(w, a) && Holds(w, b)
  }

  /** The number of rows that satisfy `c`. */
  function CountWhere(ws: seq<Workshop>, c: Condition): (n: nat)
    ensures n <= |ws|
  {
    if ws == [] then 0 else (if Holds(ws[0], c) then 1 else 0) + CountWhere(ws[1..], c)
  }

  /** Some row is counted exactly when some row satisfies the condition. */
  lemma {:induction false} CountWherePositive(ws: seq<Workshop>, c: Condition)
    ensures CountWhere(ws, c) > 0 <==> exists w :: w in ws && Holds(w, c)
  {
    if ws != [] {
      CountWherePositive(ws[1..], c);
      if CountWhere(ws, c) > 0 && !Holds(ws[0], c) {
        var w :| w in ws[1..] && Holds(w, c);
        assert w in ws;
      }
      if exists w :: w in ws && Holds(w, c) {
        var w :| w in ws && Holds(w, c);
        if w != ws[0] {
          assert w in ws[1..];
        }
      }
    }
  }

  /** Boolean indexing `df[mask]`: the rows that satisfy `c`, in order. */
  function Select(ws: seq<Workshop>, c: Condition): (s: seq<Workshop>)
    ensures forall w :: w in s <==> w in ws && Holds(w, c)
  {
    if ws == [] then []
    else
      assert forall w :: w in ws <==> w == ws[0] || w in ws[1..];
      (if Holds(ws[0], c) then [ws[0]] else []) + Select(ws[1..], c)
  }

  // ---- The aggregations, one per analysis ----

  /** workshops_per_year_analysis: `groupby(['year']).size()`. */
  function WorkshopsPerYear(ws: seq<Workshop>): seq<Group>
  {
    Size(KeyColumn(ws, YearField))
  }

  /** workshops_per_type_analysis: `groupby(['workshop_type']).size()`. */
  function WorkshopsPerType(ws: seq<Workshop>): seq<Group>
  {
    Size(KeyColumn(ws, TypeField))
  }

  /** workshops_per_type_per_year_analysis: group by (type, year), then
      pivot with years as rows and types as columns. */
  function WorkshopsPerTypePerYear(ws: seq<Workshop>): Pivot
  {
    PivotTable(Size(PairColumn(KeyColumn(ws, TypeField), KeyColumn(ws, YearField))), Second)
  }

  /** `df.dropna(subset=['organiser_top_level_web_domain'])`. */
  function DropNullHosts(ws: seq<Workshop>): seq<Workshop>
  {
    Select(ws, Known(HostField))
  }

  /** workshops_per_host_analysis: drop rows without a host, count per
      host, order by count. */
  function WorkshopsPerHost(ws: seq<Workshop>): seq<Group>
  {
    SortByCount(Size(KeyColumn(DropNullHosts(ws), HostField)))
  }

  /** workshops_per_host_per_year_analysis: drop rows without a host, group
      by (host, year), pivot with hosts as rows and years as columns, and
      fill the missing cells with 0. */
  function WorkshopsPerHostPerYear(ws: seq<Workshop>): IntPivot
  {
    var d := DropNullHosts(ws);
    FillZero(PivotTable(Size(PairColumn(KeyColumn(d, HostField), KeyColumn(d, YearField))), First))
  }

  /** A labelled value of the online / in-person series. */
  datatype Labelled = Labelled(caption: string, amount: int)

  /** online_workshop_analysis. With a null tag, `str.contains` yields NaN,
      boolean indexing with it raises, and no series is produced. */
  function OnlineVsInPerson(ws: seq<Workshop>): Result<seq<Labelled>>
  {
    if exists i :: 0 <= i < |ws| && ws[i].tags.None? then Err(NullTags)
    else
      var online := CountWhere(Select(ws, Tagged("online")), Has(TagsField));
      var inPerson := CountWhere(ws, Has(SlugField)) - online;
      Ok([Labelled("Online", online), Labelled("In-person", inPerson)])
  }

  /** estimated_attendance_per_year_analysis:
      `groupby(['year'])['slug'].count() * 20`. */
  function EstimatedAttendancePerYear(ws: seq<Workshop>): seq<Group>
  {
    Scale(CountValues(KeyColumn(ws, YearField), Present(ws, SlugField)), EstimatedAttendeesPerWorkshop)
  }

  /** estimated_attendance_per_type_analysis:
      `groupby(['workshop_type'])['slug'].count() * 20`. */
  function EstimatedAttendancePerType(ws: seq<Workshop>): seq<Group>
  {
    Scale(CountValues(KeyColumn(ws, TypeField), Present(ws, SlugField)), EstimatedAttendeesPerWorkshop)
  }

  /** estimated_attendance_per_type_per_year_analysis:
      `groupby(['year', 'workshop_type'])['attendance'].count() * 20`,
      pivoted with years as rows and types as columns. */
  function EstimatedAttendancePerTypePerYear(ws: seq<Workshop>): Pivot
  {
    var pairs := PairColumn(KeyColumn(ws, YearField), KeyColumn(ws, TypeField));
    PivotTable(Scale(CountValues(pairs, Present(ws, AttendanceField)), EstimatedAttendeesPerWorkshop), First)
  }

  /** workshops_per_uk_region_analysis: `groupby(['region']).size()`
      ordered by count; rows without a region belong to no group. */
  function WorkshopsPerRegion(ws: seq<Workshop>): seq<Group>
  {
    SortByCount(Size(KeyColumn(ws, RegionField)))
  }

  // ---- Columns against the direct row counts ----

  lemma {:induction false} KeyColumnCounts(ws: seq<Workshop>, f: Field, k: Key)
    ensures Occurrences(KeyColumn(ws, f), k) == CountWhere(ws, Is(f, k))
  {
    if ws != [] {
      KeyColumnCounts(ws[1..], f, k);
      assert KeyColumn(ws, f)[1..] == KeyColumn(ws[1..], f);
    }
  }

  lemma {:induction false} KeyColumnNonNull(ws: seq<Workshop>, f: Field)
    ensures NonNull(KeyColumn(ws, f)) == CountWhere(ws, Known(f))
  {
    if ws != [] {
      KeyColumnNonNull(ws[1..], f);
      assert KeyColumn(ws, f)[1..] == KeyColumn(ws[1..], f);
    }
  }

  lemma {:induction false} MaskedCounts(ws: seq<Workshop>, f: Field, v: ValueField, k: Key)
    ensures Occurrences(Mask(KeyColumn(ws, f), Present(ws, v)), k) == CountWhere(ws, Both(Is(f, k), Has(v)))
  {
    if ws != [] {
      MaskedCounts(ws[1..], f, v, k);
      assert KeyColumn(ws, f)[1..] == KeyColumn(ws[1..], f);
      assert Present(ws, v)[1..] == Present(ws[1..], v);
      assert Mask(KeyColumn(ws, f), Present(ws, v))[1..] == Mask(KeyColumn(ws[1..], f), Present(ws[1..], v));
      assert Holds(ws[0], Both(Is(f, k), Has(v))) <==> Holds(ws[0], Is(f, k)) && Holds(ws[0], Has(v));
    }
  }

  lemma {:induction false} MaskedNonNull(ws: seq<Workshop>, f: Field, v: ValueField)
    ensures NonNull(Mask(KeyColumn(ws, f), Present(ws, v))) == CountWhere(ws, Both(Known(f), Has(v)))
  {
    if ws != [] {
      MaskedNonNull(ws[1..], f, v);
      assert KeyColumn(ws, f)[1..] == KeyColumn(ws[1..], f);
      assert Present(ws, v)[1..] == Present(ws[1..], v);
      assert Mask(KeyColumn(ws, f), Present(ws, v))[1..] == Mask(KeyColumn(ws[1..], f), Present(ws[1..], v));
      assert Holds(ws[0], Both(Known(f), Has(v))) <==> Holds(ws[0], Known(f)) && Holds(ws[0], Has(v));
    }
  }

  lemma {:induction false} PairCounts(ws: seq<Workshop>, f: Field, g: Field, a: Key, b: Key)
    ensures Occurrences(PairColumn(KeyColumn(ws, f), KeyColumn(ws, g)), Pair(a, b))
            == CountWhere(ws, Both(Is(f, a), Is(g, b)))
  {
    if ws != [] {
      PairCounts(ws[1..], f, g, a, b);
      assert KeyColumn(ws, f)[1..] == KeyColumn(ws[1..], f);
      assert KeyColumn(ws, g)[1..] == KeyColumn(ws[1..], g);
      assert PairColumn(KeyColumn(ws, f), KeyColumn(ws, g))[1..] == PairColumn(KeyColumn(ws[1..], f), KeyColumn(ws[1..], g));
      assert Holds(ws[0], Both(Is(f, a), Is(g, b))) <==> Holds(ws[0], Is(f, a)) && Holds(ws[0], Is(g, b));
    }
  }

  lemma {:induction false} MaskedPairCounts(ws: seq<Workshop>, f: Field, g: Field, v: ValueField, a: Key, b: Key)
    ensures Occurrences(Mask(PairColumn(KeyColumn(ws, f), KeyColumn(ws, g)), Present(ws, v)), Pair(a, b))
            == CountWhere(ws, Both(Both(Is(f, a), Is(g, b)), Has(v)))
  {
    if ws != [] {
      MaskedPairCounts(ws[1..], f, g, v, a, b);
      assert KeyColumn(ws, f)[1..] == KeyColumn(ws[1..], f);
      assert KeyColumn(ws, g)[1..] == KeyColumn(ws[1..], g);
      assert Present(ws, v)[1..] == Present(ws[1..], v);
      var pairs := PairColumn(KeyColumn(ws, f), KeyColumn(ws, g));
      assert pairs[1..] == PairColumn(KeyColumn(ws[1..], f), KeyColumn(ws[1..], g));
      assert Mask(pairs, Present(ws, v))[1..] == Mask(pairs[1..], Present(ws[1..], v));
      assert Holds(ws[0], Both(Is(f, a), Is(g, b))) <==> Holds(ws[0], Is(f, a)) && Holds(ws[0], Is(g, b));
      assert Holds(ws[0], Both(Both(Is(f, a), Is(g, b)), Has(v)))
             <==> Holds(ws[0], Both(Is(f, a), Is(g, b))) && Holds(ws[0], Has(v));
    }
  }

  /** Whether every row meeting `c` has a non-null `f`, as can be read
      off the condition. */
  predicate Needs(c: Condition, f: Field)
  {
    match c
    case Is(g, _) => g == f
    case Known(g) => g == f
    case Both(a, b) => Needs(a, f) || Needs(b, f)
    case _ => false
  }

  lemma {:induction false} NeedsKnown(w: Workshop, c: Condition, f: Field)
    requires Needs(c, f) && Holds(w, c)
    ensures KeyOf(w, f).Some?
  {
    match c
    case Is(_, _) =>
    case Known(_) =>
    case Both(a, b) =>
      if Needs(a, f) {
        NeedsKnown(w, a, f);
      } else {
        NeedsKnown(w, b, f);
      }
  }

  /** Adding "f is not null" to a condition that already needs it, or when
      f is never null, counts the same rows. */
  lemma {:induction false} KnownBoth(ws: seq<Workshop>, f: Field, c: Condition)
    requires Needs(c, f) || f == YearField || f == TypeField
    ensures CountWhere(ws, Both(Known(f), c)) == CountWhere(ws, c)
    ensures CountWhere(ws, Both(c, Known(f))) == CountWhere(ws, c)
  {
    if ws != [] {
      KnownBoth(ws[1..], f, c);
      if Holds(ws[0], c) && Needs(c, f) {
        NeedsKnown(ws[0], c, f);
      }
      assert Holds(ws[0], Both(Known(f), c)) <==> Holds(ws[0], Known(f)) && Holds(ws[0], c);
      assert Holds(ws[0], Both(c, Known(f))) <==> Holds(ws[0], c) && Holds(ws[0], Known(f));
    }
  }

  lemma KnownBothExists(ws: seq<Workshop>, f: Field, c: Condition)
    requires Needs(c, f) || f == YearField || f == TypeField
    ensures (exists w :: w in ws && Holds(w, Both(Known(f), c))) <==> exists w :: w in ws && Holds(w, c)
    ensures (exists w :: w in ws && Holds(w, Both(c, Known(f)))) <==> exists w :: w in ws && Holds(w, c)
  {
    KnownBoth(ws, f, c);
    CountWherePositive(ws, Both(Known(f), c));
    CountWherePositive(ws, Both(c, Known(f)));
    CountWherePositive(ws, c);
  }

  /** Every tagged row has tags. */
  lemma {:induction false} TaggedHasTags(ws: seq<Workshop>, word: string)
    ensures CountWhere(ws, Both(Tagged(word), Has(TagsField))) == CountWhere(ws, Tagged(word))
  {
    if ws != [] {
      TaggedHasTags(ws[1..], word);
      assert Holds(ws[0], Both(Tagged(word), Has(TagsField))) <==> Holds(ws[0], Tagged(word)) && Holds(ws[0], Has(TagsField));
    }
  }

  /** Counting among the selected rows counts the rows meeting both
      conditions. */
  lemma {:induction false} SelectCount(ws: seq<Workshop>, c: Condition, d: Condition)
    ensures CountWhere(Select(ws, c), d) == CountWhere(ws, Both(c, d))
  {
    if ws != [] {
      SelectCount(ws[1..], c, d);
      assert Holds(ws[0], Both(c, d)) <==> Holds(ws[0], c) && Holds(ws[0], d);
      if Holds(ws[0], c) {
        assert Select(ws, c) == [ws[0]] + Select(ws[1..], c);
        assert Select(ws, c)[1..] == Select(ws[1..], c);
      } else {
        assert Select(ws, c) == Select(ws[1..], c);
      }
    }
  }

  /** Some(k) occurs in a pair column exactly when some row has both
      parts of k. */
  lemma PairMembers(ws: seq<Workshop>, f: Field, g: Field, k: Key)
    ensures Some(k) in PairColumn(KeyColumn(ws, f), KeyColumn(ws, g))
            <==> k.Pair? && exists w :: w in ws && Holds(w, Both(Is(f, k.fst), Is(g, k.snd)))
  {
    PairColumnPairs(KeyColumn(ws, f), KeyColumn(ws, g));
    if k.Pair? {
      PairCounts(ws, f, g, k.fst, k.snd);
      CountWherePositive(ws, Both(Is(f, k.fst), Is(g, k.snd)));
    }
  }

  // ---- What each analysis promises ----

  /** Per-year counts: every year of the table once, ascending, each with
      its number of workshops; the counts add up to the number of rows,
      which is the "Total workshops" figure written beside the table. */
  lemma WorkshopsPerYearCounts(ws: seq<Workshop>)
    ensures KeysAscending(WorkshopsPerYear(ws))
    ensures forall k :: (exists g :: g in WorkshopsPerYear(ws) && g.key == k)
                        <==> exists w :: w in ws && Holds(w, Is(YearField, k))
    ensures forall g :: g in WorkshopsPerYear(ws) ==>
              g.count == CountWhere(ws, Is(YearField, g.key)) && g.count >= 1
    ensures Total(WorkshopsPerYear(ws)) == |ws|
  {
    CountsPerKey(ws, YearField);
    AlwaysKnown(ws, YearField);
  }

  /** Per-type counts: every workshop type once, ascending, each with its
      number of workshops; the counts add up to the number of rows. */
  lemma WorkshopsPerTypeCounts(ws: seq<Workshop>)
    ensures KeysAscending(WorkshopsPerType(ws))
    ensures forall k :: (exists g :: g in WorkshopsPerType(ws) && g.key == k)
                        <==> exists w :: w in ws && Holds(w, Is(TypeField, k))
    ensures forall g :: g in WorkshopsPerType(ws) ==>
              g.count == CountWhere(ws, Is(TypeField, g.key)) && g.count >= 1
    ensures Total(WorkshopsPerType(ws)) == |ws|
  {
    CountsPerKey(ws, TypeField);
    AlwaysKnown(ws, TypeField);
  }

  /** Year and type are never null. */
  lemma {:induction false} AlwaysKnown(ws: seq<Workshop>, f: Field)
    requires f == YearField || f == TypeField
    ensures CountWhere(ws, Known(f)) == |ws|
  {
    if ws != [] {
      AlwaysKnown(ws[1..], f);
    }
  }

  lemma CountsPerKey(ws: seq<Workshop>, f: Field)
    ensures KeysAscending(Size(KeyColumn(ws, f))) && KeysDistinct(Size(KeyColumn(ws, f)))
    ensures forall k :: (exists g :: g in Size(KeyColumn(ws, f)) && g.key == k)
                        <==> exists w :: w in ws && Holds(w, Is(f, k))
    ensures forall g :: g in Size(KeyColumn(ws, f)) ==>
              g.count == CountWhere(ws, Is(f, g.key)) && g.count >= 1
    ensures Total(Size(KeyColumn(ws, f))) == CountWhere(ws, Known(f))
  {
    var col := KeyColumn(ws, f);
    SizeGroups(col);
    forall k
      ensures Some(k) in col <==> exists w :: w in ws && Holds(w, Is(f, k))
    {
      KeyColumnCounts(ws, f, k);
      CountWherePositive(ws, Is(f, k));
    }
    forall g | g in Size(col)
      ensures g.count == CountWhere(ws, Is(f, g.key))
    {
      KeyColumnCounts(ws, f, g.key);
    }
    KeyColumnNonNull(ws, f);
  }

  /** The field on one axis of a group-by on (f, g). */
  function Pick(f: Field, g: Field, axis: Axis): Field
  {
    if axis == First then f else g
  }

  /** A key occurs on one axis of the pairs of (f, g) exactly when it is
      the value of that field in a row where the other field is not null. */
  lemma AxisMember(ws: seq<Workshop>, f: Field, g: Field, axis: Axis, r: Key)
    ensures (exists k :: Some(k) in PairColumn(KeyColumn(ws, f), KeyColumn(ws, g)) && Part(k, axis) == Some(r))
            <==> exists w :: w in ws && Holds(w, Both(Is(Pick(f, g, axis), r), Known(Pick(f, g, Other(axis)))))
  {
    if exists k :: Some(k) in PairColumn(KeyColumn(ws, f), KeyColumn(ws, g)) && Part(k, axis) == Some(r) {
      AxisMemberFromPairs(ws, f, g, axis, r);
    }
    if exists w :: w in ws && Holds(w, Both(Is(Pick(f, g, axis), r), Known(Pick(f, g, Other(axis))))) {
      var w :| w in ws && Holds(w, Both(Is(Pick(f, g, axis), r), Known(Pick(f, g, Other(axis)))));
      AxisMemberFromRow(ws, f, g, axis, r, w);
    }
  }

  lemma AxisMemberFromPairs(ws: seq<Workshop>, f: Field, g: Field, axis: Axis, r: Key)
    requires exists k :: Some(k) in PairColumn(KeyColumn(ws, f), KeyColumn(ws, g)) && Part(k, axis) == Some(r)
    ensures exists w :: w in ws && Holds(w, Both(Is(Pick(f, g, axis), r), Known(Pick(f, g, Other(axis)))))
  {
    var k :| Some(k) in PairColumn(KeyColumn(ws, f), KeyColumn(ws, g)) && Part(k, axis) == Some(r);
    PairMembers(ws, f, g, k);
    AxisWitness(ws, f, g, axis, k, r);
  }

  lemma AxisWitness(ws: seq<Workshop>, f: Field, g: Field, axis: Axis, k: Key, r: Key)
    requires k.Pair? && Part(k, axis) == Some(r)
    requires exists w :: w in ws && Holds(w, Both(Is(f, k.fst), Is(g, k.snd)))
    ensures exists w :: w in ws && Holds(w, Both(Is(Pick(f, g, axis), r), Known(Pick(f, g, Other(axis)))))
  {
    var w :| w in ws && Holds(w, Both(Is(f, k.fst), Is(g, k.snd)));
    assert Holds(w, Is(f, k.fst)) && Holds(w, Is(g, k.snd));
    if axis == First {
      assert Holds(w, Is(f, r)) && Holds(w, Known(g));
    } else {
      assert Holds(w, Is(g, r)) && Holds(w, Known(f));
    }
    assert Holds(w, Both(Is(Pick(f, g, axis), r), Known(Pick(f, g, Other(axis)))));
  }

  lemma AxisMemberFromRow(ws: seq<Workshop>, f: Field, g: Field, axis: Axis, r: Key, w: Workshop)
    requires w in ws && Holds(w, Both(Is(Pick(f, g, axis), r), Known(Pick(f, g, Other(axis)))))
    ensures exists k :: Some(k) in PairColumn(KeyColumn(ws, f), KeyColumn(ws, g)) && Part(k, axis) == Some(r)
  {
    assert Holds(w, Is(Pick(f, g, axis), r)) && Holds(w, Known(Pick(f, g, Other(axis))));
    var k := Pair(KeyOf(w, f).value, KeyOf(w, g).value);
    assert Holds(w, Both(Is(f, k.fst), Is(g, k.snd)));
    PairMembers(ws, f, g, k);
    assert Part(k, axis) == Some(r);
  }

  /** Some selected row meets `d` exactly when some row meets both. */
  lemma SelectExists(ws: seq<Workshop>, c: Condition, d: Condition)
    ensures (exists w :: w in Select(ws, c) && Holds(w, d)) <==> exists w :: w in ws && Holds(w, Both(c, d))
  {
    SelectCount(ws, c, d);
    CountWherePositive(Select(ws, c), d);
    CountWherePositive(ws, Both(c, d));
  }

  /** Type-by-year pivot: rows are the years present, columns the types
      present, each cell the number of workshops of that type in that year
      (the mean of a single count is that count), missing (NaN) where there
      are none; the present cells add up to the number of rows. */
  lemma WorkshopsPerTypePerYearCells(ws: seq<Workshop>)
    ensures forall y :: y in WorkshopsPerTypePerYear(ws).index <==> exists w :: w in ws && Holds(w, Is(YearField, y))
    ensures forall t :: t in WorkshopsPerTypePerYear(ws).columns <==> exists w :: w in ws && Holds(w, Is(TypeField, t))
    ensures forall i, j :: 0 <= i < |WorkshopsPerTypePerYear(ws).index| && 0 <= j < |WorkshopsPerTypePerYear(ws).columns| ==>
              var p := WorkshopsPerTypePerYear(ws);
              var n := CountWhere(ws, Both(Is(TypeField, p.columns[j]), Is(YearField, p.index[i])));
              p.cells[i][j] == if n > 0 then Some(n as real) else None
    ensures CellsTotal(WorkshopsPerTypePerYear(ws).cells) == |ws| as real
  {
    var p := WorkshopsPerTypePerYear(ws);
    TypeYearAxes(ws, p);
    TypeYearCells(ws, p);
    TypeYearTotal(ws, p);
  }

  lemma TypeYearAxes(ws: seq<Workshop>, p: Pivot)
    requires p == WorkshopsPerTypePerYear(ws)
    ensures forall y :: y in p.index <==> exists w :: w in ws && Holds(w, Is(YearField, y))
    ensures forall t :: t in p.columns <==> exists w :: w in ws && Holds(w, Is(TypeField, t))
  {
    var pairs := PairColumn(KeyColumn(ws, TypeField), KeyColumn(ws, YearField));
    PivotOfGroups(pairs, pairs, Second, p);
    PivotAxis(ws, TypeField, YearField, Second, p.index);
    PivotAxis(ws, TypeField, YearField, First, p.columns);
    AlwaysKnownAxis(ws, YearField, TypeField, p.index);
    AlwaysKnownAxis(ws, TypeField, YearField, p.columns);
  }

  /** The keys on one axis of a pivot over (f, g). */
  lemma PivotAxis(ws: seq<Workshop>, f: Field, g: Field, axis: Axis, keys: seq<Key>)
    requires forall r :: r in keys <==>
               exists k :: Some(k) in PairColumn(KeyColumn(ws, f), KeyColumn(ws, g)) && Part(k, axis) == Some(r)
    ensures forall r :: r in keys <==>
              exists w :: w in ws && Holds(w, Both(Is(Pick(f, g, axis), r), Known(Pick(f, g, Other(axis)))))
  {
    forall r
      ensures r in keys <==>
              exists w :: w in ws && Holds(w, Both(Is(Pick(f, g, axis), r), Known(Pick(f, g, Other(axis)))))
    {
      AxisMember(ws, f, g, axis, r);
    }
  }

  /** When the other field is never null, the keys on an axis are just the
      values of the field. */
  lemma AlwaysKnownAxis(ws: seq<Workshop>, f: Field, g: Field, keys: seq<Key>)
    requires g == YearField || g == TypeField
    requires forall r :: r in keys <==> exists w :: w in ws && Holds(w, Both(Is(f, r), Known(g)))
    ensures forall r :: r in keys <==> exists w :: w in ws && Holds(w, Is(f, r))
  {
    forall r
      ensures r in keys <==> exists w :: w in ws && Holds(w, Is(f, r))
    {
      KnownBothExists(ws, g, Is(f, r));
    }
  }

  lemma TypeYearTotal(ws: seq<Workshop>, p: Pivot)
    requires p == WorkshopsPerTypePerYear(ws)
    ensures CellsTotal(p.cells) == |ws| as real
  {
    var pairs := PairColumn(KeyColumn(ws, TypeField), KeyColumn(ws, YearField));
    PairColumnPairs(KeyColumn(ws, TypeField), KeyColumn(ws, YearField));
    PivotTotal(pairs, Second, p);
    PairNonNull(ws, TypeField, YearField);
    BothKnown(ws);
  }

  lemma TypeYearCells(ws: seq<Workshop>, p: Pivot)
    requires p == WorkshopsPerTypePerYear(ws)
    ensures forall i, j :: 0 <= i < |p.index| && 0 <= j < |p.columns| ==>
              var n := CountWhere(ws, Both(Is(TypeField, p.columns[j]), Is(YearField, p.index[i])));
              p.cells[i][j] == if n > 0 then Some(n as real) else None
  {
    var pairs := PairColumn(KeyColumn(ws, TypeField), KeyColumn(ws, YearField));
    PivotOfGroups(pairs, pairs, Second, p);
    forall i, j | 0 <= i < |p.index| && 0 <= j < |p.columns|
      ensures p.cells[i][j] == (var n := CountWhere(ws, Both(Is(TypeField, p.columns[j]), Is(YearField, p.index[i])));
                                if n > 0 then Some(n as real) else None)
    {
      PairCounts(ws, TypeField, YearField, p.columns[j], p.index[i]);
    }
  }

  lemma {:induction false} PairNonNull(ws: seq<Workshop>, f: Field, g: Field)
    ensures NonNull(PairColumn(KeyColumn(ws, f), KeyColumn(ws, g))) == CountWhere(ws, Both(Known(f), Known(g)))
  {
    if ws != [] {
      PairNonNull(ws[1..], f, g);
      assert KeyColumn(ws, f)[1..] == KeyColumn(ws[1..], f);
      assert KeyColumn(ws, g)[1..] == KeyColumn(ws[1..], g);
      assert PairColumn(KeyColumn(ws, f), KeyColumn(ws, g))[1..] == PairColumn(KeyColumn(ws[1..], f), KeyColumn(ws[1..], g));
      assert Holds(ws[0], Both(Known(f), Known(g))) <==> Holds(ws[0], Known(f)) && Holds(ws[0], Known(g));
    }
  }

  lemma {:induction false} BothKnown(ws: seq<Workshop>)
    ensures CountWhere(ws, Both(Known(TypeField), Known(YearField))) == |ws|
  {
    if ws != [] {
      BothKnown(ws[1..]);
      assert Holds(ws[0], Known(TypeField)) && Holds(ws[0], Known(YearField));
      assert Holds(ws[0], Both(Known(TypeField), Known(YearField)));
    }
  }

  // ---- Hosts ----

  /** Dropping the rows without a host changes no count of rows that have
      a host. */
  lemma DropNullHostsCount(ws: seq<Workshop>, c: Condition)
    requires Needs(c, HostField)
    ensures CountWhere(DropNullHosts(ws), c) == CountWhere(ws, c)
  {
    SelectCount(ws, Known(HostField), c);
    KnownBoth(ws, HostField, c);
  }

  lemma DropNullHostsExists(ws: seq<Workshop>, c: Condition)
    requires Needs(c, HostField)
    ensures (exists w :: w in DropNullHosts(ws) && Holds(w, c)) <==> exists w :: w in ws && Holds(w, c)
  {
    SelectExists(ws, Known(HostField), c);
    KnownBothExists(ws, HostField, c);
  }

  /** Per-host counts: every host once, no group for a missing host, each
      with its number of workshops, in non-decreasing order of count; the
      counts add up to the rows that have a host. */
  lemma WorkshopsPerHostCounts(ws: seq<Workshop>)
    ensures CountsAscending(WorkshopsPerHost(ws)) && KeysDistinct(WorkshopsPerHost(ws))
    ensures forall k :: (exists g :: g in WorkshopsPerHost(ws) && g.key == k)
                        <==> exists w :: w in ws && Holds(w, Is(HostField, k))
    ensures forall g :: g in WorkshopsPerHost(ws) ==>
              g.count == CountWhere(ws, Is(HostField, g.key)) && g.count >= 1
    ensures Total(WorkshopsPerHost(ws)) == CountWhere(ws, Known(HostField))
  {
    var gs := Size(KeyColumn(DropNullHosts(ws), HostField));
    CountsPerKey(DropNullHosts(ws), HostField);
    SortByCountKeys(gs);
    SortByCountMembers(gs);
    SortByCountTotal(gs);
    HostGroups(ws);
    DropNullHostsCount(ws, Known(HostField));
  }

  lemma HostGroups(ws: seq<Workshop>)
    ensures forall k :: (exists g :: g in Size(KeyColumn(DropNullHosts(ws), HostField)) && g.key == k)
                        <==> exists w :: w in ws && Holds(w, Is(HostField, k))
    ensures forall g :: g in Size(KeyColumn(DropNullHosts(ws), HostField)) ==>
              g.count == CountWhere(ws, Is(HostField, g.key)) && g.count >= 1
  {
    var d := DropNullHosts(ws);
    CountsPerKey(d, HostField);
    forall k
      ensures (exists w :: w in d && Holds(w, Is(HostField, k))) <==> exists w :: w in ws && Holds(w, Is(HostField, k))
    {
      DropNullHostsExists(ws, Is(HostField, k));
    }
    forall g | g in Size(KeyColumn(d, HostField))
      ensures CountWhere(d, Is(HostField, g.key)) == CountWhere(ws, Is(HostField, g.key))
    {
      DropNullHostsCount(ws, Is(HostField, g.key));
    }
  }

  /** Host-by-year pivot: rows are the hosts, columns the years in which
      some workshop has a host, and every cell is present (0 filled in) and
      holds the number of workshops of that host in that year. */
  lemma WorkshopsPerHostPerYearCells(ws: seq<Workshop>)
    ensures Shaped(WorkshopsPerHostPerYear(ws).cells, |WorkshopsPerHostPerYear(ws).index|, |WorkshopsPerHostPerYear(ws).columns|)
    ensures StrictlyAscending(WorkshopsPerHostPerYear(ws).index) && StrictlyAscending(WorkshopsPerHostPerYear(ws).columns)
    ensures forall h :: h in WorkshopsPerHostPerYear(ws).index <==> exists w :: w in ws && Holds(w, Is(HostField, h))
    ensures forall y :: y in WorkshopsPerHostPerYear(ws).columns <==>
                        exists w :: w in ws && Holds(w, Both(Is(YearField, y), Known(HostField)))
    ensures forall i, j :: 0 <= i < |WorkshopsPerHostPerYear(ws).index| && 0 <= j < |WorkshopsPerHostPerYear(ws).columns| ==>
              var q := WorkshopsPerHostPerYear(ws);
              q.cells[i][j] == CountWhere(ws, Both(Is(HostField, q.index[i]), Is(YearField, q.columns[j])))
  {
    var q := WorkshopsPerHostPerYear(ws);
    HostYearAxes(ws, q);
    HostYearCells(ws, q);
  }

  lemma HostYearAxes(ws: seq<Workshop>, q: IntPivot)
    requires q == WorkshopsPerHostPerYear(ws)
    ensures forall h :: h in q.index <==> exists w :: w in ws && Holds(w, Is(HostField, h))
    ensures forall y :: y in q.columns <==> exists w :: w in ws && Holds(w, Both(Is(YearField, y), Known(HostField)))
  {
    var d := DropNullHosts(ws);
    var pairs := PairColumn(KeyColumn(d, HostField), KeyColumn(d, YearField));
    PivotOfGroups(pairs, pairs, First, PivotTable(Size(pairs), First));
    HostRows(ws, q.index);
    HostYearColumns(ws, q.columns);
  }

  lemma HostRows(ws: seq<Workshop>, keys: seq<Key>)
    requires forall r :: r in keys <==>
               exists k :: Some(k) in PairColumn(KeyColumn(DropNullHosts(ws), HostField), KeyColumn(DropNullHosts(ws), YearField))
                           && Part(k, First) == Some(r)
    ensures forall h :: h in keys <==> exists w :: w in ws && Holds(w, Is(HostField, h))
  {
    var d := DropNullHosts(ws);
    PivotAxis(d, HostField, YearField, First, keys);
    AlwaysKnownAxis(d, HostField, YearField, keys);
    forall h
      ensures h in keys <==> exists w :: w in ws && Holds(w, Is(HostField, h))
    {
      DropNullHostsExists(ws, Is(HostField, h));
    }
  }

  lemma HostYearColumns(ws: seq<Workshop>, keys: seq<Key>)
    requires forall r :: r in keys <==>
               exists k :: Some(k) in PairColumn(KeyColumn(DropNullHosts(ws), HostField), KeyColumn(DropNullHosts(ws), YearField))
                           && Part(k, Second) == Some(r)
    ensures forall y :: y in keys <==> exists w :: w in ws && Holds(w, Both(Is(YearField, y), Known(HostField)))
  {
    var d := DropNullHosts(ws);
    PivotAxis(d, HostField, YearField, Second, keys);
    forall y
      ensures y in keys <==> exists w :: w in ws && Holds(w, Both(Is(YearField, y), Known(HostField)))
    {
      DropNullHostsExists(ws, Both(Is(YearField, y), Known(HostField)));
    }
  }

  lemma HostYearCells(ws: seq<Workshop>, q: IntPivot)
    requires q == WorkshopsPerHostPerYear(ws)
    ensures forall i, j :: 0 <= i < |q.index| && 0 <= j < |q.columns| ==>
              q.cells[i][j] == CountWhere(ws, Both(Is(HostField, q.index[i]), Is(YearField, q.columns[j])))
  {
    var d := DropNullHosts(ws);
    var pairs := PairColumn(KeyColumn(d, HostField), KeyColumn(d, YearField));
    FilledPivotCounts(pairs, First, q);
    forall i, j | 0 <= i < |q.index| && 0 <= j < |q.columns|
      ensures q.cells[i][j] == CountWhere(ws, Both(Is(HostField, q.index[i]), Is(YearField, q.columns[j])))
    {
      PairCounts(d, HostField, YearField, q.index[i], q.columns[j]);
      DropNullHostsCount(ws, Both(Is(HostField, q.index[i]), Is(YearField, q.columns[j])));
    }
  }

  // ---- Online and in-person ----

  /** A row is tagged with `word` exactly when its tags contain it as a
      substring. */
  lemma TaggedIff(w: Workshop, word: string)
    ensures Holds(w, Tagged(word)) <==> w.tags.Some? && exists i :: OccursAt(w.tags.value, word, i)
  {
    if w.tags.Some? {
      ContainsIff(w.tags.value, word);
    }
  }

  /** The online / in-person split fails exactly when some row has no tags;
      otherwise "Online" counts the rows whose tags contain "online", and
      "In-person" is the number of rows with a slug minus that. */
  lemma OnlineVsInPersonCounts(ws: seq<Workshop>)
    ensures OnlineVsInPerson(ws).Err? <==> exists w :: w in ws && w.tags.None?
    ensures OnlineVsInPerson(ws).Err? ==> OnlineVsInPerson(ws).failure == NullTags
    ensures OnlineVsInPerson(ws).Ok? ==>
              OnlineVsInPerson(ws).value
              == [Labelled("Online", CountWhere(ws, Tagged("online"))),
                  Labelled("In-person", CountWhere(ws, Has(SlugField)) - CountWhere(ws, Tagged("online")))]
    ensures OnlineVsInPerson(ws).Ok? ==>
              OnlineVsInPerson(ws).value[0].amount + OnlineVsInPerson(ws).value[1].amount == CountWhere(ws, Has(SlugField))
  {
    if exists w :: w in ws && w.tags.None? {
      var w :| w in ws && w.tags.None?;
      var i :| 0 <= i < |ws| && ws[i] == w;
    }
    SelectCount(ws, Tagged("online"), Has(TagsField));
    TaggedHasTags(ws, "online");
  }

  /** When every row has tags and a slug, both values are non-negative and
      they add up to the number of rows. */
  lemma OnlineVsInPersonSplit(ws: seq<Workshop>)
    requires forall w :: w in ws ==> w.tags.Some? && w.slug.Some?
    ensures OnlineVsInPerson(ws).Ok?
    ensures OnlineVsInPerson(ws).value[0].amount >= 0 && OnlineVsInPerson(ws).value[1].amount >= 0
    ensures OnlineVsInPerson(ws).value[0].amount + OnlineVsInPerson(ws).value[1].amount == |ws|
  {
    OnlineVsInPersonCounts(ws);
    EverySlug(ws);
  }

  lemma {:induction false} EverySlug(ws: seq<Workshop>)
    requires forall w :: w in ws ==> w.slug.Some?
    ensures CountWhere(ws, Has(SlugField)) == |ws|
  {
    if ws != [] {
      assert ws[0] in ws;
      assert forall w :: w in ws[1..] ==> w in ws;
      EverySlug(ws[1..]);
    }
  }

  // ---- Estimated attendance ----

  /** The attendance groups have the keys of the `size()` groups on the
      same column, in the same order. */
  lemma AttendanceKeys(ws: seq<Workshop>, f: Field, r: seq<Group>)
    requires r == Scale(CountValues(KeyColumn(ws, f), Present(ws, SlugField)), EstimatedAttendeesPerWorkshop)
    ensures |r| == |Size(KeyColumn(ws, f))|
    ensures forall i :: 0 <= i < |r| ==> r[i].key == Size(KeyColumn(ws, f))[i].key
  {
  }

  lemma AttendanceValues(ws: seq<Workshop>, f: Field, r: seq<Group>)
    requires r == Scale(CountValues(KeyColumn(ws, f), Present(ws, SlugField)), EstimatedAttendeesPerWorkshop)
    ensures forall g :: g in r ==>
              g.count == EstimatedAttendeesPerWorkshop * CountWhere(ws, Both(Is(f, g.key), Has(SlugField)))
  {
    var gs := CountValues(KeyColumn(ws, f), Present(ws, SlugField));
    CountValuesGroups(KeyColumn(ws, f), Present(ws, SlugField));
    forall g | g in r
      ensures g.count == EstimatedAttendeesPerWorkshop * CountWhere(ws, Both(Is(f, g.key), Has(SlugField)))
    {
      var i :| 0 <= i < |r| && r[i] == g;
      assert gs[i] in gs;
      MaskedCounts(ws, f, SlugField, g.key);
    }
  }

  lemma AttendanceTotal(ws: seq<Workshop>, f: Field, r: seq<Group>)
    requires f == YearField || f == TypeField
    requires r == Scale(CountValues(KeyColumn(ws, f), Present(ws, SlugField)), EstimatedAttendeesPerWorkshop)
    ensures Total(r) == EstimatedAttendeesPerWorkshop * CountWhere(ws, Has(SlugField))
  {
    var gs := CountValues(KeyColumn(ws, f), Present(ws, SlugField));
    ScaleTotal(gs, EstimatedAttendeesPerWorkshop);
    CountValuesGroups(KeyColumn(ws, f), Present(ws, SlugField));
    MaskedNonNull(ws, f, SlugField);
    KnownBoth(ws, f, Has(SlugField));
  }

  /** Attendance per year: the same years, in the same order, as the
      per-year workshop counts, each with 20 times its number of workshops
      that have a slug (possibly 0); the values add up to 20 times the rows
      with a slug, the "Total attendees" figure. */
  lemma EstimatedAttendancePerYearCounts(ws: seq<Workshop>)
    ensures |EstimatedAttendancePerYear(ws)| == |WorkshopsPerYear(ws)|
    ensures forall i :: 0 <= i < |EstimatedAttendancePerYear(ws)| ==>
              EstimatedAttendancePerYear(ws)[i].key == WorkshopsPerYear(ws)[i].key
    ensures forall g :: g in EstimatedAttendancePerYear(ws) ==>
              g.count == EstimatedAttendeesPerWorkshop * CountWhere(ws, Both(Is(YearField, g.key), Has(SlugField)))
    ensures Total(EstimatedAttendancePerYear(ws)) == EstimatedAttendeesPerWorkshop * CountWhere(ws, Has(SlugField))
  {
    AttendanceKeys(ws, YearField, EstimatedAttendancePerYear(ws));
    AttendanceValues(ws, YearField, EstimatedAttendancePerYear(ws));
    AttendanceTotal(ws, YearField, EstimatedAttendancePerYear(ws));
  }

  /** Attendance per type: the same types, in the same order, as the
      per-type workshop counts, each with 20 times its number of workshops
      that have a slug; the values add up to 20 times the rows with a slug. */
  lemma EstimatedAttendancePerTypeCounts(ws: seq<Workshop>)
    ensures |EstimatedAttendancePerType(ws)| == |WorkshopsPerType(ws)|
    ensures forall i :: 0 <= i < |EstimatedAttendancePerType(ws)| ==>
              EstimatedAttendancePerType(ws)[i].key == WorkshopsPerType(ws)[i].key
    ensures forall g :: g in EstimatedAttendancePerType(ws) ==>
              g.count == EstimatedAttendeesPerWorkshop * CountWhere(ws, Both(Is(TypeField, g.key), Has(SlugField)))
    ensures Total(EstimatedAttendancePerType(ws)) == EstimatedAttendeesPerWorkshop * CountWhere(ws, Has(SlugField))
  {
    AttendanceKeys(ws, TypeField, EstimatedAttendancePerType(ws));
    AttendanceValues(ws, TypeField, EstimatedAttendancePerType(ws));
    AttendanceTotal(ws, TypeField, EstimatedAttendancePerType(ws));
  }

  /** Attendance type-by-year pivot: rows are the years, columns the types,
      and a cell is missing (NaN) when no workshop has that year and type,
      and otherwise holds 20 times the number of those workshops whose
      attendance is recorded. */
  lemma EstimatedAttendancePerTypePerYearCells(ws: seq<Workshop>)
    ensures forall y :: y in EstimatedAttendancePerTypePerYear(ws).index <==> exists w :: w in ws && Holds(w, Is(YearField, y))
    ensures forall t :: t in EstimatedAttendancePerTypePerYear(ws).columns <==> exists w :: w in ws && Holds(w, Is(TypeField, t))
    ensures forall i, j :: 0 <= i < |EstimatedAttendancePerTypePerYear(ws).index| && 0 <= j < |EstimatedAttendancePerTypePerYear(ws).columns| ==>
              var p := EstimatedAttendancePerTypePerYear(ws);
              var both := Both(Is(YearField, p.index[i]), Is(TypeField, p.columns[j]));
              p.cells[i][j] == if CountWhere(ws, both) > 0
                               then Some((EstimatedAttendeesPerWorkshop * CountWhere(ws, Both(both, Has(AttendanceField)))) as real)
                               else None
  {
    var p := EstimatedAttendancePerTypePerYear(ws);
    AttendanceAxes(ws, p);
    AttendanceCells(ws, p);
  }

  lemma AttendanceAxes(ws: seq<Workshop>, p: Pivot)
    requires p == EstimatedAttendancePerTypePerYear(ws)
    ensures forall y :: y in p.index <==> exists w :: w in ws && Holds(w, Is(YearField, y))
    ensures forall t :: t in p.columns <==> exists w :: w in ws && Holds(w, Is(TypeField, t))
  {
    var pairs := PairColumn(KeyColumn(ws, YearField), KeyColumn(ws, TypeField));
    PivotOfScaledGroups(pairs, Mask(pairs, Present(ws, AttendanceField)), EstimatedAttendeesPerWorkshop, First, p);
    PivotAxis(ws, YearField, TypeField, First, p.index);
    PivotAxis(ws, YearField, TypeField, Second, p.columns);
    AlwaysKnownAxis(ws, YearField, TypeField, p.index);
    AlwaysKnownAxis(ws, TypeField, YearField, p.columns);
  }

  lemma AttendanceCells(ws: seq<Workshop>, p: Pivot)
    requires p == EstimatedAttendancePerTypePerYear(ws)
    ensures forall i, j :: 0 <= i < |p.index| && 0 <= j < |p.columns| ==>
              var both := Both(Is(YearField, p.index[i]), Is(TypeField, p.columns[j]));
              p.cells[i][j] == if CountWhere(ws, both) > 0
                               then Some((EstimatedAttendeesPerWorkshop * CountWhere(ws, Both(both, Has(AttendanceField)))) as real)
                               else None
  {
    var pairs := PairColumn(KeyColumn(ws, YearField), KeyColumn(ws, TypeField));
    PivotOfScaledGroups(pairs, Mask(pairs, Present(ws, AttendanceField)), EstimatedAttendeesPerWorkshop, First, p);
    forall i, j | 0 <= i < |p.index| && 0 <= j < |p.columns|
      ensures var both := Both(Is(YearField, p.index[i]), Is(TypeField, p.columns[j]));
              p.cells[i][j] == if CountWhere(ws, both) > 0
                               then Some((EstimatedAttendeesPerWorkshop * CountWhere(ws, Both(both, Has(AttendanceField)))) as real)
                               else None
    {
      PairCounts(ws, YearField, TypeField, p.index[i], p.columns[j]);
      MaskedPairCounts(ws, YearField, TypeField, AttendanceField, p.index[i], p.columns[j]);
    }
  }

  // ---- Regions ----

  /** Per-region counts: every region once, no group for a missing region,
      each with its number of workshops, in non-decreasing order of count;
      the counts add up to the rows that have a region. */
  lemma WorkshopsPerRegionCounts(ws: seq<Workshop>)
    ensures CountsAscending(WorkshopsPerRegion(ws)) && KeysDistinct(WorkshopsPerRegion(ws))
    ensures forall k :: (exists g :: g in WorkshopsPerRegion(ws) && g.key == k)
                        <==> exists w :: w in ws && Holds(w, Is(RegionField, k))
    ensures forall g :: g in WorkshopsPerRegion(ws) ==>
              g.count == CountWhere(ws, Is(RegionField, g.key)) && g.count >= 1
    ensures Total(WorkshopsPerRegion(ws)) == CountWhere(ws, Known(RegionField))
  {
    var gs := Size(KeyColumn(ws, RegionField));
    CountsPerKey(ws, RegionField);
    SortByCountKeys(gs);
    SortByCountMembers(gs);
    SortByCountTotal(gs);
  }
}

/** The analyses workbook: each analysis writes its result on a named sheet
    of a shared Excel writer, adds a chart to it and may write a note
    beside the table; `main` runs the ten analyses in a fixed order and
    saves the workbook only if none of them raised. */
module Report {
  import opened Table
  import opened GroupBy
  import opened Pivots
  import opened Text
  import opened Charts
  import opened Sheets
  import opened Workshops

  /** One worksheet: its cells and the charts inserted into it. */
  datatype Sheet = Sheet(cells: Grid, charts: seq<Chart>)

  type Book = map<string, Sheet>

  // ---- The sheet names, headers and notes of the analyses ----

  const PerYearSheet := "workshops_per_year"
  const PerTypeSheet := "workshops_per_type"
  const TypePerYearSheet := "workshops_per_type_per_year"
  const OnlineSheet := "online_vs_inperson"
  const PerHostSheet := "workshops_per_host"
  const HostPerYearSheet := "workshops_per_host_per_year"
  const AttendancePerYearSheet := "attendance_per_year"
  const AttendancePerTypeSheet := "attendance_per_type"
  const AttendanceTypeYearSheet := "attendance_type_year"
  const RegionSheet := "workshops_per_region"

  const WorkshopsNote := "Total workshops: "
  const AttendeesNote := "Total attendees: "

  /** The cells of a sheet so far, none if the sheet does not exist yet. */
  function CellsOf(book: Book, name: string): Grid
  {
    if name in book then book[name].cells else map[]
  }

  function ChartsOf(book: Book, name: string): seq<Chart>
  {
    if name in book then book[name].charts else []
  }

  /** Cells written over a sheet that may already hold some: a written
      cell replaces what was there, the other cells stay. */
  function Overlay(under: Grid, over: Grid): (g: Grid)
    ensures forall p :: p in g <==> p in under || p in over
    ensures forall p :: p in over ==> g[p] == over[p]
    ensures forall p :: p in under && p !in over ==> g[p] == under[p]
  {
    under + over
  }

  /** `to_excel(writer, sheet_name=name)`: the sheet is created if it is
      new, and the table's cells are written over it. */
  function ToExcelBook(book: Book, name: string, grid: Grid): (b: Book)
    ensures name in b && b[name] == Sheet(Overlay(CellsOf(book, name), grid), ChartsOf(book, name))
    ensures forall n :: n != name ==> (n in b <==> n in book) && (n in book ==> b[n] == book[n])
  {
    book[name := Sheet(Overlay(CellsOf(book, name), grid), ChartsOf(book, name))]
  }

  /** `worksheet.write(row, col, cell)`. */
  function WriteBook(book: Book, name: string, row: int, col: int, cell: Cell): (b: Book)
    requires name in book
    ensures name in b && b[name] == Sheet(book[name].cells[(row, col) := cell], book[name].charts)
    ensures forall n :: n != name ==> (n in b <==> n in book) && (n in book ==> b[n] == book[n])
  {
    book[name := Sheet(book[name].cells[(row, col) := cell], book[name].charts)]
  }

  /** `worksheet.insert_chart(chart)`. */
  function ChartBook(book: Book, name: string, chart: Chart): (b: Book)
    requires name in book
    ensures name in b && b[name] == Sheet(book[name].cells, book[name].charts + [chart])
    ensures forall n :: n != name ==> (n in b <==> n in book) && (n in book ==> b[n] == book[n])
  {
    book[name := Sheet(book[name].cells, book[name].charts + [chart])]
  }

  /** The Excel writer shared by the analyses: its sheets by name and the
      order in which they were created. */
  class Workbook {
    var sheets: Book
    var order: seq<string>

    ghost predicate Valid()
      reads this
    {
      && (forall n :: n in sheets <==> n in order)
      && (forall i, j :: 0 <= i < j < |order| ==> order[i] != order[j])
    }

    constructor ()
      ensures Valid() && sheets == map[] && order == []
    {
      sheets := map[];
      order := [];
    }

    method ToExcel(name: string, grid: Grid)
      requires Valid()
      modifies this
      ensures Valid()
      ensures sheets == ToExcelBook(old(sheets), name, grid)
      ensures order == if name in old(sheets) then old(order) else old(order) + [name]
    {
      if name !in sheets {
        order := order + [name];
      }
      sheets := ToExcelBook(sheets, name, grid);
    }

    method Write(name: string, row: int, col: int, cell: Cell)
      requires Valid() && name in sheets
      modifies this
      ensures Valid()
      ensures sheets == WriteBook(old(sheets), name, row, col, cell) && order == old(order)
    {
      sheets := WriteBook(sheets, name, row, col, cell);
    }

    method InsertChart(name: string, chart: Chart)
      requires Valid() && name in sheets
      modifies this
      ensures Valid()
      ensures sheets == ChartBook(old(sheets), name, chart) && order == old(order)
    {
      sheets := ChartBook(sheets, name, chart);
    }
  }

  // ---- What each analysis writes ----

  /** The result an analysis writes with `to_excel`, with the names of
      its header cells. */
  datatype Frame =
    | GroupTable(header: Line, groups: seq<Group>)
    | LabelTable(header: Line, items: seq<Labelled>)
    | RealPivotTable(valueName: string, columnsName: string, indexName: string, pivot: Pivot)
    | IntPivotTable(valueName: string, columnsName: string, indexName: string, filled: IntPivot)

  function LabelledLines(ls: seq<Labelled>): (lines: seq<Line>)
    ensures |lines| == |ls|
  {
    seq(|ls|, i requires 0 <= i < |ls| => Line(Str(ls[i].caption), Number(ls[i].amount)))
  }

  /** The cells `to_excel` writes for a result. A pivot always has one
      cell per row and column; the empty grid for a malformed one is
      never used. */
  function Layout(t: Frame): Grid
  {
    match t
    case GroupTable(header, gs) => FlatGrid(header, GroupLines(gs))
    case LabelTable(header, ls) => FlatGrid(header, LabelledLines(ls))
    case RealPivotTable(v, c, i, p) =>
      if Shaped(p.cells, |p.index|, |p.columns|) then PivotGrid(v, c, i, p.index, p.columns, RealCells(p)) else map[]
    case IntPivotTable(v, c, i, q) =>
      if Shaped(q.cells, |q.index|, |q.columns|) then PivotGrid(v, c, i, q.index, q.columns, IntCells(q)) else map[]
  }

  /** The chart an analysis inserts for its result: a column chart over a
      flat table, a stacked one with a series per column over a pivot. */
  function ChartOf(name: string, t: Frame): Chart
  {
    match t
    case GroupTable(_, gs) => FlatChart(name, |gs|)
    case LabelTable(_, ls) => FlatChart(name, |ls|)
    case RealPivotTable(_, _, _, p) => PivotChart(name, |p.index|, |p.columns|)
    case IntPivotTable(_, _, _, q) => PivotChart(name, |q.index|, |q.columns|)
  }

  /** What one analysis leaves on its sheet: its result, the chart drawn
      from it and, for the two per-year tables, the note written at
      (0, 3). */
  datatype Output = Output(name: string, frame: Frame, note: Option<Cell>)

  /** A grid with the note, if any, written at (0, 3). */
  function Noted(g: Grid, note: Option<Cell>): Grid
  {
    if note.Some? then g[(0, 3) := note.value] else g
  }

  /** The cells an output writes. */
  function Written(o: Output): Grid
  {
    Noted(Layout(o.frame), o.note)
  }

  /** A table written on its sheet and its chart inserted. */
  function Emit(book: Book, name: string, grid: Grid, chart: Chart): (b: Book)
    ensures name in b && b[name] == Sheet(Overlay(CellsOf(book, name), grid), ChartsOf(book, name) + [chart])
    ensures forall n :: n != name ==> (n in b <==> n in book) && (n in book ==> b[n] == book[n])
  {
    ChartBook(ToExcelBook(book, name, grid), name, chart)
  }

  /** One analysis on the workbook: `to_excel`, `insert_chart`, then the
      note if there is one. Only its own sheet changes. */
  function Apply(book: Book, o: Output): (b: Book)
    ensures o.name in b
    ensures forall n :: n != o.name ==> (n in b <==> n in book) && (n in book ==> b[n] == book[n])
  {
    var e := Emit(book, o.name, Layout(o.frame), ChartOf(o.name, o.frame));
    if o.note.Some? then WriteBook(e, o.name, 0, 3, o.note.value) else e
  }

  /** The sheet an analysis writes holds its cells over what was there
      before, with its note on top, and gains its chart. */
  lemma ApplyContents(book: Book, o: Output)
    ensures Apply(book, o)[o.name]
            == Sheet(Noted(Overlay(CellsOf(book, o.name), Layout(o.frame)), o.note),
                     ChartsOf(book, o.name) + [ChartOf(o.name, o.frame)])
  {
  }

  /** Analyses applied one after the other. */
  function ApplyAll(book: Book, os: seq<Output>): Book
    decreases |os|
  {
    if os == [] then book else Apply(ApplyAll(book, os[..|os| - 1]), os[|os| - 1])
  }

  /** No output of the list writes the sheet `n`. */
  predicate Untouched(os: seq<Output>, n: string)
  {
    forall i :: 0 <= i < |os| ==> os[i].name != n
  }

  predicate DistinctNames(os: seq<Output>)
  {
    forall i, j :: 0 <= i < j < |os| ==> os[i].name != os[j].name
  }

  /** The results of the ten analyses. */
  datatype Results = Results(
    perYear: seq<Group>, perType: seq<Group>, typePerYear: Pivot, online: Result<seq<Labelled>>,
    perHost: seq<Group>, hostPerYear: IntPivot, attendancePerYear: seq<Group>,
    attendancePerType: seq<Group>, attendanceTypeYear: Pivot, region: seq<Group>)

  function Analyses(ws: seq<Workshop>): Results
  {
    Results(WorkshopsPerYear(ws), WorkshopsPerType(ws), WorkshopsPerTypePerYear(ws), OnlineVsInPerson(ws),
            WorkshopsPerHost(ws), WorkshopsPerHostPerYear(ws), EstimatedAttendancePerYear(ws),
            EstimatedAttendancePerType(ws), EstimatedAttendancePerTypePerYear(ws), WorkshopsPerRegion(ws))
  }

  function PerYearOutput(r: seq<Group>): Output
  {
    Output(PerYearSheet, GroupTable(Line(Str("year"), Str("number_of_workshops")), r),
           Some(TotalNote(WorkshopsNote, Total(r))))
  }

  function PerTypeOutput(r: seq<Group>): Output
  {
    Output(PerTypeSheet, GroupTable(Line(Str("workshop_type"), Str("number_of_workshops")), r), None)
  }

  function TypePerYearOutput(p: Pivot): Output
  {
    Output(TypePerYearSheet, RealPivotTable("number_of_workshops", "workshop_type", "year", p), None)
  }

  /** The online series is written with its index and an unnamed value
      column, whose header is 0. */
  function OnlineOutput(v: seq<Labelled>): Output
  {
    Output(OnlineSheet, LabelTable(Line(Blank, Number(0)), v), None)
  }

  function PerHostOutput(r: seq<Group>): Output
  {
    Output(PerHostSheet, GroupTable(Line(Str("organiser_top_level_web_domain"), Str("workshops_per_host")), r), None)
  }

  function HostPerYearOutput(q: IntPivot): Output
  {
    Output(HostPerYearSheet, IntPivotTable("number_of_workshops", "year", "organiser_top_level_web_domain", q), None)
  }

  function AttendancePerYearOutput(r: seq<Group>): Output
  {
    Output(AttendancePerYearSheet, GroupTable(Line(Str("year"), Str("number_of_attendees")), r),
           Some(TotalNote(AttendeesNote, Total(r))))
  }

  function AttendancePerTypeOutput(r: seq<Group>): Output
  {
    Output(AttendancePerTypeSheet, GroupTable(Line(Str("workshop_type"), Str("number_of_attendees")), r), None)
  }

  function AttendanceTypeYearOutput(p: Pivot): Output
  {
    Output(AttendanceTypeYearSheet, RealPivotTable("attendance", "workshop_type", "year", p), None)
  }

  function RegionOutput(r: seq<Group>): Output
  {
    Output(RegionSheet, GroupTable(Line(Str("region"), Str("number_of_workshops")), r), None)
  }

  /** The analyses before the online split. */
  function FirstOutputs(rs: Results): seq<Output>
  {
    [PerYearOutput(rs.perYear), PerTypeOutput(rs.perType), TypePerYearOutput(rs.typePerYear)]
  }

  /** The analyses after the online split. */
  function LaterOutputs(rs: Results): seq<Output>
  {
    [PerHostOutput(rs.perHost), HostPerYearOutput(rs.hostPerYear), AttendancePerYearOutput(rs.attendancePerYear),
     AttendancePerTypeOutput(rs.attendancePerType), AttendanceTypeYearOutput(rs.attendanceTypeYear),
     RegionOutput(rs.region)]
  }

  /** What a run of `main` writes, in order: the first three analyses,
      then, unless the online split raised, it and the other six. */
  function Plan(rs: Results): seq<Output>
  {
    if rs.online.Err? then FirstOutputs(rs)
    else FirstOutputs(rs) + [OnlineOutput(rs.online.value)] + LaterOutputs(rs)
  }

  // ---- The analyses as steps on the workbook ----

  method EmitFlat(book: Workbook, name: string, header: Line, lines: seq<Line>)
    requires book.Valid()
    modifies book
    ensures book.Valid()
    ensures book.sheets == Emit(old(book.sheets), name, FlatGrid(header, lines), FlatChart(name, |lines|))
  {
    book.ToExcel(name, FlatGrid(header, lines));
    book.InsertChart(name, FlatChart(name, |lines|));
  }

  /** Writes the pivot, then builds its stacked chart series by series and
      inserts it. */
  method EmitPivot(book: Workbook, name: string, grid: Grid, rows: nat, columns: nat)
    requires book.Valid()
    modifies book
    ensures book.Valid()
    ensures book.sheets == Emit(old(book.sheets), name, grid, PivotChart(name, rows, columns))
  {
    book.ToExcel(name, grid);
    var chart := StackedChart(name, rows, columns);
    book.InsertChart(name, chart);
  }

  method WorkshopsPerYearAnalysis(ws: seq<Workshop>, book: Workbook) returns (result: seq<Group>)
    requires book.Valid()
    modifies book
    ensures book.Valid()
    ensures result == WorkshopsPerYear(ws)
    ensures book.sheets == Apply(old(book.sheets), PerYearOutput(result))
  {
    result := WorkshopsPerYear(ws);
    EmitFlat(book, PerYearSheet, Line(Str("year"), Str("number_of_workshops")), GroupLines(result));
    book.Write(PerYearSheet, 0, 3, TotalNote(WorkshopsNote, Total(result)));
  }

  method WorkshopsPerTypeAnalysis(ws: seq<Workshop>, book: Workbook) returns (result: seq<Group>)
    requires book.Valid()
    modifies book
    ensures book.Valid()
    ensures result == WorkshopsPerType(ws)
    ensures book.sheets == Apply(old(book.sheets), PerTypeOutput(result))
  {
    result := WorkshopsPerType(ws);
    EmitFlat(book, PerTypeSheet, Line(Str("workshop_type"), Str("number_of_workshops")), GroupLines(result));
  }

  method WorkshopsPerTypePerYearAnalysis(ws: seq<Workshop>, book: Workbook) returns (result: Pivot)
    requires book.Valid()
    modifies book
    ensures book.Valid()
    ensures result == WorkshopsPerTypePerYear(ws)
    ensures book.sheets == Apply(old(book.sheets), TypePerYearOutput(result))
  {
    result := WorkshopsPerTypePerYear(ws);
    EmitPivot(book, TypePerYearSheet,
              PivotGrid("number_of_workshops", "workshop_type", "year", result.index, result.columns, RealCells(result)),
              |result.index|, |result.columns|);
  }

  /** On a null tag the analysis raises before writing anything. */
  method OnlineWorkshopAnalysis(ws: seq<Workshop>, book: Workbook) returns (result: Result<seq<Labelled>>)
    requires book.Valid()
    modifies book
    ensures book.Valid()
    ensures result == OnlineVsInPerson(ws)
    ensures result.Ok? ==> book.sheets == Apply(old(book.sheets), OnlineOutput(result.value))
    ensures result.Err? ==> book.sheets == old(book.sheets) && book.order == old(book.order)
  {
    result := OnlineVsInPerson(ws);
    if result.Ok? {
      EmitFlat(book, OnlineSheet, Line(Blank, Number(0)), LabelledLines(result.value));
    }
  }

  method WorkshopsPerHostAnalysis(ws: seq<Workshop>, book: Workbook) returns (result: seq<Group>)
    requires book.Valid()
    modifies book
    ensures book.Valid()
    ensures result == WorkshopsPerHost(ws)
    ensures book.sheets == Apply(old(book.sheets), PerHostOutput(result))
  {
    result := WorkshopsPerHost(ws);
    EmitFlat(book, PerHostSheet, Line(Str("organiser_top_level_web_domain"), Str("workshops_per_host")),
             GroupLines(result));
  }

  method WorkshopsPerHostPerYearAnalysis(ws: seq<Workshop>, book: Workbook) returns (result: IntPivot)
    requires book.Valid()
    modifies book
    ensures book.Valid()
    ensures result == WorkshopsPerHostPerYear(ws)
    ensures book.sheets == Apply(old(book.sheets), HostPerYearOutput(result))
  {
    result := WorkshopsPerHostPerYear(ws);
    EmitPivot(book, HostPerYearSheet,
              PivotGrid("number_of_workshops", "year", "organiser_top_level_web_domain",
                        result.index, result.columns, IntCells(result)),
              |result.index|, |result.columns|);
  }

  method EstimatedAttendancePerYearAnalysis(ws: seq<Workshop>, book: Workbook) returns (result: seq<Group>)
    requires book.Valid()
    modifies book
    ensures book.Valid()
    ensures result == EstimatedAttendancePerYear(ws)
    ensures book.sheets == Apply(old(book.sheets), AttendancePerYearOutput(result))
  {
    result := EstimatedAttendancePerYear(ws);
    EmitFlat(book, AttendancePerYearSheet, Line(Str("year"), Str("number_of_attendees")), GroupLines(result));
    book.Write(AttendancePerYearSheet, 0, 3, TotalNote(AttendeesNote, Total(result)));
  }

  method EstimatedAttendancePerTypeAnalysis(ws: seq<Workshop>, book: Workbook) returns (result: seq<Group>)
    requires book.Valid()
    modifies book
    ensures book.Valid()
    ensures result == EstimatedAttendancePerType(ws)
    ensures book.sheets == Apply(old(book.sheets), AttendancePerTypeOutput(result))
  {
    result := EstimatedAttendancePerType(ws);
    EmitFlat(book, AttendancePerTypeSheet, Line(Str("workshop_type"), Str("number_of_attendees")),
             GroupLines(result));
  }

  method EstimatedAttendancePerTypePerYearAnalysis(ws: seq<Workshop>, book: Workbook) returns (result: Pivot)
    requires book.Valid()
    modifies book
    ensures book.Valid()
    ensures result == EstimatedAttendancePerTypePerYear(ws)
    ensures book.sheets == Apply(old(book.sheets), AttendanceTypeYearOutput(result))
  {
    result := EstimatedAttendancePerTypePerYear(ws);
    EmitPivot(book, AttendanceTypeYearSheet,
              PivotGrid("attendance", "workshop_type", "year", result.index, result.columns, RealCells(result)),
              |result.index|, |result.columns|);
  }

  method WorkshopsPerRegionAnalysis(ws: seq<Workshop>, book: Workbook) returns (result: seq<Group>)
    requires book.Valid()
    modifies book
    ensures book.Valid()
    ensures result == WorkshopsPerRegion(ws)
    ensures book.sheets == Apply(old(book.sheets), RegionOutput(result))
  {
    result := WorkshopsPerRegion(ws);
    EmitFlat(book, RegionSheet, Line(Str("region"), Str("number_of_workshops")), GroupLines(result));
  }

  /** The three analyses `main` runs before the online split. */
  method FirstAnalyses(ws: seq<Workshop>, book: Workbook)
    requires book.Valid()
    modifies book
    ensures book.Valid()
    ensures book.sheets == ApplyAll(old(book.sheets), FirstOutputs(Analyses(ws)))
  {
    ghost var b0 := book.sheets;
    var perYear := WorkshopsPerYearAnalysis(ws, book);
    ghost var b1 := book.sheets;
    var perType := WorkshopsPerTypeAnalysis(ws, book);
    ghost var b2 := book.sheets;
    var typePerYear := WorkshopsPerTypePerYearAnalysis(ws, book);
    ghost var b3 := book.sheets;
    FirstSteps(Analyses(ws), b0, b1, b2, b3);
  }

  /** The six analyses `main` runs after the online split. */
  method LaterAnalyses(ws: seq<Workshop>, book: Workbook)
    requires book.Valid()
    modifies book
    ensures book.Valid()
    ensures book.sheets == ApplyAll(old(book.sheets), LaterOutputs(Analyses(ws)))
  {
    ghost var b0 := book.sheets;
    var perHost := WorkshopsPerHostAnalysis(ws, book);
    ghost var b1 := book.sheets;
    var hostPerYear := WorkshopsPerHostPerYearAnalysis(ws, book);
    ghost var b2 := book.sheets;
    var attendancePerYear := EstimatedAttendancePerYearAnalysis(ws, book);
    ghost var b3 := book.sheets;
    var attendancePerType := EstimatedAttendancePerTypeAnalysis(ws, book);
    ghost var b4 := book.sheets;
    var attendanceTypeYear := EstimatedAttendancePerTypePerYearAnalysis(ws, book);
    ghost var b5 := book.sheets;
    var region := WorkshopsPerRegionAnalysis(ws, book);
    ghost var b6 := book.sheets;
    LaterSteps(Analyses(ws), b0, b1, b2, b3, b4, b5, b6);
  }

  /** The analyses part of `main`: the ten analyses in order. The online
      split raising ends the run (the catch-all handler), so the later
      analyses do not run and the workbook is not saved. */
  method RunAnalyses(ws: seq<Workshop>, book: Workbook) returns (saved: bool)
    requires book.Valid()
    modifies book
    ensures book.Valid()
    ensures saved <==> forall w :: w in ws ==> w.tags.Some?
    ensures book.sheets == ApplyAll(old(book.sheets), Plan(Analyses(ws)))
  {
    RunCompletes(ws);
    FirstAnalyses(ws, book);
    ghost var first := FirstOutputs(Analyses(ws));
    var online := OnlineWorkshopAnalysis(ws, book);
    if online.Err? {
      return false;
    }
    ApplyAllSnoc(old(book.sheets), first, OnlineOutput(online.value));
    LaterAnalyses(ws, book);
    ApplyAllAppend(old(book.sheets), first + [OnlineOutput(online.value)], LaterOutputs(Analyses(ws)));
    saved := true;
  }

  /** The analyses of each part, one by one. */
  lemma FirstOutputsAt(rs: Results)
    ensures |FirstOutputs(rs)| == 3
    ensures FirstOutputs(rs)[0] == PerYearOutput(rs.perYear)
    ensures FirstOutputs(rs)[1] == PerTypeOutput(rs.perType)
    ensures FirstOutputs(rs)[2] == TypePerYearOutput(rs.typePerYear)
  {
  }

  lemma LaterOutputsAt(rs: Results)
    ensures |LaterOutputs(rs)| == 6
    ensures LaterOutputs(rs)[0] == PerHostOutput(rs.perHost)
    ensures LaterOutputs(rs)[1] == HostPerYearOutput(rs.hostPerYear)
    ensures LaterOutputs(rs)[2] == AttendancePerYearOutput(rs.attendancePerYear)
    ensures LaterOutputs(rs)[3] == AttendancePerTypeOutput(rs.attendancePerType)
    ensures LaterOutputs(rs)[4] == AttendanceTypeYearOutput(rs.attendanceTypeYear)
    ensures LaterOutputs(rs)[5] == RegionOutput(rs.region)
  {
  }

  /** The books after each of the first three analyses. */
  lemma FirstSteps(rs: Results, b0: Book, b1: Book, b2: Book, b3: Book)
    requires b1 == Apply(b0, PerYearOutput(rs.perYear))
    requires b2 == Apply(b1, PerTypeOutput(rs.perType))
    requires b3 == Apply(b2, TypePerYearOutput(rs.typePerYear))
    ensures b3 == ApplyAll(b0, FirstOutputs(rs))
  {
    FirstOutputsAt(rs);
    ApplyAllSteps3(FirstOutputs(rs), b0, b1, b2, b3);
  }

  /** The books after each of the six later analyses. */
  lemma LaterSteps(rs: Results, b0: Book, b1: Book, b2: Book, b3: Book, b4: Book, b5: Book, b6: Book)
    requires b1 == Apply(b0, PerHostOutput(rs.perHost))
    requires b2 == Apply(b1, HostPerYearOutput(rs.hostPerYear))
    requires b3 == Apply(b2, AttendancePerYearOutput(rs.attendancePerYear))
    requires b4 == Apply(b3, AttendancePerTypeOutput(rs.attendancePerType))
    requires b5 == Apply(b4, AttendanceTypeYearOutput(rs.attendanceTypeYear))
    requires b6 == Apply(b5, RegionOutput(rs.region))
    ensures b6 == ApplyAll(b0, LaterOutputs(rs))
  {
    LaterOutputsAt(rs);
    ApplyAllSteps6(LaterOutputs(rs), b0, b1, b2, b3, b4, b5, b6);
  }

  /** A run of books, each the one before with the next analysis applied,
      ends in the list of analyses applied to the first. */
  lemma ApplyAllSteps3(os: seq<Output>, b0: Book, b1: Book, b2: Book, b3: Book)
    requires |os| == 3
    requires b1 == Apply(b0, os[0])
    requires b2 == Apply(b1, os[1])
    requires b3 == Apply(b2, os[2])
    ensures b3 == ApplyAll(b0, os)
  {
    ApplyAllPrefix(b0, os, 0);
    ApplyAllPrefix(b0, os, 1);
    ApplyAllPrefix(b0, os, 2);
    assert os[..3] == os;
  }

  lemma ApplyAllSteps6(os: seq<Output>, b0: Book, b1: Book, b2: Book, b3: Book, b4: Book, b5: Book, b6: Book)
    requires |os| == 6
    requires b1 == Apply(b0, os[0])
    requires b2 == Apply(b1, os[1])
    requires b3 == Apply(b2, os[2])
    requires b4 == Apply(b3, os[3])
    requires b5 == Apply(b4, os[4])
    requires b6 == Apply(b5, os[5])
    ensures b6 == ApplyAll(b0, os)
  {
    ApplyAllPrefix(b0, os, 0);
    ApplyAllPrefix(b0, os, 1);
    ApplyAllPrefix(b0, os, 2);
    ApplyAllPrefix(b0, os, 3);
    ApplyAllPrefix(b0, os, 4);
    ApplyAllPrefix(b0, os, 5);
    assert os[..6] == os;
  }

  /** The step from one prefix of a list of analyses to the next. */
  lemma ApplyAllPrefix(book: Book, os: seq<Output>, k: nat)
    requires k < |os|
    ensures ApplyAll(book, os[..k + 1]) == Apply(ApplyAll(book, os[..k]), os[k])
  {
    assert os[..k + 1][..k] == os[..k];
  }

  /** Applying one more analysis after a list of them. */
  lemma ApplyAllSnoc(book: Book, os: seq<Output>, o: Output)
    ensures ApplyAll(book, os + [o]) == Apply(ApplyAll(book, os), o)
  {
    assert (os + [o])[..|os|] == os;
  }

  /** Applying two lists of analyses one after the other is applying
      their concatenation. */
  lemma {:induction false} ApplyAllAppend(book: Book, xs: seq<Output>, ys: seq<Output>)
    ensures ApplyAll(book, xs + ys) == ApplyAll(ApplyAll(book, xs), ys)
  {
    if ys == [] {
      assert xs + ys == xs;
    } else {
      assert (xs + ys)[..|xs + ys| - 1] == xs + ys[..|ys| - 1];
      ApplyAllAppend(book, xs, ys[..|ys| - 1]);
    }
  }

  // ---- What the workbook holds afterwards ----

  /** Applying a list of analyses creates each of their sheets and leaves
      every other sheet (the data and readme sheets written before) as it
      was. */
  lemma ApplyAllFrame(book: Book, os: seq<Output>)
    ensures forall i :: 0 <= i < |os| ==> os[i].name in ApplyAll(book, os)
    ensures forall n :: Untouched(os, n) ==>
              (n in ApplyAll(book, os) <==> n in book) && (n in book ==> ApplyAll(book, os)[n] == book[n])
  {
    ApplyAllCreates(book, os);
    forall n | Untouched(os, n)
      ensures (n in ApplyAll(book, os) <==> n in book) && (n in book ==> ApplyAll(book, os)[n] == book[n])
    {
      ApplyAllKeeps(book, os, n);
    }
  }

  lemma {:induction false} ApplyAllCreates(book: Book, os: seq<Output>)
    ensures forall i :: 0 <= i < |os| ==> os[i].name in ApplyAll(book, os)
  {
    if os != [] {
      var init := os[..|os| - 1];
      ApplyAllCreates(book, init);
      var before := ApplyAll(book, init);
      assert ApplyAll(book, os) == Apply(before, os[|os| - 1]);
      forall i | 0 <= i < |os|
        ensures os[i].name in ApplyAll(book, os)
      {
        if i < |os| - 1 {
          assert os[i].name == init[i].name && init[i].name in before;
        }
      }
    }
  }

  lemma {:induction false} ApplyAllKeeps(book: Book, os: seq<Output>, n: string)
    requires Untouched(os, n)
    ensures n in ApplyAll(book, os) <==> n in book
    ensures n in book ==> ApplyAll(book, os)[n] == book[n]
  {
    if os != [] {
      ApplyAllKeeps(book, os[..|os| - 1], n);
    }
  }

  /** With distinct sheet names, on a workbook holding none of them, each
      sheet ends with exactly what its analysis wrote and its one chart:
      no analysis writes over another's sheet. */
  lemma {:induction false} ApplyAllFresh(book: Book, os: seq<Output>, i: nat)
    requires DistinctNames(os)
    requires forall j :: 0 <= j < |os| ==> os[j].name !in book
    requires i < |os|
    ensures os[i].name in ApplyAll(book, os)
    ensures ApplyAll(book, os)[os[i].name] == Sheet(Written(os[i]), [ChartOf(os[i].name, os[i].frame)])
  {
    var init := os[..|os| - 1];
    if i == |os| - 1 {
      ApplyAllFrame(book, init);
      assert Untouched(init, os[i].name);
      ApplyContents(ApplyAll(book, init), os[i]);
      assert Overlay(map[], Layout(os[i].frame)) == Layout(os[i].frame);
    } else {
      ApplyAllFresh(book, init, i);
    }
  }

  /** The sheets of the ten analyses, in the order `main` runs them. */
  const AnalysisSheets := [PerYearSheet, PerTypeSheet, TypePerYearSheet, OnlineSheet, PerHostSheet,
                           HostPerYearSheet, AttendancePerYearSheet, AttendancePerTypeSheet,
                           AttendanceTypeYearSheet, RegionSheet]

  /** A run writes ten sheets when no row lacks tags, and otherwise
      only the three before the online split. */
  lemma PlanLength(rs: Results)
    ensures rs.online.Ok? <==> |Plan(rs)| == 10
    ensures |Plan(rs)| == 10 || |Plan(rs)| == 3
  {
  }

  /** The online split of a run fails exactly when some workshop has no
      tags, so a run writes all ten sheets exactly when every workshop is
      tagged. */
  lemma RunCompletes(ws: seq<Workshop>)
    ensures Analyses(ws).online.Ok? <==> forall w :: w in ws ==> w.tags.Some?
    ensures |Plan(Analyses(ws))| == 10 <==> forall w :: w in ws ==> w.tags.Some?
  {
    OnlineVsInPersonCounts(ws);
    PlanLength(Analyses(ws));
  }

  /** The sheets are written in the order of the analysis sheets. */
  lemma PlanNames(rs: Results)
    ensures |Plan(rs)| <= |AnalysisSheets|
    ensures forall i :: 0 <= i < |Plan(rs)| ==> Plan(rs)[i].name == AnalysisSheets[i]
  {
    FirstOutputsAt(rs);
    LaterOutputsAt(rs);
    var plan := Plan(rs);
    forall i | 0 <= i < |plan|
      ensures plan[i].name == AnalysisSheets[i]
    {
      if i < 3 {
        assert plan[i] == FirstOutputs(rs)[i];
      } else if i > 3 {
        assert plan[i] == LaterOutputs(rs)[i - 4];
      }
    }
  }

  lemma DistinctSheets()
    ensures forall i, j :: 0 <= i < j < |AnalysisSheets| ==> AnalysisSheets[i] != AnalysisSheets[j]
  {
  }

  /** No two analyses of a run write the same sheet. */
  lemma PlanDistinct(rs: Results)
    ensures DistinctNames(Plan(rs))
  {
    PlanNames(rs);
    DistinctSheets();
  }

  /** After a run on a workbook holding none of the analysis sheets, the
      i-th analysis sheet holds exactly what the i-th analysis wrote and
      its one chart. */
  lemma RunSheets(book: Book, rs: Results, i: nat)
    requires forall j :: 0 <= j < |AnalysisSheets| ==> AnalysisSheets[j] !in book
    requires i < |Plan(rs)|
    ensures AnalysisSheets[i] in ApplyAll(book, Plan(rs))
    ensures ApplyAll(book, Plan(rs))[AnalysisSheets[i]]
            == Sheet(Written(Plan(rs)[i]), [ChartOf(AnalysisSheets[i], Plan(rs)[i].frame)])
  {
    PlanNames(rs);
    PlanDistinct(rs);
    ApplyAllFresh(book, Plan(rs), i);
  }

  /** A run leaves every sheet other than the analysis sheets as it was. */
  lemma RunKeepsOtherSheets(book: Book, rs: Results, n: string)
    requires forall j :: 0 <= j < |AnalysisSheets| ==> AnalysisSheets[j] != n
    ensures n in ApplyAll(book, Plan(rs)) <==> n in book
    ensures n in book ==> ApplyAll(book, Plan(rs))[n] == book[n]
  {
    PlanNames(rs);
    ApplyAllFrame(book, Plan(rs));
    assert Untouched(Plan(rs), n);
  }

  /** The note beside the per-year table reads "Total workshops: " and
      then the digits of the number of rows of the table. */
  lemma PerYearNoteStatesRowCount(ws: seq<Workshop>)
    ensures PerYearOutput(WorkshopsPerYear(ws)).note.Some?
    ensures var c := PerYearOutput(WorkshopsPerYear(ws)).note.value;
            && c.Str? && c.s[..|WorkshopsNote|] == WorkshopsNote
            && AllDigits(c.s[|WorkshopsNote|..]) && DecimalValue(c.s[|WorkshopsNote|..]) == |ws|
  {
    WorkshopsPerYearCounts(ws);
    TotalNoteReadsBack(WorkshopsNote, Total(WorkshopsPerYear(ws)));
  }

  /** The note beside the attendance-per-year table reads "Total
      attendees: " and then the digits of 20 times the number of rows
      with a slug. */
  lemma AttendanceNoteStatesEstimate(ws: seq<Workshop>)
    ensures AttendancePerYearOutput(EstimatedAttendancePerYear(ws)).note.Some?
    ensures var c := AttendancePerYearOutput(EstimatedAttendancePerYear(ws)).note.value;
            && c.Str? && c.s[..|AttendeesNote|] == AttendeesNote
            && AllDigits(c.s[|AttendeesNote|..])
            && DecimalValue(c.s[|AttendeesNote|..]) == EstimatedAttendeesPerWorkshop * CountWhere(ws, Has(SlugField))
  {
    AttendanceTotal(ws, YearField, EstimatedAttendancePerYear(ws));
    TotalNoteReadsBack(AttendeesNote, Total(EstimatedAttendancePerYear(ws)));
  }

  /** The column chart of a table of groups reads, on every row of its
      ranges, that row's key as category and that row's count as value;
      the note in column 3 is read by neither range. */
  lemma FlatChartReadsGroups(name: string, header: Line, gs: seq<Group>, note: Option<Cell>)
    ensures var o := Output(name, GroupTable(header, gs), note);
            var series := ChartOf(name, o.frame).series[0];
            && (forall row, col :: InRange(series.categories, row, col) ==>
                  (row, col) in Written(o) && Written(o)[(row, col)] == KeyCell(gs[row - 1].key))
            && (forall row, col :: InRange(series.values, row, col) ==>
                  (row, col) in Written(o) && Written(o)[(row, col)] == Number(gs[row - 1].count))
  {
    FlatChartReadsTable(name, header, GroupLines(gs));
  }

  /** The per-year chart: the bar on each row is the number of workshops
      of the year named on that row. */
  lemma PerYearChartCounts(ws: seq<Workshop>)
    ensures var o := PerYearOutput(WorkshopsPerYear(ws));
            var r := WorkshopsPerYear(ws);
            forall row, col :: InRange(ChartOf(o.name, o.frame).series[0].values, row, col) ==>
              && (row, 0) in Written(o) && Written(o)[(row, 0)] == KeyCell(r[row - 1].key)
              && (row, col) in Written(o)
              && Written(o)[(row, col)] == Number(CountWhere(ws, Is(YearField, r[row - 1].key)))
  {
    var r := WorkshopsPerYear(ws);
    var o := PerYearOutput(r);
    FlatChartReadsGroups(PerYearSheet, o.frame.header, r, o.note);
    WorkshopsPerYearCounts(ws);
    forall row, col | InRange(ChartOf(o.name, o.frame).series[0].values, row, col)
      ensures (row, col) in Written(o) && Written(o)[(row, col)] == Number(CountWhere(ws, Is(YearField, r[row - 1].key)))
    {
      assert r[row - 1] in r;
    }
  }

  /** Series k of the stacked chart of a pivot is named by the k-th column
      key and reads the index keys and the k-th column's cells, NaN cells
      being empty. */
  lemma PivotChartReadsCells(name: string, valueName: string, columnsName: string, indexName: string, p: Pivot, k: nat)
    requires Shaped(p.cells, |p.index|, |p.columns|)
    requires k < |p.columns|
    ensures var t := RealPivotTable(valueName, columnsName, indexName, p);
            var g := Layout(t);
            var series := ChartOf(name, t).series[k];
            && series.name.Some? && (series.name.value.row, series.name.value.col) in g
            && g[(series.name.value.row, series.name.value.col)] == KeyCell(p.columns[k])
            && (forall row, col :: InRange(series.categories, row, col) ==>
                  (row, col) in g && g[(row, col)] == KeyCell(p.index[row - 3]))
            && (forall row, col :: InRange(series.values, row, col) ==>
                  (row, col) in g && g[(row, col)] == RealCell(p.cells[row - 3][k]))
  {
    PivotChartReadsTable(name, valueName, columnsName, indexName, p.index, p.columns, RealCells(p), k);
  }
  /** A data cell of the type-by-year sheet: the cell of a year and a
      type is empty exactly when no workshop has that year and type, and
      otherwise holds their number of workshops. */
  lemma TypePerYearSheetCells(ws: seq<Workshop>, i: nat, j: nat)
    requires i < |WorkshopsPerTypePerYear(ws).index| && j < |WorkshopsPerTypePerYear(ws).columns|
    ensures var p := WorkshopsPerTypePerYear(ws);
            var g := Written(TypePerYearOutput(p));
            var n := CountWhere(ws, Both(Is(TypeField, p.columns[j]), Is(YearField, p.index[i])));
            && (i + 3, j + 1) in g
            && (g[(i + 3, j + 1)] == Blank <==> n == 0)
            && (n > 0 ==> g[(i + 3, j + 1)] == Decimal(n as real))
  {
    var p := WorkshopsPerTypePerYear(ws);
    WorkshopsPerTypePerYearCells(ws);
    TypePerYearCellShown(p, i, j, CountWhere(ws, Both(Is(TypeField, p.columns[j]), Is(YearField, p.index[i]))));
  }

  /** One data cell of the type-by-year sheet, for a pivot cell that is a
      positive count or NaN. */
  lemma TypePerYearCellShown(p: Pivot, i: nat, j: nat, n: nat)
    requires Shaped(p.cells, |p.index|, |p.columns|)
    requires i < |p.index| && j < |p.columns|
    requires p.cells[i][j] == if n > 0 then Some(n as real) else None
    ensures (i + 3, j + 1) in Written(TypePerYearOutput(p))
    ensures Written(TypePerYearOutput(p))[(i + 3, j + 1)] == Blank <==> n == 0
    ensures n > 0 ==> Written(TypePerYearOutput(p))[(i + 3, j + 1)] == Decimal(n as real)
  {
    PivotGridCells("number_of_workshops", "workshop_type", "year", p.index, p.columns, RealCells(p));
  }

  /** A data cell of the host-by-year sheet: the cell of a host and a
      year holds a number, the number of workshops of that host in that
      year, 0 when there are none. */
  lemma HostPerYearSheetCells(ws: seq<Workshop>, i: nat, j: nat)
    requires i < |WorkshopsPerHostPerYear(ws).index| && j < |WorkshopsPerHostPerYear(ws).columns|
    ensures var q := WorkshopsPerHostPerYear(ws);
            var g := Written(HostPerYearOutput(q));
            && (i + 3, j + 1) in g
            && g[(i + 3, j + 1)] == Number(CountWhere(ws, Both(Is(HostField, q.index[i]), Is(YearField, q.columns[j]))))
  {
    var q := WorkshopsPerHostPerYear(ws);
    WorkshopsPerHostPerYearCells(ws);
    HostPerYearCellShown(q, i, j);
  }

  /** One data cell of the host-by-year sheet holds its pivot cell. */
  lemma HostPerYearCellShown(q: IntPivot, i: nat, j: nat)
    requires Shaped(q.cells, |q.index|, |q.columns|)
    requires i < |q.index| && j < |q.columns|
    ensures (i + 3, j + 1) in Written(HostPerYearOutput(q))
    ensures Written(HostPerYearOutput(q))[(i + 3, j + 1)] == Number(q.cells[i][j])
  {
    PivotGridCells("number_of_workshops", "year", "organiser_top_level_web_domain", q.index, q.columns, IntCells(q));
  }

  /** The online sheet, when the split succeeds: "Online" and "In-person"
      in column 0, then the number of rows tagged online and the number of
      rows with a slug less those, which add up to the rows with a slug. */
  lemma OnlineSheetCells(ws: seq<Workshop>)
    ensures OnlineVsInPerson(ws).Ok? ==>
              var g := Written(OnlineOutput(OnlineVsInPerson(ws).value));
              var online := CountWhere(ws, Tagged("online"));
              && (1, 0) in g && g[(1, 0)] == Str("Online")
              && (2, 0) in g && g[(2, 0)] == Str("In-person")
              && (1, 1) in g && g[(1, 1)] == Number(online)
              && (2, 1) in g && g[(2, 1)] == Number(CountWhere(ws, Has(SlugField)) - online)
              && g[(1, 1)].n + g[(2, 1)].n == CountWhere(ws, Has(SlugField))
  {
    OnlineVsInPersonCounts(ws);
    if OnlineVsInPerson(ws).Ok? {
      var v := OnlineVsInPerson(ws).value;
      var online := CountWhere(ws, Tagged("online"));
      assert LabelledLines(v)
             == [Line(Str("Online"), Number(online)), Line(Str("In-person"), Number(CountWhere(ws, Has(SlugField)) - online))];
      FlatGridCells(Line(Blank, Number(0)), LabelledLines(v));
    }
  }

  /** The sheet `lib.helper` writes the workshop table to. */
  const DataSheet := "carpentry_workshops"

  /** The workbook `main` hands to the analyses: the data sheet, then the
      readme tab, both written by `lib.helper` with cells not modelled. */
  function HelperBook(data: Grid, readmeName: string, readme: Grid): (b: Book)
    ensures DataSheet in b && readmeName in b
    ensures forall n :: n in b ==> n == DataSheet || n == readmeName
  {
    ToExcelBook(ToExcelBook(map[], DataSheet, data), readmeName, readme)
  }

  /** `main` from the creation of the writer to the save: the writer with
      the data sheet and the readme tab, the analyses in order, and the
      save only when none of them raised. Each analysis sheet then holds
      exactly its table, its note and its one chart, the data and readme
      sheets are as the helper wrote them, and there is no other sheet. */
  method WriteReport(ws: seq<Workshop>, data: Grid, readmeName: string, readme: Grid) returns (book: Workbook, saved: bool)
    requires forall j :: 0 <= j < |AnalysisSheets| ==> AnalysisSheets[j] != readmeName
    ensures fresh(book) && book.Valid()
    ensures saved <==> forall w :: w in ws ==> w.tags.Some?
    ensures book.sheets == ApplyAll(HelperBook(data, readmeName, readme), Plan(Analyses(ws)))
    ensures forall i :: 0 <= i < |Plan(Analyses(ws))| ==>
              && AnalysisSheets[i] in book.sheets
              && book.sheets[AnalysisSheets[i]]
                 == Sheet(Written(Plan(Analyses(ws))[i]), [ChartOf(AnalysisSheets[i], Plan(Analyses(ws))[i].frame)])
    ensures DataSheet in book.sheets && readmeName in book.sheets
    ensures forall n :: n in HelperBook(data, readmeName, readme) ==>
              n in book.sheets && book.sheets[n] == HelperBook(data, readmeName, readme)[n]
    ensures forall n :: n in book.sheets ==>
              n in AnalysisSheets[..|Plan(Analyses(ws))|] || n == DataSheet || n == readmeName
  {
    book := new Workbook();
    book.ToExcel(DataSheet, data);
    book.ToExcel(readmeName, readme);
    assert book.sheets == HelperBook(data, readmeName, readme);
    saved := RunAnalyses(ws, book);
    HelperRun(data, readmeName, readme, Analyses(ws));
  }

  /** A run on the helper's workbook: the planned analysis sheets as
      written, the data and readme sheets as they were, and nothing else. */
  lemma HelperRun(data: Grid, readmeName: string, readme: Grid, rs: Results)
    requires forall j :: 0 <= j < |AnalysisSheets| ==> AnalysisSheets[j] != readmeName
    ensures var b := ApplyAll(HelperBook(data, readmeName, readme), Plan(rs));
            && (forall i :: 0 <= i < |Plan(rs)| ==>
                  && AnalysisSheets[i] in b
                  && b[AnalysisSheets[i]] == Sheet(Written(Plan(rs)[i]), [ChartOf(AnalysisSheets[i], Plan(rs)[i].frame)]))
            && DataSheet in b && readmeName in b
            && (forall n :: n in HelperBook(data, readmeName, readme) ==> n in b && b[n] == HelperBook(data, readmeName, readme)[n])
            && (forall n :: n in b ==> n in AnalysisSheets[..|Plan(rs)|] || n == DataSheet || n == readmeName)
  {
    var helper := HelperBook(data, readmeName, readme);
    assert forall j :: 0 <= j < |AnalysisSheets| ==> AnalysisSheets[j] != DataSheet;
    RunLeavesSheets(helper, rs);
  }

  /** A run on a workbook holding none of the analysis sheets leaves the
      planned analysis sheets, each holding its table, its note and its
      one chart, keeps every sheet it found as it was, and adds nothing
      else. */
  lemma RunLeavesSheets(book: Book, rs: Results)
    requires forall j :: 0 <= j < |AnalysisSheets| ==> AnalysisSheets[j] !in book
    ensures forall i :: 0 <= i < |Plan(rs)| ==>
              && AnalysisSheets[i] in ApplyAll(book, Plan(rs))
              && ApplyAll(book, Plan(rs))[AnalysisSheets[i]]
                 == Sheet(Written(Plan(rs)[i]), [ChartOf(AnalysisSheets[i], Plan(rs)[i].frame)])
    ensures forall n :: n in book ==> n in ApplyAll(book, Plan(rs)) && ApplyAll(book, Plan(rs))[n] == book[n]
    ensures forall n :: n in ApplyAll(book, Plan(rs)) ==> n in AnalysisSheets[..|Plan(rs)|] || n in book
  {
    forall i | 0 <= i < |Plan(rs)|
      ensures AnalysisSheets[i] in ApplyAll(book, Plan(rs))
      ensures ApplyAll(book, Plan(rs))[AnalysisSheets[i]] == Sheet(Written(Plan(rs)[i]), [ChartOf(AnalysisSheets[i], Plan(rs)[i].frame)])
    {
      RunSheets(book, rs, i);
    }
    PlanNames(rs);
    ApplyAllFrame(book, Plan(rs));
    forall n | n in book
      ensures n in ApplyAll(book, Plan(rs)) && ApplyAll(book, Plan(rs))[n] == book[n]
    {
      RunKeepsOtherSheets(book, rs, n);
    }
    forall n | n in ApplyAll(book, Plan(rs)) && n !in book
      ensures n in AnalysisSheets[..|Plan(rs)|]
    {
      if !Untouched(Plan(rs), n) {
        var i :| 0 <= i < |Plan(rs)| && Plan(rs)[i].name == n;
        assert AnalysisSheets[..|Plan(rs)|][i] == n;
      }
    }
  }
}

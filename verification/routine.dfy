/** The exam routine (ExamManagement/views.py): the items built from the
    creation and edit forms, and the date × class grid that
    `routine_detail`, `routine_preview` and `routine_pdf` make of them.
    Form fields arrive already stripped; date fields arrive already
    classified as blank, unparseable or a date. */
module Routine {
  import opened Wrappers
  import opened TextOrder

  /** A Subject row. */
  datatype Subject = Subject(id: int, name: string)

  /** A date, by its canonical ISO text YYYY-MM-DD: `Valid(d)` carries the
      parsed date written that way, so "2025-1-6" and "2025-01-06" submit
      the same date, as they do once parsed in the views. With four-digit
      years the text order is the calendar order, and the text is what the
      PDF prints. */
  type Date = string

  /** An ExamRoutineItem: on `date`, class `className` sits `subject`. */
  datatype Item = Item(date: Date, className: string, subject: Subject)

  /** An ExamRoutine with its items, in one order that the detail page,
      the preview and the PDF are all taken to read them in. The database
      fixes that order only up to (date, class), so two items of one cell
      may reach the three views in different orders. Absent optional texts
      are None. */
  datatype Routine = Routine(name: string, examTime: Option<string>, noteAbove: Option<string>,
                             noteBelow: Option<string>, items: seq<Item>)

  /** A submitted date field. */
  datatype DateInput = Blank | Invalid | Valid(date: Date)

  /** The routine form: header texts, the class columns, the date rows, and
      the subject-id text of each submitted cell `subject_<row>_<column>`. */
  datatype Form = Form(name: string, examTime: string, noteAbove: string, noteBelow: string,
                       classNames: seq<string>, dates: seq<DateInput>, cells: map<(int, int), string>)

  datatype CreateError = NameMissing | NoDates | NoClasses

  /** The subject a cell names: a non-empty id that is in the Subject table
      (`subjects`, by submitted id text). */
  function CellSubject(f: Form, subjects: map<string, Subject>, r: int, c: int): Option<Subject> {
    if (r, c) in f.cells && f.cells[(r, c)] != "" && f.cells[(r, c)] in subjects
    then Some(subjects[f.cells[(r, c)]]) else None
  }

  function NameOf(s: Option<Subject>): Option<string> {
    if s.Some? then Some(s.value.name) else None
  }

  /** The items of row `r` (dated `d`) from its first `m` columns. */
  function CellItems(f: Form, subjects: map<string, Subject>, r: int, d: Date, m: nat): seq<Item>
    requires m <= |f.classNames|
    decreases m
  {
    if m == 0 then []
    else
      var before := CellItems(f, subjects, r, d, m - 1);
      match CellSubject(f, subjects, r, m - 1)
      case Some(s) => before + [Item(d, f.classNames[m - 1], s)]
      case None => before
  }

  /** The items of row `r`: none when its date is blank or unparseable. */
  function RowItems(f: Form, subjects: map<string, Subject>, r: nat): seq<Item>
    requires r < |f.dates|
  {
    match f.dates[r]
    case Valid(d) => CellItems(f, subjects, r, d, |f.classNames|)
    case _ => []
  }

  /** The items of the first `n` rows, row by row, column by column. */
  function BuildItems(f: Form, subjects: map<string, Subject>, n: nat): seq<Item>
    requires n <= |f.dates|
    decreases n
  {
    if n == 0 then [] else BuildItems(f, subjects, n - 1) + RowItems(f, subjects, n - 1)
  }

  /** Every item from a row has the row's date, a submitted class name and
      a subject from the table. */
  lemma {:induction false} CellItemsProvenance(f: Form, subjects: map<string, Subject>, r: int, d: Date, m: nat)
    requires m <= |f.classNames|
    ensures forall it :: it in CellItems(f, subjects, r, d, m) ==>
              it.date == d && it.className in f.classNames && it.subject in subjects.Values
    decreases m
  {
    if m > 0 {
      CellItemsProvenance(f, subjects, r, d, m - 1);
      var before := CellItems(f, subjects, r, d, m - 1);
      match CellSubject(f, subjects, r, m - 1)
      case Some(s) =>
        assert CellItems(f, subjects, r, d, m) == before + [Item(d, f.classNames[m - 1], s)];
        assert f.cells[(r, m - 1)] in subjects;
      case None =>
        assert CellItems(f, subjects, r, d, m) == before;
    }
  }

  /** Every item of a row has the row's (usable) date, a submitted class
      name and a subject from the table. */
  lemma RowItemsProvenance(f: Form, subjects: map<string, Subject>, r: nat)
    requires r < |f.dates|
    ensures forall it :: it in RowItems(f, subjects, r) ==>
              f.dates[r] == Valid(it.date) && it.className in f.classNames && it.subject in subjects.Values
  {
    if f.dates[r].Valid? {
      assert RowItems(f, subjects, r) == CellItems(f, subjects, r, f.dates[r].date, |f.classNames|);
      CellItemsProvenance(f, subjects, r, f.dates[r].date, |f.classNames|);
    } else {
      assert RowItems(f, subjects, r) == [];
    }
  }

  /** Every built item has a usable submitted date, a submitted class name
      and an existing subject. */
  lemma {:induction false} BuildItemsProvenance(f: Form, subjects: map<string, Subject>, n: nat)
    requires n <= |f.dates|
    ensures forall it :: it in BuildItems(f, subjects, n) ==>
              Valid(it.date) in f.dates && it.className in f.classNames && it.subject in subjects.Values
    decreases n
  {
    if n > 0 {
      BuildItemsProvenance(f, subjects, n - 1);
      RowItemsProvenance(f, subjects, n - 1);
      assert BuildItems(f, subjects, n) == BuildItems(f, subjects, n - 1) + RowItems(f, subjects, n - 1);
    }
  }

  /** Every resolved cell of row `r` among its first `m` columns yields
      an item dated `d`. */
  lemma {:induction false} CellItemsComplete(f: Form, subjects: map<string, Subject>, r: int, d: Date, m: nat)
    requires m <= |f.classNames|
    ensures forall c :: 0 <= c < m && CellSubject(f, subjects, r, c).Some? ==>
              Item(d, f.classNames[c], CellSubject(f, subjects, r, c).value) in CellItems(f, subjects, r, d, m)
    decreases m
  {
    if m > 0 {
      CellItemsComplete(f, subjects, r, d, m - 1);
      var before := CellItems(f, subjects, r, d, m - 1);
      match CellSubject(f, subjects, r, m - 1)
      case Some(s) =>
        assert CellItems(f, subjects, r, d, m) == before + [Item(d, f.classNames[m - 1], s)];
      case None =>
        assert CellItems(f, subjects, r, d, m) == before;
    }
  }

  /** Every row with a usable date and every resolved cell in it yields
      an item, among the first `n` rows. */
  lemma {:induction false} BuildItemsComplete(f: Form, subjects: map<string, Subject>, n: nat)
    requires n <= |f.dates|
    ensures forall rr, c :: 0 <= rr < n && f.dates[rr].Valid? && 0 <= c < |f.classNames|
                            && CellSubject(f, subjects, rr, c).Some? ==>
              Item(f.dates[rr].date, f.classNames[c], CellSubject(f, subjects, rr, c).value) in BuildItems(f, subjects, n)
    decreases n
  {
    if n > 0 {
      BuildItemsComplete(f, subjects, n - 1);
      var before := BuildItems(f, subjects, n - 1);
      var row := RowItems(f, subjects, n - 1);
      assert BuildItems(f, subjects, n) == before + row;
      if f.dates[n - 1].Valid? {
        var d := f.dates[n - 1].date;
        assert row == CellItems(f, subjects, n - 1, d, |f.classNames|);
        CellItemsComplete(f, subjects, n - 1, d, |f.classNames|);
      }
    }
  }

  /** `x or None`. */
  function OrNone(s: string): (r: Option<string>)
    ensures r.None? <==> s == ""
    ensures r.Some? ==> r.value == s
  {
    if s == "" then None else Some(s)
  }

  /** The POST branch of `create_routine`: the three checks in order, then
      the routine and an item for every resolved cell of every row with a
      usable date. */
  function CreateRoutine(f: Form, subjects: map<string, Subject>): (r: Result<Routine, CreateError>)
    ensures r == Failure(NameMissing) <==> f.name == ""
    ensures r == Failure(NoDates) <==> f.name != "" && f.dates == []
    ensures r == Failure(NoClasses) <==> f.name != "" && f.dates != [] && f.classNames == []
    ensures r.Success? ==>
              && r.value.name == f.name
              && r.value.examTime == OrNone(f.examTime)
              && r.value.noteAbove == OrNone(f.noteAbove)
              && r.value.noteBelow == OrNone(f.noteBelow)
              && (forall i :: 0 <= i < |r.value.items| ==>
                    Valid(r.value.items[i].date) in f.dates && r.value.items[i].className in f.classNames
                    && r.value.items[i].subject in subjects.Values)
    ensures r.Success? ==>
              forall rr, c :: 0 <= rr < |f.dates| && f.dates[rr].Valid? && 0 <= c < |f.classNames|
                              && CellSubject(f, subjects, rr, c).Some? ==>
                Item(f.dates[rr].date, f.classNames[c], CellSubject(f, subjects, rr, c).value) in r.value.items
  {
    if f.name == "" then Failure(NameMissing)
    else if f.dates == [] then Failure(NoDates)
    else if f.classNames == [] then Failure(NoClasses)
    else
      var items := BuildItems(f, subjects, |f.dates|);
      BuildItemsProvenance(f, subjects, |f.dates|);
      BuildItemsComplete(f, subjects, |f.dates|);
      Success(Routine(f.name, OrNone(f.examTime), OrNone(f.noteAbove), OrNone(f.noteBelow), items))
  }

  /** The (date, class) an item fills. */
  function Key(it: Item): (Date, string) {
    (it.date, it.className)
  }

  /** The items' dates, in item order. */
  function DateList(items: seq<Item>): (r: seq<Date>)
    ensures |r| == |items|
    ensures forall i :: 0 <= i < |items| ==> r[i] == items[i].date
    decreases |items|
  {
    if items == [] then [] else DateList(items[..|items| - 1]) + [items[|items| - 1].date]
  }

  /** The items' class names, in item order. */
  function ClassList(items: seq<Item>): (r: seq<string>)
    ensures |r| == |items|
    ensures forall i :: 0 <= i < |items| ==> r[i] == items[i].className
    decreases |items|
  {
    if items == [] then [] else ClassList(items[..|items| - 1]) + [items[|items| - 1].className]
  }

  /** The grid of `routine_detail`: each item in turn writes its subject's
      name into its (date, class) cell. */
  function DetailGrid(items: seq<Item>): (g: map<(Date, string), string>)
    ensures forall k :: k in g <==> exists i :: 0 <= i < |items| && Key(items[i]) == k
    decreases |items|
  {
    if items == [] then map[]
    else
      var init, last := items[..|items| - 1], items[|items| - 1];
      var g := DetailGrid(init);
      assert forall i :: 0 <= i < |init| ==> init[i] == items[i];
      g[Key(last) := last.subject.name]
  }

  /** In the detail grid a cell shows the subject of the last item filling
      it: later items overwrite earlier ones. */
  lemma {:induction false} DetailGridLastWins(items: seq<Item>, i: int)
    requires 0 <= i < |items|
    requires forall j :: i < j < |items| ==> Key(items[j]) != Key(items[i])
    ensures Key(items[i]) in DetailGrid(items) && DetailGrid(items)[Key(items[i])] == items[i].subject.name
    decreases |items|
  {
    if i < |items| - 1 {
      var init := items[..|items| - 1];
      assert init[i] == items[i];
      DetailGridLastWins(init, i);
    }
  }

  /** `next((item.subject.name for item in items if ...), None)`: the
      subject name of the first item filling (d, c). */
  function FirstMatch(items: seq<Item>, d: Date, c: string): Option<string>
    decreases |items|
  {
    if items == [] then None
    else if Key(items[0]) == (d, c) then Some(items[0].subject.name)
    else FirstMatch(items[1..], d, c)
  }

  /** The lookup finds nothing exactly when no item fills (d, c). */
  lemma {:induction false} FirstMatchNoneIff(items: seq<Item>, d: Date, c: string)
    ensures FirstMatch(items, d, c).None? <==> forall i :: 0 <= i < |items| ==> Key(items[i]) != (d, c)
    decreases |items|
  {
    if items != [] && Key(items[0]) != (d, c) {
      FirstMatchNoneIff(items[1..], d, c);
      assert forall i :: 1 <= i < |items| ==> items[i] == items[1..][i - 1];
    }
  }

  /** A found subject is that of the first item filling (d, c). */
  lemma {:induction false} FirstMatchIsFirst(items: seq<Item>, d: Date, c: string)
    requires FirstMatch(items, d, c).Some?
    ensures exists i :: 0 <= i < |items| && Key(items[i]) == (d, c)
                        && FirstMatch(items, d, c).value == items[i].subject.name
                        && forall j :: 0 <= j < i ==> Key(items[j]) != (d, c)
    decreases |items|
  {
    if Key(items[0]) != (d, c) {
      FirstMatchIsFirst(items[1..], d, c);
      var i :| 0 <= i < |items[1..]| && Key(items[1..][i]) == (d, c)
               && FirstMatch(items[1..], d, c).value == items[1..][i].subject.name
               && forall j :: 0 <= j < i ==> Key(items[1..][j]) != (d, c);
      assert items[i + 1] == items[1..][i];
      assert forall j :: 1 <= j < i + 1 ==> items[j] == items[1..][j - 1];
    } else {
      assert Key(items[0]) == (d, c);
    }
  }

  /** The sorted distinct dates and class names of a routine's items, and
      a row of cells per date with a cell per class name. */
  datatype Grid = Grid(dates: seq<Date>, classNames: seq<string>, cells: seq<seq<Option<string>>>)

  /** The grid of `routine_preview`. */
  function Preview(items: seq<Item>): (g: Grid)
    ensures Increasing(g.dates) && Increasing(g.classNames)
    ensures forall d :: d in g.dates <==> exists i :: 0 <= i < |items| && items[i].date == d
    ensures forall c :: c in g.classNames <==> exists i :: 0 <= i < |items| && items[i].className == c
    ensures |g.cells| == |g.dates|
    ensures forall i :: 0 <= i < |g.cells| ==> |g.cells[i]| == |g.classNames|
  {
    var dates := SortedSet(DateList(items));
    var classes := SortedSet(ClassList(items));
    Grid(dates, classes,
         seq(|dates|, i requires 0 <= i < |dates| =>
               seq(|classes|, j requires 0 <= j < |classes| => FirstMatch(items, dates[i], classes[j]))))
  }

  /** A preview cell is empty exactly when no item fills its date and
      class. */
  lemma PreviewCellEmptyIff(items: seq<Item>, i: int, j: int)
    requires 0 <= i < |Preview(items).dates| && 0 <= j < |Preview(items).classNames|
    ensures var g := Preview(items);
            g.cells[i][j].None? <==> forall n :: 0 <= n < |items| ==> Key(items[n]) != (g.dates[i], g.classNames[j])
  {
    var g := Preview(items);
    PreviewCellIsFirstMatch(items, i, j);
    FirstMatchNoneIff(items, g.dates[i], g.classNames[j]);
  }

  /** The `table_data` of `routine_pdf`: a header row, then a row per date
      holding the date and one cell per class, empty when nothing is
      scheduled. */
  function PdfTable(items: seq<Item>): (t: seq<seq<string>>)
    ensures var g := Preview(items);
            && |t| == 1 + |g.dates|
            && t[0] == ["Date"] + g.classNames
            && forall i :: 1 <= i < |t| ==> |t[i]| == 1 + |g.classNames| && t[i][0] == g.dates[i - 1]
  {
    var dates := SortedSet(DateList(items));
    var classes := SortedSet(ClassList(items));
    assert Preview(items).dates == dates && Preview(items).classNames == classes;
    [["Date"] + classes]
    + seq(|dates|, i requires 0 <= i < |dates| =>
            [dates[i]] + seq(|classes|, j requires 0 <= j < |classes| => FirstMatch(items, dates[i], classes[j]).GetOr("")))
  }

  /** Every cell of the PDF table is the preview's cell, with "" for an
      empty one. */
  lemma PdfCellIsPreviewCell(items: seq<Item>, i: int, j: int)
    requires 0 <= i < |Preview(items).dates| && 0 <= j < |Preview(items).classNames|
    ensures PdfTable(items)[i + 1][j + 1] == Preview(items).cells[i][j].GetOr("")
  {
  }

  /** When no two items fill the same cell, `routine_detail` and
      `routine_preview` show the same grid: the detail grid has exactly the
      preview's non-empty cells, with the same subjects. */
  lemma DetailMatchesPreviewWithoutDuplicates(items: seq<Item>)
    requires forall i, j :: 0 <= i < j < |items| ==> Key(items[i]) != Key(items[j])
    ensures var g, p := DetailGrid(items), Preview(items);
            && (forall k :: k in g ==> k.0 in p.dates && k.1 in p.classNames)
            && (forall i, j :: 0 <= i < |p.dates| && 0 <= j < |p.classNames| ==>
                  var k := (p.dates[i], p.classNames[j]);
                  (k in g <==> p.cells[i][j].Some?) && (k in g ==> p.cells[i][j] == Some(g[k])))
  {
    var g, p := DetailGrid(items), Preview(items);
    forall k | k in g ensures k.0 in p.dates && k.1 in p.classNames {
      DetailKeyInPreview(items, k);
    }
    forall i, j | 0 <= i < |p.dates| && 0 <= j < |p.classNames|
      ensures var k := (p.dates[i], p.classNames[j]);
              (k in g <==> p.cells[i][j].Some?) && (k in g ==> p.cells[i][j] == Some(g[k]))
    {
      PreviewCellIsFirstMatch(items, i, j);
      DetailCellIsFirstMatch(items, p.dates[i], p.classNames[j]);
    }
  }

  /** Every filled cell of the detail grid has its date and class in the
      preview. */
  lemma DetailKeyInPreview(items: seq<Item>, k: (Date, string))
    requires k in DetailGrid(items)
    ensures k.0 in Preview(items).dates && k.1 in Preview(items).classNames
  {
    var n :| 0 <= n < |items| && Key(items[n]) == k;
    assert items[n].date == k.0 && items[n].className == k.1;
  }

  /** Without two items per cell, the detail grid's cell is the first (and
      only) match. */
  lemma DetailCellIsFirstMatch(items: seq<Item>, d: Date, c: string)
    requires forall i, j :: 0 <= i < j < |items| ==> Key(items[i]) != Key(items[j])
    ensures var g, m := DetailGrid(items), FirstMatch(items, d, c);
            ((d, c) in g <==> m.Some?) && ((d, c) in g ==> m == Some(g[(d, c)]))
  {
    var m := FirstMatch(items, d, c);
    if m.Some? {
      FirstMatchIsFirst(items, d, c);
      var n :| 0 <= n < |items| && Key(items[n]) == (d, c) && m.value == items[n].subject.name;
      DetailGridLastWins(items, n);
    }
  }

  /** Two items for one cell: on 2025-01-05 class Ten has Maths, then
      Science. */
  function DuplicatedCell(): seq<Item> {
    [Item("2025-01-05", "Ten", Subject(1, "Maths")), Item("2025-01-05", "Ten", Subject(2, "Science"))]
  }

  /** A list holding one text twice sorts to that text once. */
  lemma SortedSetOfTwice(x: string)
    ensures SortedSet([x, x]) == [x]
  {
    assert [x, x][..1] == [x];
    assert [x][..0] == [];
    assert SortedSet([x]) == Insert([], x) == [x];
    assert Insert([x], x) == [x];
  }

  /** With two items for one cell the views disagree: the detail page
      shows the last... */
  lemma DuplicateCellDetailShowsLast()
    ensures DetailGrid(DuplicatedCell())[("2025-01-05", "Ten")] == "Science"
  {
    var items := DuplicatedCell();
    DetailGridLastWins(items, 1);
  }

  /** ...while the preview, and so the PDF, shows the first. */
  lemma DuplicateCellPreviewShowsFirst()
    ensures Preview(DuplicatedCell()) == Grid(["2025-01-05"], ["Ten"], [[Some("Maths")]])
  {
    var items := DuplicatedCell();
    assert items[..1] == [items[0]];
    assert DateList(items) == ["2025-01-05", "2025-01-05"];
    assert ClassList(items) == ["Ten", "Ten"];
    SortedSetOfTwice("2025-01-05");
    SortedSetOfTwice("Ten");
    assert FirstMatch(items, "2025-01-05", "Ten") == Some("Maths");
    PreviewCellIsFirstMatch(items, 0, 0);
    assert Preview(items).cells[0] == [Some("Maths")];
  }

  /** Prepending an item list: the first match is found in the first part
      when it is there at all. */
  lemma {:induction false} FirstMatchConcat(a: seq<Item>, b: seq<Item>, d: Date, c: string)
    ensures FirstMatch(a + b, d, c) == if FirstMatch(a, d, c).Some? then FirstMatch(a, d, c) else FirstMatch(b, d, c)
    decreases |a|
  {
    if a == [] {
      assert a + b == b;
    } else {
      assert (a + b)[0] == a[0];
      assert (a + b)[1..] == a[1..] + b;
      FirstMatchConcat(a[1..], b, d, c);
    }
  }

  /** Class names that are pairwise different. */
  predicate DistinctClasses(f: Form) {
    forall i, j :: 0 <= i < j < |f.classNames| ==> f.classNames[i] != f.classNames[j]
  }

  /** Usable dates that are pairwise different. */
  predicate DistinctDates(f: Form) {
    forall i, j :: 0 <= i < j < |f.dates| && f.dates[i].Valid? && f.dates[j].Valid? ==> f.dates[i].date != f.dates[j].date
  }

  /** Within row `r`, the cell of column `cc` is the one its form cell names. */
  lemma {:induction false} CellItemsShowCell(f: Form, subjects: map<string, Subject>, r: int, d: Date, m: nat, cc: int)
    requires m <= |f.classNames| && 0 <= cc < |f.classNames|
    requires forall q :: 0 <= q < |f.classNames| && q != cc ==> f.classNames[q] != f.classNames[cc]
    ensures FirstMatch(CellItems(f, subjects, r, d, m), d, f.classNames[cc])
            == if cc < m then NameOf(CellSubject(f, subjects, r, cc)) else None
    decreases m
  {
    if m > 0 {
      var c := f.classNames[cc];
      var before := CellItems(f, subjects, r, d, m - 1);
      CellItemsShowCell(f, subjects, r, d, m - 1, cc);
      var expected := NameOf(CellSubject(f, subjects, r, cc));
      assert FirstMatch(before, d, c) == if cc < m - 1 then expected else None;
      match CellSubject(f, subjects, r, m - 1)
      case Some(s) =>
        var cell := Item(d, f.classNames[m - 1], s);
        assert CellItems(f, subjects, r, d, m) == before + [cell];
        FirstMatchConcat(before, [cell], d, c);
        if cc == m - 1 {
          assert FirstMatch([cell], d, c) == Some(s.name);
        } else if cc > m - 1 {
          assert f.classNames[m - 1] != c;
          assert FirstMatch([cell], d, c) == None;
        }
      case None =>
        assert CellItems(f, subjects, r, d, m) == before;
    } else {
      assert CellItems(f, subjects, r, d, m) == [];
    }
  }

  /** Rows of items laid end to end, first row first. */
  function Flatten(rows: seq<seq<Item>>): seq<Item>
    decreases |rows|
  {
    if rows == [] then [] else Flatten(rows[..|rows| - 1]) + rows[|rows| - 1]
  }

  /** When no row but row `r` holds anything for (d, c), the lookup over
      all rows is the lookup in row `r`, and nothing when there is no
      such row. */
  lemma {:induction false} FlattenShowsOnlyRow(rows: seq<seq<Item>>, r: nat, d: Date, c: string)
    requires forall q :: 0 <= q < |rows| && q != r ==> FirstMatch(rows[q], d, c) == None
    ensures FirstMatch(Flatten(rows), d, c) == if r < |rows| then FirstMatch(rows[r], d, c) else None
    decreases |rows|
  {
    if rows != [] {
      var init, last := rows[..|rows| - 1], rows[|rows| - 1];
      assert forall q :: 0 <= q < |init| && q != r ==> init[q] == rows[q];
      FlattenShowsOnlyRow(init, r, d, c);
      FirstMatchConcat(Flatten(init), last, d, c);
      if r < |init| {
        assert init[r] == rows[r];
      }
    }
  }

  /** The rows of items of the first `n` date rows. */
  function RowsOf(f: Form, subjects: map<string, Subject>, n: nat): (rows: seq<seq<Item>>)
    requires n <= |f.dates|
    ensures |rows| == n && forall q :: 0 <= q < n ==> rows[q] == RowItems(f, subjects, q)
  {
    seq(n, q requires 0 <= q < n => RowItems(f, subjects, q))
  }

  /** Building the items is laying the rows end to end. */
  lemma {:induction false} BuildItemsFlatten(f: Form, subjects: map<string, Subject>, n: nat)
    requires n <= |f.dates|
    ensures BuildItems(f, subjects, n) == Flatten(RowsOf(f, subjects, n))
    decreases n
  {
    if n > 0 {
      var rows, init := RowsOf(f, subjects, n), RowsOf(f, subjects, n - 1);
      assert rows[..n - 1] == init by {
        forall q | 0 <= q < n - 1 ensures rows[..n - 1][q] == init[q] { }
      }
      BuildItemsFlatten(f, subjects, n - 1);
      assert Flatten(rows) == Flatten(init) + rows[n - 1];
    }
  }

  /** Over the first `n` rows, the cell of row `r`, column `cc` is the one
      its form cell names. */
  lemma BuildItemsShowCell(f: Form, subjects: map<string, Subject>, n: nat, r: int, cc: int)
    requires n <= |f.dates| && 0 <= r < |f.dates| && f.dates[r].Valid? && 0 <= cc < |f.classNames|
    requires forall q :: 0 <= q < |f.classNames| && q != cc ==> f.classNames[q] != f.classNames[cc]
    requires forall q :: 0 <= q < |f.dates| && q != r ==> f.dates[q] != f.dates[r]
    ensures FirstMatch(BuildItems(f, subjects, n), f.dates[r].date, f.classNames[cc])
            == if r < n then NameOf(CellSubject(f, subjects, r, cc)) else None
  {
    var d, c := f.dates[r].date, f.classNames[cc];
    var rows := RowsOf(f, subjects, n);
    forall q | 0 <= q < n && q != r
      ensures FirstMatch(rows[q], d, c) == None
    {
      RowItemsOtherDate(f, subjects, q, d, c);
    }
    FlattenShowsOnlyRow(rows, r, d, c);
    BuildItemsFlatten(f, subjects, n);
    if r < n {
      assert rows[r] == CellItems(f, subjects, r, d, |f.classNames|);
      CellItemsShowCell(f, subjects, r, d, |f.classNames|, cc);
    }
  }

  /** A row holds no item for a date other than its own. */
  lemma RowItemsOtherDate(f: Form, subjects: map<string, Subject>, r: nat, d: Date, c: string)
    requires r < |f.dates| && f.dates[r] != Valid(d)
    ensures FirstMatch(RowItems(f, subjects, r), d, c).None?
  {
    var row := RowItems(f, subjects, r);
    RowItemsProvenance(f, subjects, r);
    forall i | 0 <= i < |row| ensures Key(row[i]) != (d, c) {
      assert f.dates[r] == Valid(row[i].date);
    }
    FirstMatchNoneIff(row, d, c);
  }

  /** Creating a routine and previewing it gives back the form: with
      distinct dates and class names, the first item of each usable row
      and column holds the subject its form cell names, and there is none
      when the cell names none; the preview shows exactly that. */
  lemma CreatedRoutinePreviewsAsEntered(f: Form, subjects: map<string, Subject>, r: int, c: int)
    requires CreateRoutine(f, subjects).Success?
    requires DistinctDates(f) && DistinctClasses(f)
    requires 0 <= r < |f.dates| && f.dates[r].Valid? && 0 <= c < |f.classNames|
    ensures var items := CreateRoutine(f, subjects).value.items;
            var p := Preview(items);
            && FirstMatch(items, f.dates[r].date, f.classNames[c]) == NameOf(CellSubject(f, subjects, r, c))
            && (CellSubject(f, subjects, r, c).Some? ==> f.dates[r].date in p.dates && f.classNames[c] in p.classNames)
            && (forall i, j :: (0 <= i < |p.dates| && 0 <= j < |p.classNames| && p.dates[i] == f.dates[r].date
                                && p.classNames[j] == f.classNames[c])
                  ==> p.cells[i][j] == NameOf(CellSubject(f, subjects, r, c)))
  {
    var items := CreateRoutine(f, subjects).value.items;
    CreatedItemsShowCell(f, subjects, r, c);
    PreviewShowsFirstMatch(items, f.dates[r].date, f.classNames[c]);
  }

  /** The items of a created routine hold, as the first match of each
      usable row and column, the subject the form cell names. */
  lemma CreatedItemsShowCell(f: Form, subjects: map<string, Subject>, r: int, c: int)
    requires CreateRoutine(f, subjects).Success?
    requires DistinctDates(f) && DistinctClasses(f)
    requires 0 <= r < |f.dates| && f.dates[r].Valid? && 0 <= c < |f.classNames|
    ensures FirstMatch(CreateRoutine(f, subjects).value.items, f.dates[r].date, f.classNames[c])
            == NameOf(CellSubject(f, subjects, r, c))
  {
    assert CreateRoutine(f, subjects).value.items == BuildItems(f, subjects, |f.dates|);
    ColumnIsUnique(f, c);
    RowIsUnique(f, r);
    BuildItemsShowCell(f, subjects, |f.dates|, r, c);
  }

  /** The preview shows, at (d, c), the first match for (d, c), and has a
      row and a column for it whenever there is one. */
  lemma PreviewShowsFirstMatch(items: seq<Item>, d: Date, c: string)
    ensures var p := Preview(items);
            && (FirstMatch(items, d, c).Some? ==> d in p.dates && c in p.classNames)
            && (forall i, j :: (0 <= i < |p.dates| && 0 <= j < |p.classNames| && p.dates[i] == d && p.classNames[j] == c)
                  ==> p.cells[i][j] == FirstMatch(items, d, c))
  {
    var p := Preview(items);
    if FirstMatch(items, d, c).Some? {
      FirstMatchNoneIff(items, d, c);
      var n :| 0 <= n < |items| && Key(items[n]) == (d, c);
      assert items[n].date == d && items[n].className == c;
    }
    forall i, j | 0 <= i < |p.dates| && 0 <= j < |p.classNames| && p.dates[i] == d && p.classNames[j] == c
      ensures p.cells[i][j] == FirstMatch(items, d, c)
    {
      PreviewCellIsFirstMatch(items, i, j);
    }
  }

  lemma ColumnIsUnique(f: Form, c: int)
    requires DistinctClasses(f) && 0 <= c < |f.classNames|
    ensures forall q :: 0 <= q < |f.classNames| && q != c ==> f.classNames[q] != f.classNames[c]
  {
    forall q | 0 <= q < |f.classNames| && q != c ensures f.classNames[q] != f.classNames[c] {
      if q < c { assert f.classNames[q] != f.classNames[c]; } else { assert f.classNames[c] != f.classNames[q]; }
    }
  }

  lemma RowIsUnique(f: Form, r: int)
    requires DistinctDates(f) && 0 <= r < |f.dates| && f.dates[r].Valid?
    ensures forall q :: 0 <= q < |f.dates| && q != r ==> f.dates[q] != f.dates[r]
  {
    forall q | 0 <= q < |f.dates| && q != r ensures f.dates[q] != f.dates[r] {
      if q < r { assert f.dates[q] != f.dates[r]; } else { assert f.dates[r] != f.dates[q]; }
    }
  }

  /** A preview cell is the first match for its date and class. */
  lemma PreviewCellIsFirstMatch(items: seq<Item>, i: int, j: int)
    requires 0 <= i < |Preview(items).dates| && 0 <= j < |Preview(items).classNames|
    ensures var p := Preview(items);
            p.cells[i][j] == FirstMatch(items, p.dates[i], p.classNames[j])
  {
  }

  /** The outcome of the edit form's POST: the routine as stored
      afterwards, and whether the request ended in an unhandled error. */
  datatype EditOutcome = EditOutcome(routine: Routine, crashed: bool)

  /** The cells of row `r`, first `m` columns, as `edit_routine` builds
      them: the row's date goes to the database as submitted, so a resolved
      cell in a row whose date is blank or unparseable raises. The flag
      says whether that happened; the items are those made before it. */
  function EditCellsAsWritten(f: Form, subjects: map<string, Subject>, r: nat, m: nat): (o: (seq<Item>, bool))
    requires r < |f.dates| && m <= |f.classNames|
    ensures !o.1 ==> o.0 == (if f.dates[r].Valid? then CellItems(f, subjects, r, f.dates[r].date, m) else [])
    ensures o.1 <==> !f.dates[r].Valid? && exists c :: 0 <= c < m && CellSubject(f, subjects, r, c).Some?
    ensures !f.dates[r].Valid? ==> o.0 == []
    decreases m
  {
    if m == 0 then ([], false)
    else
      var (before, failed) := EditCellsAsWritten(f, subjects, r, m - 1);
      if failed then (before, true)
      else match CellSubject(f, subjects, r, m - 1)
        case None => (before, false)
        case Some(s) =>
          if f.dates[r].Valid? then (before + [Item(f.dates[r].date, f.classNames[m - 1], s)], false)
          else (before, true)
  }

  /** The rebuild loop of `edit_routine` over the first `n` rows, stopping
      at the first error. */
  function EditRowsAsWritten(f: Form, subjects: map<string, Subject>, n: nat): (o: (seq<Item>, bool))
    requires n <= |f.dates|
    ensures !o.1 ==> o.0 == BuildItems(f, subjects, n)
    decreases n
  {
    if n == 0 then ([], false)
    else
      var (before, failed) := EditRowsAsWritten(f, subjects, n - 1);
      if failed then (before, true)
      else
        var (row, rowFailed) := EditCellsAsWritten(f, subjects, n - 1, |f.classNames|);
        (before + row, rowFailed)
  }

  /** The POST branch of `edit_routine` as written: the header is saved
      (blank texts stored as empty strings), every old item is deleted, and
      the grid is rebuilt without checking the dates. */
  function EditRoutineAsWritten(prior: Routine, f: Form, subjects: map<string, Subject>): (o: EditOutcome)
    ensures o.routine.name == f.name && o.routine.examTime == Some(f.examTime)
    ensures o.routine.noteAbove == Some(f.noteAbove) && o.routine.noteBelow == Some(f.noteBelow)
    ensures !o.crashed ==> o.routine.items == BuildItems(f, subjects, |f.dates|)
  {
    var (items, failed) := EditRowsAsWritten(f, subjects, |f.dates|);
    EditOutcome(Routine(f.name, Some(f.examTime), Some(f.noteAbove), Some(f.noteBelow), items), failed)
  }

  /** A row the edit as written cannot store: its date is blank or
      unparseable and one of its cells names a subject. */
  predicate RowBreaksEdit(f: Form, subjects: map<string, Subject>, r: int) {
    0 <= r < |f.dates| && !f.dates[r].Valid?
    && exists c :: 0 <= c < |f.classNames| && CellSubject(f, subjects, r, c).Some?
  }

  /** The rebuild over the first `n` rows fails exactly when one of them
      breaks the edit. */
  lemma {:induction false} EditRowsFailIffBrokenRow(f: Form, subjects: map<string, Subject>, n: nat)
    requires n <= |f.dates|
    ensures EditRowsAsWritten(f, subjects, n).1 <==> exists r :: 0 <= r < n && RowBreaksEdit(f, subjects, r)
    decreases n
  {
    if n > 0 {
      EditRowsFailIffBrokenRow(f, subjects, n - 1);
      EditCellsFailIffBrokenRow(f, subjects, n - 1);
      var before := EditRowsAsWritten(f, subjects, n - 1);
      var row := EditCellsAsWritten(f, subjects, n - 1, |f.classNames|);
      assert EditRowsAsWritten(f, subjects, n).1 == (before.1 || row.1);
      if before.1 {
        var r :| 0 <= r < n - 1 && RowBreaksEdit(f, subjects, r);
        assert 0 <= r < n && RowBreaksEdit(f, subjects, r);
      } else if row.1 {
        assert RowBreaksEdit(f, subjects, n - 1);
      } else {
        forall r | 0 <= r < n ensures !RowBreaksEdit(f, subjects, r) {
          if r < n - 1 {
            assert !(0 <= r < n - 1 && RowBreaksEdit(f, subjects, r));
          }
        }
      }
    }
  }

  /** One row of the rebuild fails exactly when the row breaks the edit. */
  lemma EditCellsFailIffBrokenRow(f: Form, subjects: map<string, Subject>, r: nat)
    requires r < |f.dates|
    ensures EditCellsAsWritten(f, subjects, r, |f.classNames|).1 <==> RowBreaksEdit(f, subjects, r)
  {
  }

  /** The edit as written ends in an unhandled error exactly when a row
      with a blank or unparseable date has a cell naming a subject. */
  lemma EditAsWrittenCrashesIffBrokenRow(prior: Routine, f: Form, subjects: map<string, Subject>)
    ensures EditRoutineAsWritten(prior, f, subjects).crashed
            <==> exists r :: 0 <= r < |f.dates| && RowBreaksEdit(f, subjects, r)
  {
    EditRowsFailIffBrokenRow(f, subjects, |f.dates|);
  }

  /** When the rebuild over the first `n` rows fails, it stopped at the
      first row that breaks the edit, keeping the items of the rows before
      it and none of that row's. */
  lemma {:induction false} EditRowsStopAtFirstBrokenRow(f: Form, subjects: map<string, Subject>, n: nat)
    requires n <= |f.dates|
    requires EditRowsAsWritten(f, subjects, n).1
    ensures exists r0 :: 0 <= r0 < n && RowBreaksEdit(f, subjects, r0)
                         && (forall r :: 0 <= r < r0 ==> !RowBreaksEdit(f, subjects, r))
                         && EditRowsAsWritten(f, subjects, n).0 == BuildItems(f, subjects, r0)
    decreases n
  {
    var before := EditRowsAsWritten(f, subjects, n - 1);
    if before.1 {
      assert EditRowsAsWritten(f, subjects, n) == before;
      EditRowsStopAtFirstBrokenRow(f, subjects, n - 1);
    } else {
      EditRowsFailIffBrokenRow(f, subjects, n - 1);
      LastRowBreaksEdit(f, subjects, n);
      assert forall r :: 0 <= r < n - 1 ==> !RowBreaksEdit(f, subjects, r);
    }
  }

  /** The step of the above where the first `n - 1` rows rebuild fine:
      the failing row is the last one and leaves no item of its own. */
  lemma LastRowBreaksEdit(f: Form, subjects: map<string, Subject>, n: nat)
    requires 0 < n <= |f.dates|
    requires !EditRowsAsWritten(f, subjects, n - 1).1 && EditRowsAsWritten(f, subjects, n).1
    ensures RowBreaksEdit(f, subjects, n - 1)
    ensures EditRowsAsWritten(f, subjects, n).0 == BuildItems(f, subjects, n - 1)
  {
    var before := EditRowsAsWritten(f, subjects, n - 1);
    var row := EditCellsAsWritten(f, subjects, n - 1, |f.classNames|);
    assert EditRowsAsWritten(f, subjects, n) == (before.0 + row.0, row.1);
    EditCellsFailIffBrokenRow(f, subjects, n - 1);
    assert row.0 == [];
    assert before.0 + row.0 == before.0;
  }

  /** A crashed edit as written leaves the routine holding exactly the
      items of the rows before the first row that breaks it: every old item
      is gone and no later row is built. */
  lemma EditAsWrittenCrashKeepsRowsBeforeBreak(prior: Routine, f: Form, subjects: map<string, Subject>)
    requires EditRoutineAsWritten(prior, f, subjects).crashed
    ensures exists r0 :: 0 <= r0 < |f.dates| && RowBreaksEdit(f, subjects, r0)
                         && (forall r :: 0 <= r < r0 ==> !RowBreaksEdit(f, subjects, r))
                         && EditRoutineAsWritten(prior, f, subjects).routine.items == BuildItems(f, subjects, r0)
  {
    EditRowsStopAtFirstBrokenRow(f, subjects, |f.dates|);
  }

  /** `edit_routine` with the date check `create_routine` makes: rows with
      a blank or unparseable date are skipped, so the routine's items
      become exactly the ones creating a routine from the same form gives. */
  function EditRoutine(prior: Routine, f: Form, subjects: map<string, Subject>): (r: Routine)
    ensures r.name == f.name && r.examTime == Some(f.examTime)
    ensures r.noteAbove == Some(f.noteAbove) && r.noteBelow == Some(f.noteBelow)
    ensures CreateRoutine(f, subjects).Success? ==> r.items == CreateRoutine(f, subjects).value.items
    ensures forall i :: 0 <= i < |r.items| ==>
              Valid(r.items[i].date) in f.dates && r.items[i].className in f.classNames
  {
    var items := BuildItems(f, subjects, |f.dates|);
    BuildItemsProvenance(f, subjects, |f.dates|);
    Routine(f.name, Some(f.examTime), Some(f.noteAbove), Some(f.noteBelow), items)
  }

  /** Where every resolved cell sits in a row with a usable date, the edit
      as written and the corrected edit store the same items. */
  lemma EditAsWrittenAgreesOnUsableDates(prior: Routine, f: Form, subjects: map<string, Subject>)
    requires forall r :: 0 <= r < |f.dates| ==> !RowBreaksEdit(f, subjects, r)
    ensures !EditRoutineAsWritten(prior, f, subjects).crashed
    ensures EditRoutineAsWritten(prior, f, subjects).routine == EditRoutine(prior, f, subjects)
  {
    EditAsWrittenCrashesIffBrokenRow(prior, f, subjects);
  }

  /** A blank date in a row with a subject: the edit as written fails after
      the old items were deleted, losing the next row's item as well, where
      the corrected edit keeps it. */
  lemma BlankDateEditLosesItems()
    ensures var maths := Subject(7, "Maths");
            var prior := Routine("Terminal", None, None, None, [Item("2025-01-06", "Ten", maths)]);
            var f := Form("Terminal", "", "", "", ["Ten"], [Blank, Valid("2025-01-06")],
                          map[(0, 0) := "7", (1, 0) := "7"]);
            var subjects := map["7" := maths];
            && EditRoutineAsWritten(prior, f, subjects) == EditOutcome(Routine("Terminal", Some(""), Some(""), Some(""), []), true)
            && EditRoutine(prior, f, subjects).items == [Item("2025-01-06", "Ten", maths)]
  {
    var maths := Subject(7, "Maths");
    var f := Form("Terminal", "", "", "", ["Ten"], [Blank, Valid("2025-01-06")],
                  map[(0, 0) := "7", (1, 0) := "7"]);
    var subjects := map["7" := maths];
    assert CellSubject(f, subjects, 0, 0) == Some(maths);
    assert CellSubject(f, subjects, 1, 0) == Some(maths);
    assert |f.classNames| == 1;
    assert EditCellsAsWritten(f, subjects, 0, 0) == ([], false);
    assert EditCellsAsWritten(f, subjects, 0, 1) == ([], true);
    assert EditRowsAsWritten(f, subjects, 0) == ([], false);
    assert EditCellsAsWritten(f, subjects, 0, |f.classNames|) == ([], true);
    assert EditRowsAsWritten(f, subjects, 1).1;
    assert EditRowsAsWritten(f, subjects, 1).0 == [];
    assert EditRowsAsWritten(f, subjects, 2) == ([], true);
    assert CellItems(f, subjects, 1, "2025-01-06", 1) == [Item("2025-01-06", "Ten", maths)];
    assert BuildItems(f, subjects, 1) == [];
  }
}

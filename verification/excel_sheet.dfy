/**
  The cell placement of `EnginexExporter.create_pupr_excel` in
  export_enginex.py: the column names go in row 0 with the header format,
  value `(r, c)` of the frame goes to cell `(r + 1, c)` with the number format
  when it is a number and the text format otherwise, and every column is 20
  characters wide. The worksheet library's own checks are part of the model:
  the requested sheet name is validated when the sheet is added, and a NaN or
  infinite number raises when it is written.
 */
module ExcelSheet {
  import opened Options

  /** A value of the frame: one that passes `isinstance(v, (int, float))`
      and is finite, a float NaN or infinity (which also passes that test),
      or anything else, written as its `str`. */
  datatype Value = Num(n: real) | NonFinite | Text(s: string)

  /** The three cell formats the exporter registers. */
  datatype Format = HeaderFormat | NumberFormat | CellFormat

  datatype Cell = Cell(value: Value, format: Format)

  /** A worksheet: its name, the written cells by (row, column), and the
      column widths set. */
  datatype Sheet = Sheet(name: string, cells: map<(int, int), Cell>, widths: map<int, int>)

  /** Why the export raised instead of returning a workbook. */
  datatype Failure =
    | InvalidSheetName    // `add_worksheet` rejected the requested name
    | NonFiniteNumber     // `write_number` met a NaN or an infinity

  datatype Outcome = Written(sheet: Sheet) | Raised(failure: Failure)

  const DefaultSheetName := "Data Teknis"
  const ColumnWidth := 20

  /** The name the worksheet library gives a sheet added without a name. */
  const UnnamedSheet := "Sheet1"

  /** Excel's limit on the length of a worksheet name. */
  const MaxNameLength := 31

  /** Characters Excel does not allow in a worksheet name. */
  const ForbiddenNameChars := "[]:*?/\\"

  /** A name Excel accepts for a worksheet. */
  predicate ValidName(name: string) {
    && 1 <= |name| <= MaxNameLength
    && (forall k :: 0 <= k < |name| ==> name[k] !in ForbiddenNameChars)
    && name[0] != '\''
    && name[|name| - 1] != '\''
  }

  /** `add_worksheet(name)`: an empty name becomes "Sheet1"; any other name is
      kept when Excel accepts it, and raises otherwise. */
  function WorksheetName(requested: string): (r: Option<string>)
    ensures r.Some? ==> ValidName(r.value)
    ensures requested == "" ==> r == Some(UnnamedSheet)
    ensures requested != "" ==> (r.Some? <==> ValidName(requested))
    ensures requested != "" && r.Some? ==> r.value == requested
  {
    if requested == "" then Some(UnnamedSheet)
    else if |requested| > MaxNameLength then None
    else if exists k :: 0 <= k < |requested| && requested[k] in ForbiddenNameChars then None
    else if requested[0] == '\'' || requested[|requested| - 1] == '\'' then None
    else Some(requested)
  }

  /** `write(value, fmt)` on a number reaches `write_number`, which raises
      on NaN and infinity. */
  predicate Writable(row: seq<Value>) {
    forall c :: 0 <= c < |row| ==> !row[c].NonFinite?
  }

  function FormatOf(v: Value): Format {
    if v.Text? then CellFormat else NumberFormat
  }

  /** Where a cell may be written: the header row, or a data value shifted
      down by one row. */
  predicate InGrid(key: (int, int), columns: seq<string>, rows: seq<seq<Value>>) {
    || (key.0 == 0 && 0 <= key.1 < |columns|)
    || (1 <= key.0 <= |rows| && 0 <= key.1 < |rows[key.0 - 1]|)
  }

  /** The header loop: column name `c` at `(0, c)` and width 20 for column `c`. */
  method WriteHeader(columns: seq<string>) returns (cells: map<(int, int), Cell>, widths: map<int, int>)
    ensures forall c :: 0 <= c < |columns| ==> (0, c) in cells && cells[(0, c)] == Cell(Text(columns[c]), HeaderFormat)
    ensures forall key :: key in cells ==> key.0 == 0 && 0 <= key.1 < |columns|
    ensures forall c :: c in widths <==> 0 <= c < |columns|
    ensures forall c :: c in widths ==> widths[c] == ColumnWidth
  {
    cells := map[];
    widths := map[];
    var c := 0;
    while c < |columns|
      invariant 0 <= c <= |columns|
      invariant forall j :: 0 <= j < c ==> (0, j) in cells && cells[(0, j)] == Cell(Text(columns[j]), HeaderFormat)
      invariant forall key :: key in cells ==> key.0 == 0 && 0 <= key.1 < c
      invariant forall j :: j in widths <==> 0 <= j < c
      invariant forall j :: j in widths ==> widths[j] == ColumnWidth
    {
      cells := cells[(0, c) := Cell(Text(columns[c]), HeaderFormat)];
      widths := widths[c := ColumnWidth];
      c := c + 1;
    }
  }

  /** Value `c` of frame row `i` sits at `(i + 1, c)` with its format. */
  predicate CellWritten(cells: map<(int, int), Cell>, i: int, row: seq<Value>, c: int)
    requires 0 <= c < |row|
  {
    (i + 1, c) in cells && cells[(i + 1, c)] == Cell(row[c], FormatOf(row[c]))
  }

  /** Frame row `i` sits in sheet row `i + 1`, each value with its format. */
  predicate RowWritten(cells: map<(int, int), Cell>, i: int, row: seq<Value>) {
    forall c :: 0 <= c < |row| ==> CellWritten(cells, i, row, c)
  }

  /** The inner data loop: the values of frame row `r` go to sheet row
      `r + 1`; cells outside that row are untouched. */
  method WriteRow(cells0: map<(int, int), Cell>, r: nat, row: seq<Value>) returns (cells: map<(int, int), Cell>)
    ensures RowWritten(cells, r, row)
    ensures forall key :: key in cells <==> key in cells0 || (key.0 == r + 1 && 0 <= key.1 < |row|)
    ensures forall key :: key in cells0 && key.0 != r + 1 ==> cells[key] == cells0[key]
  {
    cells := cells0;
    var c := 0;
    while c < |row|
      invariant 0 <= c <= |row|
      invariant forall j :: 0 <= j < c ==> CellWritten(cells, r, row, j)
      invariant forall key :: key in cells <==> key in cells0 || (key.0 == r + 1 && 0 <= key.1 < c)
      invariant forall key :: key in cells0 && key.0 != r + 1 ==> cells[key] == cells0[key]
    {
      var before := cells;
      cells := cells[(r + 1, c) := Cell(row[c], FormatOf(row[c]))];
      forall j | 0 <= j < c ensures CellWritten(cells, r, row, j) {
        assert CellWritten(before, r, row, j);
      }
      c := c + 1;
    }
  }

  /** A row written earlier survives the writing of a later row. */
  lemma RowWrittenKept(prev: map<(int, int), Cell>, cells: map<(int, int), Cell>, r: nat, i: nat, row: seq<Value>)
    requires i < r
    requires RowWritten(prev, i, row)
    requires forall key :: key in prev ==> key in cells
    requires forall key :: key in prev && key.0 != r + 1 ==> cells[key] == prev[key]
    ensures RowWritten(cells, i, row)
  {
    forall c | 0 <= c < |row| ensures CellWritten(cells, i, row, c) {
      assert CellWritten(prev, i, row, c);
      assert (i + 1, c).0 != r + 1;
    }
  }

  /** After the first `r` frame rows: the header cells, each of those rows
      one sheet row down, and no cell outside them. */
  predicate DataWritten(cells: map<(int, int), Cell>, columns: seq<string>, rows: seq<seq<Value>>, r: nat)
    requires r <= |rows|
  {
    && (forall c :: 0 <= c < |columns| ==> (0, c) in cells && cells[(0, c)] == Cell(Text(columns[c]), HeaderFormat))
    && (forall i :: 0 <= i < r ==> RowWritten(cells, i, rows[i]))
    && (forall key :: key in cells ==> (key.0 == 0 && 0 <= key.1 < |columns|) || (1 <= key.0 <= r && 0 <= key.1 < |rows[key.0 - 1]|))
  }

  /** Writing frame row `r` after the first `r` extends the written part by
      that row. */
  lemma NextRowWritten(prev: map<(int, int), Cell>, cells: map<(int, int), Cell>,
                       columns: seq<string>, rows: seq<seq<Value>>, r: nat)
    requires r < |rows|
    requires DataWritten(prev, columns, rows, r)
    requires RowWritten(cells, r, rows[r])
    requires forall key :: key in cells <==> key in prev || (key.0 == r + 1 && 0 <= key.1 < |rows[r]|)
    requires forall key :: key in prev && key.0 != r + 1 ==> cells[key] == prev[key]
    ensures DataWritten(cells, columns, rows, r + 1)
  {
    forall i | 0 <= i < r ensures RowWritten(cells, i, rows[i]) {
      RowWrittenKept(prev, cells, r, i, rows[i]);
    }
    forall c | 0 <= c < |columns| ensures (0, c) in cells && cells[(0, c)] == Cell(Text(columns[c]), HeaderFormat) {
      assert (0, c) in prev;
    }
  }

  /** `create_pupr_excel`: with an accepted sheet name and only finite
      numbers, the header cells, every data value one row down with its
      format chosen by type, nothing else, and width 20 for every column.
      A rejected name raises before anything is written; a NaN or infinity
      raises when its row is reached, and the partly written workbook is
      never returned. */
  method CreatePuprExcel(columns: seq<string>, rows: seq<seq<Value>>, sheetName: string) returns (out: Outcome)
    ensures out == Raised(InvalidSheetName) <==> WorksheetName(sheetName).None?
    ensures out == Raised(NonFiniteNumber) <==>
              WorksheetName(sheetName).Some? && exists r :: 0 <= r < |rows| && !Writable(rows[r])
    ensures out.Written? ==> Some(out.sheet.name) == WorksheetName(sheetName)
    ensures out.Written? ==> forall c :: 0 <= c < |columns| ==>
              (0, c) in out.sheet.cells && out.sheet.cells[(0, c)] == Cell(Text(columns[c]), HeaderFormat)
    ensures out.Written? ==> forall r :: 0 <= r < |rows| ==> RowWritten(out.sheet.cells, r, rows[r])
    ensures out.Written? ==> forall key :: key in out.sheet.cells ==> InGrid(key, columns, rows)
    ensures out.Written? ==> forall c :: c in out.sheet.widths <==> 0 <= c < |columns|
    ensures out.Written? ==> forall c :: c in out.sheet.widths ==> out.sheet.widths[c] == ColumnWidth
  {
    var name := WorksheetName(sheetName);
    if name.None? {
      return Raised(InvalidSheetName);
    }
    var cells, widths := WriteHeader(columns);
    var r := 0;
    while r < |rows|
      invariant 0 <= r <= |rows|
      invariant forall i :: 0 <= i < r ==> Writable(rows[i])
      invariant DataWritten(cells, columns, rows, r)
    {
      if !Writable(rows[r]) {
        return Raised(NonFiniteNumber);
      }
      var prev := cells;
      cells := WriteRow(prev, r, rows[r]);
      NextRowWritten(prev, cells, columns, rows, r);
      r := r + 1;
    }
    out := Written(Sheet(name.value, cells, widths));
  }

  // ----- properties -----

  /** The name the exporter asks for by default is accepted as it is. */
  lemma DefaultNameAccepted()
    ensures WorksheetName(DefaultSheetName) == Some(DefaultSheetName)
  {
    assert DefaultSheetName[0] == 'D';
    assert forall k :: 0 <= k < |DefaultSheetName| ==> DefaultSheetName[k] !in ForbiddenNameChars;
  }

  /** Naming a sheet with the name it was given changes nothing: the name
      check is idempotent. */
  lemma WorksheetNameIdempotent(requested: string)
    requires WorksheetName(requested).Some?
    ensures WorksheetName(WorksheetName(requested).value) == WorksheetName(requested)
  {
  }

  /** Names longer than 31 characters, and names with a forbidden character,
      are always rejected. */
  lemma RejectedNames(requested: string, k: nat)
    requires |requested| > MaxNameLength || (k < |requested| && requested[k] in ForbiddenNameChars)
    ensures WorksheetName(requested).None?
  {
  }
}

/**
  The parse stage of `extract_table_to_excel` in app_enginex.py: every line of
  the reply that holds a `|` and is not a separator line becomes one row of a
  single table, wherever it stands in the reply. The first row is the header,
  the rest are data, and fewer than two rows means "no table".
 */
module MarkdownTable {
  import opened Strings
  import opened Options
  import opened Seqs

  datatype Table = Table(header: seq<string>, rows: seq<seq<string>>)

  /** A separator line (`|---|---|`): made of `|`, `-` and spaces only. A
      `:` of an aligned separator (`|:---|`) makes it an ordinary row. */
  predicate IsSeparator(s: string) {
    forall k :: 0 <= k < |s| ==> s[k] in "|- "
  }

  /** The test as the source writes it,
      `set(s.replace('|','').replace('-','').replace(' ','')) == set()`,
      is exactly `IsSeparator`. */
  lemma SeparatorAsWritten(s: string)
    ensures IsSeparator(s) <==> ReplaceAll(ReplaceAll(ReplaceAll(s, "|", ""), "-", ""), " ", "") == ""
  {
    var r1 := ReplaceAll(s, "|", "");
    var r2 := ReplaceAll(r1, "-", "");
    var r3 := ReplaceAll(r2, " ", "");
    forall x ensures x in r3 <==> x in s && x != '|' && x != '-' && x != ' ' {
      RemoveCharContents(s, '|', x);
      RemoveCharContents(r1, '-', x);
      RemoveCharContents(r2, ' ', x);
    }
    if r3 == "" {
      forall k | 0 <= k < |s| ensures s[k] in "|- " {
        assert s[k] in s;
      }
    }
    assert |r3| > 0 ==> r3[0] in r3;
  }

  /** The cells of a table line: the `|`-split pieces, each stripped, minus
      the empty piece before a leading `|` and the one after a trailing `|`.
      No cell holds a pipe or surrounding whitespace. */
  function RowCells(stripped: string): (row: seq<string>)
    ensures WellFormedRow(row)
  {
    var cells := StripAll(Split(stripped, '|'));
    StrippedPiecesWellFormed(Split(stripped, '|'));
    var lo := if StartsWith(stripped, "|") then 1 else 0;
    WellFormedSlice(cells, lo);
    var a := cells[lo..];
    if EndsWith(stripped, "|") && |a| > 0 then
      WellFormedPrefix(a);
      a[..|a| - 1]
    else a
  }

  /** A line the capture loop keeps: once stripped it holds a pipe and is
      not a separator. */
  predicate IsTableLine(line: string) {
    '|' in Strip(line) && !IsSeparator(Strip(line))
  }

  /** What one line adds to the table: its cells, or nothing (one pass of
      the capture loop's body). */
  function CapturedRow(line: string): (r: seq<seq<string>>)
    ensures |r| <= 1
    ensures forall i :: 0 <= i < |r| ==> |r[i]| >= 1 && WellFormedRow(r[i])
  {
    var stripped := Strip(line);
    if '|' in stripped && !IsSeparator(stripped) && |RowCells(stripped)| > 0
    then [RowCells(stripped)]
    else []
  }

  /** Every row captured from `lines`, in line order. Each row has at least one
      cell, and no cell holds a `|` or begins or ends with whitespace. */
  function CapturedRows(lines: seq<string>): (rows: seq<seq<string>>)
    ensures |rows| <= |lines|
    ensures forall i :: 0 <= i < |rows| ==> |rows[i]| >= 1 && WellFormedRow(rows[i])
    decreases |lines|
  {
    if |lines| == 0 then []
    else CapturedRows(lines[..|lines| - 1]) + CapturedRow(lines[|lines| - 1])
  }

  predicate WellFormedRow(cells: seq<string>) {
    forall j :: 0 <= j < |cells| ==>
      && '|' !in cells[j]
      && (cells[j] == [] || (!IsSpace(cells[j][0]) && !IsSpace(cells[j][|cells[j]| - 1])))
  }

  lemma StrippedPiecesWellFormed(parts: seq<string>)
    requires forall k :: 0 <= k < |parts| ==> '|' !in parts[k]
    ensures WellFormedRow(StripAll(parts))
  {
    var cells := StripAll(parts);
    forall j | 0 <= j < |cells|
      ensures '|' !in cells[j]
      ensures cells[j] == [] || (!IsSpace(cells[j][0]) && !IsSpace(cells[j][|cells[j]| - 1]))
    {
      assert '|' !in parts[j];
      assert cells[j] == Strip(parts[j]);
    }
  }

  lemma WellFormedSlice(cells: seq<string>, lo: nat)
    requires lo <= |cells| && WellFormedRow(cells)
    ensures WellFormedRow(cells[lo..])
  {
    forall j | 0 <= j < |cells| - lo ensures cells[lo..][j] == cells[lo + j] {}
  }

  lemma WellFormedPrefix(cells: seq<string>)
    requires |cells| > 0 && WellFormedRow(cells)
    ensures WellFormedRow(cells[..|cells| - 1])
  {
  }

  /** A line that starts and ends with a pipe is either that lone pipe, which
      is a separator, or holds at least two pipes. */
  lemma PipeAtBothEnds(s: string)
    requires StartsWith(s, "|") && EndsWith(s, "|")
    ensures (|s| == 1 && IsSeparator(s)) || Count(s, '|') >= 2
  {
    assert s[0] == s[..1][0] == '|';
    if |s| > 1 {
      assert s[|s| - 1] == s[|s| - 1..][0] == '|';
      CountBothEnds(s, '|');
    }
  }

  /** A non-separator line with a pipe always yields at least one cell, so
      the `if row_cells` test of the source never rejects a line. */
  lemma RowCellsNonEmpty(s: string)
    requires '|' in s && !IsSeparator(s)
    ensures |RowCells(s)| >= 1
  {
    CountSplit(s, '|');
    CountPositive(s, '|');
    if StartsWith(s, "|") && EndsWith(s, "|") {
      PipeAtBothEnds(s);
    }
  }

  lemma {:induction false} CountPositive(s: string, c: char)
    requires c in s
    ensures Count(s, c) >= 1
    decreases |s|
  {
    if s[0] != c {
      assert c in s[1..];
      CountPositive(s[1..], c);
    }
  }

  /** A line without a pipe adds nothing, nor does a separator line; a
      stripped line holding a pipe and some character other than `|`, `-` or
      space (a `:` of an aligned separator, say) always adds one row. */
  lemma CapturedRowIff(line: string)
    ensures |CapturedRow(line)| == 1 <==> IsTableLine(line)
    ensures |CapturedRow(line)| <= 1
    ensures '|' !in line ==> CapturedRow(line) == []
    ensures IsSeparator(Strip(line)) ==> CapturedRow(line) == []
    ensures ('|' in line && exists k :: 0 <= k < |line| && line[k] !in "|- " && !IsSpace(line[k]))
              ==> |CapturedRow(line)| == 1
  {
    var stripped := Strip(line);
    StripKeeps(line, '|');
    if IsTableLine(line) {
      RowCellsNonEmpty(stripped);
    }
    if '|' in line && exists k :: 0 <= k < |line| && line[k] !in "|- " && !IsSpace(line[k]) {
      var k :| 0 <= k < |line| && line[k] !in "|- " && !IsSpace(line[k]);
      StripKeeps(line, line[k]);
      var j :| 0 <= j < |stripped| && stripped[j] == line[k];
      RowCellsNonEmpty(stripped);
    }
  }

  /** One table is fed by all pipe lines of the reply, even across prose:
      capturing a concatenation captures each part in turn. */
  lemma {:induction false} CapturedRowsConcat(a: seq<string>, b: seq<string>)
    ensures CapturedRows(a + b) == CapturedRows(a) + CapturedRows(b)
    decreases |b|
  {
    if |b| == 0 {
      assert a + b == a;
    } else {
      var b' := b[..|b| - 1];
      ConcatInit(a, b);
      CapturedRowsConcat(a, b');
    }
  }

  /** The table lines of `lines`, in order. */
  function TableLines(lines: seq<string>): (ts: seq<string>)
    ensures |ts| <= |lines|
    decreases |lines|
  {
    if |lines| == 0 then []
    else TableLines(lines[..|lines| - 1]) + (if IsTableLine(lines[|lines| - 1]) then [lines[|lines| - 1]] else [])
  }

  /** What a line adds, in terms of `IsTableLine`: a table line adds its
      cells, any other line nothing. */
  lemma TableLineCaptured(line: string)
    ensures IsTableLine(line) ==> CapturedRow(line) == [RowCells(Strip(line))]
    ensures !IsTableLine(line) ==> CapturedRow(line) == []
  {
    if IsTableLine(line) {
      RowCellsNonEmpty(Strip(line));
    }
  }

  /** The cells of one table line. */
  function LineCells(line: string): seq<string> {
    RowCells(Strip(line))
  }

  /** Capturing and filtering both take one step per line. */
  lemma CaptureAndFilterStep(lines: seq<string>)
    requires |lines| > 0
    ensures var init, last := lines[..|lines| - 1], lines[|lines| - 1];
      && CapturedRows(lines) == CapturedRows(init) + CapturedRow(last)
      && TableLines(lines) == TableLines(init) + (if IsTableLine(last) then [last] else [])
  {
  }

  /** The captured rows are the cells of the table lines, one row per line:
      no table line is rejected for lacking cells. */
  lemma {:induction false} CapturedRowsAreTableLines(lines: seq<string>)
    ensures Mapped(CapturedRows(lines), TableLines(lines), LineCells)
    decreases |lines|
  {
    if |lines| > 0 {
      var init := lines[..|lines| - 1];
      var last := lines[|lines| - 1];
      CapturedRowsAreTableLines(init);
      CaptureAndFilterStep(lines);
      TableLineCaptured(last);
      if IsTableLine(last) {
        assert CapturedRow(last) == [LineCells(last)];
        MappedSnoc(CapturedRows(init), TableLines(init), LineCells, last);
      } else {
        assert CapturedRows(lines) == CapturedRows(init) + [];
        assert TableLines(lines) == TableLines(init) + [];
      }
    }
  }

  /** The capture loop of `extract_table_to_excel`: walks the lines in order
      and keeps the cells of each table line. */
  method CollectRows(lines: seq<string>) returns (tableData: seq<seq<string>>)
    ensures tableData == CapturedRows(lines)
    ensures Mapped(tableData, TableLines(lines), LineCells) && |tableData| <= |lines|
    ensures forall k :: 0 <= k < |tableData| ==> |tableData[k]| >= 1 && WellFormedRow(tableData[k])
  {
    tableData := [];
    var i := 0;
    assert CapturedRows(lines[..0]) == [];
    while i < |lines|
      invariant 0 <= i <= |lines|
      invariant tableData == CapturedRows(lines[..i])
    {
      CapturedRowsPrefix(lines, i + 1);
      tableData := tableData + CapturedRow(lines[i]);
      i := i + 1;
    }
    assert lines[..|lines|] == lines;
    CapturedRowsAreTableLines(lines);
  }

  /** The parse stage of `extract_table_to_excel`: the first captured row is
      the header and the rest, in reply order, are the data rows; with fewer
      than two captured rows there is no table. */
  method ExtractTable(text: string) returns (t: Option<Table>)
    ensures t.None? <==> |CapturedRows(Lines(text))| < 2
    ensures t.Some? ==> [t.value.header] + t.value.rows == CapturedRows(Lines(text))
    ensures t.Some? ==> |t.value.header| >= 1 && |t.value.rows| >= 1
  {
    var tableData := CollectRows(Lines(text));
    if |tableData| < 2 {
      return None;
    }
    HeadTail(tableData);
    t := Some(Table(tableData[0], tableData[1..]));
  }

  // ----- the table round trip -----

  function Padded(cells: seq<string>): (ps: seq<string>)
    ensures |ps| == |cells|
    ensures forall k :: 0 <= k < |cells| ==> ps[k] == " " + cells[k] + " "
  {
    seq(|cells|, k requires 0 <= k < |cells| => " " + cells[k] + " ")
  }

  /** A table line as Markdown writes it: `| a | b | c |`. */
  function RenderRow(cells: seq<string>): string {
    "|" + Join(Padded(cells), '|') + "|"
  }

  /** The cells a table line can carry and be read back from: at least one,
      none holding a pipe, a line break or surrounding whitespace, and one
      holding a character other than `|`, `-` and space (otherwise the line
      reads as a separator). */
  predicate Renderable(cells: seq<string>) {
    && |cells| >= 1
    && WellFormedRow(cells)
    && (forall j :: 0 <= j < |cells| ==> '\n' !in cells[j])
    && exists j :: 0 <= j < |cells| && !IsSeparator(cells[j])
  }

  function RenderLines(rows: seq<seq<string>>): (ls: seq<string>)
    ensures |ls| == |rows|
    ensures forall k :: 0 <= k < |rows| ==> ls[k] == RenderRow(rows[k])
  {
    seq(|rows|, k requires 0 <= k < |rows| => RenderRow(rows[k]))
  }

  /** A Markdown table: the header line, a separator line, then one line per
      data row. */
  function RenderTable(header: seq<string>, separator: string, rows: seq<seq<string>>): string {
    Join([RenderRow(header), separator] + RenderLines(rows), '\n')
  }

  /** Stripping a cell padded with one space on each side gives the cell. */
  lemma StripPadded(c: string)
    requires c == [] || (!IsSpace(c[0]) && !IsSpace(c[|c| - 1]))
    ensures Strip(" " + c + " ") == c
  {
    var p := " " + c + " ";
    assert p[1..] == c + " ";
    if |c| > 0 {
      assert TrimStart(p) == c + " ";
      assert (c + " ")[..|c|] == c;
    } else {
      assert TrimStart(p) == TrimStart(" ");
      assert " "[1..] == "";
    }
  }

  /** The pieces of a rendered line are the padded cells between two empty
      edge pieces. */
  lemma SplitRendered(cells: seq<string>)
    requires |cells| >= 1 && WellFormedRow(cells)
    ensures Split(RenderRow(cells), '|') == [""] + Padded(cells) + [""]
  {
    var ps := Padded(cells);
    var j := Join(ps, '|');
    forall k | 0 <= k < |ps| ensures '|' !in ps[k] {
      assert '|' !in cells[k];
    }
    JoinSplit(ps, '|');
    assert RenderRow(cells) == "" + ['|'] + (j + ['|'] + "");
    SplitConcat("", '|', j + ['|'] + "");
    SplitConcat(j, '|', "");
    assert Split("", '|') == [""];
  }

  /** The cells of a line with a pipe at both ends are its stripped pieces
      without the first and the last. */
  lemma RowCellsBothEnds(s: string)
    requires StartsWith(s, "|") && EndsWith(s, "|") && |Split(s, '|')| >= 2
    ensures var pieces := StripAll(Split(s, '|')); RowCells(s) == pieces[1..|pieces| - 1]
  {
  }

  lemma RenderRowEnds(cells: seq<string>)
    ensures StartsWith(RenderRow(cells), "|") && EndsWith(RenderRow(cells), "|")
  {
    var line := RenderRow(cells);
    assert line[..1] == "|";
    assert line[|line| - 1..] == "|";
  }

  /** Stripping padded well-formed cells gives the cells. */
  lemma StripAllPadded(cells: seq<string>)
    requires WellFormedRow(cells)
    ensures StripAll(Padded(cells)) == cells
  {
    var ps := Padded(cells);
    forall k | 0 <= k < |cells| ensures StripAll(ps)[k] == cells[k] {
      StripPadded(cells[k]);
    }
  }

  /** Stripping every piece of `a + b + c` strips the pieces of `b` in the
      middle. */
  lemma StripAllMiddle(a: seq<string>, b: seq<string>, c: seq<string>)
    ensures var pieces := StripAll(a + b + c);
      pieces[|a|..|a| + |b|] == StripAll(b)
  {
    var all := a + b + c;
    forall k | 0 <= k < |b| ensures StripAll(all)[|a| + k] == StripAll(b)[k] {
      assert all[|a| + k] == b[k];
    }
  }

  /** Stripping the padded cells between the edge pieces gives the cells. */
  lemma StripPaddedPieces(cells: seq<string>)
    requires WellFormedRow(cells)
    ensures var pieces := StripAll([""] + Padded(cells) + [""]);
      pieces[1..|pieces| - 1] == cells
  {
    StripAllMiddle([""], Padded(cells), [""]);
    StripAllPadded(cells);
  }

  /** Reading a rendered line's cells gives the cells back. */
  lemma RowCellsRendered(cells: seq<string>)
    requires |cells| >= 1 && WellFormedRow(cells)
    ensures RowCells(RenderRow(cells)) == cells
  {
    var line := RenderRow(cells);
    RenderRowEnds(cells);
    SplitRendered(cells);
    RowCellsBothEnds(line);
    StripPaddedPieces(cells);
  }

  /** A rendered line is captured as exactly its cells. */
  lemma CapturedRowRoundTrip(cells: seq<string>)
    requires Renderable(cells)
    ensures CapturedRow(RenderRow(cells)) == [cells]
  {
    var line := RenderRow(cells);
    assert line[0] == '|' && line[|line| - 1] == '|';
    assert TrimStart(line) == line;
    assert Strip(line) == line;
    var j :| 0 <= j < |cells| && !IsSeparator(cells[j]);
    var k :| 0 <= k < |cells[j]| && cells[j][k] !in "|- ";
    var x := cells[j][k];
    assert x in Padded(cells)[j];
    JoinContains(Padded(cells), '|', j, x);
    assert x in line;
    RowCellsRendered(cells);
  }

  /** A rendered line holds no line break. */
  lemma RenderedHasNoBreak(cells: seq<string>)
    requires Renderable(cells)
    ensures '\n' !in RenderRow(cells)
  {
    var ps := Padded(cells);
    forall k | 0 <= k < |ps| ensures '\n' !in ps[k] {
      assert '\n' !in cells[k];
    }
    JoinExcludes(ps, '|', '\n');
  }

  /** Lines each captured as one given row are captured as those rows, in
      order, up to any length `n`. */
  lemma {:induction false} CapturedEach(ls: seq<string>, rows: seq<seq<string>>, n: nat)
    requires n <= |ls| == |rows|
    requires forall k :: 0 <= k < |ls| ==> CapturedRow(ls[k]) == [rows[k]]
    ensures CapturedRows(ls[..n]) == rows[..n]
    decreases n
  {
    if n > 0 {
      CapturedEach(ls, rows, n - 1);
      CapturedRowsPrefix(ls, n);
      PrefixSnoc(CapturedRows(ls[..n - 1]), CapturedRow(ls[n - 1]), rows, n);
    }
  }

  /** Capturing the first `n` lines captures the first `n - 1`, then line
      `n - 1`. */
  lemma CapturedRowsPrefix(ls: seq<string>, n: nat)
    requires 0 < n <= |ls|
    ensures CapturedRows(ls[..n]) == CapturedRows(ls[..n - 1]) + CapturedRow(ls[n - 1])
  {
    PrefixOfPrefix(ls, n);
  }

  /** Rendered data lines are captured as the data rows, in order. */
  lemma CapturedRenderedLines(rows: seq<seq<string>>)
    requires forall k :: 0 <= k < |rows| ==> Renderable(rows[k])
    ensures CapturedRows(RenderLines(rows)) == rows
  {
    var ls := RenderLines(rows);
    forall k | 0 <= k < |ls| ensures CapturedRow(ls[k]) == [rows[k]] {
      CapturedRowRoundTrip(rows[k]);
    }
    CapturedEach(ls, rows, |ls|);
    assert ls[..|ls|] == ls && rows[..|rows|] == rows;
  }

  /** The lines of a rendered table are its rendered lines. */
  lemma RenderedTableLines(header: seq<string>, separator: string, rows: seq<seq<string>>)
    requires Renderable(header)
    requires forall k :: 0 <= k < |rows| ==> Renderable(rows[k])
    requires '\n' !in separator
    ensures Lines(RenderTable(header, separator, rows)) == [RenderRow(header), separator] + RenderLines(rows)
  {
    var ls := [RenderRow(header), separator] + RenderLines(rows);
    RenderedHasNoBreak(header);
    forall k | 0 <= k < |ls| ensures '\n' !in ls[k] {
      if k >= 2 {
        RenderedHasNoBreak(rows[k - 2]);
      }
    }
    JoinSplit(ls, '\n');
  }

  /** Capturing a single line is capturing that line. */
  lemma CapturedSingle(x: string)
    ensures CapturedRows([x]) == CapturedRow(x)
  {
    assert [x][..0] == [];
  }

  /** The lines of a rendered table are captured as its header followed by
      its data rows: the separator line adds nothing. */
  lemma CapturedRenderedTable(header: seq<string>, separator: string, rows: seq<seq<string>>)
    requires Renderable(header)
    requires forall k :: 0 <= k < |rows| ==> Renderable(rows[k])
    requires IsSeparator(Strip(separator)) && '\n' !in separator
    ensures CapturedRows(Lines(RenderTable(header, separator, rows))) == [header] + rows
  {
    var h, sp, body := [RenderRow(header)], [separator], RenderLines(rows);
    RenderedTableLines(header, separator, rows);
    PairThenRest(RenderRow(header), separator, body);
    CapturedRowsConcat(h, sp + body);
    CapturedRowsConcat(sp, body);
    CapturedSingle(RenderRow(header));
    CapturedSingle(separator);
    CapturedRowRoundTrip(header);
    CapturedRowIff(separator);
    CapturedRenderedLines(rows);
    ThreeParts(CapturedRows(h), CapturedRows(sp), CapturedRows(body), header, rows);
  }

  lemma HeadRestEqual(h: seq<string>, rs: seq<seq<string>>, h': seq<string>, rs': seq<seq<string>>)
    requires [h] + rs == [h'] + rs'
    ensures h == h' && rs == rs'
  {
    assert ([h] + rs)[0] == h && ([h'] + rs')[0] == h';
    assert ([h] + rs)[1..] == rs && ([h'] + rs')[1..] == rs';
  }

  /** Extracting the table from a rendered header, separator and data rows
      gives back that header and those rows; with no data row there is no
      table. */
  method ExtractTableRoundTrip(header: seq<string>, separator: string, rows: seq<seq<string>>)
    returns (t: Option<Table>)
    requires Renderable(header)
    requires forall k :: 0 <= k < |rows| ==> Renderable(rows[k])
    requires IsSeparator(Strip(separator)) && '\n' !in separator
    ensures |rows| >= 1 ==> t == Some(Table(header, rows))
    ensures |rows| == 0 ==> t == None
  {
    CapturedRenderedTable(header, separator, rows);
    t := ExtractTable(RenderTable(header, separator, rows));
    if t.Some? {
      HeadRestEqual(t.value.header, t.value.rows, header, rows);
    }
  }
}

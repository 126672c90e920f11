/**
 * `parseExcel` (src/lib/parsers/excel.ts) from the decoded workbook on: the
 * plain-text rendering handed to the LLM and the per-sheet row data.
 *
 * Decoding the file (`XLSX.read`, `sheet_to_json`) is not modelled; the input
 * is its outcome, `None` when it threw. A decoded row is whatever
 * `sheet_to_json` produced for it, so it may be an array of cells or not; a
 * cell is empty (`null`/`undefined`) or holds a value, kept here as the text
 * `String(value)` gives it.
 */
module ExcelText {

  import opened Wrappers
  import opened Text
  import opened Js

  datatype Cell = Blank | Filled(text: string)

  /** A decoded row: an array of cells, or some other value. */
  datatype RowData = NotArray | Cells(cells: seq<Cell>)

  /** A sheet as decoded: its name and its rows, in sheet order. */
  datatype DecodedSheet = DecodedSheet(name: string, rows: seq<RowData>)

  /** An entry of the returned `sheets` list. */
  datatype SheetData = SheetData(name: string, data: seq<RowData>)

  datatype ExcelParseResult = ExcelParseResult(text: string, sheets: seq<SheetData>)

  const ReadFailureMessage: string := "Kunde inte läsa Excel-filen. Kontrollera att filen är giltig."

  const Tab: char := '\t'

  /** The line that introduces a sheet. */
  function SheetHeader(name: string): string {
    "\n=== " + name + " ===\n"
  }

  /** `cell ?? ''` as `join` renders it. */
  function CellText(cell: Cell): string {
    match cell
    case Blank => ""
    case Filled(t) => t
  }

  /** `cells.map(cell => cell ?? '').join('\t')` */
  function JoinCells(cells: seq<Cell>): string {
    if cells == [] then ""
    else if |cells| == 1 then CellText(cells[0])
    else CellText(cells[0]) + [Tab] + JoinCells(cells[1..])
  }

  /** A row produces output only when it is a non-empty array. */
  predicate IsEmitted(row: RowData) {
    row.Cells? && |row.cells| > 0
  }

  function RowText(row: RowData): (r: string)
    ensures !IsEmitted(row) ==> r == ""
    ensures IsEmitted(row) ==> r == JoinCells(row.cells) + "\n"
  {
    if IsEmitted(row) then JoinCells(row.cells) + "\n" else ""
  }

  /** The text of a sequence of rows, in order. */
  function RowsText(rows: seq<RowData>): string {
    ConcatMap(RowText, rows)
  }

  function SheetText(sheet: DecodedSheet): string {
    SheetHeader(sheet.name) + RowsText(sheet.rows)
  }

  /** `fullText` before the trim: every sheet's header and rows, in sheet order. */
  function SheetsText(sheets: seq<DecodedSheet>): string {
    ConcatMap(SheetText, sheets)
  }

  /** The `sheets` list: one entry per decoded sheet, carrying its rows unchanged. */
  function SheetList(sheets: seq<DecodedSheet>): (r: seq<SheetData>)
    ensures |r| == |sheets|
    ensures forall i :: 0 <= i < |sheets| ==> r[i] == SheetData(sheets[i].name, sheets[i].rows)
  {
    seq(|sheets|, i requires 0 <= i < |sheets| => SheetData(sheets[i].name, sheets[i].rows))
  }

  /** The inner loop of `parseExcel`: one line per row that has cells, appended in row order. */
  method AppendRows(text: string, rows: seq<RowData>) returns (t: string)
    ensures t == text + RowsText(rows)
  {
    t := text;
    var j := 0;
    while j < |rows|
      invariant 0 <= j <= |rows|
      invariant t == text + RowsText(rows[..j])
    {
      var row := rows[j];
      if row.Cells? && |row.cells| > 0 {
        t := t + JoinCells(row.cells) + "\n";
      }
      assert rows[..j + 1] == rows[..j] + [row];
      ConcatMapSnoc(RowText, rows[..j], row);
      j := j + 1;
    }
    assert rows[..j] == rows;
  }

  /**
   * `parseExcel` from the decoded workbook: the loop over sheets, each one's
   * header followed by its rows, appending to the text as the source does.
   */
  method ParseExcel(workbook: Option<seq<DecodedSheet>>) returns (r: Result<ExcelParseResult, Thrown>)
    ensures workbook.None? ==> r == Failure(ErrorInstance(ReadFailureMessage))
    ensures workbook.Some? ==>
              r.Success?
              && r.value.text == Trim(SheetsText(workbook.value))
              && r.value.sheets == SheetList(workbook.value)
  {
    if workbook.None? {
      return Failure(ErrorInstance(ReadFailureMessage));
    }
    var names := workbook.value;
    var sheets: seq<SheetData> := [];
    var fullText := "";
    var i := 0;
    while i < |names|
      invariant 0 <= i <= |names|
      invariant fullText == SheetsText(names[..i])
      invariant sheets == SheetList(names[..i])
    {
      var sheet := names[i];
      sheets := sheets + [SheetData(sheet.name, sheet.rows)];
      fullText := AppendRows(fullText + SheetHeader(sheet.name), sheet.rows);
      assert names[..i + 1] == names[..i] + [sheet];
      ConcatMapSnoc(SheetText, names[..i], sheet);
      i := i + 1;
    }
    assert names[..i] == names;
    return Success(ExcelParseResult(Trim(fullText), sheets));
  }

  // ---------------------------------------------------------------------------
  // What the text is made of
  // ---------------------------------------------------------------------------

  /**
   * Sheets appear in order: sheet `i`'s header, followed by its rows' text,
   * starts right after the text of the sheets before it.
   */
  lemma SheetTextAt(sheets: seq<DecodedSheet>, i: nat)
    requires i < |sheets|
    ensures OccursAt(SheetsText(sheets), SheetText(sheets[i]), |SheetsText(sheets[..i])|)
  {
    assert sheets == sheets[..i] + [sheets[i]] + sheets[i + 1..];
    ConcatMapAppend(SheetText, sheets[..i] + [sheets[i]], sheets[i + 1..]);
    ConcatMapSnoc(SheetText, sheets[..i], sheets[i]);
    var t := SheetsText(sheets);
    var k := |SheetsText(sheets[..i])|;
    assert t[k..k + |SheetText(sheets[i])|] == SheetText(sheets[i]);
  }

  /** The rows that produce output, in their order. */
  function EmittedRows(rows: seq<RowData>): (r: seq<RowData>)
    ensures forall x :: x in r ==> x in rows && IsEmitted(x)
    ensures forall x :: x in rows && IsEmitted(x) ==> x in r
  {
    if rows == [] then []
    else
      var last := rows[|rows| - 1];
      var init := rows[..|rows| - 1];
      assert forall x :: x in rows ==> x in init || x == last;
      EmittedRows(init) + (if IsEmitted(last) then [last] else [])
  }

  /** Rows that are not non-empty arrays contribute nothing: only the emitted rows make up the text. */
  lemma {:induction false} SkippedRowsVanish(rows: seq<RowData>)
    ensures RowsText(rows) == RowsText(EmittedRows(rows))
    decreases |rows|
  {
    if rows != [] {
      var last := rows[|rows| - 1];
      var init := rows[..|rows| - 1];
      SkippedRowsVanish(init);
      assert rows == init + [last];
      ConcatMapSnoc(RowText, init, last);
      if IsEmitted(last) {
        ConcatMapSnoc(RowText, EmittedRows(init), last);
      } else {
        assert EmittedRows(rows) == EmittedRows(init) + [];
        assert EmittedRows(init) + [] == EmittedRows(init);
      }
    }
  }

  /** A sheet without emitted rows still contributes its header, and nothing else. */
  lemma {:induction false} EmptySheetKeepsHeader(sheet: DecodedSheet)
    requires forall j :: 0 <= j < |sheet.rows| ==> !IsEmitted(sheet.rows[j])
    ensures SheetText(sheet) == SheetHeader(sheet.name)
    decreases |sheet.rows|
  {
    var rows := sheet.rows;
    if |rows| > 0 {
      var init := rows[..|rows| - 1];
      EmptySheetKeepsHeader(DecodedSheet(sheet.name, init));
      assert rows == init + [rows[|rows| - 1]];
      ConcatMapSnoc(RowText, init, rows[|rows| - 1]);
    }
  }

  // ---------------------------------------------------------------------------
  // Rows: the tab-joined cells split back into the cells' texts
  // ---------------------------------------------------------------------------

  /** `s.split(c)`. */
  function Split(s: string, c: char): (r: seq<string>)
    ensures |r| >= 1
    decreases |s|
  {
    match IndexOf(s, [c])
    case None => [s]
    case Some(i) => [s[..i]] + Split(s[i + 1..], c)
  }

  function CellTexts(cells: seq<Cell>): (r: seq<string>)
    ensures |r| == |cells|
    ensures forall i :: 0 <= i < |cells| ==> r[i] == CellText(cells[i])
  {
    seq(|cells|, i requires 0 <= i < |cells| => CellText(cells[i]))
  }

  lemma CellTextsCons(cells: seq<Cell>)
    requires cells != []
    ensures CellTexts(cells) == [CellText(cells[0])] + CellTexts(cells[1..])
  {
    assert forall i :: 0 <= i < |cells[1..]| ==> cells[1..][i] == cells[i + 1];
  }

  lemma NoCharNoIndex(s: string, c: char)
    requires c !in s
    ensures IndexOf(s, [c]).None?
  {
    forall i: nat | i + 1 <= |s| ensures !OccursAt(s, [c], i) {
      assert s[i..i + 1][0] == s[i];
    }
  }

  /** Splitting at the first separator: the piece before it, then the split of the rest. */
  lemma SplitAtFirst(first: string, rest: string, c: char)
    requires c !in first
    ensures Split(first + [c] + rest, c) == [first] + Split(rest, c)
  {
    var s := first + [c] + rest;
    forall i: nat | i < |first| ensures !OccursAt(s, [c], i) {
      assert s[i] == first[i];
      assert i + 1 <= |s| ==> s[i..i + 1][0] == s[i];
    }
    assert OccursAt(s, [c], |first|) by {
      assert s[|first|..|first| + 1] == [c];
    }
    IndexFromAt(s, [c], 0, |first|);
    assert s[..|first|] == first;
    assert s[|first| + 1..] == rest;
  }

  /**
   * An emitted row splits back on tabs into its cells' texts, provided no cell
   * text itself holds a tab.
   */
  lemma {:induction false} SplitJoinCells(cells: seq<Cell>)
    requires cells != []
    requires forall i :: 0 <= i < |cells| ==> Tab !in CellText(cells[i])
    ensures Split(JoinCells(cells), Tab) == CellTexts(cells)
    decreases |cells|
  {
    var first := CellText(cells[0]);
    if |cells| == 1 {
      NoCharNoIndex(first, Tab);
    } else {
      var rest := cells[1..];
      assert JoinCells(cells) == first + [Tab] + JoinCells(rest);
      SplitAtFirst(first, JoinCells(rest), Tab);
      assert forall i :: 0 <= i < |rest| ==> rest[i] == cells[i + 1];
      SplitJoinCells(rest);
      CellTextsCons(cells);
    }
  }

  // ---------------------------------------------------------------------------
  // The final trim
  // ---------------------------------------------------------------------------

  /** An empty workbook renders as the empty text. */
  lemma NoSheetsNoText()
    ensures Trim(SheetsText([])) == ""
  {
    assert LeadingSpaces("") == 0;
  }

  /** A text that opens with a newline and then a trimmed line trims to something starting with that line. */
  lemma TrimAfterNewline(t: string, line: string)
    requires StartsWith(t, "\n" + line) && IsTrimmed(line) && line != []
    ensures StartsWith(Trim(t), line)
  {
    var h := "\n" + line;
    assert forall k :: 0 <= k < |h| ==> t[k] == h[k] by {
      assert t[..|h|] == h;
      forall k | 0 <= k < |h| ensures t[k] == h[k] {
        assert t[..|h|][k] == t[k];
      }
    }
    assert t[1..|line| + 1] == line by {
      forall k | 0 <= k < |line| ensures t[1..|line| + 1][k] == line[k] {
        assert h[k + 1] == line[k];
      }
    }
    assert t[0] == '\n' && t[1] == line[0] && t[|line|] == line[|line| - 1];
    TrimKeepsStart(t, 1, |line|);
  }

  /**
   * The trim removes the newline that opens the first header: the text starts
   * with that sheet's `=== name ===` line.
   */
  lemma TrimStartsAtFirstHeader(sheets: seq<DecodedSheet>)
    requires sheets != []
    ensures StartsWith(Trim(SheetsText(sheets)), "=== " + sheets[0].name + " ===")
  {
    var t := SheetsText(sheets);
    var line := "=== " + sheets[0].name + " ===";
    SheetTextAt(sheets, 0);
    assert sheets[..0] == [];
    var first := SheetText(sheets[0]);
    assert first == ("\n" + line) + ("\n" + RowsText(sheets[0].rows));
    assert t[..|first|] == first;
    assert t[..|line| + 1] == "\n" + line by {
      assert t[..|line| + 1] == t[..|first|][..|line| + 1];
    }
    TrimAfterNewline(t, line);
  }

  /** The text ends with the last sheet's last row when that row is emitted. */
  lemma EndsWithLastRow(sheets: seq<DecodedSheet>, row: RowData)
    requires sheets != [] && IsEmitted(row)
    requires var last := sheets[|sheets| - 1]; last.rows != [] && last.rows[|last.rows| - 1] == row
    ensures EndsWith(SheetsText(sheets), JoinCells(row.cells) + "\n")
  {
    var last := sheets[|sheets| - 1];
    var init := sheets[..|sheets| - 1];
    assert sheets == init + [last];
    ConcatMapSnoc(SheetText, init, last);
    var rows := last.rows;
    assert rows == rows[..|rows| - 1] + [row];
    ConcatMapSnoc(RowText, rows[..|rows| - 1], row);
    var t := SheetsText(sheets);
    var tail := JoinCells(row.cells) + "\n";
    assert t == SheetsText(init) + SheetHeader(last.name) + RowsText(rows[..|rows| - 1]) + tail;
    assert t[|t| - |tail|..] == tail;
  }

  /** A text that closes with a trimmed line and a newline trims to something ending with that line. */
  lemma TrimBeforeNewline(t: string, line: string)
    requires EndsWith(t, line + "\n") && IsTrimmed(line) && line != []
    ensures EndsWith(Trim(t), line)
  {
    var h := line + "\n";
    var p := |t| - |h|;
    var q := |t| - 2;
    assert forall k :: 0 <= k < |h| ==> t[p + k] == h[k] by {
      assert t[p..] == h;
      forall k | 0 <= k < |h| ensures t[p + k] == h[k] {
        assert t[p..][k] == t[p + k];
      }
    }
    assert t[p..q + 1] == line by {
      forall k | 0 <= k < |line| ensures t[p..q + 1][k] == line[k] {
        assert h[k] == line[k];
      }
    }
    assert t[p] == line[0] && t[q] == line[|line| - 1] && t[q + 1] == '\n';
    TrimKeepsEnd(t, p, q);
  }

  /** The trim removes the newline that closes the last sheet's last row, when that row is emitted. */
  lemma TrimEndsBeforeLastNewline(sheets: seq<DecodedSheet>, row: RowData)
    requires sheets != [] && IsEmitted(row)
    requires var last := sheets[|sheets| - 1]; last.rows != [] && last.rows[|last.rows| - 1] == row
    requires var cellsText := JoinCells(row.cells); cellsText != [] && !IsSpace(cellsText[0]) && !IsSpace(cellsText[|cellsText| - 1])
    ensures EndsWith(Trim(SheetsText(sheets)), JoinCells(row.cells))
  {
    EndsWithLastRow(sheets, row);
    TrimBeforeNewline(SheetsText(sheets), JoinCells(row.cells));
  }
}

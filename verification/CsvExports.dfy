/**
 * The two writers of this product, and what comes back when their files are
 * imported: the sheet export, which quotes every cell, and the report export,
 * which guards a value against formulas and quotes only where it must.
 */
module CsvExports {
  import opened Text
  import opened Csv
  import opened CsvRoundTrip

  // ------------------------------------------------------- rows joined by a mark

  /** Rows joined, not ended, by a terminator. */
  function JoinRows(rows: seq<seq<Cell>>, t: Terminator): string
    requires forall k :: 0 <= k < |rows| ==> rows[k] != []
  {
    if rows == [] then ""
    else if |rows| == 1 then WriteRow(rows[0])
    else WriteRow(rows[0]) + Mark(t) + JoinRows(rows[1..], t)
  }

  /** The same file with its last row told apart. */
  function Joined(rows: seq<seq<Cell>>, t: Terminator): File
    requires rows != []
  {
    File(seq(|rows| - 1, k requires 0 <= k < |rows| - 1 => Line(rows[k], t)), rows[|rows| - 1])
  }

  lemma JoinedTail(rows: seq<seq<Cell>>, t: Terminator)
    requires |rows| > 1
    ensures Joined(rows, t).lines == [Line(rows[0], t)] + Joined(rows[1..], t).lines
    ensures Joined(rows, t).last == Joined(rows[1..], t).last
  {
  }

  lemma {:induction false} JoiningIsWriting(rows: seq<seq<Cell>>, t: Terminator)
    requires rows != [] && forall k :: 0 <= k < |rows| ==> rows[k] != []
    ensures JoinRows(rows, t) == Write(Joined(rows, t))
    decreases |rows|
  {
    hide WriteRow, Mark;
    if |rows| > 1 {
      JoinedTail(rows, t);
      JoiningIsWriting(rows[1..], t);
      var head := WriteRow(rows[0]) + Mark(t);
      var others := Joined(rows[1..], t);
      assert Joined(rows, t).lines[1..] == others.lines;
      assert head + (WriteLines(others.lines) + WriteRow(others.last))
          == head + WriteLines(others.lines) + WriteRow(others.last);
    }
  }

  function ValuesOf(rows: seq<seq<Cell>>): (r: seq<Record>)
    ensures |r| == |rows|
  {
    seq(|rows|, k requires 0 <= k < |rows| => Values(rows[k]))
  }

  lemma JoinedRows(rows: seq<seq<Cell>>, t: Terminator)
    requires rows != []
    ensures Rows(File(Joined(rows, t).lines, [])) == ValuesOf(rows)[..|rows| - 1]
    ensures ValuesOf(rows)[..|rows| - 1] + [Values(rows[|rows| - 1])] == ValuesOf(rows)
  {
    hide Values;
  }

  /** Joined rows come back, all but a last row that is a single empty cell. */
  lemma ReadJoined(rows: seq<seq<Cell>>, t: Terminator)
    requires rows != []
    requires forall k :: 0 <= k < |rows| ==> rows[k] != [] && AllWellFormed(rows[k])
    ensures Split(JoinRows(rows, t))
         == if Values(rows[|rows| - 1]) == [""] then ValuesOf(rows)[..|rows| - 1] else ValuesOf(rows)
  {
    hide Trim, WellFormed, Split, Write;
    var f := Joined(rows, t);
    JoiningIsWriting(rows, t);
    ReadBack(f);
    KeptAreTheRows(f.lines);
    JoinedRows(rows, t);
  }

  // ------------------------------------------------------------ the sheet export

  function QuoteAll(row: Record): (cells: seq<Cell>)
    ensures |cells| == |row|
    ensures Values(cells) == row
  {
    seq(|row|, k requires 0 <= k < |row| => Quoted("", row[k]))
  }

  function QuotedRows(rows: seq<Record>): (r: seq<seq<Cell>>)
    ensures |r| == |rows|
  {
    seq(|rows|, k requires 0 <= k < |rows| => QuoteAll(rows[k]))
  }

  /** Every cell quoted, cells joined by commas, rows by CRLF. */
  function SheetExport(rows: seq<Record>): string
    requires forall k :: 0 <= k < |rows| ==> rows[k] != []
  {
    JoinRows(QuotedRows(rows), CRLF)
  }

  /**
   * The reader gives the exported sheet back cell for cell, unless its last row
   * is a single empty cell.
   */
  lemma SheetExportReadsBack(rows: seq<Record>)
    requires rows != [] && forall k :: 0 <= k < |rows| ==> rows[k] != []
    ensures Split(SheetExport(rows)) == rows <==> rows[|rows| - 1] != [""]
  {
    hide Trim, Split, JoinRows;
    ReadJoined(QuotedRows(rows), CRLF);
    assert ValuesOf(QuotedRows(rows)) == rows;
  }

  // ----------------------------------------------------------- the report export

  predicate MustQuote(s: string) {
    exists k :: 0 <= k < |s| && (Splits(s[k]) || s[k] == '"')
  }

  /** `csvCell` of a string: guarded, then quoted only if something in it would split. */
  function CsvCell(value: string): (c: Cell)
    ensures c.value == Guard(value)
  {
    var s := Guard(value);
    if MustQuote(s) then Quoted("", s) else Bare(s)
  }

  const SPLITTERS: seq<char> := ['"', ',', '\n', '\r']

  /** The file can be read, and only what has to be is quoted. */
  lemma CsvCellIsWellFormed(value: string)
    ensures WellFormed(CsvCell(value))
    ensures CsvCell(value).Quoted? <==> exists k :: 0 <= k < |Guard(value)| && Guard(value)[k] in SPLITTERS
  {
  }

  function CsvCells(row: Record): (cells: seq<Cell>)
    ensures |cells| == |row|
    ensures forall k :: 0 <= k < |row| ==> cells[k] == CsvCell(row[k])
  {
    seq(|row|, k requires 0 <= k < |row| => CsvCell(row[k]))
  }

  function CsvRows(rows: seq<Record>): (r: seq<seq<Cell>>)
    ensures |r| == |rows|
    ensures forall k :: 0 <= k < |rows| ==> r[k] == CsvCells(rows[k])
  {
    seq(|rows|, k requires 0 <= k < |rows| => CsvCells(rows[k]))
  }

  const BOM: string := "\U{FEFF}"

  /** The file as it is served: the byte-order mark, then rows joined by LF. */
  function ReportExport(rows: seq<Record>): string
    requires forall k :: 0 <= k < |rows| ==> rows[k] != []
  {
    BOM + JoinRows(CsvRows(rows), LF)
  }

  function GuardedRow(row: Record): (r: Record)
    ensures |r| == |row|
    ensures forall k :: 0 <= k < |row| ==> r[k] == Guard(row[k])
  {
    Values(CsvCells(row))
  }

  function Trimmed(row: Record): (r: Record)
    ensures |r| == |row|
  {
    seq(|row|, k requires 0 <= k < |row| => Trim(row[k]))
  }

  /** A table whose rows all have the header's width and whose values never look guarded. */
  predicate Exportable(rows: seq<Record>) {
    && |rows| > 1 && rows[0] != []
    && forall k :: 0 <= k < |rows| ==>
         |rows[k]| == |rows[0]| && forall c :: 0 <= c < |rows[k]| ==> !IsGuarded(rows[k][c])
  }

  /** A row that still shows something once its values are guarded. */
  predicate Shows(row: Record) {
    !IsBlank(GuardedRow(row))
  }

  // --------------------------------------------------- importing a report export

  lemma {:induction false} DoubledKeeps(value: string, c: char)
    requires c in value
    ensures c in Doubled(value)
  {
    if value[0] != c {
      DoubledKeeps(value[1..], c);
    }
  }

  /** A row that is not blank leaves a character that is not white space in the file. */
  lemma ExportIsNotBlank(rows: seq<Record>)
    requires rows != [] && forall k :: 0 <= k < |rows| ==> rows[k] != []
    requires Shows(rows[0])
    ensures Trim(JoinRows(CsvRows(rows), LF)) != ""
  {
    hide Trim, Doubled, MustQuote, WriteRow, Guard, IsSpace;
    var row := rows[0];
    var k :| 0 <= k < |row| && Trim(Guard(row[k])) != "";
    TrimProperty(Guard(row[k]));
    var i :| 0 <= i < |Guard(row[k])| && !IsSpace(Guard(row[k])[i]);
    var c := Guard(row[k])[i];
    WrittenCellHolds(row[k], c);
    RowHolds(CsvCells(row), k, c);
    var text := JoinRows(CsvRows(rows), LF);
    assert c in text;
    TrimProperty(text);
  }

  lemma WrittenCellHolds(value: string, c: char)
    requires c in Guard(value)
    ensures c in WriteCell(CsvCell(value))
  {
    hide Guard, MustQuote;
    DoubledKeeps(Guard(value), c);
  }

  lemma {:induction false} RowHolds(cells: seq<Cell>, k: nat, c: char)
    requires k < |cells| && c in WriteCell(cells[k])
    ensures c in WriteRow(cells)
    decreases |cells|
  {
    if k == 0 {
    } else {
      RowHolds(cells[1..], k - 1, c);
    }
  }

  /** The numbers found do not change when a blank record is added at the end. */
  lemma {:induction false} DataNumbersOfPrefix(blank: seq<bool>, from: nat, end: nat, longer: seq<bool>)
    requires from <= end <= |blank| && blank <= longer
    ensures DataNumbers(blank, from, end) == DataNumbers(longer, from, end)
    decreases end
  {
    if from < end {
      DataNumbersOfPrefix(blank, from, end - 1, longer);
    }
  }

  function Guarded(rows: seq<Record>): (r: seq<Record>)
    ensures |r| == |rows|
    ensures forall k :: 0 <= k < |rows| ==> r[k] == GuardedRow(rows[k])
  {
    ValuesOf(CsvRows(rows))
  }

  /** The numbers, counted from one, of the data rows that show something. */
  function ShownNumbers(rows: seq<Record>): seq<nat>
    requires rows != []
  {
    DataNumbers(Blanks(Guarded(rows)), 1, |rows|)
  }

  /** The records read are the guarded rows, or those less a last one that is blank. */
  lemma ReadReport(rows: seq<Record>)
    requires rows != [] && forall k :: 0 <= k < |rows| ==> rows[k] != []
    ensures var body := JoinRows(CsvRows(rows), LF);
      || Split(body) == Guarded(rows)
      || (Split(body) == Guarded(rows)[..|rows| - 1] && !Shows(rows[|rows| - 1]))
  {
    hide Trim, Split, JoinRows, MustQuote;
    forall k, c | 0 <= k < |rows| && 0 <= c < |rows[k]| ensures WellFormed(CsvCells(rows[k])[c]) {
      CsvCellIsWellFormed(rows[k][c]);
    }
    ReadJoined(CsvRows(rows), LF);
    var last := rows[|rows| - 1];
    if GuardedRow(last) == [""] {
      TrimProperty("");
    }
  }

  lemma AlignedUndoesGuard(row: Record)
    requires forall c :: 0 <= c < |row| ==> !IsGuarded(row[c])
    ensures Aligned(GuardedRow(row), |row|) == Trimmed(row)
  {
    hide Trim, DecodeCell, Guard, IsGuarded;
    forall c | 0 <= c < |row| ensures DecodeCell(Guard(row[c])) == Trim(row[c]) {
      DecodeInvertsGuard(row[c]);
    }
  }

  /**
   * Importing a report export returns its headers and rows, trimmed: every data
   * row that shows something, in order, under its own number; and the import is
   * refused only if there is no such row or no header.
   */
  lemma ImportUndoesExport(rows: seq<Record>)
    requires Exportable(rows) && Shows(rows[0])
    ensures var result := Parse(ReportExport(rows));
      var numbers := ShownNumbers(rows);
      if AllEmpty(Trimmed(rows[0])) then result == Refused(BlankHeaderRow)
      else if numbers == [] then result == Refused(NoDataRows)
      else
        && result.Parsed?
        && result.table.headers == Trimmed(rows[0])
        && result.table.rowNumbers == numbers
        && |result.table.rows| == |numbers|
        && forall k :: 0 <= k < |numbers| ==> result.table.rows[k] == Trimmed(rows[numbers[k] - 1])
  {
    hide Trim, Split, JoinRows, CsvRows, Guard, IsGuarded, DecodeCell, IsBlank, HeaderIndex, DataNumbers,
      Aligned, Blanks, Trimmed, AllEmpty, RowsOf;
    var body := JoinRows(CsvRows(rows), LF);
    assert (BOM + body)[1..] == body;
    ExportIsNotBlank(rows);
    ReadReport(rows);
    LessABlankLast(Split(body), Guarded(rows));
    AlignedUndoesGuard(rows[0]);
    RowsUndoGuard(rows, Split(body), ShownNumbers(rows));
  }

  lemma BlanksOfPrefix(records: seq<Record>, n: nat)
    requires n <= |records|
    ensures Blanks(records[..n]) == Blanks(records)[..n]
  {
    hide IsBlank;
  }

  /** Records less a blank last one have the same header and the same data rows. */
  lemma LessABlankLast(records: seq<Record>, all: seq<Record>)
    requires all != [] && !IsBlank(all[0])
    requires records == all || (records == all[..|all| - 1] && IsBlank(all[|all| - 1]))
    ensures records != [] && records <= all
    ensures HeaderIndex(Blanks(records)) == 0
    ensures DataNumbers(Blanks(records), 1, |records|) == DataNumbers(Blanks(all), 1, |all|)
  {
    hide IsBlank, DataNumbers, HeaderIndex, Blanks;
    BlanksOfPrefix(all, |records|);
    PrefixNumbers(Blanks(records), Blanks(all));
  }

  /** A blank record at the end, or none: either way the data rows have the same numbers. */
  lemma PrefixNumbers(blank: seq<bool>, all: seq<bool>)
    requires |blank| > 0 && blank <= all && !all[0]
    requires |blank| == |all| || (|blank| == |all| - 1 && all[|all| - 1])
    ensures HeaderIndex(blank) == 0
    ensures DataNumbers(blank, 1, |blank|) == DataNumbers(all, 1, |all|)
  {
    DataNumbersOfPrefix(blank, 1, |blank|, all);
  }

  lemma RowsUndoGuard(rows: seq<Record>, records: seq<Record>, numbers: seq<nat>)
    requires Exportable(rows) && records <= Guarded(rows)
    requires forall k :: 0 <= k < |numbers| ==> 0 < numbers[k] <= |records|
    ensures forall k :: 0 <= k < |numbers| ==>
      RowsOf(records, numbers, |rows[0]|)[k] == Trimmed(rows[numbers[k] - 1])
  {
    hide Trim, Guard, IsGuarded, DecodeCell;
    forall k | 0 <= k < |numbers|
      ensures Aligned(records[numbers[k] - 1], |rows[0]|) == Trimmed(rows[numbers[k] - 1])
    {
      AlignedUndoesGuard(rows[numbers[k] - 1]);
    }
  }
}

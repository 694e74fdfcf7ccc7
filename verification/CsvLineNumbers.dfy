/**
 * The two things `parseCsv` documents and does not do: `rowNumbers` number
 * records, not lines, and a row longer than the header is cut.
 */
module CsvLineNumbers {
  import opened Seqs
  import opened Text
  import opened Csv
  import opened CsvRoundTrip

  // --------------------------------------------------------------------- line breaks

  predicate BreaksBetween(before: string, c: char) {
    c == '\r' || (c == '\n' && !(before != "" && before[|before| - 1] == '\r'))
  }

  /** How many line breaks a text holds, a CR and the LF right after it being one. */
  function LineBreaks(s: string): nat {
    if s == "" then 0
    else
      var n := |s| - 1;
      LineBreaks(s[..n]) + if BreaksBetween(s[..n], s[n]) then 1 else 0
  }

  predicate Joins(a: string, b: string) {
    a != "" && b != "" && a[|a| - 1] == '\r' && b[0] == '\n'
  }

  lemma {:induction false} LineBreaksOfJoin(a: string, b: string)
    ensures LineBreaks(a + b) == LineBreaks(a) + LineBreaks(b) - if Joins(a, b) then 1 else 0
    decreases |b|
  {
    if b == "" {
      assert a + b == a;
    } else {
      var n := |b| - 1;
      LineBreaksOfJoin(a, b[..n]);
      assert (a + b)[..|a| + n] == a + b[..n];
      if n == 0 {
        assert a + b[..n] == a;
      } else {
        assert (a + b[..n])[|a| + n - 1] == b[n - 1];
      }
    }
  }

  predicate HasBreak(s: string) {
    '\r' in s || '\n' in s
  }

  lemma {:induction false} NoBreaks(s: string)
    ensures LineBreaks(s) == 0 <==> !HasBreak(s)
  {
    if s == "" {
    } else {
      var n := |s| - 1;
      NoBreaks(s[..n]);
      OneMoreCharacter(s[..n], s[n]);
      assert s == s[..n] + [s[n]];
    }
  }

  lemma OneMoreCharacter(s: string, c: char)
    ensures HasBreak(s + [c]) <==> HasBreak(s) || c == '\r' || c == '\n'
    ensures c == '\n' && !BreaksBetween(s, c) ==> HasBreak(s)
  {
  }

  // -------------------------------------------------------------- line breaks in cells

  lemma {:induction false} DoublingKeepsBreaks(value: string)
    ensures LineBreaks(Doubled(value)) == LineBreaks(value)
    ensures Doubled(value) != "" <==> value != ""
    ensures value != "" ==> Doubled(value)[0] == value[0]
  {
    if value == "" {
    } else {
      var head := if value[0] == '"' then "\"\"" else [value[0]];
      var rest := value[1..];
      DoublingKeepsBreaks(rest);
      LineBreaksOfJoin(head, Doubled(rest));
      LineBreaksOfJoin([value[0]], rest);
      assert [value[0]] + rest == value;
      HeadBreaks(value[0]);
    }
  }

  lemma HeadBreaks(c: char)
    ensures LineBreaks([c]) == if c == '\r' || c == '\n' then 1 else 0
    ensures LineBreaks("\"\"") == 0
  {
    assert [c][..0] == "";
    NoBreaks("\"\"");
  }

  /** The line breaks inside the values of a row: only a quoted value has any. */
  function InnerBreaks(cells: seq<Cell>): nat {
    if cells == [] then 0 else LineBreaks(cells[0].value) + InnerBreaks(cells[1..])
  }

  lemma BareHasNoBreak(value: string)
    requires WellFormed(Bare(value))
    ensures !HasBreak(value)
  {
    hide Trim;
    assert forall k :: 0 <= k < |value| ==> !Splits(value[k]);
  }

  /** Neither end of a cell's text is a line break, and the breaks in it are its value's. */
  lemma CellBreaks(c: Cell)
    requires WellFormed(c)
    ensures LineBreaks(WriteCell(c)) == LineBreaks(c.value)
    ensures WriteCell(c) != "" ==> Closed(WriteCell(c))
  {
    hide Trim, AllSpace;
    match c {
      case Bare(value) =>
        BareHasNoBreak(value);
        if value != "" {
          assert value[0] in value && value[|value| - 1] in value;
        }
      case Quoted(pad, value) =>
        var front := pad + "\"";
        assert !HasBreak(front);
        NoBreaks(front);
        DoublingKeepsBreaks(value);
        LineBreaksOfJoin(front, Doubled(value));
        LineBreaksOfJoin(front + Doubled(value), "\"");
        NoBreaks("\"");
        var text := WriteCell(c);
        assert text[0] == front[0] && front[0] in front && text[|text| - 1] == '"';
    }
  }

  /** Begins and ends with something other than a line break. */
  predicate Closed(s: string) {
    s != "" && s[0] != '\r' && s[0] != '\n' && s[|s| - 1] != '\r' && s[|s| - 1] != '\n'
  }

  lemma {:induction false} RowBreaks(cells: seq<Cell>)
    requires cells != [] && AllWellFormed(cells)
    ensures LineBreaks(WriteRow(cells)) == InnerBreaks(cells)
    ensures WriteRow(cells) != "" ==> Closed(WriteRow(cells))
    decreases |cells|
  {
    hide Trim, WellFormed, WriteCell, LineBreaks;
    CellBreaks(cells[0]);
    if |cells| == 1 {
      assert InnerBreaks(cells[1..]) == 0;
    } else {
      var head, others := WriteCell(cells[0]) + ",", WriteRow(cells[1..]);
      RowBreaks(cells[1..]);
      LineBreaksOfJoin(WriteCell(cells[0]), ",");
      LineBreaksOfJoin(head, others);
      NoBreaks(",");
      var text := WriteRow(cells);
      assert text == head + others;
      assert text[0] == head[0] && text[|text| - 1] == if others == "" then ',' else others[|others| - 1];
    }
  }

  // ----------------------------------------------------------------- lines and records

  /** The line breaks inside the values of the rows. */
  function BreaksInside(lines: seq<Line>): nat
    decreases |lines|
  {
    if lines == [] then 0 else InnerBreaks(lines[0].cells) + BreaksInside(lines[1..])
  }

  lemma MarkIsOneBreak(t: Terminator)
    ensures LineBreaks(Mark(t)) == 1
  {
    match t {
      case LF => HeadBreaks('\n');
      case CR => HeadBreaks('\r');
      case CRLF =>
        HeadBreaks('\r');
        HeadBreaks('\n');
        LineBreaksOfJoin("\r", "\n");
        assert "\r" + "\n" == "\r\n";
    }
  }

  lemma LineTextBreaks(line: Line)
    requires line.cells != [] && AllWellFormed(line.cells)
    ensures LineBreaks(WriteRow(line.cells) + Mark(line.end)) == InnerBreaks(line.cells) + 1
  {
    hide LineBreaks, WriteRow, InnerBreaks;
    RowBreaks(line.cells);
    MarkIsOneBreak(line.end);
    LineBreaksOfJoin(WriteRow(line.cells), Mark(line.end));
  }

  /** A file's lines: one for each record read, and one more for each line break inside a value. */
  lemma {:induction false} LinesAndRecords(lines: seq<Line>)
    requires WellFormedFile(File(lines, []))
    ensures LineBreaks(WriteLines(lines)) == |Kept(lines)| + BreaksInside(lines)
    decreases |lines|
  {
    hide Trim, LineBreaks, Mark, InnerBreaks, AllWellFormed, WriteRow;
    if lines == [] {
      assert LineBreaks("") == 0 by { NoBreaks(""); }
    } else {
      var text, rest := WriteRow(lines[0].cells) + Mark(lines[0].end), WriteLines(lines[1..]);
      LineTextBreaks(lines[0]);
      LineBreaksOfJoin(text, rest);
      LinesAndRecords(lines[1..]);
      JoinsWhereSwallowed(lines);
      if Swallows(lines, 0) {
        LinesAndRecords(lines[2..]);
        assert lines[1..][1..] == lines[2..];
        SwallowedLine(lines[1..]);
      }
    }
  }

  lemma JoinsWhereSwallowed(lines: seq<Line>)
    requires WellFormedFile(File(lines, [])) && lines != []
    ensures Joins(WriteRow(lines[0].cells) + Mark(lines[0].end), WriteLines(lines[1..])) <==> Swallows(lines, 0)
  {
    hide Trim, AllWellFormed, WriteRow;
    var text, rest := WriteRow(lines[0].cells) + Mark(lines[0].end), WriteLines(lines[1..]);
    assert text[|text| - 1] == '\r' <==> lines[0].end == CR;
    RestStartsWithLF(lines[1..], []);
    assert Write(File(lines[1..], [])) == rest + "" == rest;
  }

  /** The line break of a swallowed row is the one its CR makes already. */
  lemma SwallowedLine(lines: seq<Line>)
    requires WellFormedFile(File(lines, [])) && lines != [] && lines[0] == Line(NOTHING, LF)
    ensures LineBreaks(WriteLines(lines)) == 1 + LineBreaks(WriteLines(lines[1..]))
    ensures BreaksInside(lines) == BreaksInside(lines[1..])
  {
    hide Trim, LineBreaks, AllWellFormed;
    var rest := WriteLines(lines[1..]);
    HeadBreaks('\n');
    LineBreaksOfJoin("\n", rest);
    assert WriteRow(NOTHING) == "" && WriteLines(lines) == "\n" + rest;
    NoBreaks("");
    assert InnerBreaks(NOTHING) == LineBreaks("") + InnerBreaks(NOTHING[1..]) == 0;
  }

  lemma KeptFirst(lines: seq<Line>, n: nat)
    requires lines != [] && n == if Swallows(lines, 0) then 2 else 1
    ensures Kept(lines) == [Values(lines[0].cells)] + Kept(lines[n..])
  {
    hide Values;
  }

  lemma SwallowsLater(lines: seq<Line>, n: nat, k: nat)
    requires 0 < n <= k <= |lines| && !Swallows(lines, k - 1)
    ensures n < k ==> !Swallows(lines[n..], k - n - 1)
    ensures Swallows(lines[..k], 0) == Swallows(lines, 0)
  {
  }

  lemma {:induction false} KeptSplits(lines: seq<Line>, k: nat)
    requires k <= |lines| && (k > 0 ==> !Swallows(lines, k - 1))
    ensures Kept(lines) == Kept(lines[..k]) + Kept(lines[k..])
    decreases k
  {
    if k == 0 {
      assert lines[0..] == lines;
    } else {
      hide Values, Kept, Swallows;
      var n := if Swallows(lines, 0) then 2 else 1;
      SwallowsLater(lines, n, k);
      DropAhead(lines, n, k);
      KeptSplits(lines[n..], k - n);
      KeptFirst(lines, n);
      KeptFirst(lines[..k], n);
      Joined([Values(lines[0].cells)], Kept(lines[..k][n..]), Kept(lines[k..]));
    }
  }

  lemma {:induction false} LinesSplit(lines: seq<Line>, last: seq<Cell>, k: nat)
    requires HasCells(File(lines, last)) && k <= |lines|
    ensures Write(File(lines, last)) == WriteLines(lines[..k]) + Write(File(lines[k..], last))
    decreases k
  {
    hide WriteRow, Mark;
    if k == 0 {
      assert lines[0..] == lines;
    } else {
      LinesSplit(lines[1..], last, k - 1);
      WriteFirst(lines, last);
      assert lines[..k][1..] == lines[1..][..k - 1] && lines[1..][k - 1..] == lines[k..];
      assert WriteLines(lines[..k]) == WriteRow(lines[0].cells) + Mark(lines[0].end) + WriteLines(lines[..k][1..]);
    }
  }

  /** No value of the rows holds a line break. */
  predicate NoneBroken(lines: seq<Line>) {
    forall i, c :: 0 <= i < |lines| && 0 <= c < |lines[i].cells| ==> !HasBreak(lines[i].cells[c].value)
  }

  lemma {:induction false} NoneInside(cells: seq<Cell>)
    ensures InnerBreaks(cells) == 0 <==> forall c :: 0 <= c < |cells| ==> !HasBreak(cells[c].value)
  {
    hide HasBreak, LineBreaks;
    if cells == [] {
    } else {
      NoBreaks(cells[0].value);
      NoneInside(cells[1..]);
      assert forall c :: 0 < c < |cells| ==> cells[c] == cells[1..][c - 1];
    }
  }

  lemma {:induction false} NoneBrokenInside(lines: seq<Line>)
    ensures BreaksInside(lines) == 0 <==> NoneBroken(lines)
    decreases |lines|
  {
    hide HasBreak, InnerBreaks;
    if lines == [] {
    } else {
      NoneInside(lines[0].cells);
      NoneBrokenInside(lines[1..]);
      assert forall i :: 0 < i < |lines| ==> lines[i] == lines[1..][i - 1];
    }
  }

  /** The `k`-th row of a file, its unterminated last one included, when the reader keeps it. */
  predicate IsKept(f: File, k: nat) {
    if k < |f.lines| then k > 0 ==> !Swallows(f.lines, k - 1)
    else k == |f.lines| && KeptLast(f.last) != []
  }

  function RowAt(f: File, k: nat): seq<Cell>
    requires IsKept(f, k)
  {
    if k < |f.lines| then f.lines[k].cells else f.last
  }

  /**
   * A record's number is not the line it starts on: they differ by exactly the
   * line breaks inside the values ahead of it, and so agree if and only if no
   * value ahead holds one. A swallowed row takes up neither a number nor a line.
   */
  lemma RecordNumbersAreNotLines(f: File, k: nat)
    requires WellFormedFile(f) && IsKept(f, k)
    ensures var ahead := WriteLines(f.lines[..k]);
      var number, line := |Kept(f.lines[..k])| + 1, LineBreaks(ahead) + 1;
      && Write(f) == ahead + Write(File(f.lines[k..], f.last))
      && number <= |Split(Write(f))| && Split(Write(f))[number - 1] == Values(RowAt(f, k))
      && line == number + BreaksInside(f.lines[..k])
      && (line == number <==> NoneBroken(f.lines[..k]))
  {
    hide Trim, WellFormed, Split, WriteLines, NoneBroken;
    assert WellFormedFile(File(f.lines[..k], []));
    LinesSplit(f.lines, f.last, k);
    LinesAndRecords(f.lines[..k]);
    NoneBrokenInside(f.lines[..k]);
    ReadBack(f);
    KeptSplits(f.lines, k);
  }

  // ------------------------------------------------------------------------ long rows

  /**
   * A data row holds every cell of its record, decoded, if and only if the record
   * is no longer than the header; the rest of a longer one is cut off.
   */
  lemma LongRowsAreCut(text: string, k: nat)
    requires Parse(text).Parsed? && k < |Parse(text).table.rows|
    ensures var t := Parse(text).table;
      var record := Split(WithoutBom(text))[t.rowNumbers[k] - 1];
      && (Decoded(record) <= t.rows[k] <==> |record| <= |t.headers|)
      && (|record| > |t.headers| ==> t.rows[k] == Decoded(record)[..|t.headers|])
      && forall c :: |record| <= c < |t.headers| ==> t.rows[k][c] == ""
  {
    hide Trim, Split, IsBlank, DecodeCell, HeaderIndex, DataNumbers;
    assert DecodeCell("") == "" by { NothingDecoded(); }
  }

  // ------------------------------------------------------------------------- examples

  /** A file of a header and one row, neither blank, is a table of that row under the number two. */
  lemma TwoRecords(text: string, header: Record, row: Record)
    requires text != "" && !IsSpace(text[0]) && Split(text) == [header, row]
    requires !IsBlank(header) && !IsBlank(row) && !AllEmpty(Decoded(header))
    ensures Parse(text) == Parsed(Table(Decoded(header), [Aligned(row, |header|)], [2]))
  {
    hide Trim, Split, IsBlank, DecodeCell, HeaderIndex, DataNumbers, AllEmpty;
    TrimProperty(text);
    NumbersOfTwo(Blanks([header, row]));
  }

  lemma NumbersOfTwo(blanks: seq<bool>)
    requires blanks == [false, false]
    ensures HeaderIndex(blanks) == 0 && DataNumbers(blanks, 1, 2) == [2]
  {
    assert DataNumbers(blanks, 1, 1) == [];
  }

  /** Text that needs neither trimming nor unguarding. */
  predicate IsPlain(s: string) {
    s != "" && !IsSpace(s[0]) && s[0] != '\'' && !IsSpace(s[|s| - 1])
  }

  lemma PlainDecodes(s: string)
    requires IsPlain(s)
    ensures DecodeCell(s) == Trim(s) == s
  {
    TrimOfTight(s);
  }

  lemma PlainRecord(record: Record)
    requires record != [] && forall c :: 0 <= c < |record| ==> IsPlain(record[c])
    ensures !IsBlank(record) && !AllEmpty(Decoded(record)) && Decoded(record) == record
  {
    hide Trim, IsPlain, DecodeCell;
    forall c | 0 <= c < |record| ensures DecodeCell(record[c]) == Trim(record[c]) == record[c] != "" {
      PlainDecodes(record[c]);
      assert record[c] != "" by { PlainIsNotEmpty(record[c]); }
    }
    assert Decoded(record)[0] == record[0] != "" && Trim(record[0]) != "";
  }

  lemma PlainIsNotEmpty(s: string)
    requires IsPlain(s)
    ensures s != ""
  {
  }

  function TwoLines(header: seq<Cell>, row: seq<Cell>): File {
    File([Line(header, LF), Line(row, LF)], [])
  }

  lemma TwoLinesWrite(header: seq<Cell>, row: seq<Cell>)
    requires header != [] && row != []
    ensures WriteLines([Line(header, LF)]) == WriteRow(header) + "\n"
    ensures Write(TwoLines(header, row)) == WriteRow(header) + "\n" + (WriteRow(row) + "\n")
  {
    hide WriteRow;
    var h, r := Line(header, LF), Line(row, LF);
    assert [h][1..] == [] && [r][1..] == [] && [h, r][1..] == [r];
    assert WriteLines([r]) == WriteRow(row) + "\n" + "";
  }

  lemma TwoLinesSplit(header: seq<Cell>, row: seq<Cell>)
    requires WellFormedFile(TwoLines(header, row))
    ensures Split(Write(TwoLines(header, row))) == [Values(header), Values(row)]
  {
    hide Split, Write, WellFormed, Values;
    ReadBack(TwoLines(header, row));
    KeptOfTwo(TwoLines(header, row).lines);
  }

  /** A header and a row of plain values, each ended by LF, as they are parsed. */
  lemma TwoLinesParse(header: seq<Cell>, row: seq<Cell>)
    requires header != [] && row != [] && WellFormedFile(TwoLines(header, row))
    requires forall c :: 0 <= c < |header| ==> IsPlain(header[c].value)
    requires forall c :: 0 <= c < |row| ==> IsPlain(row[c].value)
    requires WriteRow(header) != "" && !IsSpace(WriteRow(header)[0])
    ensures Parse(Write(TwoLines(header, row)))
         == Parsed(Table(Values(header), [Aligned(Values(row), |header|)], [2]))
  {
    hide *;
    BothHaveCells(header, row);
    TwoLinesSplit(header, row);
    TwoLinesWrite(header, row);
    PlainRecord(Values(header));
    PlainRecord(Values(row));
    var text := Write(TwoLines(header, row));
    assert text[0] == WriteRow(header)[0];
    TwoRecords(text, Values(header), Values(row));
  }

  lemma BothHaveCells(header: seq<Cell>, row: seq<Cell>)
    requires header != [] && row != []
    ensures HasCells(TwoLines(header, row))
  {
  }

  /** One quoted line break: the second record has the number two and starts on the third line. */
  lemma AQuotedBreakShiftsTheLines()
    ensures Parse("\"a\nb\"\nc\n") == Parsed(Table(["a\nb"], [["c"]], [2]))
    ensures LineBreaks("\"a\nb\"\n") + 1 == 3
  {
    hide Trim, Parse, Write, WriteRow, Decoded, LineBreaks, Split, WellFormedFile, DecodeCell;
    var header, row := [Quoted("", "a\nb")], [Bare("c")];
    ExamplesAreWellFormed();
    TextOfExample(header, row);
    assert Values(header) == ["a\nb"] && Values(row) == ["c"];
    TwoLinesParse(header, row);
    PlainDecodes("c");
    assert Aligned(["c"], 1) == ["c"];
    BreaksOfExample();
  }

  lemma TextOfExample(header: seq<Cell>, row: seq<Cell>)
    requires header == [Quoted("", "a\nb")] && row == [Bare("c")]
    ensures WriteRow(header) == "\"a\nb\""
    ensures Write(TwoLines(header, row)) == "\"a\nb\"\nc\n"
  {
    hide *;
    CellsOfExample(header, row);
    TwoLinesWrite(header, row);
    assert "\"a\nb\"" + "\n" == "\"a\nb\"\n";
    assert "c" + "\n" == "c\n";
    assert "\"a\nb\"\n" + "c\n" == "\"a\nb\"\nc\n";
  }

  lemma CellsOfExample(header: seq<Cell>, row: seq<Cell>)
    requires header == [Quoted("", "a\nb")] && row == [Bare("c")]
    ensures WriteRow(header) == "\"a\nb\"" && WriteRow(row) == "c"
  {
    hide Doubled;
    NothingToDouble("a\nb");
    assert WriteRow(header) == "" + "\"" + "a\nb" + "\"" == "\"a\nb\"";
  }

  lemma ExamplesAreWellFormed()
    ensures WellFormedFile(TwoLines([Quoted("", "a\nb")], [Bare("c")]))
    ensures WellFormedFile(TwoLines([Bare("a")], [Bare("1"), Bare("2")]))
  {
    hide Trim;
  }

  lemma BreaksOfExample()
    ensures LineBreaks("\"a\nb\"\n") == 2
  {
    assert "\"a\nb\"\n" == "\"a" + ("\n" + ("b\"" + "\n"));
    LineBreaksOfJoin("\"a", "\n" + ("b\"" + "\n"));
    LineBreaksOfJoin("\n", "b\"" + "\n");
    LineBreaksOfJoin("b\"", "\n");
    HeadBreaks('\n');
    NoBreaks("\"a");
    NoBreaks("b\"");
  }

  lemma {:induction false} NothingToDouble(value: string)
    requires '"' !in value
    ensures Doubled(value) == value
  {
    if value == "" {
    } else {
      NothingToDouble(value[1..]);
      assert [value[0]] + value[1..] == value;
    }
  }

  lemma KeptOfTwo(lines: seq<Line>)
    requires |lines| == 2 && !Swallows(lines, 0)
    ensures Kept(lines) == [Values(lines[0].cells), Values(lines[1].cells)]
  {
    hide Values;
    assert lines[1..] == [lines[1]] && [lines[1]][1..] == [];
    assert Kept(lines[1..]) == [Values(lines[1].cells)];
  }

  /** One cell more than the header: it is not in the row. */
  lemma AnOverlongRowIsCut()
    ensures Parse("a\n1,2\n") == Parsed(Table(["a"], [["1"]], [2]))
  {
    hide Trim, Parse, Write, WriteLines, Decoded, Split, WellFormedFile;
    ExamplesAreWellFormed();
    var header, row := [Bare("a")], [Bare("1"), Bare("2")];
    TwoLinesWrite(header, row);
    assert row[1..] == [Bare("2")];
    assert WriteRow(header) == "a" && WriteRow(row) == "1" + "," + "2";
    assert Values(header) == ["a"] && Values(row) == ["1", "2"];
    TwoLinesParse(header, row);
    assert Write(TwoLines(header, row)) == "a\n1,2\n";
    PlainDecodes("1");
    assert Aligned(["1", "2"], 1) == ["1"];
  }
}

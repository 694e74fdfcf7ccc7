/**
 * What the reader makes of written text: the reader inverts every way a file
 * may be written under section 2 of RFC 4180, and the two places where it does
 * not are characterised exactly.
 */
module CsvRoundTrip {
  import opened Seqs
  import opened Text
  import opened Csv

  // ------------------------------------------------------------------ the writer

  /** A cell as it may stand in a file: bare, or quoted with white space allowed ahead of the quote. */
  datatype Cell = Bare(value: string) | Quoted(pad: string, value: string)

  datatype Terminator = LF | CR | CRLF

  /** A row and the terminator that ends it. */
  datatype Line = Line(cells: seq<Cell>, end: Terminator)

  function Mark(t: Terminator): string {
    match t
    case LF => "\n"
    case CR => "\r"
    case CRLF => "\r\n"
  }

  function Doubled(value: string): string {
    if value == "" then ""
    else (if value[0] == '"' then "\"\"" else [value[0]]) + Doubled(value[1..])
  }

  function WriteCell(c: Cell): string {
    match c
    case Bare(value) => value
    case Quoted(pad, value) => pad + "\"" + Doubled(value) + "\""
  }

  function WriteRow(cells: seq<Cell>): string
    requires cells != []
  {
    if |cells| == 1 then WriteCell(cells[0]) else WriteCell(cells[0]) + "," + WriteRow(cells[1..])
  }

  function WriteLines(lines: seq<Line>): string
    requires forall k :: 0 <= k < |lines| ==> lines[k].cells != []
  {
    if lines == [] then ""
    else WriteRow(lines[0].cells) + Mark(lines[0].end) + WriteLines(lines[1..])
  }

  /** A whole file: terminated lines, then perhaps a last row without a terminator. */
  datatype File = File(lines: seq<Line>, last: seq<Cell>)

  predicate HasCells(f: File) {
    forall k :: 0 <= k < |f.lines| ==> f.lines[k].cells != []
  }

  function Write(f: File): string
    requires HasCells(f)
  {
    WriteLines(f.lines) + if f.last == [] then "" else WriteRow(f.last)
  }

  predicate Splits(c: char) {
    c == ',' || c == '\r' || c == '\n'
  }

  /** Nothing in `s` splits, and no quote in it opens a field when `field` is already read. */
  predicate Literal(field: string, s: string) {
    forall k :: 0 <= k < |s| ==> !Splits(s[k]) && (s[k] == '"' ==> Trim(field + s[..k]) != "")
  }

  /**
   * A bare cell may hold anything but a separator or a terminator, and even
   * quotes once something other than white space stands ahead of them.
   */
  predicate WellFormed(c: Cell) {
    match c
    case Bare(value) => Literal("", value)
    case Quoted(pad, _) => AllSpace(pad) && forall k :: 0 <= k < |pad| ==> !Splits(pad[k])
  }

  predicate AllWellFormed(cells: seq<Cell>) {
    forall k :: 0 <= k < |cells| ==> WellFormed(cells[k])
  }

  predicate WellFormedFile(f: File) {
    && HasCells(f)
    && (forall k :: 0 <= k < |f.lines| ==> AllWellFormed(f.lines[k].cells))
    && AllWellFormed(f.last)
  }

  function Values(cells: seq<Cell>): (r: Record)
    ensures |r| == |cells|
    ensures forall k :: 0 <= k < |cells| ==> r[k] == cells[k].value
  {
    if cells == [] then [] else [cells[0].value] + Values(cells[1..])
  }

  // ------------------------------------------------------- reading piece by piece

  /** A step that uses up `head` goes on with the rest. */
  lemma Take(r: Reader, head: string, rest: string)
    requires head != "" && Step(r, head + rest).1 == |head|
    ensures Run(r, head + rest) == Run(Step(r, head + rest).0, rest)
  {
    hide Trim;
    assert (head + rest)[|head|..] == rest;
  }

  lemma {:induction false} ReadLiteral(r: Reader, s: string, rest: string)
    requires !r.quoted && Literal(r.field, s)
    ensures Run(r, s + rest) == Run(r.(field := r.field + s), rest)
    decreases |s|
  {
    hide Trim;
    if s == "" {
      assert s + rest == rest && r.field + s == r.field;
    } else {
      assert s[..0] == "" && r.field + "" == r.field;
      assert s + rest == s[..1] + (s[1..] + rest);
      Take(r, s[..1], s[1..] + rest);
      var next := r.(field := r.field + [s[0]]);
      assert Literal(next.field, s[1..]) by {
        forall k | 0 <= k < |s| - 1 ensures next.field + s[1..][..k] == r.field + s[..k + 1] {
          assert s[..k + 1] == [s[0]] + s[1..][..k];
        }
      }
      ReadLiteral(next, s[1..], rest);
      Shift(r.field, s);
    }
  }

  lemma {:induction false} ReadQuoted(r: Reader, value: string, rest: string)
    requires r.quoted && (rest != "" ==> rest[0] != '"')
    ensures Run(r, Doubled(value) + "\"" + rest)
         == Run(r.(field := r.field + value, quoted := false), rest)
    decreases |value|
  {
    hide Trim, Run;
    if value == "" {
      assert Doubled(value) + "\"" + rest == "\"" + rest;
      Take(r, "\"", rest);
      assert r.field + value == r.field;
    } else {
      var head := if value[0] == '"' then "\"\"" else [value[0]];
      var tail := Doubled(value[1..]) + "\"" + rest;
      assert Doubled(value) + "\"" + rest == head + tail;
      var next := r.(field := r.field + [value[0]]);
      assert Step(r, head + tail) == (next, |head|);
      Take(r, head, tail);
      ReadQuoted(next, value[1..], rest);
      Shift(r.field, value);
    }
  }

  /** Reading one cell from the start of a field leaves exactly its value in the field. */
  lemma ReadCell(r: Reader, c: Cell, rest: string)
    requires !r.quoted && r.field == "" && WellFormed(c)
    requires rest != "" ==> Splits(rest[0])
    ensures Run(r, WriteCell(c) + rest) == Run(r.(field := c.value), rest)
  {
    hide Trim, Run;
    assert "" + c.value == c.value;
    match c {
      case Bare(value) =>
        ReadLiteral(r, value, rest);
      case Quoted(pad, value) =>
        hide Doubled, WriteCell;
        QuotedText(pad, value, rest);
        ReadPad(r, pad, Doubled(value) + "\"" + rest);
        ReadQuoted(r.(quoted := true), value, rest);
    }
  }

  lemma QuotedText(pad: string, value: string, rest: string)
    ensures WriteCell(Quoted(pad, value)) + rest == pad + ("\"" + (Doubled(value) + "\"" + rest))
  {
    hide Doubled;
  }

  /** White space and a quote open a quoted field. */
  lemma ReadPad(r: Reader, pad: string, text: string)
    requires !r.quoted && r.field == "" && AllSpace(pad) && forall k :: 0 <= k < |pad| ==> !Splits(pad[k])
    ensures Run(r, pad + ("\"" + text)) == Run(r.(quoted := true), text)
  {
    hide Trim, Run;
    ReadLiteral(r, pad, "\"" + text) by {
      assert forall k :: 0 <= k < |pad| ==> IsSpace(pad[k]);
    }
    assert "" + pad == pad;
    TrimProperty(pad);
    Take(r.(field := pad), "\"", text);
  }

  lemma TakeComma(r: Reader, rest: string)
    requires !r.quoted
    ensures Run(r, "," + rest) == Run(EndField(r), rest)
  {
    hide Trim;
    Take(r, ",", rest);
  }

  lemma TakeMark(r: Reader, t: Terminator, rest: string)
    requires !r.quoted
    ensures Run(r, Mark(t) + rest)
         == Run(EndRecord(r), if t == CR && rest != "" && rest[0] == '\n' then rest[1..] else rest)
  {
    hide Trim, Run, EndRecord;
    if t == CR && rest != "" && rest[0] == '\n' {
      assert Mark(t) + rest == Mark(CRLF) + rest[1..];
      Take(r, Mark(CRLF), rest[1..]);
    } else {
      Take(r, Mark(t), rest);
    }
  }

  /**
   * Reading a row leaves its values in the record, all but the last, which is
   * still in the field.
   */
  lemma {:induction false} ReadRow(r: Reader, cells: seq<Cell>, rest: string)
    returns (front: Record, back: string)
    requires !r.quoted && r.field == "" && cells != [] && AllWellFormed(cells)
    requires rest != "" ==> rest[0] == '\r' || rest[0] == '\n'
    ensures front + [back] == r.record + Values(cells)
    ensures Run(r, WriteRow(cells) + rest) == Run(r.(record := front, field := back), rest)
    decreases |cells|
  {
    hide Trim, Run, Step, WellFormed, WriteCell;
    var value, others := cells[0].value, cells[1..];
    if |cells| == 1 {
      assert Values(others) == [];
      ReadCell(r, cells[0], rest);
      front, back := r.record, value;
    } else {
      var tail := WriteRow(others) + rest;
      assert WriteRow(cells) + rest == WriteCell(cells[0]) + ("," + tail);
      ReadCell(r, cells[0], "," + tail);
      TakeComma(r.(field := value), tail);
      front, back := ReadRow(r.(record := r.record + [value]), others, rest);
      Shift(r.record, Values(cells));
    }
  }

  /** A row, its terminator, and what the terminator swallows. */
  lemma ReadLine(records: seq<Record>, line: Line, rest: string)
    requires line.cells != [] && AllWellFormed(line.cells)
    ensures Run(START.(records := records), WriteRow(line.cells) + Mark(line.end) + rest)
         == Run(START.(records := records + [Values(line.cells)]),
                if line.end == CR && rest != "" && rest[0] == '\n' then rest[1..] else rest)
  {
    hide Trim, Run, Step;
    var mark := Mark(line.end) + rest;
    assert WriteRow(line.cells) + Mark(line.end) + rest == WriteRow(line.cells) + mark;
    var start := START.(records := records);
    var front, back := ReadRow(start, line.cells, mark);
    assert [] + Values(line.cells) == Values(line.cells);
    TakeMark(start.(record := front, field := back), line.end, rest);
  }

  // ------------------------------------------------------------- reading the file

  /** The row that writes nothing at all: one bare, empty cell. */
  const NOTHING := [Bare("")]

  /** A bare CR ahead of an empty row that a bare LF ends: together they read as one CRLF. */
  predicate Swallows(lines: seq<Line>, i: nat) {
    i + 1 < |lines| && lines[i].end == CR && lines[i + 1] == Line(NOTHING, LF)
  }

  predicate NoneSwallowed(lines: seq<Line>) {
    forall i :: 0 <= i < |lines| ==> !Swallows(lines, i)
  }

  /** The rows the reader returns for the terminated lines of a file. */
  function Kept(lines: seq<Line>): seq<Record>
    decreases |lines|
  {
    if lines == [] then []
    else [Values(lines[0].cells)] + Kept(if Swallows(lines, 0) then lines[2..] else lines[1..])
  }

  function KeptLast(last: seq<Cell>): seq<Record> {
    if last == [] || Values(last) == [""] then [] else [Values(last)]
  }

  /** All the rows of a file, as they were written. */
  function Rows(f: File): (rows: seq<Record>)
    ensures |rows| == |f.lines| + if f.last == [] then 0 else 1
  {
    seq(|f.lines|, k requires 0 <= k < |f.lines| => Values(f.lines[k].cells))
      + if f.last == [] then [] else [Values(f.last)]
  }

  lemma WriteFirst(lines: seq<Line>, last: seq<Cell>)
    requires HasCells(File(lines, last)) && lines != []
    ensures HasCells(File(lines[1..], last))
    ensures Write(File(lines, last))
         == WriteRow(lines[0].cells) + Mark(lines[0].end) + Write(File(lines[1..], last))
  {
  }

  /** Only the empty row that a bare LF ends starts its text with LF. */
  lemma RowStartsWithLF(line: Line, rest: string)
    requires line.cells != [] && AllWellFormed(line.cells)
    ensures (WriteRow(line.cells) + Mark(line.end) + rest)[0] == '\n' <==> line == Line(NOTHING, LF)
  {
    var c := line.cells[0];
    assert WellFormed(c);
    if WriteCell(c) != "" {
      assert WriteCell(c)[0] != '\n';
      assert (WriteRow(line.cells) + Mark(line.end) + rest)[0] == WriteCell(c)[0];
    } else {
      assert c == Bare("");
      if |line.cells| == 1 {
        assert line.cells == [c];
      }
    }
  }

  lemma {:induction false} ReadLines(records: seq<Record>, lines: seq<Line>, last: seq<Cell>)
    requires WellFormedFile(File(lines, last))
    ensures Finish(Run(START.(records := records), Write(File(lines, last))))
         == records + Kept(lines) + KeptLast(last)
    decreases |lines|
  {
    hide Trim, Run, Step, Finish, Write, Mark, WriteRow;
    if lines == [] {
      ReadLast(records, last);
    } else {
      var line, others := lines[0], lines[1..];
      var rest := Write(File(others, last));
      WriteFirst(lines, last);
      ReadLine(records, line, rest);
      var read := records + [Values(line.cells)];
      RestStartsWithLF(others, last);
      if Swallows(lines, 0) {
        assert others[1..] == lines[2..];
        ReadLines(read, lines[2..], last);
      } else {
        ReadLines(read, others, last);
      }
      Shift(records, Kept(lines));
    }
  }

  /** The text of a file starts with LF only if its first row is the empty one that LF ends. */
  lemma RestStartsWithLF(lines: seq<Line>, last: seq<Cell>)
    requires WellFormedFile(File(lines, last))
    ensures var text := Write(File(lines, last));
      (text != "" && text[0] == '\n') <==> (lines != [] && lines[0] == Line(NOTHING, LF))
    ensures lines != [] && lines[0] == Line(NOTHING, LF) ==>
      Write(File(lines, last))[1..] == Write(File(lines[1..], last))
  {
    hide Trim;
    if lines == [] {
      LastStartsWithNoTerminator(last);
    } else {
      var rest := Write(File(lines[1..], last));
      WriteFirst(lines, last);
      RowStartsWithLF(lines[0], rest);
    }
  }

  lemma LastStartsWithNoTerminator(last: seq<Cell>)
    requires AllWellFormed(last)
    ensures Write(File([], last)) != "" ==> Write(File([], last))[0] != '\n'
  {
    if last != [] {
      var c := last[0];
      assert WellFormed(c);
      if WriteCell(c) != "" {
        assert WriteCell(c)[0] != '\n';
      }
    }
  }

  lemma ReadLast(records: seq<Record>, last: seq<Cell>)
    requires AllWellFormed(last)
    ensures Finish(Run(START.(records := records), Write(File([], last)))) == records + KeptLast(last)
  {
    hide Trim;
    var start := START.(records := records);
    if last == [] {
      assert Write(File([], last)) == "";
    } else {
      assert Write(File([], last)) == WriteRow(last) + "";
      var front, back := ReadRow(start, last, "");
      assert [] + Values(last) == Values(last);
      assert front == [] <==> |last| == 1;
    }
  }

  /** What the reader returns for any well-formed file, whatever terminators it mixes. */
  lemma ReadBack(f: File)
    requires WellFormedFile(f)
    ensures Split(Write(f)) == Kept(f.lines) + KeptLast(f.last)
  {
    ReadLines([], f.lines, f.last);
    assert START.(records := []) == START;
    assert [] + Kept(f.lines) == Kept(f.lines);
  }

  lemma {:induction false} KeptAreTheRows(lines: seq<Line>)
    ensures |Kept(lines)| <= |lines|
    ensures |Kept(lines)| == |lines| ==> NoneSwallowed(lines)
    ensures NoneSwallowed(lines) ==> Kept(lines) == Rows(File(lines, []))
    decreases |lines|
  {
    if lines == [] {
    } else {
      if Swallows(lines, 0) {
        KeptAreTheRows(lines[2..]);
      } else {
        KeptAreTheRows(lines[1..]);
        forall i | 0 <= i < |lines| - 1 ensures Swallows(lines[1..], i) == Swallows(lines, i + 1) {
        }
        assert NoneSwallowed(lines[1..]) ==> NoneSwallowed(lines) by {
          if NoneSwallowed(lines[1..]) {
            forall i | 0 <= i < |lines| ensures !Swallows(lines, i) {
              if i > 0 { assert !Swallows(lines[1..], i - 1); }
            }
          }
        }
        assert NoneSwallowed(lines) ==> NoneSwallowed(lines[1..]);
      }
    }
  }

  /**
   * Reading returns exactly the rows that were written, if and only if no bare
   * CR stands ahead of an empty LF-terminated row and the file does not end in
   * an unterminated row that is a single empty cell.
   */
  lemma ReadingInvertsWriting(f: File)
    requires WellFormedFile(f)
    ensures Split(Write(f)) == Rows(f) <==>
      NoneSwallowed(f.lines) && (f.last != [] ==> Values(f.last) != [""])
  {
    ReadBack(f);
    KeptAreTheRows(f.lines);
    assert Rows(f) == Rows(File(f.lines, [])) + if f.last == [] then [] else [Values(f.last)];
  }

  /** One terminator throughout: every row comes back, whichever terminator it is. */
  lemma OneTerminator(lines: seq<Line>, t: Terminator)
    requires WellFormedFile(File(lines, []))
    requires forall k :: 0 <= k < |lines| ==> lines[k].end == t
    ensures Split(Write(File(lines, []))) == Rows(File(lines, []))
  {
    ReadingInvertsWriting(File(lines, []));
  }

  /** Dropping the final terminator changes what is read only for a single empty cell. */
  lemma FinalTerminatorIsOptional(lines: seq<Line>, row: seq<Cell>, t: Terminator)
    requires WellFormedFile(File(lines, row)) && row != []
    requires forall k :: 0 <= k < |lines| ==> lines[k].end == t
    ensures Split(Write(File(lines + [Line(row, t)], []))) == Split(Write(File(lines, row)))
      <==> Values(row) != [""]
  {
    var closed := File(lines + [Line(row, t)], []);
    OneTerminator(closed.lines, t);
    ReadingInvertsWriting(File(lines, row));
    assert Rows(closed) == Rows(File(lines, row));
  }

  /** Two files that are misread: two empty rows that come back as one, and an empty row that does not. */
  lemma EmptyRowsAreLost()
    ensures Write(File([Line(NOTHING, CR), Line(NOTHING, LF)], [])) == "\r\n" && Split("\r\n") == [[""]]
    ensures Write(File([], NOTHING)) == "" && Split("") == []
  {
    hide *;
    TwoEmptyRows();
    ReadBack(File([Line(NOTHING, CR), Line(NOTHING, LF)], []));
    ReadBack(File([], NOTHING));
  }

  lemma TwoEmptyRows()
    ensures var f := File([Line(NOTHING, CR), Line(NOTHING, LF)], []);
      && WellFormedFile(f) && Write(f) == "\r\n" && Kept(f.lines) + KeptLast(f.last) == [[""]]
    ensures var f := File([], NOTHING);
      && WellFormedFile(f) && Write(f) == "" && Kept(f.lines) + KeptLast(f.last) == []
  {
    hide Trim;
    var first, second := Line(NOTHING, CR), Line(NOTHING, LF);
    assert [first, second][1..] == [second] && [second][1..] == [] && [first, second][2..] == [];
    assert WriteRow(NOTHING) == "" && Values(NOTHING) == [""];
    hide WriteRow, Values;
    assert WriteLines([second]) == "\n";
  }

  // ------------------------------------------------------------------ a quote left open

  /** A file that ends inside a quoted cell: terminated lines, whole cells, then a quote and what follows it. */
  function WriteOpen(lines: seq<Line>, front: seq<Cell>, pad: string, value: string): string
    requires HasCells(File(lines, []))
  {
    WriteLines(lines) + OpenRow(front, pad, value)
  }

  function OpenRow(front: seq<Cell>, pad: string, value: string): string {
    if front == [] then pad + ("\"" + Doubled(value)) else WriteRow(front) + ("," + (pad + ("\"" + Doubled(value))))
  }

  lemma {:induction false} ReadOpen(r: Reader, value: string)
    requires r.quoted
    ensures Run(r, Doubled(value)) == r.(field := r.field + value)
    decreases |value|
  {
    hide Trim, Run;
    if value == "" {
      assert r.field + value == r.field;
      NothingToRead(r);
    } else {
      var head := if value[0] == '"' then "\"\"" else [value[0]];
      var tail := Doubled(value[1..]);
      var next := r.(field := r.field + [value[0]]);
      assert Doubled(value) == head + tail;
      OpenStep(r, value[0], head, tail);
      Take(r, head, tail);
      ReadOpen(next, value[1..]);
      Shift(r.field, value);
    }
  }

  lemma NothingToRead(r: Reader)
    ensures Run(r, "") == r
  {
  }

  lemma OpenStep(r: Reader, c: char, head: string, tail: string)
    requires r.quoted && head == if c == '"' then "\"\"" else [c]
    ensures Step(r, head + tail) == (r.(field := r.field + [c]), |head|)
  {
    hide Trim;
    assert (head + tail)[0] == c;
  }

  lemma {:induction false} ReadFront(r: Reader, front: seq<Cell>, rest: string)
    requires !r.quoted && r.field == "" && front != [] && AllWellFormed(front)
    ensures Run(r, WriteRow(front) + ("," + rest)) == Run(r.(record := r.record + Values(front)), rest)
    decreases |front|
  {
    hide Trim, Run, Step, WellFormed, WriteCell;
    var value, others := front[0].value, front[1..];
    if |front| == 1 {
      assert Values(others) == [] && Values(front) == [value];
      ReadCell(r, front[0], "," + rest);
      TakeComma(r.(field := value), rest);
    } else {
      var tail := WriteRow(others) + ("," + rest);
      assert WriteRow(front) + ("," + rest) == WriteCell(front[0]) + ("," + tail);
      ReadCell(r, front[0], "," + tail);
      TakeComma(r.(field := value), tail);
      ReadFront(r.(record := r.record + [value]), others, rest);
      Shift(r.record, Values(front));
    }
  }

  /** Lines, and then text that a CR at their end does not swallow the start of. */
  lemma {:induction false} ReadLinesThen(records: seq<Record>, lines: seq<Line>, rest: string)
    requires WellFormedFile(File(lines, [])) && (rest != "" ==> rest[0] != '\n')
    ensures Run(START.(records := records), WriteLines(lines) + rest)
         == Run(START.(records := records + Kept(lines)), rest)
    decreases |lines|
  {
    hide Trim, Run, Step, Mark, WriteRow;
    if lines == [] {
      assert WriteLines(lines) + rest == rest && records + Kept(lines) == records;
    } else {
      var line, others := lines[0], lines[1..];
      var tail := WriteLines(others) + rest;
      LinesThen(lines, rest);
      ReadLine(records, line, tail);
      TailStartsWithLF(others, rest);
      var read := records + [Values(line.cells)];
      if Swallows(lines, 0) {
        assert others[1..] == lines[2..];
        ReadLinesThen(read, lines[2..], rest);
      } else {
        ReadLinesThen(read, others, rest);
      }
      Shift(records, Kept(lines));
    }
  }

  lemma LinesThen(lines: seq<Line>, rest: string)
    requires HasCells(File(lines, [])) && lines != []
    ensures WriteLines(lines) + rest
         == WriteRow(lines[0].cells) + Mark(lines[0].end) + (WriteLines(lines[1..]) + rest)
  {
    hide Mark, WriteRow;
  }

  lemma TailStartsWithLF(lines: seq<Line>, rest: string)
    requires WellFormedFile(File(lines, [])) && (rest != "" ==> rest[0] != '\n')
    ensures var tail := WriteLines(lines) + rest;
      && ((tail != "" && tail[0] == '\n') <==> (lines != [] && lines[0] == Line(NOTHING, LF)))
      && (lines != [] && lines[0] == Line(NOTHING, LF) ==> tail[1..] == WriteLines(lines[1..]) + rest)
  {
    hide Trim;
    if lines == [] {
      assert WriteLines(lines) + rest == rest;
    } else {
      LinesThen(lines, rest);
      RowStartsWithLF(lines[0], WriteLines(lines[1..]) + rest);
    }
  }

  lemma OpenStartsWithNoTerminator(front: seq<Cell>, pad: string, value: string)
    requires AllWellFormed(front) && WellFormed(Quoted(pad, value))
    ensures OpenRow(front, pad, value) != "" && OpenRow(front, pad, value)[0] != '\n'
  {
    hide Doubled, Trim;
    if front == [] {
      assert pad != "" ==> !Splits(pad[0]);
    } else {
      assert WellFormed(front[0]);
      LastStartsWithNoTerminator(front);
      assert Write(File([], front)) == "" + WriteRow(front) == WriteRow(front);
    }
  }

  lemma ReadOpenRow(records: seq<Record>, front: seq<Cell>, pad: string, value: string)
    requires AllWellFormed(front) && WellFormed(Quoted(pad, value))
    ensures Run(START.(records := records), OpenRow(front, pad, value))
         == Reader(records, Values(front), value, true)
  {
    hide Trim, Run, Doubled, WriteRow;
    var start := START.(records := records);
    var open := start.(record := Values(front));
    assert [] + Values(front) == Values(front) && "" + value == value;
    if front != [] {
      ReadFront(start, front, pad + ("\"" + Doubled(value)));
    }
    ReadPad(open, pad, Doubled(value));
    ReadOpen(open.(quoted := true), value);
  }

  /**
   * A quote that is never closed takes the rest of the file into its cell: what
   * stands before comes back as it would, and the last row ends in that cell. Only
   * an empty one that is alone on its row leaves nothing.
   */
  lemma AQuoteLeftOpen(lines: seq<Line>, front: seq<Cell>, pad: string, value: string)
    requires WellFormedFile(File(lines, [])) && AllWellFormed(front) && WellFormed(Quoted(pad, value))
    ensures Split(WriteOpen(lines, front, pad, value))
         == Kept(lines) + if front == [] && value == "" then [] else [Values(front) + [value]]
  {
    hide Trim, Run, WriteLines, OpenRow, Kept, Values;
    OpenStartsWithNoTerminator(front, pad, value);
    ReadLinesThen([], lines, OpenRow(front, pad, value));
    ReadOpenRow(Kept(lines), front, pad, value);
    assert START.(records := []) == START && [] + Kept(lines) == Kept(lines);
  }
}

/**
 * The CSV reader: a one-pass state machine over the text, and the table parser
 * built on it.
 */
module Csv {
  import opened Text

  // ---------------------------------------------------------------- splitRecords

  type Record = seq<string>

  /** The four variables the reader's loop carries. */
  datatype Reader = Reader(records: seq<Record>, record: Record, field: string, quoted: bool)

  const START := Reader([], [], "", false)

  function EndField(r: Reader): Reader {
    r.(record := r.record + [r.field], field := "")
  }

  function EndRecord(r: Reader): Reader {
    var e := EndField(r);
    e.(records := e.records + [e.record], record := [])
  }

  /** One turn of the loop: the new state, and how many characters it used. */
  function Step(r: Reader, text: string): (s: (Reader, nat))
    requires text != ""
    ensures 1 <= s.1 <= |text|
  {
    var ch := text[0];
    if r.quoted then
      if ch != '"' then (r.(field := r.field + [ch]), 1)
      else if |text| > 1 && text[1] == '"' then (r.(field := r.field + "\""), 2)
      else (r.(quoted := false), 1)
    else if ch == '"' && Trim(r.field) == "" then (r.(field := "", quoted := true), 1)
    else if ch == ',' then (EndField(r), 1)
    else if ch == '\r' then (EndRecord(r), if |text| > 1 && text[1] == '\n' then 2 else 1)
    else if ch == '\n' then (EndRecord(r), 1)
    else (r.(field := r.field + [ch]), 1)
  }

  function Run(r: Reader, text: string): Reader
    decreases |text|
  {
    if text == "" then r
    else
      var (next, used) := Step(r, text);
      Run(next, text[used..])
  }

  /** A record that the text ended in the middle of is still a record. */
  function Finish(r: Reader): seq<Record> {
    if r.field != "" || r.record != [] then EndRecord(r).records else r.records
  }

  function Split(text: string): seq<Record> {
    Finish(Run(START, text))
  }

  method SplitRecords(text: string) returns (records: seq<Record>)
    ensures records == Split(text)
  {
    records := [];
    var field, record: Record, quoted := "", [], false;
    var i := 0;
    while i < |text|
      invariant 0 <= i <= |text|
      invariant Run(Reader(records, record, field, quoted), text[i..]) == Run(START, text)
    {
      ghost var before := Reader(records, record, field, quoted);
      ghost var rest := text[i..];
      var ch := text[i];
      if quoted {
        if ch != '"' {
          field := field + [ch];
        } else if i + 1 < |text| && text[i + 1] == '"' {
          field := field + "\"";
          i := i + 1;
        } else {
          quoted := false;
        }
      } else if ch == '"' && Trim(field) == "" {
        field := "";
        quoted := true;
      } else if ch == ',' {
        record, field := record + [field], "";
      } else if ch == '\r' {
        if i + 1 < |text| && text[i + 1] == '\n' {
          i := i + 1;
        }
        records, record, field := records + [record + [field]], [], "";
      } else if ch == '\n' {
        records, record, field := records + [record + [field]], [], "";
      } else {
        field := field + [ch];
      }
      i := i + 1;
      assert text[i..] == rest[Step(before, rest).1..];
    }
    if field != "" || |record| > 0 {
      records := records + [record + [field]];
    }
  }

  // ------------------------------------------------------------------ decodeCell

  const FORMULA_STARTS: seq<char> := ['=', '+', '-', '@', '\t', '\r']

  /** First characters a spreadsheet would take for the start of a formula. */
  predicate IsDangerous(c: char) {
    c == '=' || c == '+' || c == '-' || c == '@' || c == '\t' || c == '\r'
  }

  predicate IsGuarded(raw: string) {
    |raw| >= 2 && raw[0] == '\'' && IsDangerous(raw[1])
  }

  function DecodeCell(raw: string): string {
    Trim(if IsGuarded(raw) then raw[1..] else raw)
  }

  /** What `csvCell` does to a string before quoting it. */
  function Guard(value: string): string {
    if value != "" && IsDangerous(value[0]) then "'" + value else value
  }

  /**
   * Decoding undoes guarding, up to surrounding white space, for exactly the
   * values that do not look guarded to begin with.
   */
  lemma DecodeInvertsGuard(value: string)
    ensures DecodeCell(Guard(value)) == Trim(value) <==> !IsGuarded(value)
    ensures IsGuarded(value) <==> |value| >= 2 && value[0] == '\'' && value[1] in FORMULA_STARTS
    ensures Guard(value) != value <==> value != "" && value[0] in FORMULA_STARTS
  {
    if value != "" && IsDangerous(value[0]) {
      assert Guard(value)[1..] == value;
    } else if IsGuarded(value) {
      TrimOfTail(value);
    }
  }

  /** A value that looks guarded loses its apostrophe. */
  lemma AGuardedLookingValue()
    ensures DecodeCell(Guard("'=1")) == "=1"
  {
    TrimOfTight("=1");
    assert "'=1"[1..] == "=1";
  }

  // -------------------------------------------------------------------- parseCsv

  datatype Table = Table(headers: seq<string>, rows: seq<seq<string>>, rowNumbers: seq<nat>)

  datatype Refusal = EmptyFile | NoHeaderRow | BlankHeaderRow | NoDataRows

  datatype ParseResult = Parsed(table: Table) | Refused(reason: Refusal)

  predicate IsBlank(record: Record) {
    forall c :: 0 <= c < |record| ==> Trim(record[c]) == ""
  }

  /** The record's cells under the headers: short records padded, long ones cut. */
  function Aligned(record: Record, width: nat): (row: seq<string>)
    ensures |row| == width
  {
    seq(width, c requires 0 <= c => if c < |record| then DecodeCell(record[c]) else DecodeCell(""))
  }

  function WithoutBom(text: string): string {
    if text != "" && text[0] == '\U{FEFF}' then text[1..] else text
  }

  /** Which records are blank. */
  function Blanks(records: seq<Record>): (b: seq<bool>)
    ensures |b| == |records|
    ensures forall k :: 0 <= k < |b| ==> b[k] == IsBlank(records[k])
  {
    seq(|records|, k requires 0 <= k < |records| => IsBlank(records[k]))
  }

  /** The first record from `from` on that is not blank, or the number of records. */
  function HeaderIndex(blank: seq<bool>, from: nat := 0): (h: nat)
    requires from <= |blank|
    ensures from <= h <= |blank|
    ensures forall k :: from <= k < h ==> blank[k]
    ensures h < |blank| ==> !blank[h]
    decreases |blank| - from
  {
    if from == |blank| || !blank[from] then from else HeaderIndex(blank, from + 1)
  }

  /** The numbers, counted from one, of the records in `from..end` that are not blank. */
  function DataNumbers(blank: seq<bool>, from: nat, end: nat): (ns: seq<nat>)
    requires from <= end <= |blank|
    ensures forall k :: 0 <= k < |ns| ==> from < ns[k] <= end
    decreases end
  {
    if from == end then []
    else DataNumbers(blank, from, end - 1) + if blank[end - 1] then [] else [end]
  }

  /** They are all of them, each once and in order. */
  lemma {:induction false} DataNumbersAreTheDataRows(blank: seq<bool>, from: nat, end: nat, ns: seq<nat>)
    requires from <= end <= |blank|
    requires ns == DataNumbers(blank, from, end)
    ensures forall i, j :: 0 <= i < j < |ns| ==> ns[i] < ns[j]
    ensures forall k :: 0 <= k < |ns| ==> !blank[ns[k] - 1]
    ensures forall n :: from < n <= end && !blank[n - 1] ==> n in ns
  {
    if from < end {
      DataNumbersAreTheDataRows(blank, from, end - 1, DataNumbers(blank, from, end - 1));
    }
  }

  function RowsOf(records: seq<Record>, numbers: seq<nat>, width: nat): (rows: seq<seq<string>>)
    requires forall k :: 0 <= k < |numbers| ==> 0 < numbers[k] <= |records|
    ensures |rows| == |numbers|
    ensures forall k :: 0 <= k < |rows| ==> rows[k] == Aligned(records[numbers[k] - 1], width)
  {
    seq(|numbers|, k requires 0 <= k < |numbers| => Aligned(records[numbers[k] - 1], width))
  }

  /** `record.map(decodeCell)` */
  function Decoded(record: Record): seq<string> {
    Aligned(record, |record|)
  }

  predicate AllEmpty(cells: seq<string>) {
    forall c :: 0 <= c < |cells| ==> cells[c] == ""
  }

  function Parse(text: string): ParseResult {
    var body := WithoutBom(text);
    if Trim(body) == "" then Refused(EmptyFile)
    else
      var records := Split(body);
      var blank := Blanks(records);
      var h := HeaderIndex(blank);
      if h == |records| then Refused(NoHeaderRow)
      else if AllEmpty(Decoded(records[h])) then Refused(BlankHeaderRow)
      else
        var numbers := DataNumbers(blank, h + 1, |records|);
        if numbers == [] then Refused(NoDataRows)
        else Parsed(Table(Decoded(records[h]), RowsOf(records, numbers, |records[h]|), numbers))
  }

  method FindHeader(records: seq<Record>) returns (h: nat)
    ensures h == HeaderIndex(Blanks(records))
  {
    ghost var blank := Blanks(records);
    h := 0;
    while h < |records|
      invariant h <= |records|
      invariant HeaderIndex(blank) == HeaderIndex(blank, h)
    {
      var b := IsBlank(records[h]);
      assert b == blank[h];
      if !b { return; }
      h := h + 1;
    }
  }

  /** The rows and numbers of the data among the records from `from` to `i`. */
  ghost predicate ReadSoFar(
      records: seq<Record>, from: nat, i: nat, width: nat, rows: seq<seq<string>>, numbers: seq<nat>)
  {
    && from <= i <= |records|
    && numbers == DataNumbers(Blanks(records), from, i)
    && rows == RowsOf(records, numbers, width)
  }

  lemma NothingRead(records: seq<Record>, from: nat, width: nat)
    requires from <= |records|
    ensures ReadSoFar(records, from, from, width, [], [])
  {
  }

  lemma ReadOneMore(
      records: seq<Record>, from: nat, i: nat, width: nat, rows: seq<seq<string>>, numbers: seq<nat>)
    requires i < |records| && ReadSoFar(records, from, i, width, rows, numbers)
    ensures if IsBlank(records[i]) then ReadSoFar(records, from, i + 1, width, rows, numbers)
            else ReadSoFar(records, from, i + 1, width, rows + [Aligned(records[i], width)], numbers + [i + 1])
  {
    hide Aligned, IsBlank;
  }

  method ReadDataRows(records: seq<Record>, from: nat, width: nat)
    returns (rows: seq<seq<string>>, numbers: seq<nat>)
    requires from <= |records|
    ensures numbers == DataNumbers(Blanks(records), from, |records|)
    ensures rows == RowsOf(records, numbers, width)
  {
    hide Trim, IsBlank, Aligned, ReadSoFar;
    rows, numbers := [], [];
    NothingRead(records, from, width);
    for i := from to |records|
      invariant ReadSoFar(records, from, i, width, rows, numbers)
    {
      ReadOneMore(records, from, i, width, rows, numbers);
      if !IsBlank(records[i]) {
        rows := rows + [Aligned(records[i], width)];
        numbers := numbers + [i + 1];
      }
    }
    WhatWasRead(records, from, width, rows, numbers);
  }

  lemma WhatWasRead(records: seq<Record>, from: nat, width: nat, rows: seq<seq<string>>, numbers: seq<nat>)
    requires ReadSoFar(records, from, |records|, width, rows, numbers)
    ensures from <= |records| && numbers == DataNumbers(Blanks(records), from, |records|)
    ensures rows == RowsOf(records, numbers, width)
  {
  }

  method ParseCsv(text: string) returns (result: ParseResult)
    ensures result == Parse(text)
  {
    hide Trim, Split, IsBlank, Blanks, HeaderIndex, DataNumbers, RowsOf, Aligned, AllEmpty;
    var body := if text != "" && text[0] == '\U{FEFF}' then text[1..] else text;
    if Trim(body) == "" { return Refused(EmptyFile); }

    var records := SplitRecords(body);
    var h := FindHeader(records);
    if h == |records| { return Refused(NoHeaderRow); }

    var headers := Decoded(records[h]);
    if AllEmpty(headers) { return Refused(BlankHeaderRow); }

    var rows, numbers := ReadDataRows(records, h + 1, |headers|);
    if |rows| == 0 { return Refused(NoDataRows); }
    return Parsed(Table(headers, rows, numbers));
  }

  // ----------------------------------------------------------------- what is refused

  /** The first record that is not blank. */
  predicate IsHeader(records: seq<Record>, h: nat) {
    h < |records| && !IsBlank(records[h]) && forall k :: 0 <= k < h ==> IsBlank(records[k])
  }

  predicate SaysSomething(record: Record) {
    exists c :: 0 <= c < |record| && DecodeCell(record[c]) != ""
  }

  predicate HasDataAfter(records: seq<Record>, h: nat) {
    exists k :: h < k < |records| && !IsBlank(records[k])
  }

  predicate AllBlank(records: seq<Record>) {
    forall k :: 0 <= k < |records| ==> IsBlank(records[k])
  }

  ghost predicate HasBlankHeader(records: seq<Record>) {
    exists h: nat :: IsHeader(records, h) && !SaysSomething(records[h])
  }

  ghost predicate HasHeaderOnly(records: seq<Record>) {
    exists h: nat :: IsHeader(records, h) && SaysSomething(records[h]) && !HasDataAfter(records, h)
  }

  ghost predicate HasHeaderAndData(records: seq<Record>) {
    exists h: nat :: IsHeader(records, h) && SaysSomething(records[h]) && HasDataAfter(records, h)
  }

  /** Each refusal, and acceptance, by what the text and its records hold. */
  lemma WhenRefused(text: string, body: string, records: seq<Record>)
    requires body == WithoutBom(text) && records == Split(body)
    ensures Parse(text) == Refused(EmptyFile) <==> AllSpace(body)
    ensures Parse(text) == Refused(NoHeaderRow) <==> !AllSpace(body) && AllBlank(records)
    ensures Parse(text) == Refused(BlankHeaderRow) <==> !AllSpace(body) && HasBlankHeader(records)
    ensures Parse(text) == Refused(NoDataRows) <==> !AllSpace(body) && HasHeaderOnly(records)
    ensures Parse(text).Parsed? <==> !AllSpace(body) && HasHeaderAndData(records)
  {
    hide Trim, Split, IsBlank, DecodeCell, AllSpace, HasDataAfter, SaysSomething, AllEmpty, DataNumbers, RowsOf,
         Decoded, Blanks, HeaderIndex, IsHeader, HasBlankHeader, HasHeaderOnly, HasHeaderAndData, AllBlank;
    TrimProperty(body);
    var h := HeaderIndex(Blanks(records));
    TheHeader(records, h);
    if h < |records| {
      HeaderSays(records[h]);
      NumbersAreData(records, h);
    }
  }

  /** The header is the first record that is not blank, so what is said of some header is said of it. */
  lemma TheHeader(records: seq<Record>, h: nat)
    requires h == HeaderIndex(Blanks(records))
    ensures h == |records| <==> AllBlank(records)
    ensures HasBlankHeader(records) <==> h < |records| && !SaysSomething(records[h])
    ensures HasHeaderOnly(records) <==> h < |records| && SaysSomething(records[h]) && !HasDataAfter(records, h)
    ensures HasHeaderAndData(records) <==> h < |records| && SaysSomething(records[h]) && HasDataAfter(records, h)
  {
    hide IsBlank, SaysSomething, HasDataAfter;
    var blank := Blanks(records);
    forall k: nat | IsHeader(records, k) ensures k == h {
      assert !blank[k];
    }
    if h < |records| {
      assert IsHeader(records, h);
    }
  }

  lemma HeaderSays(record: Record)
    ensures AllEmpty(Decoded(record)) <==> !SaysSomething(record)
  {
    hide DecodeCell;
    assert forall c :: 0 <= c < |record| ==> Decoded(record)[c] == DecodeCell(record[c]);
  }

  lemma NumbersAreData(records: seq<Record>, h: nat)
    requires h < |records|
    ensures DataNumbers(Blanks(records), h + 1, |records|) == [] <==> !HasDataAfter(records, h)
  {
    hide IsBlank;
    var blank := Blanks(records);
    var numbers := DataNumbers(blank, h + 1, |records|);
    DataNumbersAreTheDataRows(blank, h + 1, |records|, numbers);
    forall k | h < k < |records| && !IsBlank(records[k]) ensures numbers != [] {
      assert !blank[(k + 1) - 1];
      assert k + 1 in numbers;
    }
    if numbers != [] {
      assert !blank[numbers[0] - 1];
      assert h < numbers[0] - 1 < |records| && !IsBlank(records[numbers[0] - 1]);
    }
  }

  // ---------------------------------------------------------------- what a table holds

  /** The number, counted from one, of a record after the header that is not blank. */
  predicate IsData(records: seq<Record>, h: nat, n: nat) {
    h + 1 < n <= |records| && !IsBlank(records[n - 1])
  }

  /** A row's cell under the `c`-th header: the record's own, decoded, or nothing if it is too short. */
  predicate HoldsCell(row: seq<string>, record: Record, c: nat)
    requires c < |row|
  {
    row[c] == if c < |record| then DecodeCell(record[c]) else ""
  }

  /**
   * A table's headers are the cells of the first record that is not blank, decoded;
   * its rows those of the other records that are not, each under its own number, all
   * of them and in order, cell by cell under the headers.
   */
  lemma TableMeans(text: string, records: seq<Record>, h: nat)
    requires records == Split(WithoutBom(text)) && IsHeader(records, h) && Parse(text).Parsed?
    ensures var t := Parse(text).table;
      && |t.headers| == |records[h]|
      && (forall c :: 0 <= c < |t.headers| ==> HoldsCell(t.headers, records[h], c))
      && |t.rows| == |t.rowNumbers|
      && (forall i, j :: 0 <= i < j < |t.rowNumbers| ==> t.rowNumbers[i] < t.rowNumbers[j])
      && (forall n :: n in t.rowNumbers <==> IsData(records, h, n))
      && (forall k :: 0 <= k < |t.rows| ==> IsRowOf(t.rows[k], records[t.rowNumbers[k] - 1], |t.headers|))
  {
    hide Trim, Split, IsBlank, HeaderIndex, DataNumbers, AllEmpty, DecodeCell;
    var blank := Blanks(records);
    HeaderIsFirst(records, h);
    DataNumbersAreTheDataRows(blank, h + 1, |records|, DataNumbers(blank, h + 1, |records|));
    forall n ensures n in DataNumbers(blank, h + 1, |records|) <==> IsData(records, h, n) {
      InNumbers(records, h, n);
    }
    NothingDecoded();
  }

  /** Every cell of the row under the headers is the record's. */
  predicate IsRowOf(row: seq<string>, record: Record, width: nat) {
    |row| == width && forall c :: 0 <= c < width ==> HoldsCell(row, record, c)
  }

  lemma NothingDecoded()
    ensures DecodeCell("") == ""
  {
  }

  lemma HeaderIsFirst(records: seq<Record>, h: nat)
    requires IsHeader(records, h)
    ensures HeaderIndex(Blanks(records)) == h
  {
    hide IsBlank;
    var blank := Blanks(records);
    assert forall k :: 0 <= k < h ==> blank[k];
    assert !blank[h];
  }

  lemma InNumbers(records: seq<Record>, h: nat, n: nat)
    requires h < |records|
    ensures n in DataNumbers(Blanks(records), h + 1, |records|) <==> IsData(records, h, n)
  {
    hide IsBlank;
    var blank := Blanks(records);
    var numbers := DataNumbers(blank, h + 1, |records|);
    DataNumbersAreTheDataRows(blank, h + 1, |records|, numbers);
  }
}

/**
 * Lengths of time as text: the parser of src/domain/worklog-hours.ts, and the
 * printers of src/app/_lib/format.ts and src/domain/worklog-report.ts.
 */
module Durations {
  import opened Options
  import opened Text
  import opened Digits
  import opened Hours

  // ------------------------------------------------------------------------ the parser

  /** How many digits a text starts with. */
  function Run(s: string): (n: nat)
    ensures n <= |s| && AllDigits(s[..n])
    ensures n < |s| ==> !IsDigit(s[n])
  {
    if s != "" && IsDigit(s[0]) then 1 + Run(s[1..]) else 0
  }

  function AfterSpace(s: string): string {
    s[SkipSpace(s)..]
  }

  /** A value and the text after it. */
  datatype Read<T> = Read(value: T, rest: string)

  /** `\d+` */
  function ReadInt(s: string): Option<Read<nat>> {
    var n := Run(s);
    if n == 0 then None else Some(Read(Num(s[..n]), s[n..]))
  }

  /** `\d+(?:\.\d+)?` */
  function ReadDecimal(s: string): Option<Read<real>> {
    var n := Run(s);
    if n == 0 then None
    else
      var whole, rest := Num(s[..n]) as real, s[n..];
      if rest == "" || rest[0] != '.' || Run(rest[1..]) == 0 then Some(Read(whole, rest))
      else
        var tail := rest[1..];
        var k := Run(tail);
        Some(Read(whole + Num(tail[..k]) as real / Pow10(k) as real, tail[k..]))
  }

  /** `/^(\d+(?:\.\d+)?)$/` */
  function Bare(s: string): Option<real> {
    var d := ReadDecimal(s);
    if d.Some? && d.value.rest == "" then Some(d.value.value) else None
  }

  /** `/^(\d+)\s*(?:m|min|mins|minute|minutes)$/` */
  function MinutesOnly(s: string): Option<nat> {
    var d := ReadInt(s);
    if d.Some? && IsMinuteWord(AfterSpace(d.value.rest)) then Some(d.value.value) else None
  }

  predicate IsMinuteWord(s: string) {
    s == "m" || s == "min" || s == "mins" || s == "minute" || s == "minutes"
  }

  /** `/^(\d+)\s*(?::|h)\s*(\d{1,2})\s*(?:m|min|mins)?$/` */
  function Split(s: string): Option<(nat, nat)> {
    var h := ReadInt(s);
    if h.None? then None
    else
      var rest := AfterSpace(h.value.rest);
      if rest == "" || (rest[0] != ':' && rest[0] != 'h') then None
      else
        var tail := AfterSpace(rest[1..]);
        var m := ReadInt(tail);
        if m.None? || Run(tail) > 2 || !IsMinuteSuffix(AfterSpace(m.value.rest)) then None
        else Some((h.value.value, m.value.value))
  }

  predicate IsMinuteSuffix(s: string) {
    s == "" || s == "m" || s == "min" || s == "mins"
  }

  /** `/^(\d+(?:\.\d+)?)\s*(?:h|hr|hrs|hour|hours)?$/` */
  function Whole(s: string): Option<real> {
    var d := ReadDecimal(s);
    if d.Some? && IsHourWord(AfterSpace(d.value.rest)) then Some(d.value.value) else None
  }

  predicate IsHourWord(s: string) {
    s == "" || s == "h" || s == "hr" || s == "hrs" || s == "hour" || s == "hours"
  }

  /** `\b` after a letter. */
  predicate WordEnds(s: string) {
    s == "" || !(IsDigit(s[0]) || 'a' <= s[0] <= 'z' || IsUpper(s[0]) || s[0] == '_')
  }

  /** `h\b|hr|hrs|hour|hours` */
  predicate HourUnit(s: string) {
    ("h" <= s && WordEnds(s[1..])) || "hr" <= s || "hrs" <= s || "hour" <= s || "hours" <= s
  }

  /** `m\b|min|mins|minute|minutes` */
  predicate MinuteUnit(s: string) {
    ("m" <= s && WordEnds(s[1..])) || "min" <= s || "mins" <= s || "minute" <= s || "minutes" <= s
  }

  function HourHere(s: string): Option<real> {
    var d := ReadDecimal(s);
    if d.Some? && HourUnit(AfterSpace(d.value.rest)) then Some(d.value.value) else None
  }

  function MinuteHere(s: string): Option<nat> {
    var d := ReadInt(s);
    if d.Some? && MinuteUnit(AfterSpace(d.value.rest)) then Some(d.value.value) else None
  }

  /** The leftmost hours in a sentence. */
  function FindHour(s: string): Option<real> {
    if s == "" || HourHere(s).Some? then HourHere(s) else FindHour(s[1..])
  }

  function FindMinute(s: string): Option<nat> {
    if s == "" || MinuteHere(s).Some? then MinuteHere(s) else FindMinute(s[1..])
  }

  /** `toMinutes` */
  function TotalMinutes(hours: real, minutes: nat): int {
    Round(hours * 60.0) + minutes
  }

  /** Time written as a sentence. */
  function Sentence(s: string): Option<int> {
    var h, m := FindHour(s), FindMinute(s);
    if h.None? && m.None? then None
    else if h.Some? && m.Some? && m.value > 59 then None
    else
      var total := TotalMinutes(if h.Some? then h.value else 0.0, if m.Some? then m.value else 0);
      if total > 0 then Some(total) else None
  }

  /** What is left of `parseWorkingMinutes` once the text is trimmed and in lower case. */
  function ParseTidy(text: string): Option<int> {
    if text == "" then None
    else if Bare(text).Some? && Bare(text).value > 12.0 then None
    else if MinutesOnly(text).Some? then
      var m := MinutesOnly(text).value;
      if m > 0 then Some(m) else None
    else if Split(text).Some? then
      var (h, m) := Split(text).value;
      if m > 59 then None else Some(TotalMinutes(h as real, m))
    else if Whole(text).Some? then Some(TotalMinutes(Whole(text).value, 0))
    else Sentence(text)
  }

  /** `parseWorkingMinutes` */
  function ParseWorkingMinutes(raw: string): Option<int> {
    ParseTidy(Lower(Trim(raw)))
  }

  // ---------------------------------------------------------------------- the printers

  /** `padStart(2, "0")` of a number. */
  function TwoDigits(n: nat): string {
    if |Dec(n)| < 2 then "0" + Dec(n) else Dec(n)
  }

  function Padded(total: nat): string {
    TwoDigits(total / 60) + ("h " + (TwoDigits(total % 60) + "m"))
  }

  /** `formatMinutes` */
  function FormatMinutes(minutes: Option<real>): string {
    if minutes.None? then "\U{2014}"
    else
      var total := Round(minutes.value);
      if total < 0 then "-" + Padded(-total) else Padded(total)
  }

  /** `formatHours` */
  function FormatHours(hours: Option<real>): string {
    if hours.None? then "\U{2014}" else FormatMinutes(Some(hours.value * 60.0))
  }

  function AtLeastZero(n: int): nat {
    if n < 0 then 0 else n
  }

  /** `workingHours` */
  function WorkingHours(minutes: real): string {
    Padded(AtLeastZero(Round(minutes)))
  }

  /** `compactDuration` */
  function CompactDuration(minutes: real): string {
    var total := AtLeastZero(Round(minutes));
    var hours, rest := total / 60, total % 60;
    if hours == 0 then Dec(rest) + "m"
    else if rest == 0 then Dec(hours) + "h"
    else Dec(hours) + ("h " + (Dec(rest) + "m"))
  }

  // ------------------------------------------------------------------ reading pieces back

  /** Text the parser leaves as it is: no capitals, no space at either end. */
  predicate IsTidy(s: string) {
    && (forall i :: 0 <= i < |s| ==> !IsUpper(s[i]))
    && (s != "" ==> !IsSpace(s[0]) && !IsSpace(s[|s| - 1]))
  }

  lemma LowerIsSame(s: string)
    requires forall i :: 0 <= i < |s| ==> !IsUpper(s[i])
    ensures Lower(s) == s
  {
    hide Lower;
  }

  lemma TidyParses(s: string)
    requires IsTidy(s)
    ensures ParseWorkingMinutes(s) == ParseTidy(s)
  {
    hide Lower, Trim, ParseTidy;
    TrimOfTight(s);
    LowerIsSame(s);
  }

  /** The text after a run of digits does not go on with one. */
  predicate Stops(rest: string) {
    rest == "" || !IsDigit(rest[0])
  }

  lemma {:induction false} RunOf(d: string, rest: string)
    requires AllDigits(d) && Stops(rest)
    ensures Run(d + rest) == |d|
    decreases |d|
  {
    if d == "" {
      assert d + rest == rest;
    } else {
      assert (d + rest)[1..] == d[1..] + rest;
      RunOf(d[1..], rest);
    }
  }

  lemma ReadsDigits(d: string, rest: string)
    requires AllDigits(d) && d != "" && Stops(rest)
    ensures ReadInt(d + rest) == Some(Read(Num(d), rest))
    ensures (rest == "" || rest[0] != '.') ==> ReadDecimal(d + rest) == Some(Read(Num(d) as real, rest))
  {
    hide Num;
    RunOf(d, rest);
    assert (d + rest)[..|d|] == d && (d + rest)[|d|..] == rest;
  }

  lemma NoSpaceToSkip(s: string)
    requires s == "" || !IsSpace(s[0])
    ensures AfterSpace(s) == s && AfterSpace(" " + s) == s
  {
    var t := " " + s;
    assert SkipSpace(t) == SkipSpace(t, 1) == 1;
    assert t[1..] == s;
  }

  lemma WholeHours(h: nat, m: nat)
    ensures TotalMinutes(h as real, m) == 60 * h + m
  {
  }

  // ------------------------------------------------------------------ hours and minutes

  /** Digits as a printer writes them: at least one, meaning `n`. */
  predicate Writes(d: string, n: nat) {
    d != "" && AllDigits(d) && Num(d) == n
  }

  /** An hours sign: a colon or an `h`, and maybe one space either side. */
  predicate IsHourSign(sep: string) {
    sep == ":" || sep == "h" || sep == "h " || sep == " h" || sep == " h "
  }

  /** Digits, an hours sign, one or two digits, and maybe an `m`: the pattern of `8h 30m`. */
  lemma SplitReads(d: string, h: nat, sep: string, e: string, m: nat, unit: string)
    requires Writes(d, h) && Writes(e, m) && |e| <= 2 && IsHourSign(sep) && (unit == "" || unit == "m")
    ensures var s := d + (sep + (e + unit));
      Bare(s) == None && MinutesOnly(s) == None && Split(s) == Some((h, m))
  {
    hide Num, AllDigits, AfterSpace, Run, ReadInt, ReadDecimal;
    var tail := e + unit;
    var rest := sep + tail;
    assert !IsDigit(sep[0]) && sep[0] != '.' && rest[0] == sep[0];
    ReadsDigits(d, rest);
    ReadsDigits(e, unit);
    DigitsAreNoSpace(e);
    assert tail[0] == e[0];
    SignThenDigits(sep, tail);
    NoSpaceToSkip(unit);
    RunOf(e, unit);
  }

  lemma DigitsAreNoSpace(d: string)
    requires AllDigits(d) && d != ""
    ensures !IsSpace(d[0]) && !IsUpper(d[0]) && !IsSpace(d[|d| - 1])
  {
    assert IsDigit(d[0]) && IsDigit(d[|d| - 1]);
  }

  /** Past its spaces the sign is a colon or an `h`, and past that the digits follow. */
  lemma SignThenDigits(sep: string, tail: string)
    requires IsHourSign(sep) && tail != "" && !IsSpace(tail[0])
    ensures var rest := AfterSpace(sep + tail);
      rest != "" && (rest[0] == ':' || rest[0] == 'h') && AfterSpace(rest[1..]) == tail
  {
    hide AfterSpace;
    var core := if sep[0] == ' ' then sep[1..] else sep;
    SignSpaceDigits(core, tail);
    NoSpaceToSkip(core + tail);
    assert sep + tail == if sep[0] == ' ' then " " + (core + tail) else core + tail;
  }

  lemma SignSpaceDigits(core: string, tail: string)
    requires (core == ":" || core == "h" || core == "h ") && tail != "" && !IsSpace(tail[0])
    ensures (core + tail)[0] == core[0] && AfterSpace((core + tail)[1..]) == tail
  {
    hide AfterSpace;
    assert (core + tail)[1..] == if |core| == 1 then tail else " " + tail;
    NoSpaceToSkip(tail);
  }

  lemma TidyHoursMinutes(d: string, sep: string, e: string, unit: string)
    requires AllDigits(d) && d != "" && AllDigits(e) && e != "" && IsHourSign(sep) && (unit == "" || unit == "m")
    ensures IsTidy(d + (sep + (e + unit)))
  {
    var s := d + (sep + (e + unit));
    assert s[0] == d[0] && s[|s| - 1] == if unit == "m" then 'm' else e[|e| - 1];
    DigitsAreNoSpace(d);
    DigitsAreNoSpace(e);
    assert forall i :: 0 <= i < |d| ==> IsDigit(d[i]);
    assert forall i :: 0 <= i < |e| ==> IsDigit(e[i]);
  }

  lemma ReadsHoursMinutes(d: string, h: nat, sep: string, e: string, m: nat, unit: string)
    requires Writes(d, h) && Writes(e, m) && |e| <= 2 && IsHourSign(sep) && (unit == "" || unit == "m")
    ensures ParseWorkingMinutes(d + (sep + (e + unit))) == if m > 59 then None else Some(60 * h + m)
  {
    hide Bare, MinutesOnly, Split, Num, AllDigits, Whole, Sentence, TotalMinutes, ParseWorkingMinutes;
    TidyHoursMinutes(d, sep, e, unit);
    TidyParses(d + (sep + (e + unit)));
    SplitReads(d, h, sep, e, m, unit);
    WholeHours(h, m);
  }

  lemma WritesDec(n: nat)
    ensures Writes(Dec(n), n) && Writes(TwoDigits(n), n)
    ensures n < 100 ==> |Dec(n)| <= 2 && |TwoDigits(n)| == 2
  {
    NumOfDec(n);
  }

  lemma PaddedReadsBack(total: nat)
    ensures ParseWorkingMinutes(Padded(total)) == Some(total)
  {
    hide ParseWorkingMinutes, TwoDigits, Writes;
    WritesDec(total / 60);
    WritesDec(total % 60);
    ReadsHoursMinutes(TwoDigits(total / 60), total / 60, "h ", TwoDigits(total % 60), total % 60, "m");
  }

  // --------------------------------------------------------------------- sentences

  lemma {:induction false} NoMinutesInDigits(d: string, rest: string)
    requires AllDigits(d) && rest != "" && Stops(rest) && !MinuteUnit(AfterSpace(rest))
    ensures FindMinute(d + rest) == FindMinute(rest)
    decreases |d|
  {
    hide MinuteUnit, Num;
    if d == "" {
      assert d + rest == rest;
    } else {
      ReadsDigits(d, rest);
      assert (d + rest)[1..] == d[1..] + rest;
      NoMinutesInDigits(d[1..], rest);
    }
  }

  /** Text with no digit in it holds no length of time. */
  lemma {:induction false} NothingBeforeDigits(words: string, rest: string)
    requires forall i :: 0 <= i < |words| ==> !IsDigit(words[i])
    ensures FindMinute(words + rest) == FindMinute(rest)
    ensures FindHour(words + rest) == FindHour(rest)
    decreases |words|
  {
    if words == "" {
      assert words + rest == rest;
    } else {
      assert (words + rest)[1..] == words[1..] + rest;
      assert Run(words + rest) == 0;
      NothingBeforeDigits(words[1..], rest);
    }
  }

  /** The words between the hours and the minutes of a sentence: `h ` or ` hours `. */
  predicate IsHourWords(words: string) {
    words == "h " || words == " hours "
  }

  predicate IsMinuteWords(words: string) {
    words == "m" || words == " minutes"
  }

  lemma SentenceReads(d: string, h: nat, hours: string, e: string, m: nat, minutes: string)
    requires Writes(d, h) && Writes(e, m) && IsHourWords(hours) && IsMinuteWords(minutes)
    ensures var s := d + (hours + (e + minutes));
      FindHour(s) == Some(h as real) && FindMinute(s) == Some(m)
  {
    hide Num, AllDigits, AfterSpace, Run, ReadInt, ReadDecimal, HourUnit, MinuteUnit;
    var tail := e + minutes;
    var rest := hours + tail;
    assert rest[0] == hours[0] && !IsDigit(rest[0]) && rest[0] != '.';
    ReadsDigits(d, rest);
    HourWordsAreUnit(hours, tail);
    assert HourHere(d + rest) == Some(h as real);
    NoMinutesInDigits(d, rest);
    NothingBeforeDigits(hours, tail);
    ReadsDigits(e, minutes);
    MinuteWordsAreUnit(minutes);
  }

  lemma HourWordsAreUnit(hours: string, tail: string)
    requires IsHourWords(hours)
    ensures HourUnit(AfterSpace(hours + tail)) && !MinuteUnit(AfterSpace(hours + tail))
  {
    hide AfterSpace, HourUnit, MinuteUnit;
    if hours == "h " {
      NoSpaceToSkip(hours + tail);
      StartsWithH(hours + tail);
    } else {
      NoSpaceToSkip("hours " + tail);
      assert hours + tail == " " + ("hours " + tail);
      StartsWithH("hours " + tail);
    }
  }

  lemma StartsWithH(s: string)
    requires |s| >= 2 && s[0] == 'h' && (s[1] == ' ' || "hours" <= s)
    ensures HourUnit(s) && !MinuteUnit(s)
  {
    assert "h" <= s && s[1..][0] == s[1];
  }

  lemma MinuteWordsAreUnit(minutes: string)
    requires IsMinuteWords(minutes)
    ensures MinuteUnit(AfterSpace(minutes))
  {
    if minutes == "m" {
      NoSpaceToSkip("m");
    } else {
      NoSpaceToSkip("minutes");
      assert " " + "minutes" == minutes;
    }
  }

  // ---------------------------------------------------------------- what is printed is read

  /** The parser reads a printed negative duration as a positive one: the sign is lost. */
  lemma SignIsLost(total: nat)
    requires total > 0
    ensures ParseWorkingMinutes("-" + Padded(total)) == Some(total)
  {
    hide ParseWorkingMinutes, TwoDigits, Writes, Bare, MinutesOnly, Split, Whole, TotalMinutes, FindHour, FindMinute;
    var d, e := TwoDigits(total / 60), TwoDigits(total % 60);
    var s := "-" + Padded(total);
    WritesDec(total / 60);
    WritesDec(total % 60);
    TidyNegative(total);
    TidyParses(s);
    NoNumberFirst(s);
    NothingBeforeDigits("-", Padded(total));
    SentenceReads(d, total / 60, "h ", e, total % 60, "m");
    WholeHours(total / 60, total % 60);
  }

  lemma TidyNegative(total: nat)
    ensures IsTidy("-" + Padded(total))
  {
    hide TwoDigits, Num, AllDigits;
    var d, e := TwoDigits(total / 60), TwoDigits(total % 60);
    WritesDec(total / 60);
    WritesDec(total % 60);
    TidyHoursMinutes(d, "h ", e, "m");
    var t := d + ("h " + (e + "m"));
    assert ("-" + t)[1..] == t;
    assert forall i :: 0 < i < |t| + 1 ==> ("-" + t)[i] == t[i - 1];
  }

  /** Text that does not begin with a digit fits none of the exact patterns. */
  lemma NoNumberFirst(s: string)
    requires s != "" && !IsDigit(s[0])
    ensures Bare(s) == None && MinutesOnly(s) == None && Split(s) == None && Whole(s) == None
  {
    assert Run(s) == 0;
  }

  lemma NothingReadsBack()
    ensures ParseWorkingMinutes("\U{2014}") == None
  {
    hide ParseWorkingMinutes;
    var s := "\U{2014}";
    assert IsTidy(s);
    TidyParses(s);
    NoNumberFirst(s);
    NothingBeforeDigits(s, "");
    assert s + "" == s;
  }

  /**
   * `formatMinutes` reads back as the minutes it rounds to just when those are not
   * negative; a negative duration loses its sign. No value reads back as none.
   */
  lemma FormattedReadsBack(minutes: Option<real>)
    ensures var back := ParseWorkingMinutes(FormatMinutes(minutes));
      match minutes
      case None => back == None
      case Some(x) => (back == Some(Round(x)) <==> Round(x) >= 0) && (Round(x) < 0 ==> back == Some(-Round(x)))
  {
    hide ParseWorkingMinutes, Padded, Round;
    match minutes {
      case None => NothingReadsBack();
      case Some(x) =>
        if Round(x) < 0 {
          SignIsLost(-Round(x));
        } else {
          PaddedReadsBack(Round(x));
        }
    }
  }

  /** An hour and a half short of nothing is read as an hour and a half; nothing, written compactly, is not read. */
  lemma WhatIsNotReadBack()
    ensures FormatMinutes(Some(-90.0)) == "-01h 30m" && ParseWorkingMinutes("-01h 30m") == Some(90)
    ensures CompactDuration(0.0) == "0m" && ParseWorkingMinutes("0m") == None
  {
    hide ParseWorkingMinutes, FormatMinutes, CompactDuration, Padded;
    SignIsLost(90);
    OneUnitReadsBack(0);
    AnHourAndAHalfShort();
    NothingCompact();
  }

  lemma AnHourAndAHalfShort()
    ensures FormatMinutes(Some(-90.0)) == "-" + Padded(90) == "-01h 30m"
  {
    hide Dec, TwoDigits;
    NinetyMinutes();
    assert "-" + "01h 30m" == "-01h 30m";
  }

  lemma NinetyMinutes()
    ensures Padded(90) == "01h 30m"
  {
    PaddedToTheCharacter(1, 30);
    assert Digit(0) == '0' && Digit(1) == '1' && Digit(3) == '3';
  }

  lemma NothingCompact()
    ensures CompactDuration(0.0) == Dec(0) + "m" == "0m"
  {
    assert Dec(0) == "0";
    hide Dec;
    assert "0" + "m" == "0m";
  }

  /** Below a hundred hours `formatMinutes` and `workingHours` print two digits, `h`, a space, two digits and `m`. */
  lemma PaddedToTheCharacter(h: nat, m: nat)
    requires h < 100 && m < 60
    ensures Padded(60 * h + m)
         == [Digit(h / 10), Digit(h % 10), 'h', ' ', Digit(m / 10), Digit(m % 10), 'm']
  {
    hide Dec, Digit, TwoDigits;
    TwoDigitsOf(h);
    TwoDigitsOf(m);
    HoursAndRest(h, m);
  }

  lemma TwoDigitsOf(n: nat)
    requires n < 100
    ensures TwoDigits(n) == [Digit(n / 10), Digit(n % 10)]
  {
    hide Digit;
    if n < 10 {
      assert Dec(n) == [Digit(n)];
      ZeroDigit();
    } else {
      assert Dec(n) == Dec(n / 10) + [Digit(n % 10)] && Dec(n / 10) == [Digit(n / 10)];
    }
  }

  lemma ZeroDigit()
    ensures Digit(0) == '0'
  {
  }

  /** `compactDuration` leaves out the part that is nothing, and minutes are kept if both are. */
  lemma CompactToTheCharacter(h: nat, m: nat)
    requires m < 60
    ensures CompactDuration((60 * h + m) as real)
         == if h == 0 then Dec(m) + "m" else Dec(h) + if m == 0 then "h" else "h " + (Dec(m) + "m")
  {
    hide Dec, Round;
    RoundOfWhole((60 * h + m) as real, 60 * h + m);
    HoursAndRest(h, m);
  }

  lemma HoursAndRest(h: nat, m: nat)
    requires m < 60
    ensures (60 * h + m) / 60 == h && (60 * h + m) % 60 == m
  {
  }

  /** `formatHours` reads back as the hours' minutes, rounded, under the same condition. */
  lemma FormattedHoursReadBack(hours: Option<real>)
    ensures var back := ParseWorkingMinutes(FormatHours(hours));
      match hours
      case None => back == None
      case Some(x) => back == Some(ToMinutes(x)) <==> ToMinutes(x) >= 0
  {
    hide ParseWorkingMinutes, FormatMinutes, Round;
    match hours {
      case None => NothingReadsBack();
      case Some(x) => FormattedReadsBack(Some(x * 60.0));
    }
  }

  /** So does `workingHours`, which prints nothing negative. */
  lemma WorkingHoursReadBack(minutes: real)
    ensures ParseWorkingMinutes(WorkingHours(minutes)) == Some(AtLeastZero(Round(minutes)))
  {
    hide ParseWorkingMinutes, Padded, Round;
    PaddedReadsBack(AtLeastZero(Round(minutes)));
  }

  /** A number of minutes and an `m`, or a number of hours and an `h`. */
  lemma OneUnitReadsBack(n: nat)
    ensures ParseWorkingMinutes(Dec(n) + "m") == if n > 0 then Some(n) else None
    ensures ParseWorkingMinutes(Dec(n) + "h") == Some(60 * n)
  {
    hide ParseWorkingMinutes, Dec, Num, AllDigits, TotalMinutes, AfterSpace, Run, ReadInt, ReadDecimal;
    var d := Dec(n);
    WritesDec(n);
    OneUnitIsTidy(d, "m");
    OneUnitIsTidy(d, "h");
    TidyParses(d + "m");
    TidyParses(d + "h");
    ReadsDigits(d, "m");
    ReadsDigits(d, "h");
    NoSpaceToSkip("m");
    NoSpaceToSkip("h");
    assert "h"[1..] == "";
    NoSpaceToSkip("");
    assert ReadInt("") == None by { NoDigits(); }
    WholeHours(n, 0);
  }

  lemma NoDigits()
    ensures ReadInt("") == None
  {
  }

  lemma OneUnitIsTidy(d: string, unit: string)
    requires AllDigits(d) && d != "" && (unit == "m" || unit == "h")
    ensures IsTidy(d + unit)
  {
    var s := d + unit;
    assert s[|s| - 1] == unit[0] && s[0] == d[0];
    DigitsAreNoSpace(d);
    assert forall i :: 0 <= i < |d| ==> IsDigit(d[i]);
  }

  /** `compactDuration` reads back just when it is not `0m`. */
  lemma CompactReadsBack(minutes: real)
    ensures var total := AtLeastZero(Round(minutes));
      ParseWorkingMinutes(CompactDuration(minutes)) == if total > 0 then Some(total) else None
  {
    hide ParseWorkingMinutes, Round, Writes, Dec;
    var total := AtLeastZero(Round(minutes));
    var hours, rest := total / 60, total % 60;
    OneUnitReadsBack(rest);
    OneUnitReadsBack(hours);
    WritesDec(hours);
    WritesDec(rest);
    ReadsHoursMinutes(Dec(hours), hours, "h ", Dec(rest), rest, "m");
  }

  /** A length that fits a minute column: none for 60 minutes and more. */
  function Clock(h: nat, m: nat): Option<int> {
    if m > 59 then None else Some(60 * h + m)
  }

  /**
   * `8:30`, `8h30`, `8h 30m` and `8 h 30` are the same length of time, for any
   * hours and one or two digits of minutes; so is `8 hours 30 minutes`, unless it
   * comes to nothing, which only a sentence is refused for.
   */
  lemma SpellingsAgree(d: string, h: nat, e: string, m: nat)
    requires Writes(d, h) && Writes(e, m) && |e| <= 2
    ensures ParseWorkingMinutes(d + (":" + (e + ""))) == Clock(h, m)
    ensures ParseWorkingMinutes(d + ("h" + (e + ""))) == Clock(h, m)
    ensures ParseWorkingMinutes(d + ("h " + (e + "m"))) == Clock(h, m)
    ensures ParseWorkingMinutes(d + (" h " + (e + ""))) == Clock(h, m)
    ensures ParseWorkingMinutes(d + (" hours " + (e + " minutes"))) == Clock(h, m) <==> h + m > 0
    ensures h + m == 0 ==> ParseWorkingMinutes(d + (" hours " + (e + " minutes"))) == None
  {
    hide ParseWorkingMinutes, Writes;
    ReadsHoursMinutes(d, h, ":", e, m, "");
    ReadsHoursMinutes(d, h, "h", e, m, "");
    ReadsHoursMinutes(d, h, "h ", e, m, "m");
    ReadsHoursMinutes(d, h, " h ", e, m, "");
    SentenceReadsBack(d, h, e, m);
  }

  lemma SentenceReadsBack(d: string, h: nat, e: string, m: nat)
    requires Writes(d, h) && Writes(e, m)
    ensures ParseWorkingMinutes(d + (" hours " + (e + " minutes"))) == if h + m > 0 then Clock(h, m) else None
  {
    hide ParseWorkingMinutes, Bare, MinutesOnly, Split, Whole, FindHour, FindMinute, TotalMinutes, Num, AllDigits;
    var s := d + (" hours " + (e + " minutes"));
    SentenceIsTidy(d, e);
    TidyParses(s);
    SentenceIsNoPattern(d, e + " minutes");
    SentenceReads(d, h, " hours ", e, m, " minutes");
    WholeHours(h, m);
  }

  /** The number that digits, a point and digits write. */
  function Decimal(d: string, f: string): real
    requires AllDigits(d) && AllDigits(f)
  {
    Num(d) as real + Num(f) as real / Pow10(|f|) as real
  }

  lemma ReadsDecimal(d: string, f: string)
    requires AllDigits(d) && d != "" && AllDigits(f) && f != ""
    ensures ReadDecimal(d + ("." + f)) == Some(Read(Decimal(d, f), ""))
    ensures ReadInt(d + ("." + f)) == Some(Read(Num(d), "." + f))
  {
    hide Num, Pow10, Run, ReadInt, ReadDecimal;
    var rest := "." + f;
    ReadsDigits(d, rest);
    RunOf(d, rest);
    RunOf(f, "");
    assert f + "" == f && rest[1..] == f && (d + rest)[..|d|] == d && (d + rest)[|d|..] == rest;
    assert f[..|f|] == f && f[|f|..] == "";
    PointAndDigits(d + rest, d, f);
  }

  lemma PointAndDigits(s: string, d: string, f: string)
    requires AllDigits(d) && d != "" && AllDigits(f) && f != ""
    requires Run(s) == |d| && s[..|d|] == d && s[|d|..] == "." + f && ("." + f)[1..] == f
    requires Run(f) == |f| && f[..|f|] == f && f[|f|..] == ""
    ensures ReadDecimal(s) == Some(Read(Decimal(d, f), ""))
  {
    hide Num, Pow10, Run, AllDigits;
  }

  /** A decimal number of hours, alone, is refused above twelve. */
  lemma DecimalReads(d: string, f: string)
    requires AllDigits(d) && d != "" && AllDigits(f) && f != ""
    ensures var v := Decimal(d, f);
      ParseWorkingMinutes(d + ("." + f)) == if v > 12.0 then None else Some(Round(v * 60.0))
  {
    hide ParseWorkingMinutes, Num, AllDigits, AfterSpace, Run, ReadInt, ReadDecimal, Decimal, Round, Sentence;
    DecimalIsTidy(d, f);
    TidyParses(d + ("." + f));
    ReadsDecimal(d, f);
    NoSpaceToSkip("." + f);
    NoSpaceToSkip("");
  }

  lemma DecimalIsTidy(d: string, f: string)
    requires AllDigits(d) && d != "" && AllDigits(f) && f != ""
    ensures IsTidy(d + ("." + f))
  {
    var s := d + ("." + f);
    DigitsAreNoSpace(d);
    DigitsAreNoSpace(f);
    assert s[0] == d[0] && s[|s| - 1] == f[|f| - 1];
    assert forall i :: 0 <= i < |d| ==> IsDigit(d[i]);
    assert forall i :: 0 <= i < |f| ==> IsDigit(f[i]);
  }

  /** So `8.5` is `8:30`, and a decimal is the clock spelling of its length exactly up to twelve hours. */
  lemma DecimalsAgree(d: string, f: string, h: nat, m: nat)
    requires AllDigits(d) && d != "" && AllDigits(f) && f != ""
    requires m <= 59 && Decimal(d, f) * 60.0 == (60 * h + m) as real
    ensures ParseWorkingMinutes(d + ("." + f)) == Clock(h, m) <==> Decimal(d, f) <= 12.0
  {
    hide ParseWorkingMinutes, AllDigits, Decimal, Round;
    DecimalReads(d, f);
    RoundOfWhole(Decimal(d, f) * 60.0, 60 * h + m);
  }

  lemma RoundOfWhole(x: real, n: int)
    requires x == n as real
    ensures Round(x) == n
  {
  }

  /** Nothing in words is refused, and nothing on the clock is not; `12.5` is refused, and `12:30` is 750 minutes. */
  lemma WhereSpellingsDiffer()
    ensures ParseWorkingMinutes("0:0") == Some(0) && ParseWorkingMinutes("0 hours 0 minutes") == None
    ensures ParseWorkingMinutes("12.5") == None && ParseWorkingMinutes("12:30") == Some(750)
  {
    hide ParseWorkingMinutes;
    NothingIsSpelled();
    TwelveAndAHalf();
  }

  lemma NothingIsSpelled()
    ensures ParseWorkingMinutes("0:0") == Some(0) && ParseWorkingMinutes("0 hours 0 minutes") == None
  {
    hide ParseWorkingMinutes, Dec;
    SomeDecs();
    WritesDec(0);
    SpellingsAgree("0", 0, "0", 0);
    assert "0" + (":" + ("0" + "")) == "0:0" && "0" + (" hours " + ("0" + " minutes")) == "0 hours 0 minutes";
  }

  lemma TwelveAndAHalf()
    ensures ParseWorkingMinutes("12.5") == None && ParseWorkingMinutes("12:30") == Some(750)
  {
    hide ParseWorkingMinutes, Dec, Num, AllDigits;
    SomeDecs();
    WritesDec(5);
    WritesDec(12);
    WritesDec(30);
    SpellingsAgree("12", 12, "30", 30);
    DecimalReads("12", "5");
    assert Pow10(1) == 10 && Decimal("12", "5") == 12.5;
    assert "12" + ("." + "5") == "12.5" && "12" + (":" + ("30" + "")) == "12:30";
  }

  lemma SomeDecs()
    ensures Dec(0) == "0" && Dec(5) == "5" && Dec(12) == "12" && Dec(30) == "30"
  {
    assert Dec(1) == "1" && Dec(3) == "3";
  }

  lemma SentenceIsTidy(d: string, e: string)
    requires AllDigits(d) && d != "" && AllDigits(e)
    ensures IsTidy(d + (" hours " + (e + " minutes")))
  {
    var s := d + (" hours " + (e + " minutes"));
    DigitsAreNoSpace(d);
    assert s[0] == d[0] && s[|s| - 1] == 's';
    assert forall i :: 0 <= i < |d| ==> IsDigit(d[i]);
    assert forall i :: 0 <= i < |e| ==> IsDigit(e[i]);
  }

  lemma SentenceIsNoPattern(d: string, tail: string)
    requires AllDigits(d) && d != "" && tail != ""
    ensures var s := d + (" hours " + tail);
      Bare(s) == None && MinutesOnly(s) == None && Split(s) == None && Whole(s) == None
  {
    hide Num, AllDigits, AfterSpace, Run, ReadInt, ReadDecimal;
    var words := "hours " + tail;
    assert " hours " + tail == " " + words;
    ReadsDigits(d, " hours " + tail);
    NoSpaceToSkip(words);
    assert words[1..] == "ours " + tail;
    NoSpaceToSkip("ours " + tail);
    assert ReadInt("ours " + tail) == None by { NotANumber("ours " + tail); }
  }

  lemma NotANumber(s: string)
    requires s != "" && !IsDigit(s[0])
    ensures ReadInt(s) == None
  {
  }
}

/**
 * Lengths of time in words: what `parseWorkingMinutes` makes of a number and a
 * unit, alone or among other words, said of the text itself.
 */
module SpokenDurations {
  import opened Options
  import opened Text
  import opened Digits
  import opened Hours
  import opened Durations

  const HOURS: seq<string> := ["h", "hr", "hrs", "hour", "hours"]
  const MINUTES: seq<string> := ["m", "min", "mins", "minute", "minutes"]

  predicate IsNumber(d: string, f: string) {
    d != "" && AllDigits(d) && AllDigits(f)
  }

  /** Digits, and after a point more digits, if there are any. */
  function Written(d: string, f: string): string {
    d + if f == "" then "" else "." + f
  }

  function ValueIn(d: string, f: string): real
    requires IsNumber(d, f)
  {
    if f == "" then Num(d) as real else Decimal(d, f)
  }

  predicate NoDigit(s: string) {
    forall i :: 0 <= i < |s| ==> !IsDigit(s[i])
  }

  /** What follows does not go on with the word before it. */
  predicate StandsAlone(after: string) {
    after != "" ==>
      !('a' <= after[0] <= 'z') && !('A' <= after[0] <= 'Z') && !('0' <= after[0] <= '9') && after[0] != '_'
  }

  // ------------------------------------------------------------------------- the pieces

  lemma AfterSpaceOf(pad: string, s: string)
    requires AllSpace(pad) && (s != "" ==> !IsSpace(s[0]))
    ensures AfterSpace(pad + s) == s
  {
    hide IsSpace;
    var all := pad + s;
    assert forall k :: 0 <= k < |pad| ==> all[k] == pad[k];
    assert s != "" ==> all[|pad|] == s[0];
    assert all[|pad|..] == s;
  }

  lemma NumberReads(d: string, f: string, rest: string)
    requires IsNumber(d, f) && Stops(rest) && (f == "" && rest != "" ==> rest[0] != '.')
    ensures ReadDecimal(Written(d, f) + rest) == Some(Read(ValueIn(d, f), rest))
    ensures ReadInt(Written(d, f) + rest) == Some(Read(Num(d), if f == "" then rest else "." + (f + rest)))
  {
    hide Num, AllDigits, Run, ReadInt, ReadDecimal, Decimal;
    if f == "" {
      assert Written(d, f) + rest == d + rest;
      ReadsDigits(d, rest);
    } else {
      assert Written(d, f) + rest == d + ("." + (f + rest));
      DecimalOf(d, f, rest);
    }
  }

  lemma DecimalOf(d: string, f: string, rest: string)
    requires IsNumber(d, f) && f != "" && Stops(rest)
    ensures ReadDecimal(d + ("." + (f + rest))) == Some(Read(Decimal(d, f), rest))
    ensures ReadInt(d + ("." + (f + rest))) == Some(Read(Num(d), "." + (f + rest)))
  {
    hide Num, AllDigits, Run, Pow10;
    var tail := "." + (f + rest);
    ReadsDigits(d, tail);
    RunOf(d, tail);
    RunOf(f, rest);
    assert (d + tail)[..|d|] == d && (d + tail)[|d|..] == tail && tail[1..] == f + rest;
    assert (f + rest)[..|f|] == f && (f + rest)[|f|..] == rest;
  }

  lemma HourWord(unit: string, after: string)
    requires unit in HOURS && StandsAlone(after)
    ensures HourUnit(unit + after) && !MinuteUnit(unit + after)
    ensures (unit + after)[0] == 'h' && NoDigit(unit)
    ensures IsHourWord(unit + after) <==> after == ""
    ensures !IsMinuteWord(unit + after)
  {
    hide HourUnit, IsHourWord;
    var s := unit + after;
    assert s[0] == 'h';
    HourUnitThen(unit, after);
    HourWordOnly(unit, after);
  }

  lemma HourUnitThen(unit: string, after: string)
    requires unit in HOURS && StandsAlone(after)
    ensures HourUnit(unit + after)
  {
    assert unit <= unit + after;
    assert unit == "h" ==> (unit + after)[1..] == after;
  }

  lemma HourWordOnly(unit: string, after: string)
    requires unit in HOURS && StandsAlone(after)
    ensures IsHourWord(unit + after) <==> after == ""
  {
    if after == "" {
      assert unit + after == unit;
    } else {
      assert (unit + after)[|unit|] == after[0];
    }
  }

  lemma MinuteWord(unit: string, after: string)
    requires unit in MINUTES && StandsAlone(after)
    ensures MinuteUnit(unit + after) && !HourUnit(unit + after)
    ensures (unit + after)[0] == 'm' && NoDigit(unit)
    ensures IsMinuteWord(unit + after) <==> after == ""
    ensures !IsHourWord(unit + after)
  {
    hide MinuteUnit, IsMinuteWord;
    var s := unit + after;
    assert s[0] == 'm';
    MinuteUnitThen(unit, after);
    MinuteWordOnly(unit, after);
  }

  lemma MinuteUnitThen(unit: string, after: string)
    requires unit in MINUTES && StandsAlone(after)
    ensures MinuteUnit(unit + after)
  {
    assert unit <= unit + after;
    assert unit == "m" ==> (unit + after)[1..] == after;
  }

  lemma MinuteWordOnly(unit: string, after: string)
    requires unit in MINUTES && StandsAlone(after)
    ensures IsMinuteWord(unit + after) <==> after == ""
  {
    if after == "" {
      assert unit + after == unit;
    } else {
      assert (unit + after)[|unit|] == after[0];
    }
  }

  lemma {:induction false} NoHoursInDigits(d: string, rest: string)
    requires AllDigits(d) && rest != "" && Stops(rest) && rest[0] != '.' && !HourUnit(AfterSpace(rest))
    ensures FindHour(d + rest) == FindHour(rest)
    decreases |d|
  {
    hide HourUnit, Num;
    if d == "" {
      assert d + rest == rest;
    } else {
      ReadsDigits(d, rest);
      assert (d + rest)[1..] == d[1..] + rest;
      NoHoursInDigits(d[1..], rest);
    }
  }

  lemma NothingInWords(words: string)
    requires NoDigit(words)
    ensures FindHour(words) == None && FindMinute(words) == None
  {
    hide FindHour, FindMinute;
    NothingBeforeDigits(words, "");
    assert words + "" == words;
    NothingInNothing();
  }

  lemma NothingInNothing()
    ensures FindHour("") == None && FindMinute("") == None
  {
  }

  /** No minutes begin in a number that something else than minutes follows. */
  lemma NoMinutesInNumber(d: string, f: string, rest: string)
    requires IsNumber(d, f) && rest != "" && Stops(rest) && !MinuteUnit(AfterSpace(rest))
    ensures FindMinute(Written(d, f) + rest) == FindMinute(rest)
  {
    hide MinuteUnit, AllDigits, FindMinute, AfterSpace;
    if f == "" {
      NoMinutesInDigits(d, rest);
      assert Written(d, f) + rest == d + rest;
    } else {
      assert Written(d, f) + rest == d + ("." + (f + rest));
      var tail := "." + (f + rest);
      NoSpaceToSkip(tail);
      PointIsNoUnit(tail);
      NoMinutesInDigits(d, tail);
      NothingBeforeDigits(".", f + rest);
      NoMinutesInDigits(f, rest);
    }
  }

  lemma PointIsNoUnit(s: string)
    requires s != "" && s[0] == '.'
    ensures !MinuteUnit(s) && !HourUnit(s) && !IsMinuteWord(s)
  {
  }

  // ------------------------------------------------------------------ what a text holds

  /** A number, space, a unit of hours, and no more digits: its hours are found, and no minutes. */
  lemma FindsHours(before: string, d: string, f: string, pad: string, unit: string, after: string)
    requires IsNumber(d, f) && NoDigit(before) && NoDigit(after) && AllSpace(pad)
    requires unit in HOURS && StandsAlone(after)
    ensures var text := before + (Written(d, f) + (pad + (unit + after)));
      FindHour(text) == Some(ValueIn(d, f)) && FindMinute(text) == None
  {
    hide Written, AllSpace, AllDigits, FindHour, FindMinute;
    HoursAhead(before, d, f, pad, unit, after);
    HourWord(unit, after);
    WordsBetween(pad, unit, after);
    NothingInWords(pad + (unit + after));
  }

  lemma FoundHere(s: string)
    ensures HourHere(s).Some? ==> FindHour(s) == HourHere(s)
    ensures MinuteHere(s).Some? ==> FindMinute(s) == MinuteHere(s)
  {
    hide HourHere, MinuteHere;
  }

  lemma SpaceIsNoDigit(pad: string, s: string)
    requires AllSpace(pad) && s != "" && !IsDigit(s[0]) && s[0] != '.' && !IsSpace(s[0])
    ensures Stops(pad + s) && (pad + s)[0] != '.'
    ensures NoDigit(s) ==> NoDigit(pad + s)
  {
    assert (pad + s)[0] == if pad == "" then s[0] else pad[0];
  }

  /** A whole number, space and a unit of minutes. */
  lemma FindsMinutes(before: string, d: string, pad: string, unit: string, after: string)
    requires IsNumber(d, "") && NoDigit(before) && NoDigit(after) && AllSpace(pad)
    requires unit in MINUTES && StandsAlone(after)
    ensures var text := before + (d + (pad + (unit + after)));
      FindHour(text) == None && FindMinute(text) == Some(Num(d))
  {
    hide HourUnit, MinuteUnit, AfterSpace, ReadDecimal, ReadInt, AllSpace, IsHourWord, IsMinuteWord, AllDigits;
    var rest := pad + (unit + after);
    MinuteWord(unit, after);
    SpaceIsNoDigit(pad, unit + after);
    AfterSpaceOf(pad, unit + after);
    ReadsDigits(d, rest);
    NothingBeforeDigits(before, d + rest);
    FoundHere(d + rest);
    NoHoursInDigits(d, rest);
    NothingInWords(rest);
  }

  /** Hours, and after some words minutes. */
  lemma FindsBoth(before: string, d: string, f: string, pad: string, unit: string, mid: string,
                  e: string, gap: string, minutes: string, after: string)
    requires IsNumber(d, f) && NoDigit(before) && NoDigit(mid) && AllSpace(pad) && unit in HOURS
    requires mid != "" && StandsAlone(mid)
    requires IsNumber(e, "") && NoDigit(after) && AllSpace(gap) && minutes in MINUTES && StandsAlone(after)
    ensures var text := before + (Written(d, f) + (pad + (unit + (mid + (e + (gap + (minutes + after)))))));
      FindHour(text) == Some(ValueIn(d, f)) && FindMinute(text) == Some(Num(e))
  {
    hide Written, AllSpace, AllDigits, FindHour, FindMinute;
    var tail := e + (gap + (minutes + after));
    FindsMinutes("", e, gap, minutes, after);
    assert "" + tail == tail && (mid + tail)[0] == mid[0];
    HoursAhead(before, d, f, pad, unit, mid + tail);
    HourWord(unit, mid);
    WordsBetween(pad, unit, mid);
    NothingBeforeDigits(pad + (unit + mid), tail);
    BracketsMove(pad, unit, mid, tail);
  }

  lemma BracketsMove(a: string, b: string, c: string, d: string)
    ensures a + (b + (c + d)) == a + (b + c) + d
  {
  }

  /** The first number is the hours, and the minutes come after it. */
  lemma HoursAhead(before: string, d: string, f: string, pad: string, unit: string, after: string)
    requires IsNumber(d, f) && NoDigit(before) && AllSpace(pad) && unit in HOURS && StandsAlone(after)
    ensures var text := before + (Written(d, f) + (pad + (unit + after)));
      FindHour(text) == Some(ValueIn(d, f)) && FindMinute(text) == FindMinute(pad + (unit + after))
  {
    hide Written, HourUnit, MinuteUnit, AfterSpace, ReadDecimal, ReadInt, AllSpace, IsHourWord, IsMinuteWord, AllDigits;
    var rest := pad + (unit + after);
    HourWord(unit, after);
    SpaceIsNoDigit(pad, unit + after);
    AfterSpaceOf(pad, unit + after);
    NumberReads(d, f, rest);
    NothingBeforeDigits(before, Written(d, f) + rest);
    FoundHere(Written(d, f) + rest);
    NoMinutesInNumber(d, f, rest);
  }

  lemma WordsBetween(pad: string, unit: string, mid: string)
    requires AllSpace(pad) && NoDigit(unit) && NoDigit(mid)
    ensures NoDigit(pad + (unit + mid))
  {
    assert forall i :: 0 <= i < |pad| ==> IsSpace(pad[i]);
  }

  // ------------------------------------------------------------------ none of the patterns

  /** Ahead of a word, or after words, a number and a unit fit none of the exact patterns. */
  lemma HoursFitNoPattern(before: string, d: string, f: string, pad: string, unit: string, after: string)
    requires IsNumber(d, f) && NoDigit(before) && AllSpace(pad) && unit in HOURS && StandsAlone(after)
    requires before != "" || (after != "" && (unit != "h" || NoDigit(after)))
    ensures var text := before + (Written(d, f) + (pad + (unit + after)));
      Bare(text) == None && MinutesOnly(text) == None && Split(text) == None && Whole(text) == None
  {
    hide Written, AfterSpace, AllDigits, Num, Run, ReadDecimal, ReadInt, IsSpace;
    var rest := pad + (unit + after);
    var text := before + (Written(d, f) + rest);
    if before != "" {
      assert text[0] == before[0];
      NoNumberFirst(text);
    } else {
      assert text == Written(d, f) + rest;
      HourWord(unit, after);
      assert !IsSpace((unit + after)[0]) by { LettersAreNoSpace('h'); }
      SpaceIsNoDigit(pad, unit + after);
      AfterSpaceOf(pad, unit + after);
      NumberReads(d, f, rest);
      if f == "" {
        NoDigitsAfterH(unit, after);
      } else {
        var tail := "." + (f + rest);
        LettersAreNoSpace('.');
        NoSpaceToSkip(tail);
      }
    }
  }

  lemma LettersAreNoSpace(c: char)
    ensures 'a' <= c <= 'z' || c == '.' ==> !IsSpace(c)
  {
  }

  lemma NoDigitsAfterH(unit: string, after: string)
    requires unit in HOURS && StandsAlone(after) && after != "" && (unit != "h" || NoDigit(after))
    ensures ReadInt(AfterSpace((unit + after)[1..])) == None
  {
    hide IsSpace, AfterSpace, ReadInt;
    var tail := (unit + after)[1..];
    if unit == "h" {
      assert tail == after;
      NoNumberAmong(after);
    } else {
      assert tail[0] == unit[1] && (unit[1] == 'r' || unit[1] == 'o');
      LettersAreNoSpace(unit[1]);
      NoSpaceToSkip(tail);
      NotANumber(tail);
    }
  }

  lemma NoNumberAmong(words: string)
    requires NoDigit(words)
    ensures ReadInt(AfterSpace(words)) == None
  {
    hide IsSpace;
  }

  lemma MinutesFitNoPattern(before: string, d: string, pad: string, unit: string, after: string)
    requires IsNumber(d, "") && NoDigit(before) && AllSpace(pad) && unit in MINUTES && StandsAlone(after)
    requires before != "" || after != ""
    ensures var text := before + (d + (pad + (unit + after)));
      Bare(text) == None && MinutesOnly(text) == None && Split(text) == None && Whole(text) == None
  {
    hide AfterSpace, AllDigits, Num, Run, ReadDecimal, ReadInt, IsSpace;
    var rest := pad + (unit + after);
    var text := before + (d + rest);
    if before != "" {
      assert text[0] == before[0];
      NoNumberFirst(text);
    } else {
      assert text == d + rest;
      MinuteWord(unit, after);
      assert !IsSpace((unit + after)[0]) by { LettersAreNoSpace('m'); }
      SpaceIsNoDigit(pad, unit + after);
      AfterSpaceOf(pad, unit + after);
      ReadsDigits(d, rest);
    }
  }

  // ---------------------------------------------------------------------- what is read

  /** Nothing, or less, is no length of time. */
  function IfPositive(minutes: int): Option<int> {
    if minutes > 0 then Some(minutes) else None
  }

  /** Hours among other words: as many minutes, rounded, if that is any. */
  lemma HoursInWords(before: string, d: string, f: string, pad: string, unit: string, after: string)
    requires IsNumber(d, f) && NoDigit(before) && NoDigit(after) && AllSpace(pad)
    requires unit in HOURS && StandsAlone(after) && (before != "" || after != "")
    requires IsTidy(before + (Written(d, f) + (pad + (unit + after))))
    ensures ParseWorkingMinutes(before + (Written(d, f) + (pad + (unit + after))))
         == IfPositive(Round(60.0 * ValueIn(d, f)))
  {
    hide ParseWorkingMinutes, Written, AllSpace, Bare, MinutesOnly, Split, Whole, FindHour, FindMinute, AllDigits,
         Round;
    TidyParses(before + (Written(d, f) + (pad + (unit + after))));
    HoursFitNoPattern(before, d, f, pad, unit, after);
    FindsHours(before, d, f, pad, unit, after);
  }

  /** Minutes among other words: that many, be it more than an hour, if it is any. */
  lemma MinutesInWords(before: string, d: string, pad: string, unit: string, after: string)
    requires IsNumber(d, "") && NoDigit(before) && NoDigit(after) && AllSpace(pad)
    requires unit in MINUTES && StandsAlone(after) && (before != "" || after != "")
    requires IsTidy(before + (d + (pad + (unit + after))))
    ensures ParseWorkingMinutes(before + (d + (pad + (unit + after)))) == IfPositive(Num(d))
  {
    hide ParseWorkingMinutes, AllSpace, Bare, MinutesOnly, Split, Whole, FindHour, FindMinute, AllDigits;
    TidyParses(before + (d + (pad + (unit + after))));
    MinutesFitNoPattern(before, d, pad, unit, after);
    FindsMinutes(before, d, pad, unit, after);
  }

  /** Hours and minutes among other words: both together, unless there are sixty minutes or more. */
  lemma BothInWords(before: string, d: string, f: string, pad: string, unit: string, mid: string,
                    e: string, gap: string, minutes: string, after: string)
    requires IsNumber(d, f) && NoDigit(before) && NoDigit(mid) && AllSpace(pad) && unit in HOURS
    requires mid != "" && StandsAlone(mid) && (before != "" || unit != "h")
    requires IsNumber(e, "") && NoDigit(after) && AllSpace(gap) && minutes in MINUTES && StandsAlone(after)
    requires IsTidy(before + (Written(d, f) + (pad + (unit + (mid + (e + (gap + (minutes + after))))))))
    ensures ParseWorkingMinutes(before + (Written(d, f) + (pad + (unit + (mid + (e + (gap + (minutes + after))))))))
         == if Num(e) > 59 then None else IfPositive(Round(60.0 * ValueIn(d, f)) + Num(e))
  {
    hide ParseWorkingMinutes, Written, AllSpace, Bare, MinutesOnly, Split, Whole, FindHour, FindMinute, AllDigits,
         Round, Num, ValueIn;
    var tail := mid + (e + (gap + (minutes + after)));
    TidyParses(before + (Written(d, f) + (pad + (unit + tail))));
    assert tail[0] == mid[0];
    HoursFitNoPattern(before, d, f, pad, unit, tail);
    FindsBoth(before, d, f, pad, unit, mid, e, gap, minutes, after);
  }

  /** A number, then space and a unit of hours: of the patterns only the one of hours fits. */
  lemma HoursPattern(text: string, unit: string, v: real, rest: string, n: nat, tail: string)
    requires unit in HOURS && rest != "" && AfterSpace(rest) == unit
    requires ReadDecimal(text) == Some(Read(v, rest)) && ReadInt(text) == Some(Read(n, tail))
    requires AfterSpace(tail) == unit || (AfterSpace(tail) != "" && AfterSpace(tail)[0] == '.')
    ensures Bare(text) == None && MinutesOnly(text) == None && Split(text) == None && Whole(text) == Some(v)
  {
    hide AfterSpace, ReadDecimal, ReadInt;
    HourWord(unit, "");
    assert unit + "" == unit;
    NoNumberAfterH(unit);
  }

  /** A number of hours and a unit, and nothing else: its minutes, rounded, be they none. */
  lemma HoursAlone(d: string, f: string, pad: string, unit: string)
    requires IsNumber(d, f) && AllSpace(pad) && unit in HOURS
    ensures ParseWorkingMinutes(Written(d, f) + (pad + unit)) == Some(Round(60.0 * ValueIn(d, f)))
  {
    hide ParseWorkingMinutes, Written, AfterSpace, AllDigits, Num, ReadDecimal, ReadInt, IsSpace, Round, ValueIn,
         AllSpace, Bare, MinutesOnly, Split, Whole, Sentence;
    var rest := pad + unit;
    var text := Written(d, f) + rest;
    AloneIsTidy(Written(d, f), pad, unit) by { NumberIsTidy(d, f); LastLetter(unit); }
    TidyParses(text);
    UnitAfterSpace(pad, unit);
    NumberReads(d, f, rest);
    if f != "" {
      LettersAreNoSpace('.');
      NoSpaceToSkip("." + (f + rest));
    }
    HoursPattern(text, unit, ValueIn(d, f), rest, Num(d), if f == "" then rest else "." + (f + rest));
  }

  lemma UnitAfterSpace(pad: string, unit: string)
    requires AllSpace(pad) && unit in HOURS
    ensures var rest := pad + unit; AfterSpace(rest) == unit && rest != "" && Stops(rest) && rest[0] != '.'
  {
    hide IsSpace, AfterSpace;
    HourWord(unit, "");
    assert unit + "" == unit;
    LettersAreNoSpace('h');
    SpaceIsNoDigit(pad, unit);
    AfterSpaceOf(pad, unit);
  }

  lemma NoNumberAfterH(unit: string)
    requires unit in HOURS
    ensures ReadInt(AfterSpace(unit[1..])) == None
  {
    hide IsSpace, AfterSpace, ReadInt;
    NoNumberAmong(unit[1..]);
  }

  /** A number of minutes and a unit, and nothing else: that many, if it is any. */
  lemma MinutesAlone(d: string, pad: string, unit: string)
    requires IsNumber(d, "") && AllSpace(pad) && unit in MINUTES
    ensures ParseWorkingMinutes(d + (pad + unit)) == IfPositive(Num(d))
  {
    hide ParseWorkingMinutes, AfterSpace, AllDigits, Num, Run, ReadDecimal, ReadInt, IsSpace, AllSpace;
    var rest := pad + unit;
    AloneIsTidy(d, pad, unit) by { NumberIsTidy(d, ""); assert Written(d, "") == d + "" == d; LastLetter(unit); }
    TidyParses(d + rest);
    MinuteWord(unit, "");
    assert unit + "" == unit;
    assert !IsSpace(unit[0]) by { LettersAreNoSpace('m'); }
    SpaceIsNoDigit(pad, unit);
    AfterSpaceOf(pad, unit);
    ReadsDigits(d, rest);
  }

  /** A number and nothing else is hours, refused above twelve. */
  lemma NumberAlone(d: string, f: string)
    requires IsNumber(d, f)
    ensures ParseWorkingMinutes(Written(d, f))
         == if ValueIn(d, f) > 12.0 then None else Some(Round(60.0 * ValueIn(d, f)))
  {
    hide ParseWorkingMinutes, Written, AfterSpace, AllDigits, Num, Run, ReadDecimal, ReadInt, IsSpace, Round, ValueIn,
         Sentence;
    var text := Written(d, f);
    NumberIsTidy(d, f);
    TidyParses(text);
    NumberReads(d, f, "");
    assert text + "" == text;
    NoSpaceToSkip("");
    if f != "" {
      LettersAreNoSpace('.');
      NoSpaceToSkip("." + (f + ""));
    }
  }

  lemma NumberIsTidy(d: string, f: string)
    requires IsNumber(d, f)
    ensures IsTidy(Written(d, f)) && Written(d, f) != ""
  {
    var s := Written(d, f);
    DigitsAreNoSpace(d);
    assert s[0] == d[0];
    if f != "" {
      DigitsAreNoSpace(f);
      assert s[|s| - 1] == f[|f| - 1];
    }
    forall i | 0 <= i < |s| ensures !IsUpper(s[i]) {
      assert IsDigit(s[i]) || s[i] == '.';
    }
  }

  lemma LastLetter(unit: string)
    requires unit in HOURS || unit in MINUTES
    ensures IsTidy(unit) && unit != ""
  {
  }

  lemma AloneIsTidy(number: string, pad: string, unit: string)
    requires IsTidy(number) && number != "" && AllSpace(pad) && IsTidy(unit) && unit != ""
    ensures IsTidy(number + (pad + unit))
  {
    hide IsSpace;
    var s := number + (pad + unit);
    assert s[0] == number[0] && s[|s| - 1] == unit[|unit| - 1];
    forall i | 0 <= i < |pad| ensures !IsUpper(pad[i]) {
      SpacesAreNotUpper(pad[i]);
    }
  }

  lemma SpacesAreNotUpper(c: char)
    ensures IsSpace(c) ==> !IsUpper(c)
  {
  }

  // --------------------------------------------------------------------- the clock forms

  const SUFFIXES: seq<string> := ["", "m", "min", "mins"]

  /** Hours and minutes with a colon or an `h` between them, with any space and any ending: `8:30` in full. */
  lemma ClockInFull(d: string, ahead: string, sign: string, behind: string, e: string, gap: string, unit: string)
    requires IsNumber(d, "") && IsNumber(e, "") && |e| <= 2 && (sign == ":" || sign == "h") && unit in SUFFIXES
    requires AllSpace(ahead) && AllSpace(behind) && AllSpace(gap) && (unit == "" ==> gap == "")
    ensures ParseWorkingMinutes(d + (ahead + (sign + (behind + (e + (gap + unit)))))) == Clock(Num(d), Num(e))
  {
    hide ParseWorkingMinutes, Bare, MinutesOnly, Split, Whole, Sentence, AllSpace, AllDigits, Num;
    ClockIsTidy(d, ahead, sign, behind, e, gap, unit);
    TidyParses(d + (ahead + (sign + (behind + (e + (gap + unit))))));
    ClockFits(d, ahead, sign, behind, e, gap, unit);
    WholeHours(Num(d), Num(e));
  }

  lemma ClockFits(d: string, ahead: string, sign: string, behind: string, e: string, gap: string, unit: string)
    requires IsNumber(d, "") && IsNumber(e, "") && |e| <= 2 && (sign == ":" || sign == "h") && unit in SUFFIXES
    requires AllSpace(ahead) && AllSpace(behind) && AllSpace(gap) && (unit == "" ==> gap == "")
    ensures var text := d + (ahead + (sign + (behind + (e + (gap + unit)))));
      Bare(text) == None && MinutesOnly(text) == None && Split(text) == Some((Num(d), Num(e)))
  {
    hide AfterSpace, AllDigits, Num, Run, ReadDecimal, ReadInt, IsSpace, AllSpace;
    var tail := e + (gap + unit);
    var rest := sign + (behind + tail);
    SignIsNoSpace(sign[0]);
    SpaceIsNoDigit(ahead, rest);
    AfterSpaceOf(ahead, rest);
    ReadsDigits(d, ahead + rest);
    assert rest[1..] == behind + tail;
    DigitsAreNoSpace(e);
    assert tail[0] == e[0];
    AfterSpaceOf(behind, tail);
    SuffixAfterSpace(gap, unit);
    ReadsDigits(e, gap + unit);
    RunOf(e, gap + unit);
  }

  /** Behind a colon there are no more than two digits. */
  lemma ThreeDigitsAreRefused(d: string, ahead: string, behind: string, e: string)
    requires IsNumber(d, "") && IsNumber(e, "") && |e| > 2 && AllSpace(ahead) && AllSpace(behind)
    ensures ParseWorkingMinutes(d + (ahead + (":" + (behind + e)))) == None
  {
    hide ParseWorkingMinutes, Bare, MinutesOnly, Split, Whole, FindHour, FindMinute, IsSpace, AllDigits;
    var text := d + (ahead + (":" + (behind + e)));
    assert e + ("" + "") == e;
    ClockIsTidy(d, ahead, ":", behind, e, "", "");
    TidyParses(text);
    ThreeDigitsDoNotFit(d, ahead, behind, e);
    NoUnitInClock(d, ahead, behind, e);
    NoHoursNamed(text);
    NoMinutesNamed(text);
  }

  lemma NoUnitInClock(d: string, ahead: string, behind: string, e: string)
    requires AllDigits(d) && AllDigits(e) && AllSpace(ahead) && AllSpace(behind)
    ensures var text := d + (ahead + (":" + (behind + e))); 'h' !in text && 'm' !in text
  {
    hide IsSpace;
    LettersAreNoSpace('h');
    LettersAreNoSpace('m');
  }

  lemma ThreeDigitsDoNotFit(d: string, ahead: string, behind: string, e: string)
    requires IsNumber(d, "") && IsNumber(e, "") && |e| > 2 && AllSpace(ahead) && AllSpace(behind)
    ensures var text := d + (ahead + (":" + (behind + e)));
      Bare(text) == None && MinutesOnly(text) == None && Split(text) == None && Whole(text) == None
  {
    hide AfterSpace, AllDigits, Num, Run, ReadDecimal, ReadInt, IsSpace, AllSpace;
    var rest := ":" + (behind + e);
    SignIsNoSpace(':');
    SpaceIsNoDigit(ahead, rest);
    AfterSpaceOf(ahead, rest);
    ReadsDigits(d, ahead + rest);
    assert rest[1..] == behind + e;
    DigitsAreNoSpace(e);
    AfterSpaceOf(behind, e);
    RunOf(e, "");
    assert e + "" == e;
  }

  lemma SignIsNoSpace(c: char)
    requires c == ':' || c == 'h'
    ensures !IsSpace(c) && !IsDigit(c)
  {
  }

  lemma SuffixAfterSpace(gap: string, unit: string)
    requires AllSpace(gap) && unit in SUFFIXES && (unit == "" ==> gap == "")
    ensures AfterSpace(gap + unit) == unit && IsMinuteSuffix(unit) && Stops(gap + unit)
    ensures gap + unit != "" ==> (gap + unit)[0] != '.'
  {
    hide IsSpace, AfterSpace;
    LettersAreNoSpace('m');
    if unit != "" {
      SpaceIsNoDigit(gap, unit);
    }
    AfterSpaceOf(gap, unit);
  }

  lemma ClockIsTidy(d: string, ahead: string, sign: string, behind: string, e: string, gap: string, unit: string)
    requires IsNumber(d, "") && IsNumber(e, "") && (sign == ":" || sign == "h") && unit in SUFFIXES
    requires AllSpace(ahead) && AllSpace(behind) && AllSpace(gap) && (unit == "" ==> gap == "")
    ensures IsTidy(d + (ahead + (sign + (behind + (e + (gap + unit))))))
  {
    hide AllSpace, AllDigits, IsTidy;
    PlainNumber(d);
    PlainNumber(e);
    SignIsTidy(sign);
    if unit == "" {
      AloneIsTidy(sign, behind, e);
      assert e + (gap + unit) == e;
    } else {
      LastLetter(unit);
      AloneIsTidy(e, gap, unit);
      AloneIsTidy(sign, behind, e + (gap + unit));
    }
    AloneIsTidy(d, ahead, sign + (behind + (e + (gap + unit))));
  }

  lemma PlainNumber(d: string)
    requires IsNumber(d, "")
    ensures IsTidy(d)
  {
    NumberIsTidy(d, "");
    assert Written(d, "") == d + "" == d;
  }

  lemma SignIsTidy(sign: string)
    requires sign == ":" || sign == "h"
    ensures IsTidy(sign)
  {
  }

  // ------------------------------------------------------------------- what is not read

  lemma {:induction false} NoHoursNamed(s: string)
    requires 'h' !in s
    ensures FindHour(s) == None
  {
    if s == "" {
    } else {
      hide ReadDecimal, AfterSpace;
      var d := ReadDecimal(s);
      if d.Some? {
        RestIsOfText(s, 'h');
      }
      NoHoursNamed(s[1..]);
    }
  }

  lemma {:induction false} NoMinutesNamed(s: string)
    requires 'm' !in s
    ensures FindMinute(s) == None
  {
    if s == "" {
    } else {
      hide ReadInt, AfterSpace;
      var d := ReadInt(s);
      if d.Some? {
        RestIsOfText(s, 'm');
      }
      NoMinutesNamed(s[1..]);
    }
  }

  /** What follows a number holds no character that the text does not. */
  lemma RestIsOfText(s: string, c: char)
    requires c !in s
    ensures ReadDecimal(s).Some? ==> c !in AfterSpace(ReadDecimal(s).value.rest)
    ensures ReadInt(s).Some? ==> c !in AfterSpace(ReadInt(s).value.rest)
  {
    hide Num, Pow10;
    SliceIsOfText(s, c);
  }

  lemma SliceIsOfText(s: string, c: char)
    requires c !in s
    ensures forall i :: 0 <= i <= |s| ==> c !in s[i..]
    ensures forall i, j :: 0 <= i <= |s| && 0 <= j <= |s[i..]| ==> c !in s[i..][j..]
    ensures forall i, j, k :: 0 <= i <= |s| && 0 <= j <= |s[i..]| && 0 <= k <= |s[i..][j..]| ==> c !in s[i..][j..][k..]
  {
  }

  /** Text with no unit in it and no colon, and not a number alone, is refused. */
  lemma NeitherUnit(text: string)
    requires IsTidy(text) && 'h' !in text && 'm' !in text && ':' !in text
    requires exists i :: 0 <= i < |text| && !IsDigit(text[i]) && text[i] != '.'
    ensures ParseWorkingMinutes(text) == None
  {
    hide ParseWorkingMinutes, FindHour, FindMinute, Bare, MinutesOnly, Split, Whole;
    TidyParses(text);
    NoHoursNamed(text);
    NoMinutesNamed(text);
    FitsNoPattern(text);
  }

  lemma FitsNoPattern(text: string)
    requires IsTidy(text) && 'h' !in text && 'm' !in text && ':' !in text
    requires exists i :: 0 <= i < |text| && !IsDigit(text[i]) && text[i] != '.'
    ensures Bare(text) == None && MinutesOnly(text) == None && Split(text) == None && Whole(text) == None
  {
    hide ReadInt, ReadDecimal, AfterSpace;
    RestIsOfText(text, 'h');
    RestIsOfText(text, 'm');
    RestIsOfText(text, ':');
    NumberIsNotAll(text);
  }

  lemma NumberIsNotAll(text: string)
    requires IsTidy(text) && exists i :: 0 <= i < |text| && !IsDigit(text[i]) && text[i] != '.'
    ensures ReadDecimal(text).Some? ==>
      ReadDecimal(text).value.rest != "" && AfterSpace(ReadDecimal(text).value.rest) != ""
    ensures ReadInt(text).Some? ==> AfterSpace(ReadInt(text).value.rest) != ""
  {
  }

  // ---------------------------------------------------------------- space and capitals

  /** Space around a text, and capitals in it, make no difference. */
  lemma SpaceAndCaseDoNotMatter(left: string, raw: string, right: string)
    requires AllSpace(left) && AllSpace(right)
    ensures ParseWorkingMinutes(left + raw + right) == ParseWorkingMinutes(raw)
    ensures ParseWorkingMinutes(Lower(raw)) == ParseWorkingMinutes(raw)
  {
    hide ParseTidy, Trim, Lower;
    TrimOfPadded(left, raw, right);
    LowerOfTrimmed(raw);
  }

  /** One unit is enough, and words do not matter: two hours, an hour and a half. */
  lemma AboutTwoHours()
    ensures ParseWorkingMinutes("about 2 hours") == Some(120)
    ensures ParseWorkingMinutes("90 minutes") == Some(90)
  {
    hide ParseWorkingMinutes;
    TwoAndNinety();
    AboutIsTidy();
    HoursInWords("about ", "2", "", " ", "hours", "");
    MinutesAlone("90", " ", "minutes");
  }

  lemma TwoAndNinety()
    ensures IsNumber("2", "") && IsNumber("90", "") && Num("2") == 2 && Num("90") == 90
    ensures Round(60.0 * ValueIn("2", "")) == 120
  {
    assert "90"[..1] == "9" && "9"[..0] == "" && "2"[..0] == "";
    assert Num("9") == 9;
  }

  lemma AboutIsTidy()
    ensures "about " + (Written("2", "") + (" " + ("hours" + ""))) == "about 2 hours"
    ensures IsTidy("about 2 hours") && NoDigit("about ") && AllSpace(" ")
    ensures "90" + (" " + "minutes") == "90 minutes"
  {
    assert " " + ("hours" + "") == " hours";
    assert Written("2", "") == "2" + "" == "2";
    assert "2" + " hours" == "2 hours";
    assert "about " + "2 hours" == "about 2 hours";
    assert "90" + (" " + "minutes") == "90 minutes";
  }
}

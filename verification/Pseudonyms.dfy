/**
 * Real names out, labels in, and back: bijective base-26 suffixes, the maps that
 * hand out labels, and the restoring of names one label at a time.
 */
module Pseudonyms {
  import opened Text

  // ------------------------------------------------------------------------ suffixes

  predicate AllCapitals(s: string) {
    forall i :: 0 <= i < |s| ==> IsUpper(s[i])
  }

  /** `String.fromCharCode(65 + n)` */
  function Letter(n: nat): (c: char)
    requires n < 26
    ensures IsUpper(c)
  {
    (65 + n) as char
  }

  function LetterValue(c: char): (n: nat)
    requires IsUpper(c)
    ensures n < 26 && Letter(n) == c
  {
    c as int - 65
  }

  /** The number's letters: A, B, ... Z, AA, AB, ... */
  function Suffix(n: nat): (s: string)
    ensures AllCapitals(s)
    ensures n > 0 <==> s != ""
  {
    if n == 0 then "" else Suffix((n - 1) / 26) + [Letter((n - 1) % 26)]
  }

  /** The number a run of capitals stands for. */
  function Value(s: string): nat
    requires AllCapitals(s)
  {
    if s == "" then 0 else 26 * Value(s[..|s| - 1]) + LetterValue(s[|s| - 1]) + 1
  }

  method SuffixOf(n: nat) returns (out: string)
    ensures out == Suffix(n)
  {
    out := "";
    var i := n;
    while i > 0
      invariant Suffix(n) == Suffix(i) + out
    {
      var c := Letter((i - 1) % 26);
      assert Suffix((i - 1) / 26) + [c] + out == Suffix((i - 1) / 26) + ([c] + out);
      out := [c] + out;
      i := (i - 1) / 26;
    }
    assert Suffix(0) + out == out;
  }

  /** Every number reads back from its letters. */
  lemma {:induction false} ValueOfSuffix(n: nat)
    ensures Value(Suffix(n)) == n
  {
    if n == 0 {
    } else {
      ValueOfSuffix((n - 1) / 26);
      var front, c := Suffix((n - 1) / 26), Letter((n - 1) % 26);
      assert (front + [c])[..|front|] == front;
      assert LetterValue(c) == (n - 1) % 26;
    }
  }

  /** Every run of capitals is the letters of its number. */
  lemma {:induction false} SuffixOfValue(s: string)
    requires AllCapitals(s)
    ensures Suffix(Value(s)) == s
    decreases |s|
  {
    if s == "" {
    } else {
      var n, front := Value(s), s[..|s| - 1];
      SuffixOfValue(front);
      assert (n - 1) / 26 == Value(front) && (n - 1) % 26 == LetterValue(s[|s| - 1]);
      assert s == front + [s[|s| - 1]];
    }
  }

  // -------------------------------------------------------------------------- labels

  datatype Kind = Person | Place

  function Word(kind: Kind): string {
    if kind == Person then "Person" else "University"
  }

  function Label(kind: Kind, n: nat): string {
    Word(kind) + " " + Suffix(n)
  }

  /** No two labels are alike. */
  lemma LabelsAreDistinct(k1: Kind, n1: nat, k2: Kind, n2: nat)
    ensures Label(k1, n1) == Label(k2, n2) <==> k1 == k2 && n1 == n2
  {
    ValueOfSuffix(n1);
    ValueOfSuffix(n2);
    var l1, l2 := Label(k1, n1), Label(k2, n2);
    assert l1[0] == Word(k1)[0] && l2[0] == Word(k2)[0];
    assert l1[|Word(k1)| + 1..] == Suffix(n1) && l2[|Word(k2)| + 1..] == Suffix(n2);
  }

  /** A name and the label it was given. */
  datatype Given = Given(realName: string, tag: string)

  /** The `i`-th name met, none of them blank and no two the same, has the `i`-th label. */
  predicate InOrder(kind: Kind, given: seq<Given>) {
    && (forall i :: 0 <= i < |given| ==> given[i].tag == Label(kind, i + 1) && Trim(given[i].realName) != "")
    && (forall i, j :: 0 <= i < j < |given| ==> given[i].realName != given[j].realName)
  }

  lemma NextInOrder(kind: Kind, given: seq<Given>, realName: string, tag: string)
    requires InOrder(kind, given) && Trim(realName) != "" && tag == Label(kind, |given| + 1)
    requires forall i :: 0 <= i < |given| ==> given[i].realName != realName
    ensures InOrder(kind, given + [Given(realName, tag)])
  {
    hide Trim, Label;
  }

  /** Within a map, names and labels determine each other. */
  lemma NamesAndLabelsPairOff(kind: Kind, given: seq<Given>, i: nat, j: nat)
    requires InOrder(kind, given) && i < |given| && j < |given|
    ensures given[i].tag == given[j].tag <==> given[i].realName == given[j].realName
  {
    hide Trim, Label;
    LabelsAreDistinct(kind, i + 1, kind, j + 1);
  }

  /** One of the two maps: names in the order they were first met. */
  class Register {
    const kind: Kind
    var given: seq<Given>

    predicate Valid()
      reads this
    {
      InOrder(kind, given)
    }

    constructor (kind: Kind)
      ensures Valid() && this.kind == kind && given == []
    {
      this.kind := kind;
      given := [];
    }

    /**
     * `person` or `place`: a blank name stays as it is, a known one keeps its
     * label, a new one gets the next.
     */
    method LabelFor(realName: string) returns (tag: string)
      requires Valid()
      modifies this
      ensures Valid()
      ensures old(given) <= given <= old(given) + [Given(realName, Label(kind, |old(given)| + 1))]
      ensures if Trim(realName) == "" then tag == realName && given == old(given)
              else Given(realName, tag) in given
    {
      hide Trim, InOrder, Suffix;
      if Trim(realName) == "" { return realName; }
      for i := 0 to |given|
        invariant forall j :: 0 <= j < i ==> given[j].realName != realName
        invariant given == old(given)
      {
        if given[i].realName == realName {
          assert given[i] in given;
          return given[i].tag;
        }
      }
      var suffix := SuffixOf(|given| + 1);
      tag := Word(kind) + " " + suffix;
      NextInOrder(kind, given, realName, tag);
      given := given + [Given(realName, tag)];
    }
  }

  // ----------------------------------------------------------------------- restoring

  /** A character that stays in a name: a letter or mark of Unicode, white space, or one of `.`, `'`, `’`, `-`. */
  predicate Stays(c: char, letter: char -> bool) {
    letter(c) || IsSpace(c) || c == '.' || c == '\'' || c == '\U{2019}' || c == '-'
  }

  function Strip(s: string, letter: char -> bool): string {
    if s == "" then "" else (if Stays(s[0], letter) then [s[0]] else "") + Strip(s[1..], letter)
  }

  /** Each run of white space as one space. */
  function Collapse(s: string): string {
    if s == "" then ""
    else if !IsSpace(s[0]) then [s[0]] + Collapse(s[1..])
    else if |s| > 1 && IsSpace(s[1]) then Collapse(s[1..])
    else " " + Collapse(s[1..])
  }

  /** `asName`: what is left of a name, or the name itself if nothing is. */
  function AsName(realName: string, letter: char -> bool): string {
    var kept := Trim(Collapse(Strip(realName, letter)));
    if kept == "" then realName else kept
  }

  /** Only characters that stay, the one white space among them a single space. */
  predicate IsClean(s: string, letter: char -> bool) {
    && (forall i :: 0 <= i < |s| ==> Stays(s[i], letter) && (IsSpace(s[i]) ==> s[i] == ' '))
    && forall i :: 0 < i < |s| ==> !(IsSpace(s[i - 1]) && IsSpace(s[i]))
  }

  /** Nothing in a name stays but white space. */
  predicate NothingStays(s: string, letter: char -> bool) {
    forall i :: 0 <= i < |s| && Stays(s[i], letter) ==> IsSpace(s[i])
  }

  predicate AllStay(s: string, letter: char -> bool) {
    forall i :: 0 <= i < |s| ==> Stays(s[i], letter)
  }

  predicate IsTight(s: string) {
    s != "" && !IsSpace(s[0]) && !IsSpace(s[|s| - 1])
  }

  lemma AllSpaceNext(c: char, s: string)
    ensures AllSpace([c] + s) <==> IsSpace(c) && AllSpace(s)
  {
    hide IsSpace;
    assert forall i :: 0 < i < |s| + 1 ==> ([c] + s)[i] == s[i - 1];
    assert ([c] + s)[0] == c;
    assert forall i :: 0 <= i < |s| ==> ([c] + s)[i + 1] == s[i];
  }

  lemma AllStayNext(c: char, s: string, letter: char -> bool)
    ensures AllStay([c] + s, letter) <==> Stays(c, letter) && AllStay(s, letter)
    ensures NothingStays([c] + s, letter) <==> (Stays(c, letter) ==> IsSpace(c)) && NothingStays(s, letter)
  {
    hide IsSpace, Stays;
    assert forall i :: 0 < i < |s| + 1 ==> ([c] + s)[i] == s[i - 1];
    assert ([c] + s)[0] == c;
    assert forall i :: 0 <= i < |s| ==> ([c] + s)[i + 1] == s[i];
  }

  lemma {:induction false} StripKeeps(s: string, letter: char -> bool)
    ensures AllStay(Strip(s, letter), letter)
    ensures AllStay(s, letter) ==> Strip(s, letter) == s
    ensures AllSpace(Strip(s, letter)) <==> NothingStays(s, letter)
  {
    if s == "" {
    } else {
      hide IsSpace, Stays, AllStay, NothingStays, AllSpace;
      var c, r := s[0], Strip(s[1..], letter);
      StripKeeps(s[1..], letter);
      assert [c] + s[1..] == s && "" + r == r;
      AllStayNext(c, s[1..], letter);
      AllStayNext(c, r, letter);
      AllSpaceNext(c, r);
    }
  }

  /** May stand ahead of a clean text: it stays, and is no second space. */
  predicate Precedes(c: char, s: string, letter: char -> bool) {
    Stays(c, letter) && (IsSpace(c) ==> c == ' ') && !(s != "" && IsSpace(c) && IsSpace(s[0]))
  }

  lemma CleanNext(c: char, s: string, letter: char -> bool)
    ensures IsClean([c] + s, letter) <==> IsClean(s, letter) && Precedes(c, s, letter)
  {
    hide IsSpace, Stays;
    var t := [c] + s;
    assert forall i :: 0 < i < |t| ==> t[i] == s[i - 1];
    assert t[0] == c;
    assert forall i :: 0 <= i < |s| ==> t[i + 1] == s[i];
    assert s != "" ==> t[1] == s[0];
    assert forall i :: 0 < i < |s| ==> s[i - 1] == t[i] && s[i] == t[i + 1];
    if IsClean(t, letter) && s != "" {
      assert !(IsSpace(t[1 - 1]) && IsSpace(t[1]));
    }
    if IsClean(t, letter) {
      forall i | 0 < i < |s| ensures !(IsSpace(s[i - 1]) && IsSpace(s[i])) {
        assert !(IsSpace(t[(i + 1) - 1]) && IsSpace(t[i + 1]));
      }
    }
  }

  lemma SpaceStays(letter: char -> bool)
    ensures Stays(' ', letter) && IsSpace(' ')
  {
  }

  lemma {:induction false} CollapseCleans(s: string, letter: char -> bool)
    requires AllStay(s, letter)
    ensures IsClean(Collapse(s), letter)
    ensures AllSpace(Collapse(s)) <==> AllSpace(s)
    ensures s != "" ==> Collapse(s) != "" && (IsSpace(Collapse(s)[0]) <==> IsSpace(s[0]))
    ensures IsClean(s, letter) ==> Collapse(s) == s
  {
    if s == "" {
    } else {
      hide IsSpace, Stays, AllStay, AllSpace, IsClean;
      var c, rest := s[0], s[1..];
      assert [c] + rest == s;
      AllStayNext(c, rest, letter);
      CollapseCleans(rest, letter);
      SpaceStays(letter);
      CleanNext(c, rest, letter);
      CleanNext(if IsSpace(c) then ' ' else c, Collapse(rest), letter);
      AllSpaceNext(c, rest);
      AllSpaceNext(if IsSpace(c) then ' ' else c, Collapse(rest));
    }
  }

  /**
   * A name comes out clean, with no space at either end, unless nothing in it
   * stays but white space; then it is left as it is. A clean one is left alone.
   */
  lemma AsNameIsClean(realName: string, letter: char -> bool)
    ensures NothingStays(realName, letter) ==> AsName(realName, letter) == realName
    ensures !NothingStays(realName, letter) ==>
      var name := AsName(realName, letter);
      IsClean(name, letter) && IsTight(name) && AsName(name, letter) == name
  {
    hide IsSpace, Stays, Trim, AllSpace, IsClean;
    var stripped := Strip(realName, letter);
    StripKeeps(realName, letter);
    CollapseCleans(stripped, letter);
    if !NothingStays(realName, letter) {
      TrimIsClean(Collapse(stripped), letter);
      var name := AsName(realName, letter);
      assert name == Trim(Collapse(stripped));
      CleanStays(name, letter);
    } else {
      TrimProperty(Collapse(stripped));
    }
  }

  lemma TrimIsClean(s: string, letter: char -> bool)
    requires IsClean(s, letter) && !AllSpace(s)
    ensures IsClean(Trim(s), letter) && IsTight(Trim(s))
  {
    TrimProperty(s);
    hide IsSpace, Stays, Trim, IsClean;
    var i, j :| 0 <= i < j <= |s| && Trim(s) == s[i..j] && !IsSpace(s[i]) && !IsSpace(s[j - 1]);
    SliceIsClean(s, i, j, letter);
  }

  lemma SliceIsClean(s: string, i: nat, j: nat, letter: char -> bool)
    requires IsClean(s, letter) && i <= j <= |s|
    ensures IsClean(s[i..j], letter)
  {
    hide IsSpace, Stays;
    var t := s[i..j];
    forall k | 0 < k < |t| ensures !(IsSpace(t[k - 1]) && IsSpace(t[k])) {
      assert !(IsSpace(s[(i + k) - 1]) && IsSpace(s[i + k]));
    }
  }

  lemma CleanStays(name: string, letter: char -> bool)
    requires IsClean(name, letter) && IsTight(name)
    ensures AsName(name, letter) == name
  {
    hide IsSpace, Stays, Trim;
    StripKeeps(name, letter);
    CollapseCleans(name, letter);
    TrimOfTight(name);
  }

  // ------------------------------------------------------------- what is left of a name

  /** What may stand in a word besides letters and their marks. */
  const NAME_SIGNS: seq<char> := ['.', '\'', '\U{2019}', '-']

  lemma WhatStays(c: char, letter: char -> bool)
    ensures !IsSpace(c) ==> (Stays(c, letter) <==> letter(c) || c in NAME_SIGNS)
    ensures IsSpace(c) ==> Stays(c, letter)
  {
    hide IsSpace;
  }

  /**
   * The words of a name, `word` already begun: white space ends a word, a character
   * that does not stay is dropped, and the letters on either side of it stay together.
   */
  function Words(s: string, word: string, letter: char -> bool): seq<string> {
    if s == "" then if word == "" then [] else [word]
    else if IsSpace(s[0]) then (if word == "" then [] else [word]) + Words(s[1..], "", letter)
    else if letter(s[0]) || s[0] in NAME_SIGNS then Words(s[1..], word + [s[0]], letter)
    else Words(s[1..], word, letter)
  }

  /** Words with single spaces between them. */
  function Spaced(words: seq<string>): string {
    if words == [] then "" else if |words| == 1 then words[0] else words[0] + " " + Spaced(words[1..])
  }

  lemma {:induction false} WordsOfStripped(s: string, word: string, letter: char -> bool)
    ensures Words(Strip(s, letter), word, letter) == Words(s, word, letter)
  {
    hide IsSpace;
    if s == "" {
    } else {
      hide Stays;
      WhatStays(s[0], letter);
      var r := Strip(s[1..], letter);
      WordsOfStripped(s[1..], "", letter);
      WordsOfStripped(s[1..], word, letter);
      WordsOfStripped(s[1..], word + [s[0]], letter);
      assert ([s[0]] + r)[1..] == r && "" + r == r;
    }
  }

  lemma {:induction false} WordsOfCollapsed(s: string, word: string, letter: char -> bool)
    ensures Words(Collapse(s), word, letter) == Words(s, word, letter)
    decreases |s|
  {
    hide Stays;
    SpaceIsSpace();
    if s == "" {
    } else {
      hide IsSpace;
      var r := Collapse(s[1..]);
      WordsOfCollapsed(s[1..], "", letter);
      WordsOfCollapsed(s[1..], word, letter);
      WordsOfCollapsed(s[1..], word + [s[0]], letter);
      assert ([s[0]] + r)[1..] == r && (" " + r)[1..] == r;
      if IsSpace(s[0]) && |s| > 1 && IsSpace(s[1]) {
        SecondSpace(s, word, letter);
      }
    }
  }

  lemma SpaceIsSpace()
    ensures IsSpace(' ')
  {
  }

  /** A second space ends no other word. */
  lemma SecondSpace(s: string, word: string, letter: char -> bool)
    requires |s| > 1 && IsSpace(s[0]) && IsSpace(s[1])
    ensures Words(s, word, letter) == Words(s[1..], word, letter)
  {
    hide IsSpace, Stays;
    assert [] + Words(s[1..][1..], "", letter) == Words(s[1..][1..], "", letter);
  }

  lemma {:induction false} WordsBehindSpace(pad: string, s: string, letter: char -> bool)
    requires AllSpace(pad)
    ensures Words(pad + s, "", letter) == Words(s, "", letter)
    decreases |pad|
  {
    hide IsSpace, Stays;
    if pad == "" {
      assert pad + s == s;
    } else {
      WordsBehindSpace(pad[1..], s, letter);
      assert (pad + s)[1..] == pad[1..] + s;
    }
  }

  lemma {:induction false} WordsAheadOfSpace(s: string, word: string, pad: string, letter: char -> bool)
    requires AllSpace(pad)
    ensures Words(s + pad, word, letter) == Words(s, word, letter)
    decreases |s|
  {
    hide IsSpace, Stays;
    if s == "" {
      assert s + pad == pad && pad + "" == pad;
      WordsBehindSpace(pad, "", letter);
      if pad != "" {
        WordsBehindSpace(pad[1..], "", letter);
        assert pad[1..] + "" == pad[1..];
      }
    } else {
      assert (s + pad)[1..] == s[1..] + pad;
      WordsAheadOfSpace(s[1..], "", pad, letter);
      WordsAheadOfSpace(s[1..], word, pad, letter);
      WordsAheadOfSpace(s[1..], word + [s[0]], pad, letter);
    }
  }

  lemma WordsOfTrimmed(s: string, letter: char -> bool)
    ensures Words(Trim(s), "", letter) == Words(s, "", letter)
  {
    hide IsSpace, Stays, Trim, Words, AllSpace;
    TrimProperty(s);
    if AllSpace(s) {
      WordsBehindSpace(s, "", letter);
      assert s + "" == s;
    } else {
      var i, j :| 0 <= i < j <= |s| && Trim(s) == s[i..j] && AllSpace(s[..i]) && AllSpace(s[j..]);
      ThreeSlices(s, i, j);
      WordsAmongSpace(s[..i], s[i..j], s[j..], letter);
    }
  }

  lemma ThreeSlices(s: string, i: nat, j: nat)
    requires i <= j <= |s|
    ensures s == s[..i] + (s[i..j] + s[j..])
  {
  }

  lemma WordsAmongSpace(left: string, s: string, right: string, letter: char -> bool)
    requires AllSpace(left) && AllSpace(right)
    ensures Words(left + (s + right), "", letter) == Words(s, "", letter)
  {
    hide *;
    WordsBehindSpace(left, s + right, letter);
    WordsAheadOfSpace(s, "", right, letter);
  }

  /** A clean text without space at its end is its words with single spaces between them. */
  lemma {:induction false} CleanIsSpaced(s: string, word: string, letter: char -> bool)
    requires IsClean(s, letter) && (s != "" ==> !IsSpace(s[|s| - 1])) && (s == "" || IsSpace(s[0]) ==> word != "")
    ensures Words(s, word, letter) != [] && Spaced(Words(s, word, letter)) == word + s
    decreases |s|
  {
    hide IsSpace, Stays, Trim;
    if s == "" {
      assert word + s == word;
    } else {
      var c, rest := s[0], s[1..];
      assert [c] + rest == s;
      CleanNext(c, rest, letter);
      WhatStays(c, letter);
      if IsSpace(c) {
        CleanIsSpaced(rest, "", letter);
        assert ([word] + Words(rest, "", letter))[1..] == Words(rest, "", letter);
        assert word + " " + ("" + rest) == word + s;
      } else {
        CleanIsSpaced(rest, word + [c], letter);
        assert word + [c] + rest == word + s;
      }
    }
  }

  /** A name that has any words left comes out as those, with single spaces between them. */
  lemma AsNameIsItsWords(realName: string, letter: char -> bool)
    requires !NothingStays(realName, letter)
    ensures AsName(realName, letter) == Spaced(Words(realName, "", letter))
  {
    hide IsSpace, Stays, Trim, Words, Spaced, Collapse, Strip, NothingStays, IsClean;
    var stripped := Strip(realName, letter);
    WordsOfStripped(realName, "", letter);
    WordsOfCollapsed(stripped, "", letter);
    WordsOfTrimmed(Collapse(stripped), letter);
    AsNameIsClean(realName, letter);
    NameIsTrimmed(realName, letter);
    var name := AsName(realName, letter);
    CleanIsSpaced(name, "", letter);
    assert "" + name == name;
  }

  lemma NameIsTrimmed(realName: string, letter: char -> bool)
    requires !NothingStays(realName, letter)
    ensures AsName(realName, letter) == Trim(Collapse(Strip(realName, letter)))
  {
    hide IsSpace, Stays, Trim, Collapse, Strip;
    StripKeeps(realName, letter);
    CollapseCleans(Strip(realName, letter), letter);
    TrimProperty(Collapse(Strip(realName, letter)));
  }

  /** A label to replace, and the name to put in its place. */
  datatype Swap = Swap(kind: Kind, n: nat, name: string)

  function LabelOf(s: Swap): string {
    Label(s.kind, s.n)
  }

  function Cleaned(swaps: seq<Swap>, letter: char -> bool): (r: seq<Swap>)
    ensures |r| == |swaps|
    ensures forall k :: 0 <= k < |swaps| ==> r[k] == swaps[k].(name := AsName(swaps[k].name, letter))
  {
    if swaps == [] then []
    else [swaps[0].(name := AsName(swaps[0].name, letter))] + Cleaned(swaps[1..], letter)
  }

  /** `text.split(label).join(name)`: occurrences from the left, none overlapping. */
  function ReplaceAll(text: string, tag: string, name: string): string
    requires tag != ""
    decreases |text|
  {
    if text == "" then ""
    else if tag <= text then name + ReplaceAll(text[|tag|..], tag, name)
    else [text[0]] + ReplaceAll(text[1..], tag, name)
  }

  /** The replacements of `put`, in the given order. */
  function Sequential(text: string, swaps: seq<Swap>): string {
    if swaps == [] then text
    else
      var n := |swaps| - 1;
      ReplaceAll(Sequential(text, swaps[..n]), LabelOf(swaps[n]), swaps[n].name)
  }

  /** Longest label first, in the order given among equals: a stable sort. */
  function InsertByLength(s: Swap, others: seq<Swap>): (r: seq<Swap>)
    ensures |r| == |others| + 1
    ensures multiset(r) == multiset(others) + multiset{s}
  {
    if others == [] || |LabelOf(s)| >= |LabelOf(others[0])| then [s] + others
    else
      assert others == [others[0]] + others[1..];
      [others[0]] + InsertByLength(s, others[1..])
  }

  function LongestFirst(swaps: seq<Swap>): (r: seq<Swap>)
    ensures |r| == |swaps|
    ensures multiset(r) == multiset(swaps)
  {
    if swaps == [] then []
    else
      assert swaps == [swaps[0]] + swaps[1..];
      InsertByLength(swaps[0], LongestFirst(swaps[1..]))
  }

  predicate Descending(swaps: seq<Swap>) {
    forall i, j :: 0 <= i < j < |swaps| ==> |LabelOf(swaps[i])| >= |LabelOf(swaps[j])|
  }

  lemma {:induction false} InsertKeepsDescending(s: Swap, others: seq<Swap>)
    requires Descending(others)
    ensures Descending(InsertByLength(s, others))
  {
    hide LabelOf;
    if others != [] && |LabelOf(s)| < |LabelOf(others[0])| {
      var r := InsertByLength(s, others[1..]);
      InsertKeepsDescending(s, others[1..]);
      forall j | 0 <= j < |r| ensures |LabelOf(others[0])| >= |LabelOf(r[j])| {
        assert r[j] in multiset(r);
        assert r[j] in multiset(others[1..]) || r[j] == s;
      }
    }
  }

  lemma {:induction false} LongestFirstDescends(swaps: seq<Swap>)
    ensures Descending(LongestFirst(swaps))
  {
    if swaps == [] {
    } else {
      LongestFirstDescends(swaps[1..]);
      InsertKeepsDescending(swaps[0], LongestFirst(swaps[1..]));
    }
  }

  lemma {:induction false} CleaningKeepsOrder(s: Swap, others: seq<Swap>, letter: char -> bool)
    ensures Cleaned(InsertByLength(s, others), letter)
         == InsertByLength(s.(name := AsName(s.name, letter)), Cleaned(others, letter))
  {
    hide AsName, Label;
    if others == [] || |LabelOf(s)| >= |LabelOf(others[0])| {
      assert ([s] + others)[1..] == others;
    } else {
      var r := InsertByLength(s, others[1..]);
      CleaningKeepsOrder(s, others[1..], letter);
      assert ([others[0]] + r)[1..] == r;
    }
  }

  /** Names are cleaned as they are put back; cleaning them first comes to the same. */
  lemma {:induction false} CleaningFirst(back: seq<Swap>, letter: char -> bool)
    ensures Cleaned(LongestFirst(back), letter) == LongestFirst(Cleaned(back, letter))
  {
    hide AsName, InsertByLength;
    if back == [] {
    } else {
      CleaningFirst(back[1..], letter);
      CleaningKeepsOrder(back[0], LongestFirst(back[1..]), letter);
    }
  }

  /** The labels of one map, each with its name. */
  function Swaps(kind: Kind, given: seq<Given>): (swaps: seq<Swap>)
    ensures |swaps| == |given|
    ensures forall i :: 0 <= i < |given| ==> swaps[i] == Swap(kind, i + 1, given[i].realName)
  {
    seq(|given|, i requires 0 <= i < |given| => Swap(kind, i + 1, given[i].realName))
  }

  /** The labels of both maps, people first. */
  function Back(people: seq<Given>, places: seq<Given>): seq<Swap> {
    Swaps(Person, people) + Swaps(Place, places)
  }

  /** Every label with the name that takes its place, in the order they are replaced. */
  function Replacements(people: seq<Given>, places: seq<Given>, letter: char -> bool): seq<Swap> {
    LongestFirst(Cleaned(Back(people, places), letter))
  }

  /** `put`, given the two maps and which characters are letters or marks. */
  method Put(text: string, people: Register, places: Register, letter: char -> bool) returns (out: string)
    requires people.Valid() && people.kind == Person && places.Valid() && places.kind == Place
    ensures out == Sequential(text, Replacements(people.given, places.given, letter))
    ensures ComesBack(text, out, Replacements(people.given, places.given, letter))
  {
    hide AsName, Cleaned, InOrder, Back, ComesBack;
    var back := Back(people.given, places.given);
    var sorted := LongestFirst(back);
    ghost var cleaned := Cleaned(sorted, letter);
    out := text;
    for i := 0 to |sorted|
      invariant out == Sequential(text, cleaned[..i])
    {
      assert cleaned[..i + 1][..i] == cleaned[..i];
      out := ReplaceAll(out, LabelOf(sorted[i]), AsName(sorted[i].name, letter));
    }
    assert cleaned[..|sorted|] == cleaned;
    CleaningFirst(back, letter);
    PutComesBack(text, people.given, places.given, letter);
  }

  // ------------------------------------------------------------- replies and their text

  /** A reply as it is meant: running text, and mentions of what a label stands for. */
  datatype Part = Said(s: string) | Mention(k: nat)

  /** A part when the first `j` labels have been replaced. */
  function Shown(p: Part, swaps: seq<Swap>, j: nat): string
    requires p.Mention? ==> p.k < |swaps|
  {
    match p
    case Said(s) => s
    case Mention(k) => if k < j then swaps[k].name else LabelOf(swaps[k])
  }

  predicate Mentions(parts: seq<Part>, swaps: seq<Swap>) {
    forall i :: 0 <= i < |parts| && parts[i].Mention? ==> parts[i].k < |swaps|
  }

  function Mixed(parts: seq<Part>, swaps: seq<Swap>, j: nat): string
    requires Mentions(parts, swaps)
  {
    if parts == [] then "" else Shown(parts[0], swaps, j) + Mixed(parts[1..], swaps, j)
  }

  /** The reply as the model wrote it, every mention a label. */
  function Labelled(parts: seq<Part>, swaps: seq<Swap>): string
    requires Mentions(parts, swaps)
  {
    Mixed(parts, swaps, 0)
  }

  /** The reply with every label replaced at once by its name. */
  function Named(parts: seq<Part>, swaps: seq<Swap>): string
    requires Mentions(parts, swaps)
  {
    Mixed(parts, swaps, |swaps|)
  }

  // ------------------------------------------------------ replacing where nothing strays

  /** No occurrence of `label` in `part + rest` starts inside `part`. */
  predicate NoStray(part: string, rest: string, tag: string) {
    forall o :: 0 <= o < |part| ==> !(tag <= part[o..] + rest)
  }

  /** The only occurrences of the `j`-th label are the mentions of it. */
  predicate Clear(parts: seq<Part>, swaps: seq<Swap>, j: nat)
    requires Mentions(parts, swaps) && j < |swaps|
  {
    parts != [] ==>
      && (parts[0] != Mention(j) ==>
            NoStray(Shown(parts[0], swaps, j), Mixed(parts[1..], swaps, j), LabelOf(swaps[j])))
      && Clear(parts[1..], swaps, j)
  }

  lemma {:induction false} CopyPart(part: string, rest: string, tag: string, name: string)
    requires tag != "" && NoStray(part, rest, tag)
    ensures ReplaceAll(part + rest, tag, name) == part + ReplaceAll(rest, tag, name)
    decreases |part|
  {
    if part == "" {
      assert part + rest == rest;
    } else {
      assert part[0..] == part;
      assert (part + rest)[1..] == part[1..] + rest;
      forall o | 0 <= o < |part| - 1 ensures part[1..][o..] == part[o + 1..] {
      }
      CopyPart(part[1..], rest, tag, name);
    }
  }

  lemma {:induction false} ReplaceOne(parts: seq<Part>, swaps: seq<Swap>, j: nat)
    requires Mentions(parts, swaps) && j < |swaps| && Clear(parts, swaps, j)
    ensures ReplaceAll(Mixed(parts, swaps, j), LabelOf(swaps[j]), swaps[j].name) == Mixed(parts, swaps, j + 1)
    decreases |parts|
  {
    hide LabelOf;
    if parts == [] {
    } else {
      var tag, rest := LabelOf(swaps[j]), Mixed(parts[1..], swaps, j);
      ReplaceOne(parts[1..], swaps, j);
      if parts[0] == Mention(j) {
        assert (tag + rest)[|tag|..] == rest;
        assert LabelOf(swaps[j]) != "" by { LabelNotEmpty(swaps[j]); }
      } else {
        LabelNotEmpty(swaps[j]);
        CopyPart(Shown(parts[0], swaps, j), rest, tag, swaps[j].name);
      }
    }
  }

  lemma LabelNotEmpty(s: Swap)
    ensures LabelOf(s) != ""
  {
  }

  /** If no label strays at its turn, replacing one by one is replacing all at once. */
  lemma {:induction false} SequentialIsSimultaneous(parts: seq<Part>, swaps: seq<Swap>, j: nat)
    requires Mentions(parts, swaps) && j <= |swaps|
    requires forall i :: 0 <= i < |swaps| ==> Clear(parts, swaps, i)
    ensures Sequential(Labelled(parts, swaps), swaps[..j]) == Mixed(parts, swaps, j)
  {
    if j == 0 {
    } else {
      SequentialIsSimultaneous(parts, swaps, j - 1);
      assert swaps[..j][..j - 1] == swaps[..j - 1];
      ReplaceOne(parts, swaps, j - 1);
    }
  }

  // ------------------------------------------------- replies in which no label strays

  predicate OccursAt(s: string, word: string, o: nat) {
    o + |word| <= |s| && s[o..o + |word|] == word
  }

  /** `word` does not occur in `s`. */
  predicate Without(s: string, word: string) {
    forall o :: 0 <= o <= |s| ==> !OccursAt(s, word, o)
  }

  predicate WithoutLabels(s: string, swaps: seq<Swap>) {
    forall j :: 0 <= j < |swaps| ==> Without(s, LabelOf(swaps[j]))
  }

  /** What every label of a kind begins with, ahead of its capitals. */
  function Stem(kind: Kind): string {
    Word(kind) + " "
  }

  /** A stem and a capital: the shape of a label, whether or not one that was given out. */
  predicate LooksLikeALabel(text: string, kind: Kind) {
    Stem(kind) <= text && |text| > |Stem(kind)| && IsUpper(text[|Stem(kind)|])
  }

  /**
   * Something that looks like a label begins at `o` in `part` and goes on past its
   * end: its stem or first capital is not there yet, or a capital follows its
   * capitals.
   */
  predicate CrossesAt(part: string, rest: string, kind: Kind, o: nat) {
    && o < |part|
    && LooksLikeALabel(part[o..] + rest, kind)
    && (o + |Stem(kind)| < |part| ==>
          AllCapitals(part[o + |Stem(kind)|..]) && rest != "" && IsUpper(rest[0]))
  }

  /** `part` ends in a proper start of what looks like a label, and `rest` completes it. */
  predicate Crosses(part: string, rest: string) {
    exists kind, o :: 0 <= o < |part| && CrossesAt(part, rest, kind, o)
  }

  /**
   * A reply in which the only labels are the mentions: its running text holds
   * none, and at no turn does a piece of text, a label or a name end in the start
   * of a label that what follows completes. In particular no label is followed by
   * a capital.
   */
  predicate Readable(parts: seq<Part>, swaps: seq<Swap>)
    requires Mentions(parts, swaps)
  {
    parts != [] ==>
      && (parts[0].Said? ==> WithoutLabels(parts[0].s, swaps))
      && (forall j :: 0 <= j < |swaps| ==> !Crosses(Shown(parts[0], swaps, j), Mixed(parts[1..], swaps, j)))
      && Readable(parts[1..], swaps)
  }

  predicate AllApart(swaps: seq<Swap>) {
    forall i, j :: 0 <= i < j < |swaps| ==> LabelOf(swaps[i]) != LabelOf(swaps[j])
  }

  /** Labels from one on, all different, longest first, and no name that holds a label put back after it. */
  predicate Restorable(swaps: seq<Swap>) {
    && Descending(swaps)
    && (forall i :: 0 <= i < |swaps| ==> swaps[i].n > 0)
    && AllApart(swaps)
    && (forall i, j :: 0 <= i < j < |swaps| ==> Without(swaps[i].name, LabelOf(swaps[j])))
  }

  lemma LabelShape(s: Swap, i: nat)
    requires s.n > 0 && |Stem(s.kind)| <= i < |LabelOf(s)|
    ensures |LabelOf(s)| > |Stem(s.kind)| && LabelOf(s)[..|Stem(s.kind)|] == Stem(s.kind)
    ensures IsUpper(LabelOf(s)[|Stem(s.kind)|]) && IsUpper(LabelOf(s)[i])
  {
    assert LabelOf(s) == Stem(s.kind) + Suffix(s.n);
    assert LabelOf(s)[i] == Suffix(s.n)[i - |Stem(s.kind)|];
  }

  /** A label that begins in `part` is either in it or crosses its end. */
  lemma LabelCrosses(part: string, rest: string, s: Swap, o: nat)
    requires s.n > 0 && o < |part| && LabelOf(s) <= part[o..] + rest
    ensures OccursAt(part, LabelOf(s), o) || CrossesAt(part, rest, s.kind, o)
  {
    hide Word;
    var tag, text, n := LabelOf(s), part[o..] + rest, |Stem(s.kind)|;
    var cut := |part| - o;
    assert |tag| > n by { assert tag == Stem(s.kind) + Suffix(s.n); }
    LabelShape(s, n);
    assert text[..|tag|] == tag;
    if |tag| <= cut {
      assert part[o..o + |tag|] == tag;
    } else {
      assert text[..n] == tag[..n] && text[n] == tag[n];
      if n < cut {
        var capitals := part[o + n..];
        forall i | 0 <= i < |capitals| ensures IsUpper(capitals[i]) {
          LabelShape(s, n + i);
          assert text[n + i] == capitals[i] && text[n + i] == tag[n + i];
        }
        LabelShape(s, cut);
        assert text[cut] == rest[0] && text[cut] == tag[cut];
      }
    }
  }

  /** No label begins in text that holds none and does not begin one that what follows completes. */
  lemma NoStrayInProse(part: string, rest: string, s: Swap)
    requires s.n > 0 && Without(part, LabelOf(s)) && !Crosses(part, rest)
    ensures NoStray(part, rest, LabelOf(s))
  {
    hide LabelOf, OccursAt, CrossesAt;
    forall o | 0 <= o < |part| ensures !(LabelOf(s) <= part[o..] + rest) {
      if LabelOf(s) <= part[o..] + rest {
        LabelCrosses(part, rest, s, o);
        assert false;
      }
    }
  }

  /** Of two different labels the longer never occurs where the other stands, nor begins inside it. */
  lemma NoStrayInLabel(other: Swap, rest: string, s: Swap)
    requires s.n > 0 && LabelOf(other) != LabelOf(s) && |LabelOf(s)| >= |LabelOf(other)|
    requires !Crosses(LabelOf(other), rest)
    ensures NoStray(LabelOf(other), rest, LabelOf(s))
  {
    hide LabelOf, CrossesAt;
    var m := LabelOf(other);
    assert m[0..|m|] == m;
    forall o | 0 <= o < |m| ensures !(LabelOf(s) <= m[o..] + rest) {
      if LabelOf(s) <= m[o..] + rest {
        LabelCrosses(m, rest, s, o);
        assert false;
      }
    }
  }

  /** In a readable reply every label is clear at its turn. */
  lemma {:induction false} ReadableIsClear(parts: seq<Part>, swaps: seq<Swap>, j: nat)
    requires Mentions(parts, swaps) && j < |swaps| && Readable(parts, swaps) && Restorable(swaps)
    ensures Clear(parts, swaps, j)
    decreases |parts|
  {
    hide LabelOf, Without, Crosses, NoStray;
    if parts == [] {
    } else {
      var rest := Mixed(parts[1..], swaps, j);
      ReadableIsClear(parts[1..], swaps, j);
      match parts[0] {
        case Said(s) => NoStrayInProse(s, rest, swaps[j]);
        case Mention(k) =>
          if k < j {
            NoStrayInProse(swaps[k].name, rest, swaps[j]);
          } else if k > j {
            NoStrayInLabel(swaps[k], rest, swaps[j]);
          }
      }
    }
  }

  // ---------------------------------------------- a condition that needs no turns

  /**
   * From `o` on, `part` is the start of a label, and `next` does not rule out that
   * it goes on as one: it follows the stem as far as both go and then has a
   * capital, or, if the label's capitals have begun, it begins with one.
   */
  predicate MayCompleteAt(part: string, next: string, kind: Kind, o: nat) {
    && o < |part|
    && if part[o..] <= Stem(kind) then
         var missing := Stem(kind)[|part| - o..];
         next <= missing || (missing <= next && IsUpper(next[|missing|]))
       else
         Stem(kind) <= part[o..] && AllCapitals(part[o + |Stem(kind)|..]) && (next != "" ==> IsUpper(next[0]))
  }

  predicate MayComplete(part: string, next: string) {
    exists kind, o :: 0 <= o < |part| && MayCompleteAt(part, next, kind, o)
  }

  lemma CrossingMeans(part: string, next: string, more: string, kind: Kind, o: nat)
    requires CrossesAt(part, next + more, kind, o)
    ensures MayCompleteAt(part, next, kind, o)
  {
    hide Stem;
    var n, stem, end := |Stem(kind)|, Stem(kind), part[o..];
    var text := end + (next + more);
    assert text[..n] == stem;
    if |end| <= n {
      var missing := stem[|end|..];
      assert text[|end|..] == next + more;
      assert end == text[..|end|] == stem[..|end|];
      assert missing == text[|end|..n] == (next + more)[..|missing|];
      assert text[n] == (next + more)[|missing|];
      if |next| <= |missing| {
        assert next == (next + more)[..|next|] == missing[..|next|];
      } else {
        assert missing == next[..|missing|];
      }
    } else {
      assert end[..n] == stem;
    }
  }

  lemma CompletionCrosses(part: string, next: string, kind: Kind, o: nat) returns (more: string)
    requires MayCompleteAt(part, next, kind, o)
    ensures CrossesAt(part, next + more, kind, o)
  {
    hide Stem;
    var stem, end := Stem(kind), part[o..];
    if end <= stem {
      more := GoOnWith(end, next, stem);
      assert (end + (next + more))[..|stem|] == stem;
      assert (end + (next + more))[|stem|] == (next + more)[|stem| - |end|];
    } else {
      more := if next == "" then "A" else "";
      assert (end + (next + more))[..|stem|] == end[..|stem|] == stem;
      assert (end + (next + more))[|stem|] == end[|stem|] == part[o + |stem|..][0];
    }
  }

  lemma GoOnWith(end: string, next: string, stem: string) returns (more: string)
    requires end <= stem
    requires var missing := stem[|end|..]; next <= missing || (missing <= next && IsUpper(next[|missing|]))
    ensures stem <= end + (next + more)
    ensures |next + more| > |stem| - |end| && IsUpper((next + more)[|stem| - |end|])
  {
    var missing := stem[|end|..];
    assert end + missing == stem;
    if next <= missing {
      more := missing[|next|..] + "A";
      assert next + more == missing + "A";
      assert end + (missing + "A") == stem + "A";
    } else {
      more := "";
      assert next + more == next == missing + next[|missing|..];
      assert end + (missing + next[|missing|..]) == stem + next[|missing|..];
    }
  }

  /** The clause is exact: there is a text after `next` with which a label crosses the end of `part`. */
  lemma MayCompleteIsExact(part: string, next: string)
    ensures MayComplete(part, next) <==> exists more :: Crosses(part, next + more)
  {
    hide CrossesAt, MayCompleteAt;
    if MayComplete(part, next) {
      var kind, o :| 0 <= o < |part| && MayCompleteAt(part, next, kind, o);
      var more := CompletionCrosses(part, next, kind, o);
      assert Crosses(part, next + more);
    }
    if more :| Crosses(part, next + more) {
      var kind, o :| 0 <= o < |part| && CrossesAt(part, next + more, kind, o);
      CrossingMeans(part, next, more, kind, o);
    }
  }

  /** What a part may read at some turn. */
  function Forms(p: Part, swaps: seq<Swap>): seq<string>
    requires p.Mention? ==> p.k < |swaps|
  {
    match p
    case Said(s) => [s]
    case Mention(k) => [LabelOf(swaps[k]), swaps[k].name]
  }

  predicate Follows(p: Part, q: Part, swaps: seq<Swap>)
    requires (p.Mention? ==> p.k < |swaps|) && (q.Mention? ==> q.k < |swaps|)
  {
    forall x, y :: x in Forms(p, swaps) && y in Forms(q, swaps) ==> !MayComplete(x, y)
  }

  /** Of neighbouring parts, however they read, the second does not go on with a label the first ends in. */
  predicate Neighbourly(parts: seq<Part>, swaps: seq<Swap>)
    requires Mentions(parts, swaps)
  {
    parts != [] ==>
      && (parts[0].Said? ==> WithoutLabels(parts[0].s, swaps))
      && (|parts| > 1 ==> Follows(parts[0], parts[1], swaps))
      && Neighbourly(parts[1..], swaps)
  }

  lemma NothingCrossesAtTheEnd(part: string)
    ensures !Crosses(part, "")
  {
    hide Stem;
    forall kind, o | 0 <= o < |part| ensures !CrossesAt(part, "", kind, o) {
      assert part[o..] + "" == part[o..];
    }
  }

  /** Such a reply is readable, whatever its turns look like. */
  lemma {:induction false} NeighbourlyIsReadable(parts: seq<Part>, swaps: seq<Swap>)
    requires Mentions(parts, swaps) && Neighbourly(parts, swaps)
    ensures Readable(parts, swaps)
    decreases |parts|
  {
    hide LabelOf, MayComplete, Crosses, WithoutLabels;
    if parts == [] {
    } else {
      NeighbourlyIsReadable(parts[1..], swaps);
      forall j | 0 <= j < |swaps| ensures !Crosses(Shown(parts[0], swaps, j), Mixed(parts[1..], swaps, j)) {
        var shown, rest := Shown(parts[0], swaps, j), Mixed(parts[1..], swaps, j);
        if |parts| == 1 {
          NothingCrossesAtTheEnd(shown);
        } else {
          var next, more := Shown(parts[1], swaps, j), Mixed(parts[1..][1..], swaps, j);
          assert shown in Forms(parts[0], swaps) && next in Forms(parts[1], swaps);
          assert rest == next + more;
          MayCompleteIsExact(shown, next);
        }
      }
    }
  }

  /** Neither a capital, nor a letter of a stem, nor a space with a capital after it. */
  predicate Ordinary(next: string) {
    && next != "" && !IsUpper(next[0])
    && (forall kind :: next[0] == ' ' || next[0] !in Stem(kind))
    && (next[0] == ' ' ==> |next| > 1 && !IsUpper(next[1]))
  }

  /** Such a text may follow any name and any label. */
  lemma OrdinaryTextFollows(part: string, next: string)
    requires Ordinary(next)
    ensures !MayComplete(part, next)
  {
    forall kind, o | 0 <= o < |part| ensures !MayCompleteAt(part, next, kind, o) {
      NotGoneOnWith(part, next, kind, o);
    }
  }

  lemma OneSpace(kind: Kind, at: nat)
    requires at < |Stem(kind)|
    ensures Stem(kind)[at] in Stem(kind) && (Stem(kind)[at] == ' ' <==> at == |Stem(kind)| - 1)
  {
  }

  lemma NotGoneOnWith(part: string, next: string, kind: Kind, o: nat)
    requires Ordinary(next)
    ensures !MayCompleteAt(part, next, kind, o)
  {
    hide Word;
    if MayCompleteAt(part, next, kind, o) && part[o..] <= Stem(kind) {
      var at := |part| - o;
      var missing := Stem(kind)[at..];
      if missing == "" {
        assert false;
      }
      assert next[0] == missing[0] == Stem(kind)[at];
      OneSpace(kind, at);
      assert false;
    }
  }

  // -------------------------------------------------------------- all labels at once

  /** The first label in the list that the text begins with, or the end. */
  function FirstMatch(text: string, swaps: seq<Swap>, i: nat := 0): (k: nat)
    requires i <= |swaps|
    ensures i <= k <= |swaps|
    ensures forall l :: i <= l < k ==> !(LabelOf(swaps[l]) <= text)
    ensures k < |swaps| ==> LabelOf(swaps[k]) <= text
    decreases |swaps| - i
  {
    if i == |swaps| || LabelOf(swaps[i]) <= text then i else FirstMatch(text, swaps, i + 1)
  }

  /** One pass over the text: wherever a label stands, the longest that does is replaced. */
  function AllAtOnce(text: string, swaps: seq<Swap>): string
    decreases |text|
  {
    if text == "" then ""
    else
      var k := FirstMatch(text, swaps);
      if k == |swaps| then [text[0]] + AllAtOnce(text[1..], swaps)
      else
        LabelNotEmpty(swaps[k]);
        swaps[k].name + AllAtOnce(text[|LabelOf(swaps[k])|..], swaps)
  }

  lemma {:induction false} CopyQuietText(part: string, rest: string, swaps: seq<Swap>)
    requires forall i :: 0 <= i < |swaps| ==> NoStray(part, rest, LabelOf(swaps[i]))
    ensures AllAtOnce(part + rest, swaps) == part + AllAtOnce(rest, swaps)
    decreases |part|
  {
    hide LabelOf, AllAtOnce;
    if part == "" {
      assert part + rest == rest;
    } else {
      assert part[0..] == part;
      assert (part + rest)[1..] == part[1..] + rest;
      forall o | 0 <= o < |part| - 1 ensures part[1..][o..] == part[o + 1..] {
      }
      CopyQuietText(part[1..], rest, swaps);
      NothingStandsHere(part + rest, swaps);
    }
  }

  lemma NothingStandsHere(text: string, swaps: seq<Swap>)
    requires text != "" && forall i :: 0 <= i < |swaps| ==> !(LabelOf(swaps[i]) <= text)
    ensures AllAtOnce(text, swaps) == [text[0]] + AllAtOnce(text[1..], swaps)
  {
    hide LabelOf;
    assert FirstMatch(text, swaps) == |swaps|;
  }

  /** Replacing every label of a readable reply at once names every mention. */
  lemma {:induction false} AllAtOnceNames(parts: seq<Part>, swaps: seq<Swap>)
    requires Mentions(parts, swaps) && Readable(parts, swaps) && Restorable(swaps)
    ensures AllAtOnce(Labelled(parts, swaps), swaps) == Named(parts, swaps)
    decreases |parts|
  {
    hide LabelOf, Without, Crosses, NoStray;
    if parts == [] {
    } else {
      AllAtOnceNames(parts[1..], swaps);
      var rest := Labelled(parts[1..], swaps);
      match parts[0] {
        case Said(s) =>
          forall i | 0 <= i < |swaps| ensures NoStray(s, rest, LabelOf(swaps[i])) {
            assert Shown(parts[0], swaps, 0) == s;
            NoStrayInProse(s, rest, swaps[i]);
          }
          CopyQuietText(s, rest, swaps);
        case Mention(k) =>
          assert Shown(parts[0], swaps, 0) == LabelOf(swaps[k]);
          LabelGivesWay(swaps, k, rest);
      }
    }
  }

  lemma LabelGivesWay(swaps: seq<Swap>, k: nat, rest: string)
    requires Restorable(swaps) && k < |swaps| && !Crosses(LabelOf(swaps[k]), rest)
    ensures AllAtOnce(LabelOf(swaps[k]) + rest, swaps) == swaps[k].name + AllAtOnce(rest, swaps)
  {
    hide LabelOf, Without, Crosses, AllAtOnce;
    var text := LabelOf(swaps[k]) + rest;
    LabelNotEmpty(swaps[k]);
    assert LabelOf(swaps[k]) <= text;
    var m := FirstMatch(text, swaps);
    assert LabelOf(swaps[k])[0..] + rest == text;
    if m < k {
      NoStrayInLabel(swaps[k], rest, swaps[m]);
      assert false;
    }
    AllAtOnceAt(text, swaps, k, rest);
  }

  // ------------------------------------------------------ labels in the order of put

  lemma {:induction false} InsertKeepsApart(s: Swap, others: seq<Swap>)
    requires AllApart(others)
    requires forall i :: 0 <= i < |others| ==> LabelOf(others[i]) != LabelOf(s)
    ensures AllApart(InsertByLength(s, others))
  {
    hide LabelOf;
    if others != [] && |LabelOf(s)| < |LabelOf(others[0])| {
      InsertKeepsApart(s, others[1..]);
      var r := InsertByLength(s, others[1..]);
      forall j | 0 <= j < |r| ensures LabelOf(others[0]) != LabelOf(r[j]) {
        assert r[j] in multiset(r);
        assert r[j] in multiset(others[1..]) || r[j] == s;
      }
    }
  }

  lemma {:induction false} LongestFirstKeepsApart(swaps: seq<Swap>)
    requires AllApart(swaps)
    ensures AllApart(LongestFirst(swaps))
  {
    hide LabelOf, InsertByLength;
    if swaps == [] {
    } else {
      var r := LongestFirst(swaps[1..]);
      LongestFirstKeepsApart(swaps[1..]);
      forall i | 0 <= i < |r| ensures LabelOf(r[i]) != LabelOf(swaps[0]) {
        assert r[i] in multiset(r);
        assert r[i] in swaps[1..];
      }
      InsertKeepsApart(swaps[0], r);
    }
  }

  lemma {:induction false} CleanedKeepLabels(back: seq<Swap>, letter: char -> bool)
    requires AllApart(back)
    ensures AllApart(Cleaned(back, letter))
  {
    hide AsName, Label;
  }

  /** The labels handed out are numbered from one on, and no two of them are alike. */
  lemma HandedOutApart(people: seq<Given>, places: seq<Given>)
    ensures forall s :: s in Back(people, places) ==> s.n > 0
    ensures AllApart(Back(people, places))
  {
    hide Label;
    var back := Back(people, places);
    forall i, j | 0 <= i < j < |back| ensures LabelOf(back[i]) != LabelOf(back[j]) {
      LabelsAreDistinct(back[i].kind, back[i].n, back[j].kind, back[j].n);
    }
  }

  /** The labels of the two maps are the ones they gave out. */
  lemma LabelsGivenOut(kind: Kind, given: seq<Given>, i: nat)
    requires InOrder(kind, given) && i < |given|
    ensures LabelOf(Swaps(kind, given)[i]) == given[i].tag
  {
    hide Label, Trim;
  }

  /** No name, cleaned, holds a label. */
  predicate NamesHoldNoLabel(swaps: seq<Swap>) {
    forall i, j :: 0 <= i < |swaps| && 0 <= j < |swaps| ==> Without(swaps[i].name, LabelOf(swaps[j]))
  }

  lemma ReplacementsAreRestorable(people: seq<Given>, places: seq<Given>, letter: char -> bool)
    requires NamesHoldNoLabel(Replacements(people, places, letter))
    ensures Restorable(Replacements(people, places, letter))
  {
    hide LabelOf, Without, LongestFirst, Back, Cleaned, AsName;
    var back := Back(people, places);
    var cleaned := Cleaned(back, letter);
    var sorted := LongestFirst(cleaned);
    HandedOutApart(people, places);
    CleanedKeepLabels(back, letter);
    LongestFirstDescends(cleaned);
    LongestFirstKeepsApart(cleaned);
    forall i | 0 <= i < |sorted| ensures sorted[i].n > 0 {
      assert sorted[i] in multiset(sorted);
      NumberedFromOne(back, letter, sorted[i]);
    }
  }

  lemma NumberedFromOne(back: seq<Swap>, letter: char -> bool, s: Swap)
    requires (forall b :: b in back ==> b.n > 0) && s in Cleaned(back, letter)
    ensures s.n > 0
  {
    hide AsName;
    var k :| 0 <= k < |back| && Cleaned(back, letter)[k] == s;
    assert back[k] in back;
  }

  /**
   * Restoring a readable reply with the labels the two maps gave out, one label
   * after the other, is replacing all of them at once: every mention gets its own
   * name and the rest is left alone.
   */
  lemma RestoringNamesEveryMention(
      parts: seq<Part>, people: seq<Given>, places: seq<Given>, letter: char -> bool, sorted: seq<Swap>)
    requires sorted == Replacements(people, places, letter) && NamesHoldNoLabel(sorted)
    requires Mentions(parts, sorted) && Readable(parts, sorted)
    ensures Sequential(Labelled(parts, sorted), sorted) == Named(parts, sorted)
    ensures Sequential(Labelled(parts, sorted), sorted) == AllAtOnce(Labelled(parts, sorted), sorted)
  {
    hide Readable, Clear, LabelOf, Restorable, Replacements;
    ReplacementsAreRestorable(people, places, letter);
    forall i | 0 <= i < |sorted| ensures Clear(parts, sorted, i) {
      ReadableIsClear(parts, sorted, i);
    }
    SequentialIsSimultaneous(parts, sorted, |sorted|);
    assert sorted[..|sorted|] == sorted;
    AllAtOnceNames(parts, sorted);
  }

  /** If `text` is a readable reply, and no name holds a label, `out` is that reply with its mentions named. */
  ghost predicate ComesBack(text: string, out: string, swaps: seq<Swap>) {
    NamesHoldNoLabel(swaps) ==>
      forall parts :: Mentions(parts, swaps) && Readable(parts, swaps) && text == Labelled(parts, swaps)
        ==> out == Named(parts, swaps)
  }

  lemma PutComesBack(text: string, people: seq<Given>, places: seq<Given>, letter: char -> bool)
    ensures var swaps := Replacements(people, places, letter); ComesBack(text, Sequential(text, swaps), swaps)
  {
    hide Readable, Replacements;
    var swaps := Replacements(people, places, letter);
    if NamesHoldNoLabel(swaps) {
      forall parts | Mentions(parts, swaps) && Readable(parts, swaps) && text == Labelled(parts, swaps)
        ensures Sequential(text, swaps) == Named(parts, swaps)
      {
        RestoringNamesEveryMention(parts, people, places, letter, swaps);
      }
    }
  }

  /** A text that is one label becomes its name. */
  lemma ReplaceWhole(tag: string, name: string)
    requires tag != ""
    ensures ReplaceAll(tag, tag, name) == name
  {
    assert tag[|tag|..] == "" && name + "" == name;
  }

  /** A name that holds a label does go wrong: here the first name is taken for the second label. */
  lemma ANameMayPassForALabel(swaps: seq<Swap>)
    requires swaps == [Swap(Person, 1, "Person B"), Swap(Person, 2, "Bo")]
    ensures LongestFirst(swaps) == swaps
    ensures Named([Mention(0)], swaps) == "Person B"
    ensures Sequential(Labelled([Mention(0)], swaps), swaps) == "Bo"
  {
    hide ReplaceAll, Sequential, LabelOf, LongestFirst;
    forall i | 0 <= i < 2 ensures LabelOf(swaps[i]) == "Person " + [Letter(i)] && |LabelOf(swaps[i])| == 8 {
      LetterLabel(swaps[i]);
    }
    SameLengthsStay(swaps, 8);
    assert "Person " + [Letter(0)] == "Person A" && "Person " + [Letter(1)] == "Person B";
    assert Mixed([], swaps, 0) == "" && Mixed([], swaps, 2) == "" && [Mention(0)][1..] == [];
    assert "Person A" + "" == "Person A" && "Person B" + "" == "Person B";
    ReplacedTwice(swaps);
  }

  lemma ReplacedTwice(swaps: seq<Swap>)
    requires |swaps| == 2 && LabelOf(swaps[0]) == "Person A" && LabelOf(swaps[1]) == swaps[0].name
    ensures Sequential("Person A", swaps) == swaps[1].name
  {
    hide ReplaceAll, LabelOf;
    LabelNotEmpty(swaps[1]);
    ReplaceWhole("Person A", swaps[0].name);
    ReplaceWhole(swaps[0].name, swaps[1].name);
    assert swaps[..1] == [swaps[0]] && swaps[..1][..0] == [];
    assert Sequential("Person A", []) == "Person A";
    assert Sequential("Person A", swaps[..1]) == swaps[0].name;
  }

  /** Sixteen people in the order they were given their labels. */
  predicate SixteenPeople(back: seq<Swap>) {
    |back| == 16 && forall i :: 0 <= i < 16 ==> back[i].kind == Person && back[i].n == i + 1
  }

  lemma LetterLabel(s: Swap)
    requires s.kind == Person && 1 <= s.n <= 26
    ensures LabelOf(s) == "Person " + [Letter(s.n - 1)] && |LabelOf(s)| == 8
  {
    assert Suffix((s.n - 1) / 26) == "";
    assert Suffix(s.n) == "" + [Letter((s.n - 1) % 26)];
  }

  lemma MentionedInText(swaps: seq<Swap>, k: nat, s: string)
    requires k < |swaps| && Ordinary(s) && WithoutLabels(s, swaps)
    ensures Neighbourly([Mention(k), Said(s)], swaps)
  {
    hide LabelOf, MayComplete, WithoutLabels, Ordinary;
    var parts := [Mention(k), Said(s)];
    assert parts[1..] == [Said(s)] && parts[1..][1..] == [];
    assert Neighbourly([], swaps) && Neighbourly(parts[1..], swaps);
    forall x, y | x in Forms(parts[0], swaps) && y in Forms(parts[1], swaps) ensures !MayComplete(x, y) {
      OrdinaryTextFollows(x, y);
    }
  }

  /** The sixteenth label ends in the first letter of `Person`, and is restored in running text all the same. */
  lemma PersonPLed(back: seq<Swap>)
    requires SixteenPeople(back)
    ensures Labelled([Mention(15), Said(" led")], back) == "Person P led" && Label(Place, 1) == "University A"
    ensures Readable([Mention(15), Said(" led")], back)
  {
    hide LabelOf, Readable, Neighbourly, Stem, Letter;
    var parts := [Mention(15), Said(" led")];
    forall j | 0 <= j < 16 ensures Without(" led", LabelOf(back[j])) {
      LetterLabel(back[j]);
    }
    SpaceAndSmall(" led");
    MentionedInText(back, 15, " led");
    NeighbourlyIsReadable(parts, back);
    LetterLabel(back[15]);
    SomeLetters();
    assert parts[1..] == [Said(" led")] && parts[1..][1..] == [];
    assert Mixed([], back, 0) == "" && Mixed(parts[1..], back, 0) == " led" + "";
    assert "Person " + ['P'] + (" led" + "") == "Person P led";
  }

  lemma SpaceAndSmall(s: string)
    requires |s| > 1 && s[0] == ' ' && !IsUpper(s[1])
    ensures Ordinary(s)
  {
    hide Stem;
  }

  /**
   * It is not enough that no label is followed by a capital. With sixteen names
   * given out, `Person P` stands in this text, followed by a small letter, but
   * `Person A`, which begins with its last letter, is put back first.
   */
  lemma AnOverlapGoesByTurns(back: seq<Swap>)
    requires SixteenPeople(back) && back[0].name == "Ann"
    ensures LabelOf(back[15]) == "Person P"
    ensures Sequential("Person Person A", LongestFirst(back)) == "Person Ann"
    ensures AllAtOnce("Person Person A", LongestFirst(back)) == back[15].name + "erson A"
    ensures "Person Ann" != back[15].name + "erson A"
  {
    hide LabelOf, ReplaceAll, AllAtOnce, LongestFirst, Sequential, FirstMatch, Letter;
    forall i | 0 <= i < 16 ensures LabelOf(back[i]) == "Person " + [Letter(i)] && |LabelOf(back[i])| == 8 {
      LetterLabel(back[i]);
    }
    SameLengthsStay(back, 8);
    assert Letter(15) == 'P' by { SomeLetters(); }
    assert "Person " + ['P'] == "Person P";
    InTurn(back, 16);
    assert back[..16] == back;
    AtOnce(back);
    var both := back[15].name + "erson A";
    assert both[|both| - 1] == 'A' && "Person Ann"[|"Person Ann"| - 1] == 'n';
  }

  lemma SomeLetters()
    ensures Letter(0) == 'A' && Letter(15) == 'P'
  {
  }

  lemma {:induction false} SameLengthsStay(swaps: seq<Swap>, n: nat)
    requires forall i :: 0 <= i < |swaps| ==> |LabelOf(swaps[i])| == n
    ensures LongestFirst(swaps) == swaps
  {
    hide LabelOf;
    if swaps == [] {
    } else {
      SameLengthsStay(swaps[1..], n);
      assert [swaps[0]] + swaps[1..] == swaps;
    }
  }

  /** A tag whose first letter comes only at the start, and whose `i`-th differs there, does not occur. */
  lemma NoStrayBut(part: string, rest: string, tag: string, i: nat)
    requires i < |tag| && forall o :: 0 < o < |part| ==> part[o] != tag[0]
    requires i < |part + rest| ==> (part + rest)[i] != tag[i]
    ensures NoStray(part, rest, tag)
  {
    forall o | 0 <= o < |part| ensures !(tag <= part[o..] + rest) {
      if o == 0 {
        assert part[0..] + rest == part + rest;
      } else {
        assert (part[o..] + rest)[0] == part[o];
      }
    }
  }

  lemma NothingToReplace(tag: string, name: string)
    requires tag != ""
    ensures ReplaceAll("", tag, name) == ""
  {
  }

  /** The first turn puts `Ann` back, and no later one finds its label. */
  lemma {:induction false} InTurn(back: seq<Swap>, k: nat)
    requires 1 <= k <= 16 && SixteenPeople(back) && back[0].name == "Ann"
    requires forall i :: 0 <= i < 16 ==> LabelOf(back[i]) == "Person " + [Letter(i)]
    ensures Sequential("Person Person A", back[..k]) == "Person Ann"
  {
    hide ReplaceAll, LabelOf, NoStray, Letter;
    var tag, name := LabelOf(back[k - 1]), back[k - 1].name;
    assert back[..k][..k - 1] == back[..k - 1];
    if k == 1 {
      SomeLetters();
      assert tag == "Person A" && "Person Person A" == "Person " + tag;
      assert back[..0] == [] && Sequential("Person Person A", []) == "Person Person A";
      NoStrayBut("Person ", tag, tag, 7);
      CopyPart("Person ", tag, tag, "Ann");
      ReplaceWhole(tag, "Ann");
      assert "Person " + "Ann" == "Person Ann";
    } else {
      InTurn(back, k - 1);
      LetterIsNoA(k - 1);
      assert tag[7] == Letter(k - 1);
      NoStrayBut("Person Ann", "", tag, 7);
      CopyPart("Person Ann", "", tag, name);
      NothingToReplace(tag, name);
      assert "Person Ann" + "" == "Person Ann";
    }
  }

  lemma LetterIsNoA(n: nat)
    requires 0 < n < 26
    ensures Letter(n) != 'A'
  {
  }

  lemma LetterIsNoP(n: nat)
    requires n < 15
    ensures Letter(n) != 'P'
  {
  }

  /** Read from the left, the text begins with the sixteenth label. */
  lemma AtOnce(back: seq<Swap>)
    requires SixteenPeople(back)
    requires forall i :: 0 <= i < 16 ==> LabelOf(back[i]) == "Person " + [Letter(i)]
    ensures AllAtOnce("Person Person A", back) == back[15].name + "erson A"
  {
    hide LabelOf, NoStray, AllAtOnce, FirstMatch, Letter;
    var text := "Person Person A";
    SomeLetters();
    assert LabelOf(back[15]) == text[..8];
    var k := FirstMatch(text, back);
    assert k < 15 ==> LabelOf(back[k])[7] == Letter(k);
    if k < 15 {
      LetterIsNoP(k);
      assert false;
    }
    AllAtOnceAt(text, back, 15, "erson A");
    forall i | 0 <= i < 16 ensures NoStray("erson A", "", LabelOf(back[i])) {
      NoStrayBut("erson A", "", LabelOf(back[i]), 0);
    }
    CopyQuietText("erson A", "", back);
    NoTextLeft(back);
    assert "erson A" + "" == "erson A";
  }

  lemma AllAtOnceAt(text: string, swaps: seq<Swap>, k: nat, rest: string)
    requires text != "" && FirstMatch(text, swaps) == k < |swaps| && text == LabelOf(swaps[k]) + rest
    ensures AllAtOnce(text, swaps) == swaps[k].name + AllAtOnce(rest, swaps)
  {
    hide LabelOf, FirstMatch;
    assert text[|LabelOf(swaps[k])|..] == rest;
  }

  lemma NoTextLeft(swaps: seq<Swap>)
    ensures AllAtOnce("", swaps) == ""
  {
  }
}

/** Strings as JavaScript trims them. */
module Text {

  /** WhiteSpace or LineTerminator, sections 12.2 and 12.3 of ECMA-262. */
  predicate IsSpace(c: char) {
    || c == ' '
    || '\t' <= c <= '\r'
    || c == '\U{A0}'
    || c == '\U{1680}'
    || '\U{2000}' <= c <= '\U{200A}'
    || c == '\U{2028}'
    || c == '\U{2029}'
    || c == '\U{202F}'
    || c == '\U{205F}'
    || c == '\U{3000}'
    || c == '\U{FEFF}'
  }

  predicate AllSpace(s: string) {
    forall i :: 0 <= i < |s| ==> IsSpace(s[i])
  }

  /** The first position from `i` on that holds no white space, or the end. */
  function SkipSpace(s: string, i: nat := 0): (j: nat)
    requires i <= |s|
    ensures i <= j <= |s|
    ensures j < |s| ==> !IsSpace(s[j])
    ensures forall k :: i <= k < j ==> IsSpace(s[k])
    decreases |s| - i
  {
    if i < |s| && IsSpace(s[i]) then SkipSpace(s, i + 1) else i
  }

  /** The last end position, up to `j`, that follows no white space. */
  function DropSpace(s: string, j: nat): (i: nat)
    requires j <= |s|
    ensures i <= j
    ensures i > 0 ==> !IsSpace(s[i - 1])
    ensures forall k :: i <= k < j ==> IsSpace(s[k])
  {
    if j > 0 && IsSpace(s[j - 1]) then DropSpace(s, j - 1) else j
  }

  /** `s.trim()` */
  function Trim(s: string): string {
    if AllSpace(s) then "" else
      var from, end := SkipSpace(s), DropSpace(s, |s|);
      s[from..end]
  }

  /** Trimming keeps everything between the outermost two characters that are not white space. */
  lemma TrimProperty(s: string)
    ensures Trim(s) == "" <==> AllSpace(s)
    ensures !AllSpace(s) ==>
      exists i, j :: 0 <= i < j <= |s| && Trim(s) == s[i..j] && AllSpace(s[..i]) && AllSpace(s[j..])
        && !IsSpace(s[i]) && !IsSpace(s[j - 1])
  {
    if !AllSpace(s) {
      var i, j := SkipSpace(s), DropSpace(s, |s|);
      assert i < j;
      assert Trim(s) == s[i..j] && AllSpace(s[..i]) && AllSpace(s[j..]);
    }
  }

  /** Text with no space at either end is already trimmed. */
  lemma TrimOfTight(s: string)
    requires s != "" ==> !IsSpace(s[0]) && !IsSpace(s[|s| - 1])
    ensures Trim(s) == s
  {
    if s != "" {
      assert SkipSpace(s) == 0 && DropSpace(s, |s|) == |s|;
    }
  }

  /** A leading character that is not white space is never trimmed away. */
  lemma TrimOfTail(s: string)
    requires s != "" && !IsSpace(s[0])
    ensures Trim(s)[..1] == s[..1]
    ensures |Trim(s[1..])| < |Trim(s)|
  {
    var end, tail := DropSpace(s, |s|), s[1..];
    assert end > 0 && SkipSpace(s) == 0;
    if !AllSpace(tail) {
      var j := DropSpace(tail, |tail|);
      assert tail[j - 1] == s[j];
      assert j + 1 <= end;
    }
  }

  /** Space put around a text is trimmed off with what it has of its own. */
  lemma TrimOfPadded(left: string, s: string, right: string)
    requires AllSpace(left) && AllSpace(right)
    ensures Trim(left + s + right) == Trim(s)
  {
    hide IsSpace;
    var all := left + s + right;
    if AllSpace(s) {
      SpaceTogether(left, s, right);
    } else {
      hide Trim, AllSpace;
      OutermostOf(s);
      var i, j := SkipSpace(s), DropSpace(s, |s|);
      PaddedSlices(left, s, right, i, j);
      FirstAndLast(all, |left| + i, |left| + j);
    }
  }

  lemma SpaceTogether(a: string, b: string, c: string)
    requires AllSpace(a) && AllSpace(b) && AllSpace(c)
    ensures AllSpace(a + b + c)
  {
    hide IsSpace;
  }

  lemma PaddedSlices(left: string, s: string, right: string, i: nat, j: nat)
    requires AllSpace(left) && AllSpace(right) && i < j <= |s|
    requires AllSpace(s[..i]) && AllSpace(s[j..]) && !IsSpace(s[i]) && !IsSpace(s[j - 1])
    ensures var all, i', j' := left + s + right, |left| + i, |left| + j;
      && all[i'..j'] == s[i..j]
      && AllSpace(all[..i']) && AllSpace(all[j'..]) && !IsSpace(all[i']) && !IsSpace(all[j' - 1])
  {
    hide IsSpace;
    var all := left + s + right;
    assert all[..|left| + i] == left + s[..i];
    assert all[|left| + j..] == s[j..] + right;
  }

  /** The first and the last character that is not white space determine the trimmed text. */
  lemma FirstAndLast(s: string, i: nat, j: nat)
    requires i < j <= |s| && AllSpace(s[..i]) && AllSpace(s[j..]) && !IsSpace(s[i]) && !IsSpace(s[j - 1])
    ensures Trim(s) == s[i..j]
  {
    hide IsSpace;
    assert forall k :: 0 <= k < i ==> s[k] == s[..i][k];
    assert forall k :: j <= k < |s| ==> s[k] == s[j..][k - j];
    assert SkipSpace(s) == i && DropSpace(s, |s|) == j;
  }

  predicate IsUpper(c: char) {
    'A' <= c <= 'Z'
  }

  function LowerChar(c: char): char {
    if IsUpper(c) then c - 'A' + 'a' else c
  }

  /** `toLowerCase()` of ASCII letters. */
  function Lower(s: string): (r: string)
    ensures |r| == |s|
    ensures forall i :: 0 <= i < |s| ==> r[i] == LowerChar(s[i])
  {
    if s == "" then "" else [LowerChar(s[0])] + Lower(s[1..])
  }

  lemma LowerCharKeeps(c: char)
    ensures IsSpace(LowerChar(c)) <==> IsSpace(c)
    ensures LowerChar(LowerChar(c)) == LowerChar(c)
  {
  }

  /** Lowering before trimming comes to the same, and so does lowering twice. */
  lemma LowerOfTrimmed(s: string)
    ensures Lower(Trim(Lower(s))) == Lower(Trim(s))
  {
    hide IsSpace, LowerChar, Lower, Trim, AllSpace;
    var t := Lower(s);
    forall k | 0 <= k < |s| ensures IsSpace(t[k]) == IsSpace(s[k]) {
      LowerCharKeeps(s[k]);
    }
    SpacesAlike(s, t);
    if !AllSpace(s) {
      var i, j := SkipSpace(s), DropSpace(s, |s|);
      OutermostOf(s);
      OutermostOf(t);
      LowerOfSlice(s, i, j);
    } else {
      TrimProperty(s);
      TrimProperty(t);
    }
  }

  lemma OutermostOf(s: string)
    requires !AllSpace(s)
    ensures var i, j := SkipSpace(s), DropSpace(s, |s|);
      && i < j && Trim(s) == s[i..j]
      && AllSpace(s[..i]) && AllSpace(s[j..]) && !IsSpace(s[i]) && !IsSpace(s[j - 1])
  {
    hide IsSpace;
  }

  lemma SpacesAlike(s: string, t: string)
    requires |s| == |t| && forall k :: 0 <= k < |s| ==> IsSpace(t[k]) == IsSpace(s[k])
    ensures AllSpace(t) <==> AllSpace(s)
    ensures SkipSpace(t) == SkipSpace(s) && DropSpace(t, |t|) == DropSpace(s, |s|)
  {
    hide IsSpace;
  }

  lemma LowerOfSlice(s: string, i: nat, j: nat)
    requires i <= j <= |s|
    ensures Lower(Lower(s)[i..j]) == Lower(s[i..j])
  {
    hide LowerChar, Lower;
    forall k | 0 <= k < j - i ensures Lower(Lower(s)[i..j])[k] == Lower(s[i..j])[k] {
      LowerCharKeeps(s[i..j][k]);
    }
  }
}

/** Decimal digits, and the order JavaScript gives strings. */
module Digits {

  predicate IsDigit(c: char) {
    '0' <= c <= '9'
  }

  predicate AllDigits(s: string) {
    forall i :: 0 <= i < |s| ==> IsDigit(s[i])
  }

  function Digit(n: nat): char
    requires n < 10
  {
    "0123456789"[n]
  }

  function ValueOf(c: char): (n: nat)
    requires IsDigit(c)
    ensures n < 10 && Digit(n) == c
  {
    c as int - '0' as int
  }

  function Pow10(w: nat): (p: nat)
    ensures p > 0
  {
    if w == 0 then 1 else 10 * Pow10(w - 1)
  }

  /** `n` in exactly `w` digits, its higher digits dropped if there are more. */
  function Pad(n: nat, w: nat): (s: string)
    ensures |s| == w && AllDigits(s)
    decreases w
  {
    if w == 0 then "" else Pad(n / 10, w - 1) + [Digit(n % 10)]
  }

  lemma PadOfFour(n: nat)
    ensures Pad(n, 2) == [Digit(n / 10 % 10), Digit(n % 10)]
    ensures Pad(n, 4) == [Digit(n / 10 / 10 / 10 % 10), Digit(n / 10 / 10 % 10), Digit(n / 10 % 10), Digit(n % 10)]
  {
    hide Digit;
    PadNext(n, 2);
    PadNext(n / 10, 1);
    PadNext(n, 4);
    PadNext(n / 10, 3);
    PadNext(n / 10 / 10, 2);
    PadNext(n / 10 / 10 / 10, 1);
  }

  lemma PadNext(n: nat, w: nat)
    requires w > 0
    ensures Pad(n, w) == Pad(n / 10, w - 1) + [Digit(n % 10)]
    ensures Pad(n, 0) == ""
  {
  }

  /** The number a run of digits writes. */
  function Num(s: string): nat
    requires AllDigits(s)
  {
    if s == "" then 0 else 10 * Num(s[..|s| - 1]) + ValueOf(s[|s| - 1])
  }

  lemma NumNext(s: string, n: nat)
    requires AllDigits(s) && n < 10
    ensures Num(s + [Digit(n)]) == 10 * Num(s) + n
  {
    assert (s + [Digit(n)])[..|s|] == s;
    assert ValueOf(Digit(n)) == n;
  }

  lemma NumOfNothing()
    ensures Num("") == 0
  {
  }

  lemma {:induction false} NumOfPad(n: nat, w: nat)
    requires n < Pow10(w)
    ensures Num(Pad(n, w)) == n
    decreases w
  {
    hide Num;
    if w == 0 {
      NumOfNothing();
    } else {
      NumOfPad(n / 10, w - 1);
      NumNext(Pad(n / 10, w - 1), n % 10);
    }
  }

  lemma {:induction false} PadOfNum(s: string)
    requires AllDigits(s)
    ensures Num(s) < Pow10(|s|)
    ensures Pad(Num(s), |s|) == s
    decreases |s|
  {
    if s == "" {
    } else {
      var front := s[..|s| - 1];
      PadOfNum(front);
      assert Num(s) / 10 == Num(front) && Num(s) % 10 == ValueOf(s[|s| - 1]);
      assert s == front + [s[|s| - 1]];
    }
  }

  /** `String(n)`: as many digits as it takes. */
  function Dec(n: nat): (s: string)
    ensures |s| > 0 && AllDigits(s)
  {
    if n < 10 then [Digit(n)] else Dec(n / 10) + [Digit(n % 10)]
  }

  /** The text of a number reads back as it, with or without a leading zero. */
  lemma {:induction false} NumOfDec(n: nat)
    ensures Num(Dec(n)) == n
    ensures Num("0" + Dec(n)) == n
    ensures n < 100 ==> |Dec(n)| <= 2
  {
    hide Num;
    NumNext("", 0);
    NumOfNothing();
    assert "" + [Digit(0)] == "0";
    if n < 10 {
      NumNext("", n);
      NumNext("0", n);
      assert "" + [Digit(n)] == Dec(n);
    } else {
      NumOfDec(n / 10);
      NumNext(Dec(n / 10), n % 10);
      NumNext("0" + Dec(n / 10), n % 10);
      assert "0" + Dec(n) == "0" + Dec(n / 10) + [Digit(n % 10)];
    }
  }

  // ------------------------------------------------------------------- string order

  /** `s < t`: the first difference decides, and a proper prefix comes first. */
  predicate Less(s: string, t: string) {
    if t == "" then false
    else if s == "" then true
    else if s[0] != t[0] then s[0] < t[0]
    else Less(s[1..], t[1..])
  }

  /** Equal-length fronts decide first. */
  lemma {:induction false} LessConcat(s1: string, s2: string, t1: string, t2: string)
    requires |s1| == |t1|
    ensures Less(s1 + s2, t1 + t2) <==> Less(s1, t1) || (s1 == t1 && Less(s2, t2))
    decreases |s1|
  {
    if s1 == "" {
      assert s1 + s2 == s2 && t1 + t2 == t2;
    } else {
      assert (s1 + s2)[1..] == s1[1..] + s2 && (t1 + t2)[1..] == t1[1..] + t2;
      if s1[0] == t1[0] {
        LessConcat(s1[1..], s2, t1[1..], t2);
        assert s1 == t1 <==> s1[1..] == t1[1..] by {
          assert s1 == [s1[0]] + s1[1..] && t1 == [t1[0]] + t1[1..];
        }
      }
    }
  }

  /** Numbers written in the same number of digits order as numbers do. */
  lemma {:induction false} LessOfPad(m: nat, n: nat, w: nat)
    requires m < Pow10(w) && n < Pow10(w)
    ensures Less(Pad(m, w), Pad(n, w)) <==> m < n
    ensures Pad(m, w) == Pad(n, w) <==> m == n
    decreases w
  {
    hide Num;
    if w == 0 {
    } else {
      LessOfPad(m / 10, n / 10, w - 1);
      var s, t := Pad(m / 10, w - 1), Pad(n / 10, w - 1);
      LessConcat(s, [Digit(m % 10)], t, [Digit(n % 10)]);
      assert s + [Digit(m % 10)] == t + [Digit(n % 10)] <==> s == t && Digit(m % 10) == Digit(n % 10) by {
        assert (s + [Digit(m % 10)])[..w - 1] == s && (t + [Digit(n % 10)])[..w - 1] == t;
      }
      DigitsOrder(m % 10, n % 10);
    }
  }

  lemma DigitsOrder(m: nat, n: nat)
    requires m < 10 && n < 10
    ensures Less([Digit(m)], [Digit(n)]) <==> m < n
    ensures Digit(m) == Digit(n) <==> m == n
  {
    assert ValueOf(Digit(m)) == m && ValueOf(Digit(n)) == n;
  }
}

/** Minutes kept as hours to two decimals, and back. Numbers are exact reals. */
module Hours {
  import opened Options

  /** `Number(x.toFixed(2))`: nearest hundredth, halves away from zero (section 21.1.3.3 of ECMA-262). */
  function Round2(x: real): real {
    if x < 0.0 then -Hundredths(-x) else Hundredths(x)
  }

  function Hundredths(x: real): real {
    (x * 100.0 + 0.5).Floor as real / 100.0
  }

  /** `Math.round(x)`: nearest integer, halves going up. */
  function Round(x: real): int {
    (x + 0.5).Floor
  }

  function ToMinutes(hours: real): int {
    Round(hours * 60.0)
  }

  function ToHours(minutes: int): real {
    minutes as real / 60.0
  }

  /** `capacity > 0 ? round2((productive / capacity) * 100) : null` */
  function Percent(productive: real, capacity: real): Option<real> {
    if capacity > 0.0 then Some(Round2(productive / capacity * 100.0)) else None
  }

  /** `p` says how much of `whole` the part is, in percent to two decimals, if there is a whole. */
  predicate IsShare(p: Option<real>, part: real, whole: real) {
    if whole <= 0.0 then p == None
    else
      && p.Some?
      && IsHundredths(p.value)
      && -0.005 * whole <= p.value * whole - 100.0 * part <= 0.005 * whole
  }

  /** A percentage is of a capacity there is, in hundredths, and within half of one of the exact ratio. */
  lemma PercentMeans(productive: real, capacity: real)
    ensures IsShare(Percent(productive, capacity), productive, capacity)
  {
    hide Round2, IsHundredths;
    if capacity > 0.0 {
      var x := productive / capacity * 100.0;
      RoundedIsHundredths(x);
      RoundingError(x);
      RatioTimes(productive, capacity);
      Scaled(Round2(x), x, capacity);
    }
  }

  lemma RatioTimes(a: real, b: real)
    requires b > 0.0
    ensures a / b * 100.0 * b == 100.0 * a
  {
    assert a / b * b == a;
  }

  lemma Scaled(p: real, x: real, c: real)
    requires -0.005 <= p - x <= 0.005 && c > 0.0
    ensures -0.005 * c <= p * c - x * c <= 0.005 * c
  {
    assert p * c - x * c == (p - x) * c;
  }

  lemma FloorIs(x: real, h: int)
    requires h as real <= x < h as real + 1.0
    ensures x.Floor == h
  {
  }

  /** Halfway between two hundredths the one further from zero is taken, and between two integers the higher. */
  lemma Halfway(n: nat)
    ensures Round2((2 * n + 1) as real / 200.0) == (n + 1) as real / 100.0
    ensures Round2(-((2 * n + 1) as real / 200.0)) == -((n + 1) as real / 100.0)
    ensures Round(n as real + 0.5) == n + 1 && Round(-(n as real) - 0.5) + n == 0
  {
    FloorIs((2 * n + 1) as real / 200.0 * 100.0 + 0.5, n + 1);
    FloorIs(n as real + 0.5 + 0.5, n + 1);
    FloorIs(-(n as real) - 0.5 + 0.5, 0 - n);
  }

  lemma RoundIsNearest(x: real)
    ensures -0.5 <= Round(x) as real - x <= 0.5
  {
  }

  /** Whole minutes come back from two-decimal hours exactly. */
  lemma MinutesSurvive(m: nat)
    ensures ToMinutes(Round2(ToHours(m))) == m
  {
    var h := (ToHours(m) * 100.0 + 0.5).Floor;
    assert 6 * h <= 10 * m + 3 < 6 * h + 6;
    assert Round2(ToHours(m)) * 60.0 == 0.6 * h as real;
    assert m as real - 0.5 < 0.6 * h as real < m as real + 0.5;
  }

  /** Rounding once is off by no more than half a hundredth. */
  lemma RoundingError(x: real)
    ensures -0.005 <= Round2(x) - x <= 0.005
  {
  }

  /** What two decimals add to a whole number of minutes, in thirds of a hundredth of an hour. */
  function Lean(minutes: int): int {
    if minutes % 3 == 1 then 1 else if minutes % 3 == 2 then -1 else 0
  }

  lemma NearestHundredth(n: nat, h: int)
    requires -1 <= 3 * h - 5 * n <= 1
    ensures Hundredths(ToHours(n)) == h as real / 100.0
  {
    var x := ToHours(n) * 100.0;
    assert 3.0 * x == 5.0 * n as real;
    assert -1.0 <= 3.0 * h as real - 3.0 * x <= 1.0;
    FloorIs(x + 0.5, h);
  }

  lemma Thirds(m: int, q: int, r: int)
    requires m == 3 * q + r && 0 <= r < 3
    ensures m % 3 == r
  {
  }

  lemma LeanCompletesThirds(m: int)
    ensures (5 * m + Lean(m)) % 3 == 0 && -1 <= Lean(m) <= 1 && Lean(-m) == -Lean(m)
  {
    var q, r := m / 3, m % 3;
    Thirds(5 * m + Lean(m), 5 * q + if r == 0 then 0 else r + 1, 0);
    Thirds(-m, if r == 0 then -q else -q - 1, if r == 0 then 0 else 3 - r);
  }

  lemma RoundedMinutes(m: int)
    ensures Round2(ToHours(m)) == (5 * m + Lean(m)) as real / 300.0
  {
    hide Hundredths, Lean;
    var n := if m < 0 then -m else m;
    var h := (5 * n + Lean(n)) / 3;
    LeanCompletesThirds(n);
    assert 5 * n + Lean(n) == 3 * h;
    NearestHundredth(n, h);
  }

  function Sum(xs: seq<real>): real {
    if xs == [] then 0.0 else Sum(xs[..|xs| - 1]) + xs[|xs| - 1]
  }

  function Rounded(xs: seq<real>): (r: seq<real>)
    ensures |r| == |xs|
  {
    if xs == [] then [] else Rounded(xs[..|xs| - 1]) + [Round2(xs[|xs| - 1])]
  }

  /** `round(parts.reduce(...))` over parts that are rounded already. */
  function PublishedTotal(parts: seq<real>): real {
    Round2(Sum(Rounded(parts)))
  }

  lemma {:induction false} SumOfRounded(parts: seq<real>)
    ensures var off := Sum(Rounded(parts)) - Sum(parts);
      -0.005 * |parts| as real <= off <= 0.005 * |parts| as real
  {
    if parts == [] {
    } else {
      var n := |parts| - 1;
      SumOfRounded(parts[..n]);
      RoundingError(parts[n]);
      assert Rounded(parts)[..n] == Rounded(parts[..n]);
    }
  }

  /** A total of `n` rounded parts, itself rounded, is within 0.005 (n + 1) of the exact one. */
  lemma PublishedTotalIsClose(parts: seq<real>)
    ensures var off := PublishedTotal(parts) - Sum(parts);
      -0.005 * (|parts| + 1) as real <= off <= 0.005 * (|parts| + 1) as real
  {
    SumOfRounded(parts);
    RoundingError(Sum(Rounded(parts)));
  }

  // ------------------------------------------------------------- figures of two decimals

  predicate IsHundredths(x: real) {
    (x * 100.0).Floor as real == x * 100.0
  }

  lemma RoundedIsHundredths(x: real)
    ensures IsHundredths(Round2(x))
  {
    var h := (if x < 0.0 then -(-x * 100.0 + 0.5).Floor else (x * 100.0 + 0.5).Floor) as real;
    assert Round2(x) * 100.0 == h;
  }

  /** Rounding such a figure again changes nothing, and two of them add up to one. */
  lemma HundredthsAdd(x: real, y: real)
    requires IsHundredths(x) && IsHundredths(y)
    ensures Round2(x) == x && IsHundredths(x + y) && Round2(x + y) == x + y
  {
    var a, b := (x * 100.0).Floor, (y * 100.0).Floor;
    assert (x + y) * 100.0 == (a + b) as real;
    HundredthsStay(x);
    HundredthsStay(x + y);
  }

  lemma HundredthsStay(x: real)
    requires IsHundredths(x)
    ensures Round2(x) == x
  {
    var a := (x * 100.0).Floor;
    assert ((if a < 0 then -a else a) as real + 0.5).Floor == if a < 0 then -a else a;
  }

  /** A running total that is rounded at every addition: `total = round(total + x)`. */
  function Running(xs: seq<real>): real {
    if xs == [] then 0.0 else Round2(Running(xs[..|xs| - 1]) + xs[|xs| - 1])
  }

  lemma RunningNext(xs: seq<real>, x: real)
    ensures Running(xs + [x]) == Round2(Running(xs) + x)
    ensures Running([]) == 0.0
  {
    hide Round2;
    assert (xs + [x])[..|xs|] == xs;
  }

  /** Each addition is rounded to a hundredth. */
  lemma EachAdditionIsRounded(xs: seq<real>, x: real)
    ensures IsHundredths(Running(xs + [x]))
    ensures -0.005 <= Running(xs + [x]) - (Running(xs) + x) <= 0.005
  {
    hide Round2, Running, IsHundredths;
    RunningNext(xs, x);
    RoundedIsHundredths(Running(xs) + x);
    RoundingError(Running(xs) + x);
  }

  /** Each addition is off by half a hundredth at most, and by nothing if the figures have two decimals. */
  lemma {:induction false} RunningIsClose(xs: seq<real>)
    ensures -0.005 * |xs| as real <= Running(xs) - Sum(xs) <= 0.005 * |xs| as real
    ensures (forall k :: 0 <= k < |xs| ==> IsHundredths(xs[k])) ==> Running(xs) == Sum(xs) && IsHundredths(Sum(xs))
  {
    hide Round2, IsHundredths;
    if xs == [] {
      NothingIsHundredths();
    } else {
      var n := |xs| - 1;
      RunningIsClose(xs[..n]);
      RoundingError(Running(xs[..n]) + xs[n]);
      if forall k :: 0 <= k < |xs| ==> IsHundredths(xs[k]) {
        HundredthsAdd(Sum(xs[..n]), xs[n]);
      }
    }
  }

  lemma NothingIsHundredths()
    ensures IsHundredths(0.0)
  {
  }
}

/** Python's `round` at six, four and two decimals: to the nearest multiple, ties to the
    even one. Quantities are exact reals. */
module Rounding {

  /** The slack the source allows in its comparisons, 1e-9. */
  const TOLERANCE := 0.000000001

  function HalfEven(x: real): int {
    var n := (x + 0.5).Floor;
    if n as real == x + 0.5 && n % 2 == 1 then n - 1 else n
  }

  function Round6(x: real): real {
    HalfEven(x * 1000000.0) as real / 1000000.0
  }

  function Round2(x: real): real {
    HalfEven(x * 100.0) as real / 100.0
  }

  function Round4(x: real): real {
    HalfEven(x * 10000.0) as real / 10000.0
  }

  /** A multiple of 0.000001. */
  predicate OnGrid(x: real) {
    (x * 1000000.0).Floor as real == x * 1000000.0
  }

  /** A multiple of 0.01. */
  predicate OnCents(x: real) {
    (x * 100.0).Floor as real == x * 100.0
  }

  /** Halfway between two multiples of 0.000001. */
  predicate Midway(x: real) {
    (x * 1000000.0 + 0.5).Floor as real == x * 1000000.0 + 0.5
  }

  /** Which multiple of 0.000001, for a value on the grid. */
  function Steps(x: real): int {
    (x * 1000000.0).Floor
  }

  /** Which multiple of 0.01, for a value in whole cents. */
  function Cents(x: real): int {
    (x * 100.0).Floor
  }

  lemma HalfEvenNearest(x: real, n: int)
    ensures HalfEven(x) as real - 0.5 <= x <= HalfEven(x) as real + 0.5
    ensures HalfEven(x) == n <==>
              || n as real - 0.5 < x < n as real + 0.5
              || ((x == n as real - 0.5 || x == n as real + 0.5) && n % 2 == 0)
  {
  }

  /** Rounding the way from `b` to a whole number and then the arrival lands on that number
      exactly when `b` is not halfway between two, or the number is even. */
  lemma HalfEvenArrives(b: real, c: int)
    ensures HalfEven(b + HalfEven(c as real - b) as real) == c <==>
            (b + 0.5).Floor as real != b + 0.5 || c % 2 == 0
  {
    hide HalfEven;
    var n := (b + 0.5).Floor;
    var d := HalfEven(c as real - b);
    if n as real == b + 0.5 {
      HalfEvenNearest(c as real - b, d);
      assert d == c - n || d == c - n + 1 by {
        assert (c - n) as real <= d as real <= (c - n + 1) as real;
      }
      HalfEvenNearest(b + d as real, c);
    } else {
      HalfEvenNearest(c as real - b, c - n);
      HalfEvenNearest(b + d as real, c);
    }
  }

  lemma HalfEvenMonotone(x: real, y: real)
    requires x <= y
    ensures HalfEven(x) <= HalfEven(y)
  {
    HalfEvenNearest(x, HalfEven(x));
    HalfEvenNearest(y, HalfEven(y));
    HalfEvenNearest(x, HalfEven(y));
  }

  /** Rounding lands on the grid, at most half a step away, and moves only off-grid values. */
  lemma Round6Facts(x: real)
    ensures OnGrid(Round6(x))
    ensures Round6(x) - 0.0000005 <= x <= Round6(x) + 0.0000005
    ensures Round6(x) == x <==> OnGrid(x)
  {
    HalfEvenNearest(x * 1000000.0, HalfEven(x * 1000000.0));
    HalfEvenNearest(x * 1000000.0, (x * 1000000.0).Floor);
    assert Round6(x) * 1000000.0 == HalfEven(x * 1000000.0) as real;
  }

  lemma Round6Monotone(x: real, y: real)
    requires x <= y
    ensures Round6(x) <= Round6(y)
  {
    HalfEvenMonotone(x * 1000000.0, y * 1000000.0);
  }

  lemma Round2Facts(x: real)
    ensures OnCents(Round2(x))
    ensures Round2(x) - 0.005 <= x <= Round2(x) + 0.005
    ensures Round2(x) == x <==> OnCents(x)
  {
    HalfEvenNearest(x * 100.0, HalfEven(x * 100.0));
    HalfEvenNearest(x * 100.0, (x * 100.0).Floor);
    assert Round2(x) * 100.0 == HalfEven(x * 100.0) as real;
  }

  lemma Round2Monotone(x: real, y: real)
    requires x <= y
    ensures Round2(x) <= Round2(y)
  {
    HalfEvenMonotone(x * 100.0, y * 100.0);
  }

  /** `r` is the multiple of 0.000001 nearest to `x`, the even one on a tie. */
  predicate Rounded(r: real, x: real) {
    && OnGrid(r) && r - 0.0000005 <= x <= r + 0.0000005
    && (x == r - 0.0000005 || x == r + 0.0000005 ==> Steps(r) % 2 == 0)
  }

  /** There is one such multiple, and rounding finds it. */
  lemma RoundedExactly(r: real, x: real)
    ensures Rounded(r, x) <==> r == Round6(x)
  {
    var n := Steps(r);
    HalfEvenNearest(x * 1000000.0, n);
    Round6Facts(x);
    HalfEvenNearest(x * 1000000.0, HalfEven(x * 1000000.0));
    assert Round6(x) * 1000000.0 == HalfEven(x * 1000000.0) as real;
    if Rounded(r, x) {
      assert r * 1000000.0 == n as real;
    }
  }

  /** `r` is the multiple of 0.0001 nearest to `x`, the even one on a tie. */
  ghost predicate RoundedToFour(r: real, x: real) {
    var n := (r * 10000.0).Floor;
    && n as real == r * 10000.0 && n as real - 0.5 <= x * 10000.0 <= n as real + 0.5
    && (x * 10000.0 == n as real - 0.5 || x * 10000.0 == n as real + 0.5 ==> n % 2 == 0)
  }

  lemma FourExactly(r: real, x: real)
    ensures RoundedToFour(r, x) <==> r == Round4(x)
  {
    HalfEvenNearest(x * 10000.0, (r * 10000.0).Floor);
    HalfEvenNearest(x * 10000.0, HalfEven(x * 10000.0));
    assert Round4(x) * 10000.0 == HalfEven(x * 10000.0) as real;
  }

  lemma GridStep(x: real, n: int)
    requires x * 1000000.0 == n as real
    ensures OnGrid(x)
  {
  }

  lemma CentStep(x: real, n: int)
    requires x * 100.0 == n as real
    ensures OnCents(x)
  {
  }

  lemma GridSum(x: real, y: real)
    requires OnGrid(x) && OnGrid(y)
    ensures OnGrid(x + y) && OnGrid(x - y)
  {
    var a, b := (x * 1000000.0).Floor, (y * 1000000.0).Floor;
    GridStep(x + y, a + b);
    GridStep(x - y, a - b);
  }

  lemma GridSums(x: real, y: real)
    requires OnGrid(x)
    ensures OnGrid(y) <==> OnGrid(x + y)
    ensures OnGrid(y) <==> OnGrid(x - y)
  {
    hide OnGrid;
    if OnGrid(y) {
      GridSum(x, y);
    }
    if OnGrid(x + y) {
      GridSum(x + y, x);
      assert x + y - x == y;
    }
    if OnGrid(x - y) {
      GridSum(x, x - y);
      assert x - (x - y) == y;
    }
  }

  lemma CentSum(x: real, y: real)
    requires OnCents(x) && OnCents(y)
    ensures OnCents(x + y) && OnCents(x - y)
  {
    var a, b := (x * 100.0).Floor, (y * 100.0).Floor;
    CentStep(x + y, a + b);
    CentStep(x - y, a - b);
  }

  lemma CentSums(x: real, y: real)
    requires OnCents(x)
    ensures OnCents(y) <==> OnCents(x + y)
  {
    hide OnCents;
    if OnCents(y) {
      CentSum(x, y);
    }
    if OnCents(x + y) {
      CentSum(x + y, x);
      assert x + y - x == y;
    }
  }

  /** The tolerance is finer than the grid: it never separates two grid values. */
  lemma ToleranceIsFine(x: real, y: real)
    requires OnGrid(x) && OnGrid(y)
    ensures x <= y + TOLERANCE <==> x <= y
  {
    var a, b := (x * 1000000.0).Floor, (y * 1000000.0).Floor;
    if x <= y + TOLERANCE {
      assert a as real <= b as real + 0.001;
      assert a <= b;
    }
  }

  /** The same of cents. */
  lemma ToleranceIsFineCents(x: real, y: real)
    requires OnCents(x) && OnCents(y)
    ensures x <= y + TOLERANCE <==> x <= y
  {
    var a, b := (x * 100.0).Floor, (y * 100.0).Floor;
    if x <= y + TOLERANCE {
      assert a as real <= b as real + 0.001;
      assert a <= b;
    }
  }
}

/** Arithmetic shared by every view: JavaScript's rounding and remainder
    operators written out over unbounded integers and exact reals, sums and
    means of duration/quality columns, and the mean absolute deviation used
    as the "consistency" measure. */
module Numbers {

  function Min(a: int, b: int): int {
    if a <= b then a else b
  }

  function Max(a: int, b: int): int {
    if a >= b then a else b
  }

  function MinReal(a: real, b: real): real {
    if a <= b then a else b
  }

  function Abs(x: real): real {
    if x < 0.0 then -x else x
  }

  function AbsInt(x: int): int {
    if x < 0 then -x else x
  }

  /** Math.round: the nearest integer, a half rounding toward +infinity. */
  function Round(x: real): (r: int)
    ensures x - 0.5 < r as real <= x + 0.5
  {
    (x + 0.5).Floor
  }

  /** Math.round(x * 10) / 10: x rounded to tenths. */
  function RoundTenths(x: real): (r: real)
    ensures x - 0.05 < r <= x + 0.05
    ensures (r * 10.0).Floor as real == r * 10.0
  {
    Round(x * 10.0) as real / 10.0
  }

  /** `Number(x.toFixed(1))` on exact reals: `toFixed` rounds the magnitude
      and keeps the sign, so a tie rounds away from zero, where `Math.round`
      rounds it up. */
  function ToFixedTenths(x: real): (r: real)
    ensures Abs(r - x) <= 0.05
    ensures (r * 10.0).Floor as real == r * 10.0
    ensures x >= 0.0 ==> r == RoundTenths(x)
    ensures x < 0.0 ==> r == -RoundTenths(-x)
    ensures Abs(r) == RoundTenths(Abs(x))
  {
    if x < 0.0 then
      var p := RoundTenths(-x);
      assert (-p * 10.0).Floor == -((p * 10.0).Floor);
      assert (p * 10.0).Floor >= 0;
      -p
    else RoundTenths(x)
  }

  /** A quarter of an hour below zero: `toFixed` gives -0.3, `Math.round`
      to tenths would give -0.2. */
  lemma NegativeTieRoundsAway()
    ensures ToFixedTenths(-0.25) == -0.3
    ensures RoundTenths(-0.25) == -0.2
  {
    assert Round(2.5) == 3;
    assert Round(-2.5) == -2;
  }

  /** Integer division truncated toward zero, as JavaScript's `Math.trunc(a / b)`. */
  function TruncDiv(a: int, b: int): int
    requires b > 0
  {
    if a >= 0 then a / b else -((-a) / b)
  }

  /** JavaScript's `%` on integers: the remainder of truncating division,
      which takes the sign of the dividend (Dafny's `%` never is negative). */
  function JsRem(a: int, b: int): (r: int)
    requires b > 0
    ensures a >= 0 ==> r == a % b && 0 <= r < b
    ensures a < 0 ==> -b < r <= 0
    ensures r == a - b * TruncDiv(a, b)
  {
    if a >= 0 then a % b
    else
      var q := (-a) / b;
      assert b * -q == -(b * q);
      -((-a) % b)
  }

  lemma MulStrict(a: real, c: real, b: real)
    requires b > 0.0 && a < c
    ensures a * b < c * b
  {
  }

  lemma MulMono(a: real, c: real, b: real)
    requires b > 0.0 && a <= c
    ensures a * b <= c * b
  {
  }

  lemma FloorRemainder(x: real, b: real)
    requires b > 0.0
    ensures 0.0 <= x - (x / b).Floor as real * b < b
  {
    var q := x / b;
    var f := q.Floor as real;
    assert f <= q < f + 1.0;
    assert q * b == x;
    assert f * b <= x;
    MulStrict(q, f + 1.0, b);
    calc {
      x;
      == q * b;
      < (f + 1.0) * b;
      == f * b + b;
    }
  }

  lemma ShareBounds(part: int, whole: int)
    requires 0 <= part <= whole && whole > 0
    ensures 0.0 <= part as real / whole as real <= 1.0
    ensures part as real / whole as real == 1.0 <==> part == whole
  {
    var q := part as real / whole as real;
    assert q * whole as real == part as real;
    if q > 1.0 {
      MulStrict(1.0, q, whole as real);
    }
    if q < 1.0 {
      MulStrict(q, 1.0, whole as real);
    }
  }

  /** A part of a whole, in percent: between 0 and 100, and 100 exactly
      for the whole. */
  function Percentage(part: int, whole: int): (r: real)
    requires 0 <= part <= whole && whole > 0
    ensures 0.0 <= r <= 100.0
    ensures r == 100.0 <==> part == whole
    ensures r * whole as real == part as real * 100.0
  {
    ShareBounds(part, whole);
    part as real / whole as real * 100.0
  }

  /** The floor of an exact quotient of integers is integer division. */
  lemma FloorOfQuotient(a: int, b: int)
    requires b > 0
    ensures (a as real / b as real).Floor == a / b
  {
    var q := a / b;
    var m := a % b;
    assert a == b * q + m;
    assert a as real == b as real * q as real + m as real;
    assert a as real / b as real == q as real + m as real / b as real;
    ShareBounds(m, b);
  }

  /** On integers the two truncations agree. */
  lemma TruncAgrees(a: int, b: int)
    requires b > 0
    ensures Trunc(a as real / b as real) == TruncDiv(a, b)
  {
    if a >= 0 {
      FloorOfQuotient(a, b);
    } else {
      FloorOfQuotient(-a, b);
      assert -(a as real / b as real) == (-a) as real / b as real;
    }
  }

  /** A number truncated toward zero, as JavaScript's `Math.trunc`. */
  function Trunc(y: real): int
  {
    if y >= 0.0 then y.Floor else -((-y).Floor)
  }

  /** The floor-based remainder of |x|, signed like x, is x - b * trunc(x / b). */
  lemma SignedFloorRemainder(x: real, b: real)
    requires b > 0.0
    ensures x >= 0.0 ==> x - (x / b).Floor as real * b == x - b * Trunc(x / b) as real
    ensures x < 0.0 ==> -((-x) - ((-x) / b).Floor as real * b) == x - b * Trunc(x / b) as real
  {
    if x < 0.0 {
      assert -(x / b) == (-x) / b;
      var f := ((-x) / b).Floor;
      assert Trunc(x / b) == -f;
    }
  }

  /** JavaScript's `%` on a number that may be fractional (an average):
      x - b * trunc(x / b). */
  function JsRemReal(x: real, b: int): (r: real)
    requires b > 0
    ensures x >= 0.0 ==> 0.0 <= r < b as real
    ensures x < 0.0 ==> -(b as real) < r <= 0.0
    ensures r == x - b as real * Trunc(x / b as real) as real
  {
    SignedFloorRemainder(x, b as real);
    if x >= 0.0 then
      FloorRemainder(x, b as real);
      x - (x / b as real).Floor as real * b as real
    else
      FloorRemainder(-x, b as real);
      -((-x) - ((-x) / b as real).Floor as real * b as real)
  }

  /** Euclidean division is unique: a quotient and a remainder in [0, b)
      that rebuild a are the ones `/` and `%` give. */
  lemma ModUnique(a: int, b: int, q: int, m: int)
    requires b > 0 && 0 <= m < b && a == b * q + m
    ensures a % b == m && a / b == q
  {
    var q0, m0 := a / b, a % b;
    assert b * (q - q0) == m0 - m;
    if q > q0 {
      MulMonoInt(b, 1, q - q0);
    } else if q < q0 {
      MulMonoInt(b, 1, q0 - q);
    }
  }

  lemma MulMonoInt(b: int, lo: int, k: int)
    requires b > 0 && k >= lo
    ensures b * k >= b * lo
  {
  }

  /** Below zero JavaScript's remainder is the floor remainder less b,
      except on an exact multiple of b, where both are 0. */
  lemma NegativeJsRem(a: int, b: int)
    requires b > 0 && a < 0
    ensures a % b == 0 ==> JsRem(a, b) == 0
    ensures a % b != 0 ==> JsRem(a, b) == a % b - b
  {
    var n := -a;
    var q, m := n / b, n % b;
    assert n == b * q + m;
    if m == 0 {
      ModUnique(a, b, -q, 0);
    } else {
      assert a == b * (-q - 1) + (b - m);
      ModUnique(a, b, -q - 1, b - m);
    }
  }

  /** The same for a number: below zero the remainder is x - b (floor(x / b) + 1)
      unless x / b is whole, where it is 0. */
  lemma NegativeJsRemReal(x: real, b: int)
    requires b > 0 && x < 0.0
    ensures (x / b as real).Floor as real == x / b as real ==> JsRemReal(x, b) == 0.0
    ensures (x / b as real).Floor as real != x / b as real ==>
      JsRemReal(x, b) == x - b as real * ((x / b as real).Floor + 1) as real
  {
    var y := x / b as real;
    var f := y.Floor;
    assert y * b as real == x;
    if f as real == y {
      assert (-y).Floor == -f;
      assert Trunc(y) == f;
    } else {
      assert f as real < y < (f + 1) as real;
      assert (-y).Floor == -f - 1;
      assert Trunc(y) == f + 1;
    }
  }

  function Sum(xs: seq<int>): int
  {
    if |xs| == 0 then 0 else xs[0] + Sum(xs[1..])
  }

  lemma {:induction false} SumConcat(a: seq<int>, b: seq<int>)
    ensures Sum(a + b) == Sum(a) + Sum(b)
    decreases |a|
  {
    if |a| == 0 {
      assert a + b == b;
    } else {
      assert (a + b)[1..] == a[1..] + b;
      SumConcat(a[1..], b);
    }
  }

  /** Arithmetic mean, with 0 as the "no data" value of an empty column (the
      source's `length > 0 ? sum / length : 0`). */
  function Mean(xs: seq<int>): real
  {
    if |xs| == 0 then 0.0 else Sum(xs) as real / |xs| as real
  }

  /** A mean times the count gives back the sum. */
  lemma MeanTimesCount(xs: seq<int>, m: nat)
    requires |xs| == m > 0
    ensures Mean(xs) * m as real == Sum(xs) as real
  {
  }

  /** The mean of a constant column is that constant. */
  lemma MeanOfConstant(xs: seq<int>, v: int)
    requires |xs| > 0
    requires forall i :: 0 <= i < |xs| ==> xs[i] == v
    ensures Mean(xs) == v as real
  {
    SumConstant(xs, v);
  }

  /** A mean compares with a threshold as the cross-multiplied sum does. */
  lemma MeanVersusThreshold(xs: seq<int>, c: int)
    requires |xs| > 0
    ensures Mean(xs) < c as real <==> Sum(xs) < c * |xs|
    ensures Mean(xs) > c as real <==> Sum(xs) > c * |xs|
    ensures Mean(xs) == c as real <==> Sum(xs) == c * |xs|
  {
    MeanTimesCount(xs, |xs|);
    CompareScaled(Mean(xs), Sum(xs), c, |xs|);
  }

  /** A quotient mu = s / m compares with c as s compares with c * m. */
  lemma CompareScaled(mu: real, s: int, c: int, m: int)
    requires m > 0 && mu * m as real == s as real
    ensures mu < c as real <==> s < c * m
    ensures mu > c as real <==> s > c * m
    ensures mu == c as real <==> s == c * m
  {
    assert (c * m) as real == c as real * m as real;
    ScaleCompare(mu, c as real, m as real);
  }

  /** Multiplying both sides by the same positive number keeps a
      comparison. */
  lemma ScaleCompare(a: real, b: real, n: real)
    requires n > 0.0
    ensures a < b <==> a * n < b * n
    ensures a > b <==> a * n > b * n
    ensures a == b <==> a * n == b * n
  {
    if a < b {
      MulStrict(a, b, n);
    }
    if b < a {
      MulStrict(b, a, n);
    }
  }

  /** A column whose values all lie in [lo, hi] sums to between lo and hi
      times its length. */
  lemma {:induction false} SumBounds(xs: seq<int>, lo: int, hi: int)
    requires forall i :: 0 <= i < |xs| ==> lo <= xs[i] <= hi
    ensures lo * |xs| <= Sum(xs) <= hi * |xs|
    decreases |xs|
  {
    if |xs| > 0 {
      SumBounds(xs[1..], lo, hi);
    }
  }

  /** The mean of a column whose values all lie in [lo, hi] lies there too. */
  lemma MeanInRange(xs: seq<int>, lo: int, hi: int)
    requires |xs| > 0
    requires forall i :: 0 <= i < |xs| ==> lo <= xs[i] <= hi
    ensures lo as real <= Mean(xs) <= hi as real
  {
    SumBounds(xs, lo, hi);
    MeanVersusThreshold(xs, lo);
    MeanVersusThreshold(xs, hi);
  }

  lemma {:induction false} SumConstant(xs: seq<int>, v: int)
    requires forall i :: 0 <= i < |xs| ==> xs[i] == v
    ensures Sum(xs) == |xs| * v
    decreases |xs|
  {
    if |xs| > 0 {
      SumConstant(xs[1..], v);
    }
  }

  /** The sum of |x - m| over a column. */
  function AbsDevSum(xs: seq<int>, m: real): (r: real)
    ensures r >= 0.0
  {
    if |xs| == 0 then 0.0 else Abs(xs[0] as real - m) + AbsDevSum(xs[1..], m)
  }

  /** The consistency measure (the source calls it "variance"): the mean
      of |x - mean| over the column, 0 for no values. */
  function MeanAbsDeviation(xs: seq<int>): (r: real)
    ensures r >= 0.0
    ensures |xs| == 0 ==> r == 0.0
    ensures |xs| > 0 ==> r * |xs| as real == AbsDevSum(xs, Mean(xs))
  {
    if |xs| == 0 then 0.0 else AbsDevSum(xs, Mean(xs)) / |xs| as real
  }

  lemma {:induction false} AbsDevSumAtValue(xs: seq<int>, v: int)
    requires forall i :: 0 <= i < |xs| ==> xs[i] == v
    ensures AbsDevSum(xs, v as real) == 0.0
    decreases |xs|
  {
    if |xs| > 0 {
      AbsDevSumAtValue(xs[1..], v);
    }
  }

  /** A column of equal values deviates by nothing. */
  lemma ConstantColumnIsSteady(xs: seq<int>, v: int)
    requires forall i :: 0 <= i < |xs| ==> xs[i] == v
    ensures MeanAbsDeviation(xs) == 0.0
  {
    if |xs| > 0 {
      MeanOfConstant(xs, v);
      AbsDevSumAtValue(xs, v);
    }
  }

  /** Within [lo, hi], every term |x - m| about a point m of [lo, hi] is at
      most hi - lo, so the sum is at most n (hi - lo). */
  lemma {:induction false} AbsDevSumBound(xs: seq<int>, m: real, lo: int, hi: int)
    requires forall i :: 0 <= i < |xs| ==> lo <= xs[i] <= hi
    requires lo as real <= m <= hi as real
    ensures AbsDevSum(xs, m) <= (|xs| * (hi - lo)) as real
    decreases |xs|
  {
    if |xs| > 0 {
      AbsDevSumBound(xs[1..], m, lo, hi);
      assert |xs| * (hi - lo) == (|xs| - 1) * (hi - lo) + (hi - lo);
    }
  }

  /** A column whose values all lie within a band of width hi - lo has a
      mean absolute deviation of at most that width. */
  lemma DeviationWithinSpread(xs: seq<int>, lo: int, hi: int)
    requires |xs| > 0
    requires forall i :: 0 <= i < |xs| ==> lo <= xs[i] <= hi
    ensures MeanAbsDeviation(xs) <= (hi - lo) as real
  {
    var n := |xs| as real;
    MeanInRange(xs, lo, hi);
    AbsDevSumBound(xs, Mean(xs), lo, hi);
    QuotientBound(AbsDevSum(xs, Mean(xs)), (hi - lo) as real, |xs|, hi - lo);
  }

  /** s <= n d with n > 0 gives s / n <= d. */
  lemma QuotientBound(s: real, d: real, n: int, di: int)
    requires n > 0 && d == di as real && s <= (n * di) as real
    ensures s / n as real <= d
  {
    var nr := n as real;
    assert (n * di) as real == d * nr;
    assert (s / nr) * nr == s;
    ScaleCompare(s / nr, d, nr);
  }
}

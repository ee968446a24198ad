/** Arithmetic shared by the simulator: powers with a natural exponent, sums,
    maxima and minima of sequences, and the interpolation step used by both
    price trajectories. */
module Numeric {

  /** `x ** n` for a natural exponent n (Python's `**` with an int exponent). */
  function Pow(x: real, n: nat): real
  {
    if n == 0 then 1.0 else x * Pow(x, n - 1)
  }

  lemma {:induction false} PowPositive(x: real, n: nat)
    requires x > 0.0
    ensures Pow(x, n) > 0.0
  {
    if n > 0 {
      PowPositive(x, n - 1);
      assert x * Pow(x, n - 1) > 0.0;
    }
  }

  /** A power is zero only when a zero base is raised to a positive exponent. */
  lemma {:induction false} PowNonZero(x: real, n: nat)
    requires n == 0 || x != 0.0
    ensures Pow(x, n) != 0.0
  {
    if n > 0 {
      PowNonZero(x, n - 1);
      assert x * Pow(x, n - 1) != 0.0;
    }
  }

  lemma {:induction false} PowAtLeastOne(x: real, n: nat)
    requires x >= 1.0
    ensures Pow(x, n) >= 1.0
  {
    if n > 0 {
      PowAtLeastOne(x, n - 1);
      assert x * Pow(x, n - 1) >= Pow(x, n - 1);
    }
  }

  /** Raising to a positive power is strictly increasing in a positive base. */
  lemma {:induction false} PowStrictlyIncreasingInBase(x: real, y: real, n: nat)
    requires 0.0 < x < y
    ensures n == 0 ==> Pow(x, n) == Pow(y, n)
    ensures n > 0 ==> Pow(x, n) < Pow(y, n)
  {
    if n > 0 {
      PowStrictlyIncreasingInBase(x, y, n - 1);
      PowPositive(x, n - 1);
      MulStrictlyIncreasing(x, y, Pow(x, n - 1), Pow(y, n - 1));
    }
  }

  lemma {:induction false} PowOfOne(n: nat)
    ensures Pow(1.0, n) == 1.0
  {
    if n > 0 {
      PowOfOne(n - 1);
    }
  }

  lemma {:induction false} PowNonNegative(x: real, n: nat)
    requires x >= 0.0
    ensures Pow(x, n) >= 0.0
  {
    if n > 0 {
      PowNonNegative(x, n - 1);
      MulNonNegative(x, Pow(x, n - 1));
    }
  }

  /** With a base above one, each further year multiplies the power up. */
  lemma PowStepIncreases(x: real, n: nat)
    requires x > 1.0
    ensures Pow(x, n) < Pow(x, n + 1)
  {
    PowPositive(x, n);
    assert Pow(x, n + 1) == x * Pow(x, n);
  }

  /** Python's `sum` over a list of floats, accumulated from the left. */
  function Sum(s: seq<real>): real
  {
    if |s| == 0 then 0.0 else Sum(s[..|s| - 1]) + s[|s| - 1]
  }

  lemma SumAppend(s: seq<real>, x: real)
    ensures Sum(s + [x]) == Sum(s) + x
  {
    assert (s + [x])[..|s|] == s;
  }

  /** Python's `sum` over a list of ints. */
  function SumInt(s: seq<int>): int
  {
    if |s| == 0 then 0 else SumInt(s[..|s| - 1]) + s[|s| - 1]
  }

  /** Python's `max` over a non-empty list of numbers. */
  function MaxReal(s: seq<real>): (m: real)
    requires |s| > 0
    ensures exists i :: 0 <= i < |s| && s[i] == m
    ensures forall i :: 0 <= i < |s| ==> s[i] <= m
  {
    if |s| == 1 then s[0]
    else
      var rest := MaxReal(s[..|s| - 1]);
      if s[|s| - 1] >= rest then s[|s| - 1] else rest
  }

  /** Python's `min` over a non-empty list of numbers. */
  function MinReal(s: seq<real>): (m: real)
    requires |s| > 0
    ensures exists i :: 0 <= i < |s| && s[i] == m
    ensures forall i :: 0 <= i < |s| ==> m <= s[i]
  {
    if |s| == 1 then s[0]
    else
      var rest := MinReal(s[..|s| - 1]);
      if s[|s| - 1] <= rest then s[|s| - 1] else rest
  }

  /** Python's `max` over a non-empty list of ints. */
  function MaxInt(s: seq<int>): (m: int)
    requires |s| > 0
    ensures exists i :: 0 <= i < |s| && s[i] == m
    ensures forall i :: 0 <= i < |s| ==> s[i] <= m
  {
    if |s| == 1 then s[0]
    else
      var rest := MaxInt(s[..|s| - 1]);
      if s[|s| - 1] >= rest then s[|s| - 1] else rest
  }

  /** Python's `min` over a non-empty list of ints. */
  function MinInt(s: seq<int>): (m: int)
    requires |s| > 0
    ensures exists i :: 0 <= i < |s| && s[i] == m
    ensures forall i :: 0 <= i < |s| ==> m <= s[i]
  {
    if |s| == 1 then s[0]
    else
      var rest := MinInt(s[..|s| - 1]);
      if s[|s| - 1] <= rest then s[|s| - 1] else rest
  }

  /** A list of ints lies between its length times its minimum and its
      length times its maximum: the mean lies between the extremes. */
  lemma {:induction false} SumIntBounds(s: seq<int>)
    requires |s| > 0
    ensures |s| * MinInt(s) <= SumInt(s) <= |s| * MaxInt(s)
  {
    var n := |s|;
    if n > 1 {
      var init := s[..n - 1];
      SumIntBounds(init);
      assert MinInt(s) <= MinInt(init) && MaxInt(init) <= MaxInt(s);
      assert SumInt(s) == SumInt(init) + s[n - 1];
      BoundsStep(n - 1, SumInt(init), s[n - 1], MinInt(s), MaxInt(s), MinInt(init), MaxInt(init));
    }
  }

  lemma BoundsStep(k: int, total: int, last: int, lo: int, hi: int, loInit: int, hiInit: int)
    requires k >= 0 && k * loInit <= total <= k * hiInit
    requires lo <= loInit && hiInit <= hi && lo <= last <= hi
    ensures (k + 1) * lo <= total + last <= (k + 1) * hi
  {
    ScaleIntLe(k, lo, loInit);
    ScaleIntLe(k, hiInit, hi);
  }

  /** The step `lo + (hi - lo) * t` that both price trajectories use to move
      a fraction t of the way from one anchor price to the next. */
  function Lerp(lo: real, hi: real, t: real): real
  {
    lo + (hi - lo) * t
  }

  /** For a fraction t in [0, 1] the interpolated value lies between the two
      anchors, whichever of them is larger; at t = 0 and t = 1 it is the
      anchor itself. */
  lemma LerpBetween(lo: real, hi: real, t: real)
    requires 0.0 <= t <= 1.0
    ensures lo <= hi ==> lo <= Lerp(lo, hi, t) <= hi
    ensures hi <= lo ==> hi <= Lerp(lo, hi, t) <= lo
    ensures t == 0.0 ==> Lerp(lo, hi, t) == lo
    ensures t == 1.0 ==> Lerp(lo, hi, t) == hi
  {
    if lo <= hi {
      ScaleByFraction(hi - lo, t);
    } else {
      ScaleByFraction(lo - hi, t);
      assert (hi - lo) * t == -((lo - hi) * t);
    }
  }

  lemma ScaleByFraction(a: real, t: real)
    requires a >= 0.0 && 0.0 <= t <= 1.0
    ensures 0.0 <= a * t <= a
  {
  }

  lemma ScaleIntLe(a: int, b: int, c: int)
    requires a >= 0 && b <= c
    ensures a * b <= a * c
  {
  }

  lemma MulStrictlyIncreasing(x: real, y: real, a: real, b: real)
    requires 0.0 < x < y && 0.0 < a <= b
    ensures x * a < y * b
  {
    assert x * a <= x * b;
  }

  lemma MulNonNegative(a: real, b: real)
    requires a >= 0.0 && b >= 0.0
    ensures a * b >= 0.0
  {
  }

  lemma MulPositive(a: real, b: real)
    requires a > 0.0 && b > 0.0
    ensures a * b > 0.0
  {
  }

  lemma DivideByAtLeastOne(a: real, b: real)
    requires a >= 0.0 && b >= 1.0
    ensures 0.0 <= a / b <= a
  {
  }

  lemma DivideByLarger(a: real, p: real, q: real)
    requires a > 0.0 && 0.0 < p < q
    ensures a / q < a / p
  {
  }

  /** The strictly positive entries of a list, in order: the comprehension
      `[p for p in prices if p > 0]`. */
  function Positives(s: seq<real>): (r: seq<real>)
    ensures |r| <= |s|
    ensures forall i :: 0 <= i < |r| ==> r[i] > 0.0
    ensures forall x :: x in r <==> x in s && x > 0.0
  {
    if |s| == 0 then []
    else
      var init := Positives(s[..|s| - 1]);
      assert s == s[..|s| - 1] + [s[|s| - 1]];
      if s[|s| - 1] > 0.0 then init + [s[|s| - 1]] else init
  }

  /** A list of positive entries passes the filter unchanged. */
  lemma {:induction false} PositivesOfPositive(s: seq<real>)
    requires forall i :: 0 <= i < |s| ==> s[i] > 0.0
    ensures Positives(s) == s
  {
    if |s| > 0 {
      PositivesOfPositive(s[..|s| - 1]);
      assert s == s[..|s| - 1] + [s[|s| - 1]];
    }
  }

  /** Filtering twice is filtering once. */
  lemma PositivesIdempotent(s: seq<real>)
    ensures Positives(Positives(s)) == Positives(s)
  {
    PositivesOfPositive(Positives(s));
  }

  lemma PositivesNonEmpty(s: seq<real>)
    requires exists i :: 0 <= i < |s| && s[i] > 0.0
    ensures |Positives(s)| > 0
  {
    var i :| 0 <= i < |s| && s[i] > 0.0;
    assert s[i] in Positives(s);
  }

  /** The largest strictly positive entry. */
  function MaxPositive(s: seq<real>): (m: real)
    requires exists i :: 0 <= i < |s| && s[i] > 0.0
    ensures m > 0.0
    ensures exists i :: 0 <= i < |s| && s[i] == m
    ensures forall i :: 0 <= i < |s| ==> s[i] <= m
  {
    PositivesNonEmpty(s);
    var active := Positives(s);
    var m := MaxReal(active);
    assert m in active;
    assert forall j :: 0 <= j < |s| && s[j] > 0.0 ==> s[j] in active;
    m
  }

  /** The smallest strictly positive entry. */
  function MinPositive(s: seq<real>): (m: real)
    requires exists i :: 0 <= i < |s| && s[i] > 0.0
    ensures m > 0.0
    ensures exists i :: 0 <= i < |s| && s[i] == m
    ensures forall i :: 0 <= i < |s| && s[i] > 0.0 ==> m <= s[i]
  {
    PositivesNonEmpty(s);
    var active := Positives(s);
    var m := MinReal(active);
    assert m in active;
    assert forall j :: 0 <= j < |s| && s[j] > 0.0 ==> s[j] in active;
    m
  }

  lemma MinPositiveAtMostMaxPositive(s: seq<real>)
    requires exists i :: 0 <= i < |s| && s[i] > 0.0
    ensures MinPositive(s) <= MaxPositive(s)
  {
    var k :| 0 <= k < |s| && s[k] == MinPositive(s);
  }

  /** How many times the largest positive entry is the smallest one: at least
      one, and exactly one when all positive entries are equal. */
  function PositiveSpread(s: seq<real>): (r: real)
    requires exists i :: 0 <= i < |s| && s[i] > 0.0
    ensures r >= 1.0
  {
    MinPositiveAtMostMaxPositive(s);
    RatioScales(MaxPositive(s), MinPositive(s), Ratio(MaxPositive(s), MinPositive(s)));
    Ratio(MaxPositive(s), MinPositive(s))
  }

  /** `hi / lo`: the factor that takes lo to hi. */
  function Ratio(hi: real, lo: real): real
    requires lo != 0.0
  {
    hi / lo
  }

  lemma RatioScales(hi: real, lo: real, r: real)
    requires 0.0 < lo <= hi && r == Ratio(hi, lo)
    ensures r >= 1.0
    ensures r * lo == hi
  {
  }

  /** Moving further along from the lower anchor towards a higher one never
      lowers the interpolated value. */
  lemma LerpMonotone(lo: real, hi: real, t1: real, t2: real)
    requires lo <= hi && t1 <= t2
    ensures Lerp(lo, hi, t1) <= Lerp(lo, hi, t2)
  {
    ScaleRealLe(hi - lo, t1, t2);
  }

  lemma ScaleRealLt(a: real, b: real, c: real)
    requires a > 0.0 && b < c
    ensures a * b < a * c
  {
  }

  lemma ScaleRealLe(a: real, b: real, c: real)
    requires a >= 0.0 && b <= c
    ensures a * b <= a * c
  {
  }
}

/** Comparing float64 values with int64 limits: no answer is spoiled by rounding or truncation. */
module Bounds {
  import opened Text

  function Pow2(n: nat): (p: nat)
    ensures p > 0
  {
    if n == 0 then 1 else 2 * Pow2(n - 1)
  }

  /** m times two to the e, exactly. */
  function Scale(m: int, e: int): real {
    if e >= 0 then m as real * Pow2(e) as real else m as real / Pow2(-e) as real
  }

  const SIGNIFICAND := 0x20_0000_0000_0000  // 2 to the 53
  const TWO_63 := 9223372036854775808.0

  predicate IsDouble(x: real, m: int, e: int) {
    -SIGNIFICAND < m < SIGNIFICAND && -1074 <= e <= 971 && x == Scale(m, e)
  }

  /** The finite float64 values. */
  ghost predicate Double(x: real) {
    exists m, e :: IsDouble(x, m, e)
  }

  datatype Float = Finite(x: real) | NotANumber | Infinite

  ghost predicate IsFloat(f: Float) {
    f.Finite? ==> Double(f.x)
  }

  function Distance(a: real, b: real): real {
    if a < b then b - a else a - b
  }

  /** A conversion of an integer to float64: some nearest double, ties however broken. */
  ghost predicate Converted(n: int, r: real) {
    Double(r) && forall y | Double(y) :: Distance(r, n as real) <= Distance(y, n as real)
  }

  /** Conversion to an integer discards the fraction, toward zero. */
  function Truncated(x: real): int {
    if x >= 0.0 then x.Floor else -((-x).Floor)
  }

  lemma IntegerIsDouble(n: int)
    requires -SIGNIFICAND < n < SIGNIFICAND
    ensures Double(n as real)
  {
    assert Pow2(0) == 1;
    assert IsDouble(n as real, n, 0);
  }

  /** An integer that is a double converts to itself. */
  lemma ConvertedExactly(n: int, r: real)
    requires Converted(n, r) && Double(n as real)
    ensures r == n as real
  {
    assert Distance(r, n as real) <= Distance(n as real, n as real);
  }

  lemma WholeQuotient(m: int, p: nat)
    requires p > 0
    ensures m as real / p as real <= m as real || m < 0
    ensures p >= 2 && m >= 0 ==> m as real / p as real <= m as real / 2.0
    ensures p >= 2 && m < 0 ==> m as real / p as real >= m as real / 2.0
  {
    var q := m as real / p as real;
    assert q * p as real == m as real;
    if m >= 0 {
      assert q >= 0.0;
      assert q * p as real >= q * 1.0;
      if p >= 2 {
        assert q * p as real >= q * 2.0;
      }
    } else {
      assert q < 0.0;
      if p >= 2 {
        assert q * p as real <= q * 2.0;
      }
    }
  }

  /** A double with a fraction is smaller than the integers that are all doubles. */
  lemma FractionIsSmall(x: real)
    requires Double(x) && x != x.Floor as real
    ensures -(SIGNIFICAND as real) / 2.0 < x < SIGNIFICAND as real / 2.0
  {
    var m: int, e: int :| IsDouble(x, m, e);
    WholeScale(m, e);
    if e < 0 {
      assert Pow2(-e) >= 2;
      WholeQuotient(m, Pow2(-e));
    }
  }

  lemma WholeScale(m: int, e: int)
    ensures e >= 0 ==> Scale(m, e) == Scale(m, e).Floor as real
  {
    if e >= 0 {
      assert Scale(m, e) == (m * Pow2(e)) as real;
      assert Scale(m, e).Floor == m * Pow2(e);
    }
  }

  /** Where truncation meets the bound, the converted bound is the bound. */
  lemma BoundConvertsExactly(x: real, bound: int64, converted: real)
    requires Double(x) && Converted(bound, converted) && Truncated(x) == bound
    ensures converted == bound as real
  {
    if x == x.Floor as real {
      WholeTruncates(x);
      assert x == bound as real;
    } else {
      FractionIsSmall(x);
      TruncationShrinks(x);
      IntegerIsDouble(bound);
    }
    ConvertedExactly(bound, converted);
  }

  lemma WholeTruncates(x: real)
    requires x == x.Floor as real
    ensures x == Truncated(x) as real
  {
    if x < 0.0 {
      assert -x == (-(x.Floor)) as real;
      assert (-x).Floor == -(x.Floor);
    }
  }

  lemma TruncationShrinks(x: real)
    ensures x >= 0.0 ==> 0.0 <= Truncated(x) as real <= x < Truncated(x) as real + 1.0
    ensures x <= 0.0 ==> Truncated(x) as real - 1.0 < x <= Truncated(x) as real <= 0.0
  {
  }

  /** `converted` is the bound as a float64, whichever nearest double that is. */
  function FloatLessThanInt64(x: real, bound: int64, converted: real): (r: bool)
    requires Double(x) && Converted(bound, converted)
    ensures r <==> x < bound as real
  {
    if x < MIN_INT64 as real then true
    else if x >= TWO_63 then false
    else
      var integer := Truncated(x);
      TruncationShrinks(x);
      if integer != bound then integer < bound
      else
        BoundConvertsExactly(x, bound, converted);
        x < converted
  }

  function FloatGreaterThanInt64(x: real, bound: int64, converted: real): (r: bool)
    requires Double(x) && Converted(bound, converted)
    ensures r <==> x > bound as real
  {
    if x >= TWO_63 then true
    else if x < MIN_INT64 as real then false
    else
      var integer := Truncated(x);
      TruncationShrinks(x);
      if integer != bound then integer > bound
      else
        BoundConvertsExactly(x, bound, converted);
        x > converted
  }

  /** Outside the range, or no finite number at all. */
  function FloatOutsideRange(value: Float, low: int64, high: int64, convertedLow: real, convertedHigh: real): (r: bool)
    requires IsFloat(value) && Converted(low, convertedLow) && Converted(high, convertedHigh)
    ensures r <==> !(value.Finite? && low as real <= value.x <= high as real)
  {
    value.NotANumber? || value.Infinite?
    || FloatLessThanInt64(value.x, low, convertedLow) || FloatGreaterThanInt64(value.x, high, convertedHigh)
  }
}

/** ceil, floor and round. */
module DecimalRounding {
  import opened PowersOfTen
  import opened DecimalPrimitives
  import opened DecimalNumber
  import opened DecimalAddition

  /** A decimal with exponent zero; the coefficient counts whole ones. */
  function Whole(sign: Sign, n: uint64): (d: Decimal)
    requires n <= MAX_COEFFICIENT
  {
    EncodedData(sign, if n != 0 then ClassNormal else ClassZero, 0, n)
  }

  /** Nothing is left to normalise in a whole number of at most eighteen digits. */
  lemma WholeIsEncoded(sign: Sign, n: uint64)
    requires n <= MAX_COEFFICIENT
    ensures Whole(sign, n) == Encode(sign, 0, n)
  {
    ExcessIsLeast(n);
    DivUnique(n, 1, n, 0);
  }

  lemma WholePartFits(c: uint64, n: nat)
    requires c <= MAX_COEFFICIENT && n > 0
    ensures 0 <= c / Pow10(n) < MAX_COEFFICIENT
  {
    ShiftedDownFits(c, n);
    SmallPowers();
  }

  /** Sign and whole part of ceil, for a finite decimal with digits after the point. */
  function CeilingParts(d: Decimal): (p: (Sign, uint64))
    requires d.IsFinite() && d.exponent < 0
    ensures p.1 <= MAX_COEFFICIENT
  {
    var n := -d.exponent;
    WholePartFits(d.coefficient, n);
    if Digits(d.coefficient) <= n then
      if d.IsPositive() then (Positive, 1) else (Positive, 0)
    else
      var up := d.IsPositive() && d.coefficient % Pow10(n) != 0;
      (d.sign, d.coefficient / Pow10(n) + if up then 1 else 0)
  }

  function FloorParts(d: Decimal): (p: (Sign, uint64))
    requires d.IsFinite() && d.exponent < 0
    ensures p.1 <= MAX_COEFFICIENT
  {
    var n := -d.exponent;
    WholePartFits(d.coefficient, n);
    if Digits(d.coefficient) < n then
      if d.IsPositive() then (Positive, 0) else (Negative, 1)
    else
      var up := d.IsNegative() && d.coefficient % Pow10(n) != 0;
      (d.sign, d.coefficient / Pow10(n) + if up then 1 else 0)
  }

  function RoundParts(d: Decimal): (p: (Sign, uint64))
    requires d.IsFinite() && d.exponent < 0
    ensures p.1 <= MAX_COEFFICIENT
  {
    var n := -d.exponent;
    if Digits(d.coefficient) < n then (Positive, 0)
    else
      var tenths := d.coefficient / Pow10(n - 1);
      TenthsFit(d.coefficient, n);
      (d.sign, (if tenths % 10 >= 5 then tenths + 10 else tenths) / 10)
  }

  function Ceiling(d: Decimal): (r: Decimal) {
    if d.IsSpecial() || d.exponent >= 0 then d else var (sign, n) := CeilingParts(d); Whole(sign, n)
  }

  function Floor(d: Decimal): (r: Decimal) {
    if d.IsSpecial() || d.exponent >= 0 then d else var (sign, n) := FloorParts(d); Whole(sign, n)
  }

  function Round(d: Decimal): (r: Decimal) {
    if d.IsSpecial() || d.exponent >= 0 then d else var (sign, n) := RoundParts(d); Whole(sign, n)
  }

  lemma TenthsFit(c: uint64, n: nat)
    requires c <= MAX_COEFFICIENT && n > 0
    ensures 0 <= c / Pow10(n - 1) <= MAX_COEFFICIENT
  {
    ShiftedDownFits(c, n - 1);
  }

  method IsMultiplePowersOfTen(coefficient: uint64, n: nat) returns (b: bool)
    requires n <= PRECISION
    ensures b <==> coefficient % Pow10(n) == 0
  {
    if coefficient == 0 {
      DivUnique(0, Pow10(n), 0, 0);
      return true;
    }
    PowProduct(n, 0);
    var p := ScaleUp(1, n);
    assert p == Pow10(n);
    b := coefficient % p == 0;
  }

  method Ceil(d: Decimal) returns (r: Decimal)
    ensures r == Ceiling(d)
  {
    if d.IsSpecial() {
      return d;
    }
    if d.exponent >= 0 {
      return d;
    }
    var result: uint64 := d.coefficient;
    var numberOfDigits := CountDigits(result);
    var numberOfDropDigits := -d.exponent;
    if numberOfDigits <= numberOfDropDigits {
      return if d.IsPositive() then Whole(Positive, 1) else Zero(Positive);
    }
    WholePartFits(result, numberOfDropDigits);
    AtMostEighteen(result);
    result := ScaleDown(result, numberOfDropDigits);
    var multiple := IsMultiplePowersOfTen(d.coefficient, numberOfDropDigits);
    if d.IsPositive() && !multiple {
      result := result + 1;
    }
    WholeIsEncoded(d.sign, result);
    r := Construct(d.sign, 0, result);
  }

  method FloorOf(d: Decimal) returns (r: Decimal)
    ensures r == Floor(d)
  {
    if d.IsSpecial() {
      return d;
    }
    if d.exponent >= 0 {
      return d;
    }
    var result: uint64 := d.coefficient;
    var numberOfDigits := CountDigits(result);
    var numberOfDropDigits := -d.exponent;
    if numberOfDigits < numberOfDropDigits {
      return if d.IsPositive() then Zero(Positive) else Whole(Negative, 1);
    }
    WholePartFits(result, numberOfDropDigits);
    AtMostEighteen(result);
    result := ScaleDown(result, numberOfDropDigits);
    var multiple := IsMultiplePowersOfTen(d.coefficient, numberOfDropDigits);
    if d.IsNegative() && !multiple {
      result := result + 1;
    }
    WholeIsEncoded(d.sign, result);
    r := Construct(d.sign, 0, result);
  }

  method RoundOff(d: Decimal) returns (r: Decimal)
    ensures r == Round(d)
  {
    if d.IsSpecial() {
      return d;
    }
    if d.exponent >= 0 {
      return d;
    }
    var result: uint64 := d.coefficient;
    var numberOfDigits := CountDigits(result);
    var numberOfDropDigits := -d.exponent;
    if numberOfDigits < numberOfDropDigits {
      return Zero(Positive);
    }
    TenthsFit(result, numberOfDropDigits);
    result := ScaleDown(result, numberOfDropDigits - 1);
    if result % 10 >= 5 {
      result := result + 10;
    }
    result := result / 10;
    WholeIsEncoded(d.sign, result);
    r := Construct(d.sign, 0, result);
  }

  lemma AtMostEighteen(c: uint64)
    requires c <= MAX_COEFFICIENT
    ensures Digits(c) <= PRECISION
  {
    SmallPowers();
    DigitsAtMost(c, 18);
  }

  // ----- what the results mean

  /** The value of one. */
  ghost const ONE: nat := Unit(0)

  ghost predicate IsInteger(v: int) { v % ONE == 0 }

  /** For an integer w: the least one that is not below v. */
  ghost predicate IsCeilingOf(w: int, v: int) { v <= w < v + ONE }

  /** For an integer w: the greatest one that is not above v. */
  ghost predicate IsFloorOf(w: int, v: int) { w <= v < w + ONE }

  /** For an integer w: the nearest one to v; of two equally near, the one farther from zero. */
  ghost predicate IsNearestTo(w: int, v: int) {
    && 2 * Abs(w - v) <= ONE
    && (2 * Abs(w - v) == ONE ==> Abs(w) > Abs(v))
  }

  lemma WholeIsInteger(sign: Sign, n: uint64)
    requires n <= MAX_COEFFICIENT
    ensures Value(Whole(sign, n)) == Apply(sign, n * ONE)
    ensures IsInteger(Value(Whole(sign, n)))
  {
    ApplyTimes(sign, n, ONE);
    DivUnique(Apply(sign, n) * ONE, ONE, Apply(sign, n), 0);
  }

  lemma NonnegativeExponentIsInteger(d: Decimal)
    requires d.IsFinite() && d.exponent >= 0
    ensures IsInteger(Value(d))
  {
    UnitAdd(0, d.exponent);
    MulAssoc(d.coefficient, Pow10(d.exponent), ONE);
    var n := d.coefficient * Pow10(d.exponent);
    ApplyTimes(d.sign, n, ONE);
    DivUnique(Apply(d.sign, n) * ONE, ONE, Apply(d.sign, n), 0);
  }

  /** Splits a magnitude into q whole ones and a fraction f below one. */
  lemma WholeAndFraction(d: Decimal) returns (q: nat, f: nat)
    requires d.IsFinite() && d.exponent < 0
    ensures q == d.coefficient / Pow10(-d.exponent)
    ensures f == (d.coefficient % Pow10(-d.exponent)) * Unit(d.exponent) < ONE
    ensures Value(d) == Apply(d.sign, q * ONE + f)
    ensures f == 0 <==> d.coefficient % Pow10(-d.exponent) == 0
    ensures Digits(d.coefficient) <= -d.exponent ==> q == 0 && (f == 0 <==> d.IsZero())
  {
    var n, c, u := -d.exponent, d.coefficient, Unit(d.exponent);
    UnitAdd(d.exponent, n);
    CutOff(c, Pow10(n), u);
    DivNonnegative(c, Pow10(n));
    q, f := c / Pow10(n), (c % Pow10(n)) * u;
    DigitsAtMost(c, n);
    if Digits(c) <= n {
      DivUnique(c, Pow10(n), 0, c);
    }
    if c % Pow10(n) > 0 {
      MulLe(1, c % Pow10(n), u);
    }
  }

  lemma CeilingArithmetic(sign: Sign, short: bool, q: nat, f: nat, s: Sign, n: uint64)
    requires f < ONE && n <= MAX_COEFFICIENT && (short ==> q == 0)
    requires s == if short then Positive else sign
    requires n == if short then if sign == Positive then 1 else 0 else q + if sign == Positive && f != 0 then 1 else 0
    ensures IsCeilingOf(Value(Whole(s, n)), Apply(sign, q * ONE + f)) <==> !(short && sign == Positive && f == 0)
  {
    WholeIsInteger(s, n);
    assert (q + 1) * ONE == q * ONE + ONE;
  }

  /** ceil is the least integer above, except that it takes a positive zero with a negative exponent to one. */
  lemma CeilingIsLeastInteger(d: Decimal)
    requires d.IsFinite()
    ensures Ceiling(d).IsFinite() && IsInteger(Value(Ceiling(d)))
    ensures IsCeilingOf(Value(Ceiling(d)), Value(d)) <==> !(d.IsZero() && d.IsPositive() && d.exponent < 0)
  {
    hide Pow10;
    if d.exponent >= 0 {
      NonnegativeExponentIsInteger(d);
    } else {
      var q, f := WholeAndFraction(d);
      var (s, n) := CeilingParts(d);
      WholeIsInteger(s, n);
      CeilingArithmetic(d.sign, Digits(d.coefficient) <= -d.exponent, q, f, s, n);
      assert Ceiling(d) == Whole(s, n);
    }
  }

  /** 0.0 rounds up to 1, and -0.0 down to -1. */
  lemma ZerosCanBeRoundedAway()
    ensures var zero: Decimal := EncodedData(Positive, ClassZero, -1, 0);
            Value(zero) == 0 && Value(Ceiling(zero)) == ONE
    ensures var zero: Decimal := EncodedData(Negative, ClassZero, -1, 0);
            Value(zero) == 0 && Value(Floor(zero)) == 0 - ONE
  {
    WholeIsInteger(Positive, 1);
    WholeIsInteger(Negative, 1);
  }

  lemma FloorArithmetic(sign: Sign, short: bool, q: nat, f: nat, s: Sign, n: uint64)
    requires f < ONE && n <= MAX_COEFFICIENT && (short ==> q == 0)
    requires s == sign
    requires n == if short then if sign == Positive then 0 else 1 else q + if sign == Negative && f != 0 then 1 else 0
    ensures IsFloorOf(Value(Whole(s, n)), Apply(sign, q * ONE + f)) <==> !(short && sign == Negative && f == 0)
  {
    WholeIsInteger(s, n);
    assert (q + 1) * ONE == q * ONE + ONE;
  }

  /** floor is the greatest integer below, except that a negative zero with a negative exponent becomes minus one. */
  lemma FloorIsGreatestInteger(d: Decimal)
    requires d.IsFinite()
    ensures Floor(d).IsFinite() && IsInteger(Value(Floor(d)))
    ensures IsFloorOf(Value(Floor(d)), Value(d)) <==> !(d.IsZero() && d.IsNegative() && d.exponent < 0)
  {
    hide Pow10;
    if d.exponent >= 0 {
      NonnegativeExponentIsInteger(d);
    } else {
      var q, f := WholeAndFraction(d);
      var (s, n) := FloorParts(d);
      WholeIsInteger(s, n);
      FloorArithmetic(d.sign, Digits(d.coefficient) < -d.exponent, q, f, s, n);
      assert Floor(d) == Whole(s, n);
    }
  }

  lemma RoundArithmetic(sign: Sign, q: nat, f: nat, s: Sign, n: uint64)
    requires f < ONE && n <= MAX_COEFFICIENT
    requires n == q + if 2 * f >= ONE then 1 else 0
    requires s == sign || n == 0
    ensures IsNearestTo(Value(Whole(s, n)), Apply(sign, q * ONE + f))
  {
    hide Pow10;
    WholeIsInteger(s, n);
    assert (q + 1) * ONE == q * ONE + ONE;
    MulLe(0, q, ONE);
  }

  /** round is to the nearest integer, halves away from zero, for every finite decimal. */
  lemma RoundIsNearestInteger(d: Decimal)
    requires d.IsFinite()
    ensures Round(d).IsFinite() && IsInteger(Value(Round(d)))
    ensures IsNearestTo(Value(Round(d)), Value(d))
  {
    hide Pow10;
    if d.exponent >= 0 {
      NonnegativeExponentIsInteger(d);
    } else {
      var q, f := WholeAndFraction(d);
      var (s, n) := RoundParts(d);
      WholeIsInteger(s, n);
      RoundedParts(d, q, f);
      RoundArithmetic(d.sign, q, f, s, n);
      assert Round(d) == Whole(s, n);
    }
  }

  /** round goes up exactly when the fraction is at least a half. */
  lemma RoundedParts(d: Decimal, q: nat, f: nat)
    requires d.IsFinite() && d.exponent < 0
    requires q == d.coefficient / Pow10(-d.exponent)
    requires f == (d.coefficient % Pow10(-d.exponent)) * Unit(d.exponent)
    ensures RoundParts(d).1 == q + (if 2 * f >= ONE then 1 else 0)
    ensures RoundParts(d).0 == d.sign || RoundParts(d).1 == 0
  {
    hide Pow10, Digits, Unit;
    var n, c := -d.exponent, d.coefficient;
    FirstFractionDigit(c, n);
    UnitAdd(d.exponent, n);
    CompareScaled(c % Pow10(n), Pow10(n), Unit(d.exponent));
    if Digits(c) < n {
      DigitsAtMost(c, n - 1);
      DivUnique(c, Pow10(n - 1), 0, c);
    }
  }

  lemma CompareScaled(a: int, b: int, u: int)
    requires u > 0
    ensures 2 * (a * u) >= b * u <==> 2 * a >= b
  {
    if 2 * a < b {
      MulLt(2 * a, b, u);
    } else {
      MulLe(b, 2 * a, u);
    }
  }
}

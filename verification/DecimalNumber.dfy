/**
  The Decimal type: sign, class, exponent and an 18-digit coefficient, the
  constructor that normalises an encoding, and the exact value of an encoding.
*/
module DecimalNumber {
  import opened PowersOfTen
  import opened DecimalPrimitives

  /** Values are counted in units of 10^-BIAS, which makes every finite value an integer. */
  const BIAS: int := 1023
  const EXPONENT_MAX: int := 1023
  const EXPONENT_MIN: int := -1023

  datatype Sign = Positive | Negative

  datatype FormatClass = ClassInfinity | ClassNormal | ClassNaN | ClassZero

  datatype EncodedData = EncodedData(sign: Sign, formatClass: FormatClass, exponent: int, coefficient: int) {
    /** What every constructor establishes and every operation keeps. */
    predicate Valid() {
      match formatClass
      case ClassNaN => sign == Positive && exponent == 0 && coefficient == 0
      case ClassInfinity => exponent == 0 && coefficient == 0
      case ClassZero => EXPONENT_MIN <= exponent <= EXPONENT_MAX && coefficient == 0
      case ClassNormal => EXPONENT_MIN <= exponent <= EXPONENT_MAX && 0 < coefficient <= MAX_COEFFICIENT
    }

    predicate IsNaN() { formatClass == ClassNaN }
    predicate IsInfinity() { formatClass == ClassInfinity }
    predicate IsZero() { formatClass == ClassZero }
    predicate IsSpecial() { IsInfinity() || IsNaN() }
    predicate IsFinite() { !IsSpecial() }
    predicate IsNegative() { sign == Negative }
    predicate IsPositive() { sign == Positive }
  }

  type Decimal = d: EncodedData | d.Valid() witness EncodedData(Positive, ClassZero, 0, 0)

  const NAN: Decimal := EncodedData(Positive, ClassNaN, 0, 0)

  function Infinity(sign: Sign): (d: Decimal) { EncodedData(sign, ClassInfinity, 0, 0) }

  function Zero(sign: Sign): (d: Decimal) { EncodedData(sign, ClassZero, 0, 0) }

  function Invert(sign: Sign): (s: Sign) {
    if sign == Negative then Positive else Negative
  }

  function Negate(d: Decimal): (r: Decimal) {
    if d.IsNaN() then d else d.(sign := Invert(d.sign))
  }

  // ----- exact values

  /** 10^exponent, in units of 10^-1023. */
  ghost function Unit(exponent: int): (u: nat)
    requires exponent >= EXPONENT_MIN
    ensures u >= 1
  {
    Pow10(exponent + BIAS)
  }

  /** The absolute value of a finite decimal, in units of 10^-1023. */
  ghost function Magnitude(d: Decimal): (m: nat)
    requires d.IsFinite()
  {
    d.coefficient * Unit(d.exponent)
  }

  ghost function Apply(sign: Sign, magnitude: int): (v: int) {
    if sign == Negative then -magnitude else magnitude
  }

  /** The number a finite decimal denotes, in units of 10^-1023. */
  ghost function Value(d: Decimal): (v: int)
    requires d.IsFinite()
  {
    Apply(d.sign, Magnitude(d))
  }

  lemma UnitAdd(exponent: int, n: nat)
    requires exponent >= EXPONENT_MIN
    ensures Unit(exponent + n) == Pow10(n) * Unit(exponent)
  {
    PowAdd(n, exponent + BIAS);
  }

  lemma MagnitudeZero(d: Decimal)
    requires d.IsFinite()
    ensures Magnitude(d) == 0 <==> d.IsZero()
  {
    if !d.IsZero() {
      MulLe(1, d.coefficient, Unit(d.exponent));
    }
  }

  // ----- the normalising constructor

  /** How many digits a 64-bit coefficient has beyond the eighteen kept. */
  function Excess(coefficient: uint64): (k: nat) {
    if Digits(coefficient) > PRECISION then Digits(coefficient) - PRECISION else 0
  }

  /** The least number of digits whose removal leaves at most MAX_COEFFICIENT. */
  lemma ExcessIsLeast(c: uint64)
    ensures c / Pow10(Excess(c)) <= MAX_COEFFICIENT
    ensures Excess(c) > 0 ==> c / Pow10(Excess(c) - 1) > MAX_COEFFICIENT
    ensures Excess(c) <= 2 && (Excess(c) == 0 <==> c <= MAX_COEFFICIENT)
    ensures c > 0 ==> c / Pow10(Excess(c)) > 0
  {
    SmallPowers();
    hide Pow10, Digits;
    DigitsAtMost(c, 18);
    DigitsAtMost(c, 19);
    DigitsAtMost(c, 20);
    assert Excess(c) == if c <= MAX_COEFFICIENT then 0 else if c < 10 * (MAX_COEFFICIENT + 1) then 1 else 2;
  }

  lemma StillExcessive(c: uint64, k: nat)
    requires k < Excess(c)
    ensures c / Pow10(k) > MAX_COEFFICIENT
  {
    ExcessIsLeast(c);
    PowMonotone(k, Excess(c) - 1);
    DivisorLarger(c, Pow10(k), Pow10(Excess(c) - 1));
  }

  /** The encoding of (-1)^sign * coefficient * 10^exponent. */
  function Encode(sign: Sign, exponent: int, coefficient: uint64): (d: Decimal) {
    ExcessIsLeast(coefficient);
    var k := if EXPONENT_MIN <= exponent <= EXPONENT_MAX then Excess(coefficient) else 0;
    if exponent + k > EXPONENT_MAX then Infinity(sign)
    else if exponent + k < EXPONENT_MIN then Zero(sign)
    else EncodedData(sign, if coefficient != 0 then ClassNormal else ClassZero, exponent + k, coefficient / Pow10(k))
  }

  method Construct(sign: Sign, exponent: int, coefficient: uint64) returns (d: Decimal)
    ensures d == Encode(sign, exponent, coefficient)
  {
    var c: uint64, e := coefficient, exponent;
    var formatClass := if coefficient != 0 then ClassNormal else ClassZero;
    ghost var k: nat := 0;
    ExcessIsLeast(coefficient);
    if exponent >= EXPONENT_MIN && exponent <= EXPONENT_MAX {
      while c > MAX_COEFFICIENT
        invariant 0 <= k <= Excess(coefficient)
        invariant c == coefficient / Pow10(k) && e == exponent + k
        decreases c
      {
        DivDiv(coefficient, Pow10(k), 10);
        c := c / 10;
        e := e + 1;
        k := k + 1;
      }
      if k < Excess(coefficient) {
        StillExcessive(coefficient, k);
        assert false;
      }
    }
    if e > EXPONENT_MAX {
      return Infinity(sign);
    }
    if e < EXPONENT_MIN {
      return Zero(sign);
    }
    return EncodedData(sign, formatClass, e, c);
  }

  /**
    What encoding loses: digits beyond the eighteenth, cut off toward zero, and
    nothing at all when there are none. An exponent that is too small loses all.
  */
  lemma EncodeError(sign: Sign, exponent: int, coefficient: uint64)
    ensures var d := Encode(sign, exponent, coefficient);
            && d.sign == sign
            && !d.IsNaN()
            && (d.IsInfinity() <==> exponent >= EXPONENT_MIN && exponent + Excess(coefficient) > EXPONENT_MAX)
            && (exponent < EXPONENT_MIN ==> d == Zero(sign))
            && (d.IsFinite() && exponent >= EXPONENT_MIN ==>
                  && d.exponent == exponent + Excess(coefficient)
                  && (d.IsZero() <==> coefficient == 0)
                  && Magnitude(d) <= coefficient * Unit(exponent)
                  && coefficient * Unit(exponent) - Magnitude(d) <= Unit(d.exponent) - Unit(exponent)
                  && (coefficient <= MAX_COEFFICIENT ==> Magnitude(d) == coefficient * Unit(exponent)))
  {
    ExcessIsLeast(coefficient);
    var d := Encode(sign, exponent, coefficient);
    if d.IsFinite() && exponent >= EXPONENT_MIN {
      var k := Excess(coefficient);
      UnitAdd(exponent, k);
      CutOff(coefficient, Pow10(k), Unit(exponent));
    }
  }
}

/**
  Operand alignment, addition and subtraction. Alignment gives up low digits of
  the operand with the smaller exponent; the lemmas bound what that costs.
*/
module DecimalAddition {
  import opened PowersOfTen
  import opened DecimalPrimitives
  import opened DecimalNumber

  datatype HandleResult = BothFinite | BothInfinity | EitherNaN | LHSIsInfinity | RHSIsInfinity

  function Handle(lhs: Decimal, rhs: Decimal): (r: HandleResult)
    ensures r.BothFinite? <==> lhs.IsFinite() && rhs.IsFinite()
    ensures r.EitherNaN? <==> lhs.IsNaN() || rhs.IsNaN()
    ensures r.BothInfinity? <==> lhs.IsInfinity() && rhs.IsInfinity()
    ensures r.LHSIsInfinity? <==> lhs.IsInfinity() && rhs.IsFinite()
    ensures r.RHSIsInfinity? <==> lhs.IsFinite() && rhs.IsInfinity()
  {
    if lhs.IsFinite() && rhs.IsFinite() then BothFinite
    else if lhs.IsNaN() || rhs.IsNaN() then EitherNaN
    else if lhs.IsInfinity() then if rhs.IsInfinity() then BothInfinity else LHSIsInfinity
    else RHSIsInfinity
  }

  /** handler.value(): the operand that made the handler answer EitherNaN. */
  function NaNOperand(lhs: Decimal, rhs: Decimal): (r: Decimal)
    requires Handle(lhs, rhs) == EitherNaN
    ensures r == NAN
  {
    if lhs.IsNaN() then lhs else rhs
  }

  // ----- alignment

  datatype AlignedOperands = AlignedOperands(lhs: uint64, rhs: uint64, exponent: int)

  predicate InRange(coefficient: int, exponent: int) {
    0 <= coefficient <= MAX_COEFFICIENT && EXPONENT_MIN <= exponent <= EXPONENT_MAX
  }

  /** How many digits a coefficient has too many once it is moved down by shift. */
  function Overflow(coefficient: uint64, shift: nat): (k: nat)
    requires coefficient <= MAX_COEFFICIENT
    ensures k <= shift
  {
    SmallPowers();
    DigitsAtMost(coefficient, 18);
    if Digits(coefficient) + shift <= PRECISION then 0 else Digits(coefficient) + shift - PRECISION
  }

  lemma ShiftedUpFits(c: uint64, shift: nat)
    requires 0 < c <= MAX_COEFFICIENT
    ensures c * Pow10(shift - Overflow(c, shift)) <= MAX_COEFFICIENT
    ensures Overflow(c, shift) > 0 ==> c * Pow10(shift - Overflow(c, shift)) >= Pow10(17)
  {
    SmallPowers();
    hide Pow10, Digits;
    var n := shift - Overflow(c, shift);
    DigitsMul(c, n);
    DigitsAtMost(c * Pow10(n), 18);
    DigitsAtMost(c * Pow10(n), 17);
  }

  lemma ShiftedDownFits(c: uint64, k: nat)
    requires c <= MAX_COEFFICIENT
    ensures 0 <= c / Pow10(k) <= MAX_COEFFICIENT
    ensures k > 0 ==> c / Pow10(k) < Pow10(17)
  {
    SmallPowers();
    DivNonnegative(c, Pow10(k));
    DivisorLarger(c, 1, Pow10(k));
    if k > 0 {
      PowMonotone(1, k);
      DivisorLarger(c, 10, Pow10(k));
    }
  }

  /**
    Brings a nonzero operand down to the smaller exponent of the other, as far as
    eighteen digits allow; what does not fit is taken off the other operand.
    The result is (high coefficient, low coefficient, exponent).
  */
  function Lower(high: uint64, highExponent: int, low: uint64, lowExponent: int): (r: (uint64, uint64, int))
    requires InRange(high, highExponent) && InRange(low, lowExponent)
    requires highExponent > lowExponent && high > 0
    ensures InRange(r.0, r.2) && InRange(r.1, r.2)
  {
    var shift := highExponent - lowExponent;
    var overflow := Overflow(high, shift);
    ShiftedUpFits(high, shift);
    ShiftedDownFits(low, overflow);
    (high * Pow10(shift - overflow), low / Pow10(overflow), lowExponent + overflow)
  }

  function Aligned(lhs: uint64, lhsExponent: int, rhs: uint64, rhsExponent: int): (a: AlignedOperands)
    requires InRange(lhs, lhsExponent) && InRange(rhs, rhsExponent)
    ensures InRange(a.lhs, a.exponent) && InRange(a.rhs, a.exponent)
  {
    if lhsExponent > rhsExponent && lhs > 0 then
      var (h, l, e) := Lower(lhs, lhsExponent, rhs, rhsExponent);
      AlignedOperands(h, l, e)
    else if lhsExponent < rhsExponent && rhs > 0 then
      var (h, l, e) := Lower(rhs, rhsExponent, lhs, lhsExponent);
      AlignedOperands(l, h, e)
    else
      AlignedOperands(lhs, rhs, if lhsExponent < rhsExponent then lhsExponent else rhsExponent)
  }

  function AlignedDecimals(lhs: Decimal, rhs: Decimal): (a: AlignedOperands)
    requires lhs.IsFinite() && rhs.IsFinite()
    ensures InRange(a.lhs, a.exponent) && InRange(a.rhs, a.exponent)
  {
    Aligned(lhs.coefficient, lhs.exponent, rhs.coefficient, rhs.exponent)
  }

  /** One arm of alignOperands; the other is the same with the operands exchanged. */
  method LowerOperand(high: uint64, highExponent: int, low: uint64, lowExponent: int)
    returns (h: uint64, l: uint64, exponent: int)
    requires InRange(high, highExponent) && InRange(low, lowExponent)
    requires highExponent > lowExponent && high > 0
    ensures (h, l, exponent) == Lower(high, highExponent, low, lowExponent)
  {
    SmallPowers();
    hide Pow10, Digits;
    h, l, exponent := high, low, lowExponent;
    var numberOfDigits := CountDigits(high);
    var shift := highExponent - lowExponent;
    var overflow := numberOfDigits + shift - PRECISION;
    ShiftedUpFits(high, shift);
    if overflow <= 0 {
      DivUnique(low, 1, low, 0);
      h := ScaleUp(high, shift);
    } else {
      DigitsAtMost(high, 18);
      h := ScaleUp(high, shift - overflow);
      l := ScaleDown(low, overflow);
      exponent := exponent + overflow;
    }
  }

  method AlignOperands(lhs: Decimal, rhs: Decimal) returns (a: AlignedOperands)
    requires lhs.IsFinite() && rhs.IsFinite()
    ensures a == AlignedDecimals(lhs, rhs)
  {
    var exponent := if lhs.exponent < rhs.exponent then lhs.exponent else rhs.exponent;
    var lhsCoefficient: uint64, rhsCoefficient: uint64 := lhs.coefficient, rhs.coefficient;
    if lhs.exponent > rhs.exponent {
      if lhsCoefficient != 0 {
        lhsCoefficient, rhsCoefficient, exponent :=
          LowerOperand(lhsCoefficient, lhs.exponent, rhsCoefficient, rhs.exponent);
      }
    } else if lhs.exponent < rhs.exponent {
      if rhsCoefficient != 0 {
        rhsCoefficient, lhsCoefficient, exponent :=
          LowerOperand(rhsCoefficient, rhs.exponent, lhsCoefficient, lhs.exponent);
      }
    }
    a := AlignedOperands(lhsCoefficient, rhsCoefficient, exponent);
  }

  /** What is lost when c units of the aligned exponent stand for a magnitude. */
  ghost function Lost(d: Decimal, c: uint64, exponent: int): (r: int)
    requires d.IsFinite() && exponent >= EXPONENT_MIN
  {
    Magnitude(d) - c * Unit(exponent)
  }

  /** One side is exact; the other is short by less than a unit, and only if it is the far smaller one. */
  ghost predicate Faithful(exactLost: int, exact: uint64, otherLost: int, other: uint64, unit: nat) {
    && exactLost == 0
    && 0 <= otherLost < unit
    && (otherLost > 0 ==> other < 1_00000000000000000 <= exact)
  }

  lemma LowerIsFaithful(high: Decimal, low: Decimal)
    requires high.IsFinite() && low.IsFinite()
    requires high.exponent > low.exponent && high.coefficient > 0
    ensures var (h, l, e) := Lower(high.coefficient, high.exponent, low.coefficient, low.exponent);
            Faithful(Lost(high, h, e), h, Lost(low, l, e), l, Unit(e))
  {
    hide Pow10, Digits;
    var shift := high.exponent - low.exponent;
    var k := Overflow(high.coefficient, shift);
    var e := low.exponent + k;
    ShiftedUpFits(high.coefficient, shift);
    ShiftedDownFits(low.coefficient, k);
    UnitAdd(e, shift - k);
    MulAssoc(high.coefficient, Pow10(shift - k), Unit(e));
    UnitAdd(low.exponent, k);
    CutOff(low.coefficient, Pow10(k), Unit(low.exponent));
    assert Pow10(17) == 1_00000000000000000 by { SmallPowers(); }
  }

  /** The key fact about alignment: digits are lost on at most one side, and then the sides are far apart. */
  lemma AlignedIsFaithful(lhs: Decimal, rhs: Decimal)
    requires lhs.IsFinite() && rhs.IsFinite()
    ensures var a := AlignedDecimals(lhs, rhs);
            var l, r, u := Lost(lhs, a.lhs, a.exponent), Lost(rhs, a.rhs, a.exponent), Unit(a.exponent);
            Faithful(l, a.lhs, r, a.rhs, u) || Faithful(r, a.rhs, l, a.lhs, u)
  {
    if lhs.exponent > rhs.exponent && lhs.coefficient > 0 {
      LowerIsFaithful(lhs, rhs);
    } else if lhs.exponent < rhs.exponent && rhs.coefficient > 0 {
      LowerIsFaithful(rhs, lhs);
    } else {
      MagnitudeZero(lhs);
      MagnitudeZero(rhs);
    }
  }

  // ----- addition and subtraction

  /** The arguments of the Decimal constructor, before it normalises them. */
  datatype Unencoded = Unencoded(sign: Sign, exponent: int, coefficient: uint64)

  function EncodeParts(p: Unencoded): (d: Decimal) {
    Encode(p.sign, p.exponent, p.coefficient)
  }

  /** Reads a 64-bit difference or sum as signed and keeps its absolute value. */
  function Signed(sign: Sign, exponent: int, result: uint64): (p: Unencoded) {
    if AsInt64(result) >= 0 then Unencoded(sign, exponent, result)
    else Unencoded(Invert(sign), exponent, -AsInt64(result))
  }

  function FiniteSum(lhs: Decimal, rhs: Decimal): (p: Unencoded)
    requires lhs.IsFinite() && rhs.IsFinite()
  {
    var a := AlignedDecimals(lhs, rhs);
    var result := if lhs.sign == rhs.sign then Wrap(a.lhs + a.rhs) else Wrap(a.lhs - a.rhs);
    if lhs.sign == Negative && rhs.sign == Positive && result == 0 then Unencoded(Positive, a.exponent, 0)
    else Signed(lhs.sign, a.exponent, result)
  }

  function FiniteDifference(lhs: Decimal, rhs: Decimal): (p: Unencoded)
    requires lhs.IsFinite() && rhs.IsFinite()
  {
    var a := AlignedDecimals(lhs, rhs);
    var result := if lhs.sign == rhs.sign then Wrap(a.lhs - a.rhs) else Wrap(a.lhs + a.rhs);
    if lhs.sign == Negative && rhs.sign == Negative && result == 0 then Unencoded(Positive, a.exponent, 0)
    else Signed(lhs.sign, a.exponent, result)
  }

  function Sum(lhs: Decimal, rhs: Decimal): (r: Decimal) {
    match Handle(lhs, rhs)
    case BothInfinity => if lhs.sign == rhs.sign then lhs else NAN
    case EitherNaN => NaNOperand(lhs, rhs)
    case LHSIsInfinity => lhs
    case RHSIsInfinity => rhs
    case BothFinite => EncodeParts(FiniteSum(lhs, rhs))
  }

  function Difference(lhs: Decimal, rhs: Decimal): (r: Decimal) {
    match Handle(lhs, rhs)
    case BothInfinity => if lhs.sign == rhs.sign then NAN else lhs
    case EitherNaN => NaNOperand(lhs, rhs)
    case LHSIsInfinity => lhs
    case RHSIsInfinity => Infinity(Invert(rhs.sign))
    case BothFinite => EncodeParts(FiniteDifference(lhs, rhs))
  }

  method Add(lhs: Decimal, rhs: Decimal) returns (r: Decimal)
    ensures r == Sum(lhs, rhs)
  {
    match Handle(lhs, rhs) {
      case BothInfinity => return if lhs.sign == rhs.sign then lhs else NAN;
      case EitherNaN => return NaNOperand(lhs, rhs);
      case LHSIsInfinity => return lhs;
      case RHSIsInfinity => return rhs;
      case BothFinite =>
    }
    var a := AlignOperands(lhs, rhs);
    var result: uint64 := if lhs.sign == rhs.sign then Wrap(a.lhs + a.rhs) else Wrap(a.lhs - a.rhs);
    var p := Signed(lhs.sign, a.exponent, result);
    if lhs.sign == Negative && rhs.sign == Positive && result == 0 {
      p := Unencoded(Positive, a.exponent, 0);
    }
    assert p == FiniteSum(lhs, rhs);
    r := Construct(p.sign, p.exponent, p.coefficient);
  }

  method Subtract(lhs: Decimal, rhs: Decimal) returns (r: Decimal)
    ensures r == Difference(lhs, rhs)
  {
    match Handle(lhs, rhs) {
      case BothInfinity => return if lhs.sign == rhs.sign then NAN else lhs;
      case EitherNaN => return NaNOperand(lhs, rhs);
      case LHSIsInfinity => return lhs;
      case RHSIsInfinity => return Infinity(Invert(rhs.sign));
      case BothFinite =>
    }
    var a := AlignOperands(lhs, rhs);
    var result: uint64 := if lhs.sign == rhs.sign then Wrap(a.lhs - a.rhs) else Wrap(a.lhs + a.rhs);
    var p := Signed(lhs.sign, a.exponent, result);
    if lhs.sign == Negative && rhs.sign == Negative && result == 0 {
      p := Unencoded(Positive, a.exponent, 0);
    }
    assert p == FiniteDifference(lhs, rhs);
    r := Construct(p.sign, p.exponent, p.coefficient);
  }

  /** Subtracting is adding the negation, encoding for encoding, special values included. */
  lemma SubtractionIsNegatedAddition(lhs: Decimal, rhs: Decimal)
    ensures Difference(lhs, rhs) == Sum(lhs, Negate(rhs))
  {
    if lhs.IsFinite() && rhs.IsFinite() {
      assert AlignedDecimals(lhs, rhs) == AlignedDecimals(lhs, Negate(rhs));
      assert FiniteDifference(lhs, rhs) == FiniteSum(lhs, Negate(rhs));
    }
  }

  /** The signed total of the aligned coefficients. */
  ghost function Total(lhs: Decimal, rhs: Decimal): (t: int)
    requires lhs.IsFinite() && rhs.IsFinite()
    ensures -2 * MAX_COEFFICIENT <= t <= 2 * MAX_COEFFICIENT
  {
    var a := AlignedDecimals(lhs, rhs);
    Apply(lhs.sign, a.lhs) + Apply(rhs.sign, a.rhs)
  }

  ghost function Abs(x: int): (r: nat) { if x < 0 then -x else x }

  ghost function TotalSign(t: int, lhs: Sign, rhs: Sign): (s: Sign) {
    if t > 0 then Positive else if t < 0 then Negative else if lhs == rhs then lhs else Positive
  }

  /** What the wrapping machine arithmetic computes: the true signed total. */
  lemma SumEncodesTotal(lhs: Decimal, rhs: Decimal)
    requires lhs.IsFinite() && rhs.IsFinite()
    ensures var t := Total(lhs, rhs);
            FiniteSum(lhs, rhs)
            == Unencoded(TotalSign(t, lhs.sign, rhs.sign), AlignedDecimals(lhs, rhs).exponent, Abs(t))
  {
    var a := AlignedDecimals(lhs, rhs);
    WrappedDifference(a.lhs, a.rhs);
  }

  lemma AlignedSwaps(lhs: uint64, lhsExponent: int, rhs: uint64, rhsExponent: int)
    requires InRange(lhs, lhsExponent) && InRange(rhs, rhsExponent)
    ensures var a, b := Aligned(lhs, lhsExponent, rhs, rhsExponent), Aligned(rhs, rhsExponent, lhs, lhsExponent);
            a.lhs == b.rhs && a.rhs == b.lhs && a.exponent == b.exponent
  {
  }

  lemma SumCommutes(lhs: Decimal, rhs: Decimal)
    ensures Sum(lhs, rhs) == Sum(rhs, lhs)
  {
    if lhs.IsFinite() && rhs.IsFinite() {
      AlignedSwaps(lhs.coefficient, lhs.exponent, rhs.coefficient, rhs.exponent);
      SumEncodesTotal(lhs, rhs);
      SumEncodesTotal(rhs, lhs);
      assert FiniteSum(lhs, rhs) == FiniteSum(rhs, lhs);
    }
  }

  lemma ApplyTimes(sign: Sign, m: int, u: int)
    ensures Apply(sign, m) * u == Apply(sign, m * u)
  {
  }

  /** The arithmetic behind TotalError, on plain integers: l and r units, with x and y lost. */
  lemma TotalErrorArithmetic(ls: Sign, l: uint64, x: int, rs: Sign, r: uint64, y: int, u: nat)
    requires u > 0
    requires Faithful(x, l, y, r, u) || Faithful(y, r, x, l, u)
    ensures var t := Apply(ls, l) + Apply(rs, r);
            var s := Apply(ls, l * u + x) + Apply(rs, r * u + y);
            && 0 - u < s - t * u < u
            && (x == y == 0 ==> s == t * u)
            && (ls == rs ==> 0 <= Apply(ls, s - t * u))
            && (t == 0 <==> s == 0) && (t > 0 <==> s > 0)
  {
    var t := Apply(ls, l) + Apply(rs, r);
    var d := Apply(ls, x) + Apply(rs, y);
    ApplyTimes(ls, l, u);
    ApplyTimes(rs, r, u);
    Distribute(Apply(ls, l), Apply(rs, r), u);
    LeadingTotal(t, d, u);
  }

  lemma Distribute(x: int, y: int, u: int)
    ensures (x + y) * u == x * u + y * u
  {
  }

  lemma LeadingTotal(t: int, d: int, u: nat)
    requires 0 - u < d < u && (t == 0 ==> d == 0)
    ensures t * u + d == 0 <==> t == 0
    ensures t * u + d > 0 <==> t > 0
  {
    if t > 0 {
      MulLe(1, t, u);
    } else if t < 0 {
      MulLe(t, -1, u);
    }
  }

  /** The exact sum is within a unit of the aligned total and has its sign. */
  lemma TotalError(lhs: Decimal, rhs: Decimal)
    requires lhs.IsFinite() && rhs.IsFinite()
    ensures var a := AlignedDecimals(lhs, rhs);
            var u, t, s := Unit(a.exponent), Total(lhs, rhs), Value(lhs) + Value(rhs);
            && 0 - u < s - t * u < u
            && (Lost(lhs, a.lhs, a.exponent) == 0 == Lost(rhs, a.rhs, a.exponent) ==> s == t * u)
            && (lhs.sign == rhs.sign ==> 0 <= Apply(lhs.sign, s - t * u))
            && (t == 0 <==> s == 0) && (t > 0 <==> s > 0)
  {
    AlignedIsFaithful(lhs, rhs);
    var a := AlignedDecimals(lhs, rhs);
    TotalErrorArithmetic(lhs.sign, a.lhs, Lost(lhs, a.lhs, a.exponent),
                         rhs.sign, a.rhs, Lost(rhs, a.rhs, a.exponent), Unit(a.exponent));
  }

  lemma OneDigitOver(t: nat)
    requires t <= 2 * MAX_COEFFICIENT
    ensures Excess(t) == (if t > MAX_COEFFICIENT then 1 else 0)
  {
    SmallPowers();
    DigitsAtMost(t, 18);
    DigitsAtMost(t, 19);
  }

  /**
    The error of addition. The sum overflows to infinity exactly when it needs a
    nineteenth digit at the largest exponent; otherwise it is off by less than one
    unit in the last place, and not at all when alignment and encoding drop nothing.
  */
  lemma SumError(lhs: Decimal, rhs: Decimal)
    requires lhs.IsFinite() && rhs.IsFinite()
    ensures var r, a, s := Sum(lhs, rhs), AlignedDecimals(lhs, rhs), Value(lhs) + Value(rhs);
            var fits := Abs(Total(lhs, rhs)) <= MAX_COEFFICIENT;
            && !r.IsNaN()
            && (r.IsInfinity() <==> a.exponent == EXPONENT_MAX && !fits)
            && (r.IsFinite() ==> Abs(Value(r) - s) < Unit(r.exponent))
            && (fits && Lost(lhs, a.lhs, a.exponent) == 0 == Lost(rhs, a.rhs, a.exponent) ==>
                  r.IsFinite() && Value(r) == s)
  {
    var r, a, t := Sum(lhs, rhs), AlignedDecimals(lhs, rhs), Total(lhs, rhs);
    SumEncodesTotal(lhs, rhs);
    TotalError(lhs, rhs);
    EncodeError(TotalSign(t, lhs.sign, rhs.sign), a.exponent, Abs(t));
    OneDigitOver(Abs(t));
    if r.IsFinite() {
      SumErrorArithmetic(lhs.sign, rhs.sign, t, Unit(a.exponent), Value(lhs) + Value(rhs),
                         r.sign, Magnitude(r), Unit(r.exponent));
    }
  }

  lemma SumErrorArithmetic(ls: Sign, rs: Sign, t: int, u: nat, s: int, sign: Sign, m: nat, unit: nat)
    requires 0 < u <= unit
    requires 0 - u < s - t * u < u
    requires ls == rs ==> 0 <= Apply(ls, s - t * u)
    requires m <= Abs(t) * u && Abs(t) * u - m <= unit - u
    requires ls != rs ==> m == Abs(t) * u
    requires sign == TotalSign(t, ls, rs)
    requires ls == rs ==> t == 0 || sign == ls
    ensures Abs(Apply(sign, m) - s) < unit
    ensures m == Abs(t) * u && s == t * u ==> Apply(sign, m) == s
  {
    assert (-t) * u == -(t * u);
  }
}

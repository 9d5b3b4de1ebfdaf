/** Division: digit by digit until exact or seventeen digits are reached, then rounded to nearest. */
module DecimalQuotient {
  import opened PowersOfTen
  import opened DecimalPrimitives
  import opened DecimalNumber
  import opened DecimalAddition
  import opened DecimalProduct

  /** One less than 10^17: a partial quotient below this takes another digit. */
  const ENOUGH: int := 99_999_999_999_999_999

  /** The numerator m has digits enough when the division is exact or the quotient long. */
  predicate Enough(m: int, d: uint64)
    requires d > 0
  {
    m % d == 0 || m / d >= ENOUGH
  }

  /** The least number of extra digits that is enough, searched from k on. */
  function Scale(n: uint64, d: uint64, k: nat): (r: nat)
    requires n > 0 && d > 0
    ensures r >= k && Enough(n * Pow10(r), d)
    ensures forall j :: k <= j < r ==> !Enough(n * Pow10(j), d)
    decreases d * (ENOUGH + 1) - n * Pow10(k)
  {
    if Enough(n * Pow10(k), d) then k
    else
      ScaleBound(n, d, k);
      Scale(n, d, k + 1)
  }

  lemma ScaleBound(n: uint64, d: uint64, k: nat)
    requires n > 0 && d > 0 && !Enough(n * Pow10(k), d)
    ensures n * Pow10(k) < d * (ENOUGH + 1)
    ensures n * Pow10(k) < n * Pow10(k + 1)
  {
    var m := n * Pow10(k);
    MulLe(m / d + 1, ENOUGH, d);
    assert m == (m / d) * d + m % d;
    MulLe(1, n, Pow10(k));
    assert n * Pow10(k + 1) == 10 * m;
  }

  /** m / d to the nearest integer, an exact half going down. */
  function Rounded(m: int, d: uint64): (q: int)
    requires d > 0
  {
    m / d + if 2 * (m % d) > d then 1 else 0
  }

  /** The invariant of the division loop. */
  ghost predicate Partial(n: uint64, d: uint64, k: nat, result: int, remainder: int) {
    n * Pow10(k) == result * d + remainder
  }

  lemma PartialTimesTen(n: uint64, d: uint64, k: nat, result: int, remainder: int)
    requires Partial(n, d, k, result, remainder)
    ensures Partial(n, d, k + 1, 10 * result, 10 * remainder)
  {
    assert n * Pow10(k + 1) == 10 * (n * Pow10(k));
    assert 10 * (result * d) == (10 * result) * d;
  }

  lemma PartialTakesQuotient(n: uint64, d: uint64, k: nat, result: int, remainder: int)
    requires d > 0 && remainder >= 0 && Partial(n, d, k, result, remainder)
    ensures Partial(n, d, k, result + remainder / d, remainder % d)
    ensures remainder / d >= 0
  {
    assert remainder == (remainder / d) * d + remainder % d;
    assert (result + remainder / d) * d == result * d + (remainder / d) * d;
    DivNonnegative(remainder, d);
  }

  lemma PartialIsDivision(n: uint64, d: uint64, k: nat, result: int, remainder: int)
    requires n > 0 && 0 <= remainder < d && Partial(n, d, k, result, remainder)
    ensures (n * Pow10(k)) / d == result && (n * Pow10(k)) % d == remainder
  {
    DivUnique(n * Pow10(k), d, result, remainder);
  }

  lemma FirstQuotientFits(n: uint64, d: uint64)
    requires 0 < n <= MAX_COEFFICIENT && d > 0
    ensures n / d <= MAX_COEFFICIENT
    ensures n % d > 0 ==> n / d < MAX_COEFFICIENT
    ensures n >= d ==> n / d >= 1
  {
    DivisorLarger(n, 1, d);
    if d >= 2 {
      DivisorLarger(n, 2, d);
    }
    QuotientBelow(n, d, 1);
  }

  lemma NextDigit(remainder: int, d: uint64)
    requires 0 < d <= remainder < 10 * d
    ensures 1 <= remainder / d <= 9
  {
    QuotientBelow(remainder, d, 1);
    QuotientBelow(remainder, d, 10);
  }

  /**
    The nested loops of operator/, on the coefficients. The result never
    leaves eighteen digits, so the guard against that is never taken.
  */
  method DivideCoefficients(n: uint64, d: uint64) returns (result: uint64, shift: nat)
    requires 0 < n <= MAX_COEFFICIENT && 0 < d <= MAX_COEFFICIENT
    ensures shift == Scale(n, d, 0) && result == Rounded(n * Pow10(shift), d)
    ensures result <= MAX_COEFFICIENT
  {
    var remainder: uint64 := n;
    result, shift := 0, 0;
    assert Partial(n, d, 0, 0, n);
    hide Pow10, Scale;
    while true
      invariant remainder > 0 && Partial(n, d, shift, result, remainder)
      invariant Scale(n, d, 0) == Scale(n, d, shift)
      invariant (shift == 0 && result == 0 && remainder == n) || (remainder < d && 0 < result < MAX_COEFFICIENT)
      decreases MAX_COEFFICIENT - result
    {
      ghost var was := result;
      while remainder < d && result < MAX_COEFFICIENT / 10
        invariant 0 < remainder && Partial(n, d, shift, result, remainder)
        invariant Scale(n, d, 0) == Scale(n, d, shift)
        invariant was <= result < MAX_COEFFICIENT
        invariant (shift == 0 && result == 0 && remainder == n) || remainder < d
               || (remainder < 10 * d && result <= 10 * (ENOUGH - 1))
        decreases d - remainder
      {
        PartialIsDivision(n, d, shift, result, remainder);
        PartialTimesTen(n, d, shift, result, remainder);
        remainder := remainder * 10;
        result := result * 10;
        shift := shift + 1;
      }
      if remainder < d {
        PartialIsDivision(n, d, shift, result, remainder);
        break;
      }
      PartialTakesQuotient(n, d, shift, result, remainder);
      if shift == 0 && result == 0 && remainder == n {
        FirstQuotientFits(n, d);
      } else {
        NextDigit(remainder, d);
      }
      var quotient: uint64 := remainder / d;
      if result > MAX_COEFFICIENT - quotient {
        assert false;
        break;
      }
      result := result + quotient;
      remainder := remainder % d;
      if remainder == 0 {
        PartialIsDivision(n, d, shift, result, remainder);
        break;
      }
    }
    if remainder > d / 2 {
      result := result + 1;
    }
  }

  function FiniteQuotient(lhs: Decimal, rhs: Decimal): (p: Unencoded)
    requires lhs.IsFinite() && rhs.IsFinite() && !lhs.IsZero() && !rhs.IsZero()
  {
    var k := Scale(lhs.coefficient, rhs.coefficient, 0);
    RoundedFits(lhs.coefficient, rhs.coefficient);
    Unencoded(ProductSign(lhs.sign, rhs.sign), lhs.exponent - rhs.exponent - k,
              Rounded(lhs.coefficient * Pow10(k), rhs.coefficient))
  }

  function Quotient(lhs: Decimal, rhs: Decimal): (r: Decimal) {
    var sign := ProductSign(lhs.sign, rhs.sign);
    match Handle(lhs, rhs)
    case BothInfinity => NAN
    case EitherNaN => NaNOperand(lhs, rhs)
    case LHSIsInfinity => Infinity(sign)
    case RHSIsInfinity => Zero(sign)
    case BothFinite =>
      if rhs.IsZero() then if lhs.IsZero() then NAN else Infinity(sign)
      else if lhs.IsZero() then Encode(sign, lhs.exponent - rhs.exponent, 0)
      else EncodeParts(FiniteQuotient(lhs, rhs))
  }

  method Divide(lhs: Decimal, rhs: Decimal) returns (r: Decimal)
    ensures r == Quotient(lhs, rhs)
  {
    var resultSign := ProductSign(lhs.sign, rhs.sign);
    match Handle(lhs, rhs) {
      case BothInfinity => return NAN;
      case EitherNaN => return NaNOperand(lhs, rhs);
      case LHSIsInfinity => return Infinity(resultSign);
      case RHSIsInfinity => return Zero(resultSign);
      case BothFinite =>
    }
    if rhs.IsZero() {
      return if lhs.IsZero() then NAN else Infinity(resultSign);
    }
    var resultExponent := lhs.exponent - rhs.exponent;
    if lhs.IsZero() {
      r := Construct(resultSign, resultExponent, 0);
      return;
    }
    var result, shift := DivideCoefficients(lhs.coefficient, rhs.coefficient);
    r := Construct(resultSign, resultExponent - shift, result);
  }

  /** Stopping at the least sufficient scale keeps the rounded quotient within eighteen digits. */
  lemma RoundedFits(n: uint64, d: uint64)
    requires 0 < n <= MAX_COEFFICIENT && 0 < d <= MAX_COEFFICIENT
    ensures 0 < Rounded(n * Pow10(Scale(n, d, 0)), d) <= MAX_COEFFICIENT
  {
    var k := Scale(n, d, 0);
    var m := n * Pow10(k);
    MulLe(1, n, Pow10(k));
    if k == 0 {
      FirstQuotientFits(n, d);
    } else {
      assert !Enough(n * Pow10(k - 1), d);
      var m' := n * Pow10(k - 1);
      MulLe(1, n, Pow10(k - 1));
      assert m == 10 * m';
      QuotientBelow(m', d, ENOUGH);
      assert 10 * (ENOUGH * d) == (10 * ENOUGH) * d;
      QuotientBelow(m, d, 10 * ENOUGH);
    }
    if m < d {
      DivUnique(m, d, 0, m);
    } else {
      QuotientBelow(m, d, 1);
    }
  }

  /**
    Division is correctly rounded. With k the least number of extra digits that
    makes n * 10^k / d exact or at least 10^17 - 1, the coefficient q of a normal
    quotient is the integer nearest to n * 10^k / d, halves going toward zero.
  */
  lemma QuotientIsCorrectlyRounded(lhs: Decimal, rhs: Decimal)
    requires lhs.IsFinite() && rhs.IsFinite() && !lhs.IsZero() && !rhs.IsZero()
    ensures var r, n, d := Quotient(lhs, rhs), lhs.coefficient, rhs.coefficient;
            var k := Scale(n, d, 0);
            var e, m := lhs.exponent - rhs.exponent - k, n * Pow10(k);
            && r.sign == ProductSign(lhs.sign, rhs.sign)
            && (r.IsInfinity() <==> e > EXPONENT_MAX)
            && (r.IsZero() <==> e < EXPONENT_MIN)
            && (r.formatClass == ClassNormal ==>
                  && r.exponent == e
                  && Abs(2 * (r.coefficient * d - m)) <= d
                  && 2 * (r.coefficient * d - m) != d
                  && (r.coefficient * d == m || r.coefficient >= ENOUGH))
  {
    var n, d := lhs.coefficient, rhs.coefficient;
    var k := Scale(n, d, 0);
    RoundedFits(n, d);
    var q := Rounded(n * Pow10(k), d);
    ExcessIsLeast(q);
    RoundedQuotientIsNearest(n * Pow10(k), d);
    DivUnique(q, 1, q, 0);
  }

  lemma RoundedQuotientIsNearest(m: int, d: uint64)
    requires d > 0 && Enough(m, d)
    ensures var q := Rounded(m, d);
            && Abs(2 * (q * d - m)) <= d
            && 2 * (q * d - m) != d
            && (q * d == m || q >= ENOUGH)
  {
    assert m == (m / d) * d + m % d;
    Nearest(m, d, m / d, m % d);
  }

  lemma Nearest(m: int, d: int, f: int, r: int)
    requires m == f * d + r && 0 <= r < d
    ensures var q := f + if 2 * r > d then 1 else 0;
            && Abs(2 * (q * d - m)) <= d
            && 2 * (q * d - m) != d
            && (r == 0 ==> q * d == m)
  {
    assert (f + 1) * d == f * d + d;
  }

  /** Dividing an exact product by one factor gives back the other, encoding for encoding. */
  lemma DivisionUndoesMultiplication(a: Decimal, b: Decimal)
    requires a.formatClass == ClassNormal && b.formatClass == ClassNormal
    requires a.coefficient * b.coefficient <= MAX_COEFFICIENT
    requires EXPONENT_MIN <= a.exponent + b.exponent <= EXPONENT_MAX
    ensures Quotient(Product(a, b), b) == a
  {
    var x, y := a.coefficient, b.coefficient;
    MulLe(1, x, y);
    var p := Product(a, b);
    ProductIsTruncated(a, b);
    ExcessIsLeast(x * y);
    assert p.coefficient == x * y && p.exponent == a.exponent + b.exponent by {
      DivUnique(x * y, 1, x * y, 0);
    }
    DivMul(x, y);
    assert (x * y) * Pow10(0) == x * y;
    assert Enough(x * y, y);
    ExcessIsLeast(x);
    DivUnique(x, 1, x, 0);
    assert Scale(x * y, y, 0) == 0;
    assert FiniteQuotient(p, b) == Unencoded(a.sign, a.exponent, x);
  }
}

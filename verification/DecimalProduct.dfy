/** Multiplication through a 128-bit product that is cut down to eighteen digits. */
module DecimalProduct {
  import opened PowersOfTen
  import opened DecimalPrimitives
  import opened WideIntegers
  import opened DecimalNumber
  import opened DecimalAddition

  function ProductSign(lhs: Sign, rhs: Sign): (s: Sign) {
    if lhs == rhs then Positive else Negative
  }

  /** How many low digits go before the product fits in 64 bits. */
  function Cut(product: nat): (k: nat) {
    if product < TWO_64 then 0 else 1 + Cut(product / 10)
  }

  lemma {:induction false} CutIsLeast(p: nat)
    ensures p / Pow10(Cut(p)) < TWO_64
    ensures Cut(p) > 0 ==> p / Pow10(Cut(p) - 1) >= TWO_64
    ensures 0 <= p / Pow10(Cut(p))
  {
    DivNonnegative(p, Pow10(Cut(p)));
    if p >= TWO_64 {
      CutIsLeast(p / 10);
      DivPow(p, Cut(p));
      if Cut(p) > 1 {
        DivPow(p, Cut(p) - 1);
      }
    }
  }

  function FiniteProduct(lhs: Decimal, rhs: Decimal): (p: Unencoded)
    requires lhs.IsFinite() && rhs.IsFinite()
  {
    var product := lhs.coefficient * rhs.coefficient;
    MulLe(0, lhs.coefficient, rhs.coefficient);
    CutIsLeast(product);
    Unencoded(ProductSign(lhs.sign, rhs.sign), lhs.exponent + rhs.exponent + Cut(product),
              product / Pow10(Cut(product)))
  }

  function Product(lhs: Decimal, rhs: Decimal): (r: Decimal) {
    var sign := ProductSign(lhs.sign, rhs.sign);
    match Handle(lhs, rhs)
    case BothFinite => EncodeParts(FiniteProduct(lhs, rhs))
    case BothInfinity => Infinity(sign)
    case EitherNaN => NaNOperand(lhs, rhs)
    case LHSIsInfinity => if rhs.IsZero() then NAN else Infinity(sign)
    case RHSIsInfinity => if lhs.IsZero() then NAN else Infinity(sign)
  }

  ghost predicate CutBy(product: nat, k: nat, value: nat) {
    value == product / Pow10(k) && Cut(product) == k + Cut(value)
  }

  lemma CutOneMore(product: nat, k: nat, value: nat)
    requires CutBy(product, k, value) && value >= TWO_64
    ensures CutBy(product, k + 1, value / 10)
  {
    DivDiv(product, Pow10(k), 10);
    assert Pow10(k + 1) == Pow10(k) * 10;
  }

  /** The 128-bit product of two coefficients, divided by ten until its high word is empty. */
  method CutProduct(lhs: uint64, rhs: uint64) returns (low: uint64, k: nat)
    ensures k == Cut(lhs * rhs) && low == (lhs * rhs) / Pow10(k)
  {
    var work := UInt128.Multiply(lhs, rhs);
    ghost var product := work.Value();
    k := 0;
    while work.high != 0
      invariant fresh(work)
      invariant CutBy(product, k, work.Value())
      decreases work.Value()
    {
      CutOneMore(product, k, work.Value());
      work.DivideBy(10);
      k := k + 1;
    }
    low := work.low;
  }

  method Multiply(lhs: Decimal, rhs: Decimal) returns (r: Decimal)
    ensures r == Product(lhs, rhs)
  {
    var resultSign := ProductSign(lhs.sign, rhs.sign);
    match Handle(lhs, rhs) {
      case BothFinite =>
        var low, k := CutProduct(lhs.coefficient, rhs.coefficient);
        var p := Unencoded(resultSign, lhs.exponent + rhs.exponent + k, low);
        assert p == FiniteProduct(lhs, rhs);
        r := Construct(p.sign, p.exponent, p.coefficient);
      case BothInfinity => return Infinity(resultSign);
      case EitherNaN => return NaNOperand(lhs, rhs);
      case LHSIsInfinity => return if rhs.IsZero() then NAN else Infinity(resultSign);
      case RHSIsInfinity => return if lhs.IsZero() then NAN else Infinity(resultSign);
    }
  }

  lemma ProductCommutes(lhs: Decimal, rhs: Decimal)
    ensures Product(lhs, rhs) == Product(rhs, lhs)
  {
    if lhs.IsFinite() && rhs.IsFinite() {
      assert lhs.coefficient * rhs.coefficient == rhs.coefficient * lhs.coefficient;
      assert FiniteProduct(lhs, rhs) == FiniteProduct(rhs, lhs);
    }
  }

  /** All digits dropped from a product: first to reach 64 bits, then to reach eighteen digits. */
  function Dropped(product: nat): (k: nat) {
    CutIsLeast(product);
    Cut(product) + Excess(product / Pow10(Cut(product)))
  }

  /** Two stages of cutting drop the fewest digits that leave at most MAX_COEFFICIENT. */
  lemma DroppedIsLeast(p: nat)
    ensures p / Pow10(Dropped(p)) <= MAX_COEFFICIENT
    ensures Dropped(p) > 0 ==> p / Pow10(Dropped(p) - 1) > MAX_COEFFICIENT
  {
    CutIsLeast(p);
    var a := Cut(p);
    var c := p / Pow10(a);
    var b := Excess(c);
    ExcessIsLeast(c);
    DivDiv(p, Pow10(a), Pow10(b));
    PowAdd(a, b);
    if b > 0 {
      DivDiv(p, Pow10(a), Pow10(b - 1));
      PowAdd(a, b - 1);
      assert a + b - 1 == a + (b - 1);
    }
  }

  /**
    A normal product is the exact product of the coefficients cut off after the
    fewest digits, k, that make it fit, at the exponent that k calls for. The other
    outcomes depend on the exponent after the first stage of cutting, even for zero.
  */
  lemma ProductIsTruncated(lhs: Decimal, rhs: Decimal)
    requires lhs.IsFinite() && rhs.IsFinite()
    ensures var r, p := Product(lhs, rhs), lhs.coefficient * rhs.coefficient;
            var e := lhs.exponent + rhs.exponent;
            && p >= 0
            && r.sign == ProductSign(lhs.sign, rhs.sign)
            && (r.IsInfinity() <==>
                  e + Cut(p) > EXPONENT_MAX || (e + Cut(p) >= EXPONENT_MIN && e + Dropped(p) > EXPONENT_MAX))
            && (r.IsZero() <==> e + Cut(p) < EXPONENT_MIN || (p == 0 && e <= EXPONENT_MAX))
            && (r.formatClass == ClassNormal ==> r.coefficient == p / Pow10(Dropped(p)) && r.exponent == e + Dropped(p))
  {
    hide Pow10, Excess;
    var p := lhs.coefficient * rhs.coefficient;
    MulLe(0, lhs.coefficient, rhs.coefficient);
    CutIsLeast(p);
    var c := p / Pow10(Cut(p));
    ExcessIsLeast(c);
    DivDiv(p, Pow10(Cut(p)), Pow10(Excess(c)));
    PowAdd(Cut(p), Excess(c));
    CutNonzero(p);
    assert FiniteProduct(lhs, rhs).coefficient == c;
  }

  lemma CutNonzero(p: nat)
    ensures p / Pow10(Cut(p)) == 0 <==> p == 0
  {
    if p >= TWO_64 {
      CutIsLeast(p);
      DivDiv(p, Pow10(Cut(p) - 1), 10);
      assert Pow10(Cut(p)) == Pow10(Cut(p) - 1) * 10;
    }
  }

  /** A product of zero is zero exactly when the exponents do not add up past the largest; otherwise it is infinity. */
  lemma ZeroProduct(lhs: Decimal, rhs: Decimal)
    requires lhs.IsZero() && rhs.IsFinite()
    ensures Product(lhs, rhs).IsZero() <==> lhs.exponent + rhs.exponent <= EXPONENT_MAX
    ensures Product(lhs, rhs).IsInfinity() <==> lhs.exponent + rhs.exponent > EXPONENT_MAX
  {
    ProductIsTruncated(lhs, rhs);
    assert lhs.coefficient * rhs.coefficient == 0;
  }

  lemma ZeroTimesFiniteCanBeInfinite()
    ensures var zero: Decimal, two: Decimal := EncodedData(Positive, ClassZero, 1000, 0),
                                               EncodedData(Positive, ClassNormal, 24, 2);
            Product(zero, two) == Infinity(Positive)
  {
    var zero: Decimal, two: Decimal := EncodedData(Positive, ClassZero, 1000, 0),
                                       EncodedData(Positive, ClassNormal, 24, 2);
    ZeroProduct(zero, two);
    ProductIsTruncated(zero, two);
  }
}

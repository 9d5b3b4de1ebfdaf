/** The operators on values that are not finite, and on zeros. */
module DecimalSpecials {
  import opened DecimalNumber
  import opened DecimalAddition
  import opened DecimalProduct
  import opened DecimalQuotient

  lemma EncodedIsNumber(p: Unencoded)
    ensures !EncodeParts(p).IsNaN()
  {
  }

  /** A sum is not a number when an operand is not, or when opposite infinities meet; otherwise infinity absorbs. */
  lemma SpecialSum(a: Decimal, b: Decimal)
    ensures Sum(a, b).IsNaN() <==> a.IsNaN() || b.IsNaN() || (a.IsInfinity() && b.IsInfinity() && a.sign != b.sign)
    ensures !Sum(a, b).IsNaN() && a.IsInfinity() ==> Sum(a, b) == a
    ensures !Sum(a, b).IsNaN() && b.IsInfinity() ==> Sum(a, b) == b
  {
    hide EncodeParts;
    if a.IsFinite() && b.IsFinite() {
      EncodedIsNumber(FiniteSum(a, b));
    }
  }

  /** A product is not a number when an operand is not, or when infinity meets zero. */
  lemma SpecialProduct(a: Decimal, b: Decimal)
    ensures Product(a, b).IsNaN() <==>
              a.IsNaN() || b.IsNaN() || (a.IsInfinity() && b.IsZero()) || (a.IsZero() && b.IsInfinity())
    ensures !Product(a, b).IsNaN() && (a.IsInfinity() || b.IsInfinity()) ==>
              Product(a, b) == Infinity(ProductSign(a.sign, b.sign))
  {
    hide EncodeParts;
    if a.IsFinite() && b.IsFinite() {
      EncodedIsNumber(FiniteProduct(a, b));
    }
  }

  /**
    A quotient is not a number when an operand is not, for two infinities and for two zeros. A zero divided
    by a number becomes infinity when the exponents are too far apart, as encoding makes of every value.
  */
  lemma SpecialQuotient(a: Decimal, b: Decimal)
    ensures Quotient(a, b).IsNaN() <==>
              a.IsNaN() || b.IsNaN() || (a.IsInfinity() && b.IsInfinity()) || (a.IsZero() && b.IsZero())
    ensures a.IsInfinity() && b.IsFinite() ==> Quotient(a, b) == Infinity(ProductSign(a.sign, b.sign))
    ensures a.IsFinite() && b.IsInfinity() ==> Quotient(a, b) == Zero(ProductSign(a.sign, b.sign))
    ensures a.IsFinite() && !a.IsZero() && b.IsZero() ==> Quotient(a, b) == Infinity(ProductSign(a.sign, b.sign))
    ensures a.IsZero() && b.IsFinite() && !b.IsZero() ==>
              if a.exponent - b.exponent > EXPONENT_MAX then Quotient(a, b) == Infinity(ProductSign(a.sign, b.sign))
              else Quotient(a, b).IsZero() && Quotient(a, b).sign == ProductSign(a.sign, b.sign)
  {
    hide EncodeParts;
    ExcessIsLeast(0);
    if a.IsFinite() && b.IsFinite() && !a.IsZero() && !b.IsZero() {
      EncodedIsNumber(FiniteQuotient(a, b));
    }
  }
}

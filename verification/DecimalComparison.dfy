/**
  Comparison by subtraction. The subtraction may drop digits, yet the order it
  induces is exactly the order of the values.
*/
module DecimalComparison {
  import opened DecimalPrimitives
  import opened DecimalNumber
  import opened DecimalAddition

  function CompareTo(lhs: Decimal, rhs: Decimal): (r: Decimal) {
    var result := Difference(lhs, rhs);
    match result.formatClass
    case ClassInfinity => if result.IsNegative() then Encode(Negative, 0, 1) else Encode(Positive, 0, 1)
    case ClassNaN => result
    case ClassNormal => result
    case ClassZero => Zero(Positive)
  }

  predicate Equal(lhs: Decimal, rhs: Decimal) {
    lhs == rhs || CompareTo(lhs, rhs).IsZero()
  }

  predicate NotEqual(lhs: Decimal, rhs: Decimal) {
    lhs != rhs && var result := CompareTo(lhs, rhs); !result.IsNaN() && !result.IsZero()
  }

  predicate Less(lhs: Decimal, rhs: Decimal) {
    var result := CompareTo(lhs, rhs);
    !result.IsNaN() && !result.IsZero() && result.IsNegative()
  }

  predicate LessOrEqual(lhs: Decimal, rhs: Decimal) {
    lhs == rhs || var result := CompareTo(lhs, rhs); !result.IsNaN() && (result.IsZero() || result.IsNegative())
  }

  predicate Greater(lhs: Decimal, rhs: Decimal) {
    var result := CompareTo(lhs, rhs);
    !result.IsNaN() && !result.IsZero() && result.IsPositive()
  }

  predicate GreaterOrEqual(lhs: Decimal, rhs: Decimal) {
    lhs == rhs || var result := CompareTo(lhs, rhs); !result.IsNaN() && (result.IsZero() || !result.IsNegative())
  }

  /** Three-way outcome of a comparison: -1, 0 or 1. */
  ghost function Outcome(r: Decimal): (o: int) {
    if r.IsZero() then 0 else if r.IsNegative() then -1 else 1
  }

  ghost function SignOf(x: int): (o: int) {
    if x == 0 then 0 else if x < 0 then -1 else 1
  }

  lemma EncodeKeepsSign(sign: Sign, exponent: int, coefficient: uint64)
    requires EXPONENT_MIN <= exponent <= EXPONENT_MAX
    ensures var d := Encode(sign, exponent, coefficient);
            !d.IsNaN() && d.sign == sign && (d.IsZero() <==> coefficient == 0)
  {
    EncodeError(sign, exponent, coefficient);
    if coefficient == 0 {
      ExcessIsLeast(coefficient);
    }
  }

  /** Comparing finite decimals gives the sign of the exact difference of their values. */
  lemma CompareIsExact(lhs: Decimal, rhs: Decimal)
    requires lhs.IsFinite() && rhs.IsFinite()
    ensures !CompareTo(lhs, rhs).IsNaN()
    ensures Outcome(CompareTo(lhs, rhs)) == SignOf(Value(lhs) - Value(rhs))
  {
    var minus := Negate(rhs);
    assert Value(minus) == -Value(rhs);
    SubtractionIsNegatedAddition(lhs, rhs);
    SumEncodesTotal(lhs, minus);
    TotalError(lhs, minus);
    var p := FiniteSum(lhs, minus);
    EncodeKeepsSign(p.sign, p.exponent, p.coefficient);
  }

  /** Where a decimal that is not NaN lies on the extended line. */
  datatype Place = NegativeInfinity | Finite(value: int) | PositiveInfinity

  ghost function PlaceOf(d: Decimal): (p: Place)
    requires !d.IsNaN()
  {
    if d.IsFinite() then Finite(Value(d)) else if d.IsNegative() then NegativeInfinity else PositiveInfinity
  }

  ghost predicate Before(x: Place, y: Place) {
    match (x, y)
    case (NegativeInfinity, _) => y != NegativeInfinity
    case (Finite(v), Finite(w)) => v < w
    case (Finite(_), PositiveInfinity) => true
    case _ => false
  }

  /** All six operators agree with the extended line; signed zeros and unequal encodings of one value are equal. */
  lemma OperatorsAreExact(lhs: Decimal, rhs: Decimal)
    requires !lhs.IsNaN() && !rhs.IsNaN()
    ensures var x, y := PlaceOf(lhs), PlaceOf(rhs);
            && (Less(lhs, rhs) <==> Before(x, y))
            && (Greater(lhs, rhs) <==> Before(y, x))
            && (Equal(lhs, rhs) <==> x == y)
            && (NotEqual(lhs, rhs) <==> x != y)
            && (LessOrEqual(lhs, rhs) <==> x == y || Before(x, y))
            && (GreaterOrEqual(lhs, rhs) <==> x == y || Before(y, x))
  {
    CompareOutcome(lhs, rhs);
  }

  lemma CompareOutcome(lhs: Decimal, rhs: Decimal)
    requires !lhs.IsNaN() && !rhs.IsNaN()
    ensures var c, x, y := CompareTo(lhs, rhs), PlaceOf(lhs), PlaceOf(rhs);
            && (c.IsNaN() ==> lhs == rhs)
            && (lhs == rhs ==> c.IsNaN() || c.IsZero())
            && (!c.IsNaN() ==> Outcome(c) == if x == y then 0 else if Before(x, y) then -1 else 1)
  {
    if lhs.IsFinite() && rhs.IsFinite() {
      CompareIsExact(lhs, rhs);
    } else {
      EncodeKeepsSign(Positive, 0, 1);
      EncodeKeepsSign(Negative, 0, 1);
    }
  }

  /** On everything but NaN, < is a strict total order up to ==, and the other operators follow from it. */
  lemma StrictTotalOrder(a: Decimal, b: Decimal, c: Decimal)
    requires !a.IsNaN() && !b.IsNaN() && !c.IsNaN()
    ensures !Less(a, a) && Equal(a, a)
    ensures Less(a, b) && Less(b, c) ==> Less(a, c)
    ensures Equal(a, b) && Equal(b, c) ==> Equal(a, c)
    ensures Equal(a, b) ==> (Less(a, c) <==> Less(b, c)) && (Less(c, a) <==> Less(c, b))
    ensures Less(a, b) || Equal(a, b) || Less(b, a)
    ensures !(Less(a, b) && Less(b, a)) && !(Less(a, b) && Equal(a, b))
    ensures NotEqual(a, b) <==> !Equal(a, b)
    ensures LessOrEqual(a, b) <==> Less(a, b) || Equal(a, b)
    ensures Greater(a, b) <==> Less(b, a)
    ensures GreaterOrEqual(a, b) <==> LessOrEqual(b, a)
  {
    OrderOfPlaces(PlaceOf(a), PlaceOf(b), PlaceOf(c));
    OperatorsAreExact(a, a);
    OperatorsAreExact(a, b);
    OperatorsAreExact(b, a);
    OperatorsAreExact(b, c);
    OperatorsAreExact(a, c);
    OperatorsAreExact(c, a);
    OperatorsAreExact(c, b);
  }

  lemma OrderOfPlaces(x: Place, y: Place, z: Place)
    ensures !Before(x, x)
    ensures Before(x, y) && Before(y, z) ==> Before(x, z)
    ensures Before(x, y) || x == y || Before(y, x)
  {
  }

  /** NaN is equal to itself and to nothing else, but != never holds of it either, so != is not the negation of ==. */
  lemma NaNComparisons(d: Decimal)
    ensures (Equal(NAN, d) <==> d == NAN) && (Equal(d, NAN) <==> d == NAN)
    ensures !NotEqual(NAN, d) && !NotEqual(d, NAN)
    ensures !Less(NAN, d) && !Less(d, NAN) && !Greater(NAN, d) && !Greater(d, NAN)
    ensures (LessOrEqual(NAN, d) <==> d == NAN) && (LessOrEqual(d, NAN) <==> d == NAN)
    ensures (GreaterOrEqual(NAN, d) <==> d == NAN) && (GreaterOrEqual(d, NAN) <==> d == NAN)
  {
  }
}

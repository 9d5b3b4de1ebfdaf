/** Multiplication of equal numbers: their encodings matter only where an exponent leaves the range. */
module DecimalProductEncodings {
  import opened PowersOfTen
  import opened DecimalNumber
  import opened DecimalComparison
  import opened DecimalMonotonicity
  import opened DecimalProduct

  /** The exponent falls short after the first stage of cutting. */
  ghost predicate Underflows(a: Decimal, c: Decimal)
    requires a.IsFinite() && c.IsFinite()
  {
    a.exponent + c.exponent + Cut(Coefficients(a, c)) < EXPONENT_MIN
  }

  /** The exponent is too large after all digits are dropped. */
  ghost predicate Overflows(a: Decimal, c: Decimal)
    requires a.IsFinite() && c.IsFinite()
  {
    !Underflows(a, c) && a.exponent + c.exponent + Dropped(Coefficients(a, c)) > EXPONENT_MAX
  }

  ghost function Coefficients(a: Decimal, c: Decimal): (p: nat)
    requires a.IsFinite() && c.IsFinite()
  {
    MulLe(0, a.coefficient, c.coefficient);
    a.coefficient * c.coefficient
  }

  lemma DroppedIsRank(p: nat)
    ensures Dropped(p) == Rank(p)
  {
    hide Pow10, Digits, Dropped;
    SmallPowers();
    var k := Dropped(p);
    DroppedIsLeast(p);
    QuotientBelow(p, Pow10(k), Pow10(18));
    PowAdd(18, k);
    DigitsAtMost(p, 18 + k);
    if k > 0 {
      QuotientBelow(p, Pow10(k - 1), Pow10(18));
      PowAdd(18, k - 1);
      DigitsAtMost(p, 17 + k);
    }
  }

  lemma CutTimes(p: nat, j: nat, k: nat)
    ensures j <= k ==> (p * Pow10(j)) / Pow10(k) == p / Pow10(k - j)
    ensures k <= j ==> (p * Pow10(j)) / Pow10(k) == p * Pow10(j - k)
  {
    if j <= k {
      PowSplit(k, j);
      DivMul(p, Pow10(j));
      DivDiv(p * Pow10(j), Pow10(j), Pow10(k - j));
    } else {
      PowSplit(j, k);
      var q := p * Pow10(j - k);
      assert p * (Pow10(k) * Pow10(j - k)) == q * Pow10(k);
      DivMul(q, Pow10(k));
    }
  }

  /** Moving zeros between the coefficient and the exponent does not change what is left after dropping digits. */
  lemma SameAfterDropping(p: nat, e: int, j: nat)
    requires p > 0
    requires var q := p * Pow10(j); e - j + Rank(q) >= EXPONENT_MIN && e + Rank(p) >= EXPONENT_MIN
    ensures var q := p * Pow10(j);
            (p / Pow10(Rank(p))) * Unit(e + Rank(p)) == (q / Pow10(Rank(q))) * Unit(e - j + Rank(q))
  {
    hide Pow10, Digits;
    var q := p * Pow10(j);
    DigitsMul(p, j);
    CutTimes(p, j, Rank(q));
    if Rank(p) == 0 {
      var n := j - Rank(q);
      assert p / Pow10(0) == p by { SmallPowers(); DivUnique(p, 1, p, 0); }
      UnitAdd(e - n, n);
      MulAssoc(p, Pow10(n), Unit(e - n));
    }
  }

  /** Two encodings of one number differ by zeros at the end of the coefficient. */
  lemma ZerosApart(a: Decimal, b: Decimal) returns (j: nat)
    requires a.IsFinite() && b.IsFinite() && Magnitude(a) == Magnitude(b) && b.exponent <= a.exponent
    ensures j == a.exponent - b.exponent && b.coefficient == a.coefficient * Pow10(j)
  {
    hide Pow10;
    j := a.exponent - b.exponent;
    UnitAdd(b.exponent, j);
    MulAssoc(a.coefficient, Pow10(j), Unit(b.exponent));
    var x, y, u := a.coefficient * Pow10(j), b.coefficient, Unit(b.exponent);
    if x < y {
      MulLt(x, y, u);
    } else if y < x {
      MulLt(y, x, u);
    }
  }

  lemma SameProduct(a: Decimal, b: Decimal, c: Decimal)
    requires a.IsFinite() && b.IsFinite() && c.IsFinite() && !a.IsZero() && !c.IsZero() && b.exponent <= a.exponent
    requires Magnitude(a) == Magnitude(b)
    requires Product(a, c).formatClass == ClassNormal && Product(b, c).formatClass == ClassNormal
    ensures Magnitude(Product(a, c)) == Magnitude(Product(b, c))
  {
    hide Pow10, Digits, Product, Rank, Dropped, Cut;
    var j := ZerosApart(a, b);
    var p, q := Coefficients(a, c), Coefficients(b, c);
    ProductIsTruncated(a, c);
    ProductIsTruncated(b, c);
    DroppedIsRank(p);
    DroppedIsRank(q);
    MulLe(1, a.coefficient, c.coefficient);
    Interchange(a.coefficient, Pow10(j), c.coefficient);
    SameAfterDropping(p, a.exponent + c.exponent, j);
  }

  lemma Interchange(x: int, y: int, z: int)
    ensures (x * y) * z == (x * z) * y
  {
  }

  lemma EqualIsPlace(a: Decimal, b: Decimal)
    requires !a.IsNaN() && !b.IsNaN()
    ensures Equal(a, b) <==> PlaceOf(a) == PlaceOf(b)
  {
    OperatorsAreExact(a, b);
  }

  lemma NormalProducts(a: Decimal, b: Decimal, c: Decimal)
    requires a.IsFinite() && b.IsFinite() && c.IsFinite() && !a.IsZero() && !b.IsZero() && !c.IsZero()
    requires a.sign == b.sign && Magnitude(a) == Magnitude(b)
    requires Product(a, c).formatClass == ClassNormal && Product(b, c).formatClass == ClassNormal
    ensures PlaceOf(Product(a, c)) == PlaceOf(Product(b, c))
  {
    hide Product, Magnitude, Underflows, Overflows;
    ProductClass(a, c);
    ProductClass(b, c);
    if b.exponent <= a.exponent {
      SameProduct(a, b, c);
    } else {
      SameProduct(b, a, c);
    }
  }

  /**
    Equal numbers have equal products with a third exactly when the exponents of both leave the range in the same
    way, or neither does.
  */
  lemma ProductRespectsEquality(a: Decimal, b: Decimal, c: Decimal)
    requires a.IsFinite() && b.IsFinite() && c.IsFinite() && !a.IsZero() && !c.IsZero() && Equal(a, b)
    ensures Equal(Product(a, c), Product(b, c)) <==>
            (Underflows(a, c) <==> Underflows(b, c)) && (Overflows(a, c) <==> Overflows(b, c))
  {
    hide Product, Equal, Underflows, Overflows, Magnitude, PlaceOf;
    assert Value(a) == Value(b) by { EqualIsPlace(a, b); SamePlace(a, b); }
    SameSign(a, b);
    ProductClass(a, c);
    ProductClass(b, c);
    var x, y := Product(a, c), Product(b, c);
    EqualIsPlace(x, y);
    EqualNeedsClass(x, y);
    assert Overflows(a, c) ==> !Underflows(a, c) by { NotBoth(a, c); }
    assert Overflows(b, c) ==> !Underflows(b, c) by { NotBoth(b, c); }
    if x.formatClass == ClassNormal && y.formatClass == ClassNormal {
      NormalProducts(a, b, c);
    }
  }

  lemma SamePlace(a: Decimal, b: Decimal)
    requires a.IsFinite() && b.IsFinite() && PlaceOf(a) == PlaceOf(b)
    ensures Value(a) == Value(b)
  {
  }

  lemma NotBoth(a: Decimal, c: Decimal)
    requires a.IsFinite() && c.IsFinite()
    ensures Overflows(a, c) ==> !Underflows(a, c)
  {
  }

  /** Numbers of one sign and different classes are different; zeros are equal, and so are infinities. */
  lemma EqualNeedsClass(x: Decimal, y: Decimal)
    requires !x.IsNaN() && !y.IsNaN() && x.sign == y.sign
    ensures x.formatClass != y.formatClass ==> PlaceOf(x) != PlaceOf(y)
    ensures x.formatClass == y.formatClass != ClassNormal ==> PlaceOf(x) == PlaceOf(y)
  {
    hide Magnitude;
    if x.IsFinite() {
      MagnitudeZero(x);
    }
    if y.IsFinite() {
      MagnitudeZero(y);
    }
  }

  lemma SameSign(a: Decimal, b: Decimal)
    requires a.IsFinite() && b.IsFinite() && !a.IsZero() && Value(a) == Value(b)
    ensures a.sign == b.sign && Magnitude(a) == Magnitude(b) && !b.IsZero()
  {
    MagnitudeZero(a);
    MagnitudeZero(b);
  }

  lemma ProductClass(a: Decimal, c: Decimal)
    requires a.IsFinite() && c.IsFinite() && !a.IsZero() && !c.IsZero()
    ensures Product(a, c).sign == ProductSign(a.sign, c.sign)
    ensures Product(a, c).formatClass
         == if Underflows(a, c) then ClassZero else if Overflows(a, c) then ClassInfinity else ClassNormal
  {
    hide FiniteProduct, Pow10, Digits, Encode;
    MulLe(1, a.coefficient, c.coefficient);
    ProductIsTruncated(a, c);
    var p := FiniteProduct(a, c);
    EncodeError(p.sign, p.exponent, p.coefficient);
  }

  /** 10^17 * 10^-1023 and 1 * 10^-1006 are equal, but times 10^-10 one is zero and the other is not. */
  lemma EncodingDecidesUnderflow(a: Decimal, b: Decimal, c: Decimal)
    requires a == EncodedData(Positive, ClassNormal, -1023, 1_00000000000000000)
    requires b == EncodedData(Positive, ClassNormal, -1006, 1)
    requires c == EncodedData(Positive, ClassNormal, -10, 1)
    ensures Equal(a, b) && Product(a, c).IsZero() && !Product(b, c).IsZero()
  {
    hide Pow10, Product, Equal;
    SmallPowers();
    UnitAdd(-1023, 17);
    OperatorsAreExact(a, b);
    assert Coefficients(a, c) == a.coefficient && Coefficients(b, c) == 1;
    ProductClass(a, c);
    ProductClass(b, c);
  }
}

/** What printing a decimal and parsing the text loses, when it loses anything. */
module DecimalPrintError {
  import opened PowersOfTen
  import opened DecimalNumber
  import opened DecimalParser
  import opened DecimalPrinter
  import opened ParserCorrectness
  import opened DecimalRoundTrip

  /** The printed coefficient is the nearest one of fifteen digits; halves are rounded up. */
  lemma RoundedIsNearest(c: nat)
    ensures var t := Surplus(c);
            0 - Pow10(t) < 2 * (RoundedTo15(c) * Pow10(t) - c) <= Pow10(t)
  {
    var t := Surplus(c);
    var q, r := c / Pow10(t), c % Pow10(t);
    DivNonnegative(c, Pow10(t));
    assert c == q * Pow10(t) + r;
    if t > 0 {
      FirstFractionDigit(c, t);
      assert (q + 1) * Pow10(t) == q * Pow10(t) + Pow10(t);
    } else {
      DivUnique(c, 1, c, 0);
    }
  }

  lemma ScaledBounds(rp: int, p: nat, c: int, u: nat)
    requires 0 - p < 2 * (rp - c) <= p && u > 0
    ensures 0 - p * u < 2 * (rp * u - c * u) <= p * u
  {
    var x := 2 * (rp - c);
    MulLt(0 - p, x, u);
    MulLe(x, p, u);
    assert x * u == 2 * (rp * u - c * u);
    assert (0 - p) * u == 0 - p * u;
  }

  /** The same in exact values. */
  lemma RoundingError(c: nat, e: int)
    requires e >= EXPONENT_MIN
    ensures var u := Unit(e + Surplus(c));
            0 - u < 2 * (RoundedTo15(c) * u - c * Unit(e)) <= u
  {
    hide Pow10, Surplus, RoundedTo15;
    var t, r := Surplus(c), RoundedTo15(c);
    RoundedIsNearest(c);
    UnitAdd(e, t);
    ScaledBounds(r * Pow10(t), Pow10(t), c, Unit(e));
    MulAssoc(r, Pow10(t), Unit(e));
  }

  /** Cutting after eighteen places loses less than one unit of the last place. */
  lemma CutError(m: nat, x: int)
    requires EXPONENT_MIN <= x < -18
    ensures 0 <= m * Unit(x) - EighteenPlaces(m, x) * Unit(-18) < Unit(-18)
  {
    UnitAdd(x, -18 - x);
    CutOff(m, Pow10(-18 - x), Unit(x));
  }

  /**
    What becomes of every finite decimal. Without places after the point it comes back, or is one of nine values at
    the top of the range and becomes infinite. With them it comes back with its sign and within half a unit of the
    fifteenth digit, downward also short by less than 10^-18 when the places were cut.
  */
  lemma PrintError(d: Decimal)
    requires d.IsFinite()
    ensures var r, c, e := Parse(Print(d)), d.coefficient, d.exponent;
            if e >= 0 then
              if Survives(c, e) then r.IsFinite() && r.sign == d.sign && Value(r) == Value(d) else r == Infinity(d.sign)
            else
              var unit := Unit(e + Surplus(c));
              && r.IsFinite() && r.sign == d.sign
              && 2 * (Magnitude(r) - Magnitude(d)) <= unit
              && 2 * (Magnitude(d) - Magnitude(r))
                 < unit + if IsCut(Shortened(c, e).0, Shortened(c, e).1) then 2 * Unit(-18) else 0
  {
    var r, c, e := Parse(Print(d)), d.coefficient, d.exponent;
    hide Parse, Pow10;
    assert Print(d) == Printed(d.sign, Shortened(c, e).0, Shortened(c, e).1);
    if e >= 0 {
      ReadBack(d.sign, c, e, r);
      RoundTrip(d);
    } else {
      PlacesError(d, r);
    }
  }

  lemma PlacesError(d: Decimal, r: Decimal)
    requires d.IsFinite() && d.exponent < 0
    requires r == Parse(Printed(d.sign, Shortened(d.coefficient, d.exponent).0, Shortened(d.coefficient, d.exponent).1))
    ensures var c, e := d.coefficient, d.exponent;
            var unit := Unit(e + Surplus(c));
            && r.IsFinite() && r.sign == d.sign
            && 2 * (Magnitude(r) - Magnitude(d)) <= unit
            && 2 * (Magnitude(d) - Magnitude(r))
               < unit + if IsCut(Shortened(c, e).0, Shortened(c, e).1) then 2 * Unit(-18) else 0
  {
    hide Parse, Pow10, Shortened, RoundedTo15, Surplus, IsScientific, TooHigh, EighteenPlaces, Unit;
    var c, e := d.coefficient, d.exponent;
    var m, x := ShortenedFraction(c, e);
    SmallPowers();
    ReadBack(d.sign, m, x, r);
    RoundingError(c, e);
    if IsCut(m, x) {
      CutError(m, x);
      ReadMagnitude(r, d.sign, EighteenPlaces(m, x), -18);
    } else {
      ReadMagnitude(r, d.sign, m, x);
    }
  }

  lemma ReadMagnitude(d: Decimal, sign: Sign, a: nat, x: int)
    requires x >= EXPONENT_MIN && Denotes(d, sign, a, x)
    ensures d.IsFinite() && d.sign == sign && Magnitude(d) == a * Unit(x)
  {
  }
}

/** fromString(toString(d)): when the value survives, for every finite decimal. */
module DecimalRoundTrip {
  import opened PowersOfTen
  import opened Text
  import opened DecimalPrimitives
  import opened DecimalNumber
  import opened DecimalParser
  import opened Numerals
  import opened ParserCorrectness
  import opened DecimalPrinter

  // ----- the text of a decimal is a numeral

  function PrintedExponent(adjusted: int): (x: Option<Exponent>) {
    if adjusted == 0 then None
    else Some(Exponent(LOWER_E, if adjusted < 0 then MinusMark else PlusMark,
                       NatText(if adjusted < 0 then -adjusted else adjusted)))
  }

  function MarkOf(sign: Sign): (mark: Mark) {
    if sign == Negative then MinusMark else NoMark
  }

  function PrintedNumeral(sign: Sign, digits: Text, e: int): (n: Numeral)
    requires digits != []
  {
    var mark := MarkOf(sign);
    var adjusted := e + |digits| - 1;
    if e <= 0 && adjusted >= -6 then
      if e == 0 then Numeral(mark, digits, None, None)
      else if adjusted >= 0 then Numeral(mark, digits[..adjusted + 1], Some(digits[adjusted + 1..]), None)
      else Numeral(mark, [ZERO], Some(Zeros(-adjusted - 1) + digits), None)
    else ScientificNumeral(mark, digits, TrimmedLength(digits, |digits|), adjusted)
  }

  /** One digit before the dot, k digits in all, and an exponent. */
  function ScientificNumeral(mark: Mark, digits: Text, k: nat, adjusted: int): (n: Numeral)
    requires 1 <= k <= |digits|
  {
    Numeral(mark, [digits[0]], if k >= 2 then Some(digits[1..k]) else None, PrintedExponent(adjusted))
  }

  lemma FourParts(m: Text, w: Text, f: Text, x: Text)
    ensures m + (w + f + x) == m + w + f + x
  {
  }

  lemma ExponentIsPrinted(adjusted: int)
    ensures ExponentText(PrintedExponent(adjusted))
         == if adjusted != 0 then (if adjusted < 0 then [LOWER_E] else [LOWER_E, PLUS]) + IntText(adjusted) else []
  {
  }

  lemma DottedText(a: Text, b: Text)
    ensures a + ([DOT] + b) + [] == a + [DOT] + b
  {
  }

  lemma ZerosText(z: Text, digits: Text)
    ensures [ZERO] + ([DOT] + (z + digits)) + [] == [ZERO, DOT] + z + digits
  {
  }

  lemma LayoutIsParts(sign: Sign, digits: Text, e: int)
    requires digits != []
    ensures var n := PrintedNumeral(sign, digits, e);
            Layout(digits, e) == n.whole + FractionText(n.frac) + ExponentText(n.exp)
  {
    var adjusted := e + |digits| - 1;
    if e <= 0 && adjusted >= -6 {
      if e == 0 {
        assert digits + [] + [] == digits;
      } else if adjusted >= 0 {
        DottedText(digits[..adjusted + 1], digits[adjusted + 1..]);
      } else {
        ZerosText(Zeros(-adjusted - 1), digits);
      }
    } else {
      ExponentIsPrinted(adjusted);
    }
  }

  lemma LayoutIsNumeral(sign: Sign, digits: Text, e: int)
    requires digits != []
    ensures SignText(sign) + Layout(digits, e) == Render(PrintedNumeral(sign, digits, e))
  {
    var n := PrintedNumeral(sign, digits, e);
    LayoutIsParts(sign, digits, e);
    FourParts(MarkText(n.mark), n.whole, FractionText(n.frac), ExponentText(n.exp));
  }

  // ----- what each layout denotes

  /** A nonzero digit in front is not stripped. */
  lemma NothingToStrip(s: Text)
    requires s == [] || s[0] != ZERO
    ensures StripZeros(s) == s
  {
  }

  /** All that matters of a numeral: its kept digits, their exponent, and how many stand before the dot. */
  ghost predicate Shows(n: Numeral, sign: Sign, kept: Text, exponent: int, before: nat) {
    && n.Complete() && n.ExponentFits() && n.Sign() == sign
    && n.Kept() == kept && KeptExponent(n) == exponent && Before(n) == before
  }

  lemma PlainShows(sign: Sign, m: nat)
    requires m <= MAX_COEFFICIENT
    ensures var digits := NatText(m);
            if m == 0 then Shows(PrintedNumeral(sign, digits, 0), sign, [], 0, 0)
            else Shows(PrintedNumeral(sign, digits, 0), sign, digits, 0, |digits|)
  {
    var digits := NatText(m);
    var n := PrintedNumeral(sign, digits, 0);
    TextLength(m);
    NatTextShape(m);
    if m == 0 {
      OneZero();
      assert n.Significant() == [];
    } else {
      NothingToStrip(digits);
      assert n.Significant() == digits;
    }
  }

  lemma TextLength(m: nat)
    requires m <= MAX_COEFFICIENT
    ensures |NatText(m)| <= PRECISION
  {
    NatTextShape(m);
    SmallPowers();
    DigitsAtMost(m, 18);
  }

  lemma DottedShows(sign: Sign, m: nat, e: int)
    requires 0 < m <= MAX_COEFFICIENT && e < 0 && e + |NatText(m)| - 1 >= 0
    ensures var digits := NatText(m);
            Shows(PrintedNumeral(sign, digits, e), sign, digits, e, e + |digits|)
  {
    hide Nat, Pow10, Digits, NatText, StripZeros;
    var digits := NatText(m);
    var n := PrintedNumeral(sign, digits, e);
    TextLength(m);
    NatTextShape(m);
    NothingToStrip(n.whole);
    assert n.Significant() == digits;
  }

  lemma OneZero()
    ensures StripZeros([ZERO]) == [] && AllDigits([ZERO]) && Nat([ZERO]) == 0
  {
    assert [ZERO][1..] == [] && [ZERO][..0] == [];
  }

  /** A zero, a dot and a fraction: digits past the eighteenth place are lost. */
  lemma FractionShows(sign: Sign, digits: Text, e: int)
    requires AllDigits(digits) && digits != [] && e < 0 && -6 <= e + |digits| - 1 < 0
    ensures var f := Zeros(-e - |digits|) + digits;
            Shows(PrintedNumeral(sign, digits, e), sign, Take(f), if e >= -18 then e else -18, 0)
  {
    var n := PrintedNumeral(sign, digits, e);
    var f := Zeros(-e - |digits|) + digits;
    OneZero();
    NatOfZeros(Zeros(-e - |digits|));
    NatConcat(Zeros(-e - |digits|), digits);
    assert n.Fraction() == f;
    assert n.Significant() == f;
  }

  lemma NatOfTaken(s: Text)
    requires AllDigits(s)
    ensures Nat(Take(s)) == if |s| <= PRECISION then Nat(s) else Nat(s) / Pow10(|s| - PRECISION)
  {
    if |s| > PRECISION {
      var k, rest := s[..PRECISION], s[PRECISION..];
      assert s == k + rest;
      NatConcat(k, rest);
      NatBound(rest);
      DivUnique(Nat(s), Pow10(|rest|), Nat(k), Nat(rest));
    }
  }

  lemma FractionValue(m: nat, e: int)
    requires |NatText(m)| <= -e
    ensures var f := Zeros(-e - |NatText(m)|) + NatText(m);
            AllDigits(f) && Nat(Take(f)) == if e >= -18 then m else m / Pow10(-18 - e)
  {
    var digits := NatText(m);
    var zeros := Zeros(-e - |digits|);
    NatTextValue(m);
    NatOfZeros(zeros);
    NatConcat(zeros, digits);
    NatOfTaken(zeros + digits);
  }

  /** What TrimmedLength takes off is zeros. */
  lemma {:induction false} TrimmedDigits(digits: Text, n: nat)
    requires 1 <= n <= |digits|
    ensures AllZeros(digits[TrimmedLength(digits, n)..n])
  {
    if n >= 2 && digits[n - 1] == ZERO {
      TrimmedDigits(digits, n - 1);
      var k := TrimmedLength(digits, n);
      assert digits[k..n] == digits[k..n - 1] + [ZERO];
    }
  }

  /** The number of trailing zeros that scientific notation leaves out. */
  function Omitted(m: nat): (z: nat) {
    var digits := NatText(m);
    |digits| - TrimmedLength(digits, |digits|)
  }

  lemma ZerosAtEnd(digits: Text, a: Text, zeros: Text)
    requires AllDigits(a) && AllZeros(zeros) && a + zeros == digits
    ensures AllDigits(digits) && Nat(digits) == Nat(a) * Pow10(|zeros|)
  {
    NatOfZeros(zeros);
    NatConcat(a, zeros);
  }

  lemma SplitText(s: Text, k: nat)
    requires k <= |s|
    ensures s[..k] + s[k..|s|] == s && |s[k..|s|]| == |s| - k
    ensures AllDigits(s) ==> AllDigits(s[..k])
  {
  }

  lemma TrimmedValue(digits: Text) returns (a: Text)
    requires AllDigits(digits) && digits != []
    ensures a == digits[..TrimmedLength(digits, |digits|)] && AllDigits(a)
    ensures Nat(digits) == Nat(a) * Pow10(|digits| - TrimmedLength(digits, |digits|))
  {
    var k := TrimmedLength(digits, |digits|);
    a := digits[..k];
    var zeros := digits[k..|digits|];
    TrimmedDigits(digits, |digits|);
    SplitText(digits, k);
    ZerosAtEnd(digits, a, zeros);
  }

  lemma OmittedDigits(m: nat)
    ensures var digits := NatText(m);
            Nat(digits[..TrimmedLength(digits, |digits|)]) * Pow10(Omitted(m)) == m
  {
    hide Pow10, Nat, TrimmedLength;
    var digits := NatText(m);
    NatTextValue(m);
    var a := TrimmedValue(digits);
  }

  lemma PrintedExponentFits(adjusted: int)
    requires -LARGEST_EXPONENT <= adjusted <= LARGEST_EXPONENT
    ensures var x := PrintedExponent(adjusted);
            x.Some? ==> && x.value.digits != [] && IsE(x.value.letter)
                        && Nat(x.value.digits) == (if adjusted < 0 then -adjusted else adjusted)
  {
    NatTextValue(if adjusted < 0 then -adjusted else adjusted);
  }

  lemma ScientificParts(sign: Sign, digits: Text, k: nat, adjusted: int)
    requires AllDigits(digits) && 1 <= k <= |digits| && k <= PRECISION
    requires -LARGEST_EXPONENT <= adjusted <= LARGEST_EXPONENT
    ensures var n := ScientificNumeral(MarkOf(sign), digits, k, adjusted);
            && (digits[0] != ZERO ==> Shows(n, sign, digits[..k], adjusted + 1 - k, 1))
            && (digits[0] == ZERO && k == 1 ==> Shows(n, sign, [], adjusted, 0))
  {
    var n := ScientificNumeral(MarkOf(sign), digits, k, adjusted);
    PrintedExponentFits(adjusted);
    if digits[0] != ZERO {
      NothingToStrip(n.whole);
      assert n.Significant() == digits[..k];
    } else if k == 1 {
      OneZero();
      assert n.Significant() == [];
    }
  }

  lemma PrintedIsScientific(sign: Sign, digits: Text, e: int)
    requires digits != [] && (e > 0 || e + |digits| - 1 < -6)
    ensures PrintedNumeral(sign, digits, e)
         == ScientificNumeral(MarkOf(sign), digits, TrimmedLength(digits, |digits|), e + |digits| - 1)
  {
  }

  // ----- reading back what was printed

  /** The layout with zeros after the dot, with more than eighteen places. */
  predicate IsCut(m: nat, e: int) {
    e < -18 && -6 <= e + |NatText(m)| - 1 < 0
  }

  predicate IsScientific(m: nat, e: int) {
    e > 0 || e + |NatText(m)| - 1 < -6
  }

  function Printed(sign: Sign, m: nat, e: int): (s: Text) {
    SignText(sign) + Layout(NatText(m), e)
  }

  lemma ShownMeans(n: Numeral, d: Decimal, sign: Sign, kept: Text, a: nat, exponent: int, before: nat)
    requires Shows(n, sign, kept, exponent, before) && d == Parse(Render(n)) && a == Nat(kept)
    ensures Means(d, sign, a, exponent, before)
  {
    ParseMeaning(n);
  }

  lemma PlainMeans(sign: Sign, m: nat, d: Decimal) returns (before: nat)
    requires m <= MAX_COEFFICIENT && d == Parse(Printed(sign, m, 0))
    ensures Means(d, sign, m, 0, before)
  {
    hide Means, Shows, Nat, Pow10, Digits, NatText, StripZeros, Parse;
    var digits := NatText(m);
    var n := PrintedNumeral(sign, digits, 0);
    LayoutIsNumeral(sign, digits, 0);
    PlainShows(sign, m);
    NatTextValue(m);
    NatOfZeros([]);
    before := if m == 0 then 0 else |digits|;
    ShownMeans(n, d, sign, if m == 0 then [] else digits, m, 0, before);
  }

  lemma DottedMeans(sign: Sign, m: nat, e: int, d: Decimal) returns (before: nat)
    requires 0 < m <= MAX_COEFFICIENT && e < 0 && e + |NatText(m)| - 1 >= 0
    requires d == Parse(Printed(sign, m, e))
    ensures Means(d, sign, m, e, before)
  {
    hide Means, Shows, Nat, Pow10, Digits, NatText, StripZeros, Parse;
    var digits := NatText(m);
    var n := PrintedNumeral(sign, digits, e);
    LayoutIsNumeral(sign, digits, e);
    DottedShows(sign, m, e);
    NatTextValue(m);
    before := e + |digits|;
    ShownMeans(n, d, sign, digits, m, e, before);
  }

  lemma FractionMeans(sign: Sign, m: nat, e: int, d: Decimal) returns (a: nat, x: int)
    requires e < 0 && -6 <= e + |NatText(m)| - 1 < 0
    requires d == Parse(Printed(sign, m, e))
    ensures a == (if e >= -18 then m else m / Pow10(-18 - e)) && x == if e >= -18 then e else -18
    ensures Means(d, sign, a, x, 0)
  {
    hide Means, Shows, Nat, Pow10, Digits, NatText, StripZeros, Parse;
    var digits := NatText(m);
    var kept := Take(Zeros(-e - |digits|) + digits);
    LayoutIsNumeral(sign, digits, e);
    FractionShows(sign, digits, e);
    FractionValue(m, e);
    a, x := Nat(kept), if e >= -18 then e else -18;
    ShownMeans(PrintedNumeral(sign, digits, e), d, sign, kept, a, x, 0);
  }

  lemma ScientificText(sign: Sign, digits: Text, e: int)
    requires digits != [] && (e > 0 || e + |digits| - 1 < -6)
    ensures SignText(sign) + Layout(digits, e)
         == Render(ScientificNumeral(MarkOf(sign), digits, TrimmedLength(digits, |digits|), e + |digits| - 1))
  {
    LayoutIsNumeral(sign, digits, e);
    PrintedIsScientific(sign, digits, e);
  }

  lemma ScientificShows(sign: Sign, m: nat, e: int) returns (kept: Text)
    requires m <= MAX_COEFFICIENT && EXPONENT_MIN <= e <= EXPONENT_MAX
    ensures AllDigits(kept) && Nat(kept) * Pow10(Omitted(m)) == m && (m == 0 ==> Omitted(m) == 0)
    ensures var digits := NatText(m);
            Shows(ScientificNumeral(MarkOf(sign), digits, TrimmedLength(digits, |digits|), e + |digits| - 1),
                  sign, kept, e + Omitted(m), if m == 0 then 0 else 1)
  {
    hide Shows;
    var digits := NatText(m);
    var k := TrimmedLength(digits, |digits|);
    TextLength(m);
    NatTextShape(m);
    ScientificParts(sign, digits, k, e + |digits| - 1);
    OmittedDigits(m);
    kept := if m == 0 then [] else digits[..k];
  }

  lemma ScientificMeans(sign: Sign, m: nat, e: int, d: Decimal) returns (a: nat, x: int, before: nat)
    requires m <= MAX_COEFFICIENT && EXPONENT_MIN <= e <= EXPONENT_MAX && IsScientific(m, e)
    requires d == Parse(Printed(sign, m, e))
    ensures a * Pow10(Omitted(m)) == m && x == e + Omitted(m) && before == (if m == 0 then 0 else 1)
    ensures m == 0 ==> Omitted(m) == 0
    ensures Means(d, sign, a, x, before)
  {
    hide Shows, Means, Parse, Layout, Render, NatText;
    var digits := NatText(m);
    var kept := ScientificShows(sign, m, e);
    ScientificText(sign, digits, e);
    a, x, before := Nat(kept), e + Omitted(m), if m == 0 then 0 else 1;
    ShownMeans(ScientificNumeral(MarkOf(sign), digits, TrimmedLength(digits, |digits|), e + |digits| - 1),
               d, sign, kept, a, x, before);
  }

  /** Moving z zeros from the coefficient to the exponent does not change the value. */
  lemma SameValue(a: nat, z: nat, m: nat, e: int)
    requires a * Pow10(z) == m && e >= EXPONENT_MIN
    ensures a * Unit(e + z) == m * Unit(e)
  {
    UnitAdd(e, z);
    MulAssoc(a, Pow10(z), Unit(e));
  }

  /** Scaling back fails in one case only: a single nonzero digit in front, at the largest exponent. */
  lemma ScalesUnless(a: nat, z: nat, m: nat, e: int)
    requires a * Pow10(z) == m <= MAX_COEFFICIENT && e <= EXPONENT_MAX && e + z > SCALED_EXPONENT
    requires m == 0 ==> z == 0
    ensures ScalesExactly(a, e + z, if m == 0 then 0 else 1) <==> m == 0 || e + z <= SCALED_EXPONENT + 17
  {
    var overflow := e + z - SCALED_EXPONENT;
    PowMonotone(overflow, z + 1);
    ScaledBound(a, Pow10(overflow), Pow10(z), Pow10(z + 1), m);
  }

  lemma ScaledBound(a: nat, o: nat, p: nat, q: nat, m: nat)
    requires o <= q == 10 * p && a * p == m <= MAX_COEFFICIENT
    ensures a * o < 1_0000000000000000000
  {
    MulLe(o, q, a);
    assert a * (10 * p) == 10 * (a * p);
  }

  /** Where reading back fails for want of exponent: one significant digit and a sum of zeros and exponent past 1039. */
  predicate TooHigh(m: nat, e: int) {
    m > 0 && IsScientific(m, e) && e + Omitted(m) > SCALED_EXPONENT + 17
  }

  /** The digits of m * 10^e down to the eighteenth place. */
  function EighteenPlaces(m: nat, e: int): (a: nat)
    requires e < -18
  {
    DivNonnegative(m, Pow10(-18 - e));
    m / Pow10(-18 - e)
  }

  lemma MeaningOfScaled(d: Decimal, sign: Sign, a: nat, x: int, before: nat, z: nat, m: nat, e: int)
    requires Means(d, sign, a, x, before)
    requires m <= MAX_COEFFICIENT && EXPONENT_MIN <= e <= EXPONENT_MAX
    requires a * Pow10(z) == m && x == e + z && before == (if m == 0 then 0 else 1) && (m == 0 ==> z == 0)
    ensures Denotes(d, sign, m, e) <==> m == 0 || e + z <= SCALED_EXPONENT + 17
    ensures m > 0 && e + z > SCALED_EXPONENT + 17 ==> d == Infinity(sign)
  {
    SameValue(a, z, m, e);
    if x > SCALED_EXPONENT {
      ScalesUnless(a, z, m, e);
    }
  }

  lemma ReadBackScientific(sign: Sign, m: nat, e: int, d: Decimal)
    requires m <= MAX_COEFFICIENT && EXPONENT_MIN <= e <= EXPONENT_MAX && IsScientific(m, e)
    requires d == Parse(Printed(sign, m, e))
    ensures Denotes(d, sign, m, e) <==> !TooHigh(m, e)
    ensures TooHigh(m, e) ==> d == Infinity(sign)
  {
    var a, x, before := ScientificMeans(sign, m, e, d);
    MeaningOfScaled(d, sign, a, x, before, Omitted(m), m, e);
  }

  lemma ReadBackFraction(sign: Sign, m: nat, e: int, d: Decimal)
    requires e < 0 && -6 <= e + |NatText(m)| - 1 < 0 && EXPONENT_MIN <= e
    requires d == Parse(Printed(sign, m, e))
    ensures if e < -18 then Denotes(d, sign, EighteenPlaces(m, e), -18) else Denotes(d, sign, m, e)
  {
    var a, x := FractionMeans(sign, m, e, d);
  }

  /** What is read back from m * 10^e in print. */
  lemma ReadBack(sign: Sign, m: nat, e: int, d: Decimal)
    requires m <= MAX_COEFFICIENT && EXPONENT_MIN <= e <= EXPONENT_MAX
    requires d == Parse(Printed(sign, m, e))
    ensures IsCut(m, e) ==> Denotes(d, sign, EighteenPlaces(m, e), -18)
    ensures !IsCut(m, e) ==> (Denotes(d, sign, m, e) <==> !TooHigh(m, e))
    ensures TooHigh(m, e) ==> d == Infinity(sign)
  {
    NatTextShape(m);
    if IsScientific(m, e) {
      ReadBackScientific(sign, m, e, d);
    } else if e == 0 {
      var before := PlainMeans(sign, m, d);
    } else if e + |NatText(m)| - 1 >= 0 {
      var before := DottedMeans(sign, m, e, d);
    } else {
      ReadBackFraction(sign, m, e, d);
    }
  }

  // ----- shortening

  lemma OneMoreZero(m: nat, n: nat)
    requires n > 0
    ensures m * Pow10(n) == 10 * (m * Pow10(n - 1))
  {
    assert m * (10 * Pow10(n - 1)) == 10 * (m * Pow10(n - 1));
  }

  lemma {:induction false} TrimmedMeans(c: nat, e: int)
    ensures var (m, x) := Trimmed(c, e);
            && x >= e && (x == e || x <= 0) && m * Pow10(x - e) == c && m <= c
            && (x < 0 && m > 0 ==> m % 10 != 0) && (m == 0 <==> c == 0)
    decreases c
  {
    var (m, x) := Trimmed(c, e);
    if e < 0 && c != 0 && c % 10 == 0 {
      TrimmedMeans(c / 10, e + 1);
      OneMoreZero(m, x - e);
    } else {
      assert Pow10(0) == 1;
    }
  }

  lemma SurplusBound(c: nat)
    requires c <= MAX_COEFFICIENT
    ensures Surplus(c) <= 3 && c / Pow10(Surplus(c)) < Pow10(15)
  {
    SmallPowers();
    DigitsAtMost(c, 18);
    DigitsOfQuotient(c, Surplus(c));
    DivNonnegative(c, Pow10(Surplus(c)));
    DigitsAtMost(c / Pow10(Surplus(c)), 15);
  }

  lemma NothingLost(c: nat)
    requires c % Pow10(Surplus(c)) == 0
    ensures RoundedTo15(c) * Pow10(Surplus(c)) == c
  {
    var t := Surplus(c);
    var q := c / Pow10(t);
    assert c == q * Pow10(t) + 0;
    if t > 0 {
      assert q * Pow10(t) == (q * 10) * Pow10(t - 1);
      DivUnique(c, Pow10(t - 1), q * 10, 0);
    }
  }

  /**
    The condition a caller can check: without digits after the point only nine
    values fail, a single digit at the top of the range; with them, at most
    fifteen significant digits may be needed, and no more than eighteen places
    when the number is printed as a plain fraction.
  */
  predicate Survives(c: nat, e: int) {
    if e >= 0 then !(e == EXPONENT_MAX && c > 0 && c % Pow10(17) == 0)
    else
      var (m, x) := Trimmed(c / Pow10(Surplus(c)), e + Surplus(c));
      c % Pow10(Surplus(c)) == 0 && !IsCut(m, x)
  }

  lemma MultipleCancels(c: nat, p: nat, u: nat, j: nat)
    requires p > 0 && u > 0 && c * u == j * (p * u)
    ensures c % p == 0
  {
    MulAssoc(j, p, u);
    if c < j * p {
      MulLt(c, j * p, u);
    } else if c > j * p {
      MulLt(j * p, c, u);
    }
    DivMul(j, p);
  }

  /** Cutting a number whose last digit is not zero changes it. */
  lemma CutChanges(m: nat, e: int)
    requires EXPONENT_MIN <= e < -18 && m % 10 != 0
    ensures EighteenPlaces(m, e) * Unit(-18) != m * Unit(e)
  {
    var k := -18 - e;
    UnitAdd(e, k);
    CutOff(m, Pow10(k), Unit(e));
    if m % Pow10(k) == 0 {
      var j := m / Pow10(k);
      assert m == (j * Pow10(k - 1)) * 10;
      DivUnique(m, 10, j * Pow10(k - 1), 0);
    }
  }

  /** For a printed fraction: what is read back, as a multiple of a unit y that divides the printed exponent. */
  lemma ReadBackIsMultiple(a: nat, x: int, y: int) returns (j: nat)
    requires EXPONENT_MIN <= y <= x
    ensures a * Unit(x) == j * Unit(y)
  {
    UnitAdd(y, x - y);
    MulAssoc(a, Pow10(x - y), Unit(y));
    j := a * Pow10(x - y);
  }

  lemma ShortenedFraction(c: nat, e: int) returns (m: nat, x: int)
    requires c <= MAX_COEFFICIENT && EXPONENT_MIN <= e < 0
    ensures (m, x) == Shortened(c, e) && m <= Pow10(15) && e + Surplus(c) <= x <= 2
    ensures m * Unit(x) == RoundedTo15(c) * Unit(e + Surplus(c))
    ensures IsCut(m, x) ==> m % 10 != 0
    ensures !TooHigh(m, x)
  {
    hide Pow10;
    SurplusBound(c);
    var r, y := RoundedTo15(c), e + Surplus(c);
    TrimmedMeans(r, y);
    var p := Trimmed(r, y);
    m, x := p.0, p.1;
    SameValue(m, x - y, r, y);
    NatTextShape(m);
    SmallPowers();
    TextLength(m);
  }

  /** A multiple of 10^(e + t) is not c * 10^e unless 10^t divides c. */
  lemma OnlyMultiples(d: Decimal, sign: Sign, c: nat, e: int, t: nat, a: nat, x: int)
    requires EXPONENT_MIN <= e && e + t <= x && Denotes(d, sign, a, x) && c % Pow10(t) != 0
    ensures !Denotes(d, sign, c, e)
  {
    hide Pow10;
    var j := ReadBackIsMultiple(a, x, e + t);
    UnitAdd(e, t);
    if c * Unit(e) == j * (Pow10(t) * Unit(e)) {
      MultipleCancels(c, Pow10(t), Unit(e), j);
    }
  }

  /** Too many significant digits: whatever is read back is a multiple of a unit that the value is no multiple of. */
  lemma RoundedAway(sign: Sign, c: nat, e: int, d: Decimal)
    requires c <= MAX_COEFFICIENT && EXPONENT_MIN <= e < 0 && c % Pow10(Surplus(c)) != 0
    requires d == Parse(Printed(sign, Shortened(c, e).0, Shortened(c, e).1))
    ensures !Denotes(d, sign, c, e)
  {
    hide Pow10, Digits, Shortened, RoundedTo15, Surplus, Parse, TooHigh, EighteenPlaces, Denotes;
    var m, x := ShortenedFraction(c, e);
    SmallPowers();
    ReadBack(sign, m, x, d);
    if IsCut(m, x) {
      OnlyMultiples(d, sign, c, e, Surplus(c), EighteenPlaces(m, x), -18);
    } else {
      OnlyMultiples(d, sign, c, e, Surplus(c), m, x);
    }
  }

  lemma KeptAll(sign: Sign, c: nat, e: int, d: Decimal)
    requires c <= MAX_COEFFICIENT && EXPONENT_MIN <= e < 0 && c % Pow10(Surplus(c)) == 0
    requires d == Parse(Printed(sign, Shortened(c, e).0, Shortened(c, e).1))
    ensures Denotes(d, sign, c, e) <==> !IsCut(Shortened(c, e).0, Shortened(c, e).1)
  {
    hide Pow10, Digits, Shortened, Surplus, RoundedTo15, Parse, IsScientific, TooHigh;
    var m, x := ShortenedFraction(c, e);
    SmallPowers();
    ReadBack(sign, m, x, d);
    NothingLost(c);
    SameValue(RoundedTo15(c), Surplus(c), c, e);
    if IsCut(m, x) {
      CutChanges(m, x);
    }
  }

  lemma SwapFactors(q: int, x: int, y: int)
    ensures q * (x * y) == (q * y) * x
  {
  }

  /** If 10^n divides a * 10^z and z is less than n, then 10 divides a. */
  lemma TenDivides(a: nat, z: nat, c: nat, n: nat)
    requires a * Pow10(z) == c && z < n && c % Pow10(n) == 0
    ensures a % 10 == 0
  {
    var q := c / Pow10(n);
    assert c == q * Pow10(n);
    DivNonnegative(c, Pow10(n));
    PowSplit(n, z);
    SwapFactors(q, Pow10(z), Pow10(n - z));
    CancelRight(a, q * Pow10(n - z), Pow10(z));
    MultipleOfTen(q, n - z);
  }

  /** Seventeen trailing zeros are left out exactly when the coefficient is a digit times 10^17. */
  lemma TopOfRange(c: nat, n: nat)
    requires 0 < c <= MAX_COEFFICIENT && n == 17
    ensures Omitted(c) <= n
    ensures Omitted(c) == n <==> c % Pow10(n) == 0
  {
    var digits := NatText(c);
    TextLength(c);
    OmittedDigits(c);
    var z := Omitted(c);
    var a := Nat(digits[..TrimmedLength(digits, |digits|)]);
    if z == n {
      DivMul(a, Pow10(n));
    } else if c % Pow10(n) == 0 {
      TrailingDigit(c, n);
      TenDivides(a, z, c, n);
    }
  }

  lemma CancelRight(a: int, b: int, p: int)
    requires p > 0 && a * p == b * p
    ensures a == b
  {
    if a < b {
      MulLt(a, b, p);
    } else if b < a {
      MulLt(b, a, p);
    }
  }

  /** A positive multiple of 10^n has more than n digits; with fewer than n zeros omitted, the last left is not zero. */
  lemma TrailingDigit(c: nat, n: nat)
    requires 0 < c && c % Pow10(n) == 0 && Omitted(c) < n
    ensures Nat(NatText(c)[..TrimmedLength(NatText(c), |NatText(c)|)]) % 10 != 0
  {
    var digits := NatText(c);
    var k := TrimmedLength(digits, |digits|);
    NatTextShape(c);
    MultipleIsLong(c, n);
    LastNotZero(digits, |digits|);
    LastDigit(digits, k);
  }

  lemma LastDigit(digits: Text, k: nat)
    requires AllDigits(digits) && 1 <= k <= |digits| && digits[k - 1] != ZERO
    ensures AllDigits(digits[..k]) && Nat(digits[..k]) % 10 != 0
  {
    hide Nat;
    assert digits[..k] == digits[..k - 1] + [digits[k - 1]];
    NatSnoc(digits[..k - 1], digits[k - 1]);
  }

  lemma MultipleIsLong(c: nat, n: nat)
    requires 0 < c && c % Pow10(n) == 0
    ensures Digits(c) > n
  {
    if c < Pow10(n) {
      DivUnique(c, Pow10(n), 0, c);
    }
    DigitsAtMost(c, n);
  }

  lemma {:induction false} LastNotZero(digits: Text, n: nat)
    requires 1 <= n <= |digits|
    ensures var k := TrimmedLength(digits, n);
            k >= 2 ==> digits[k - 1] != ZERO
  {
    if n >= 2 && digits[n - 1] == ZERO {
      LastNotZero(digits, n - 1);
    }
  }

  /** Printing a finite decimal and parsing the text gives back its sign and value exactly when Survives says so. */
  lemma RoundTrip(d: Decimal)
    requires d.IsFinite()
    ensures var r := Parse(Print(d));
            r.IsFinite() && r.sign == d.sign && Value(r) == Value(d) <==> Survives(d.coefficient, d.exponent)
  {
    hide Pow10, Digits;
    var c, e := d.coefficient, d.exponent;
    var r := Parse(Print(d));
    assert Print(d) == Printed(d.sign, Shortened(c, e).0, Shortened(c, e).1);
    assert r.IsFinite() && r.sign == d.sign && Value(r) == Value(d) <==> Denotes(r, d.sign, c, e);
    if e >= 0 {
      ReadBack(d.sign, c, e, r);
      if c > 0 {
        TopOfRange(c, 17);
      }
    } else if c % Pow10(Surplus(c)) != 0 {
      RoundedAway(d.sign, c, e, r);
    } else {
      KeptAll(d.sign, c, e, r);
      NothingLost(c);
      DivUnique(c, Pow10(Surplus(c)), RoundedTo15(c), 0);
    }
  }

  /** Thirteen digits always survive, short of the top of the range. */
  lemma ThirteenDigitsSurvive(d: Decimal)
    requires d.IsFinite() && d.coefficient < Pow10(13) && d.exponent <= 1005
    ensures var r := Parse(Print(d));
            r.IsFinite() && r.sign == d.sign && Value(r) == Value(d)
  {
    RoundTrip(d);
    ThirteenDigits(d.coefficient, d.exponent);
  }

  lemma ThirteenDigits(c: nat, e: int)
    requires c < Pow10(13) && e <= 1005
    ensures Survives(c, e)
  {
    DigitsAtMost(c, 13);
    SmallPowers();
    hide Pow10, Digits;
    DivUnique(c, 1, c, 0);
    if e < 0 {
      var (m, x) := Trimmed(c, e);
      TrimmedMeans(c, e);
      DigitsAtMost(m, 13);
      NatTextShape(m);
    }
  }

  // ----- an input for each way not to survive

  const TOP: Decimal := EncodedData(Positive, ClassNormal, EXPONENT_MAX, 1_00000000000000000)
  const SIXTEEN_DIGITS: Decimal := EncodedData(Positive, ClassNormal, -1, 1_234567890123456)
  const NINETEEN_PLACES: Decimal := EncodedData(Positive, ClassNormal, -19, 12345678901234)

  /** It does not survive: it becomes infinite. */
  lemma TopBecomesInfinite(d: Decimal)
    requires d == TOP
    ensures Parse(Print(d)) == Infinity(Positive)
  {
    hide Parse, Pow10;
    SmallPowers();
    DivUnique(d.coefficient, Pow10(17), 1, 0);
    TopOfRange(d.coefficient, 17);
    ReadBack(Positive, d.coefficient, EXPONENT_MAX, Parse(Print(d)));
  }

  /** It is rounded up to fifteen digits. */
  lemma SixteenthDigitIsRounded(d: Decimal, m: nat)
    requires d == SIXTEEN_DIGITS && m == 123456789012346
    ensures Denotes(Parse(Print(d)), Positive, m, 0) && Value(d) < m * Unit(0)
  {
    hide Parse, Pow10, Shortened, Surplus, Digits;
    SixteenDigitsShortened(d.coefficient, m);
    SmallPowers();
    FourteenZeros();
    DigitsUnique(m, 15);
    NatTextShape(m);
    ReadBack(Positive, m, 0, Parse(Print(d)));
    UnitAdd(-1, 1);
  }

  lemma FourteenZeros()
    ensures Pow10(14) == 1_00000000000000
  {
    SmallPowers();
    assert Pow10(14) == 10 * Pow10(13);
  }

  lemma SixteenDigitsShortened(c: nat, m: nat)
    requires c == 1_234567890123456 && m == 123456789012346
    ensures Shortened(c, -1) == (m, 0)
  {
    SmallPowers();
    hide Pow10, Digits;
    DigitsUnique(c, 16);
  }

  /** It is cut off after eighteen places. */
  lemma LastPlaceIsCut(d: Decimal, a: nat)
    requires d == NINETEEN_PLACES && a == 1234567890123
    ensures Denotes(Parse(Print(d)), Positive, a, -18) && Value(d) > a * Unit(-18)
  {
    hide Parse, Pow10, Digits;
    var c := d.coefficient;
    SmallPowers();
    FourteenZeros();
    DigitsUnique(c, 14);
    DivUnique(c, 1, c, 0);
    assert Shortened(c, -19) == (c, -19);
    NatTextShape(c);
    ReadBack(Positive, c, -19, Parse(Print(d)));
    UnitAdd(-19, 1);
  }
}

/** Decimal::toString: rounding to fifteen digits after the point, and the four layouts. */
module DecimalPrinter {
  import opened PowersOfTen
  import opened Text
  import opened DecimalPrimitives
  import opened DecimalNumber

  /** DBL_DIG. */
  const MAX_DIGITS: int := 15

  const INFINITY_TEXT: Text := [0x49, 0x6E, 0x66, 0x69, 0x6E, 0x69, 0x74, 0x79]
  const NAN_TEXT: Text := [0x4E, 0x61, 0x4E]

  /** How many digits a coefficient has beyond the fifteen that are printed. */
  function Surplus(c: nat): (t: nat) {
    if Digits(c) > MAX_DIGITS then Digits(c) - MAX_DIGITS else 0
  }

  /** The last digit to go decides whether the rest is rounded up. */
  function LastDropped(c: nat, t: nat): (digit: nat) {
    if t == 0 then 0 else (c / Pow10(t - 1)) % 10
  }

  function RoundedTo15(c: nat): (r: nat) {
    var t := Surplus(c);
    DivNonnegative(c, Pow10(t));
    if LastDropped(c, t) >= 5 then c / Pow10(t) + 1 else c / Pow10(t)
  }

  /** Takes trailing zeros off the coefficient while the exponent is negative. */
  function Trimmed(c: nat, e: int): (r: (nat, int))
    decreases c
  {
    if e < 0 && c != 0 && c % 10 == 0 then Trimmed(c / 10, e + 1) else (c, e)
  }

  /** The coefficient and exponent that are printed. */
  function Shortened(c: nat, e: int): (r: (nat, int)) {
    if e < 0 then Trimmed(RoundedTo15(c), e + Surplus(c)) else (c, e)
  }

  /** The length without trailing zeros, but at least one. */
  function TrimmedLength(digits: Text, n: nat): (r: nat)
    requires n <= |digits|
    ensures r <= n && (n >= 1 ==> r >= 1)
  {
    if n >= 2 && digits[n - 1] == ZERO then TrimmedLength(digits, n - 1) else n
  }

  function IntText(n: int): (s: Text) {
    if n < 0 then [MINUS] + NatText(-n) else NatText(n)
  }

  /** The first digit and, after a dot, the others without trailing zeros. */
  function Mantissa(digits: Text): (s: Text)
    requires digits != []
  {
    var n := TrimmedLength(digits, |digits|);
    [digits[0]] + (if n >= 2 then [DOT] + digits[1..n] else [])
  }

  function Scientific(digits: Text, adjusted: int): (s: Text)
    requires digits != []
  {
    Mantissa(digits)
    + (if adjusted != 0 then (if adjusted < 0 then [LOWER_E] else [LOWER_E, PLUS]) + IntText(adjusted) else [])
  }

  /** digits * 10^e: plain, with a dot inside, with zeros after the dot, or with an exponent. */
  function Layout(digits: Text, e: int): (s: Text)
    requires digits != []
  {
    var adjusted := e + |digits| - 1;
    if e <= 0 && adjusted >= -6 then
      if e == 0 then digits
      else if adjusted >= 0 then digits[..adjusted + 1] + [DOT] + digits[adjusted + 1..]
      else [ZERO, DOT] + Zeros(-adjusted - 1) + digits
    else Scientific(digits, adjusted)
  }

  function SignText(sign: Sign): (s: Text) {
    if sign == Negative then [MINUS] else []
  }

  function Print(d: Decimal): (s: Text) {
    match d.formatClass
    case ClassInfinity => SignText(d.sign) + INFINITY_TEXT
    case ClassNaN => NAN_TEXT
    case ClassNormal => SignText(d.sign) + PrintShortened(Shortened(d.coefficient, d.exponent))
    case ClassZero => SignText(d.sign) + PrintShortened(Shortened(d.coefficient, d.exponent))
  }

  function PrintShortened(p: (nat, int)): (s: Text) {
    Layout(NatText(p.0), p.1)
  }

  // ----- the code

  lemma {:induction false} DigitsOfQuotient(c: nat, k: nat)
    requires k <= Digits(c)
    ensures Digits(c / Pow10(k)) == Digits(c) - k
  {
    if k == 0 {
      DivUnique(c, 1, c, 0);
    } else {
      DigitsOfQuotient(c, k - 1);
      DivDiv(c, Pow10(k - 1), 10);
      assert Pow10(k) == Pow10(k - 1) * 10;
    }
  }

  /** The two loops that shorten the digits of a number with a negative exponent. */
  method Shorten(coefficient: uint64, exponent: int) returns (c: uint64, e: int)
    requires exponent < 0 && coefficient <= MAX_COEFFICIENT
    ensures (c, e) == Trimmed(RoundedTo15(coefficient), exponent + Surplus(coefficient))
  {
    c, e := coefficient, exponent;
    var lastDigit := 0;
    ghost var k := 0;
    DivUnique(c, 1, c, 0);
    var n := CountDigits(c);
    while n > MAX_DIGITS
      invariant 0 <= k <= Surplus(coefficient) && n == Digits(c) == Digits(coefficient) - k
      invariant c == coefficient / Pow10(k) && e == exponent + k
      invariant lastDigit == LastDropped(coefficient, k)
      decreases n
    {
      DigitsOfQuotient(coefficient, k + 1);
      DivDiv(coefficient, Pow10(k), 10);
      assert Pow10(k + 1) == Pow10(k) * 10;
      lastDigit := c % 10;
      c := c / 10;
      e := e + 1;
      k := k + 1;
      n := CountDigits(c);
    }
    assert k == Surplus(coefficient);
    if lastDigit >= 5 {
      DigitsAtMost(c, 15);
      SmallPowers();
      c := c + 1;
    }
    assert c == RoundedTo15(coefficient);
    while e < 0 && c != 0 && c % 10 == 0
      invariant Trimmed(c, e) == Trimmed(RoundedTo15(coefficient), exponent + Surplus(coefficient))
      decreases c
    {
      c := c / 10;
      e := e + 1;
    }
  }

  method WriteMantissa(digits: Text) returns (builder: Text)
    requires digits != []
    ensures builder == Mantissa(digits)
  {
    builder := [digits[0]];
    var coefficientLength := |digits|;
    while coefficientLength >= 2 && digits[coefficientLength - 1] == ZERO
      invariant 1 <= coefficientLength <= |digits|
      invariant TrimmedLength(digits, coefficientLength) == TrimmedLength(digits, |digits|)
    {
      coefficientLength := coefficientLength - 1;
    }
    if coefficientLength >= 2 {
      builder := builder + [DOT];
      for i := 1 to coefficientLength
        invariant builder == [digits[0]] + ([DOT] + digits[1..i])
      {
        builder := builder + [digits[i]];
      }
    }
  }

  method WriteScientific(digits: Text, adjusted: int) returns (builder: Text)
    requires digits != []
    ensures builder == Scientific(digits, adjusted)
  {
    builder := WriteMantissa(digits);
    if adjusted != 0 {
      var mark := if adjusted < 0 then [LOWER_E] else [LOWER_E, PLUS];
      Assoc(builder, mark, IntText(adjusted));
      builder := builder + mark;
      builder := builder + IntText(adjusted);
    }
  }

  method WriteLayout(digits: Text, e: int) returns (builder: Text)
    requires digits != []
    ensures builder == Layout(digits, e)
  {
    builder := [];
    var adjusted := e + |digits| - 1;
    if e <= 0 && adjusted >= -6 {
      if e == 0 {
        return digits;
      }
      if adjusted >= 0 {
        for i := 0 to |digits|
          invariant builder == if i <= adjusted then digits[..i]
                               else digits[..adjusted + 1] + [DOT] + digits[adjusted + 1..i]
        {
          builder := builder + [digits[i]];
          if i == adjusted {
            builder := builder + [DOT];
          }
        }
        return;
      }
      builder := [ZERO, DOT];
      for i := adjusted + 1 to 0
        invariant builder == [ZERO, DOT] + Zeros(i - adjusted - 1)
      {
        builder := builder + [ZERO];
      }
      builder := builder + digits;
    } else {
      builder := WriteScientific(digits, adjusted);
    }
  }

  method ToString(d: Decimal) returns (s: Text)
    ensures s == Print(d)
  {
    match d.formatClass {
      case ClassInfinity => return SignText(d.sign) + INFINITY_TEXT;
      case ClassNaN => return NAN_TEXT;
      case ClassNormal =>
      case ClassZero =>
    }
    var originalExponent, coefficient: uint64 := d.exponent, d.coefficient;
    if originalExponent < 0 {
      coefficient, originalExponent := Shorten(coefficient, originalExponent);
    }
    var digits := NatText(coefficient);
    var body := WriteLayout(digits, originalExponent);
    s := SignText(d.sign) + body;
  }
}

/** Which strings fromString accepts, and what number it makes of each of them. */
module ParserCorrectness {
  import opened PowersOfTen
  import opened Text
  import opened DecimalPrimitives
  import opened DecimalNumber
  import opened DecimalParser
  import opened Numerals

  /** Reading a text by absorbing its characters: it is refused, cut short by a huge exponent, or read to the end. */
  datatype Reading = Rejected | Stopped(n: Numeral) | Finished(n: Numeral)

  ghost function ReadFrom(n: Numeral, text: Text): (r: Reading)
    requires n.Partial() && n.ExponentFits()
    ensures r.Stopped? ==> r.n.Partial() && !r.n.ExponentFits()
    ensures r.Finished? ==> r.n.Partial() && r.n.ExponentFits()
    decreases |text|
  {
    if text == [] then Finished(n)
    else
      match Absorb(n, text[0])
      case None => Rejected
      case Some(m) =>
        AbsorbAppends(n, text[0]);
        if m.ExponentFits() then ReadFrom(m, text[1..]) else Stopped(m)
  }

  /** The automaton computes the reading. */
  lemma {:induction false} RunIsReading(n: Numeral, text: Text)
    requires n.Partial() && n.ExponentFits()
    ensures Run(ScanOf(n), text) == match ReadFrom(n, text)
                                    case Rejected => NAN
                                    case Stopped(m) => TooLarge(m)
                                    case Finished(m) => Finish(ScanOf(m))
    decreases |text|
  {
    if text != [] {
      StepSimulates(n, text[0]);
      match Absorb(n, text[0])
      case None =>
      case Some(m) =>
        if m.ExponentFits() {
          RunIsReading(m, text[1..]);
        }
    }
  }

  lemma ParseIsReading(text: Text)
    ensures Parse(text) == match ReadFrom(EMPTY, text)
                           case Rejected => NAN
                           case Stopped(m) => TooLarge(m)
                           case Finished(m) => Finish(ScanOf(m))
  {
    assert EMPTY.Significant() == [];
    assert ScanOf(EMPTY) == START;
    RunIsReading(EMPTY, text);
  }

  /** What is read is what was written. */
  lemma {:induction false} ReadingIsRendering(n: Numeral, text: Text)
    requires n.Partial() && n.ExponentFits()
    ensures var r := ReadFrom(n, text);
            && (r.Finished? ==> Render(r.n) == Render(n) + text)
            && (r.Stopped? ==> Render(r.n) <= Render(n) + text)
    decreases |text|
  {
    if text != [] {
      match Absorb(n, text[0])
      case None =>
      case Some(m) =>
        hide Render, Absorb;
        AbsorbAppends(n, text[0]);
        Assoc(Render(n), [text[0]], text[1..]);
        assert text == [text[0]] + text[1..];
        if m.ExponentFits() {
          ReadingIsRendering(m, text[1..]);
        }
    } else {
      assert Render(n) + text == Render(n);
    }
  }

  lemma {:induction false} ReadAppend(n: Numeral, text: Text, rest: Text)
    requires n.Partial() && n.ExponentFits()
    ensures ReadFrom(n, text + rest) == match ReadFrom(n, text)
                                        case Finished(m) => ReadFrom(m, rest)
                                        case other => other
    decreases |text|
  {
    if text == [] {
      assert text + rest == rest;
    } else {
      assert (text + rest)[0] == text[0] && (text + rest)[1..] == text[1..] + rest;
      match Absorb(n, text[0])
      case None =>
      case Some(m) =>
        AbsorbAppends(n, text[0]);
        if m.ExponentFits() {
          ReadAppend(m, text[1..], rest);
        }
    }
  }

  function DropLast(s: Text): (r: Text)
    requires s != []
  {
    s[..|s| - 1]
  }

  /** The numeral with its last character taken back. */
  function Shorter(m: Numeral): (n: Numeral)
    requires m != EMPTY
  {
    if m.exp.Some? then
      var x := m.exp.value;
      if x.digits != [] then m.(exp := Some(x.(digits := DropLast(x.digits))))
      else if x.mark != NoMark then m.(exp := Some(x.(mark := NoMark)))
      else m.(exp := None)
    else if m.frac.Some? then
      if m.frac.value != [] then m.(frac := Some(DropLast(m.frac.value))) else m.(frac := None)
    else if m.whole != [] then m.(whole := DropLast(m.whole))
    else m.(mark := NoMark)
  }

  function LastChar(m: Numeral): (ch: UChar)
    requires m != EMPTY
  {
    if m.exp.Some? then
      var x := m.exp.value;
      if x.digits != [] then x.digits[|x.digits| - 1]
      else if x.mark != NoMark then MarkText(x.mark)[0]
      else x.letter
    else if m.frac.Some? then
      if m.frac.value != [] then m.frac.value[|m.frac.value| - 1] else DOT
    else if m.whole != [] then m.whole[|m.whole| - 1]
    else MarkText(m.mark)[0]
  }

  lemma ShorterIsInverse(m: Numeral)
    requires m != EMPTY && m.Partial()
    ensures Shorter(m).Partial()
    ensures Absorb(Shorter(m), LastChar(m)) == Some(m)
    ensures m.ExponentFits() ==> Shorter(m).ExponentFits()
    ensures !Shorter(m).ExponentFits() ==> TooLarge(Shorter(m)) == TooLarge(m)
  {
    var n, ch := Shorter(m), LastChar(m);
    if m.exp.Some? {
      var x := m.exp.value;
      if x.digits != [] {
        assert x.digits == DropLast(x.digits) + [ch];
      }
      assert n.Significant() == m.Significant();
    } else if m.frac.Some? {
      if m.frac.value != [] {
        assert m.frac.value == DropLast(m.frac.value) + [ch];
      }
    } else if m.whole != [] {
      assert m.whole == DropLast(m.whole) + [ch];
    }
  }

  lemma ReadLast(text: Text, n: Numeral, ch: UChar, m: Numeral)
    requires n.Partial() && n.ExponentFits() && ReadFrom(EMPTY, text) == Finished(n)
    requires m.Partial() && Absorb(n, ch) == Some(m)
    ensures ReadFrom(EMPTY, text + [ch]) == if m.ExponentFits() then Finished(m) else Stopped(m)
  {
    ReadAppend(EMPTY, text, [ch]);
    assert [ch][1..] == [];
  }

  lemma ShorterRendering(m: Numeral) returns (n: Numeral, ch: UChar)
    requires m != EMPTY && m.Partial()
    ensures n.Partial() && Absorb(n, ch) == Some(m) && Render(m) == Render(n) + [ch]
    ensures m.ExponentFits() ==> n.ExponentFits()
    ensures !n.ExponentFits() ==> TooLarge(n) == TooLarge(m)
  {
    n, ch := Shorter(m), LastChar(m);
    ShorterIsInverse(m);
    AbsorbAppends(n, ch);
  }

  /** What is written is read back. */
  lemma {:induction false} RenderingIsRead(m: Numeral)
    requires m.Partial() && m.ExponentFits()
    ensures ReadFrom(EMPTY, Render(m)) == Finished(m)
    decreases |Render(m)|
  {
    if m == EMPTY {
      assert Render(EMPTY) == [];
    } else {
      var n, ch := ShorterRendering(m);
      RenderingIsRead(n);
      ReadLast(Render(n), n, ch, m);
    }
  }

  lemma StoppedAt(text: Text, n: Numeral, ch: UChar, m: Numeral, rest: Text)
    requires n.Partial() && n.ExponentFits() && ReadFrom(EMPTY, text) == Finished(n)
    requires m.Partial() && Absorb(n, ch) == Some(m) && !m.ExponentFits()
    ensures ReadFrom(EMPTY, text + [ch] + rest) == Stopped(m)
  {
    ReadLast(text, n, ch, m);
    ReadAppend(EMPTY, text + [ch], rest);
  }

  /** When the exponent is huge, reading stops there, whatever follows. */
  lemma {:induction false} HugeExponentStops(m: Numeral, text: Text, rest: Text)
    requires m.Partial() && !m.ExponentFits() && text == Render(m)
    ensures var r := ReadFrom(EMPTY, text + rest);
            r.Stopped? && TooLarge(r.n) == TooLarge(m)
    decreases |text|
  {
    var n, ch := ShorterRendering(m);
    var t := Render(n);
    if n.ExponentFits() {
      RenderingIsRead(n);
      StoppedAt(t, n, ch, m, rest);
    } else {
      HugeExponentStops(n, t, [ch] + rest);
      Assoc(t, [ch], rest);
    }
  }

  /** Accepted texts: a complete numeral, or one with a huge exponent followed by anything. */
  ghost predicate Accepted(text: Text) {
    exists n: Numeral :: n.Complete() && (Render(n) == text || (!n.ExponentFits() && Render(n) <= text))
  }

  lemma FinishIsNaN(n: Numeral)
    requires n.Partial() && n.ExponentFits()
    ensures Finish(ScanOf(n)).IsNaN() <==> !n.Complete()
  {
    ScaledIsNotNaN(ScanOf(n));
  }

  lemma ScaledIsNotNaN(s: Scan)
    requires s.Valid()
    ensures !Scaled(s).IsNaN()
  {
  }

  lemma AcceptedIsNotNaN(n: Numeral, text: Text)
    requires n.Complete() && (Render(n) == text || (!n.ExponentFits() && Render(n) <= text))
    ensures !Parse(text).IsNaN()
  {
    ParseIsReading(text);
    if n.ExponentFits() {
      RenderingIsRead(n);
      FinishIsNaN(n);
    } else {
      var rest := text[|Render(n)|..];
      assert Render(n) + rest == text;
      HugeExponentStops(n, Render(n), rest);
    }
  }

  lemma NotNaNIsAccepted(text: Text) returns (n: Numeral)
    requires !Parse(text).IsNaN()
    ensures n.Complete() && (Render(n) == text || (!n.ExponentFits() && Render(n) <= text))
  {
    ParseIsReading(text);
    ReadingIsRendering(EMPTY, text);
    assert Render(EMPTY) == [] && [] + text == text;
    var r := ReadFrom(EMPTY, text);
    n := r.n;
    if r.Finished? {
      FinishIsNaN(n);
    }
  }

  /** The language of the parser: it answers NaN for exactly the texts that are not accepted. */
  lemma ParserLanguage(text: Text)
    ensures Parse(text).IsNaN() <==> !Accepted(text)
  {
    if !Parse(text).IsNaN() {
      var n := NotNaNIsAccepted(text);
    }
    if Accepted(text) {
      var n: Numeral :| n.Complete() && (Render(n) == text || (!n.ExponentFits() && Render(n) <= text));
      AcceptedIsNotNaN(n, text);
    }
  }

  // ----- what an accepted numeral is taken to mean

  /** The power of ten that goes with the kept digits. */
  ghost function KeptExponent(n: Numeral): (e: int)
    requires n.Partial()
  {
    n.ExponentValue() + |StripZeros(n.whole)| - |n.Kept()|
  }

  /**
    The kept digits are the number on the page, whole and fraction digits times
    10^(exponent - fraction length), cut off toward zero after eighteen digits;
    nothing is cut off when there are at most eighteen.
  */
  lemma KeptIsTruncation(n: Numeral)
    requires n.Partial()
    ensures AllDigits(n.whole + n.Fraction())
    ensures var number, drop := Nat(n.whole + n.Fraction()), |n.Significant()| - |n.Kept()|;
            && drop >= 0 && (|n.Significant()| <= PRECISION ==> drop == 0)
            && KeptExponent(n) == n.ExponentValue() - |n.Fraction()| + drop
            && Nat(n.Kept()) == number / Pow10(drop)
  {
    hide Nat, StripZeros;
    var i, f, k := StripZeros(n.whole), n.Fraction(), n.Kept();
    var sig := n.Significant();
    NatConcat(n.whole, f);
    NatConcat(i, f);
    NatStripZeros(n.whole);
    var rest := sig[|k|..];
    assert sig == k + rest;
    NatConcat(k, rest);
    NatBound(rest);
    DivUnique(Nat(sig), Pow10(|rest|), Nat(k), Nat(rest));
  }

  /** The largest exponent that is used without scaling. */
  const SCALED_EXPONENT: int := EXPONENT_MAX - 1

  /** The decimal has this sign and is accumulator * 10^exponent; values are counted in units of 10^-1023. */
  ghost predicate Denotes(d: Decimal, sign: Sign, accumulator: nat, exponent: int) {
    && d.IsFinite() && d.sign == sign
    && if exponent >= EXPONENT_MIN then Value(d) == Apply(sign, accumulator * Unit(exponent))
       else Value(d) * Pow10(EXPONENT_MIN - exponent) == Apply(sign, accumulator)
  }

  /** When scaling a large exponent down gives the number written: the guard lets it through and nothing wraps. */
  ghost predicate ScalesExactly(accumulator: nat, exponent: int, before: nat)
    requires exponent > SCALED_EXPONENT
  {
    var overflow := exponent - SCALED_EXPONENT;
    overflow + before <= PRECISION && accumulator * Pow10(overflow) < 1_0000000000000000000
  }

  /** What becomes of accumulator * 10^exponent, where before of the digits stood before the dot. */
  ghost predicate Means(d: Decimal, sign: Sign, accumulator: nat, exponent: int, before: nat) {
    if exponent < EXPONENT_MIN then d == Zero(Positive)
    else if exponent <= SCALED_EXPONENT then Denotes(d, sign, accumulator, exponent)
    else
      && (Denotes(d, sign, accumulator, exponent) <==> ScalesExactly(accumulator, exponent, before))
      && (exponent - SCALED_EXPONENT + before > PRECISION ==> d == Infinity(sign))
  }

  /** How many of the kept digits stand before the dot. */
  function Before(n: Numeral): (k: nat) {
    Min(|StripZeros(n.whole)|, PRECISION)
  }

  /** When the kept digits are read as the number they stand for. */
  ghost predicate ReadRight(n: Numeral)
    requires n.Partial()
  {
    var a, e := Nat(n.Kept()), KeptExponent(n);
    if !n.ExponentFits() then a == 0
    else if e < EXPONENT_MIN then a == 0 && n.Sign() == Positive
    else if e <= SCALED_EXPONENT then true
    else ScalesExactly(a, e, Before(n))
  }

  /**
    The value of every complete numeral. The result is the number written, cut off after eighteen digits, with its
    sign, exactly when ReadRight; a huge exponent gives zero or infinity, and one that is too small positive zero.
  */
  lemma ParseMeaning(n: Numeral)
    requires n.Complete()
    ensures Denotes(Parse(Render(n)), n.Sign(), Nat(n.Kept()), KeptExponent(n)) <==> ReadRight(n)
    ensures !n.ExponentFits() ==> Parse(Render(n)) == TooLarge(n)
    ensures n.ExponentFits() ==> Means(Parse(Render(n)), n.Sign(), Nat(n.Kept()), KeptExponent(n), Before(n))
  {
    hide Pow10, Means, Nat, ReadRight, KeptExponent, Denotes;
    ParseIsReading(Render(n));
    if n.ExponentFits() {
      RenderingIsRead(n);
      FinishMeaning(n);
      MeansReadRight(n, Parse(Render(n)));
    } else {
      HugeExponentStops(n, Render(n), []);
      assert Render(n) + [] == Render(n);
      HugeIsReadRight(n);
    }
  }

  lemma ZeroDenotes(sign: Sign, s: Sign, a: nat, e: int)
    ensures Denotes(Zero(s), sign, a, e) <==> s == sign && a == 0
  {
    hide Pow10;
    assert 0 * Unit(0) == 0;
    if e >= EXPONENT_MIN {
      assert a * Unit(e) == 0 <==> a == 0;
    } else {
      assert 0 * Pow10(EXPONENT_MIN - e) == 0;
    }
  }

  lemma MeansReadRight(n: Numeral, d: Decimal)
    requires n.Partial() && n.ExponentFits() && Means(d, n.Sign(), Nat(n.Kept()), KeptExponent(n), Before(n))
    ensures Denotes(d, n.Sign(), Nat(n.Kept()), KeptExponent(n)) <==> ReadRight(n)
  {
    hide Denotes, ScalesExactly, KeptExponent;
    if KeptExponent(n) < EXPONENT_MIN {
      ZeroDenotes(n.Sign(), Positive, Nat(n.Kept()), KeptExponent(n));
    }
  }

  lemma HugeIsReadRight(n: Numeral)
    requires n.Partial() && !n.ExponentFits()
    ensures Denotes(TooLarge(n), n.Sign(), Nat(n.Kept()), KeptExponent(n)) <==> ReadRight(n)
  {
    hide KeptExponent, Pow10;
    ZeroDenotes(n.Sign(), Positive, Nat(n.Kept()), KeptExponent(n));
    ZeroDenotes(n.Sign(), n.Sign(), Nat(n.Kept()), KeptExponent(n));
  }

  lemma CountersMean(n: Numeral)
    requires n.Partial() && n.ExponentFits()
    ensures var s := ScanOf(n);
            && ResultExponent(s) == KeptExponent(n) && s.accumulator == Nat(n.Kept()) && s.sign == n.Sign()
            && s.numberOfDigits - s.numberOfDigitsAfterDot == Before(n)
  {
  }

  lemma ScanIsBounded(n: Numeral)
    requires n.Partial() && n.ExponentFits()
    ensures var s := ScanOf(n);
            && s.numberOfDigits + s.numberOfExtraDigits <= |Render(n)|
            && -LARGEST_EXPONENT - PRECISION <= ResultExponent(s) <= LARGEST_EXPONENT + |Render(n)|
  {
    hide Nat, Pow10, StripZeros;
    StripZerosShape(n.whole);
  }

  /** Whatever has been read, its length bounds the counters and the exponent computed from them. */
  lemma CountersFit(text: Text)
    ensures var r := ReadFrom(EMPTY, text);
            r.Finished? ==>
              var s := ScanOf(r.n);
              && s.numberOfDigits + s.numberOfExtraDigits <= |text|
              && -LARGEST_EXPONENT - PRECISION <= ResultExponent(s) <= LARGEST_EXPONENT + |text|
  {
    hide ScanOf, ReadFrom, ResultExponent;
    ReadingIsRendering(EMPTY, text);
    assert Render(EMPTY) == [] && [] + text == text;
    var r := ReadFrom(EMPTY, text);
    if r.Finished? {
      ScanIsBounded(r.n);
    }
  }

  lemma ZeroMeansZero(sign: Sign)
    ensures Means(Zero(sign), sign, 0, 0, 0)
  {
    assert 0 * Unit(0) == 0;
  }

  lemma FinishMeaning(n: Numeral)
    requires n.Complete() && n.ExponentFits()
    ensures Means(Finish(ScanOf(n)), n.Sign(), Nat(n.Kept()), KeptExponent(n), Before(n))
  {
    hide Means, Scaled, Nat, Pow10;
    var s := ScanOf(n);
    CountersMean(n);
    if s.state == StateZero {
      assert n.Significant() == [] && n.Kept() == [];
      NatOfZeros([]);
      ZeroMeansZero(n.Sign());
    } else {
      ScaledMeaning(s);
    }
  }

  /** The final scaling, on a configuration. */
  lemma ScaledMeaning(s: Scan)
    requires s.Valid()
    ensures Means(Scaled(s), s.sign, s.accumulator, ResultExponent(s), s.numberOfDigits - s.numberOfDigitsAfterDot)
  {
    hide Pow10, Digits;
    AccumulatorFits(s);
    var e := ResultExponent(s);
    if EXPONENT_MIN <= e <= SCALED_EXPONENT {
      EncodeError(s.sign, e, s.accumulator);
      ExcessIsLeast(s.accumulator);
    } else if e > SCALED_EXPONENT {
      ScaledDown(s.sign, s.accumulator, e);
    }
  }

  /** The overflow branch, on plain numbers: wrapping, or a second dropped digit, never gives the right value. */
  lemma ScaledDown(sign: Sign, a: nat, e: int)
    requires a <= MAX_COEFFICIENT && e > SCALED_EXPONENT
    ensures var x := a * Pow10(e - SCALED_EXPONENT);
            Denotes(Encode(sign, SCALED_EXPONENT, Wrap(x)), sign, a, e) <==> x < 1_0000000000000000000
  {
    var overflow := e - SCALED_EXPONENT;
    var x := a * Pow10(overflow);
    UnitAdd(SCALED_EXPONENT, overflow);
    MulAssoc(a, Pow10(overflow), Unit(SCALED_EXPONENT));
    MultipleOfTen(a, overflow);
    if x < TWO_64 {
      EncodedAtLargest(sign, x);
    } else {
      WrappedIsWrong(sign, x);
    }
  }

  lemma EncodedAtLargest(sign: Sign, x: uint64)
    requires x % 10 == 0
    ensures var d := Encode(sign, SCALED_EXPONENT, x);
            Denotes(d, sign, x, SCALED_EXPONENT) <==> x < 1_0000000000000000000
  {
    EncodeError(sign, SCALED_EXPONENT, x);
    ExcessIsLeast(x);
    SmallPowers();
    DigitsAtMost(x, 18);
    DigitsAtMost(x, 19);
    if Excess(x) == 1 {
      UnitAdd(SCALED_EXPONENT, 1);
      CutOff(x, 10, Unit(SCALED_EXPONENT));
    }
  }

  lemma WrappedIsWrong(sign: Sign, x: int)
    requires x >= TWO_64
    ensures !Denotes(Encode(sign, SCALED_EXPONENT, Wrap(x)), sign, x, SCALED_EXPONENT)
  {
    EncodeError(sign, SCALED_EXPONENT, Wrap(x));
    MulLt(Wrap(x), x, Unit(SCALED_EXPONENT));
  }

  lemma MultipleOfTen(a: nat, n: nat)
    requires n > 0
    ensures (a * Pow10(n)) % 10 == 0
  {
    assert a * Pow10(n) == (a * Pow10(n - 1)) * 10;
    DivMul(a * Pow10(n - 1), 10);
  }
}

/** Texts on which fromString does something its header or its purpose does not suggest. */
module ParserExamples {
  import opened PowersOfTen
  import opened Text
  import opened DecimalPrimitives
  import opened DecimalNumber
  import opened DecimalParser
  import opened DecimalPrinter
  import opened Numerals
  import opened ParserCorrectness

  lemma Advance(s: Scan, ch: UChar, rest: Text)
    requires s.Valid() && Step(s, ch).Continue?
    ensures Run(s, [ch] + rest) == Run(Step(s, ch).scan, rest)
  {
    assert ([ch] + rest)[0] == ch && ([ch] + rest)[1..] == rest;
  }

  lemma Refuse(s: Scan, ch: UChar, rest: Text)
    requires s.Valid() && Step(s, ch) == Return(NAN)
    ensures Run(s, [ch] + rest) == NAN
  {
    assert ([ch] + rest)[0] == ch;
  }

  /** As the header says, infinities and NaN are printed but not read. */
  lemma SpecialsAreNotRead(d: Decimal)
    requires !d.IsFinite()
    ensures Parse(Print(d)).IsNaN()
  {
    hide Run;
    var i := INFINITY_TEXT;
    if d.IsNaN() {
      assert Print(d) == [NAN_TEXT[0]] + NAN_TEXT[1..];
      Refuse(START, NAN_TEXT[0], NAN_TEXT[1..]);
    } else if d.sign == Positive {
      assert Print(d) == [i[0]] + i[1..];
      Refuse(START, i[0], i[1..]);
    } else {
      assert Print(d) == [MINUS] + ([i[0]] + i[1..]);
      Advance(START, MINUS, [i[0]] + i[1..]);
      Refuse(Step(START, MINUS).scan, i[0], i[1..]);
    }
  }

  /**
    The grammar in Decimal.h allows "1." and "+.5" and forbids ".e5"; the automaton does the opposite,
    for every digit in these places.
  */
  lemma NotTheDocumentedGrammar(d: UChar)
    requires IsDigit(d)
    ensures Parse([d, DOT]).IsNaN()
    ensures Parse([PLUS, DOT, d]).IsNaN()
    ensures Parse([DOT, LOWER_E, d]).IsFinite() && Parse([DOT, LOWER_E, d]).coefficient == 0
  {
    DigitThenDot(d);
    SignThenDot(d);
    DotThenExponent(d);
  }

  lemma DigitThenDot(d: UChar)
    requires IsDigit(d)
    ensures Parse([d, DOT]).IsNaN()
  {
    assert [d, DOT] == [d] + ([DOT] + []);
    Advance(START, d, [DOT] + []);
    Advance(Step(START, d).scan, DOT, []);
  }

  lemma SignThenDot(d: UChar)
    requires IsDigit(d)
    ensures Parse([PLUS, DOT, d]).IsNaN()
  {
    assert [PLUS, DOT, d] == [PLUS] + ([DOT] + [d]);
    Advance(START, PLUS, [DOT] + [d]);
    Refuse(Step(START, PLUS).scan, DOT, [d]);
  }

  lemma DotThenExponent(d: UChar)
    requires IsDigit(d)
    ensures Parse([DOT, LOWER_E, d]).IsFinite() && Parse([DOT, LOWER_E, d]).coefficient == 0
  {
    assert [DOT, LOWER_E, d] == [DOT] + ([LOWER_E] + ([d] + []));
    Advance(START, DOT, [LOWER_E] + ([d] + []));
    var dot := Step(START, DOT).scan;
    Advance(dot, LOWER_E, [d] + []);
    var e := Step(dot, LOWER_E).scan;
    Advance(e, d, []);
  }

  /** Digits of an exponent that stays within the limit. */
  lemma ExponentDigit(s: Scan, n: nat, rest: Text)
    requires s.Valid() && s.state == StateEDigit && n < 10 && s.exponent * 10 + n <= LARGEST_EXPONENT
    ensures s.(exponent := s.exponent * 10 + n).Valid()
    ensures Run(s, [ZERO + n] + rest) == Run(s.(exponent := s.exponent * 10 + n), rest)
  {
    Advance(s, ZERO + n, rest);
  }

  lemma RunEnds(s: Scan)
    requires s.Valid()
    ensures Run(s, []) == Finish(s)
  {
  }

  /** What is left after the mantissa, for the exponent 1040 + n. */
  lemma LargeExponent(s: Scan, n: nat)
    requires s.Valid() && s.state in {StateDigit, StateDotDigit} && s.exponent == 0 && n < 2
    ensures var t := s.(state := StateEDigit, exponent := 1040 + n);
            t.Valid() && Run(s, [LOWER_E, ZERO + 1, ZERO, ZERO + 4, ZERO + n]) == Finish(t)
  {
    hide Run, Finish, Pow10;
    var e := s.(state := StateE);
    var one := s.(state := StateEDigit, exponent := 1);
    assert [LOWER_E, ZERO + 1, ZERO, ZERO + 4, ZERO + n]
        == [LOWER_E] + ([ZERO + 1] + ([ZERO] + ([ZERO + 4] + ([ZERO + n] + []))));
    Advance(s, LOWER_E, [ZERO + 1] + ([ZERO] + ([ZERO + 4] + ([ZERO + n] + []))));
    Advance(e, ZERO + 1, [ZERO] + ([ZERO + 4] + ([ZERO + n] + [])));
    ExponentDigit(one, 0, [ZERO + 4] + ([ZERO + n] + []));
    ExponentDigit(one.(exponent := 10), 4, [ZERO + n] + []);
    ExponentDigit(one.(exponent := 104), n, []);
    RunEnds(one.(exponent := 1040 + n));
  }

  /** "1e1040" is 10^17 times 10^1023 and could be represented; it becomes infinity. */
  lemma RepresentableBecomesInfinity()
    ensures Parse([ZERO + 1, LOWER_E, ZERO + 1, ZERO, ZERO + 4, ZERO]) == Infinity(Positive)
  {
    var rest := [LOWER_E, ZERO + 1, ZERO, ZERO + 4, ZERO];
    assert [ZERO + 1, LOWER_E, ZERO + 1, ZERO, ZERO + 4, ZERO] == [ZERO + 1] + rest;
    Advance(START, ZERO + 1, rest);
    LargeExponent(Step(START, ZERO + 1).scan, 0);
  }

  const TWO_HUNDREDTHS: Scan := Scan(StateDotDigit, Positive, 200, 3, 2, 0, Positive, 0)

  lemma TwoPointZeroZero(rest: Text)
    ensures TWO_HUNDREDTHS.Valid()
    ensures Run(START, [ZERO + 2] + ([DOT] + ([ZERO] + ([ZERO] + rest)))) == Run(TWO_HUNDREDTHS, rest)
  {
    hide Run;
    SmallPowers();
    assert Pow10(3) == 1000;
    Advance(START, ZERO + 2, [DOT] + ([ZERO] + ([ZERO] + rest)));
    var two := Step(START, ZERO + 2).scan;
    Advance(two, DOT, [ZERO] + ([ZERO] + rest));
    var dot := Step(two, DOT).scan;
    Advance(dot, ZERO, [ZERO] + rest);
    Advance(Step(dot, ZERO).scan, ZERO, rest);
  }

  lemma WrappedIsFinite(s: Scan)
    requires s == TWO_HUNDREDTHS.(state := StateEDigit, exponent := 1041) && s.Valid()
    ensures Finish(s).IsFinite()
  {
    SmallPowers();
    ExcessIsLeast(Wrap(200 * Pow10(17)));
  }

  /** "2.00e1041" is beyond every decimal; the scaled accumulator wraps around, and the result is finite. */
  lemma TooLargeBecomesFinite()
    ensures Parse([ZERO + 2, DOT, ZERO, ZERO, LOWER_E, ZERO + 1, ZERO, ZERO + 4, ZERO + 1]).IsFinite()
  {
    hide Run, Finish;
    var rest := [LOWER_E, ZERO + 1, ZERO, ZERO + 4, ZERO + 1];
    assert [ZERO + 2, DOT, ZERO, ZERO, LOWER_E, ZERO + 1, ZERO, ZERO + 4, ZERO + 1]
        == [ZERO + 2] + ([DOT] + ([ZERO] + ([ZERO] + rest)));
    TwoPointZeroZero(rest);
    LargeExponent(TWO_HUNDREDTHS, 1);
    WrappedIsFinite(TWO_HUNDREDTHS.(state := StateEDigit, exponent := 1041));
  }

  const EXPONENT_1024: Text := [ZERO + 1, ZERO, ZERO + 2, ZERO + 4]
  const EXPONENT_1042: Text := [ZERO + 1, ZERO, ZERO + 4, ZERO + 2]

  lemma OneMoreDigit(s: Text, n: nat, d: nat, t: Text)
    requires AllDigits(s) && Nat(s) == n && d <= 9 && t == s + [ZERO + d]
    ensures AllDigits(t) && Nat(t) == 10 * n + d
  {
    NatSnoc(s, ZERO + d);
  }

  lemma NatOfFour(a: nat, b: nat, c: nat, d: nat)
    requires a <= 9 && b <= 9 && c <= 9 && d <= 9
    ensures Nat([ZERO + a, ZERO + b, ZERO + c, ZERO + d]) == 1000 * a + 100 * b + 10 * c + d
  {
    hide Nat;
    var one, two, three := [ZERO + a], [ZERO + a, ZERO + b], [ZERO + a, ZERO + b, ZERO + c];
    assert Nat([]) == 0 by { NatOfZeros([]); }
    OneMoreDigit([], 0, a, one);
    OneMoreDigit(one, a, b, two);
    OneMoreDigit(two, 10 * a + b, c, three);
    OneMoreDigit(three, 100 * a + 10 * b + c, d, three + [ZERO + d]);
    assert three + [ZERO + d] == [ZERO + a, ZERO + b, ZERO + c, ZERO + d];
  }

  const TINY_TIMES_HUGE: Numeral :=
    Numeral(NoMark, [ZERO], Some(Zeros(17) + [ZERO + 1]), Some(Exponent(LOWER_E, NoMark, EXPONENT_1042)))

  lemma TinyTimesHuge()
    ensures var n := TINY_TIMES_HUGE;
            n.Complete() && Nat(n.Kept()) == 1 && KeptExponent(n) == 1024 && Before(n) == 0 && !n.ExponentFits()
  {
    hide Nat;
    var n := TINY_TIMES_HUGE;
    NatOfFour(1, 0, 4, 2);
    assert StripZeros([ZERO]) == [];
    assert n.Significant() == n.Fraction() == n.Kept();
    NatOfZeros(Zeros(17));
    NatSnoc(Zeros(17), ZERO + 1);
  }

  /** "0.000000000000000001e1042" is 10^1024, which 10 times 10^1023 represents; it becomes infinity. */
  lemma HugeExponentBecomesInfinity()
    ensures var n := TINY_TIMES_HUGE;
            && n.Complete() && Nat(n.Kept()) == 1 && KeptExponent(n) == 1024 && ScalesExactly(1, 1024, Before(n))
            && Denotes(Encode(Positive, 1023, 10), Positive, 1, 1024) && Parse(Render(n)) == Infinity(Positive)
  {
    hide Parse, Nat, KeptExponent, Before;
    var n := TINY_TIMES_HUGE;
    TinyTimesHuge();
    SmallPowers();
    UnitAdd(1023, 1);
    EncodeError(Positive, 1023, 10);
    ParseMeaning(n);
  }

  const NEXT_TO_ZERO: Numeral :=
    Numeral(MinusMark, [ZERO + 1, ZERO], None, Some(Exponent(LOWER_E, MinusMark, EXPONENT_1024)))

  lemma NextToZero()
    ensures var n := NEXT_TO_ZERO;
            n.Complete() && Nat(n.Kept()) == 10 && KeptExponent(n) == -1024 && n.ExponentFits()
  {
    hide Nat;
    var n := NEXT_TO_ZERO;
    NatOfFour(1, 0, 2, 4);
    assert StripZeros(n.whole) == n.whole;
    assert n.Significant() == n.whole == n.Kept();
    assert Nat([]) == 0 by { NatOfZeros([]); }
    OneMoreDigit([], 0, 1, [ZERO + 1]);
    OneMoreDigit([ZERO + 1], 1, 0, n.whole);
  }

  /** "-10e-1024" is -10^-1023, the negative decimal next to zero; it becomes positive zero. */
  lemma SmallExponentLosesItsSign()
    ensures var n := NEXT_TO_ZERO;
            && n.Complete() && Nat(n.Kept()) == 10 && KeptExponent(n) == -1024
            && Denotes(Encode(Negative, -1023, 1), Negative, 10, -1024) && Parse(Render(n)) == Zero(Positive)
  {
    hide Parse, Nat, KeptExponent, Before;
    NextToZero();
    SmallPowers();
    EncodeError(Negative, -1023, 1);
    ParseMeaning(NEXT_TO_ZERO);
  }
}

/**
  The notation fromString reads, described without automaton or counters, and
  the proof that the automaton reads exactly this notation: each of its
  configurations is a function of the part of a numeral read so far.
*/
module Numerals {
  import opened Text
  import opened DecimalPrimitives
  import opened DecimalNumber
  import opened DecimalParser

  datatype Mark = NoMark | PlusMark | MinusMark

  datatype Exponent = Exponent(letter: UChar, mark: Mark, digits: Text)

  datatype Numeral = Numeral(mark: Mark, whole: Text, frac: Option<Text>, exp: Option<Exponent>) {
    /** What can be completed to a numeral: a digit must follow a sign, a digit or a dot precede an exponent. */
    predicate Partial() {
      && AllDigits(whole)
      && (frac.Some? ==> AllDigits(frac.value))
      && (whole == [] && frac.Some? ==> mark == NoMark)
      && (exp.Some? ==> AllDigits(exp.value.digits) && IsE(exp.value.letter) && (whole != [] || frac.Some?))
    }

    /** A final dot needs a digit after it, unless an exponent follows. */
    predicate Complete() {
      && Partial()
      && (exp.Some? ==> exp.value.digits != [])
      && (exp.None? ==> if frac.Some? then frac.value != [] else whole != [])
    }

    function Fraction(): (s: Text) {
      if frac.Some? then frac.value else []
    }

    function Sign(): (s: DecimalNumber.Sign) {
      if mark == MinusMark then Negative else Positive
    }

    function ExponentSign(): (s: DecimalNumber.Sign) {
      if exp.Some? && exp.value.mark == MinusMark then Negative else Positive
    }

    function ExponentMagnitude(): (n: nat)
      requires Partial()
    {
      if exp.Some? then Nat(exp.value.digits) else 0
    }

    function ExponentValue(): (n: int)
      requires Partial()
    {
      if ExponentSign() == Negative then 0 - ExponentMagnitude() else ExponentMagnitude()
    }

    predicate ExponentFits()
      requires Partial()
    {
      ExponentMagnitude() <= LARGEST_EXPONENT
    }

    /** The digits that count: from the first nonzero one before the dot, and all after it. */
    function Significant(): (s: Text)
      requires Partial()
      ensures AllDigits(s)
    {
      StripZeros(whole) + Fraction()
    }

    /** Of those, the eighteen that are kept. */
    function Kept(): (s: Text)
      requires Partial()
      ensures AllDigits(s) && |s| <= PRECISION
    {
      Take(Significant())
    }

    function Phase(): (s: State) {
      if exp.Some? then
        if exp.value.digits != [] then StateEDigit else if exp.value.mark != NoMark then StateESign else StateE
      else if frac.Some? then
        if frac.value != [] then StateDotDigit else StateDot
      else if whole == [] then
        if mark == NoMark then StateStart else StateSign
      else
        if StripZeros(whole) == [] then StateZero else StateDigit
    }
  }

  function Take(s: Text): (r: Text)
    ensures |r| <= PRECISION && r <= s
    ensures AllDigits(s) ==> AllDigits(r)
  {
    if |s| <= PRECISION then s else s[..PRECISION]
  }

  const EMPTY: Numeral := Numeral(NoMark, [], None, None)

  function MarkText(mark: Mark): (s: Text) {
    match mark
    case NoMark => []
    case PlusMark => [PLUS]
    case MinusMark => [MINUS]
  }

  function ExponentText(exp: Option<Exponent>): (s: Text) {
    if exp.None? then [] else [exp.value.letter] + MarkText(exp.value.mark) + exp.value.digits
  }

  function FractionText(frac: Option<Text>): (s: Text) {
    if frac.None? then [] else [DOT] + frac.value
  }

  function Render(n: Numeral): (s: Text) {
    MarkText(n.mark) + n.whole + FractionText(n.frac) + ExponentText(n.exp)
  }

  /** The numeral with one more character, if there is one. */
  function Absorb(n: Numeral, ch: UChar): (r: Option<Numeral>) {
    if n.exp.Some? then
      var x := n.exp.value;
      if IsDigit(ch) then Some(n.(exp := Some(x.(digits := x.digits + [ch]))))
      else if x.digits == [] && x.mark == NoMark && ch == PLUS then Some(n.(exp := Some(x.(mark := PlusMark))))
      else if x.digits == [] && x.mark == NoMark && ch == MINUS then Some(n.(exp := Some(x.(mark := MinusMark))))
      else None
    else if IsE(ch) && (n.whole != [] || n.frac.Some?) then Some(n.(exp := Some(Exponent(ch, NoMark, []))))
    else if n.frac.Some? then
      if IsDigit(ch) then Some(n.(frac := Some(n.frac.value + [ch]))) else None
    else if IsDigit(ch) then Some(n.(whole := n.whole + [ch]))
    else if ch == DOT && (n.whole != [] || n.mark == NoMark) then Some(n.(frac := Some([])))
    else if n.whole == [] && n.mark == NoMark && ch == PLUS then Some(n.(mark := PlusMark))
    else if n.whole == [] && n.mark == NoMark && ch == MINUS then Some(n.(mark := MinusMark))
    else None
  }

  lemma NothingAfter(s: Text)
    ensures s + [] == s
  {
  }

  lemma ExponentAppends(n: Numeral, m: Numeral, ch: UChar)
    requires n.Partial() && Absorb(n, ch) == Some(m) && m.exp != n.exp
    ensures ExponentText(m.exp) == ExponentText(n.exp) + [ch]
  {
    if n.exp.Some? {
      var x := n.exp.value;
      if m.exp.value.digits != x.digits {
        Assoc([x.letter] + MarkText(x.mark), x.digits, [ch]);
      } else {
        assert x.digits == [] && MarkText(x.mark) == [] && MarkText(m.exp.value.mark) == [ch];
      }
    }
  }

  lemma AbsorbAppends(n: Numeral, ch: UChar)
    requires n.Partial() && Absorb(n, ch).Some?
    ensures Absorb(n, ch).value.Partial()
    ensures Render(Absorb(n, ch).value) == Render(n) + [ch]
  {
    var m := Absorb(n, ch).value;
    var a, w, f, x := MarkText(n.mark), n.whole, FractionText(n.frac), ExponentText(n.exp);
    if m.exp != n.exp {
      hide ExponentText;
      ExponentAppends(n, m, ch);
      Assoc(a + w + f, x, [ch]);
    } else {
      NothingAfter(a + w + f);
      NothingAfter(a + w + f + [ch]);
      if m.frac != n.frac {
        assert FractionText(m.frac) == f + [ch];
        Assoc(a + w, f, [ch]);
      } else {
        NothingAfter(a + w);
        NothingAfter(a + w + [ch]);
        if m.whole != w {
          Assoc(a, w, [ch]);
        } else {
          NothingAfter(a);
          NothingAfter(a + [ch]);
          assert MarkText(m.mark) == a + [ch];
        }
      }
    }
  }

  // ----- the configuration of the automaton, as a function of the numeral read so far

  function Min(a: nat, b: nat): (r: nat) { if a <= b then a else b }

  /** The configuration after the digits sig, of which the first i stood before the dot. */
  function Configuration(state: State, sign: Sign, sig: Text, i: nat, exponentSign: Sign, exponent: nat): (s: Scan)
    requires AllDigits(sig) && i <= |sig| && exponent <= LARGEST_EXPONENT
    requires state in {StateStart, StateSign, StateZero} ==> sig == []
    ensures s.Valid()
  {
    NatBound(Take(sig));
    var k := |Take(sig)|;
    Scan(state, sign, Nat(Take(sig)), k, k - Min(i, PRECISION), i - Min(i, PRECISION), exponentSign, exponent)
  }

  function ScanOf(n: Numeral): (s: Scan)
    requires n.Partial() && n.ExponentFits()
    ensures s.Valid()
  {
    Configuration(n.Phase(), n.Sign(), n.Significant(), |StripZeros(n.whole)|, n.ExponentSign(), n.ExponentMagnitude())
  }

  lemma TakeSnoc(s: Text, ch: UChar)
    requires AllDigits(s) && IsDigit(ch)
    ensures AllDigits(s + [ch])
    ensures Take(s + [ch]) == if |s| < PRECISION then Take(s) + [ch] else Take(s)
    ensures |s| < PRECISION ==> Nat(Take(s + [ch])) == 10 * Nat(Take(s)) + DigitOf(ch)
  {
    NatSnoc(s, ch);
  }

  lemma DigitBeforeDot(sign: Sign, sig: Text, exponentSign: Sign, exponent: nat, ch: UChar)
    requires AllDigits(sig) && exponent <= LARGEST_EXPONENT && IsDigit(ch)
    ensures AllDigits(sig + [ch])
    ensures Step(Configuration(StateDigit, sign, sig, |sig|, exponentSign, exponent), ch)
         == Continue(Configuration(StateDigit, sign, sig + [ch], |sig| + 1, exponentSign, exponent))
  {
    TakeSnoc(sig, ch);
  }

  lemma FirstDigit(state: State, sign: Sign, exponentSign: Sign, exponent: nat, ch: UChar)
    requires state in {StateStart, StateSign, StateZero} && exponent <= LARGEST_EXPONENT && IsDigit(ch)
    ensures Step(Configuration(state, sign, [], 0, exponentSign, exponent), ch)
         == Continue(if ch == ZERO then Configuration(StateZero, sign, [], 0, exponentSign, exponent)
                     else Configuration(StateDigit, sign, [ch], 1, exponentSign, exponent))
  {
    NatSnoc([], ch);
    assert [] + [ch] == [ch];
  }

  lemma DigitAfterDot(state: State, sign: Sign, sig: Text, i: nat, exponentSign: Sign, exponent: nat, ch: UChar)
    requires state in {StateDot, StateDotDigit}
    requires AllDigits(sig) && i <= |sig| && exponent <= LARGEST_EXPONENT && IsDigit(ch)
    ensures AllDigits(sig + [ch])
    ensures Step(Configuration(state, sign, sig, i, exponentSign, exponent), ch)
         == Continue(Configuration(StateDotDigit, sign, sig + [ch], i, exponentSign, exponent))
  {
    TakeSnoc(sig, ch);
  }

  lemma DigitOfExponent(state: State, sign: Sign, sig: Text, i: nat, exponentSign: Sign, exponent: nat, ch: UChar)
    requires state == StateEDigit || (state in {StateE, StateESign} && exponent == 0)
    requires AllDigits(sig) && i <= |sig| && exponent <= LARGEST_EXPONENT && IsDigit(ch)
    ensures Step(Configuration(state, sign, sig, i, exponentSign, exponent), ch)
         == if 10 * exponent + DigitOf(ch) <= LARGEST_EXPONENT
            then Continue(Configuration(StateEDigit, sign, sig, i, exponentSign, 10 * exponent + DigitOf(ch)))
            else Return(HugeExponent(sign, Nat(Take(sig)), exponentSign))
  {
  }

  lemma WholeSnoc(n: Numeral, ch: UChar)
    requires n.Partial() && n.exp.None? && n.frac.None? && IsDigit(ch)
    ensures var m, i := n.(whole := n.whole + [ch]), StripZeros(n.whole);
            && m.Partial() && n.Significant() == i && m.Significant() == StripZeros(m.whole)
            && StripZeros(m.whole) == (if i == [] && ch == ZERO then [] else i + [ch])
  {
    NatSnoc(n.whole, ch);
    StripZerosSnoc(n.whole, ch);
  }

  lemma StepInteger(n: Numeral, ch: UChar)
    requires n.Partial() && n.exp.None? && n.frac.None? && IsDigit(ch)
    ensures var m := n.(whole := n.whole + [ch]);
            m.Partial() && Step(ScanOf(n), ch) == Continue(ScanOf(m))
  {
    hide Nat, StripZeros;
    WholeSnoc(n, ch);
    var i := StripZeros(n.whole);
    if i == [] {
      FirstDigit(n.Phase(), n.Sign(), Positive, 0, ch);
      assert i + [ch] == [ch];
    } else {
      DigitBeforeDot(n.Sign(), i, Positive, 0, ch);
    }
  }

  lemma StepFraction(n: Numeral, ch: UChar)
    requires n.Partial() && n.exp.None? && n.frac.Some? && IsDigit(ch)
    ensures var m := n.(frac := Some(n.frac.value + [ch]));
            m.Partial() && Step(ScanOf(n), ch) == Continue(ScanOf(m))
  {
    var m := n.(frac := Some(n.frac.value + [ch]));
    assert m.Significant() == n.Significant() + [ch];
    DigitAfterDot(n.Phase(), n.Sign(), n.Significant(), |StripZeros(n.whole)|, Positive, 0, ch);
  }

  lemma StepExponent(n: Numeral, ch: UChar)
    requires n.Partial() && n.ExponentFits() && n.exp.Some? && IsDigit(ch)
    ensures var m := n.(exp := Some(n.exp.value.(digits := n.exp.value.digits + [ch])));
            && m.Partial()
            && Step(ScanOf(n), ch) == if m.ExponentFits() then Continue(ScanOf(m)) else Return(TooLarge(m))
  {
    var m := n.(exp := Some(n.exp.value.(digits := n.exp.value.digits + [ch])));
    NatSnoc(n.exp.value.digits, ch);
    assert m.Significant() == n.Significant();
    DigitOfExponent(n.Phase(), n.Sign(), n.Significant(), |StripZeros(n.whole)|,
                    n.ExponentSign(), n.ExponentMagnitude(), ch);
  }

  /** The answer for a numeral whose exponent is beyond the largest. */
  function TooLarge(n: Numeral): (d: Decimal)
    requires n.Partial()
  {
    HugeExponent(n.Sign(), Nat(n.Kept()), n.ExponentSign())
  }

  /** What anything but a digit does to the state and the two signs; nothing else changes. */
  function NonDigit(state: State, sign: Sign, exponentSign: Sign, ch: UChar): (r: Option<(State, Sign, Sign)>) {
    if ch == DOT && state in {StateStart, StateZero, StateDigit} then Some((StateDot, sign, exponentSign))
    else if IsE(ch) && state in {StateZero, StateDigit, StateDot, StateDotDigit} then Some((StateE, sign, exponentSign))
    else if ch == MINUS && state == StateStart then Some((StateSign, Negative, exponentSign))
    else if ch == PLUS && state == StateStart then Some((StateSign, Positive, exponentSign))
    else if ch == MINUS && state == StateE then Some((StateESign, sign, Negative))
    else if ch == PLUS && state == StateE then Some((StateESign, sign, Positive))
    else None
  }

  lemma StepNonDigit(s: Scan, ch: UChar)
    requires s.Valid() && !IsDigit(ch)
    ensures Step(s, ch) == match NonDigit(s.state, s.sign, s.exponentSign, ch)
                           case None => Return(NAN)
                           case Some((p, sign, e)) => Continue(s.(state := p, sign := sign, exponentSign := e))
  {
  }

  lemma AbsorbNonDigit(n: Numeral, ch: UChar)
    requires n.Partial() && !IsDigit(ch)
    ensures match Absorb(n, ch)
            case None => NonDigit(n.Phase(), n.Sign(), n.ExponentSign(), ch) == None
            case Some(m) =>
              && m.Partial() && m.whole == n.whole && m.Fraction() == n.Fraction()
              && m.ExponentMagnitude() == n.ExponentMagnitude()
              && NonDigit(n.Phase(), n.Sign(), n.ExponentSign(), ch) == Some((m.Phase(), m.Sign(), m.ExponentSign()))
  {
  }

  /** The counters depend on the digits alone. */
  lemma SameDigits(n: Numeral, m: Numeral)
    requires n.Partial() && m.Partial() && n.ExponentFits()
    requires n.whole == m.whole && n.Fraction() == m.Fraction() && n.ExponentMagnitude() == m.ExponentMagnitude()
    ensures ScanOf(m) == ScanOf(n).(state := m.Phase(), sign := m.Sign(), exponentSign := m.ExponentSign())
  {
    assert n.Significant() == m.Significant();
  }

  lemma StepOther(n: Numeral, ch: UChar)
    requires n.Partial() && n.ExponentFits() && !IsDigit(ch)
    ensures match Absorb(n, ch)
            case None => Step(ScanOf(n), ch) == Return(NAN)
            case Some(m) => m.Partial() && m.ExponentFits() && Step(ScanOf(n), ch) == Continue(ScanOf(m))
  {
    StepNonDigit(ScanOf(n), ch);
    AbsorbNonDigit(n, ch);
    match Absorb(n, ch)
    case None =>
    case Some(m) =>
      SameDigits(n, m);
  }

  /** The simulation: stepping the automaton is absorbing the character. */
  lemma StepSimulates(n: Numeral, ch: UChar)
    requires n.Partial() && n.ExponentFits()
    ensures match Absorb(n, ch)
            case None => Step(ScanOf(n), ch) == Return(NAN)
            case Some(m) =>
              && m.Partial()
              && Step(ScanOf(n), ch) == if m.ExponentFits() then Continue(ScanOf(m)) else Return(TooLarge(m))
  {
    if !IsDigit(ch) {
      StepOther(n, ch);
    } else if n.exp.Some? {
      StepExponent(n, ch);
    } else if n.frac.Some? {
      StepFraction(n, ch);
    } else {
      StepInteger(n, ch);
    }
  }
}

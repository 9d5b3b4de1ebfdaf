/** Decimal::fromString: a nine-state automaton with counters, and its final scaling. */
module DecimalParser {
  import opened PowersOfTen
  import opened Text
  import opened DecimalPrimitives
  import opened DecimalNumber

  datatype State =
    StateDigit | StateDot | StateDotDigit | StateE | StateEDigit | StateESign | StateSign | StateStart | StateZero

  /** The local variables of fromString. */
  datatype Scan = Scan(state: State, sign: Sign, accumulator: int, numberOfDigits: int, numberOfDigitsAfterDot: int,
                       numberOfExtraDigits: int, exponentSign: Sign, exponent: int)
  {
    /** Keeps the accumulator and the exponent from overflowing. */
    predicate Valid() {
      && 0 <= numberOfDigitsAfterDot <= numberOfDigits <= PRECISION
      && 0 <= accumulator < Pow10(numberOfDigits)
      && 0 <= numberOfExtraDigits
      && 0 <= exponent <= LARGEST_EXPONENT
      && (state in {StateStart, StateSign, StateZero} ==> numberOfDigits == 0)
    }
  }

  /** Reading stops as soon as the exponent digits exceed this, whatever follows them. */
  const LARGEST_EXPONENT: int := EXPONENT_MAX + PRECISION

  const START: Scan := Scan(StateStart, Positive, 0, 0, 0, 0, Positive, 0)

  datatype StepResult = Continue(scan: Scan) | Return(value: Decimal)

  function TakeFirstDigit(s: Scan, ch: UChar): (r: Scan)
    requires IsDigit(ch)
    ensures s.Valid() && s.numberOfDigits == 0 ==> r.Valid()
  {
    s.(accumulator := DigitOf(ch), numberOfDigits := 1, state := StateDigit)
  }

  function TakeDigit(s: Scan, ch: UChar): (r: Scan)
    requires IsDigit(ch)
    ensures s.Valid() && s.state == StateDigit ==> r.Valid()
  {
    if s.numberOfDigits < PRECISION then
      s.(numberOfDigits := s.numberOfDigits + 1, accumulator := s.accumulator * 10 + DigitOf(ch))
    else
      s.(numberOfExtraDigits := s.numberOfExtraDigits + 1)
  }

  function TakeDotDigit(s: Scan, ch: UChar): (r: Scan)
    requires IsDigit(ch)
    ensures s.Valid() ==> r.Valid()
  {
    var t := if s.numberOfDigits < PRECISION then
               s.(numberOfDigits := s.numberOfDigits + 1, numberOfDigitsAfterDot := s.numberOfDigitsAfterDot + 1,
                  accumulator := s.accumulator * 10 + DigitOf(ch))
             else s;
    t.(state := StateDotDigit)
  }

  function TakeFirstExponentDigit(s: Scan, ch: UChar): (r: Scan)
    requires IsDigit(ch)
  {
    s.(exponent := DigitOf(ch), state := StateEDigit)
  }

  /** The answer given as soon as the exponent is known to be too large. */
  function HugeExponent(sign: Sign, accumulator: int, exponentSign: Sign): (d: Decimal) {
    if accumulator != 0 then if exponentSign == Negative then Zero(Positive) else Infinity(sign)
    else Zero(sign)
  }

  function TakeExponentDigit(s: Scan, ch: UChar): (r: StepResult)
    requires IsDigit(ch)
    ensures s.Valid() && r.Continue? ==> r.scan.Valid()
  {
    var exponent := s.exponent * 10 + DigitOf(ch);
    if exponent > LARGEST_EXPONENT then Return(HugeExponent(s.sign, s.accumulator, s.exponentSign))
    else Continue(s.(exponent := exponent))
  }

  /** One turn of the loop: the switch over the state. */
  function Step(s: Scan, ch: UChar): (r: StepResult)
    requires s.Valid()
    ensures r.Continue? ==> r.scan.Valid()
  {
    match s.state
    case StateDigit =>
      if IsDigit(ch) then Continue(TakeDigit(s, ch))
      else if ch == DOT then Continue(s.(state := StateDot))
      else if IsE(ch) then Continue(s.(state := StateE))
      else Return(NAN)
    case StateDot =>
      if IsDigit(ch) then Continue(TakeDotDigit(s, ch))
      else if IsE(ch) then Continue(s.(state := StateE))
      else Return(NAN)
    case StateDotDigit =>
      if IsDigit(ch) then Continue(TakeDotDigit(s, ch))
      else if IsE(ch) then Continue(s.(state := StateE))
      else Return(NAN)
    case StateE =>
      if ch == PLUS then Continue(s.(exponentSign := Positive, state := StateESign))
      else if ch == MINUS then Continue(s.(exponentSign := Negative, state := StateESign))
      else if IsDigit(ch) then Continue(TakeFirstExponentDigit(s, ch))
      else Return(NAN)
    case StateEDigit =>
      if IsDigit(ch) then TakeExponentDigit(s, ch)
      else Return(NAN)
    case StateESign =>
      if IsDigit(ch) then Continue(TakeFirstExponentDigit(s, ch))
      else Return(NAN)
    case StateSign =>
      if IsDigit(ch) && ch != ZERO then Continue(TakeFirstDigit(s, ch))
      else if ch == ZERO then Continue(s.(state := StateZero))
      else Return(NAN)
    case StateStart =>
      if IsDigit(ch) && ch != ZERO then Continue(TakeFirstDigit(s, ch))
      else if ch == MINUS then Continue(s.(sign := Negative, state := StateSign))
      else if ch == PLUS then Continue(s.(sign := Positive, state := StateSign))
      else if ch == ZERO then Continue(s.(state := StateZero))
      else if ch == DOT then Continue(s.(state := StateDot))
      else Return(NAN)
    case StateZero =>
      if ch == ZERO then Continue(s)
      else if IsDigit(ch) then Continue(TakeFirstDigit(s, ch))
      else if ch == DOT then Continue(s.(state := StateDot))
      else if IsE(ch) then Continue(s.(state := StateE))
      else Return(NAN)
  }

  function ResultExponent(s: Scan): (e: int) {
    s.exponent * (if s.exponentSign == Negative then -1 else 1) - s.numberOfDigitsAfterDot + s.numberOfExtraDigits
  }

  /** What is done with an accepted number: underflow, scaling down a large exponent, or plain encoding. */
  function Scaled(s: Scan): (d: Decimal)
    requires s.Valid()
  {
    var resultExponent := ResultExponent(s);
    if resultExponent < EXPONENT_MIN then Zero(Positive)
    else
      var overflow := resultExponent - EXPONENT_MAX + 1;
      AccumulatorFits(s);
      if overflow <= 0 then Encode(s.sign, resultExponent, s.accumulator)
      else if overflow + s.numberOfDigits - s.numberOfDigitsAfterDot > PRECISION then Infinity(s.sign)
      else Encode(s.sign, resultExponent - overflow, Wrap(s.accumulator * Pow10(overflow)))
  }

  lemma AccumulatorFits(s: Scan)
    requires s.Valid()
    ensures 0 <= s.accumulator <= MAX_COEFFICIENT
  {
    PowMonotone(s.numberOfDigits, 18);
    SmallPowers();
  }

  function Finish(s: Scan): (d: Decimal)
    requires s.Valid()
  {
    match s.state
    case StateZero => Zero(s.sign)
    case StateDigit => Scaled(s)
    case StateEDigit => Scaled(s)
    case StateDotDigit => Scaled(s)
    case _ => NAN
  }

  function Run(s: Scan, str: Text): (d: Decimal)
    requires s.Valid()
    decreases |str|
  {
    if str == [] then Finish(s)
    else
      match Step(s, str[0])
      case Return(value) => value
      case Continue(scan) => Run(scan, str[1..])
  }

  function Parse(str: Text): (d: Decimal) {
    Run(START, str)
  }

  method FromString(str: Text) returns (d: Decimal)
    ensures d == Parse(str)
  {
    var scan := START;
    for index := 0 to |str|
      invariant scan.Valid()
      invariant Parse(str) == Run(scan, str[index..])
    {
      assert str[index..][0] == str[index] && str[index..][1..] == str[index + 1..];
      match Step(scan, str[index]) {
        case Return(value) => return value;
        case Continue(next) => scan := next;
      }
    }
    assert str[|str|..] == [];
    if scan.state == StateZero {
      return Zero(scan.sign);
    }
    if scan.state == StateDigit || scan.state == StateEDigit || scan.state == StateDotDigit {
      var resultExponent := ResultExponent(scan);
      if resultExponent < EXPONENT_MIN {
        return Zero(Positive);
      }
      AccumulatorFits(scan);
      var accumulator: uint64 := scan.accumulator;
      var overflow := resultExponent - EXPONENT_MAX + 1;
      if overflow > 0 {
        if overflow + scan.numberOfDigits - scan.numberOfDigitsAfterDot > PRECISION {
          return Infinity(scan.sign);
        }
        accumulator := ScaleUp(accumulator, overflow);
        resultExponent := resultExponent - overflow;
      }
      d := Construct(scan.sign, resultExponent, accumulator);
      return;
    }
    return NAN;
  }
}

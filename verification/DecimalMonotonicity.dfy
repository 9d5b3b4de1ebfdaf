/**
  Addition and the order of values. Although digits are lost in two places, a sum depends on the values of its
  operands alone, whatever their encodings, and never falls when an operand grows.
*/
module DecimalMonotonicity {
  import opened PowersOfTen
  import opened DecimalPrimitives
  import opened DecimalNumber
  import opened DecimalAddition
  import opened DecimalComparison

  // ----- multiples of powers of ten

  ghost predicate Multiple(v: int, i: nat) {
    v % Pow10(i) == 0
  }

  /** The greatest multiple of 10^i that is not above v. */
  ghost function Down(v: nat, i: nat): (d: nat) {
    DivNonnegative(v, Pow10(i));
    MulLe(0, v / Pow10(i), Pow10(i));
    (v / Pow10(i)) * Pow10(i)
  }

  lemma DownBounds(v: nat, i: nat)
    ensures Down(v, i) <= v < Down(v, i) + Pow10(i) && Multiple(Down(v, i), i)
  {
    DivNonnegative(v, Pow10(i));
    DivMul(v / Pow10(i), Pow10(i));
  }

  lemma DownIsGreatest(v: nat, i: nat, w: nat)
    requires Multiple(w, i) && w <= v
    ensures w <= Down(v, i)
  {
    var p := Pow10(i);
    var k, q := w / p, v / p;
    assert w == k * p && v == q * p + v % p;
    if q < k {
      MulLt(q, k, p);
    }
    MulLe(k, if q < k then k else q, p);
  }

  lemma DownOfMultiple(v: nat, i: nat)
    requires Multiple(v, i)
    ensures Down(v, i) == v
  {
    DownIsGreatest(v, i, v);
    DownBounds(v, i);
  }

  lemma Times(c: int, i: nat, j: nat)
    requires i <= j
    ensures Multiple(c * Pow10(j), i)
  {
    PowSplit(j, i);
    var k := c * Pow10(j - i);
    assert c * (Pow10(i) * Pow10(j - i)) == k * Pow10(i);
    DivUnique(k * Pow10(i), Pow10(i), k, 0);
  }

  lemma FewerZeros(v: int, i: nat, j: nat)
    requires Multiple(v, j) && i <= j
    ensures Multiple(v, i)
  {
    var c := v / Pow10(j);
    assert v == c * Pow10(j);
    Times(c, i, j);
  }

  lemma SumOfMultiples(v: int, w: int, i: nat)
    requires Multiple(v, i) && Multiple(w, i)
    ensures Multiple(v + w, i)
  {
    var p := Pow10(i);
    var k := v / p + w / p;
    assert v + w == k * p;
    DivUnique(v + w, p, k, 0);
  }

  lemma DownMonotone(v: nat, w: nat, i: nat)
    requires v <= w
    ensures Down(v, i) <= Down(w, i)
  {
    hide Down, Multiple;
    DownBounds(v, i);
    DownIsGreatest(w, i, Down(v, i));
  }

  lemma DownDeeper(v: nat, i: nat, j: nat)
    requires i <= j
    ensures Down(v, j) <= Down(v, i)
  {
    hide Down, Multiple;
    DownBounds(v, j);
    FewerZeros(Down(v, j), i, j);
    DownIsGreatest(v, i, Down(v, j));
  }

  // ----- eighteen digits

  /** How many digits v has beyond eighteen. */
  ghost function Rank(v: nat): (i: nat) {
    if Digits(v) > PRECISION then Digits(v) - PRECISION else 0
  }

  /** At most eighteen significant digits. */
  ghost predicate Short(v: nat) {
    Multiple(v, Rank(v))
  }

  /** The leading eighteen digits. */
  ghost function Round(v: nat): (r: nat) {
    Down(v, Rank(v))
  }

  lemma RankMonotone(v: nat, w: nat)
    requires v <= w
    ensures Digits(v) <= Digits(w) && Rank(v) <= Rank(w)
  {
    DigitsBounds(w);
    DigitsAtMost(v, Digits(w));
  }

  /** The leading digit stays. */
  lemma RoundBounds(v: nat)
    ensures Round(v) <= v && Digits(Round(v)) == Digits(v) && Short(Round(v))
    ensures v > 0 ==> Pow10(Digits(v) - 1) <= Round(v)
  {
    hide Pow10, Digits, Down, Multiple;
    DownBounds(v, Rank(v));
    if v > 0 {
      var n := Digits(v);
      DigitsBounds(v);
      Times(1, Rank(v), n - 1);
      DownIsGreatest(v, Rank(v), Pow10(n - 1));
      DigitsUnique(Round(v), n);
    }
  }

  lemma RoundMonotone(v: nat, w: nat)
    requires v <= w
    ensures Round(v) <= Round(w)
  {
    hide Pow10, Digits, Down, Multiple;
    RankMonotone(v, w);
    RoundBounds(v);
    RoundBounds(w);
    if Digits(v) == Digits(w) {
      DownMonotone(v, w, Rank(v));
    } else {
      DigitsAtMost(v, Digits(w) - 1);
    }
  }

  lemma RoundOfShort(v: nat)
    requires Short(v)
    ensures Round(v) == v
  {
    DownOfMultiple(v, Rank(v));
  }

  // ----- the sum as a function of values

  ghost function Toward(x: int, i: nat): (r: int) {
    if x < 0 then -(Down(-x, i) as int) else Down(x, i)
  }

  /** Each operand is cut to the places in which the other one has its eighteen digits. */
  ghost function Combined(x: int, y: int): (t: int) {
    Toward(x, Rank(Abs(y))) + Toward(y, Rank(Abs(x)))
  }

  /** What is too large for eighteen digits at the largest exponent. */
  ghost const LIMIT: nat := Pow10(PRECISION + EXPONENT_MAX + BIAS)

  ghost function RoundedPlace(t: int): (p: Place) {
    if Abs(t) >= LIMIT then if t < 0 then NegativeInfinity else PositiveInfinity
    else Finite(if t < 0 then -(Round(-t) as int) else Round(t))
  }

  // ----- it never falls

  ghost predicate NotAfter(p: Place, q: Place) {
    p == q || Before(p, q)
  }

  ghost function Opposite(p: Place): (q: Place) {
    match p
    case NegativeInfinity => PositiveInfinity
    case PositiveInfinity => NegativeInfinity
    case Finite(v) => Finite(-v)
  }

  lemma OppositePlace(t: int)
    ensures RoundedPlace(-t) == Opposite(RoundedPlace(t))
  {
    if t == 0 {
      RoundBounds(0);
    }
  }

  lemma PlaceMonotone(t: int, s: int)
    requires t <= s
    ensures NotAfter(RoundedPlace(t), RoundedPlace(s))
  {
    hide Round, Pow10;
    if 0 <= t {
      RoundMonotone(t, s);
    } else if s < 0 {
      RoundMonotone(-s, -t);
    }
  }

  /** It is enough to be in order after cutting to places that rounding cuts anyway. */
  lemma PlaceMonotoneCut(t: nat, s: nat, i: nat)
    requires Down(t, i) <= s && i <= Rank(t) && i <= PRECISION + EXPONENT_MAX + BIAS
    ensures NotAfter(RoundedPlace(t), RoundedPlace(s))
  {
    hide Pow10, Digits, Down, Multiple, Rank;
    if t >= LIMIT {
      Times(1, i, PRECISION + EXPONENT_MAX + BIAS);
      DownIsGreatest(t, i, LIMIT);
    } else {
      DownDeeper(t, i, Rank(t));
      RoundBounds(t);
      RoundOfShort(Round(t));
      RoundMonotone(Round(t), s);
    }
  }

  /** Against an operand of the other sign, the total itself never falls. */
  lemma CombinedAgainst(x: nat, w: nat, y: int)
    requires x <= w && y < 0
    ensures Combined(x, y) <= Combined(w, y)
  {
    hide Down, Digits;
    RankMonotone(x, w);
    DownMonotone(x, w, Rank(-y));
    DownDeeper(-y, Rank(x), Rank(w));
  }

  /** A power of ten between two operands of different length. */
  lemma Between(x: nat, w: nat)
    requires Digits(x) < Digits(w)
    ensures x < Pow10(Digits(w) - 1) <= w
  {
    DigitsBounds(w);
    DigitsAtMost(x, Digits(w) - 1);
  }

  /** With a longer operand more of the other is cut off, but no more than rounding takes away. */
  lemma LongerOperand(x: nat, w: nat, y: nat)
    requires x <= w < LIMIT && Rank(x) < Rank(w)
    ensures var t, s := Down(x, Rank(y)) + Down(y, Rank(x)), w + Down(y, Rank(w));
            t <= s || (Down(t, Rank(w)) <= s && Rank(w) <= Rank(t))
    ensures Rank(w) <= PRECISION + EXPONENT_MAX + BIAS
  {
    hide Pow10, Digits, Down, Multiple;
    var i, n := Rank(w), Digits(w);
    var t, s := Down(x, Rank(y)) + Down(y, Rank(x)), w + Down(y, i);
    DigitsAtMost(w, PRECISION + EXPONENT_MAX + BIAS);
    RankMonotone(x, w);
    Between(x, w);
    DownBounds(x, Rank(y));
    DownBounds(y, Rank(x));
    DownBounds(y, i);
    DownBounds(t, i);
    var p := Pow10(n - 1);
    Times(1, i, n - 1);
    SumOfMultiples(p, Down(y, i), i);
    NextMultiple(Down(t, i), p + Down(y, i), i);
    if t > s {
      RankMonotone(w, t);
    }
  }

  lemma NextMultiple(v: int, w: int, i: nat)
    requires Multiple(v, i) && Multiple(w, i) && v < w + Pow10(i)
    ensures v <= w
  {
    var p := Pow10(i);
    var k, q := v / p, w / p;
    assert v == k * p && w == q * p;
    if q < k {
      MulLt(q, k, p);
    } else {
      MulLe(k, q, p);
    }
  }

  lemma CombinedAlong(x: nat, w: nat, y: nat)
    requires x <= w < LIMIT && Short(x) && Short(w) && Short(y)
    ensures NotAfter(RoundedPlace(Combined(x, y)), RoundedPlace(Combined(w, y)))
  {
    hide Pow10, Digits, Down, Multiple, Rank;
    RankMonotone(x, w);
    var t, s := Combined(x, y), Combined(w, y);
    if Rank(w) <= Rank(y) {
      KeptWhole(y, Rank(x));
      KeptWhole(y, Rank(w));
      DownMonotone(x, w, Rank(y));
      PlaceMonotone(t, s);
    } else {
      KeptWhole(w, Rank(y));
      if Rank(x) == Rank(w) {
        DownBounds(x, Rank(y));
        PlaceMonotone(t, s);
      } else {
        LongerOperand(x, w, y);
        if t <= s {
          PlaceMonotone(t, s);
        } else {
          PlaceMonotoneCut(t, s, Rank(w));
        }
      }
    }
  }

  lemma KeptWhole(v: nat, i: nat)
    requires Short(v) && i <= Rank(v)
    ensures Down(v, i) == v
  {
    FewerZeros(v, i, Rank(v));
    DownOfMultiple(v, i);
  }

  lemma CombinedOpposite(x: int, y: int)
    ensures Combined(-x, -y) == -Combined(x, y)
  {
    hide Pow10, Digits, Rank;
    DownOfZero(Rank(Abs(x)));
    DownOfZero(Rank(Abs(y)));
  }

  lemma DownOfZero(i: nat)
    ensures Down(0, i) == 0
  {
    DownBounds(0, i);
  }

  ghost predicate Representable(x: int) {
    Short(Abs(x)) && Abs(x) < LIMIT
  }

  lemma CombinedUpward(x: nat, w: nat, y: int)
    requires x <= w && Representable(x) && Representable(w) && Representable(y)
    ensures NotAfter(RoundedPlace(Combined(x, y)), RoundedPlace(Combined(w, y)))
  {
    hide Pow10, Digits, Down, Multiple, Rank, RoundedPlace, Combined, Short;
    if y >= 0 {
      CombinedAlong(x, w, y);
    } else {
      CombinedAgainst(x, w, y);
      PlaceMonotone(Combined(x, y), Combined(w, y));
    }
  }

  lemma CombinedMonotone(x: int, w: int, y: int)
    requires x <= w && Representable(x) && Representable(w) && Representable(y)
    ensures NotAfter(RoundedPlace(Combined(x, y)), RoundedPlace(Combined(w, y)))
  {
    hide Pow10, Digits, Down, Multiple, Rank, RoundedPlace, Combined, Short;
    if 0 <= x {
      CombinedUpward(x, w, y);
    } else if w <= 0 {
      CombinedDownward(x, w, y);
    } else {
      assert Representable(0) by { RoundBounds(0); }
      CombinedDownward(x, 0, y);
      CombinedUpward(0, w, y);
    }
  }

  lemma CombinedDownward(x: int, w: int, y: int)
    requires x <= w <= 0 && Representable(x) && Representable(w) && Representable(y)
    ensures NotAfter(RoundedPlace(Combined(x, y)), RoundedPlace(Combined(w, y)))
  {
    hide Pow10, Digits, Down, Multiple, Rank, RoundedPlace, Combined, Short;
    assert Representable(-x) && Representable(-w) && Representable(-y);
    CombinedUpward(-w, -x, -y);
    CombinedOpposite(x, y);
    CombinedOpposite(w, y);
    OppositePlace(Combined(x, y));
    OppositePlace(Combined(w, y));
  }

  // ----- the sum of two decimals is this function

  /** A coefficient moved by its exponent has no more than eighteen significant digits. */
  lemma RankOfMagnitude(c: nat, e: int)
    requires c <= MAX_COEFFICIENT && EXPONENT_MIN <= e <= EXPONENT_MAX
    ensures Rank(c * Unit(e)) <= e + BIAS && Short(c * Unit(e)) && c * Unit(e) < LIMIT
    ensures c > 0 ==> Digits(c * Unit(e)) == Digits(c) + e + BIAS
  {
    SmallPowers();
    hide Pow10, Digits, Multiple;
    DigitsAtMost(c, 18);
    Times(c, e + BIAS, e + BIAS);
    PowAdd(PRECISION, e + BIAS);
    PowMonotone(PRECISION + e + BIAS, PRECISION + EXPONENT_MAX + BIAS);
    MulLt(c, Pow10(PRECISION), Unit(e));
    if c > 0 {
      DigitsMul(c, e + BIAS);
      FewerZeros(c * Unit(e), Rank(c * Unit(e)), e + BIAS);
    } else {
      assert c * Unit(e) == 0;
      assert Rank(0) == 0 by { DigitsAtMost(0, 0); }
      FewerZeros(0, 0, e + BIAS);
    }
  }

  lemma DownByUnits(c: nat, k: nat, e: int)
    requires e >= EXPONENT_MIN
    ensures (c / Pow10(k)) * Unit(e + k) == Down(c * Unit(e), e + k + BIAS)
  {
    hide Pow10;
    UnitAdd(e, k);
    var p, u := Pow10(k), Unit(e);
    CutOff(c, p, u);
    DivNonnegative(c, p);
    DivUnique(c * u, p * u, c / p, (c % p) * u);
  }

  /** One arm of the alignment, in values. */
  lemma LoweredCut(high: Decimal, low: Decimal)
    requires high.IsFinite() && low.IsFinite() && high.exponent > low.exponent && high.coefficient > 0
    ensures var (h, l, e) := Lower(high.coefficient, high.exponent, low.coefficient, low.exponent);
            && h * Unit(e) == Down(Magnitude(high), Rank(Magnitude(low)))
            && l * Unit(e) == Down(Magnitude(low), Rank(Magnitude(high)))
  {
    hide Pow10, Digits, Down, Multiple;
    var shift := high.exponent - low.exponent;
    var k := Overflow(high.coefficient, shift);
    LowerIsFaithful(high, low);
    RankOfMagnitude(high.coefficient, high.exponent);
    RankOfMagnitude(low.coefficient, low.exponent);
    Times(high.coefficient, Rank(Magnitude(low)), high.exponent + BIAS);
    DownOfMultiple(Magnitude(high), Rank(Magnitude(low)));
    DownByUnits(low.coefficient, k, low.exponent);
    if k == 0 {
      Times(low.coefficient, Rank(Magnitude(high)), low.exponent + BIAS);
      DownOfMultiple(Magnitude(low), Rank(Magnitude(high)));
      Times(low.coefficient, low.exponent + BIAS, low.exponent + BIAS);
      DownOfMultiple(Magnitude(low), low.exponent + BIAS);
    }
  }

  lemma AlignedCut(lhs: Decimal, rhs: Decimal)
    requires lhs.IsFinite() && rhs.IsFinite()
    ensures var a := AlignedDecimals(lhs, rhs);
            && a.lhs * Unit(a.exponent) == Down(Magnitude(lhs), Rank(Magnitude(rhs)))
            && a.rhs * Unit(a.exponent) == Down(Magnitude(rhs), Rank(Magnitude(lhs)))
  {
    hide Pow10, Digits, Down, Multiple, Rank, Lower;
    if lhs.exponent > rhs.exponent && lhs.coefficient > 0 {
      LoweredCut(lhs, rhs);
    } else if lhs.exponent < rhs.exponent && rhs.coefficient > 0 {
      LoweredCut(rhs, lhs);
    } else {
      NothingCut(lhs, rhs);
      NothingCut(rhs, lhs);
    }
  }

  /** With equal exponents, or with a zero that has the larger one, nothing is cut. */
  lemma NothingCut(d: Decimal, other: Decimal)
    requires d.IsFinite() && other.IsFinite()
    requires d.exponent >= other.exponent || d.coefficient == 0 || other.coefficient == 0
    ensures Down(Magnitude(d), Rank(Magnitude(other))) == Magnitude(d)
  {
    hide Pow10, Digits, Down, Multiple;
    RankOfMagnitude(other.coefficient, other.exponent);
    if d.coefficient == 0 {
      DownOfZero(Rank(Magnitude(other)));
    } else if other.coefficient == 0 {
      assert Rank(0) == 0 by { DigitsAtMost(0, 0); }
      Times(d.coefficient, 0, d.exponent + BIAS);
      DownOfMultiple(Magnitude(d), 0);
    } else {
      Times(d.coefficient, Rank(Magnitude(other)), d.exponent + BIAS);
      DownOfMultiple(Magnitude(d), Rank(Magnitude(other)));
    }
  }

  lemma TotalIsCombined(lhs: Decimal, rhs: Decimal)
    requires lhs.IsFinite() && rhs.IsFinite()
    ensures Total(lhs, rhs) * Unit(AlignedDecimals(lhs, rhs).exponent) == Combined(Value(lhs), Value(rhs))
  {
    hide Pow10, Digits, Down, Rank, Aligned;
    var a := AlignedDecimals(lhs, rhs);
    var u := Unit(a.exponent);
    AlignedCut(lhs, rhs);
    ApplyTimes(lhs.sign, a.lhs, u);
    ApplyTimes(rhs.sign, a.rhs, u);
    Distribute(Apply(lhs.sign, a.lhs), Apply(rhs.sign, a.rhs), u);
    DownOfZero(Rank(Magnitude(lhs)));
    DownOfZero(Rank(Magnitude(rhs)));
  }

  lemma EncodedWhole(sign: Sign, e: int, c: nat)
    requires EXPONENT_MIN <= e <= EXPONENT_MAX && c <= MAX_COEFFICIENT
    ensures var d, v := Encode(sign, e, c), c * Unit(e);
            d.IsFinite() && d.sign == sign && Magnitude(d) == v == Round(v) && v < LIMIT
  {
    hide Pow10, Digits, Round, Short;
    EncodeError(sign, e, c);
    ExcessIsLeast(c);
    RankOfMagnitude(c, e);
    RoundOfShort(c * Unit(e));
  }

  lemma EncodedCut(sign: Sign, e: int, c: nat)
    requires EXPONENT_MIN <= e <= EXPONENT_MAX && MAX_COEFFICIENT < c <= 2 * MAX_COEFFICIENT
    ensures var d, v := Encode(sign, e, c), c * Unit(e);
            && d.sign == sign
            && if e == EXPONENT_MAX then d.IsInfinity() && v >= LIMIT
               else d.IsFinite() && Magnitude(d) == Round(v) && v < LIMIT
  {
    hide Pow10, Digits, Down;
    SmallPowers();
    OneDigitOver(c);
    PowAdd(PRECISION, e + BIAS);
    if e == EXPONENT_MAX {
      MulLe(Pow10(PRECISION), c, Unit(e));
    } else {
      NineteenDigits(c, e);
      DownByUnits(c, 1, e);
    }
  }

  lemma NineteenDigits(c: nat, e: int)
    requires EXPONENT_MIN <= e < EXPONENT_MAX && MAX_COEFFICIENT < c <= 2 * MAX_COEFFICIENT
    ensures Rank(c * Unit(e)) == e + 1 + BIAS && c * Unit(e) < LIMIT
  {
    hide Pow10, Digits;
    SmallPowers();
    DigitsUnique(c, 19);
    DigitsMul(c, e + BIAS);
    PowAdd(19, e + BIAS);
    MulLt(c, Pow10(19), Unit(e));
    PowMonotone(19 + e + BIAS, PRECISION + EXPONENT_MAX + BIAS);
  }

  /** Encoding a total of at most nineteen digits rounds its value. */
  lemma EncodedPlace(sign: Sign, e: int, c: nat)
    requires EXPONENT_MIN <= e <= EXPONENT_MAX && c <= 2 * MAX_COEFFICIENT
    ensures var d, v := Encode(sign, e, c), Apply(sign, c * Unit(e));
            !d.IsNaN() && PlaceOf(d) == RoundedPlace(v)
  {
    hide Pow10, Encode, Round, Unit;
    if c <= MAX_COEFFICIENT {
      EncodedWhole(sign, e, c);
    } else {
      EncodedCut(sign, e, c);
    }
  }

  /** The place of a sum on the extended line is a function of the values of its operands. */
  lemma SumPlace(lhs: Decimal, rhs: Decimal)
    requires lhs.IsFinite() && rhs.IsFinite()
    ensures !Sum(lhs, rhs).IsNaN()
    ensures PlaceOf(Sum(lhs, rhs)) == RoundedPlace(Combined(Value(lhs), Value(rhs)))
  {
    hide Pow10, Digits, Aligned, Combined, RoundedPlace, Encode;
    var t, e := Total(lhs, rhs), AlignedDecimals(lhs, rhs).exponent;
    SumEncodesTotal(lhs, rhs);
    TotalIsCombined(lhs, rhs);
    EncodedPlace(TotalSign(t, lhs.sign, rhs.sign), e, Abs(t));
    ApplyTimes(TotalSign(t, lhs.sign, rhs.sign), Abs(t), Unit(e));
  }

  lemma ValueIsRepresentable(d: Decimal)
    requires d.IsFinite()
    ensures Representable(Value(d))
  {
    RankOfMagnitude(d.coefficient, d.exponent);
  }

  /** What an infinite operand does. */
  lemma InfiniteSum(a: Decimal, c: Decimal)
    requires !Sum(a, c).IsNaN() && !(a.IsFinite() && c.IsFinite())
    ensures !a.IsNaN() && !c.IsNaN()
    ensures PlaceOf(Sum(a, c)) == if a.IsInfinity() then PlaceOf(a) else PlaceOf(c)
    ensures a.IsInfinity() && c.IsInfinity() ==> a == c
  {
    hide FiniteSum;
  }

  /** The order of two sums with the same right operand. */
  lemma SumPlacesMonotone(a: Decimal, b: Decimal, c: Decimal)
    requires !a.IsNaN() && !b.IsNaN() && !Sum(a, c).IsNaN() && !Sum(b, c).IsNaN()
    requires NotAfter(PlaceOf(a), PlaceOf(b))
    ensures NotAfter(PlaceOf(Sum(a, c)), PlaceOf(Sum(b, c)))
  {
    hide Sum, RoundedPlace, Combined, Representable, Value;
    if a.IsFinite() && b.IsFinite() && c.IsFinite() {
      ValueIsRepresentable(a);
      ValueIsRepresentable(b);
      ValueIsRepresentable(c);
      SumPlace(a, c);
      SumPlace(b, c);
      CombinedMonotone(Value(a), Value(b), Value(c));
    } else {
      if !(a.IsFinite() && c.IsFinite()) {
        InfiniteSum(a, c);
      }
      if !(b.IsFinite() && c.IsFinite()) {
        InfiniteSum(b, c);
      }
    }
  }

  lemma NaNIsNotOrdered(a: Decimal, b: Decimal)
    requires (a.IsNaN() || b.IsNaN()) && (LessOrEqual(a, b) || Equal(a, b))
    ensures a == b == NAN
  {
    NaNComparisons(a);
    NaNComparisons(b);
  }

  /** Adding the same number to both sides keeps the order, infinities included, as long as neither sum is NaN. */
  lemma SumIsMonotone(a: Decimal, b: Decimal, c: Decimal)
    requires LessOrEqual(a, b) && !Sum(a, c).IsNaN() && !Sum(b, c).IsNaN()
    ensures LessOrEqual(Sum(a, c), Sum(b, c))
  {
    if a != b {
      assert !a.IsNaN() && !b.IsNaN() by {
        if a.IsNaN() || b.IsNaN() {
          NaNIsNotOrdered(a, b);
        }
      }
      hide Sum, LessOrEqual, Equal;
      OperatorsAreExact(a, b);
      SumPlacesMonotone(a, b, c);
      OperatorsAreExact(Sum(a, c), Sum(b, c));
    }
  }

  /** Equal numbers have equal sums with anything, whatever their encodings. */
  lemma SumRespectsEquality(a: Decimal, b: Decimal, c: Decimal)
    requires Equal(a, b)
    ensures Equal(Sum(a, c), Sum(b, c))
  {
    if a != b {
      assert !a.IsNaN() && !b.IsNaN() by {
        if a.IsNaN() || b.IsNaN() {
          NaNIsNotOrdered(a, b);
        }
      }
      hide Sum, LessOrEqual, Equal;
      OperatorsAreExact(a, b);
      EqualPlaces(a, b, c);
    }
  }

  lemma EqualPlaces(a: Decimal, b: Decimal, c: Decimal)
    requires !a.IsNaN() && !b.IsNaN() && PlaceOf(a) == PlaceOf(b) && a != b
    ensures Equal(Sum(a, c), Sum(b, c))
  {
    assert a.IsFinite() && b.IsFinite();
    if c.IsFinite() {
      SumPlace(a, c);
      SumPlace(b, c);
      hide Sum, Equal;
      OperatorsAreExact(Sum(a, c), Sum(b, c));
    }
  }
}

/** CheckedArithmetic.h: integer operations that report overflow, and values that remember it. */
module CheckedArithmetic {
  import opened Text

  /** An integer type by its signedness and largest value; two's complement gives the smallest. */
  datatype IntType = IntType(signed: bool, max: nat) {
    function Min(): (m: int) {
      if signed then 0 - max - 1 else 0
    }

    predicate Represents(x: int) {
      Min() <= x <= max
    }

    /** Conversion to the type, modulo its range. */
    function Wrap(x: int): (r: int)
      ensures Represents(r)
    {
      Min() + (x - Min()) % (max - Min() + 1)
    }
  }

  // ----- the operations on one type

  predicate SignsMatch(lhs: int, rhs: int) {
    (lhs >= 0) == (rhs >= 0)
  }

  /** The division of C++, toward zero. */
  function Quotient(a: int, b: int): (q: int)
    requires b > 0
  {
    if a >= 0 then a / b else -((-a) / b)
  }

  function Add(t: IntType, lhs: int, rhs: int): (r: Option<int>)
    requires t.Represents(lhs) && t.Represents(rhs)
  {
    if t.signed then
      if SignsMatch(lhs, rhs) && (if lhs >= 0 then t.max - rhs < lhs else rhs < -(lhs - t.Min())) then None
      else Some(lhs + rhs)
    else
      var temp := t.Wrap(lhs + rhs);
      if temp < lhs then None else Some(temp)
  }

  function Sub(t: IntType, lhs: int, rhs: int): (r: Option<int>)
    requires t.Represents(lhs) && t.Represents(rhs)
  {
    if t.signed then
      if !SignsMatch(lhs, rhs) && (if lhs >= 0 then lhs > t.max + rhs else rhs > t.max + lhs) then None
      else Some(lhs - rhs)
    else
      var temp := t.Wrap(lhs - rhs);
      if temp > lhs then None else Some(temp)
  }

  function Multiply(t: IntType, lhs: int, rhs: int): (r: Option<int>)
    requires t.Represents(lhs) && t.Represents(rhs)
  {
    if lhs == 0 || rhs == 0 then Some(0)
    else if SignsMatch(lhs, rhs) then
      if lhs > 0 then
        if Quotient(t.max, lhs) < rhs then None else Some(lhs * rhs)
      else if lhs == t.Min() || rhs == t.Min() then None
      else if Quotient(t.max, -lhs) < -rhs then None
      else Some(lhs * rhs)
    else if lhs < 0 then
      if lhs < Quotient(t.Min(), rhs) then None else Some(lhs * rhs)
    else
      if rhs < Quotient(t.Min(), lhs) then None else Some(lhs * rhs)
  }

  // ----- when they succeed

  lemma ModOf(x: int, m: int, q: int, r: int)
    requires m > 0 && x == q * m + r && 0 <= r < m
    ensures x % m == r
  {
    var d := q - x / m;
    assert d * m == x % m - r;
    assert d >= 1 ==> d * m >= m;
    assert d <= -1 ==> d * m <= -m;
  }

  lemma WrapOnce(t: IntType, x: int)
    requires !t.signed && 0 - t.max - 1 <= x <= 2 * t.max + 1
    ensures t.Wrap(x) == if x < 0 then x + t.max + 1 else if x <= t.max then x else x - t.max - 1
  {
    var m := t.max + 1;
    if x < 0 {
      ModOf(x, m, -1, x + m);
    } else if x <= t.max {
      ModOf(x, m, 0, x);
    } else {
      ModOf(x, m, 1, x - m);
    }
  }

  lemma AddExact(t: IntType, lhs: int, rhs: int)
    requires t.Represents(lhs) && t.Represents(rhs)
    ensures Add(t, lhs, rhs) == if t.Represents(lhs + rhs) then Some(lhs + rhs) else None
  {
    if !t.signed {
      WrapOnce(t, lhs + rhs);
    }
  }

  /** Signed subtraction also gives up on the smallest value, when it takes a negative number down to it. */
  predicate SpuriousSub(t: IntType, lhs: int, rhs: int) {
    t.signed && lhs < 0 <= rhs && lhs - rhs == t.Min()
  }

  lemma SubExact(t: IntType, lhs: int, rhs: int)
    requires t.Represents(lhs) && t.Represents(rhs)
    ensures Sub(t, lhs, rhs) == if t.Represents(lhs - rhs) && !SpuriousSub(t, lhs, rhs) then Some(lhs - rhs) else None
  {
    if !t.signed {
      WrapOnce(t, lhs - rhs);
    }
  }

  /** -1 - 2147483647 is an int, and is refused. */
  lemma SubRefusesMinimum()
    ensures var t := IntType(true, 0x7FFF_FFFF);
            t.Represents(-1 - 0x7FFF_FFFF) && Sub(t, -1, 0x7FFF_FFFF) == None
  {
  }

  lemma QuotientBound(m: nat, a: int, b: int)
    requires a > 0
    ensures m / a < b <==> a * b > m
  {
    var q := m / a;
    assert a * q <= m < a * (q + 1);
    if q < b {
      MulMonotone(a, q + 1, b);
    } else {
      MulMonotone(a, b, q);
    }
  }

  lemma MulMonotone(a: int, b: int, c: int)
    requires a > 0 && b <= c
    ensures a * b <= a * c
  {
  }

  lemma MulSigns(a: int, b: int)
    ensures (-a) * (-b) == a * b && (-a) * b == -(a * b) && a * (-b) == -(a * b) && a * b == b * a
  {
  }

  lemma PositiveProduct(a: int, b: int)
    requires a > 0 && b > 0
    ensures a * b >= a && a * b >= b
  {
  }

  lemma MultiplyExact(t: IntType, lhs: int, rhs: int)
    requires t.Represents(lhs) && t.Represents(rhs)
    ensures Multiply(t, lhs, rhs) == if t.Represents(lhs * rhs) then Some(lhs * rhs) else None
  {
    if lhs > 0 && rhs > 0 {
      PositiveProduct(lhs, rhs);
      QuotientBound(t.max, lhs, rhs);
    } else if lhs < 0 && rhs < 0 {
      MulSigns(lhs, rhs);
      PositiveProduct(-lhs, -rhs);
      QuotientBound(t.max, -lhs, -rhs);
    } else if lhs < 0 < rhs {
      MultiplyMixed(t, rhs, lhs);
    } else if rhs < 0 < lhs {
      MultiplyMixed(t, lhs, rhs);
    }
  }

  /** Factors of different signs, in either order. */
  lemma MultiplyMixed(t: IntType, a: int, b: int)
    requires t.Represents(a) && t.Represents(b) && b < 0 < a
    ensures Multiply(t, a, b) == Multiply(t, b, a) == if t.Represents(a * b) then Some(a * b) else None
  {
    MulSigns(a, b);
    PositiveProduct(a, -b);
    QuotientBound(t.max + 1, a, -b);
  }

  // ----- expressions under RecordOverflow

  datatype Checked = Checked(value: int, overflowed: bool)

  datatype Expr = Literal(n: int) | Plus(l: Expr, r: Expr) | Minus(l: Expr, r: Expr) | Times(l: Expr, r: Expr)

  function Combine(l: Checked, r: Checked, result: Option<int>): (c: Checked) {
    if l.overflowed || r.overflowed || result == None then Checked(0, true) else Checked(result.value, false)
  }

  /** A value that does not fit is truncated and flagged. */
  function FromLiteral(t: IntType, n: int): (c: Checked) {
    if t.Represents(n) then Checked(n, false) else Checked(t.Wrap(n), true)
  }

  function Eval(t: IntType, e: Expr): (c: Checked)
    ensures t.Represents(c.value)
  {
    match e
    case Literal(n) => FromLiteral(t, n)
    case Plus(l, r) =>
      var x, y := Eval(t, l), Eval(t, r);
      AddExact(t, x.value, y.value);
      Combine(x, y, Add(t, x.value, y.value))
    case Minus(l, r) =>
      var x, y := Eval(t, l), Eval(t, r);
      SubExact(t, x.value, y.value);
      Combine(x, y, Sub(t, x.value, y.value))
    case Times(l, r) =>
      var x, y := Eval(t, l), Eval(t, r);
      MultiplyExact(t, x.value, y.value);
      Combine(x, y, Multiply(t, x.value, y.value))
  }

  /** The value of an expression over the integers. */
  function Exact(e: Expr): (n: int) {
    match e
    case Literal(n) => n
    case Plus(l, r) => Exact(l) + Exact(r)
    case Minus(l, r) => Exact(l) - Exact(r)
    case Times(l, r) => Exact(l) * Exact(r)
  }

  /** Every intermediate value fits, and no subtraction lands on the minimum in the way that is refused. */
  predicate Safe(t: IntType, e: Expr) {
    && t.Represents(Exact(e))
    && match e
       case Literal(_) => true
       case Minus(l, r) => Safe(t, l) && Safe(t, r) && !SpuriousSub(t, Exact(l), Exact(r))
       case Plus(l, r) => Safe(t, l) && Safe(t, r)
       case Times(l, r) => Safe(t, l) && Safe(t, r)
  }

  /** An expression is flagged exactly when some step of it is not safe; unflagged, it has its exact value. */
  lemma {:induction false} UnflaggedIsExact(t: IntType, e: Expr)
    ensures Eval(t, e).overflowed <==> !Safe(t, e)
    ensures !Eval(t, e).overflowed ==> Eval(t, e).value == Exact(e)
  {
    match e
    case Literal(_) =>
    case Plus(l, r) =>
      UnflaggedIsExact(t, l);
      UnflaggedIsExact(t, r);
      AddExact(t, Eval(t, l).value, Eval(t, r).value);
    case Minus(l, r) =>
      UnflaggedIsExact(t, l);
      UnflaggedIsExact(t, r);
      SubExact(t, Eval(t, l).value, Eval(t, r).value);
    case Times(l, r) =>
      UnflaggedIsExact(t, l);
      UnflaggedIsExact(t, r);
      MultiplyExact(t, Eval(t, l).value, Eval(t, r).value);
  }

  // ----- a variable that is updated in place

  class CheckedVariable {
    const t: IntType
    var value: int
    var overflowed: bool
    // The value had every operation been exact.
    ghost var exact: int

    ghost predicate Valid()
      reads this
    {
      t.Represents(value) && (!overflowed ==> value == exact)
    }

    constructor (t: IntType, n: int)
      ensures Valid() && this.t == t && exact == n && (overflowed <==> !t.Represents(n))
    {
      this.t := t;
      var c := FromLiteral(t, n);
      value, overflowed := c.value, c.overflowed;
      exact := n;
    }

    /** A failing operation leaves the value alone and sets the flag, which then stays set. */
    method Update(result: Option<int>, ghost wanted: int)
      requires Valid() && (result.Some? ==> t.Represents(result.value))
      requires result.Some? && value == exact ==> result.value == wanted
      modifies this
      ensures Valid() && exact == wanted
      ensures overflowed <==> old(overflowed) || result.None?
      ensures value == if result.Some? then result.value else old(value)
    {
      if result.None? {
        overflowed := true;
      } else {
        value := result.value;
      }
      exact := wanted;
    }

    method AddAssign(rhs: int)
      requires Valid() && t.Represents(rhs)
      modifies this
      ensures Valid() && exact == old(exact) + rhs
      ensures overflowed <==> old(overflowed) || !t.Represents(old(value) + rhs)
    {
      AddExact(t, value, rhs);
      Update(Add(t, value, rhs), exact + rhs);
    }

    method SubAssign(rhs: int)
      requires Valid() && t.Represents(rhs)
      modifies this
      ensures Valid() && exact == old(exact) - rhs
      ensures overflowed <==> old(overflowed) || !t.Represents(old(value) - rhs) || SpuriousSub(t, old(value), rhs)
    {
      SubExact(t, value, rhs);
      Update(Sub(t, value, rhs), exact - rhs);
    }

    method MultiplyAssign(rhs: int)
      requires Valid() && t.Represents(rhs)
      modifies this
      ensures Valid() && exact == old(exact) * rhs
      ensures overflowed <==> old(overflowed) || !t.Represents(old(value) * rhs)
    {
      MultiplyExact(t, value, rhs);
      Update(Multiply(t, value, rhs), exact * rhs);
    }
  }
}

/**
  Powers of ten, decimal digit counts and the few facts about integer division
  that the decimal arithmetic rests on.
*/
module PowersOfTen {

  function Pow10(n: nat): (p: nat)
    ensures p >= 1
  {
    if n == 0 then 1 else 10 * Pow10(n - 1)
  }

  /** The number of decimal digits of x; zero has none. */
  function Digits(x: nat): (n: nat)
    ensures n == 0 <==> x == 0
  {
    if x == 0 then 0 else 1 + Digits(x / 10)
  }

  lemma {:induction false} PowAdd(a: nat, b: nat)
    ensures Pow10(a + b) == Pow10(a) * Pow10(b)
  {
    if a == 0 {
      assert Pow10(0) * Pow10(b) == Pow10(b);
    } else {
      PowAdd(a - 1, b);
      assert a + b - 1 == a - 1 + b;
      MulAssoc(10, Pow10(a - 1), Pow10(b));
    }
  }

  lemma PowSplit(n: nat, k: nat)
    requires k <= n
    ensures Pow10(n) == Pow10(k) * Pow10(n - k)
  {
    PowAdd(k, n - k);
  }

  lemma PowMonotone(a: nat, b: nat)
    requires a <= b
    ensures Pow10(a) <= Pow10(b)
    ensures a < b ==> 10 * Pow10(a) <= Pow10(b)
  {
    if a < b {
      PowMonotone(a, b - 1);
    }
  }

  lemma SmallPowers()
    ensures Pow10(0) == 1 && Pow10(1) == 10 && Pow10(2) == 100
    ensures Pow10(13) == 1_0000000000000 && Pow10(15) == 1_000000000000000
    ensures Pow10(16) == 1_0000000000000000 && Pow10(17) == 1_00000000000000000
    ensures Pow10(18) == 1_000000000000000000 && Pow10(19) == 1_0000000000000000000
    ensures Pow10(20) == 1_00000000000000000000
  {
    assert Pow10(4) == 1_0000;
    assert Pow10(8) == 1_0000_0000;
    assert Pow10(12) == 1_0000_0000_0000;
    assert Pow10(16) == 1_0000_0000_0000_0000;
  }

  lemma MulAssoc(a: int, b: int, c: int)
    ensures a * (b * c) == (a * b) * c
  {
  }

  lemma MulLe(a: int, b: int, c: int)
    requires a <= b && 0 <= c
    ensures a * c <= b * c
  {
  }

  lemma MulLt(a: int, b: int, c: int)
    requires a < b && 0 < c
    ensures a * c < b * c
    ensures a * c + c <= b * c
  {
    MulLe(a + 1, b, c);
  }

  /** A quotient and remainder determine the division they come from. */
  lemma DivUnique(x: int, d: int, q: int, r: int)
    requires d > 0 && 0 <= r < d && x == q * d + r
    ensures x / d == q && x % d == r
  {
    var q', r' := x / d, x % d;
    assert x == q' * d + r';
    if q < q' {
      MulLt(q, q', d);
    } else if q' < q {
      MulLt(q', q, d);
    }
  }

  lemma DivNonnegative(x: nat, d: nat)
    requires d > 0
    ensures x / d >= 0
  {
    QuotientBelow(x, d, 0);
  }

  lemma QuotientBelow(x: nat, d: nat, b: int)
    requires d > 0
    ensures x / d < b <==> x < b * d
  {
    var q := x / d;
    assert x == q * d + x % d;
    if q < b {
      MulLe(q + 1, b, d);
      assert (q + 1) * d == q * d + d;
    } else {
      MulLe(b, q, d);
    }
  }

  lemma DivMul(x: nat, d: nat)
    requires d > 0
    ensures (x * d) / d == x && (x * d) % d == 0
  {
    DivUnique(x * d, d, x, 0);
  }

  /** Dividing in two stages is dividing once by the product. */
  lemma DivDiv(x: nat, a: nat, b: nat)
    requires a > 0 && b > 0
    ensures a * b > 0
    ensures (x / a) / b == x / (a * b)
  {
    var q, r := x / a, x % a;
    var q', r' := q / b, q % b;
    assert x == q * a + r && q == q' * b + r';
    assert x == q' * (a * b) + (r' * a + r) by {
      assert (q' * b + r') * a == q' * (a * b) + r' * a;
    }
    MulLt(r', b, a);
    assert b * a == a * b;
    DivUnique(x, a * b, q', r' * a + r);
  }

  /** Cutting c down to a multiple of p, in units of u, loses less than p units. */
  lemma CutOff(c: nat, p: nat, u: nat)
    requires p > 0 && u > 0
    ensures (c / p) * (p * u) <= c * u
    ensures c * u - (c / p) * (p * u) == (c % p) * u <= p * u - u
    ensures c % p == 0 <==> c * u == (c / p) * (p * u)
  {
    var q, r := c / p, c % p;
    assert c == q * p + r;
    assert (q * p + r) * u == (q * p) * u + r * u;
    MulAssoc(q, p, u);
    MulLe(0, r, u);
    MulLe(r, p - 1, u);
    if r > 0 {
      MulLe(1, r, u);
    }
  }

  lemma DivPow(x: nat, n: nat)
    requires n > 0
    ensures (x / 10) / Pow10(n - 1) == x / Pow10(n)
  {
    DivDiv(x, 10, Pow10(n - 1));
  }

  lemma DivisorLarger(x: nat, a: nat, b: nat)
    requires 0 < a <= b
    ensures x / b <= x / a
  {
    if x / b > x / a {
      MulLt(x / a, x / b, a);
      MulLe(a, b, x / b);
    }
  }

  /** Digits locates x between consecutive powers of ten. */
  lemma {:induction false} DigitsBounds(x: nat)
    ensures x < Pow10(Digits(x))
    ensures x > 0 ==> Pow10(Digits(x) - 1) <= x
  {
    if x > 0 {
      DigitsBounds(x / 10);
      assert x == 10 * (x / 10) + x % 10;
      if x >= 10 {
        assert Pow10(Digits(x) - 1) == 10 * Pow10(Digits(x / 10) - 1);
      }
    }
  }

  /** ... and is the only count that does. */
  lemma DigitsUnique(x: nat, n: nat)
    requires n > 0 && Pow10(n - 1) <= x < Pow10(n)
    ensures Digits(x) == n
  {
    DigitsBounds(x);
    if Digits(x) < n {
      PowMonotone(Digits(x), n - 1);
    } else if Digits(x) > n {
      PowMonotone(n, Digits(x) - 1);
    }
  }

  lemma DigitsAtMost(x: nat, n: nat)
    ensures x < Pow10(n) <==> Digits(x) <= n
  {
    DigitsBounds(x);
    if Digits(x) <= n {
      PowMonotone(Digits(x), n);
    } else {
      PowMonotone(n, Digits(x) - 1);
    }
  }

  lemma {:induction false} DigitsMul(x: nat, n: nat)
    requires x > 0
    ensures Digits(x * Pow10(n)) == Digits(x) + n
  {
    DigitsBounds(x);
    var k := Digits(x);
    MulLe(Pow10(k - 1), x, Pow10(n));
    MulLt(x, Pow10(k), Pow10(n));
    PowAdd(k - 1, n);
    PowAdd(k, n);
    assert k - 1 + n == k + n - 1;
    DigitsUnique(x * Pow10(n), k + n);
  }

  /** The first digit cut off says on which side of a half the whole of what is cut off lies. */
  lemma FirstFractionDigit(c: nat, n: nat)
    requires n > 0
    ensures var t := c / Pow10(n - 1);
            && t / 10 == c / Pow10(n)
            && (t % 10 >= 5 <==> 2 * (c % Pow10(n)) >= Pow10(n))
  {
    var p := Pow10(n - 1);
    var t, s := c / p, c % p;
    DivDiv(c, p, 10);
    DigitAndRest(c, p, t / 10, t % 10, s);
    DivUnique(c, 10 * p, t / 10, (t % 10) * p + s);
  }

  lemma DigitAndRest(c: int, p: int, q: int, digit: int, s: int)
    requires p > 0 && 0 <= digit <= 9 && 0 <= s < p && c == (10 * q + digit) * p + s
    ensures c == q * (10 * p) + (digit * p + s) && 0 <= digit * p + s < 10 * p
    ensures digit >= 5 <==> 2 * (digit * p + s) >= 10 * p
  {
    assert (10 * q + digit) * p == q * (10 * p) + digit * p;
    MulLe(0, digit, p);
    MulLe(digit, 9, p);
    if digit >= 5 {
      MulLe(5, digit, p);
    } else {
      MulLe(digit, 4, p);
    }
  }
}

/**
  The integer routines of namespace DecimalPrivate: digit counting, scaling by
  powers of ten, and the 128-bit products. Unsigned 64-bit variables have the
  subset type uint64, so that every assignment to one is an obligation that the
  value did not wrap; where wrapping is allowed it is written out as Wrap.
*/
module DecimalPrimitives {
  import opened PowersOfTen

  const TWO_32: int := 0x1_0000_0000
  const TWO_64: int := 0x1_0000_0000_0000_0000
  const MAX_COEFFICIENT: int := 999_999_999_999_999_999
  const PRECISION: int := 18

  type uint32 = x: int | 0 <= x < 0x1_0000_0000
  type uint64 = x: int | 0 <= x < 0x1_0000_0000_0000_0000

  /** Unsigned 64-bit arithmetic: the value modulo 2^64. */
  function Wrap(x: int): (r: uint64)
    ensures 0 <= x < TWO_64 ==> r == x
  {
    x % TWO_64
  }

  /** The two's complement reading of a 64-bit word. */
  function AsInt64(x: uint64): (r: int) {
    if x < 0x8000_0000_0000_0000 then x else x - TWO_64
  }

  /** A wrapped difference read as int64 is the true difference when that fits. */
  lemma WrappedDifference(a: uint64, b: uint64)
    requires -0x8000_0000_0000_0000 <= a - b < 0x8000_0000_0000_0000
    ensures AsInt64(Wrap(a - b)) == a - b
  {
    if a < b {
      DivUnique(a - b, TWO_64, -1, a - b + TWO_64);
    } else {
      DivUnique(a - b, TWO_64, 0, a - b);
    }
  }

  lemma WrapUnique(x: int, q: int, r: int)
    requires x == q * TWO_64 + r && 0 <= r < TWO_64
    ensures Wrap(x) == r
  {
    DivUnique(x, TWO_64, q, r);
  }

  /** Counts with a growing power of ten and stops before the power would wrap. */
  method CountDigits(x: uint64) returns (n: nat)
    ensures n == Digits(x)
  {
    n := 0;
    var powerOfTen: uint64 := 1;
    SmallPowers();
    while x >= powerOfTen
      invariant n <= 19 && powerOfTen == Pow10(n)
      invariant n > 0 ==> x >= Pow10(n - 1)
      decreases 20 - n
    {
      n := n + 1;
      if powerOfTen >= 0xFFFF_FFFF_FFFF_FFFF / 10 {
        assert n == 20 by {
          if n < 20 { PowMonotone(n - 1, 18); }
        }
        break;
      }
      if n == 20 {
        assert false;
      }
      PowMonotone(n, 19);
      powerOfTen := powerOfTen * 10;
    }
    if n > 0 {
      DigitsUnique(x, n);
    }
  }

  /** Repeated division by ten, cut short once nothing is left. */
  method ScaleDown(x: uint64, n: nat) returns (r: uint64)
    ensures r == x / Pow10(n)
  {
    r := x;
    var k := n;
    while k > 0 && r != 0
      invariant 0 <= k <= n
      invariant r / Pow10(k) == x / Pow10(n)
      decreases k
    {
      DivPow(r, k);
      r := r / 10;
      k := k - 1;
    }
    if r == 0 {
      DivUnique(0, Pow10(k), 0, 0);
    }
  }

  /** Binary exponentiation of ten. The final product is the only one that can wrap. */
  method ScaleUp(x: uint64, n: nat) returns (r: uint64)
    requires n <= PRECISION
    ensures r == Wrap(x * Pow10(n))
  {
    var y := TenTo(n);
    r := Wrap(x * y);
  }

  /** The loop of scaleUp: y is 10^a, z is 10^b, and a + b * k stays n. */
  method TenTo(n: nat) returns (y: uint64)
    requires n <= PRECISION
    ensures y == Pow10(n)
  {
    y := 1;
    var z: uint64, k := 10, n;
    ghost var a: nat, b: nat := 0, 1;
    assert Pow10(1) == 10;
    TimesOne(n);
    while true
      invariant y == Pow10(a) && z == Pow10(b)
      invariant b >= 1 && a + Times(b, k) == n
      decreases k
    {
      TimesHalf(b, k);
      if k % 2 == 1 {
        PowProduct(a, b);
        y := y * z;
        a := a + b;
      }
      k := k / 2;
      if k == 0 {
        return;
      }
      PowProduct(b, b);
      z := z * z;
      b := 2 * b;
    }
  }

  /** b * k, as repeated addition. */
  ghost function Times(b: nat, k: nat): (r: nat)
  {
    if k == 0 then 0 else b + Times(b, k - 1)
  }

  lemma {:induction false} TimesOne(k: nat)
    ensures Times(1, k) == k
  {
    if k > 0 {
      TimesOne(k - 1);
    }
  }

  lemma {:induction false} TimesTwice(b: nat, h: nat)
    ensures Times(b, 2 * h) == Times(2 * b, h)
  {
    if h > 0 {
      TimesTwice(b, h - 1);
      assert Times(b, 2 * h) == b + (b + Times(b, 2 * h - 2));
    }
  }

  lemma TimesHalf(b: nat, k: nat)
    ensures Times(b, k) == (if k % 2 == 1 then b else 0) + Times(2 * b, k / 2)
    ensures if k / 2 == 0 then Times(2 * b, k / 2) == 0 else 2 * b <= Times(2 * b, k / 2)
  {
    TimesTwice(b, k / 2);
  }

  lemma PowProduct(a: nat, b: nat)
    requires a + b <= 18
    ensures Pow10(a) * Pow10(b) == Pow10(a + b) < TWO_64
  {
    PowAdd(a, b);
    PowMonotone(a + b, 18);
    SmallPowers();
  }
}

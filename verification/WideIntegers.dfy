/** Decimal.cpp's UInt128: the product of two 64-bit numbers, and its division by a 32-bit number. */
module WideIntegers {
  import opened PowersOfTen
  import opened DecimalPrimitives

  function HighUInt32(x: uint64): (r: uint32) {
    x / TWO_32
  }

  function LowUInt32(x: uint64): (r: uint32) {
    x % TWO_32
  }

  function MakeUInt64(low: uint32, high: uint32): (r: uint64) {
    low + high * TWO_32
  }

  lemma HalfProduct(a: uint32, b: uint32)
    ensures 0 <= a * b <= (TWO_32 - 1) * (TWO_32 - 1)
  {
    MulLe(a, TWO_32 - 1, b);
    MulLe(b, TWO_32 - 1, TWO_32 - 1);
    MulLe(0, a, b);
  }

  /** The high word of the 128-bit product, from four 32-bit products. */
  function MultiplyHigh(u: uint64, v: uint64): (r: uint64)
    ensures r * TWO_64 + Wrap(u * v) == u * v
  {
    var uLow, uHigh, vLow, vHigh := LowUInt32(u), HighUInt32(u), LowUInt32(v), HighUInt32(v);
    HalfProduct(uLow, vLow);
    HalfProduct(uHigh, vLow);
    HalfProduct(uLow, vHigh);
    HalfProduct(uHigh, vHigh);
    var partialProduct: uint64 := uHigh * vLow + HighUInt32(uLow * vLow);
    MultiplyHighCorrect(u, v);
    uHigh * vHigh + HighUInt32(partialProduct) + HighUInt32(uLow * vHigh + LowUInt32(partialProduct))
  }

  lemma MultiplyHighCorrect(u: uint64, v: uint64)
    ensures var ul, uh, vl, vh := LowUInt32(u), HighUInt32(u), LowUInt32(v), HighUInt32(v);
            var p := uh * vl + (ul * vl) / TWO_32;
            var r := uh * vh + p / TWO_32 + (ul * vh + p % TWO_32) / TWO_32;
            r < TWO_64 && r * TWO_64 + Wrap(u * v) == u * v
  {
    var B := TWO_32;
    var ul, uh, vl, vh := LowUInt32(u), HighUInt32(u), LowUInt32(v), HighUInt32(v);
    var q := ul * vl;
    var p := uh * vl + q / B;
    var m := ul * vh + p % B;
    var r := uh * vh + p / B + m / B;
    assert u == uh * B + ul && v == vh * B + vl;
    Expand(uh, ul, vh, vl, B);
    var low := (m % B) * B + q % B;
    assert u * v == r * TWO_64 + low by {
      assert q == (q / B) * B + q % B;
      assert p == (p / B) * B + p % B;
      assert m == (m / B) * B + m % B;
    }
    WrapUnique(u * v, r, low);
    if r >= TWO_64 {
      MulLt(u, TWO_64, TWO_64);
      MulLe(v, TWO_64, u);
      MulLe(TWO_64, r, TWO_64);
    }
  }

  lemma Expand(uh: int, ul: int, vh: int, vl: int, b: int)
    ensures (uh * b + ul) * (vh * b + vl) == uh * vh * (b * b) + (uh * vl + ul * vh) * b + ul * vl
  {
  }

  /** A 128-bit unsigned integer that is divided in place. */
  class UInt128 {
    var high: uint64
    var low: uint64

    ghost function Value(): (v: nat)
      reads this
    {
      high * TWO_64 + low
    }

    constructor (low: uint64, high: uint64)
      ensures Value() == high * TWO_64 + low
    {
      this.high := high;
      this.low := low;
    }

    static method Multiply(u: uint64, v: uint64) returns (p: UInt128)
      ensures fresh(p) && p.Value() == u * v
    {
      p := new UInt128(Wrap(u * v), MultiplyHigh(u, v));
    }

    /** Schoolbook long division, one 32-bit word at a time from the top. */
    method DivideBy(divisor: uint32)
      requires divisor != 0
      modifies this
      ensures Value() == old(Value()) / divisor
    {
      if high == 0 {
        low := low / divisor;
        return;
      }
      var dividend := new uint32[4];
      dividend[0], dividend[1] := LowUInt32(low), HighUInt32(low);
      dividend[2], dividend[3] := LowUInt32(high), HighUInt32(high);
      FourWords(dividend[..]);
      var quotient := LongDivide(dividend, divisor);
      low := MakeUInt64(quotient[0], quotient[1]);
      high := MakeUInt64(quotient[2], quotient[3]);
      FourWords(quotient[..]);
    }
  }

  method LongDivide(dividend: array<uint32>, divisor: uint32) returns (quotient: array<uint32>)
    requires divisor != 0 && dividend.Length == 4
    ensures quotient.Length == 4
    ensures Number(quotient[..]) == Number(dividend[..]) / divisor
  {
    ghost var words := dividend[..];
    quotient := new uint32[4](_ => 0);
    var remainder: uint32 := 0;
    assert LongDivision(words[4..], quotient[4..], divisor, 0);
    for i := 4 downto 0
      invariant words == dividend[..]
      invariant remainder < divisor
      invariant LongDivision(words[i..], quotient[i..], divisor, remainder)
    {
      ghost var higher := quotient[i + 1..];
      var work: uint64 := MakeUInt64(dividend[i], remainder);
      WordQuotient(dividend[i], remainder, divisor, work);
      LongDivisionStep(dividend[i], words[i + 1..], higher, divisor, remainder, work / divisor, work % divisor);
      remainder := work % divisor;
      quotient[i] := work / divisor;
      assert words[i..] == [words[i]] + words[i + 1..];
      assert quotient[i..] == [quotient[i]] + higher;
    }
    assert words[0..] == words && quotient[0..] == quotient[..];
    LongDivisionDone(words, quotient[..], divisor, remainder);
  }

  // ----- long division, word by word

  /** The number whose base 2^32 digits are ws, the least significant first. */
  ghost function Number(ws: seq<uint32>): (n: nat) {
    if ws == [] then 0 else ws[0] + TWO_32 * Number(ws[1..])
  }

  lemma FourWords(ws: seq<uint32>)
    requires |ws| == 4
    ensures Number(ws) == MakeUInt64(ws[2], ws[3]) * TWO_64 + MakeUInt64(ws[0], ws[1])
  {
    assert ws[1..][1..] == ws[2..] && ws[2..][1..] == ws[3..] && ws[3..][1..] == [];
    assert Number(ws[3..]) == ws[3];
    assert Number(ws[1..]) == ws[1] + TWO_32 * (ws[2] + TWO_32 * ws[3]);
  }

  ghost predicate LongDivision(dividend: seq<uint32>, quotient: seq<uint32>, divisor: uint32, remainder: uint32) {
    Number(dividend) == Number(quotient) * divisor + remainder
  }

  lemma LongDivisionDone(dividend: seq<uint32>, quotient: seq<uint32>, divisor: uint32, remainder: uint32)
    requires remainder < divisor && LongDivision(dividend, quotient, divisor, remainder)
    ensures Number(quotient) == Number(dividend) / divisor
  {
    DivUnique(Number(dividend), divisor, Number(quotient), remainder);
  }

  lemma LongDivisionStep(word: uint32, rest: seq<uint32>, higher: seq<uint32>, divisor: uint32, remainder: uint32,
                         q: uint32, r: uint32)
    requires MakeUInt64(word, remainder) == q * divisor + r
    requires LongDivision(rest, higher, divisor, remainder)
    ensures LongDivision([word] + rest, [q] + higher, divisor, r)
  {
    var h := Number(higher);
    assert ([word] + rest)[1..] == rest && ([q] + higher)[1..] == higher;
    assert (q + TWO_32 * h) * divisor == q * divisor + TWO_32 * (h * divisor);
  }

  lemma WordQuotient(word: uint32, remainder: uint32, divisor: uint32, work: uint64)
    requires remainder < divisor && work == MakeUInt64(word, remainder)
    ensures 0 <= work / divisor < TWO_32 && 0 <= work % divisor < divisor
    ensures work == (work / divisor) * divisor + work % divisor
  {
    if work / divisor >= TWO_32 {
      MulLe(TWO_32, work / divisor, divisor);
      MulLe(remainder + 1, divisor, TWO_32);
    }
  }
}

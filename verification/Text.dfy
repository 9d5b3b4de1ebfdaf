/** Text as UTF-16 code units, the characters the parsers and printers name, and decimal digit strings. */
module Text {
  import opened PowersOfTen

  datatype Option<T> = None | Some(value: T)

  type UChar = c: int | 0 <= c < 0x10000

  type Text = seq<UChar>

  const PLUS: UChar := 0x2B
  const MINUS: UChar := 0x2D
  const DOT: UChar := 0x2E
  const ZERO: UChar := 0x30
  const NINE: UChar := 0x39
  const UPPER_E: UChar := 0x45
  const LOWER_E: UChar := 0x65

  lemma Assoc<T>(a: seq<T>, b: seq<T>, c: seq<T>)
    ensures (a + b) + c == a + (b + c)
  {
  }

  predicate IsDigit(c: UChar) {
    ZERO <= c <= NINE
  }

  predicate IsE(ch: UChar) {
    ch == UPPER_E || ch == LOWER_E
  }

  predicate AllDigits(s: Text) {
    forall i :: 0 <= i < |s| ==> IsDigit(s[i])
  }

  predicate AllZeros(s: Text) {
    forall i :: 0 <= i < |s| ==> s[i] == ZERO
  }

  function DigitOf(c: UChar): (d: nat)
    requires IsDigit(c)
    ensures d <= 9
  {
    c - ZERO
  }

  /** The number a digit string denotes. */
  function Nat(s: Text): (n: nat)
    requires AllDigits(s)
  {
    if s == [] then 0 else 10 * Nat(s[..|s| - 1]) + DigitOf(s[|s| - 1])
  }

  lemma NatSnoc(s: Text, c: UChar)
    requires AllDigits(s) && IsDigit(c)
    ensures AllDigits(s + [c]) && Nat(s + [c]) == 10 * Nat(s) + DigitOf(c)
  {
    assert (s + [c])[..|s|] == s;
  }

  lemma {:induction false} NatBound(s: Text)
    requires AllDigits(s)
    ensures Nat(s) < Pow10(|s|)
  {
    if s != [] {
      NatBound(s[..|s| - 1]);
    }
  }

  lemma AppendDigit(x: int, p: int, q: int, y: int, d: int)
    requires q == 10 * p
    ensures 10 * (x * p + y) + d == x * q + (10 * y + d)
  {
    assert x * (10 * p) == 10 * (x * p);
  }

  lemma {:induction false} NatConcat(a: Text, b: Text)
    requires AllDigits(a) && AllDigits(b)
    ensures AllDigits(a + b)
    ensures Nat(a + b) == Nat(a) * Pow10(|b|) + Nat(b)
  {
    if b == [] {
      assert a + b == a;
    } else {
      var b', c := b[..|b| - 1], b[|b| - 1];
      NatConcat(a, b');
      assert b == b' + [c];
      ConcatSnoc(a, b', c);
    }
  }

  lemma ConcatSnoc(a: Text, b: Text, c: UChar)
    requires AllDigits(a) && AllDigits(b) && IsDigit(c)
    requires Nat(a + b) == Nat(a) * Pow10(|b|) + Nat(b)
    ensures AllDigits(a + (b + [c])) && Nat(a + (b + [c])) == Nat(a) * Pow10(|b + [c]|) + Nat(b + [c])
  {
    assert Pow10(|b| + 1) == 10 * Pow10(|b|);
    hide Nat, Pow10;
    NatSnoc(a + b, c);
    NatSnoc(b, c);
    Assoc(a, b, [c]);
    AppendDigit(Nat(a), Pow10(|b|), Pow10(|b| + 1), Nat(b), DigitOf(c));
  }

  lemma {:induction false} NatOfZeros(s: Text)
    requires AllZeros(s)
    ensures AllDigits(s) && Nat(s) == 0
  {
    if s != [] {
      NatOfZeros(s[..|s| - 1]);
    }
  }

  /** Digits from the first nonzero one on. */
  function StripZeros(s: Text): (r: Text)
    ensures AllDigits(s) ==> AllDigits(r)
  {
    if s != [] && s[0] == ZERO then StripZeros(s[1..]) else s
  }

  lemma {:induction false} StripZerosShape(s: Text)
    ensures var r := StripZeros(s);
            && |r| <= |s| && s == s[..|s| - |r|] + r
            && AllZeros(s[..|s| - |r|])
            && (r != [] ==> r[0] != ZERO)
  {
    if s != [] && s[0] == ZERO {
      var t, r := s[1..], StripZeros(s);
      StripZerosShape(t);
      var k := |t| - |r|;
      Assoc([ZERO], t[..k], r);
      assert s == [ZERO] + t && s[..k + 1] == [ZERO] + t[..k];
    } else {
      assert s[..0] + s == s;
    }
  }

  lemma {:induction false} StripZerosSnoc(s: Text, c: UChar)
    ensures StripZeros(s + [c]) == if StripZeros(s) == [] && c == ZERO then [] else StripZeros(s) + [c]
  {
    if s != [] {
      assert (s + [c])[0] == s[0] && (s + [c])[1..] == s[1..] + [c];
      if s[0] == ZERO {
        StripZerosSnoc(s[1..], c);
      }
    } else {
      assert s + [c] == [c] && [c][1..] == [];
    }
  }

  lemma NatStripZeros(s: Text)
    requires AllDigits(s)
    ensures Nat(StripZeros(s)) == Nat(s)
  {
    StripZerosShape(s);
    var r := StripZeros(s);
    var z := s[..|s| - |r|];
    NatOfZeros(z);
    NatConcat(z, r);
  }

  /** The usual decimal notation of a number, without leading zeros. */
  function NatText(n: nat): (s: Text)
    ensures s != [] && AllDigits(s)
  {
    if n < 10 then [ZERO + n] else NatText(n / 10) + [ZERO + n % 10]
  }

  lemma {:induction false} NatTextValue(n: nat)
    ensures Nat(NatText(n)) == n
  {
    if n < 10 {
      assert [ZERO + n][..0] == [];
    } else {
      NatTextValue(n / 10);
      NatSnoc(NatText(n / 10), ZERO + n % 10);
    }
  }

  lemma {:induction false} NatTextShape(n: nat)
    ensures n > 0 ==> |NatText(n)| == Digits(n) && NatText(n)[0] != ZERO
    ensures n == 0 ==> NatText(n) == [ZERO]
  {
    if n >= 10 {
      NatTextShape(n / 10);
      assert NatText(n)[0] == NatText(n / 10)[0];
    }
  }

  function Zeros(n: nat): (s: Text)
    ensures |s| == n && AllZeros(s)
  {
    seq(n, _ => ZERO)
  }
}

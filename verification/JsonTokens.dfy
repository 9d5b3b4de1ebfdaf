/** The tokens of section 2 of RFC 7159, and how they are read back from what the writer writes. */
module JsonTokens {
  import opened Text
  import opened DecimalNumber
  import opened DecimalPrinter
  import opened Numerals
  import DecimalRoundTrip
  import opened JsonTree
  import opened JsonWriter
  import opened JsonParser
  import opened JsonGrammar

  // ----- white space

  predicate AllWhite(ws: Text) {
    forall i :: 0 <= i < |ws| ==> IsWhitespace(ws[i])
  }

  lemma {:induction false} SkipAll(ws: Text, s: Text)
    requires AllWhite(ws)
    ensures SkipWhite(ws + s) == SkipWhite(s)
  {
    if ws == [] {
      assert ws + s == s;
    } else {
      assert (ws + s)[0] == ws[0] && (ws + s)[1..] == ws[1..] + s;
      SkipAll(ws[1..], s);
    }
  }

  lemma {:induction false} IndentIsWhite(depth: nat)
    ensures AllWhite(Indent(depth))
  {
    if depth > 0 {
      IndentIsWhite(depth - 1);
    }
  }

  lemma BreakIsWhite(pretty: bool, depth: nat)
    ensures AllWhite(Break(pretty, depth))
  {
    IndentIsWhite(depth);
  }

  // ----- structural characters

  lemma OneChar(c: UChar, s: Text)
    ensures ([c] + s)[0] == c && ([c] + s)[1..] == s
    ensures !IsWhitespace(c) ==> SkipWhite([c] + s) == [c] + s
  {
  }

  /** A character comes next, perhaps after white space. */
  lemma BeyondChar(ws: Text, c: UChar, s: Text)
    requires AllWhite(ws) && !IsWhitespace(c)
    ensures Beyond(c, ws + ([c] + s)) == Some(s)
    ensures forall d :: d != c ==> Beyond(d, ws + ([c] + s)) == None
  {
    SkipAll(ws, [c] + s);
    OneChar(c, s);
  }

  // ----- strings

  lemma HexRead(c: UChar)
    ensures var h := FourHex(c);
            |h| == 4 && (forall i :: 0 <= i < 4 ==> IsHex(h[i])) && HexValue(h) == c
  {
    HexDigitRead(c / 4096);
    HexDigitRead(c / 256 % 16);
    HexDigitRead(c / 16 % 16);
    HexDigitRead(c % 16);
    FourPlaces(c);
  }

  lemma FourPlaces(c: UChar)
    ensures (c / 4096) * 4096 + (c / 256 % 16) * 256 + (c / 16 % 16) * 16 + c % 16 == c
  {
    assert c / 256 == (c / 16) / 16 && c / 4096 == (c / 256) / 16;
  }

  lemma HexDigitRead(n: nat)
    requires n < 16
    ensures IsHex(HexDigit(n)) && HexToInt(HexDigit(n)) == n
  {
  }

  /** An escaped character is read as one character. */
  lemma EscapedCharRead(c: UChar, s: Text)
    ensures StrictString(EscapeChar(c) + s) == WithChar(c, StrictString(s))
  {
    var t := EscapeChar(c) + s;
    match ShortEscape(c)
    case Some(x) =>
      assert t[0] == BACKSLASH && t[1] == x && t[2..] == s;
    case None =>
      if |EscapeChar(c)| == 1 {
        assert t[0] == c && t[1..] == s;
      } else {
        HexRead(c);
        UnicodeRead(FourHex(c), s, t);
      }
  }

  lemma UnicodeRead(h: Text, s: Text, t: Text)
    requires |h| == 4 && (forall i :: 0 <= i < 4 ==> IsHex(h[i])) && t == [BACKSLASH, LOWER_U] + h + s
    ensures StrictString(t) == WithChar(HexValue(h), StrictString(s))
  {
    assert t[0] == BACKSLASH && t[1] == LOWER_U && t[6..] == s;
    assert forall i :: 0 <= i < 4 ==> t[2..][i] == h[i];
  }

  /** A quoted string is read to its end, and is the string. */
  lemma {:induction false} EscapedRead(s: Text, rest: Text)
    ensures StrictString(Escape(s) + ([QUOTE] + rest)) == Built(s, rest)
  {
    if s == [] {
      assert Escape(s) + ([QUOTE] + rest) == [QUOTE] + rest;
      OneChar(QUOTE, rest);
    } else {
      EscapedRead(s[1..], rest);
      Assoc(EscapeChar(s[0]), Escape(s[1..]), [QUOTE] + rest);
      EscapedCharRead(s[0], Escape(s[1..]) + ([QUOTE] + rest));
      assert s == [s[0]] + s[1..];
    }
  }

  lemma QuoteShape(s: Text, rest: Text)
    ensures Quote(s) + rest == [QUOTE] + (Escape(s) + ([QUOTE] + rest))
  {
    Assoc([QUOTE] + Escape(s), [QUOTE], rest);
    Assoc([QUOTE], Escape(s), [QUOTE] + rest);
  }

  /** The same with its quotation marks, and perhaps white space before it. */
  lemma QuotedRead(ws: Text, s: Text, rest: Text)
    requires AllWhite(ws)
    ensures Beyond(QUOTE, ws + (Quote(s) + rest)) == Some(Escape(s) + ([QUOTE] + rest))
    ensures StrictString(Escape(s) + ([QUOTE] + rest)) == Built(s, rest)
  {
    QuoteShape(s, rest);
    BeyondChar(ws, QUOTE, Escape(s) + ([QUOTE] + rest));
    EscapedRead(s, rest);
  }

  // ----- numbers

  /** What may follow a number without being taken for part of it. */
  predicate Delimited(rest: Text) {
    rest == [] || !(IsDigit(rest[0]) || rest[0] == DOT || IsE(rest[0]))
  }

  predicate NoDigitFirst(s: Text) {
    s == [] || !IsDigit(s[0])
  }

  lemma {:induction false} DigitRunConcat(a: Text, b: Text)
    requires AllDigits(a) && NoDigitFirst(b)
    ensures DigitRun(a + b) == |a|
  {
    if a == [] {
      assert a + b == b;
    } else {
      assert (a + b)[0] == a[0] && (a + b)[1..] == a[1..] + b;
      DigitRunConcat(a[1..], b);
    }
  }

  lemma IntRead(a: Text, b: Text, canHaveLeadingZeros: bool)
    requires AllDigits(a) && a != [] && NoDigitFirst(b)
    requires canHaveLeadingZeros || |a| == 1 || a[0] != ZERO
    ensures ReadInt(a + b, canHaveLeadingZeros) == Some(b)
  {
    DigitRunConcat(a, b);
    assert (a + b)[0] == a[0] && (a + b)[|a|..] == b;
  }

  /** The numerals that section 6 of RFC 7159 calls numbers. */
  predicate JsonNumber(n: Numeral) {
    && n.mark != PlusMark
    && AllDigits(n.whole) && n.whole != [] && (|n.whole| == 1 || n.whole[0] != ZERO)
    && (n.frac.Some? ==> AllDigits(n.frac.value) && n.frac.value != [])
    && (n.exp.Some? ==> AllDigits(n.exp.value.digits) && n.exp.value.digits != [] && IsE(n.exp.value.letter))
  }

  lemma UnsignedExponentRead(letter: UChar, digits: Text, rest: Text)
    requires AllDigits(digits) && digits != [] && IsE(letter) && Delimited(rest)
    ensures ScanExponent([letter] + (digits + rest)) == Some(rest)
  {
    hide ReadInt;
    IntRead(digits, rest, true);
    OneChar(letter, digits + rest);
    assert (digits + rest)[0] == digits[0];
  }

  lemma SignedExponentRead(letter: UChar, sign: UChar, digits: Text, rest: Text)
    requires AllDigits(digits) && digits != [] && IsE(letter) && (sign == MINUS || sign == PLUS) && Delimited(rest)
    ensures ScanExponent([letter] + ([sign] + (digits + rest))) == Some(rest)
  {
    hide ReadInt;
    IntRead(digits, rest, true);
    var t := [sign] + (digits + rest);
    OneChar(letter, t);
    OneChar(sign, digits + rest);
    assert ([letter] + t)[2..] == t[1..];
  }

  lemma ExponentRead(x: Exponent, rest: Text)
    requires AllDigits(x.digits) && x.digits != [] && IsE(x.letter) && Delimited(rest)
    ensures ScanExponent(ExponentText(Some(x)) + rest) == Some(rest)
  {
    hide ScanExponent;
    Assoc([x.letter] + MarkText(x.mark), x.digits, rest);
    Assoc([x.letter], MarkText(x.mark), x.digits + rest);
    if x.mark == NoMark {
      assert [] + (x.digits + rest) == x.digits + rest;
      UnsignedExponentRead(x.letter, x.digits, rest);
    } else {
      SignedExponentRead(x.letter, MarkText(x.mark)[0], x.digits, rest);
    }
  }

  lemma FractionRead(f: Text, tail: Text)
    requires AllDigits(f) && f != [] && NoDigitFirst(tail)
    ensures ScanFraction(FractionText(Some(f)) + tail) == Some(tail)
  {
    Assoc([DOT], f, tail);
    OneChar(DOT, f + tail);
    IntRead(f, tail, true);
  }

  lemma UnsignedRead(n: Numeral, rest: Text, tail: Text, afterInt: Text)
    requires JsonNumber(n) && Delimited(rest)
    requires tail == ExponentText(n.exp) + rest && afterInt == FractionText(n.frac) + tail
    ensures ReadInt(n.whole + afterInt, false) == Some(afterInt)
    ensures ScanFraction(afterInt) == Some(tail)
    ensures ScanExponent(tail) == Some(rest)
  {
    if n.exp.Some? {
      ExponentRead(n.exp.value, rest);
      assert tail[0] == n.exp.value.letter;
    } else {
      assert tail == rest;
    }
    if n.frac.Some? {
      FractionRead(n.frac.value, tail);
      assert afterInt[0] == DOT;
    } else {
      assert afterInt == tail;
    }
    IntRead(n.whole, afterInt, false);
  }

  /** A number is scanned exactly to its end. */
  lemma NumberRead(n: Numeral, rest: Text)
    requires JsonNumber(n) && Delimited(rest)
    ensures ScanNumber(Render(n) + rest) == Some(rest)
    ensures Render(n) != [] && (IsDigit(Render(n)[0]) || Render(n)[0] == MINUS)
  {
    var tail := ExponentText(n.exp) + rest;
    var afterInt := FractionText(n.frac) + tail;
    UnsignedRead(n, rest, tail, afterInt);
    var unsigned := n.whole + afterInt;
    NumberPieces(n, rest);
    if n.mark == MinusMark {
      OneChar(MINUS, unsigned);
    } else {
      assert [] + unsigned == unsigned;
    }
  }

  lemma NumberPieces(n: Numeral, rest: Text)
    ensures Render(n) + rest == MarkText(n.mark) + (n.whole + (FractionText(n.frac) + (ExponentText(n.exp) + rest)))
  {
    var m, w, f, x := MarkText(n.mark), n.whole, FractionText(n.frac), ExponentText(n.exp);
    Assoc(m + w + f, x, rest);
    Assoc(m + w, f, x + rest);
    Assoc(m, w, f + (x + rest));
  }

  lemma PrintedExponentIsNumber(adjusted: int)
    ensures var x := DecimalRoundTrip.PrintedExponent(adjusted);
            x.Some? ==> AllDigits(x.value.digits) && x.value.digits != [] && IsE(x.value.letter)
  {
    hide NatText;
    NatTextShape(if adjusted < 0 then -adjusted else adjusted);
  }

  lemma DigitsAreJsonNumber(sign: Sign, digits: Text, e: int)
    requires AllDigits(digits) && digits != [] && (|digits| == 1 || digits[0] != ZERO)
    ensures JsonNumber(DecimalRoundTrip.PrintedNumeral(sign, digits, e))
  {
    hide DecimalRoundTrip.PrintedExponent, TrimmedLength;
    PrintedExponentIsNumber(e + |digits| - 1);
  }

  /** The text of every finite decimal is a number of section 6. */
  lemma PrintIsJsonNumber(d: Decimal) returns (n: Numeral)
    requires d.IsFinite()
    ensures JsonNumber(n) && Render(n) == Print(d)
  {
    var (m, e) := Shortened(d.coefficient, d.exponent);
    n := DecimalRoundTrip.PrintedNumeral(d.sign, NatText(m), e);
    DecimalRoundTrip.LayoutIsNumeral(d.sign, NatText(m), e);
    NatTextShape(m);
    DigitsAreJsonNumber(d.sign, NatText(m), e);
  }

  // ----- whatever is scanned as a number is one

  lemma {:induction false} DigitRunIsDigits(s: Text)
    ensures AllDigits(s[..DigitRun(s)])
  {
    if s != [] && IsDigit(s[0]) {
      DigitRunIsDigits(s[1..]);
      assert s[..DigitRun(s)] == [s[0]] + s[1..][..DigitRun(s[1..])];
    }
  }

  lemma ScannedInt(s: Text, canHaveLeadingZeros: bool) returns (a: Text)
    requires ReadInt(s, canHaveLeadingZeros).Some?
    ensures AllDigits(a) && a != [] && s == a + ReadInt(s, canHaveLeadingZeros).value
    ensures canHaveLeadingZeros || |a| == 1 || a[0] != ZERO
  {
    a := s[..DigitRun(s)];
    DigitRunIsDigits(s);
  }

  lemma ScannedFraction(s: Text) returns (f: Option<Text>)
    requires ScanFraction(s).Some?
    ensures s == FractionText(f) + ScanFraction(s).value
    ensures f.Some? ==> AllDigits(f.value) && f.value != []
  {
    if s != [] && s[0] == DOT {
      var a := ScannedInt(s[1..], true);
      f := Some(a);
      Assoc([DOT], a, ScanFraction(s).value);
      assert s == [DOT] + s[1..];
    } else {
      f := None;
      assert [] + s == s;
    }
  }

  lemma ScannedExponent(s: Text) returns (x: Option<Exponent>)
    requires ScanExponent(s).Some?
    ensures s == ExponentText(x) + ScanExponent(s).value
    ensures x.Some? ==> AllDigits(x.value.digits) && x.value.digits != [] && IsE(x.value.letter)
  {
    if s == [] || !IsE(s[0]) {
      x := None;
      assert [] + s == s;
    } else if s[1] == MINUS || s[1] == PLUS {
      var a := ScannedInt(s[2..], true);
      x := Some(Exponent(s[0], if s[1] == MINUS then MinusMark else PlusMark, a));
      assert s == [s[0]] + [s[1]] + s[2..];
      Assoc([s[0]] + [s[1]], a, ScanExponent(s).value);
    } else {
      var a := ScannedInt(s[1..], true);
      x := Some(Exponent(s[0], NoMark, a));
      assert s == [s[0]] + [] + s[1..];
      Assoc([s[0]] + [], a, ScanExponent(s).value);
    }
  }

  /** The scanner takes nothing for a number that section 6 does not. */
  lemma ScannedIsJsonNumber(s: Text) returns (n: Numeral)
    requires ScanNumber(s).Some?
    ensures JsonNumber(n) && s == Render(n) + ScanNumber(s).value
  {
    hide ReadInt, ScanFraction, ScanExponent;
    var mark := if s != [] && s[0] == MINUS then MinusMark else NoMark;
    var unsigned := if mark == MinusMark then s[1..] else s;
    assert s == MarkText(mark) + unsigned;
    var a := ScannedInt(unsigned, false);
    var afterInt := ReadInt(unsigned, false).value;
    var f := ScannedFraction(afterInt);
    var x := ScannedExponent(ScanFraction(afterInt).value);
    n := Numeral(mark, a, f, x);
    NumberPieces(n, ScanNumber(s).value);
  }
}

/** When what parseJSON accepts is a JSON text: one pass over the characters decides. */
module JsonSpelling {
  import opened Text
  import opened Numerals
  import opened JsonTree
  import opened JsonParser
  import opened JsonParsed
  import opened JsonGrammar
  import opened JsonTokens
  import opened JsonRoundTrip

  /**
    A pass from left to right. Outside strings, a letter that starts a literal name starts the whole of it, and white
    space is one of four characters. Inside, no control character stands unescaped, and no escape is \v or \x.
  */
  predicate Spelled(s: Text, inside: bool)
    decreases |s|
  {
    if s == [] then true
    else if s[0] == QUOTE then Spelled(s[1..], !inside)
    else if inside then
      if s[0] == BACKSLASH then |s| >= 2 ==> s[1] != LOWER_V && s[1] != LOWER_X && Spelled(s[2..], true)
      else s[0] >= 0x20 && Spelled(s[1..], true)
    else if s[0] == LOWER_N then NULL_TEXT <= s && Spelled(s[4..], false)
    else if s[0] == LOWER_T then TRUE_TEXT <= s && Spelled(s[4..], false)
    else if s[0] == LOWER_F then FALSE_TEXT <= s && Spelled(s[5..], false)
    else (IsSpace(s[0]) ==> IsWhitespace(s[0])) && Spelled(s[1..], false)
  }

  // ----- characters that the pass goes over

  predicate Neutral(c: UChar) {
    && c != QUOTE && c != LOWER_N && c != LOWER_T && c != LOWER_F
    && (IsSpace(c) ==> IsWhitespace(c))
  }

  lemma {:induction false} PassOver(a: Text, rest: Text)
    requires forall i :: 0 <= i < |a| ==> Neutral(a[i])
    ensures Spelled(a + rest, false) <==> Spelled(rest, false)
    decreases |a|
  {
    if a == [] {
      assert a + rest == rest;
    } else {
      PassOver(a[1..], rest);
      assert (a + rest)[0] == a[0] && (a + rest)[1..] == a[1..] + rest;
    }
  }

  lemma {:induction false} PassWhite(s: Text)
    ensures Spelled(s, false) <==> Spelled(SkipWhite(s), false)
  {
    if s != [] && IsWhitespace(s[0]) {
      PassWhite(s[1..]);
    }
  }

  lemma PassBeyond(c: UChar, s: Text)
    requires Beyond(c, s).Some? && (Neutral(c) || c == QUOTE)
    ensures Spelled(s, false) <==> Spelled(Beyond(c, s).value, c == QUOTE)
  {
    PassWhite(s);
  }

  lemma PassNumber(t: Text)
    requires ScanNumber(t).Some?
    ensures Spelled(t, false) <==> Spelled(ScanNumber(t).value, false)
  {
    hide ScanNumber;
    var n := ScannedIsJsonNumber(t);
    NumeralIsNeutral(n);
    PassOver(Render(n), ScanNumber(t).value);
  }

  lemma NumeralIsNeutral(n: Numeral)
    requires JsonNumber(n)
    ensures forall i :: 0 <= i < |Render(n)| ==> Neutral(Render(n)[i])
  {
    assert forall i :: 0 <= i < |MarkText(n.mark)| ==> Neutral(MarkText(n.mark)[i]);
    assert forall i :: 0 <= i < |FractionText(n.frac)| ==> Neutral(FractionText(n.frac)[i]);
    assert forall i :: 0 <= i < |ExponentText(n.exp)| ==> Neutral(ExponentText(n.exp)[i]);
  }

  // ----- the pass goes over what the grammar reads

  lemma {:induction false} PassString(s: Text)
    requires StrictString(s).Built?
    ensures Spelled(s, true) <==> Spelled(StrictString(s).rest, false)
    decreases |s|
  {
    if s[0] == QUOTE {
    } else if s[0] != BACKSLASH {
      PassString(s[1..]);
    } else if ShortMeaning(s[1]).Some? {
      PassString(s[2..]);
    } else {
      PassString(s[6..]);
      PassHex(s[2..], 4);
      assert s[2..][4..] == s[6..];
    }
  }

  lemma {:induction false} PassHex(s: Text, n: nat)
    requires n <= |s| && forall i :: 0 <= i < n ==> IsHex(s[i])
    ensures Spelled(s, true) <==> Spelled(s[n..], true)
    decreases n
  {
    if n > 0 {
      PassHex(s[1..], n - 1);
      assert s[1..][n - 1..] == s[n..];
    }
  }

  lemma PassScalar(t: Text)
    requires StrictScalar(t).Built?
    ensures Spelled(t, false) <==> Spelled(StrictScalar(t).rest, false)
  {
    if !(NULL_TEXT <= t || TRUE_TEXT <= t || FALSE_TEXT <= t) {
      PassNumber(t);
    }
  }

  lemma {:induction false} PassValue(s: Text)
    requires StrictValue(s).Built?
    ensures Spelled(s, false) <==> Spelled(StrictValue(s).rest, false)
    decreases |s|, 0
  {
    hide Spelled, StrictString, StrictScalar, StrictItems, StrictMembers;
    if Beyond(QUOTE, s).Some? {
      PassBeyond(QUOTE, s);
      PassString(Beyond(QUOTE, s).value);
    } else if Beyond(LBRACKET, s).Some? {
      var u := Beyond(LBRACKET, s).value;
      PassBeyond(LBRACKET, s);
      if Beyond(RBRACKET, u).Some? {
        PassBeyond(RBRACKET, u);
      } else {
        PassItems(u);
      }
    } else if Beyond(LBRACE, s).Some? {
      var u := Beyond(LBRACE, s).value;
      PassBeyond(LBRACE, s);
      if Beyond(RBRACE, u).Some? {
        PassBeyond(RBRACE, u);
      } else {
        PassMembers(u);
      }
    } else {
      PassWhite(s);
      PassScalar(SkipWhite(s));
    }
  }

  lemma {:induction false} PassItems(s: Text)
    requires StrictItems(s).Built?
    ensures Spelled(s, false) <==> Spelled(StrictItems(s).rest, false)
    decreases |s|, 1
  {
    hide Spelled, StrictValue;
    var v := StrictValue(s);
    PassValue(s);
    if Beyond(COMMA, v.rest).Some? {
      PassBeyond(COMMA, v.rest);
      PassItems(Beyond(COMMA, v.rest).value);
    } else {
      PassBeyond(RBRACKET, v.rest);
    }
  }

  lemma PassKey(s: Text)
    requires StrictKey(s).Built?
    ensures Spelled(s, false) <==> Spelled(StrictKey(s).rest, false)
  {
    hide Spelled, StrictString;
    var q := Beyond(QUOTE, s).value;
    PassBeyond(QUOTE, s);
    PassString(q);
    PassBeyond(COLON, StrictString(q).rest);
  }

  lemma {:induction false} PassMembers(s: Text)
    requires StrictMembers(s).Built?
    ensures Spelled(s, false) <==> Spelled(StrictMembers(s).rest, false)
    decreases |s|, 1
  {
    hide Spelled, StrictValue, StrictKey;
    var k := StrictKey(s);
    var v := StrictValue(k.rest);
    PassKey(s);
    PassValue(k.rest);
    if Beyond(COMMA, v.rest).Some? {
      PassBeyond(COMMA, v.rest);
      PassMembers(Beyond(COMMA, v.rest).value);
    } else {
      PassBeyond(RBRACE, v.rest);
    }
  }

  // ----- well spelled, what the parser builds is what the grammar reads

  lemma {:induction false} SpelledSkip(s: Text)
    requires Spelled(s, false)
    ensures SkipSpaces(s) == SkipWhite(s) && Spelled(SkipWhite(s), false)
  {
    if s != [] && IsSpace(s[0]) {
      SpelledSkip(s[1..]);
    }
  }

  lemma SpelledStructural(c: UChar, s: Text)
    requires Spelled(s, false) && StructuralToken(c) != InvalidToken && ParseToken(s).token == StructuralToken(c)
    ensures Beyond(c, s) == Some(ParseToken(s).rest)
  {
    SpelledSkip(s);
  }

  lemma {:induction false} SpelledString(s: Text)
    requires ScanString(s).Some? && Spelled(s, true)
    ensures StrictString(s).Built?
    decreases |s|
  {
    if s[0] == QUOTE {
    } else if s[0] != BACKSLASH {
      SpelledString(s[1..]);
    } else if s[1] != LOWER_U {
      SpelledString(s[2..]);
    } else {
      assert s[2..][4..] == s[6..];
      PassHex(s[2..], 4);
      SpelledString(s[6..]);
    }
  }

  lemma SpelledQuoted(s: Text)
    requires Spelled(s, false) && ParseToken(s).token == StringLiteral
    ensures Beyond(QUOTE, s).Some? && StrictString(Beyond(QUOTE, s).value).Built?
  {
    hide ScanString, StrictString;
    SpelledSkip(s);
    SpelledString(SkipSpaces(s)[1..]);
  }

  lemma SpelledScalar(s: Text)
    requires Spelled(s, false) && IsScalarToken(ParseToken(s).token)
    ensures StrictScalar(SkipWhite(s)).Built?
    ensures Beyond(QUOTE, s).None? && Beyond(LBRACKET, s).None? && Beyond(LBRACE, s).None?
  {
    hide ScanNumber, ScanString;
    SpelledSkip(s);
  }

  /** What comes after a value that was built. */
  lemma SpelledRest(s: Text, depth: nat)
    requires BuildValue(s, depth).Built? && StrictValue(s).Built?
    ensures StrictValue(s).rest == BuildValue(s, depth).rest
    ensures Spelled(s, false) <==> Spelled(BuildValue(s, depth).rest, false)
  {
    hide StrictValue, BuildValue, Spelled;
    ValueParsed(s, depth);
    PassValue(s);
  }

  lemma {:induction false} SpelledValue(s: Text, depth: nat)
    requires BuildValue(s, depth).Built? && Spelled(s, false)
    ensures StrictValue(s).Built?
    decreases |s|, 0
  {
    hide ParseToken, Spelled, StrictString, StrictScalar, StrictItems, StrictMembers, DecodeLexeme;
    var l := ParseToken(s);
    if l.token == StringLiteral {
      SpelledQuoted(s);
    } else if l.token == ArrayBegin {
      SpelledStructural(LBRACKET, s);
      PassBeyond(LBRACKET, s);
      OnlyOne(LBRACKET, s);
      if ParseToken(l.rest).token == ArrayEnd {
        SpelledStructural(RBRACKET, l.rest);
      } else {
        SpelledItems(l.rest, depth, []);
      }
    } else if l.token == ObjectBegin {
      SpelledStructural(LBRACE, s);
      PassBeyond(LBRACE, s);
      OnlyOne(LBRACE, s);
      if ParseToken(l.rest).token == ObjectEnd {
        SpelledStructural(RBRACE, l.rest);
      } else {
        SpelledMembers(l.rest, depth, []);
      }
    } else {
      SpelledScalar(s);
    }
  }

  /** One character comes next. */
  lemma OnlyOne(c: UChar, s: Text)
    requires Beyond(c, s).Some?
    ensures forall d :: d != c ==> Beyond(d, s).None?
  {
  }

  lemma {:induction false} SpelledItems(s: Text, depth: nat, done: seq<Json<Text>>)
    requires BuildItems(s, depth, done).Built? && ParseToken(s).token != ArrayEnd && Spelled(s, false)
    ensures StrictItems(s).Built?
    decreases |s|, 1
  {
    hide ParseToken, Spelled, StrictValue, BuildValue;
    SpelledValue(s, depth + 1);
    SpelledRest(s, depth + 1);
    var rest := BuildValue(s, depth + 1).rest;
    if ParseToken(rest).token == ListSeparator {
      SpelledStructural(COMMA, rest);
      PassBeyond(COMMA, rest);
      SpelledItems(ParseToken(rest).rest, depth, done + [BuildValue(s, depth + 1).value]);
    } else {
      SpelledStructural(RBRACKET, rest);
      OnlyOne(RBRACKET, rest);
    }
  }

  lemma SpelledKey(s: Text)
    requires Spelled(s, false) && ParseToken(s).token == StringLiteral
    requires ParseToken(ParseToken(s).rest).token == ObjectPairSeparator
    ensures StrictKey(s).Built? && StrictKey(s).rest == ParseToken(ParseToken(s).rest).rest
    ensures Spelled(StrictKey(s).rest, false)
  {
    hide ParseToken, Spelled, StrictString, DecodeLexeme;
    SpelledQuoted(s);
    QuotedParsed(s);
    PassBeyond(QUOTE, s);
    PassString(Beyond(QUOTE, s).value);
    SpelledStructural(COLON, ParseToken(s).rest);
    PassBeyond(COLON, ParseToken(s).rest);
  }

  lemma {:induction false} SpelledMembers(s: Text, depth: nat, done: seq<Member<Text>>)
    requires BuildMembers(s, depth, done).Built? && ParseToken(s).token != ObjectEnd && Spelled(s, false)
    ensures StrictMembers(s).Built?
    decreases |s|, 1
  {
    hide ParseToken, Spelled, StrictValue, BuildValue, StrictKey, DecodeLexeme, SetMember;
    var l := ParseToken(s);
    SpelledKey(s);
    var u := ParseToken(l.rest).rest;
    SpelledValue(u, depth + 1);
    SpelledRest(u, depth + 1);
    var v := BuildValue(u, depth + 1);
    if ParseToken(v.rest).token == ListSeparator {
      SpelledStructural(COMMA, v.rest);
      PassBeyond(COMMA, v.rest);
      var members := SetMember(done, DecodeLexeme(l.lexeme).value, v.value);
      SpelledMembers(ParseToken(v.rest).rest, depth, members);
    } else {
      SpelledStructural(RBRACE, v.rest);
      OnlyOne(RBRACE, v.rest);
    }
  }

  // ----- whole texts

  lemma JsonIsSpelled(s: Text)
    requires Strict(s).Some?
    ensures Spelled(s, false)
  {
    hide StrictValue;
    PassValue(s);
    PassWhite(StrictValue(s).rest);
  }

  /** Of what parseJSON accepts, the JSON texts are exactly those that are well spelled. */
  lemma AcceptedIsJsonIffSpelled(s: Text)
    requires ParseJSON(s).Some?
    ensures Strict(s).Some? <==> Spelled(s, false)
  {
    hide StrictValue, BuildValue, Spelled;
    if Strict(s).Some? {
      JsonIsSpelled(s);
    } else if Spelled(s, false) {
      SpelledValue(s, 0);
      SpelledRest(s, 0);
    }
  }

  /** The texts that are both accepted and well spelled are the JSON texts that parseJSON has no reason to refuse. */
  lemma AcceptedAndSpelled(s: Text)
    ensures ParseJSON(s).Some? && Spelled(s, false) <==>
            && Strict(s).Some? && s != [] && !IsWhitespace(s[|s| - 1])
            && Height(Strict(s).value) <= STACK_LIMIT
  {
    hide Strict, ParseJSON, Spelled, Height;
    if Strict(s).Some? {
      JsonIsSpelled(s);
      ParserReadsJson(s);
    } else if ParseJSON(s).Some? {
      AcceptedIsJsonIffSpelled(s);
    }
  }

  // ----- a text for each way to be accepted without being JSON

  predicate Stray(s: Text) {
    ParseJSON(s).Some? && Strict(s).None?
  }

  lemma AcceptedIsStray(s: Text)
    requires ParseJSON(s).Some? && !Spelled(s, false)
    ensures Stray(s)
  {
    hide Strict, ParseJSON, Spelled;
    AcceptedIsJsonIffSpelled(s);
  }

  /** Any other last letter of a literal name. */
  lemma OtherLastLetters(c: UChar)
    ensures c != LOWER_L ==> Stray([LOWER_N, LOWER_U, LOWER_L, c])
    ensures c != LOWER_E ==> Stray([LOWER_T, LOWER_R, LOWER_U, c])
    ensures c != LOWER_E ==> Stray([LOWER_F, LOWER_A, LOWER_L, LOWER_S, c])
  {
    hide ParseJSON, Strict;
    LastLetterIsFree(c);
    var n, t := [LOWER_N, LOWER_U, LOWER_L, c], [LOWER_T, LOWER_R, LOWER_U, c];
    var f := [LOWER_F, LOWER_A, LOWER_L, LOWER_S, c];
    if c != LOWER_L {
      assert n[3] != NULL_TEXT[3];
      AcceptedIsStray(n);
    }
    if c != LOWER_E {
      assert t[3] != TRUE_TEXT[3] && f[4] != FALSE_TEXT[4];
      AcceptedIsStray(t);
      AcceptedIsStray(f);
    }
  }

  lemma StringAccepted(s: Text)
    requires ScanString(s) == Some([])
    ensures ParseJSON([QUOTE] + s).Some?
  {
    hide ScanString, DecodeLexeme;
    assert ([QUOTE] + s)[1..] == s;
    StringTokensDecode([QUOTE] + s);
  }

  /** A control character in a string. */
  lemma RawControls(c: UChar)
    requires c < 0x20
    ensures Stray([QUOTE, c, QUOTE])
  {
    hide ParseJSON, Strict;
    var s := [c, QUOTE];
    assert s[1..] == [QUOTE] && [QUOTE][1..] == [];
    StringAccepted(s);
    assert [QUOTE] + s == [QUOTE, c, QUOTE];
    assert [QUOTE, c, QUOTE][1..] == s;
    AcceptedIsStray([QUOTE, c, QUOTE]);
  }

  /** The escapes that only this parser knows. */
  lemma OtherEscapes(h: UChar, k: UChar)
    requires IsHex(h) && IsHex(k)
    ensures Stray([QUOTE, BACKSLASH, LOWER_V, QUOTE])
    ensures Stray([QUOTE, BACKSLASH, LOWER_X, h, k, QUOTE])
  {
    hide ParseJSON, Strict;
    var v, x := [BACKSLASH, LOWER_V, QUOTE], [BACKSLASH, LOWER_X, h, k, QUOTE];
    assert v[2..] == [QUOTE] && [QUOTE][1..] == [] && x[2..] == [h, k, QUOTE] && x[2..][2..] == [QUOTE];
    StringAccepted(v);
    StringAccepted(x);
    assert [QUOTE] + v == [QUOTE, BACKSLASH, LOWER_V, QUOTE] && [QUOTE, BACKSLASH, LOWER_V, QUOTE][1..] == v;
    assert [QUOTE] + x == [QUOTE, BACKSLASH, LOWER_X, h, k, QUOTE];
    assert [QUOTE, BACKSLASH, LOWER_X, h, k, QUOTE][1..] == x;
    AcceptedIsStray([QUOTE] + v);
    AcceptedIsStray([QUOTE] + x);
  }

  /** White space that is not one of the four characters. */
  lemma OtherSpaces(c: UChar)
    requires IsSpace(c) && !IsWhitespace(c)
    ensures Stray([c, ZERO])
  {
    hide Strict;
    assert [c, ZERO][1..] == [ZERO];
    assert [ZERO][1..] == [] && DigitRun([ZERO]) == 1;
    assert SkipSpaces([c, ZERO]) == [ZERO];
    AcceptedIsStray([c, ZERO]);
  }
}

/**
  JSONParser.cpp as it runs: loops that move a position through the text, each proved against the functions on what
  remains.
*/
module JsonScanner {
  import opened Text
  import opened JsonTree
  import opened JsonParser
  import opened JsonParsed

  /** A position after what was read, for the text that remains there. */
  predicate EndsAt(s: Text, end: Option<nat>, rest: Option<Text>) {
    match end
    case None => rest == None
    case Some(e) => e <= |s| && rest == Some(s[e..])
  }

  lemma Suffix(s: Text, i: nat, n: nat)
    requires i + n <= |s|
    ensures s[i..][n..] == s[i + n..]
    ensures n > 0 ==> s[i..][0] == s[i]
  {
  }

  lemma ConstEnds(s: Text, begin: nat, token: Text)
    requires token != [] && begin + |token| <= |s| && s[begin..begin + |token| - 1] == token[..|token| - 1]
    ensures ParseConst(s[begin..], token) == Some(s[begin + |token|..])
  {
    Suffix(s, begin, |token|);
    assert s[begin..][..|token| - 1] == s[begin..begin + |token| - 1];
  }

  method ParseConstToken(s: Text, begin: nat, token: Text) returns (end: Option<nat>)
    requires begin <= |s| && token != []
    ensures EndsAt(s, end, ParseConst(s[begin..], token))
  {
    var start, i, same := begin, 0, true;
    while start < |s| && i < |token| && same
      invariant start == begin + i <= |s| && i <= |token|
      invariant same ==> s[begin..start] == token[..i]
      invariant !same ==> i > 0 && s[begin..start - 1] == token[..i - 1] && s[start - 1] != token[i - 1]
      decreases |s| - start, same
    {
      same := s[start] == token[i];
      start, i := start + 1, i + 1;
    }
    var n, rest := |token|, s[begin..];
    if i != n {
      assert |rest| >= n ==> !same && rest[i - 1] != token[i - 1] && rest[..n - 1][i - 1] == rest[i - 1];
      return None;
    }
    assert s[begin..start - 1] == token[..n - 1] by {
      assert same ==> s[begin..start - 1] == s[begin..start][..n - 1] && token[..n][..n - 1] == token[..n - 1];
    }
    ConstEnds(s, begin, token);
    return Some(start);
  }

  method ReadInteger(s: Text, begin: nat, canHaveLeadingZeros: bool) returns (end: Option<nat>)
    requires begin <= |s|
    ensures EndsAt(s, end, ReadInt(s[begin..], canHaveLeadingZeros))
  {
    if begin == |s| {
      return None;
    }
    var haveLeadingZero := s[begin] == ZERO;
    var start, length := begin, 0;
    while start < |s| && IsDigit(s[start])
      invariant start == begin + length <= |s|
      invariant DigitRun(s[begin..]) == length + DigitRun(s[start..])
    {
      Suffix(s, start, 1);
      start, length := start + 1, length + 1;
    }
    if length == 0 || (!canHaveLeadingZeros && length > 1 && haveLeadingZero) {
      return None;
    }
    Suffix(s, begin, length);
    return Some(start);
  }

  method ReadHex(s: Text, begin: nat, digits: nat) returns (end: Option<nat>)
    requires begin <= |s|
    ensures EndsAt(s, end, ReadHexDigits(s[begin..], digits))
  {
    if |s| - begin < digits {
      return None;
    }
    for i := 0 to digits
      invariant forall j :: 0 <= j < i ==> IsHex(s[begin..][j])
    {
      if !IsHex(s[begin + i]) {
        assert !IsHex(s[begin..][i]);
        return None;
      }
    }
    Suffix(s, begin, digits);
    return Some(begin + digits);
  }

  method ReadFraction(s: Text, begin: nat) returns (end: Option<nat>)
    requires begin <= |s|
    ensures EndsAt(s, end, ScanFraction(s[begin..]))
  {
    if begin < |s| && s[begin] == DOT {
      Suffix(s, begin, 1);
      end := ReadInteger(s, begin + 1, true);
    } else {
      end := Some(begin);
    }
  }

  method ReadExponent(s: Text, begin: nat) returns (end: Option<nat>)
    requires begin <= |s|
    ensures EndsAt(s, end, ScanExponent(s[begin..]))
  {
    if begin < |s| && IsE(s[begin]) {
      Suffix(s, begin, 1);
      var start := begin + 1;
      if start == |s| {
        return None;
      }
      if s[start] == MINUS || s[start] == PLUS {
        Suffix(s, begin, 2);
        start := start + 1;
        if start == |s| {
          return None;
        }
      }
      end := ReadInteger(s, start, true);
    } else {
      end := Some(begin);
    }
  }

  method ParseNumberToken(s: Text, begin: nat) returns (end: Option<nat>)
    requires begin <= |s|
    ensures EndsAt(s, end, ScanNumber(s[begin..]))
  {
    if begin == |s| {
      return None;
    }
    var start := begin;
    if s[start] == MINUS {
      Suffix(s, begin, 1);
      start := start + 1;
    }
    end := ReadInteger(s, start, false);
    if end.None? {
      return;
    }
    end := ReadFraction(s, end.value);
    if end.None? {
      return;
    }
    end := ReadExponent(s, end.value);
  }

  /** A backslash at the very end makes the original look one character too far; whatever it finds, it fails. */
  method ParseStringToken(s: Text, begin: nat) returns (end: Option<nat>)
    requires begin <= |s|
    ensures EndsAt(s, end, ScanString(s[begin..]))
  {
    hide ReadHexDigits;
    var start := begin;
    while start < |s|
      invariant begin <= start <= |s|
      invariant ScanString(s[begin..]) == ScanString(s[start..])
    {
      Suffix(s, start, 1);
      var c := s[start];
      if c == BACKSLASH {
        if start + 1 == |s| {
          return None;
        }
        Suffix(s, start, 2);
        var e := s[start + 1];
        if e == LOWER_X || e == LOWER_U {
          var hex := ReadHex(s, start + 2, if e == LOWER_X then 2 else 4);
          if hex.None? {
            return None;
          }
          HexAdvances(s, start + 2, if e == LOWER_X then 2 else 4);
          start := hex.value;
        } else if IsSimpleEscape(e) {
          start := start + 2;
        } else {
          return None;
        }
      } else if c == QUOTE {
        return Some(start + 1);
      } else {
        start := start + 1;
      }
    }
    return None;
  }

  lemma HexAdvances(s: Text, begin: nat, digits: nat)
    requires begin <= |s|
    ensures ReadHexDigits(s[begin..], digits).Some? ==>
              |ReadHexDigits(s[begin..], digits).value| == |s| - begin - digits
  {
  }

  /** A token found in the text from a position on. */
  predicate TokenAt(s: Text, begin: nat, token: Token, tokenStart: nat, tokenEnd: nat)
    requires begin <= |s|
  {
    var l := ParseToken(s[begin..]);
    && token == l.token
    && (token != InvalidToken ==> begin <= tokenStart < tokenEnd <= |s|
                                  && l.lexeme == s[tokenStart..tokenEnd] && l.rest == s[tokenEnd..])
  }

  method SkipWhitespace(s: Text, begin: nat) returns (start: nat)
    requires begin <= |s|
    ensures begin <= start <= |s| && SkipSpaces(s[begin..]) == s[start..]
    ensures start < |s| ==> !IsSpace(s[start])
  {
    start := begin;
    while start < |s| && IsSpace(s[start])
      invariant begin <= start <= |s| && SkipSpaces(s[begin..]) == SkipSpaces(s[start..])
    {
      Suffix(s, start, 1);
      start := start + 1;
    }
  }

  /** Reading a token whose end has been found. */
  lemma TokenEnds(s: Text, start: nat, token: Token, end: Option<nat>, rest: Option<Text>)
    requires start <= |s| && EndsAt(s, end, rest) && (end.Some? ==> start < end.value)
    ensures rest.Some? ==> |rest.value| < |s[start..]|
    ensures LexedAs(token, s[start..], rest)
         == if end.None? then INVALID else Lexed(token, s[start..end.value], s[end.value..])
  {
  }

  method NextToken(s: Text, begin: nat) returns (token: Token, tokenStart: nat, tokenEnd: nat)
    requires begin <= |s|
    ensures TokenAt(s, begin, token, tokenStart, tokenEnd)
  {
    var start := SkipWhitespace(s, begin);
    token, tokenStart, tokenEnd := InvalidToken, start, start;
    if start == |s| {
      return;
    }
    var found, end := Classify(s, start);
    if end.Some? {
      token, tokenEnd := found, end.value;
    }
  }

  /** The switch on the first character of a token. */
  method Classify(s: Text, start: nat) returns (token: Token, end: Option<nat>)
    requires start < |s| && !IsSpace(s[start])
    ensures end.Some? ==> start < end.value <= |s| && token != InvalidToken
    ensures ParseToken(s[start..])
         == if end.None? then INVALID else Lexed(token, s[start..end.value], s[end.value..])
  {
    var c := s[start];
    Suffix(s, start, 1);
    end := Some(start + 1);
    if c == LOWER_N {
      token := NullToken;
      end := ParseConstToken(s, start, NULL_TEXT);
    } else if c == LOWER_T {
      token := BoolTrue;
      end := ParseConstToken(s, start, TRUE_TEXT);
    } else if c == LOWER_F {
      token := BoolFalse;
      end := ParseConstToken(s, start, FALSE_TEXT);
    } else if c == LBRACKET {
      token := ArrayBegin;
    } else if c == RBRACKET {
      token := ArrayEnd;
    } else if c == COMMA {
      token := ListSeparator;
    } else if c == LBRACE {
      token := ObjectBegin;
    } else if c == RBRACE {
      token := ObjectEnd;
    } else if c == COLON {
      token := ObjectPairSeparator;
    } else if IsDigit(c) || c == MINUS {
      token := NumberToken;
      end := ParseNumberToken(s, start);
    } else if c == QUOTE {
      token := StringLiteral;
      end := ParseStringToken(s, start + 1);
    } else {
      token := InvalidToken;
      end := None;
    }
    assert end.Some? ==> start < end.value;
    TokenEnds(s, start, token, end, if end.None? then None else Some(s[end.value..]));
  }

  // ----- strings

  lemma DecodeStep(s: Text, i: nat)
    requires i < |s| && Decode(s[i..]).Some?
    ensures s[i] != BACKSLASH ==> Decode(s[i..]) == Prepend(s[i], Decode(s[i + 1..]))
    ensures s[i] == BACKSLASH ==> i + 1 < |s| && s[i..][1] == s[i + 1]
  {
    Suffix(s, i, 1);
  }

  lemma DecodeSimple(s: Text, i: nat)
    requires i + 1 < |s| && s[i] == BACKSLASH && Decode(s[i..]).Some? && s[i + 1] != LOWER_X && s[i + 1] != LOWER_U
    ensures IsSimpleEscape(s[i + 1]) && Decode(s[i..]) == Prepend(SimpleEscape(s[i + 1]), Decode(s[i + 2..]))
  {
    Suffix(s, i, 2);
  }

  lemma DecodeHex(s: Text, i: nat)
    requires i + 1 < |s| && s[i] == BACKSLASH && Decode(s[i..]).Some? && s[i + 1] in {LOWER_X, LOWER_U}
    ensures s[i + 1] == LOWER_X ==>
              && i + 4 <= |s| && IsHex(s[i + 2]) && IsHex(s[i + 3])
              && Decode(s[i..]) == Prepend(HexToInt(s[i + 2]) * 16 + HexToInt(s[i + 3]), Decode(s[i + 4..]))
    ensures s[i + 1] == LOWER_U ==>
              && i + 6 <= |s| && IsHex(s[i + 2]) && IsHex(s[i + 3]) && IsHex(s[i + 4]) && IsHex(s[i + 5])
              && Decode(s[i..]) == Prepend(HexToInt(s[i + 2]) * 4096 + HexToInt(s[i + 3]) * 256
                                           + HexToInt(s[i + 4]) * 16 + HexToInt(s[i + 5]), Decode(s[i + 6..]))
  {
    var t := s[i..];
    assert forall k :: 0 <= k < |t| - 2 ==> t[2..][k] == t[k + 2] == s[i + k + 2];
    if s[i + 1] == LOWER_X {
      assert ReadHexDigits(t[2..], 2).Some? && IsHex(t[2..][0]) && IsHex(t[2..][1]);
      Suffix(s, i, 4);
    } else {
      assert ReadHexDigits(t[2..], 4).Some?;
      assert IsHex(t[2..][0]) && IsHex(t[2..][1]) && IsHex(t[2..][2]) && IsHex(t[2..][3]);
      Suffix(s, i, 6);
    }
  }

  /** On what parseStringToken accepted, every escape is known and hexToInt meets hexadecimal digits only. */
  method DecodeString(s: Text) returns (output: Text)
    requires Decode(s).Some?
    ensures Some(output) == Decode(s)
  {
    hide Decode;
    output := [];
    var start := 0;
    assert s[0..] == s;
    while start < |s|
      invariant 0 <= start <= |s|
      invariant Decode(s[start..]).Some? && output + Decode(s[start..]).value == Decode(s).value
    {
      ghost var before := start;
      DecodeStep(s, start);
      var c := s[start];
      start := start + 1;
      if c == BACKSLASH {
        c := s[start];
        start := start + 1;
        if c == LOWER_X {
          DecodeHex(s, before);
          c := HexToInt(s[start]) * 16 + HexToInt(s[start + 1]);
          start := start + 2;
        } else if c == LOWER_U {
          DecodeHex(s, before);
          c := HexToInt(s[start]) * 4096 + HexToInt(s[start + 1]) * 256
               + HexToInt(s[start + 2]) * 16 + HexToInt(s[start + 3]);
          start := start + 4;
        } else {
          DecodeSimple(s, before);
          c := SimpleEscape(c);
        }
      }
      assert Decode(s[before..]) == Prepend(c, Decode(s[start..]));
      Assoc(output, [c], Decode(s[start..]).value);
      output := output + [c];
    }
    EmptyDecodes();
    assert s[|s|..] == [] && output + [] == output;
  }

  lemma EmptyDecodes()
    ensures Decode([]) == Some([])
  {
  }

  // ----- values

  datatype Parsed<T> = Parsed(value: T, end: nat)

  ghost predicate BuiltAt<T>(s: Text, r: Option<Parsed<T>>, b: Built<T>) {
    match r
    case None => b.Failed?
    case Some(p) => p.end <= |s| && b == Built.Built(p.value, s[p.end..])
  }

  lemma Inner(s: Text, a: nat, b: nat)
    requires a + 2 <= b <= |s|
    ensures s[a..b][1..|s[a..b]| - 1] == s[a + 1..b - 1]
  {
    var x, y := s[a..b][1..b - a - 1], s[a + 1..b - 1];
    assert |x| == |y| && forall i :: 0 <= i < |x| ==> x[i] == y[i];
  }

  method DecodeTokenString(s: Text, begin: nat, tokenStart: nat, tokenEnd: nat) returns (value: Text)
    requires begin <= |s| && TokenAt(s, begin, StringLiteral, tokenStart, tokenEnd)
    ensures DecodeLexeme(ParseToken(s[begin..]).lexeme) == Some(value)
  {
    hide ParseToken, Decode;
    StringTokensDecode(s[begin..]);
    ghost var lexeme := s[tokenStart..tokenEnd];
    assert DecodeLexeme(lexeme).Some?;
    Inner(s, tokenStart, tokenEnd);
    value := DecodeString(s[tokenStart + 1..tokenEnd - 1]);
  }

  method BuildValueAt(s: Text, begin: nat, depth: nat) returns (r: Option<Parsed<Json<Text>>>)
    requires begin <= |s|
    ensures BuiltAt(s, r, BuildValue(s[begin..], depth))
    decreases |s| - begin, 0
  {
    hide ParseToken, DecodeLexeme, BuildItems, BuildMembers;
    if depth > STACK_LIMIT {
      return None;
    }
    var token, tokenStart, tokenEnd := NextToken(s, begin);
    match token {
      case NullToken => return Some(Parsed(Null, tokenEnd));
      case BoolTrue => return Some(Parsed(Boolean(true), tokenEnd));
      case BoolFalse => return Some(Parsed(Boolean(false), tokenEnd));
      case NumberToken => return Some(Parsed(Number(s[tokenStart..tokenEnd]), tokenEnd));
      case StringLiteral =>
        var value := DecodeTokenString(s, begin, tokenStart, tokenEnd);
        return Some(Parsed(String(value), tokenEnd));
      case ArrayBegin =>
        var items := BuildArrayAt(s, tokenEnd, depth);
        return if items.None? then None else Some(Parsed(Array(items.value.value), items.value.end));
      case ObjectBegin =>
        var members := BuildObjectAt(s, tokenEnd, depth);
        return if members.None? then None else Some(Parsed(Object(members.value.value), members.value.end));
      case _ => return None;
    }
  }

  /** The loop over the elements, after the opening bracket. */
  method BuildArrayAt(s: Text, begin: nat, depth: nat) returns (r: Option<Parsed<seq<Json<Text>>>>)
    requires begin <= |s|
    ensures BuiltAt(s, r, BuildItems(s[begin..], depth, []))
    decreases |s| - begin, 1
  {
    hide ParseToken, BuildValue;
    var start, items := begin, [];
    var token, tokenStart, tokenEnd := NextToken(s, start);
    while token != ArrayEnd
      invariant begin <= start <= |s| && TokenAt(s, start, token, tokenStart, tokenEnd)
      invariant BuildItems(s[begin..], depth, []) == BuildItems(s[start..], depth, items)
      decreases |s| - start
    {
      var node := BuildValueAt(s, start, depth + 1);
      if node.None? {
        return None;
      }
      ghost var before, done := start, items;
      items := items + [node.value.value];
      start := node.value.end;
      token, tokenStart, tokenEnd := NextToken(s, start);
      if token == ListSeparator {
        start := tokenEnd;
        token, tokenStart, tokenEnd := NextToken(s, start);
        if token == ArrayEnd {
          return None;
        }
      } else if token != ArrayEnd {
        return None;
      }
    }
    return Some(Parsed(items, tokenEnd));
  }

  /** The loop over the members, after the opening brace. */
  method BuildObjectAt(s: Text, begin: nat, depth: nat) returns (r: Option<Parsed<seq<Member<Text>>>>)
    requires begin <= |s|
    ensures BuiltAt(s, r, BuildMembers(s[begin..], depth, []))
    decreases |s| - begin, 1
  {
    hide ParseToken, BuildValue, DecodeLexeme, SetMember;
    var start, members := begin, [];
    var token, tokenStart, tokenEnd := NextToken(s, start);
    while token != ObjectEnd
      invariant begin <= start <= |s| && TokenAt(s, start, token, tokenStart, tokenEnd)
      invariant BuildMembers(s[begin..], depth, []) == BuildMembers(s[start..], depth, members)
      decreases |s| - start
    {
      if token != StringLiteral {
        return None;
      }
      var key := DecodeTokenString(s, start, tokenStart, tokenEnd);
      token, tokenStart, tokenEnd := NextToken(s, tokenEnd);
      if token != ObjectPairSeparator {
        return None;
      }
      var value := BuildValueAt(s, tokenEnd, depth + 1);
      if value.None? {
        return None;
      }
      members := SetMember(members, key, value.value.value);
      start := value.value.end;
      token, tokenStart, tokenEnd := NextToken(s, start);
      if token == ListSeparator {
        start := tokenEnd;
        token, tokenStart, tokenEnd := NextToken(s, start);
        if token == ObjectEnd {
          return None;
        }
      } else if token != ObjectEnd {
        return None;
      }
    }
    return Some(Parsed(members, tokenEnd));
  }

  method ParseText(json: Text) returns (r: Option<Json<Text>>)
    ensures r == ParseJSON(json)
  {
    hide BuildValue;
    if json == [] {
      return None;
    }
    assert json[0..] == json;
    var value := BuildValueAt(json, 0, 0);
    if value.None? || value.value.end != |json| {
      return None;
    }
    return Some(value.value.value);
  }
}

/**
  JSONParser.cpp: a tokenizer over the characters that remain, and the recursive
  builder on top of it. A pair of positions is the text between them.
*/
module JsonParser {
  import opened Text
  import opened JsonTree

  const STACK_LIMIT: int := 1000

  datatype Token =
    | ObjectBegin | ObjectEnd | ArrayBegin | ArrayEnd | StringLiteral | NumberToken
    | BoolTrue | BoolFalse | NullToken | ListSeparator | ObjectPairSeparator | InvalidToken

  /** A token, its characters and what follows it. */
  datatype Lexed = Lexed(token: Token, lexeme: Text, rest: Text)

  const INVALID: Lexed := Lexed(InvalidToken, [], [])

  // ----- tokens

  /** Characters beyond ASCII whose direction is white space neutral, class WS of Unicode Standard Annex 9. */
  predicate IsWideSpace(c: UChar) {
    c == 0x1680 || 0x2000 <= c <= 0x200A || c == 0x2028 || c == 0x205F || c == 0x3000
  }

  /** isSpaceOrNewline. */
  predicate IsSpace(c: UChar) {
    c == SPACE || TAB <= c <= RETURN || IsWideSpace(c)
  }

  function SkipSpaces(s: Text): (r: Text)
    ensures |r| <= |s|
  {
    if s != [] && IsSpace(s[0]) then SkipSpaces(s[1..]) else s
  }

  /**
    The comparison loop advances past a mismatch before it stops, so a mismatch
    in the last character of the constant goes unnoticed.
  */
  function ParseConst(s: Text, token: Text): (r: Option<Text>)
    requires token != []
    ensures r.Some? ==> |r.value| < |s|
  {
    var n := |token|;
    if |s| >= n && s[..n - 1] == token[..n - 1] then Some(s[n..]) else None
  }

  function DigitRun(s: Text): (n: nat)
    ensures n <= |s|
  {
    if s != [] && IsDigit(s[0]) then 1 + DigitRun(s[1..]) else 0
  }

  function ReadInt(s: Text, canHaveLeadingZeros: bool): (r: Option<Text>)
    ensures r.Some? ==> |r.value| < |s|
  {
    var n := DigitRun(s);
    if n == 0 then None
    else if !canHaveLeadingZeros && n > 1 && s[0] == ZERO then None
    else Some(s[n..])
  }

  function ScanFraction(s: Text): (r: Option<Text>)
    ensures r.Some? ==> |r.value| <= |s|
  {
    if s != [] && s[0] == DOT then ReadInt(s[1..], true) else Some(s)
  }

  function ScanExponent(s: Text): (r: Option<Text>)
    ensures r.Some? ==> |r.value| <= |s|
  {
    if s != [] && IsE(s[0]) then
      if s[1..] == [] then None
      else if s[1] == MINUS || s[1] == PLUS then ReadInt(s[2..], true)
      else ReadInt(s[1..], true)
    else Some(s)
  }

  /** What follows a number: [minus] int [frac] [exp]. */
  function ScanNumber(s: Text): (r: Option<Text>)
    ensures r.Some? ==> |r.value| < |s|
  {
    var unsigned := if s != [] && s[0] == MINUS then s[1..] else s;
    match ReadInt(unsigned, false)
    case None => None
    case Some(afterInt) =>
      match ScanFraction(afterInt)
      case None => None
      case Some(afterFraction) => ScanExponent(afterFraction)
  }

  predicate IsHex(c: UChar) {
    IsDigit(c) || 0x61 <= c <= 0x66 || 0x41 <= c <= 0x46
  }

  function ReadHexDigits(s: Text, digits: nat): (r: Option<Text>)
    ensures r.Some? ==> |r.value| <= |s|
  {
    if |s| >= digits && forall i :: 0 <= i < digits ==> IsHex(s[i]) then Some(s[digits..]) else None
  }

  predicate IsSimpleEscape(c: UChar) {
    || c == BACKSLASH || c == SLASH || c == LOWER_B || c == LOWER_F || c == LOWER_N
    || c == LOWER_R || c == LOWER_T || c == LOWER_V || c == QUOTE
  }

  /** What follows the closing quote of a string whose opening quote has been read. */
  function ScanString(s: Text): (r: Option<Text>)
    ensures r.Some? ==> |r.value| < |s|
    decreases |s|
  {
    if s == [] then None
    else if s[0] == BACKSLASH then
      if |s| < 2 then None
      else if s[1] == LOWER_X then
        match ReadHexDigits(s[2..], 2)
        case None => None
        case Some(rest) => ScanString(rest)
      else if s[1] == LOWER_U then
        match ReadHexDigits(s[2..], 4)
        case None => None
        case Some(rest) => ScanString(rest)
      else if IsSimpleEscape(s[1]) then ScanString(s[2..])
      else None
    else if s[0] == QUOTE then Some(s[1..])
    else ScanString(s[1..])
  }

  function Consumed(s: Text, rest: Text): (r: Text)
    requires |rest| <= |s|
  {
    s[..|s| - |rest|]
  }

  function LexedAs(token: Token, s: Text, rest: Option<Text>): (l: Lexed)
    requires rest.Some? ==> |rest.value| <= |s|
  {
    if rest.None? then INVALID else Lexed(token, Consumed(s, rest.value), rest.value)
  }

  function ParseToken(s: Text): (l: Lexed)
    ensures l.token != InvalidToken ==> |l.rest| < |s|
  {
    var t := SkipSpaces(s);
    if t == [] then INVALID
    else if t[0] == LOWER_N then LexedAs(NullToken, t, ParseConst(t, NULL_TEXT))
    else if t[0] == LOWER_T then LexedAs(BoolTrue, t, ParseConst(t, TRUE_TEXT))
    else if t[0] == LOWER_F then LexedAs(BoolFalse, t, ParseConst(t, FALSE_TEXT))
    else if t[0] == LBRACKET then LexedAs(ArrayBegin, t, Some(t[1..]))
    else if t[0] == RBRACKET then LexedAs(ArrayEnd, t, Some(t[1..]))
    else if t[0] == COMMA then LexedAs(ListSeparator, t, Some(t[1..]))
    else if t[0] == LBRACE then LexedAs(ObjectBegin, t, Some(t[1..]))
    else if t[0] == RBRACE then LexedAs(ObjectEnd, t, Some(t[1..]))
    else if t[0] == COLON then LexedAs(ObjectPairSeparator, t, Some(t[1..]))
    else if IsDigit(t[0]) || t[0] == MINUS then LexedAs(NumberToken, t, ScanNumber(t))
    else if t[0] == QUOTE then LexedAs(StringLiteral, t, ScanString(t[1..]))
    else INVALID
  }

  // ----- strings

  function HexToInt(c: UChar): (n: nat)
    requires IsHex(c)
    ensures n < 16
  {
    if IsDigit(c) then c - ZERO else if c <= 0x46 then c - 0x41 + 10 else c - 0x61 + 10
  }

  function SimpleEscape(c: UChar): (r: UChar)
    requires IsSimpleEscape(c)
  {
    if c == LOWER_B then BACKSPACE
    else if c == LOWER_F then FORM_FEED
    else if c == LOWER_N then NEWLINE
    else if c == LOWER_R then RETURN
    else if c == LOWER_T then TAB
    else if c == LOWER_V then VERTICAL_TAB
    else c
  }

  function Prepend(c: UChar, r: Option<Text>): (s: Option<Text>) {
    if r.None? then None else Some([c] + r.value)
  }

  /** The characters between the quotes, with escapes undone. */
  function Decode(s: Text): (r: Option<Text>)
    decreases |s|
  {
    if s == [] then Some([])
    else if s[0] != BACKSLASH then Prepend(s[0], Decode(s[1..]))
    else if |s| < 2 then None
    else if s[1] == LOWER_X then
      if ReadHexDigits(s[2..], 2).None? then None
      else Prepend(HexToInt(s[2]) * 16 + HexToInt(s[3]), Decode(s[4..]))
    else if s[1] == LOWER_U then
      if ReadHexDigits(s[2..], 4).None? then None
      else Prepend(HexToInt(s[2]) * 4096 + HexToInt(s[3]) * 256 + HexToInt(s[4]) * 16 + HexToInt(s[5]), Decode(s[6..]))
    else if IsSimpleEscape(s[1]) then Prepend(SimpleEscape(s[1]), Decode(s[2..]))
    else None
  }

  /** The string a StringLiteral lexeme denotes. */
  function DecodeLexeme(lexeme: Text): (r: Option<Text>) {
    if |lexeme| < 2 then None else Decode(lexeme[1..|lexeme| - 1])
  }

  // ----- values

  /** JSONObject::setValue: a new key goes last, a known key keeps its place. */
  function SetMember<N>(members: seq<Member<N>>, key: Text, value: Json<N>): (r: seq<Member<N>>) {
    if members == [] then [Member(key, value)]
    else if members[0].key == key then [Member(key, value)] + members[1..]
    else [members[0]] + SetMember(members[1..], key, value)
  }

  datatype Built<T> = Failed | Built(value: T, rest: Text)

  function BuildValue(s: Text, depth: nat): (r: Built<Json<Text>>)
    ensures r.Built? ==> |r.rest| < |s|
    decreases |s|, 0
  {
    if depth > STACK_LIMIT then Failed
    else
      var l := ParseToken(s);
      match l.token
      case NullToken => Built(Null, l.rest)
      case BoolTrue => Built(Boolean(true), l.rest)
      case BoolFalse => Built(Boolean(false), l.rest)
      case NumberToken => Built(Number(l.lexeme), l.rest)
      case StringLiteral =>
        (match DecodeLexeme(l.lexeme)
         case None => Failed
         case Some(value) => Built(String(value), l.rest))
      case ArrayBegin =>
        (match BuildItems(l.rest, depth, [])
         case Failed => Failed
         case Built(items, rest) => Built(Array(items), rest))
      case ObjectBegin =>
        (match BuildMembers(l.rest, depth, [])
         case Failed => Failed
         case Built(members, rest) => Built(Object(members), rest))
      case _ => Failed
  }

  /** The loop over the elements of an array, from its head with some elements done. */
  function BuildItems(s: Text, depth: nat, done: seq<Json<Text>>): (r: Built<seq<Json<Text>>>)
    ensures r.Built? ==> |r.rest| <= |s|
    decreases |s|, 1
  {
    var l := ParseToken(s);
    if l.token == ArrayEnd then Built(done, l.rest)
    else
      match BuildValue(s, depth + 1)
      case Failed => Failed
      case Built(value, rest) =>
        var next := ParseToken(rest);
        if next.token == ListSeparator then
          if ParseToken(next.rest).token == ArrayEnd then Failed
          else BuildItems(next.rest, depth, done + [value])
        else if next.token != ArrayEnd then Failed
        else Built(done + [value], next.rest)
  }

  /** The loop over the members of an object, from its head with some members done. */
  function BuildMembers(s: Text, depth: nat, done: seq<Member<Text>>): (r: Built<seq<Member<Text>>>)
    ensures r.Built? ==> |r.rest| <= |s|
    decreases |s|, 1
  {
    var l := ParseToken(s);
    if l.token == ObjectEnd then Built(done, l.rest)
    else if l.token != StringLiteral then Failed
    else
      match DecodeLexeme(l.lexeme)
      case None => Failed
      case Some(key) =>
        var colon := ParseToken(l.rest);
        if colon.token != ObjectPairSeparator then Failed
        else
          match BuildValue(colon.rest, depth + 1)
          case Failed => Failed
          case Built(value, rest) =>
            var members := SetMember(done, key, value);
            var next := ParseToken(rest);
            if next.token == ListSeparator then
              if ParseToken(next.rest).token == ObjectEnd then Failed
              else BuildMembers(next.rest, depth, members)
            else if next.token != ObjectEnd then Failed
            else Built(members, next.rest)
  }

  function ParseJSON(json: Text): (r: Option<Json<Text>>) {
    if json == [] then None
    else
      match BuildValue(json, 0)
      case Failed => None
      case Built(value, rest) => if rest == [] then Some(value) else None
  }
}

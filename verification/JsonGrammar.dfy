/** A reader for the texts that sections 2 to 7 of RFC 7159 describe, and for no others. */
module JsonGrammar {
  import opened Text
  import opened JsonTree
  import opened JsonParser

  /** Section 2: the four characters of insignificant white space. */
  predicate IsWhitespace(c: UChar) {
    c == SPACE || c == TAB || c == NEWLINE || c == RETURN
  }

  function SkipWhite(s: Text): (r: Text)
    ensures |r| <= |s| && (r == [] || !IsWhitespace(r[0]))
  {
    if s != [] && IsWhitespace(s[0]) then SkipWhite(s[1..]) else s
  }

  /** What follows a structural character, if it comes next. */
  function Beyond(c: UChar, s: Text): (r: Option<Text>)
    ensures r.Some? ==> |r.value| < |s|
  {
    var t := SkipWhite(s);
    if t != [] && t[0] == c then Some(t[1..]) else None
  }

  /** Section 7: the meaning of a two-character escape. */
  function ShortMeaning(c: UChar): (r: Option<UChar>) {
    if c == QUOTE || c == BACKSLASH || c == SLASH then Some(c)
    else if c == LOWER_B then Some(BACKSPACE)
    else if c == LOWER_F then Some(FORM_FEED)
    else if c == LOWER_N then Some(NEWLINE)
    else if c == LOWER_R then Some(RETURN)
    else if c == LOWER_T then Some(TAB)
    else None
  }

  function WithChar(c: UChar, r: Built<Text>): (n: Built<Text>) {
    if r.Failed? then Failed else Built.Built([c] + r.value, r.rest)
  }

  function HexValue(s: Text): (c: UChar)
    requires |s| >= 4 && forall i :: 0 <= i < 4 ==> IsHex(s[i])
  {
    HexToInt(s[0]) * 4096 + HexToInt(s[1]) * 256 + HexToInt(s[2]) * 16 + HexToInt(s[3])
  }

  /** Section 7: a string whose opening quotation mark has been read. */
  function StrictString(s: Text): (r: Built<Text>)
    ensures r.Built? ==> |r.rest| < |s|
    decreases |s|
  {
    if s == [] then Failed
    else if s[0] == QUOTE then Built.Built([], s[1..])
    else if s[0] < 0x20 then Failed
    else if s[0] != BACKSLASH then WithChar(s[0], StrictString(s[1..]))
    else if |s| < 2 then Failed
    else if ShortMeaning(s[1]).Some? then WithChar(ShortMeaning(s[1]).value, StrictString(s[2..]))
    else if s[1] == LOWER_U && |s| >= 6 && forall i :: 0 <= i < 4 ==> IsHex(s[2..][i]) then
      WithChar(HexValue(s[2..]), StrictString(s[6..]))
    else Failed
  }

  /** Sections 3 and 6: the literal names and the numbers. */
  function StrictScalar(t: Text): (r: Built<Json<Text>>)
    ensures r.Built? ==> |r.rest| < |t|
  {
    if NULL_TEXT <= t then Built.Built(Null, t[4..])
    else if TRUE_TEXT <= t then Built.Built(Boolean(true), t[4..])
    else if FALSE_TEXT <= t then Built.Built(Boolean(false), t[5..])
    else
      match ScanNumber(t)
      case None => Failed
      case Some(rest) => Built.Built(Number(Consumed(t, rest)), rest)
  }

  /** Section 3: a value, after any white space. */
  function StrictValue(s: Text): (r: Built<Json<Text>>)
    ensures r.Built? ==> |r.rest| < |s|
    decreases |s|, 0
  {
    if Beyond(QUOTE, s).Some? then
      match StrictString(Beyond(QUOTE, s).value)
      case Failed => Failed
      case Built(value, rest) => Built.Built(String(value), rest)
    else if Beyond(LBRACKET, s).Some? then StrictArray(Beyond(LBRACKET, s).value)
    else if Beyond(LBRACE, s).Some? then StrictObject(Beyond(LBRACE, s).value)
    else StrictScalar(SkipWhite(s))
  }

  /** Section 5: an array whose opening bracket has been read. */
  function StrictArray(s: Text): (r: Built<Json<Text>>)
    ensures r.Built? ==> |r.rest| < |s|
    decreases |s|, 2
  {
    if Beyond(RBRACKET, s).Some? then Built.Built(Array([]), Beyond(RBRACKET, s).value)
    else
      match StrictItems(s)
      case Failed => Failed
      case Built(items, rest) => Built.Built(Array(items), rest)
  }

  function StrictItems(s: Text): (r: Built<seq<Json<Text>>>)
    ensures r.Built? ==> |r.rest| < |s|
    decreases |s|, 1
  {
    match StrictValue(s)
    case Failed => Failed
    case Built(value, rest) => StrictItemsAfter(value, rest)
  }

  function StrictItemsAfter(value: Json<Text>, s: Text): (r: Built<seq<Json<Text>>>)
    ensures r.Built? ==> |r.rest| < |s|
    decreases |s|, 2
  {
    if Beyond(COMMA, s).Some? then
      match StrictItems(Beyond(COMMA, s).value)
      case Failed => Failed
      case Built(items, rest) => Built.Built([value] + items, rest)
    else if Beyond(RBRACKET, s).Some? then Built.Built([value], Beyond(RBRACKET, s).value)
    else Failed
  }

  /** Section 4: an object whose opening brace has been read. */
  function StrictObject(s: Text): (r: Built<Json<Text>>)
    ensures r.Built? ==> |r.rest| < |s|
    decreases |s|, 2
  {
    if Beyond(RBRACE, s).Some? then Built.Built(Object([]), Beyond(RBRACE, s).value)
    else
      match StrictMembers(s)
      case Failed => Failed
      case Built(members, rest) => Built.Built(Object(members), rest)
  }

  function StrictKey(s: Text): (r: Built<Text>)
    ensures r.Built? ==> |r.rest| < |s|
  {
    if Beyond(QUOTE, s).None? then Failed
    else
      match StrictString(Beyond(QUOTE, s).value)
      case Failed => Failed
      case Built(key, rest) => if Beyond(COLON, rest).None? then Failed else Built.Built(key, Beyond(COLON, rest).value)
  }

  function StrictMembers(s: Text): (r: Built<seq<Member<Text>>>)
    ensures r.Built? ==> |r.rest| < |s|
    decreases |s|, 1
  {
    match StrictKey(s)
    case Failed => Failed
    case Built(key, afterKey) =>
      match StrictValue(afterKey)
      case Failed => Failed
      case Built(value, rest) => StrictMembersAfter(Member(key, value), rest)
  }

  function StrictMembersAfter(member: Member<Text>, s: Text): (r: Built<seq<Member<Text>>>)
    ensures r.Built? ==> |r.rest| < |s|
    decreases |s|, 2
  {
    if Beyond(COMMA, s).Some? then
      match StrictMembers(Beyond(COMMA, s).value)
      case Failed => Failed
      case Built(members, rest) => Built.Built([member] + members, rest)
    else if Beyond(RBRACE, s).Some? then Built.Built([member], Beyond(RBRACE, s).value)
    else Failed
  }

  /** Section 2: a JSON text is a value with white space around it. */
  function Strict(s: Text): (r: Option<Json<Text>>) {
    match StrictValue(s)
    case Failed => None
    case Built(value, rest) => if SkipWhite(rest) == [] then Some(value) else None
  }
}

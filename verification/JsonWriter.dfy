/** JSONValues.cpp: string escaping, the compact writer and the pretty writer. */
module JsonWriter {
  import opened Text
  import opened DecimalNumber
  import opened DecimalPrinter
  import opened JsonTree

  // ----- strings

  /** The short escape of a character, if it has one. */
  function ShortEscape(c: UChar): (r: Option<UChar>) {
    if c == BACKSPACE then Some(LOWER_B)
    else if c == FORM_FEED then Some(LOWER_F)
    else if c == NEWLINE then Some(LOWER_N)
    else if c == RETURN then Some(LOWER_R)
    else if c == TAB then Some(LOWER_T)
    else if c == BACKSLASH then Some(BACKSLASH)
    else if c == QUOTE then Some(QUOTE)
    else None
  }

  function HexDigit(n: nat): (c: UChar)
    requires n < 16
  {
    if n < 10 then ZERO + n else 0x41 + n - 10
  }

  /** Four hexadecimal digits, as in %04X. */
  function FourHex(c: UChar): (s: Text) {
    [HexDigit(c / 4096), HexDigit(c / 256 % 16), HexDigit(c / 16 % 16), HexDigit(c % 16)]
  }

  function EscapeChar(c: UChar): (s: Text) {
    match ShortEscape(c)
    case Some(e) => [BACKSLASH, e]
    case None =>
      if c < 32 || c > 126 || c == LESS || c == GREATER then [BACKSLASH, LOWER_U] + FourHex(c) else [c]
  }

  function Escape(s: Text): (r: Text) {
    if s == [] then [] else EscapeChar(s[0]) + Escape(s[1..])
  }

  function Quote(s: Text): (r: Text) {
    [QUOTE] + Escape(s) + [QUOTE]
  }

  method DoubleQuoteString(str: Text, dst: Text) returns (out: Text)
    ensures out == dst + Quote(str)
  {
    out := dst + [QUOTE];
    for i := 0 to |str|
      invariant out + Escape(str[i..]) == dst + [QUOTE] + Escape(str)
    {
      assert str[i..][0] == str[i] && str[i..][1..] == str[i + 1..];
      Assoc(out, EscapeChar(str[i]), Escape(str[i + 1..]));
      out := out + EscapeChar(str[i]);
    }
    assert str[|str|..] == [];
    assert out == dst + [QUOTE] + Escape(str);
    out := out + [QUOTE];
    assert out == dst + ([QUOTE] + Escape(str) + [QUOTE]);
  }

  // ----- values

  function Indent(depth: nat): (s: Text) {
    if depth == 0 then [] else [SPACE, SPACE] + Indent(depth - 1)
  }

  /** A new line and its indentation, in pretty output only. */
  function Break(pretty: bool, depth: nat): (s: Text) {
    if pretty then [NEWLINE] + Indent(depth) else []
  }

  /** Values after which the pretty writer starts a new line. */
  predicate Breaks<N>(t: Json<N>) {
    t.Object? || t.Array? || t.String?
  }

  /** What came before in an array: nothing, a value that stays on the line, or one that breaks it. */
  datatype Previous = First | Inline | Broken

  function Gap(previous: Previous, breaks: bool, pretty: bool, depth: nat): (s: Text) {
    match previous
    case First => if breaks then Break(pretty, depth + 1) else []
    case Inline => [COMMA] + if pretty then [SPACE] else []
    case Broken => [COMMA] + Break(pretty, depth + 1)
  }

  function Closing(previous: Previous, pretty: bool, depth: nat): (s: Text) {
    if previous == Broken then Break(pretty, depth) else []
  }

  function After<N>(t: Json<N>): (p: Previous) {
    if Breaks(t) then Broken else Inline
  }

  /** The text of a value; the compact form ignores the depth. */
  function Write(t: Json<Decimal>, pretty: bool, depth: nat): (s: Text)
    decreases t, 0
  {
    match t
    case Null => NULL_TEXT
    case Boolean(b) => if b then TRUE_TEXT else FALSE_TEXT
    case Number(d) => NumberText(d)
    case String(s) => Quote(s)
    case Array(items) => [LBRACKET] + WriteItems(items, First, pretty, depth)
    case Object(members) => [LBRACE] + WriteMembers(members, true, pretty, depth)
  }

  /** The rest of an array, closing bracket included. */
  function WriteItems(items: seq<Json<Decimal>>, previous: Previous, pretty: bool, depth: nat): (s: Text)
    decreases items, 1
  {
    if items == [] then Closing(previous, pretty, depth) + [RBRACKET]
    else
      Gap(previous, Breaks(items[0]), pretty, depth)
      + (Write(items[0], pretty, depth + 1) + WriteItems(items[1..], After(items[0]), pretty, depth))
  }

  function Colon(pretty: bool): (s: Text) {
    if pretty then [COLON, SPACE] else [COLON]
  }

  function Separator(first: bool): (s: Text) {
    if first then [] else [COMMA]
  }

  /** The rest of an object, closing brace included. */
  function WriteMembers(members: seq<Member<Decimal>>, first: bool, pretty: bool, depth: nat): (s: Text)
    decreases members, 1
  {
    if members == [] then
      (if first && pretty then [NEWLINE] else []) + Break(pretty, depth) + [RBRACE]
    else
      Separator(first) + (Break(pretty, depth + 1) + (Quote(members[0].key) + (Colon(pretty)
      + (Write(members[0].value, pretty, depth + 1) + WriteMembers(members[1..], false, pretty, depth)))))
  }

  function ToJSONString(t: Json<Decimal>): (s: Text) {
    Write(t, false, 0)
  }

  function ToPrettyJSONString(t: Json<Decimal>): (s: Text) {
    Write(t, true, 0) + [NEWLINE]
  }

  // ----- the code

  method WriteIndent(depth: nat, output: Text) returns (out: Text)
    ensures out == output + Indent(depth)
  {
    out := output;
    for i := 0 to depth
      invariant out + Indent(depth - i) == output + Indent(depth)
    {
      Assoc(out, [SPACE, SPACE], Indent(depth - i - 1));
      out := out + [SPACE, SPACE];
    }
    assert out + Indent(0) == out;
  }

  lemma GroupLeft(out: Text, a: Text, b: Text, c: Text)
    ensures out + (a + (b + c)) == ((out + a) + b) + c
  {
  }

  /** One turn of the loop over an array, in terms of the rest of the array. */
  lemma NextItem(out: Text, items: seq<Json<Decimal>>, i: nat, previous: Previous, pretty: bool, depth: nat)
    requires i < |items|
    ensures out + WriteItems(items[i..], previous, pretty, depth)
         == ((out + Gap(previous, Breaks(items[i]), pretty, depth)) + Write(items[i], pretty, depth + 1))
            + WriteItems(items[i + 1..], After(items[i]), pretty, depth)
  {
    assert items[i..][0] == items[i] && items[i..][1..] == items[i + 1..];
    GroupLeft(out, Gap(previous, Breaks(items[i]), pretty, depth), Write(items[i], pretty, depth + 1),
              WriteItems(items[i + 1..], After(items[i]), pretty, depth));
  }

  lemma ClosingBrace(first: bool, depth: nat)
    ensures WriteMembers([], first, false, depth) == [RBRACE]
  {
  }

  /** One turn of the loop over an object, in terms of the rest of the object. */
  lemma NextMember(out: Text, members: seq<Member<Decimal>>, i: nat, pretty: bool, depth: nat)
    requires i < |members|
    ensures out + WriteMembers(members[i..], i == 0, pretty, depth)
         == (((((out + Separator(i == 0)) + Break(pretty, depth + 1)) + Quote(members[i].key)) + Colon(pretty))
             + Write(members[i].value, pretty, depth + 1))
            + WriteMembers(members[i + 1..], false, pretty, depth)
  {
    assert members[i..][0] == members[i] && members[i..][1..] == members[i + 1..];
    var w, rest := Write(members[i].value, pretty, depth + 1), WriteMembers(members[i + 1..], false, pretty, depth);
    var q, colon := Quote(members[i].key), Colon(pretty);
    GroupLeft(out, Separator(i == 0), Break(pretty, depth + 1), q + (colon + (w + rest)));
    GroupLeft((out + Separator(i == 0)) + Break(pretty, depth + 1), q, colon, w + rest);
    Assoc((((out + Separator(i == 0)) + Break(pretty, depth + 1)) + q) + colon, w, rest);
  }

  ghost function PreviousAt(items: seq<Json<Decimal>>, i: nat): (p: Previous)
    requires i <= |items|
  {
    if i == 0 then First else After(items[i - 1])
  }

  /** writeJSON of every kind of value; the depth plays no part. */
  method WriteJSON(t: Json<Decimal>, output: Text, ghost depth: nat) returns (out: Text)
    ensures out == output + Write(t, false, depth)
    decreases t, 0
  {
    match t {
      case Null => out := output + NULL_TEXT;
      case Boolean(b) => out := output + (if b then TRUE_TEXT else FALSE_TEXT);
      case Number(d) =>
        if !d.IsFinite() {
          return output + NULL_TEXT;
        }
        var text := ToString(d);
        out := output + text;
      case String(s) => out := DoubleQuoteString(s, output);
      case Array(items) =>
        out := WriteArray(items, output, depth);
      case Object(members) =>
        out := WriteObject(members, output, depth);
    }
  }

  method WriteArray(items: seq<Json<Decimal>>, output: Text, ghost depth: nat) returns (out: Text)
    ensures out == output + ([LBRACKET] + WriteItems(items, First, false, depth))
    decreases items
  {
    ghost var whole := output + ([LBRACKET] + WriteItems(items, First, false, depth));
    out := output + [LBRACKET];
    Assoc(output, [LBRACKET], WriteItems(items, First, false, depth));
    assert items[0..] == items;
    for i := 0 to |items|
      invariant out + WriteItems(items[i..], PreviousAt(items, i), false, depth) == whole
    {
      NextItem(out, items, i, PreviousAt(items, i), false, depth);
      out := WriteComma(i == 0, out);
      assert Separator(i == 0) == Gap(PreviousAt(items, i), Breaks(items[i]), false, depth);
      out := WriteJSON(items[i], out, depth + 1);
    }
    assert items[|items|..] == [];
    out := out + [RBRACKET];
  }

  method WriteComma(first: bool, output: Text) returns (out: Text)
    ensures out == output + Separator(first)
  {
    out := output;
    if !first {
      out := out + [COMMA];
    }
  }

  method WriteObject(members: seq<Member<Decimal>>, output: Text, ghost depth: nat) returns (out: Text)
    ensures out == output + ([LBRACE] + WriteMembers(members, true, false, depth))
    decreases members
  {
    hide Write, Quote, WriteMembers;
    ghost var whole := output + ([LBRACE] + WriteMembers(members, true, false, depth));
    out := output + [LBRACE];
    Assoc(output, [LBRACE], WriteMembers(members, true, false, depth));
    assert members[0..] == members;
    for i := 0 to |members|
      invariant out + WriteMembers(members[i..], i == 0, false, depth) == whole
    {
      NextMember(out, members, i, false, depth);
      out := WriteMember(members[i].key, members[i].value, i == 0, out, depth);
    }
    assert members[|members|..] == [];
    ClosingBrace(|members| == 0, depth);
    out := out + [RBRACE];
  }

  /** One turn of the loop over an object. */
  method WriteMember(key: Text, value: Json<Decimal>, first: bool, output: Text, ghost depth: nat) returns (out: Text)
    ensures out == ((((output + Separator(first)) + Break(false, depth + 1)) + Quote(key)) + Colon(false))
                   + Write(value, false, depth + 1)
    decreases value, 1
  {
    out := WriteComma(first, output);
    NothingAdded(out);
    out := DoubleQuoteString(key, out);
    out := out + [COLON];
    out := WriteJSON(value, out, depth + 1);
  }

  lemma NothingAdded(out: Text)
    ensures out + [] == out
  {
  }

  /** prettyWriteJSONInternal of every kind of value. */
  method PrettyWriteJSON(t: Json<Decimal>, output: Text, depth: nat) returns (out: Text)
    ensures out == output + Write(t, true, depth)
    decreases t
  {
    match t {
      case Null => out := WriteJSON(t, output, depth);
      case Boolean(_) => out := WriteJSON(t, output, depth);
      case Number(_) => out := WriteJSON(t, output, depth);
      case String(_) => out := WriteJSON(t, output, depth);
      case Array(items) => out := PrettyWriteArray(items, output, depth);
      case Object(members) => out := PrettyWriteObject(members, output, depth);
    }
  }

  method WriteBreak(output: Text, depth: nat) returns (out: Text)
    ensures out == output + Break(true, depth)
  {
    out := output + [NEWLINE];
    Assoc(output, [NEWLINE], Indent(depth));
    out := WriteIndent(depth, out);
  }

  method WriteGap(first: bool, lastInsertedNewLine: bool, insertNewLine: bool, output: Text, depth: nat,
                  ghost previous: Previous) returns (out: Text)
    requires first <==> previous == First
    requires lastInsertedNewLine <==> previous == Broken
    ensures out == output + Gap(previous, insertNewLine, true, depth)
  {
    out := output;
    if first {
      if insertNewLine {
        out := WriteBreak(out, depth + 1);
      }
    } else {
      out := out + [COMMA];
      if lastInsertedNewLine {
        Assoc(output, [COMMA], Break(true, depth + 1));
        out := WriteBreak(out, depth + 1);
      } else {
        out := out + [SPACE];
      }
    }
  }

  method PrettyWriteArray(items: seq<Json<Decimal>>, output: Text, depth: nat) returns (out: Text)
    ensures out == output + ([LBRACKET] + WriteItems(items, First, true, depth))
    decreases items
  {
    ghost var whole := output + ([LBRACKET] + WriteItems(items, First, true, depth));
    out := output + [LBRACKET];
    Assoc(output, [LBRACKET], WriteItems(items, First, true, depth));
    assert items[0..] == items;
    var lastInsertedNewLine := false;
    for i := 0 to |items|
      invariant lastInsertedNewLine == (PreviousAt(items, i) == Broken)
      invariant out + WriteItems(items[i..], PreviousAt(items, i), true, depth) == whole
    {
      NextItem(out, items, i, PreviousAt(items, i), true, depth);
      var insertNewLine := Breaks(items[i]);
      out := WriteGap(i == 0, lastInsertedNewLine, insertNewLine, out, depth, PreviousAt(items, i));
      out := PrettyWriteJSON(items[i], out, depth + 1);
      lastInsertedNewLine := insertNewLine;
    }
    assert items[|items|..] == [];
    Assoc(out, Closing(PreviousAt(items, |items|), true, depth), [RBRACKET]);
    NothingAdded(out);
    if lastInsertedNewLine {
      out := WriteBreak(out, depth);
    }
    out := out + [RBRACKET];
  }

  /** The separator, line break, key and colon of a member; the first line break has been written already. */
  method WriteKey(first: bool, key: Text, output: Text, depth: nat, ghost before: Text) returns (out: Text)
    requires output == if first then before + [NEWLINE] else before
    ensures out == (((before + Separator(first)) + Break(true, depth + 1)) + Quote(key)) + Colon(true)
  {
    out := output;
    if !first {
      out := out + [COMMA, NEWLINE];
    }
    assert out == (before + Separator(first)) + [NEWLINE];
    Assoc(before + Separator(first), [NEWLINE], Indent(depth + 1));
    out := WriteIndent(depth + 1, out);
    out := DoubleQuoteString(key, out);
    out := out + [COLON, SPACE];
  }

  method PrettyWriteObject(members: seq<Member<Decimal>>, output: Text, depth: nat) returns (out: Text)
    ensures out == output + ([LBRACE] + WriteMembers(members, true, true, depth))
    decreases members
  {
    hide Write, Quote;
    ghost var whole := output + ([LBRACE] + WriteMembers(members, true, true, depth));
    ghost var done := output + [LBRACE];
    out := output + [LBRACE, NEWLINE];
    assert out == done + [NEWLINE];
    Assoc(output, [LBRACE], WriteMembers(members, true, true, depth));
    assert members[0..] == members;
    for i := 0 to |members|
      invariant out == if i == 0 then done + [NEWLINE] else done
      invariant done + WriteMembers(members[i..], i == 0, true, depth) == whole
    {
      NextMember(done, members, i, true, depth);
      out := WriteKey(i == 0, members[i].key, out, depth, done);
      out := PrettyWriteJSON(members[i].value, out, depth + 1);
      done := out;
    }
    assert members[|members|..] == [];
    out := WriteEnd(|members| == 0, out, depth, done);
  }

  method WriteEnd(first: bool, output: Text, depth: nat, ghost before: Text) returns (out: Text)
    requires output == if first then before + [NEWLINE] else before
    ensures out == before + WriteMembers([], first, true, depth)
  {
    out := WriteBreak(output, depth);
    ghost var blank: Text := if first then [NEWLINE] else [];
    NothingAdded(before);
    assert output == before + blank;
    GroupLeft(before, blank, Break(true, depth), [RBRACE]);
    Assoc(blank, Break(true, depth), [RBRACE]);
    out := out + [RBRACE];
  }
}

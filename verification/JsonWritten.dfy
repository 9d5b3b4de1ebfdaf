/** What either writer produces is JSON text, and denotes the tree that was written. */
module JsonWritten {
  import opened Text
  import opened DecimalNumber
  import opened DecimalPrinter
  import opened JsonTree
  import opened JsonWriter
  import opened JsonParser
  import opened JsonGrammar
  import opened JsonTokens

  lemma GroupRight(a: Text, b: Text, c: Text, d: Text)
    ensures ((a + b) + c) + d == a + (b + (c + d))
    ensures (a + (b + c)) + d == a + (b + (c + d))
  {
    Assoc(a + b, c, d);
    Assoc(a, b, c + d);
    Assoc(a, b, c);
  }

  /** White space between the comma, if any, and the value. */
  function GapSpace(previous: Previous, breaks: bool, pretty: bool, indent: nat): (s: Text) {
    match previous
    case First => if breaks then Break(pretty, indent + 1) else []
    case Inline => if pretty then [SPACE] else []
    case Broken => Break(pretty, indent + 1)
  }

  lemma GapIsCommaAndSpace(previous: Previous, breaks: bool, pretty: bool, indent: nat)
    ensures AllWhite(GapSpace(previous, breaks, pretty, indent))
    ensures Gap(previous, breaks, pretty, indent)
         == (if previous == First then [] else [COMMA]) + GapSpace(previous, breaks, pretty, indent)
  {
    BreakIsWhite(pretty, indent + 1);
  }

  // ----- constants and numbers

  /** Text that starts with a letter, a digit or a minus is read as a scalar. */
  lemma ScalarRead(ws: Text, s: Text)
    requires AllWhite(ws) && s != [] && !IsWhitespace(s[0]) && s[0] != QUOTE && s[0] != LBRACKET && s[0] != LBRACE
    ensures StrictValue(ws + s) == StrictScalar(s)
  {
    assert s == [s[0]] + s[1..];
    BeyondChar(ws, s[0], s[1..]);
    SkipAll(ws, s);
  }

  lemma ConstantRead(token: Text, rest: Text)
    ensures token <= token + rest && (token + rest)[|token|..] == rest
  {
  }

  lemma ConstantsRead(ws: Text, rest: Text)
    requires AllWhite(ws)
    ensures StrictValue(ws + (NULL_TEXT + rest)) == Built(Null, rest)
    ensures StrictValue(ws + (TRUE_TEXT + rest)) == Built(Boolean(true), rest)
    ensures StrictValue(ws + (FALSE_TEXT + rest)) == Built(Boolean(false), rest)
  {
    hide StrictValue;
    ConstantRead(NULL_TEXT, rest);
    ConstantRead(TRUE_TEXT, rest);
    ConstantRead(FALSE_TEXT, rest);
    ScalarRead(ws, NULL_TEXT + rest);
    ScalarRead(ws, TRUE_TEXT + rest);
    ScalarRead(ws, FALSE_TEXT + rest);
  }

  lemma NumberIsScalar(t: Text, rest: Text)
    requires t != [] && (IsDigit(t[0]) || t[0] == MINUS) && ScanNumber(t + rest) == Some(rest)
    ensures StrictScalar(t + rest) == Built(Number(t), rest)
  {
    assert (t + rest)[0] == t[0] && Consumed(t + rest, rest) == t;
  }

  lemma DecimalRead(ws: Text, d: Decimal, rest: Text)
    requires AllWhite(ws) && d.IsFinite() && Delimited(rest)
    ensures StrictValue(ws + (Print(d) + rest)) == Built(Number(Print(d)), rest)
  {
    hide StrictValue, StrictScalar, Print, ScanNumber;
    var n := PrintIsJsonNumber(d);
    NumberRead(n, rest);
    NumberIsScalar(Print(d), rest);
    assert (Print(d) + rest)[0] == Print(d)[0];
    ScalarRead(ws, Print(d) + rest);
  }

  // ----- arrays

  /** The elements from the current one on, without the white space before it. */
  ghost function ItemsFrom(items: seq<Json<Decimal>>, pretty: bool, indent: nat): (s: Text)
    requires items != []
  {
    Write(items[0], pretty, indent + 1) + WriteItems(items[1..], After(items[0]), pretty, indent)
  }

  /** After an element comes a bracket, a comma or white space. */
  lemma ItemsDelimited(items: seq<Json<Decimal>>, previous: Previous, pretty: bool, indent: nat, rest: Text)
    requires previous != First
    ensures Delimited(WriteItems(items, previous, pretty, indent) + rest)
  {
    if items != [] {
      GapIsCommaAndSpace(previous, Breaks(items[0]), pretty, indent);
    }
  }

  lemma EndOfItems(previous: Previous, pretty: bool, indent: nat, rest: Text)
    ensures var s := WriteItems([], previous, pretty, indent) + rest;
            Beyond(RBRACKET, s) == Some(rest) && Beyond(COMMA, s) == None
  {
    var ws := Closing(previous, pretty, indent);
    BreakIsWhite(pretty, indent);
    Assoc(ws, [RBRACKET], rest);
    BeyondChar(ws, RBRACKET, rest);
  }

  /** A further element stands after a comma and white space. */
  lemma CommaBeforeItems(items: seq<Json<Decimal>>, previous: Previous, pretty: bool, indent: nat, rest: Text)
    returns (ws: Text)
    requires items != [] && previous != First
    ensures AllWhite(ws)
    ensures Beyond(COMMA, WriteItems(items, previous, pretty, indent) + rest)
         == Some(ws + (ItemsFrom(items, pretty, indent) + rest))
  {
    ws := GapSpace(previous, Breaks(items[0]), pretty, indent);
    GapIsCommaAndSpace(previous, Breaks(items[0]), pretty, indent);
    var body := ItemsFrom(items, pretty, indent);
    assert WriteItems(items, previous, pretty, indent) == ([COMMA] + ws) + body;
    GroupRight([COMMA], ws, body, rest);
    BeyondChar([], COMMA, ws + (body + rest));
    assert [] + ([COMMA] + (ws + (body + rest))) == [COMMA] + (ws + (body + rest));
  }

  /** No value starts with a closing bracket. */
  lemma {:induction false} ValueIsNotAnEnd(ws: Text, t: Json<Decimal>, pretty: bool, indent: nat, rest: Text)
    requires AllWhite(ws)
    ensures Beyond(RBRACKET, ws + (Write(t, pretty, indent) + rest)) == None
  {
    hide Print;
    var w := Write(t, pretty, indent);
    if t.Number? && t.n.IsFinite() {
      var n := PrintIsJsonNumber(t.n);
      NumberRead(n, []);
    }
    assert w != [] && !IsWhitespace(w[0]) && w[0] != RBRACKET;
    assert w + rest == [w[0]] + (w[1..] + rest);
    BeyondChar(ws, w[0], w[1..] + rest);
  }

  /** A written value is read back, after white space and before anything that cannot prolong it. */
  lemma {:induction false} ValueRead(ws: Text, t: Json<Decimal>, pretty: bool, indent: nat, rest: Text)
    requires AllWhite(ws) && Delimited(rest)
    ensures StrictValue(ws + (Write(t, pretty, indent) + rest)) == Built(Lexemes(t), rest)
    decreases t, 0
  {
    hide Quote, Print, StrictArray, StrictObject, WriteItems, WriteMembers;
    match t
    case Null => ConstantsRead(ws, rest);
    case Boolean(_) => ConstantsRead(ws, rest);
    case Number(d) =>
      if d.IsFinite() {
        DecimalRead(ws, d, rest);
      } else {
        ConstantsRead(ws, rest);
      }
    case String(s) => QuotedRead(ws, s, rest);
    case Array(items) =>
      var w := WriteItems(items, First, pretty, indent);
      Assoc([LBRACKET], w, rest);
      BeyondChar(ws, LBRACKET, w + rest);
      ArrayRead(items, pretty, indent, rest);
    case Object(members) =>
      var w := WriteMembers(members, true, pretty, indent);
      Assoc([LBRACE], w, rest);
      BeyondChar(ws, LBRACE, w + rest);
      ObjectRead(members, pretty, indent, rest);
  }

  lemma {:induction false} ArrayRead(items: seq<Json<Decimal>>, pretty: bool, indent: nat, rest: Text)
    ensures StrictArray(WriteItems(items, First, pretty, indent) + rest) == Built(Array(LexemesOfItems(items)), rest)
    decreases items, 3
  {
    if items == [] {
      EndOfItems(First, pretty, indent, rest);
    } else {
      hide StrictItems, Write, Beyond;
      var ws := Gap(First, Breaks(items[0]), pretty, indent);
      GapIsCommaAndSpace(First, Breaks(items[0]), pretty, indent);
      var w, more := Write(items[0], pretty, indent + 1), WriteItems(items[1..], After(items[0]), pretty, indent);
      Assoc(ws, w + more, rest);
      Assoc(w, more, rest);
      ValueIsNotAnEnd(ws, items[0], pretty, indent + 1, more + rest);
      ItemsRead(ws, items, pretty, indent, rest);
    }
  }

  lemma {:induction false} ItemsRead(ws: Text, items: seq<Json<Decimal>>, pretty: bool, indent: nat, rest: Text)
    requires AllWhite(ws) && items != []
    ensures StrictItems(ws + (ItemsFrom(items, pretty, indent) + rest)) == Built(LexemesOfItems(items), rest)
    decreases items, 2
  {
    hide StrictValue, Write, WriteItems, StrictItemsAfter;
    var first, tail := items[0], items[1..];
    var after := WriteItems(tail, After(first), pretty, indent) + rest;
    Assoc(Write(first, pretty, indent + 1), WriteItems(tail, After(first), pretty, indent), rest);
    ItemsDelimited(tail, After(first), pretty, indent, rest);
    ValueRead(ws, first, pretty, indent + 1, after);
    ItemsAfterRead(Lexemes(first), tail, After(first), pretty, indent, rest);
  }

  lemma {:induction false} ItemsAfterRead(value: Json<Text>, items: seq<Json<Decimal>>, previous: Previous,
                                         pretty: bool, indent: nat, rest: Text)
    requires previous != First
    ensures StrictItemsAfter(value, WriteItems(items, previous, pretty, indent) + rest)
         == Built([value] + LexemesOfItems(items), rest)
    decreases items, 3
  {
    hide Beyond, Write;
    if items == [] {
      EndOfItems(previous, pretty, indent, rest);
      assert [value] + [] == [value];
    } else {
      hide WriteItems, StrictItems;
      var ws := CommaBeforeItems(items, previous, pretty, indent, rest);
      ItemsRead(ws, items, pretty, indent, rest);
    }
  }

  // ----- objects

  /** The members from the current key on. */
  ghost function MembersFrom(members: seq<Member<Decimal>>, pretty: bool, indent: nat): (s: Text)
    requires members != []
  {
    Quote(members[0].key) + (Colon(pretty) + (Write(members[0].value, pretty, indent + 1)
    + WriteMembers(members[1..], false, pretty, indent)))
  }

  lemma MembersFromShape(members: seq<Member<Decimal>>, pretty: bool, indent: nat, rest: Text)
    requires members != []
    ensures MembersFrom(members, pretty, indent) + rest
         == Quote(members[0].key) + (Colon(pretty) + (Write(members[0].value, pretty, indent + 1)
         + (WriteMembers(members[1..], false, pretty, indent) + rest)))
  {
    var value, more := Write(members[0].value, pretty, indent + 1), WriteMembers(members[1..], false, pretty, indent);
    GroupRight(Quote(members[0].key), Colon(pretty), value + more, rest);
    Assoc(value, more, rest);
  }

  lemma MembersDelimited(members: seq<Member<Decimal>>, pretty: bool, indent: nat, rest: Text)
    ensures Delimited(WriteMembers(members, false, pretty, indent) + rest)
  {
  }

  lemma EndOfMembers(first: bool, pretty: bool, indent: nat, rest: Text)
    ensures var s := WriteMembers([], first, pretty, indent) + rest;
            Beyond(RBRACE, s) == Some(rest) && Beyond(COMMA, s) == None
  {
    var ws := (if first && pretty then [NEWLINE] else []) + Break(pretty, indent);
    BreakIsWhite(pretty, indent);
    Assoc(ws, [RBRACE], rest);
    BeyondChar(ws, RBRACE, rest);
  }

  lemma CommaBeforeMembers(members: seq<Member<Decimal>>, pretty: bool, indent: nat, rest: Text) returns (ws: Text)
    requires members != []
    ensures AllWhite(ws)
    ensures Beyond(COMMA, WriteMembers(members, false, pretty, indent) + rest)
         == Some(ws + (MembersFrom(members, pretty, indent) + rest))
  {
    ws := Break(pretty, indent + 1);
    BreakIsWhite(pretty, indent + 1);
    var body := MembersFrom(members, pretty, indent);
    assert WriteMembers(members, false, pretty, indent) == [COMMA] + (ws + body);
    GroupRight([COMMA], ws, body, rest);
    BeyondChar([], COMMA, ws + (body + rest));
    assert [] + ([COMMA] + (ws + (body + rest))) == [COMMA] + (ws + (body + rest));
  }

  /** A key and its colon; white space may follow. */
  lemma KeyRead(ws: Text, key: Text, pretty: bool, s: Text) returns (gap: Text)
    requires AllWhite(ws)
    ensures AllWhite(gap) && StrictKey(ws + (Quote(key) + (Colon(pretty) + s))) == Built(key, gap + s)
  {
    hide Quote, StrictString;
    gap := if pretty then [SPACE] else [];
    QuotedRead(ws, key, Colon(pretty) + s);
    assert Colon(pretty) + s == [] + ([COLON] + (gap + s));
    BeyondChar([], COLON, gap + s);
  }

  lemma {:induction false} ObjectRead(members: seq<Member<Decimal>>, pretty: bool, indent: nat, rest: Text)
    ensures StrictObject(WriteMembers(members, true, pretty, indent) + rest)
         == Built(Object(LexemesOfMembers(members)), rest)
    decreases members, 3
  {
    if members == [] {
      EndOfMembers(true, pretty, indent, rest);
    } else {
      hide StrictMembers, Write, Quote, StrictString;
      var ws := Break(pretty, indent + 1);
      BreakIsWhite(pretty, indent + 1);
      var body := MembersFrom(members, pretty, indent);
      assert WriteMembers(members, true, pretty, indent) == [] + (ws + body);
      GroupRight([], ws, body, rest);
      assert [] + (ws + (body + rest)) == ws + (body + rest);
      MembersFromShape(members, pretty, indent, rest);
      KeyIsNotAnEnd(ws, members[0].key, Colon(pretty) + (Write(members[0].value, pretty, indent + 1)
                    + (WriteMembers(members[1..], false, pretty, indent) + rest)));
      MembersRead(ws, members, pretty, indent, rest);
    }
  }

  lemma KeyIsNotAnEnd(ws: Text, key: Text, s: Text)
    requires AllWhite(ws)
    ensures Beyond(RBRACE, ws + (Quote(key) + s)) == None
  {
    QuoteShape(key, s);
    BeyondChar(ws, QUOTE, Escape(key) + ([QUOTE] + s));
  }

  lemma {:induction false} MembersRead(ws: Text, members: seq<Member<Decimal>>, pretty: bool, indent: nat, rest: Text)
    requires AllWhite(ws) && members != []
    ensures StrictMembers(ws + (MembersFrom(members, pretty, indent) + rest)) == Built(LexemesOfMembers(members), rest)
    decreases members, 2
  {
    hide StrictKey, StrictValue, StrictMembersAfter, Write, WriteMembers, Quote, MembersFrom;
    var first, tail := members[0], members[1..];
    var after := WriteMembers(tail, false, pretty, indent) + rest;
    MembersFromShape(members, pretty, indent, rest);
    var gap := KeyRead(ws, first.key, pretty, Write(first.value, pretty, indent + 1) + after);
    MembersDelimited(tail, pretty, indent, rest);
    ValueRead(gap, first.value, pretty, indent + 1, after);
    MembersAfterRead(Member(first.key, Lexemes(first.value)), tail, pretty, indent, rest);
  }

  lemma {:induction false} MembersAfterRead(member: Member<Text>, members: seq<Member<Decimal>>,
                                           pretty: bool, indent: nat, rest: Text)
    ensures StrictMembersAfter(member, WriteMembers(members, false, pretty, indent) + rest)
         == Built([member] + LexemesOfMembers(members), rest)
    decreases members, 3
  {
    hide Beyond, Write;
    if members == [] {
      EndOfMembers(false, pretty, indent, rest);
      assert [member] + [] == [member];
    } else {
      hide WriteMembers, StrictMembers, MembersFrom;
      var ws := CommaBeforeMembers(members, pretty, indent, rest);
      MembersRead(ws, members, pretty, indent, rest);
    }
  }

  // ----- whole texts

  /** Compact text is JSON text for the tree that was written, whatever its depth and its keys. */
  lemma CompactIsJson(t: Json<Decimal>)
    ensures Strict(ToJSONString(t)) == Some(Lexemes(t))
  {
    hide StrictValue, Write;
    var s := Write(t, false, 0);
    ValueRead([], t, false, 0, []);
    assert [] + (s + []) == s;
  }

  /** So is pretty text, its final newline included. */
  lemma PrettyIsJson(t: Json<Decimal>)
    ensures Strict(ToPrettyJSONString(t)) == Some(Lexemes(t))
  {
    hide StrictValue, Write;
    var s := Write(t, true, 0) + [NEWLINE];
    ValueRead([], t, true, 0, [NEWLINE]);
    assert [] + s == s;
    SkipAll([NEWLINE], []);
    assert [NEWLINE] + [] == [NEWLINE];
  }
}

/**
  The layout of pretty text, described by a reader that sees nothing but the characters: how far each line is
  indented, what starts a line, and where single spaces stand.
*/
module JsonLayout {
  import opened Text
  import opened DecimalNumber
  import opened DecimalPrinter
  import opened Numerals
  import opened JsonTree
  import opened JsonWriter
  import opened JsonTokens
  import opened JsonPretty

  /**
    What the reader keeps: the brackets that are open (braces are true), whether it is in a string, the spaces since
    a line end if one came last, the last other character, and the spaces since that.
  */
  datatype Reader = Reader(open: seq<bool>, mode: Mode, line: Option<nat>, last: UChar, gap: nat)

  predicate Closes(c: UChar) {
    c == RBRACE || c == RBRACKET
  }

  /** Keys and closing braces stand first on their line. */
  predicate FirstOnLine(r: Reader, c: UChar) {
    r.open != [] && r.open[|r.open| - 1] && (c == RBRACE || r.last == LBRACE || r.last == COMMA)
  }

  /** Two spaces of indentation per open bracket; on one line, a single space after commas and colons only. */
  predicate Placed(r: Reader, c: UChar) {
    && (Closes(c) ==> r.open != [])
    && match r.line
       case Some(k) => r.last != COLON && k == 2 * (|r.open| - if Closes(c) then 1 else 0)
       case None => r.gap == (if r.last == COMMA || r.last == COLON then 1 else 0) && !FirstOnLine(r, c)
  }

  function Opened(open: seq<bool>, c: UChar): (r: seq<bool>)
    requires Closes(c) ==> open != []
  {
    if c == LBRACE then open + [true]
    else if c == LBRACKET then open + [false]
    else if Closes(c) then open[..|open| - 1]
    else open
  }

  /** A line may end after anything but a space; a second line end stands only in an object without members. */
  predicate CanBreak(r: Reader) {
    (r.line == None && r.gap == 0) || (r.line == Some(0) && r.last == LBRACE)
  }

  function Read(r: Reader, c: UChar): (n: Option<Reader>) {
    if r.mode != Outside then Some(r.(mode := Next(c, r.mode)))
    else if c == NEWLINE then
      if CanBreak(r) then Some(r.(line := Some(0))) else None
    else if c == SPACE then
      Some(if r.line.Some? then r.(line := Some(r.line.value + 1)) else r.(gap := r.gap + 1))
    else if Placed(r, c) then
      Some(Reader(Opened(r.open, c), Next(c, Outside), None, c, 0))
    else None
  }

  function ReadAll(r: Reader, s: Text): (n: Option<Reader>)
    decreases s
  {
    if s == [] then Some(r)
    else
      match Read(r, s[0])
      case None => None
      case Some(n) => ReadAll(n, s[1..])
  }

  lemma {:induction false} ReadConcat(r: Reader, a: Text, b: Text, m: Reader)
    requires ReadAll(r, a) == Some(m)
    ensures ReadAll(r, a + b) == ReadAll(m, b)
    decreases a
  {
    if a == [] {
      assert a + b == b;
    } else {
      assert (a + b)[0] == a[0] && (a + b)[1..] == a[1..] + b;
      ReadConcat(Read(r, a[0]).value, a[1..], b, m);
    }
  }

  lemma ReadOne(r: Reader, c: UChar)
    ensures ReadAll(r, [c]) == Read(r, c)
  {
    assert [c][1..] == [];
  }

  // ----- tokens

  /** Where a value may start. */
  predicate Ready(r: Reader) {
    && r.mode == Outside
    && (r.open != [] && r.open[|r.open| - 1] ==> r.last == COLON)
    && match r.line
       case Some(k) => r.last != COLON && k == 2 * |r.open|
       case None => r.gap == if r.last == COMMA || r.last == COLON then 1 else 0
  }

  /** The reader after a value: nothing has changed but the last character, which ends the value. */
  predicate Done(r: Reader, n: Reader) {
    && n == Reader(r.open, Outside, None, n.last, 0)
    && n.last != COMMA && n.last != COLON && n.last != LBRACE && n.last != LBRACKET
  }

  /** Characters of constants and numbers. */
  predicate Ordinary(c: UChar) {
    && c != NEWLINE && c != SPACE && c != QUOTE && c != COMMA && c != COLON
    && c != LBRACE && c != RBRACE && c != LBRACKET && c != RBRACKET
  }

  lemma ReadFirst(r: Reader, c: UChar)
    requires Ready(r) && !Closes(c) && c != NEWLINE && c != SPACE
    ensures Read(r, c) == Some(Reader(Opened(r.open, c), Next(c, Outside), None, c, 0))
  {
  }

  lemma {:induction false} ReadOrdinary(r: Reader, s: Text) returns (n: Reader)
    requires s != [] && (forall i :: 0 <= i < |s| ==> Ordinary(s[i]))
    requires Ready(r) || Done(r, r)
    ensures ReadAll(r, s) == Some(n) && Done(r, n)
    decreases s
  {
    var m := Reader(r.open, Outside, None, s[0], 0);
    assert Read(r, s[0]) == Some(m);
    if |s| == 1 {
      n := m;
    } else {
      n := ReadOrdinary(m, s[1..]);
    }
  }

  lemma {:induction false} ReadHex(r: Reader, s: Text)
    requires r.mode == Inside && forall i :: 0 <= i < |s| ==> s[i] != QUOTE && s[i] != BACKSLASH
    ensures ReadAll(r, s) == Some(r)
  {
    if s != [] {
      ReadHex(r, s[1..]);
    }
  }

  lemma ReadPair(r: Reader, e: UChar)
    requires r.mode == Inside
    ensures ReadAll(r, [BACKSLASH, e]) == Some(r)
  {
    assert [BACKSLASH, e] == [BACKSLASH] + [e];
    ReadOne(r, BACKSLASH);
    ReadConcat(r, [BACKSLASH], [e], r.(mode := Escaped));
    ReadOne(r.(mode := Escaped), e);
  }

  lemma ReadEscapedChar(r: Reader, c: UChar)
    requires r.mode == Inside
    ensures ReadAll(r, EscapeChar(c)) == Some(r)
  {
    match ShortEscape(c)
    case Some(e) => ReadPair(r, e);
    case None =>
      if EscapeChar(c) == [c] {
        ReadHex(r, [c]);
      } else {
        ReadPair(r, LOWER_U);
        ReadConcat(r, [BACKSLASH, LOWER_U], FourHex(c), r);
        ReadHex(r, FourHex(c));
      }
  }

  lemma {:induction false} ReadEscaped(r: Reader, s: Text)
    requires r.mode == Inside
    ensures ReadAll(r, Escape(s)) == Some(r)
  {
    if s != [] {
      ReadEscapedChar(r, s[0]);
      ReadConcat(r, EscapeChar(s[0]), Escape(s[1..]), r);
      ReadEscaped(r, s[1..]);
    }
  }

  /** A string, where a character may stand. */
  lemma ReadQuoted(r: Reader, s: Text) returns (n: Reader)
    requires r.mode == Outside && Placed(r, QUOTE)
    ensures ReadAll(r, Quote(s)) == Some(n) && Done(r, n)
  {
    var m := Reader(r.open, Inside, None, QUOTE, 0);
    n := m.(mode := Outside);
    ReadOne(r, QUOTE);
    ReadEscaped(m, s);
    ReadOne(m, QUOTE);
    ReadConcat(r, [QUOTE], Escape(s), m);
    ReadConcat(r, [QUOTE] + Escape(s), [QUOTE], m);
  }

  lemma ReadNumber(r: Reader, d: Decimal) returns (n: Reader)
    requires Ready(r)
    ensures ReadAll(r, NumberText(d)) == Some(n) && Done(r, n)
  {
    if d.IsFinite() {
      var numeral := PrintIsJsonNumber(d);
      NumeralIsOrdinary(numeral);
      NumberRead(numeral, []);
      n := ReadOrdinary(r, Print(d));
    } else {
      n := ReadOrdinary(r, NULL_TEXT);
    }
  }

  lemma NumeralIsOrdinary(n: Numeral)
    requires JsonNumber(n)
    ensures forall i :: 0 <= i < |Render(n)| ==> Ordinary(Render(n)[i])
  {
    assert forall i :: 0 <= i < |MarkText(n.mark)| ==> Ordinary(MarkText(n.mark)[i]);
    assert forall i :: 0 <= i < |FractionText(n.frac)| ==> Ordinary(FractionText(n.frac)[i]);
    assert forall i :: 0 <= i < |ExponentText(n.exp)| ==> Ordinary(ExponentText(n.exp)[i]);
  }

  // ----- white space

  lemma {:induction false} ReadIndent(r: Reader, depth: nat)
    requires r.mode == Outside && r.line.Some?
    ensures ReadAll(r, Indent(depth)) == Some(r.(line := Some(r.line.value + 2 * depth)))
    decreases depth
  {
    if depth > 0 {
      var one := r.(line := Some(r.line.value + 1));
      var two := r.(line := Some(r.line.value + 2));
      assert [SPACE, SPACE] == [SPACE] + [SPACE];
      ReadOne(r, SPACE);
      ReadOne(one, SPACE);
      ReadConcat(r, [SPACE], [SPACE], one);
      ReadConcat(r, [SPACE, SPACE], Indent(depth - 1), two);
      ReadIndent(two, depth - 1);
    }
  }

  lemma ReadBreak(r: Reader, depth: nat)
    requires r.mode == Outside && CanBreak(r)
    ensures ReadAll(r, Break(true, depth)) == Some(r.(line := Some(2 * depth)))
  {
    var n := r.(line := Some(0));
    ReadOne(r, NEWLINE);
    ReadConcat(r, [NEWLINE], Indent(depth), n);
    ReadIndent(n, depth);
  }

  // ----- values

  /** Inside an array or an object that was open at a depth. */
  predicate In(r: Reader, open: seq<bool>, brace: bool) {
    r.mode == Outside && r.line == None && r.gap == 0 && r.open == open + [brace]
  }

  lemma {:induction false} ReadValue(r: Reader, t: Json<Decimal>) returns (n: Reader)
    requires Ready(r)
    ensures ReadAll(r, Write(t, true, |r.open|)) == Some(n) && Done(r, n)
    decreases t, 0
  {
    match t
    case Null => n := ReadOrdinary(r, NULL_TEXT);
    case Boolean(b) => n := ReadOrdinary(r, if b then TRUE_TEXT else FALSE_TEXT);
    case Number(d) => n := ReadNumber(r, d);
    case String(s) => n := ReadQuoted(r, s);
    case Array(items) =>
      ReadFirst(r, LBRACKET);
      ReadOne(r, LBRACKET);
      var m := Reader(r.open + [false], Outside, None, LBRACKET, 0);
      ReadConcat(r, [LBRACKET], WriteItems(items, First, true, |r.open|), m);
      n := ReadItems(m, r.open, items, First);
    case Object(members) =>
      ReadFirst(r, LBRACE);
      ReadOne(r, LBRACE);
      var m := Reader(r.open + [true], Outside, None, LBRACE, 0);
      ReadConcat(r, [LBRACE], WriteMembers(members, true, true, |r.open|), m);
      n := ReadMembers(m, r.open, members, true);
  }

  lemma ReadGap(r: Reader, open: seq<bool>, previous: Previous, breaks: bool) returns (n: Reader)
    requires In(r, open, false)
    requires if previous == First then r.last == LBRACKET else Done(r, r)
    ensures ReadAll(r, Gap(previous, breaks, true, |open|)) == Some(n) && Ready(n) && n.open == r.open
  {
    if previous == First {
      if breaks {
        ReadBreak(r, |open| + 1);
        n := r.(line := Some(2 * (|open| + 1)));
      } else {
        n := r;
      }
    } else {
      var m := r.(last := COMMA);
      ReadOne(r, COMMA);
      if previous == Inline {
        ReadConcat(r, [COMMA], [SPACE], m);
        ReadOne(m, SPACE);
        n := m.(gap := 1);
      } else {
        ReadConcat(r, [COMMA], Break(true, |open| + 1), m);
        ReadBreak(m, |open| + 1);
        n := m.(line := Some(2 * (|open| + 1)));
      }
    }
  }

  lemma ReadClosing(r: Reader, open: seq<bool>, previous: Previous) returns (n: Reader)
    requires In(r, open, false)
    requires if previous == First then r.last == LBRACKET else Done(r, r)
    ensures ReadAll(r, WriteItems([], previous, true, |open|)) == Some(n) && Done(r.(open := open), n)
  {
    n := Reader(open, Outside, None, RBRACKET, 0);
    var m := if previous == Broken then r.(line := Some(2 * |open|)) else r;
    if previous == Broken {
      ReadBreak(r, |open|);
    }
    assert r.open[..|r.open| - 1] == open;
    ReadConcat(r, Closing(previous, true, |open|), [RBRACKET], m);
    ReadOne(m, RBRACKET);
  }

  lemma {:induction false} ReadItems(r: Reader, open: seq<bool>, items: seq<Json<Decimal>>, previous: Previous)
    returns (n: Reader)
    requires In(r, open, false)
    requires if previous == First then r.last == LBRACKET else Done(r, r)
    ensures ReadAll(r, WriteItems(items, previous, true, |open|)) == Some(n) && Done(r.(open := open), n)
    decreases items, 1
  {
    hide ReadAll, Ready;
    if items == [] {
      n := ReadClosing(r, open, previous);
    } else {
      var first, rest := items[0], WriteItems(items[1..], After(items[0]), true, |open|);
      var g := ReadGap(r, open, previous, Breaks(first));
      var m := ReadValue(g, first);
      n := ReadItems(m, open, items[1..], After(first));
      ReadConcat(r, Gap(previous, Breaks(first), true, |open|), Write(first, true, |open| + 1) + rest, g);
      ReadConcat(g, Write(first, true, |open| + 1), rest, m);
    }
  }

  lemma ReadClosingBrace(r: Reader, open: seq<bool>, first: bool) returns (n: Reader)
    requires In(r, open, true)
    requires if first then r.last == LBRACE else Done(r, r)
    ensures ReadAll(r, WriteMembers([], first, true, |open|)) == Some(n) && Done(r.(open := open), n)
  {
    n := Reader(open, Outside, None, RBRACE, 0);
    var blank: Text := if first then [NEWLINE] else [];
    var b := if first then r.(line := Some(0)) else r;
    var m := r.(line := Some(2 * |open|));
    ReadOne(r, NEWLINE);
    ReadBreak(b, |open|);
    ReadConcat(r, blank, Break(true, |open|), b);
    assert r.open[..|r.open| - 1] == open;
    ReadConcat(r, blank + Break(true, |open|), [RBRACE], m);
    ReadOne(m, RBRACE);
  }

  /** From the end of one member, or the brace, to the colon after the next key. */
  lemma ReadKey(r: Reader, open: seq<bool>, first: bool, key: Text) returns (n: Reader)
    requires In(r, open, true)
    requires if first then r.last == LBRACE else Done(r, r)
    ensures ReadAll(r, Separator(first) + (Break(true, |open| + 1) + (Quote(key) + Colon(true)))) == Some(n)
    ensures Ready(n) && n.open == r.open
  {
    var c := if first then r else r.(last := COMMA);
    var b := c.(line := Some(2 * (|open| + 1)));
    ReadOne(r, COMMA);
    ReadConcat(r, Separator(first), Break(true, |open| + 1) + (Quote(key) + Colon(true)), c);
    ReadBreak(c, |open| + 1);
    ReadConcat(c, Break(true, |open| + 1), Quote(key) + Colon(true), b);
    var q := ReadQuoted(b, key);
    ReadConcat(b, Quote(key), Colon(true), q);
    n := ReadColon(q);
  }

  lemma ReadColon(q: Reader) returns (n: Reader)
    requires Done(q, q) && q.open != [] && q.open[|q.open| - 1]
    ensures ReadAll(q, Colon(true)) == Some(n) && Ready(n) && n.open == q.open
  {
    var c := q.(last := COLON);
    n := c.(gap := 1);
    assert Colon(true) == [COLON] + [SPACE];
    ReadOne(q, COLON);
    ReadConcat(q, [COLON], [SPACE], c);
    ReadOne(c, SPACE);
  }

  lemma {:induction false} ReadMembers(r: Reader, open: seq<bool>, members: seq<Member<Decimal>>, first: bool)
    returns (n: Reader)
    requires In(r, open, true)
    requires if first then r.last == LBRACE else Done(r, r)
    ensures ReadAll(r, WriteMembers(members, first, true, |open|)) == Some(n) && Done(r.(open := open), n)
    decreases members, 1
  {
    hide ReadAll, Ready;
    if members == [] {
      n := ReadClosingBrace(r, open, first);
    } else {
      var key, value := members[0].key, members[0].value;
      var rest := WriteMembers(members[1..], false, true, |open|);
      var k := ReadKey(r, open, first, key);
      var m := ReadValue(k, value);
      n := ReadMembers(m, open, members[1..], false);
      var w := Write(value, true, |open| + 1);
      ReadConcat(k, w, rest, m);
      var s, b, q, c := Separator(first), Break(true, |open| + 1), Quote(key), Colon(true);
      ReadConcat(r, s + (b + (q + c)), w + rest, k);
      FiveParts(s, b, q, c, w + rest);
    }
  }

  lemma FiveParts(s: Text, b: Text, q: Text, c: Text, w: Text)
    ensures (s + (b + (q + c))) + w == s + (b + (q + (c + w)))
  {
    Assoc(s, b + (q + c), w);
    Assoc(b, q + c, w);
    Assoc(q, c, w);
  }

  const START: Reader := Reader([], Outside, None, 0, 0)

  /** toPrettyJSONString keeps to the layout, closes what it opens, and ends one line. */
  lemma PrettyIsLaidOut(t: Json<Decimal>)
    ensures var n := ReadAll(START, ToPrettyJSONString(t));
            n.Some? && n.value.open == [] && n.value.mode == Outside && n.value.line == Some(0)
  {
    var m := ReadValue(START, t);
    ReadConcat(START, Write(t, true, 0), [NEWLINE], m);
    ReadOne(m, NEWLINE);
  }
}

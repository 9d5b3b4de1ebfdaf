/** Pretty output is compact output with insignificant white space (section 2 of RFC 7159) added. */
module JsonPretty {
  import opened Text
  import opened DecimalNumber
  import opened Numerals
  import opened JsonTree
  import opened JsonWriter
  import opened JsonGrammar
  import opened JsonTokens

  /** Where a reader stands: between tokens, inside a string, or just after a backslash in a string. */
  datatype Mode = Outside | Inside | Escaped

  function Next(c: UChar, mode: Mode): (m: Mode) {
    match mode
    case Outside => if c == QUOTE then Inside else Outside
    case Inside => if c == BACKSLASH then Escaped else if c == QUOTE then Outside else Inside
    case Escaped => Inside
  }

  function Final(s: Text, mode: Mode): (m: Mode) {
    if s == [] then mode else Final(s[1..], Next(s[0], mode))
  }

  function Kept(c: UChar, mode: Mode): (r: Text) {
    if mode == Outside && IsWhitespace(c) then [] else [c]
  }

  /** The text without the white space outside its strings. */
  function Strip(s: Text, mode: Mode): (r: Text) {
    if s == [] then [] else Kept(s[0], mode) + Strip(s[1..], Next(s[0], mode))
  }

  lemma {:induction false} StripConcat(a: Text, b: Text, mode: Mode)
    ensures Strip(a + b, mode) == Strip(a, mode) + Strip(b, Final(a, mode))
    ensures Final(a + b, mode) == Final(b, Final(a, mode))
  {
    if a == [] {
      assert a + b == b;
    } else {
      assert (a + b)[0] == a[0] && (a + b)[1..] == a[1..] + b;
      var next := Next(a[0], mode);
      StripConcat(a[1..], b, next);
      Assoc(Kept(a[0], mode), Strip(a[1..], next), Strip(b, Final(a[1..], next)));
    }
  }

  /** A text of whole tokens, and what is left of it. */
  predicate Strips(a: Text, x: Text) {
    Strip(a, Outside) == x && Final(a, Outside) == Outside
  }

  lemma StripsConcat(a: Text, x: Text, b: Text, y: Text)
    requires Strips(a, x) && Strips(b, y)
    ensures Strips(a + b, x + y)
  {
    StripConcat(a, b, Outside);
  }

  lemma {:induction false} SpaceStrips(ws: Text)
    requires forall i :: 0 <= i < |ws| ==> IsWhitespace(ws[i])
    ensures Strips(ws, [])
  {
    if ws != [] {
      SpaceStrips(ws[1..]);
    }
  }

  /** Characters that are neither white space nor a quotation mark. */
  predicate Plain(s: Text) {
    forall i :: 0 <= i < |s| ==> !IsWhitespace(s[i]) && s[i] != QUOTE
  }

  lemma {:induction false} PlainStrips(s: Text)
    requires Plain(s)
    ensures Strips(s, s)
  {
    if s != [] {
      PlainStrips(s[1..]);
      assert s == [s[0]] + s[1..];
    }
  }

  // ----- strings are left alone

  lemma StripShort(a: UChar, b: UChar)
    ensures Strip([a, b], Inside) == [a, b] || Next(a, Inside) == Outside
    ensures Final([a, b], Inside) == Next(b, Next(a, Inside))
  {
    assert [a, b] == [a] + [b];
    StripConcat([a], [b], Inside);
  }

  lemma {:induction false} HexStrips(h: Text)
    requires forall i :: 0 <= i < |h| ==> h[i] != QUOTE && h[i] != BACKSLASH
    ensures Strip(h, Inside) == h && Final(h, Inside) == Inside
  {
    if h != [] {
      HexStrips(h[1..]);
      assert h == [h[0]] + h[1..];
    }
  }

  lemma EscapedCharStrips(c: UChar)
    ensures Strip(EscapeChar(c), Inside) == EscapeChar(c) && Final(EscapeChar(c), Inside) == Inside
  {
    match ShortEscape(c)
    case Some(e) => StripShort(BACKSLASH, e);
    case None =>
      if EscapeChar(c) == [c] {
        HexStrips([c]);
      } else {
        StripShort(BACKSLASH, LOWER_U);
        HexStrips(FourHex(c));
        StripConcat([BACKSLASH, LOWER_U], FourHex(c), Inside);
      }
  }

  lemma {:induction false} EscapeStrips(s: Text)
    ensures Strip(Escape(s), Inside) == Escape(s) && Final(Escape(s), Inside) == Inside
  {
    if s != [] {
      EscapedCharStrips(s[0]);
      EscapeStrips(s[1..]);
      StripConcat(EscapeChar(s[0]), Escape(s[1..]), Inside);
    }
  }

  lemma QuoteStrips(s: Text)
    ensures Strips(Quote(s), Quote(s))
  {
    EscapeStrips(s);
    StripConcat([QUOTE], Escape(s), Outside);
    StripConcat([QUOTE] + Escape(s), [QUOTE], Outside);
  }

  // ----- numbers and constants hold no white space

  lemma DigitsArePlain(s: Text)
    requires AllDigits(s)
    ensures Plain(s)
  {
  }

  lemma NumeralIsPlain(n: Numeral)
    requires JsonNumber(n)
    ensures Plain(Render(n))
  {
    DigitsArePlain(n.whole);
    assert Plain(FractionText(n.frac));
    assert Plain(ExponentText(n.exp));
    assert Plain(MarkText(n.mark));
  }

  lemma NumberStrips(d: Decimal)
    ensures Strips(NumberText(d), NumberText(d))
  {
    if d.IsFinite() {
      var n := PrintIsJsonNumber(d);
      NumeralIsPlain(n);
    }
    PlainStrips(NumberText(d));
  }

  // ----- values

  lemma {:induction false} IndentStrips(depth: nat)
    ensures Strips(Indent(depth), [])
  {
    if depth > 0 {
      IndentStrips(depth - 1);
      SpaceStrips([SPACE, SPACE]);
      StripsConcat([SPACE, SPACE], [], Indent(depth - 1), []);
    }
  }

  lemma BreakStrips(depth: nat, e: nat)
    ensures Strips(Break(true, depth), Break(false, e))
  {
    IndentStrips(depth);
    SpaceStrips([NEWLINE]);
    StripsConcat([NEWLINE], [], Indent(depth), []);
  }

  lemma GapStrips(previous: Previous, breaks: bool, depth: nat, e: nat)
    ensures Strips(Gap(previous, breaks, true, depth), Gap(previous, breaks, false, e))
    ensures Strips(Closing(previous, true, depth), Closing(previous, false, e))
  {
    BreakStrips(depth + 1, e + 1);
    BreakStrips(depth, e);
    SpaceStrips([SPACE]);
    SpaceStrips([]);
    PlainStrips([COMMA]);
    StripsConcat([COMMA], [COMMA], [SPACE], []);
    StripsConcat([COMMA], [COMMA], Break(true, depth + 1), Break(false, e + 1));
  }

  /** Stripping the pretty text of a value, at any depth, gives its compact text. */
  lemma {:induction false} ValueStrips(t: Json<Decimal>, depth: nat, e: nat)
    ensures Strips(Write(t, true, depth), Write(t, false, e))
    decreases t, 0
  {
    match t
    case Null => PlainStrips(NULL_TEXT);
    case Boolean(b) => PlainStrips(if b then TRUE_TEXT else FALSE_TEXT);
    case Number(d) => NumberStrips(d);
    case String(s) => QuoteStrips(s);
    case Array(items) =>
      ItemsStrip(items, First, depth, e);
      PlainStrips([LBRACKET]);
      StripsConcat([LBRACKET], [LBRACKET], WriteItems(items, First, true, depth), WriteItems(items, First, false, e));
    case Object(members) =>
      MembersStrip(members, true, depth, e);
      PlainStrips([LBRACE]);
      StripsConcat([LBRACE], [LBRACE], WriteMembers(members, true, true, depth), WriteMembers(members, true, false, e));
  }

  lemma {:induction false} ItemsStrip(items: seq<Json<Decimal>>, previous: Previous, depth: nat, e: nat)
    ensures Strips(WriteItems(items, previous, true, depth), WriteItems(items, previous, false, e))
    decreases items, 1
  {
    hide Strips;
    if items == [] {
      GapStrips(previous, false, depth, e);
      PlainStrips([RBRACKET]);
      StripsConcat(Closing(previous, true, depth), Closing(previous, false, e), [RBRACKET], [RBRACKET]);
    } else {
      var first, tail := items[0], items[1..];
      var breaks, after := Breaks(first), After(first);
      GapStrips(previous, breaks, depth, e);
      ValueStrips(first, depth + 1, e + 1);
      ItemsStrip(tail, after, depth, e);
      var a, b := Write(first, true, depth + 1), WriteItems(tail, after, true, depth);
      var x, y := Write(first, false, e + 1), WriteItems(tail, after, false, e);
      StripsConcat(a, x, b, y);
      StripsConcat(Gap(previous, breaks, true, depth), Gap(previous, breaks, false, e), a + b, x + y);
    }
  }

  lemma ClosingBraceStrips(first: bool, depth: nat, e: nat)
    ensures Strips(WriteMembers([], first, true, depth), WriteMembers([], first, false, e))
  {
    var blank: Text := if first then [NEWLINE] else [];
    SpaceStrips(blank);
    BreakStrips(depth, e);
    StripsConcat(blank, [], Break(true, depth), []);
    PlainStrips([RBRACE]);
    StripsConcat(blank + Break(true, depth), [], [RBRACE], [RBRACE]);
  }

  lemma KeyStrips(key: Text)
    ensures Strips(Quote(key), Quote(key)) && Strips(Colon(true), Colon(false))
  {
    QuoteStrips(key);
    PlainStrips([COLON]);
    SpaceStrips([SPACE]);
    StripsConcat([COLON], [COLON], [SPACE], []);
    assert [COLON] + [SPACE] == [COLON, SPACE];
  }

  lemma {:induction false} MembersStrip(members: seq<Member<Decimal>>, first: bool, depth: nat, e: nat)
    ensures Strips(WriteMembers(members, first, true, depth), WriteMembers(members, first, false, e))
    decreases members, 1
  {
    hide Strips;
    if members == [] {
      ClosingBraceStrips(first, depth, e);
    } else {
      var m, tail := members[0], members[1..];
      KeyStrips(m.key);
      ValueStrips(m.value, depth + 1, e + 1);
      MembersStrip(tail, false, depth, e);
      BreakStrips(depth + 1, e + 1);
      PlainStrips(Separator(first));
      var a, x := Write(m.value, true, depth + 1) + WriteMembers(tail, false, true, depth),
                  Write(m.value, false, e + 1) + WriteMembers(tail, false, false, e);
      StripsConcat(Write(m.value, true, depth + 1), Write(m.value, false, e + 1),
                   WriteMembers(tail, false, true, depth), WriteMembers(tail, false, false, e));
      StripsConcat(Colon(true), Colon(false), a, x);
      a, x := Colon(true) + a, Colon(false) + x;
      StripsConcat(Quote(m.key), Quote(m.key), a, x);
      a, x := Quote(m.key) + a, Quote(m.key) + x;
      StripsConcat(Break(true, depth + 1), Break(false, e + 1), a, x);
      a, x := Break(true, depth + 1) + a, Break(false, e + 1) + x;
      StripsConcat(Separator(first), Separator(first), a, x);
    }
  }

  /** toPrettyJSONString and toJSONString agree up to insignificant white space, the final newline included. */
  lemma PrettyIsCompact(t: Json<Decimal>)
    ensures Strip(ToPrettyJSONString(t), Outside) == ToJSONString(t)
    ensures Strip(ToJSONString(t), Outside) == ToJSONString(t)
  {
    ValueStrips(t, 0, 0);
    SpaceStrips([NEWLINE]);
    StripsConcat(Write(t, true, 0), Write(t, false, 0), [NEWLINE], []);
    assert Write(t, false, 0) + [] == Write(t, false, 0);
    StripTwice(Write(t, true, 0), Outside);
  }

  /** Stripping twice removes nothing more. */
  lemma {:induction false} StripTwice(s: Text, mode: Mode)
    ensures Strip(Strip(s, mode), mode) == Strip(s, mode)
  {
    if s != [] {
      var tail := Strip(s[1..], Next(s[0], mode));
      StripTwice(s[1..], Next(s[0], mode));
      if Kept(s[0], mode) == [] {
        assert Strip(s, mode) == tail;
      } else {
        assert ([s[0]] + tail)[1..] == tail;
      }
    }
  }
}

/**
  The repository's parser applied to JSON text: it accepts what RFC 7159 describes, save for white space after the
  value and for values nested more than a thousand deep.
*/
module JsonRoundTrip {
  import opened Text
  import opened DecimalNumber
  import opened Numerals
  import opened JsonTree
  import opened JsonWriter
  import opened JsonParser
  import opened JsonParsed
  import opened JsonGrammar
  import opened JsonTokens
  import opened JsonWritten

  // ----- tokens

  /** Where a token follows, the two notions of white space agree. */
  lemma {:induction false} SameSkip(s: Text)
    requires SkipWhite(s) != [] && !IsSpace(SkipWhite(s)[0])
    ensures SkipSpaces(s) == SkipWhite(s)
  {
    if IsWhitespace(s[0]) {
      SameSkip(s[1..]);
    }
  }

  function StructuralToken(c: UChar): (t: Token) {
    if c == LBRACKET then ArrayBegin
    else if c == RBRACKET then ArrayEnd
    else if c == LBRACE then ObjectBegin
    else if c == RBRACE then ObjectEnd
    else if c == COMMA then ListSeparator
    else if c == COLON then ObjectPairSeparator
    else InvalidToken
  }

  lemma StructuralRead(c: UChar, s: Text)
    requires StructuralToken(c) != InvalidToken && Beyond(c, s).Some?
    ensures ParseToken(s).token == StructuralToken(c) && ParseToken(s).rest == Beyond(c, s).value
  {
    SameSkip(s);
  }

  // ----- strings

  lemma UnicodeScan(s: Text)
    requires |s| >= 6 && s[0] == BACKSLASH && s[1] == LOWER_U && forall i :: 0 <= i < 4 ==> IsHex(s[2..][i])
    ensures ScanString(s) == ScanString(s[6..])
  {
    assert s[2..][4..] == s[6..];
  }

  lemma UnicodeDecode(s: Text)
    requires |s| >= 6 && s[0] == BACKSLASH && s[1] == LOWER_U && forall i :: 0 <= i < 4 ==> IsHex(s[2..][i])
    ensures Decode(s) == Prepend(HexValue(s[2..]), Decode(s[6..]))
  {
    assert forall i :: 0 <= i < 4 ==> s[i + 2] == s[2..][i];
  }

  /** A string of section 7 is scanned to the same end and decoded to the same string. */
  lemma {:induction false} StringParsed(s: Text)
    requires StrictString(s).Built?
    ensures ScanString(s) == Some(StrictString(s).rest)
    ensures Decode(Body(s, StrictString(s).rest)) == Some(StrictString(s).value)
    decreases |s|
  {
    hide HexValue, ReadHexDigits;
    var rest := StrictString(s).rest;
    if s[0] == QUOTE {
    } else if s[0] != BACKSLASH {
      BodyDrop(s, rest, 1);
      StringParsed(s[1..]);
    } else if ShortMeaning(s[1]).Some? {
      BodyDrop(s, rest, 2);
      StringParsed(s[2..]);
    } else {
      StringParsed(s[6..]);
      BodyDrop(s, rest, 6);
      UnicodeScan(s);
      var b := Body(s, rest);
      assert forall i :: 0 <= i < 4 ==> b[2..][i] == s[2..][i];
      UnicodeDecode(b);
      SameHex(b[2..], s[2..]);
    }
  }

  lemma SameHex(a: Text, b: Text)
    requires |a| >= 4 && |b| >= 4 && forall i :: 0 <= i < 4 ==> a[i] == b[i] && IsHex(a[i])
    ensures HexValue(a) == HexValue(b)
  {
  }

  lemma QuotedParsed(s: Text)
    requires Beyond(QUOTE, s).Some? && StrictString(Beyond(QUOTE, s).value).Built?
    ensures var l, r := ParseToken(s), StrictString(Beyond(QUOTE, s).value);
            l.token == StringLiteral && l.rest == r.rest && DecodeLexeme(l.lexeme) == Some(r.value)
  {
    hide StrictString, ScanString, Decode;
    var t := SkipWhite(s);
    SameSkip(s);
    StringParsed(t[1..]);
    var rest := StrictString(t[1..]).rest;
    assert Consumed(t, rest)[1..|t| - |rest| - 1] == Body(t[1..], rest);
  }

  // ----- constants and numbers

  lemma ConstantParsed(t: Text, token: Text)
    requires token != [] && token <= t
    ensures ParseConst(t, token) == Some(t[|token|..])
  {
  }

  lemma NumberStart(t: Text)
    requires ScanNumber(t).Some?
    ensures t != [] && (IsDigit(t[0]) || t[0] == MINUS)
  {
  }

  predicate IsScalarToken(token: Token) {
    token == NullToken || token == BoolTrue || token == BoolFalse || token == NumberToken
  }

  lemma ScalarParsed(s: Text, depth: nat)
    requires StrictScalar(SkipWhite(s)).Built?
    ensures var r := StrictScalar(SkipWhite(s));
            && IsScalarToken(ParseToken(s).token)
            && (depth <= STACK_LIMIT ==> BuildValue(s, depth) == r)
            && Height(r.value) == 0 && Collapse(r.value) == r.value
  {
    hide ScanNumber, ParseConst;
    var t := SkipWhite(s);
    if NULL_TEXT <= t {
      ConstantParsed(t, NULL_TEXT);
    } else if TRUE_TEXT <= t {
      ConstantParsed(t, TRUE_TEXT);
    } else if FALSE_TEXT <= t {
      ConstantParsed(t, FALSE_TEXT);
    } else {
      NumberStart(t);
    }
    SameSkip(s);
  }

  // ----- values

  /** The outcome for a value whose height is h, met at a given depth. */
  ghost function Outcome<T>(depth: nat, h: nat, value: T, rest: Text): (r: Built<T>) {
    if depth + h <= STACK_LIMIT then Built(value, rest) else Failed
  }

  /** The tree with members of one name merged as setValue merges them: the first place, the last value. */
  function Collapse(t: Json<Text>): (r: Json<Text>)
    decreases t, 0
  {
    match t
    case Array(items) => Array(CollapseItems(items))
    case Object(members) => Object(CollapseMembers(members, []))
    case _ => t
  }

  function CollapseItems(items: seq<Json<Text>>): (r: seq<Json<Text>>)
    decreases items, 1
  {
    if items == [] then [] else [Collapse(items[0])] + CollapseItems(items[1..])
  }

  function CollapseMembers(members: seq<Member<Text>>, done: seq<Member<Text>>): (r: seq<Member<Text>>)
    decreases members, 1
  {
    if members == [] then done
    else CollapseMembers(members[1..], SetMember(done, members[0].key, Collapse(members[0].value)))
  }

  /** A value does not start with a closing bracket or brace. */
  lemma ValueToken(s: Text)
    requires StrictValue(s).Built?
    ensures ParseToken(s).token != ArrayEnd && ParseToken(s).token != ObjectEnd
  {
    hide ParseToken, StrictArray, StrictObject, StrictString, StrictScalar;
    if Beyond(QUOTE, s).Some? {
      QuotedParsed(s);
    } else if Beyond(LBRACKET, s).Some? {
      StructuralRead(LBRACKET, s);
    } else if Beyond(LBRACE, s).Some? {
      StructuralRead(LBRACE, s);
    } else {
      ScalarParsed(s, 0);
    }
  }

  /** At any depth, the parser builds what the grammar says, or gives up because of the depth. */
  lemma {:induction false} ValueParsed(s: Text, depth: nat)
    requires StrictValue(s).Built?
    ensures var r := StrictValue(s);
            BuildValue(s, depth) == Outcome(depth, Height(r.value), Collapse(r.value), r.rest)
    decreases |s|, 0
  {
    hide ParseToken, StrictString, StrictScalar, DecodeLexeme;
    if Beyond(QUOTE, s).Some? {
      QuotedParsed(s);
    } else if Beyond(LBRACKET, s).Some? {
      StructuralRead(LBRACKET, s);
      ArrayParsed(Beyond(LBRACKET, s).value, depth);
    } else if Beyond(LBRACE, s).Some? {
      StructuralRead(LBRACE, s);
      ObjectParsed(Beyond(LBRACE, s).value, depth);
    } else {
      ScalarParsed(s, depth);
    }
  }

  lemma {:induction false} ArrayParsed(s: Text, depth: nat)
    requires StrictArray(s).Built?
    ensures var r := StrictArray(s);
            && r.value.Array?
            && BuildItems(s, depth, [])
               == if r.value.items == [] then Built([], r.rest)
                  else Outcome(depth, 1 + HeightOfItems(r.value.items), CollapseItems(r.value.items), r.rest)
    decreases |s|, 2
  {
    hide ParseToken, StrictItems;
    if Beyond(RBRACKET, s).Some? {
      StructuralRead(RBRACKET, s);
    } else {
      ItemsParsed(s, depth, []);
      var items := StrictItems(s).value;
      assert [] + CollapseItems(items) == CollapseItems(items);
    }
  }

  lemma {:induction false} ItemsParsed(s: Text, depth: nat, done: seq<Json<Text>>)
    requires StrictItems(s).Built?
    ensures var r := StrictItems(s);
            && r.value != []
            && BuildItems(s, depth, done)
               == Outcome(depth, 1 + HeightOfItems(r.value), done + CollapseItems(r.value), r.rest)
    decreases |s|, 1
  {
    hide ParseToken, StrictValue, BuildValue, Collapse;
    var v := StrictValue(s);
    ValueToken(s);
    ValueParsed(s, depth + 1);
    var one := [Collapse(v.value)];
    if Beyond(COMMA, v.rest).Some? {
      var u := Beyond(COMMA, v.rest).value;
      StructuralRead(COMMA, v.rest);
      ItemsStart(u);
      ItemsParsed(u, depth, done + one);
      var more := StrictItems(u).value;
      assert ([v.value] + more)[1..] == more;
      Assoc(done, one, CollapseItems(more));
    } else {
      StructuralRead(RBRACKET, v.rest);
      assert [v.value][1..] == [] && one + [] == one;
    }
  }

  lemma ItemsStart(s: Text)
    requires StrictItems(s).Built?
    ensures ParseToken(s).token != ArrayEnd
  {
    hide ParseToken, StrictValue;
    ValueToken(s);
  }

  lemma {:induction false} ObjectParsed(s: Text, depth: nat)
    requires StrictObject(s).Built?
    ensures var r := StrictObject(s);
            && r.value.Object?
            && BuildMembers(s, depth, [])
               == if r.value.members == [] then Built([], r.rest)
                  else Outcome(depth, 1 + HeightOfMembers(r.value.members),
                               CollapseMembers(r.value.members, []), r.rest)
    decreases |s|, 2
  {
    hide ParseToken, StrictMembers;
    if Beyond(RBRACE, s).Some? {
      StructuralRead(RBRACE, s);
    } else {
      MembersParsed(s, depth, []);
    }
  }

  /** A key and its colon, as tokens. */
  lemma KeyParsed(s: Text)
    requires StrictKey(s).Built?
    ensures var l, r := ParseToken(s), StrictKey(s);
            && l.token == StringLiteral && DecodeLexeme(l.lexeme) == Some(r.value)
            && ParseToken(l.rest).token == ObjectPairSeparator && ParseToken(l.rest).rest == r.rest
  {
    hide ParseToken, StrictString, DecodeLexeme, Beyond;
    QuotedParsed(s);
    StructuralRead(COLON, StrictString(Beyond(QUOTE, s).value).rest);
  }

  lemma MembersStart(s: Text)
    requires StrictMembers(s).Built?
    ensures ParseToken(s).token != ObjectEnd
  {
    hide ParseToken, StrictKey;
    KeyParsed(s);
  }

  lemma {:induction false} MembersParsed(s: Text, depth: nat, done: seq<Member<Text>>)
    requires StrictMembers(s).Built?
    ensures var r := StrictMembers(s);
            && r.value != []
            && BuildMembers(s, depth, done)
               == Outcome(depth, 1 + HeightOfMembers(r.value), CollapseMembers(r.value, done), r.rest)
    decreases |s|, 1
  {
    hide ParseToken, StrictKey, StrictValue, BuildValue, Collapse, SetMember, DecodeLexeme;
    hide HeightOfMembers, CollapseMembers;
    var k := StrictKey(s);
    KeyParsed(s);
    var v := StrictValue(k.rest);
    ValueParsed(k.rest, depth + 1);
    var members := SetMember(done, k.value, Collapse(v.value));
    if Beyond(COMMA, v.rest).Some? {
      var u := Beyond(COMMA, v.rest).value;
      StructuralRead(COMMA, v.rest);
      MembersStart(u);
      MembersParsed(u, depth, members);
      OneMember(k.value, v.value, StrictMembers(u).value, done);
    } else {
      StructuralRead(RBRACE, v.rest);
      OneMember(k.value, v.value, [], done);
      assert [Member(k.value, v.value)] + [] == [Member(k.value, v.value)];
    }
  }

  lemma OneMember(key: Text, value: Json<Text>, more: seq<Member<Text>>, done: seq<Member<Text>>)
    ensures var members := [Member(key, value)] + more;
            && HeightOfMembers(members) == Max(Height(value), HeightOfMembers(more))
            && CollapseMembers(members, done) == CollapseMembers(more, SetMember(done, key, Collapse(value)))
    ensures more == [] ==> HeightOfMembers(more) == 0
    ensures var next := SetMember(done, key, Collapse(value));
            more == [] ==> CollapseMembers(more, next) == next
  {
    assert ([Member(key, value)] + more)[1..] == more;
  }

  // ----- a value ends with a character that is not white space

  predicate Suffix(s: Text, r: Text) {
    |r| <= |s| && s[|s| - |r|..] == r
  }

  /** What is read of a text before the rest of it ends with something. */
  predicate Ends(s: Text, rest: Text) {
    Suffix(s, rest) && |rest| < |s| && !IsWhitespace(s[|s| - |rest| - 1])
  }

  lemma SuffixEnds(s: Text, r: Text, rest: Text)
    requires Suffix(s, r) && Ends(r, rest)
    ensures Ends(s, rest)
  {
    assert s[|s| - |r|..][|r| - |rest|..] == s[|s| - |rest|..];
  }

  lemma DropIsSuffix(s: Text, k: nat)
    requires k <= |s|
    ensures Suffix(s, s[k..])
  {
  }

  lemma {:induction false} SkipIsSuffix(s: Text)
    ensures Suffix(s, SkipWhite(s))
  {
    if s != [] && IsWhitespace(s[0]) {
      SkipIsSuffix(s[1..]);
      var t := SkipWhite(s[1..]);
      assert s[1..][|s| - 1 - |t|..] == s[|s| - |t|..];
    }
  }

  lemma BeyondIsEnd(c: UChar, s: Text)
    requires Beyond(c, s).Some? && !IsWhitespace(c)
    ensures Ends(s, Beyond(c, s).value)
  {
    var t := SkipWhite(s);
    SkipIsSuffix(s);
    assert Ends(t, t[1..]);
    SuffixEnds(s, t, t[1..]);
  }

  lemma {:induction false} StringEnds(s: Text)
    requires StrictString(s).Built?
    ensures Ends(s, StrictString(s).rest)
    decreases |s|
  {
    if s[0] != QUOTE {
      var k := if s[0] != BACKSLASH then 1 else if ShortMeaning(s[1]).Some? then 2 else 6;
      StringEnds(s[k..]);
      DropIsSuffix(s, k);
      SuffixEnds(s, s[k..], StrictString(s).rest);
    }
  }

  lemma NumberEnds(t: Text)
    requires ScanNumber(t).Some?
    ensures Ends(t, ScanNumber(t).value)
  {
    hide ScanNumber;
    var n := ScannedIsJsonNumber(t);
    LastIsDigit(n);
    var r, rest := Render(n), ScanNumber(t).value;
    assert t[|t| - |rest| - 1] == r[|r| - 1] && t[|t| - |rest|..] == rest;
  }

  lemma LastIsDigit(n: Numeral)
    requires JsonNumber(n)
    ensures Render(n) != [] && IsDigit(Render(n)[|Render(n)| - 1])
  {
    var r := Render(n);
    if n.exp.Some? {
      var d := n.exp.value.digits;
      assert r[|r| - 1] == d[|d| - 1];
    } else if n.frac.Some? {
      var d := n.frac.value;
      assert r[|r| - 1] == d[|d| - 1];
    } else {
      assert r[|r| - 1] == n.whole[|n.whole| - 1];
    }
  }

  lemma ScalarEnds(t: Text)
    requires StrictScalar(t).Built?
    ensures Ends(t, StrictScalar(t).rest)
  {
    if !(NULL_TEXT <= t || TRUE_TEXT <= t || FALSE_TEXT <= t) {
      NumberEnds(t);
    }
  }

  lemma {:induction false} ValueEnds(s: Text)
    requires StrictValue(s).Built?
    ensures Ends(s, StrictValue(s).rest)
    decreases |s|, 0
  {
    hide StrictString, StrictScalar, Ends;
    var rest := StrictValue(s).rest;
    if Beyond(QUOTE, s).Some? {
      StringEnds(Beyond(QUOTE, s).value);
      EndsBeyond(QUOTE, s, rest);
    } else if Beyond(LBRACKET, s).Some? {
      var u := Beyond(LBRACKET, s).value;
      if Beyond(RBRACKET, u).Some? {
        BeyondIsEnd(RBRACKET, u);
      } else {
        ItemsEnd(u);
      }
      EndsBeyond(LBRACKET, s, rest);
    } else if Beyond(LBRACE, s).Some? {
      var u := Beyond(LBRACE, s).value;
      if Beyond(RBRACE, u).Some? {
        BeyondIsEnd(RBRACE, u);
      } else {
        MembersEnd(u);
      }
      EndsBeyond(LBRACE, s, rest);
    } else {
      ScalarEnds(SkipWhite(s));
      SkipIsSuffix(s);
      SuffixEnds(s, SkipWhite(s), rest);
    }
  }

  lemma EndsBeyond(c: UChar, s: Text, rest: Text)
    requires Beyond(c, s).Some? && !IsWhitespace(c) && Ends(Beyond(c, s).value, rest)
    ensures Ends(s, rest)
  {
    BeyondIsEnd(c, s);
    SuffixEnds(s, Beyond(c, s).value, rest);
  }

  lemma EndsThrough(s: Text, r: Text, rest: Text)
    requires Ends(s, r) && Ends(r, rest)
    ensures Ends(s, rest)
  {
    SuffixEnds(s, r, rest);
  }

  lemma {:induction false} ItemsEnd(s: Text)
    requires StrictItems(s).Built?
    ensures Ends(s, StrictItems(s).rest)
    decreases |s|, 1
  {
    hide StrictValue, Ends;
    var v := StrictValue(s);
    ValueEnds(s);
    if Beyond(COMMA, v.rest).Some? {
      ItemsEnd(Beyond(COMMA, v.rest).value);
      EndsBeyond(COMMA, v.rest, StrictItems(s).rest);
    } else {
      BeyondIsEnd(RBRACKET, v.rest);
    }
    EndsThrough(s, v.rest, StrictItems(s).rest);
  }

  lemma KeyEnds(s: Text)
    requires StrictKey(s).Built?
    ensures Ends(s, StrictKey(s).rest)
  {
    hide StrictString, Ends;
    var q := Beyond(QUOTE, s).value;
    StringEnds(q);
    EndsBeyond(QUOTE, s, StrictString(q).rest);
    BeyondIsEnd(COLON, StrictString(q).rest);
    EndsThrough(s, StrictString(q).rest, StrictKey(s).rest);
  }

  lemma {:induction false} MembersEnd(s: Text)
    requires StrictMembers(s).Built?
    ensures Ends(s, StrictMembers(s).rest)
    decreases |s|, 1
  {
    hide StrictValue, StrictKey, Ends;
    var k := StrictKey(s);
    var v := StrictValue(k.rest);
    KeyEnds(s);
    ValueEnds(k.rest);
    EndsThrough(s, k.rest, v.rest);
    if Beyond(COMMA, v.rest).Some? {
      MembersEnd(Beyond(COMMA, v.rest).value);
      EndsBeyond(COMMA, v.rest, StrictMembers(s).rest);
    } else {
      BeyondIsEnd(RBRACE, v.rest);
    }
    EndsThrough(s, v.rest, StrictMembers(s).rest);
  }

  lemma {:induction false} OnlyWhite(s: Text)
    requires SkipWhite(s) == [] && s != []
    ensures IsWhitespace(s[|s| - 1])
  {
    if |s| > 1 {
      OnlyWhite(s[1..]);
    }
  }

  // ----- whole texts

  /**
    Of a JSON text, parseJSON returns the tree, members of one name merged, exactly when nothing but the value ends
    the text and the value is at most a thousand deep; otherwise it returns nothing.
  */
  lemma ParserReadsJson(s: Text)
    requires Strict(s).Some?
    ensures s != []
    ensures ParseJSON(s) == if !IsWhitespace(s[|s| - 1]) && Height(Strict(s).value) <= STACK_LIMIT
                            then Some(Collapse(Strict(s).value)) else None
  {
    hide StrictValue, BuildValue;
    var rest := StrictValue(s).rest;
    ValueParsed(s, 0);
    ValueEnds(s);
    if rest != [] {
      OnlyWhite(rest);
      assert s[|s| - |rest|..][|rest| - 1] == s[|s| - 1];
    }
  }

  // ----- trees that were written

  predicate KeysApart(done: seq<Member<Text>>, members: seq<Member<Text>>) {
    forall i, j :: 0 <= i < |done| && 0 <= j < |members| ==> done[i].key != members[j].key
  }

  lemma {:induction false} SetNewMember(done: seq<Member<Text>>, key: Text, value: Json<Text>)
    requires forall i :: 0 <= i < |done| ==> done[i].key != key
    ensures SetMember(done, key, value) == done + [Member(key, value)]
  {
    if done != [] {
      SetNewMember(done[1..], key, value);
      assert done == [done[0]] + done[1..];
    }
  }

  lemma StillApart(done: seq<Member<Text>>, members: seq<Member<Text>>)
    requires members != [] && DistinctInMembers(members) && KeysApart(done, members)
    ensures KeysApart(done + [members[0]], members[1..])
  {
    var tail, all := members[1..], done + [members[0]];
    forall i, j | 0 <= i < |all| && 0 <= j < |tail|
      ensures all[i].key != tail[j].key
    {
      assert tail[j] == members[j + 1];
      assert HasKey(tail, tail[j].key);
    }
  }

  /** With distinct keys there is nothing to merge. */
  lemma {:induction false} CollapseDistinct(t: Json<Text>)
    requires DistinctKeys(t)
    ensures Collapse(t) == t
    decreases t, 0
  {
    match t
    case Array(items) => CollapseDistinctItems(items);
    case Object(members) => CollapseDistinctMembers(members, []); assert [] + members == members;
    case _ =>
  }

  lemma {:induction false} CollapseDistinctItems(items: seq<Json<Text>>)
    requires DistinctInItems(items)
    ensures CollapseItems(items) == items
    decreases items, 1
  {
    if items != [] {
      CollapseDistinct(items[0]);
      CollapseDistinctItems(items[1..]);
      assert items == [items[0]] + items[1..];
    }
  }

  lemma {:induction false} CollapseDistinctMembers(members: seq<Member<Text>>, done: seq<Member<Text>>)
    requires DistinctInMembers(members) && KeysApart(done, members)
    ensures CollapseMembers(members, done) == done + members
    decreases members, 1
  {
    if members == [] {
      assert done + [] == done;
    } else {
      CollapseDistinct(members[0].value);
      SetNewMember(done, members[0].key, members[0].value);
      StillApart(done, members);
      CollapseDistinctMembers(members[1..], done + [members[0]]);
      Assoc(done, [members[0]], members[1..]);
      assert members == [members[0]] + members[1..];
    }
  }

  /** Taking lexemes for numbers changes neither keys nor depth. */
  lemma {:induction false} LexemesKeep(t: Json<Decimal>)
    ensures Height(Lexemes(t)) == Height(t) && (DistinctKeys(t) ==> DistinctKeys(Lexemes(t)))
    decreases t, 0
  {
    match t
    case Array(items) => LexemesKeepItems(items);
    case Object(members) => LexemesKeepMembers(members);
    case _ =>
  }

  lemma {:induction false} LexemesKeepItems(items: seq<Json<Decimal>>)
    ensures |LexemesOfItems(items)| == |items| && HeightOfItems(LexemesOfItems(items)) == HeightOfItems(items)
    ensures DistinctInItems(items) ==> DistinctInItems(LexemesOfItems(items))
    decreases items, 1
  {
    if items != [] {
      LexemesKeep(items[0]);
      LexemesKeepItems(items[1..]);
      assert LexemesOfItems(items)[1..] == LexemesOfItems(items[1..]);
    }
  }

  lemma {:induction false} LexemesKeepMembers(members: seq<Member<Decimal>>)
    ensures |LexemesOfMembers(members)| == |members|
    ensures forall i :: 0 <= i < |members| ==> LexemesOfMembers(members)[i].key == members[i].key
    ensures HeightOfMembers(LexemesOfMembers(members)) == HeightOfMembers(members)
    ensures DistinctInMembers(members) ==> DistinctInMembers(LexemesOfMembers(members))
    decreases members, 1
  {
    if members != [] {
      LexemesKeep(members[0].value);
      LexemesKeepMembers(members[1..]);
      var tail := LexemesOfMembers(members[1..]);
      assert LexemesOfMembers(members)[1..] == tail;
      assert HasKey(tail, members[0].key) ==> HasKey(members[1..], members[0].key);
    }
  }

  lemma WrittenParsed(t: Json<Decimal>, pretty: bool, indent: nat, rest: Text)
    requires DistinctKeys(t) && Delimited(rest)
    ensures BuildValue(Write(t, pretty, indent) + rest, 0) == Outcome(0, Height(t), Lexemes(t), rest)
  {
    hide Write, StrictValue, BuildValue, Lexemes;
    var s := Write(t, pretty, indent) + rest;
    assert [] + s == s;
    ValueRead([], t, pretty, indent, rest);
    ValueParsed(s, 0);
    LexemesKeep(t);
    CollapseDistinct(Lexemes(t));
  }

  /** The compact text of a tree parses back to the tree exactly when it is nested at most a thousand deep. */
  lemma CompactRoundTrip(t: Json<Decimal>)
    requires DistinctKeys(t)
    ensures ParseJSON(ToJSONString(t)) == if Height(t) <= STACK_LIMIT then Some(Lexemes(t)) else None
  {
    WrittenParsed(t, false, 0, []);
    assert Write(t, false, 0) + [] == Write(t, false, 0);
  }

  /** The pretty text without its final newline parses back in the same way. */
  lemma PrettyRoundTrip(t: Json<Decimal>, indent: nat)
    requires DistinctKeys(t)
    ensures ParseJSON(Write(t, true, indent)) == if Height(t) <= STACK_LIMIT then Some(Lexemes(t)) else None
  {
    WrittenParsed(t, true, indent, []);
    assert Write(t, true, indent) + [] == Write(t, true, indent);
  }

  /** With the newline that toPrettyJSONString appends it never parses, because nothing may follow the value. */
  lemma PrettyStringIsRejected(t: Json<Decimal>)
    ensures ParseJSON(ToPrettyJSONString(t)) == None
  {
    hide Write, ParseJSON, Strict;
    PrettyIsJson(t);
    ParserReadsJson(ToPrettyJSONString(t));
  }
}

/** What every text that the parser accepts, and every tree that it returns, has in common. */
module JsonParsed {
  import opened Text
  import opened JsonTree
  import opened JsonParser

  // ----- strings

  /** The characters before the closing quote. */
  function Body(s: Text, rest: Text): (r: Text)
    requires |rest| < |s|
  {
    s[..|s| - |rest| - 1]
  }

  lemma BodyDrop(s: Text, rest: Text, k: nat)
    requires k <= |s| && |rest| < |s[k..]|
    ensures |Body(s, rest)| >= k && Body(s, rest)[k..] == Body(s[k..], rest)
    ensures forall i :: 0 <= i < k ==> Body(s, rest)[i] == s[i]
  {
  }

  /** Hexadecimal digits leave what follows them. */
  lemma HexTail(s: Text, n: nat)
    requires |s| >= 2 && ReadHexDigits(s[2..], n).Some?
    ensures n + 2 <= |s| && ReadHexDigits(s[2..], n).value == s[n + 2..]
    ensures forall i :: 2 <= i < n + 2 ==> IsHex(s[i])
  {
    assert forall i :: 2 <= i < n + 2 ==> s[i] == s[2..][i - 2];
  }

  lemma HexBody(s: Text, rest: Text, n: nat)
    requires |s| >= n + 2 && |rest| < |s[n + 2..]| && forall i :: 2 <= i < n + 2 ==> IsHex(s[i])
    ensures |Body(s, rest)| >= n + 2 && ReadHexDigits(Body(s, rest)[2..], n).Some?
    ensures Body(s, rest)[n + 2..] == Body(s[n + 2..], rest)
  {
    BodyDrop(s, rest, n + 2);
    assert forall i :: 0 <= i < n ==> Body(s, rest)[2..][i] == s[i + 2];
  }

  /** Whatever parseStringToken accepts, decodeString decodes. */
  lemma {:induction false} ScannedDecodes(s: Text, rest: Text)
    requires ScanString(s) == Some(rest)
    ensures Decode(Body(s, rest)).Some?
    decreases |s|
  {
    hide ReadHexDigits;
    if s[0] == QUOTE {
    } else if s[0] != BACKSLASH {
      BodyDrop(s, rest, 1);
      ScannedDecodes(s[1..], rest);
    } else if s[1] == LOWER_X {
      HexTail(s, 2);
      ScannedDecodes(s[4..], rest);
      HexBody(s, rest, 2);
      BodyDrop(s, rest, 2);
    } else if s[1] == LOWER_U {
      HexTail(s, 4);
      ScannedDecodes(s[6..], rest);
      HexBody(s, rest, 4);
      BodyDrop(s, rest, 2);
    } else {
      BodyDrop(s, rest, 2);
      ScannedDecodes(s[2..], rest);
    }
  }

  /** So the decoding failure of buildValue cannot happen. */
  lemma StringTokensDecode(s: Text)
    requires ParseToken(s).token == StringLiteral
    ensures DecodeLexeme(ParseToken(s).lexeme).Some?
  {
    var t := SkipSpaces(s);
    var rest := ParseToken(s).rest;
    ScannedDecodes(t[1..], rest);
    assert Consumed(t, rest)[1..|t| - |rest| - 1] == Body(t[1..], rest);
  }

  /** The last letter of a constant is not compared. */
  lemma LastLetterIsFree(c: UChar)
    ensures ParseJSON([0x6E, 0x75, 0x6C, c]) == Some(Null)
    ensures ParseJSON([0x74, 0x72, 0x75, c]) == Some(Boolean(true))
    ensures ParseJSON([0x66, 0x61, 0x6C, 0x73, c]) == Some(Boolean(false))
  {
    OneToken([0x6E, 0x75, 0x6C, c], NULL_TEXT);
    OneToken([0x74, 0x72, 0x75, c], TRUE_TEXT);
    OneToken([0x66, 0x61, 0x6C, 0x73, c], FALSE_TEXT);
  }

  lemma OneToken(s: Text, token: Text)
    requires |s| == |token| > 0 && s[..|s| - 1] == token[..|s| - 1]
    ensures ParseConst(s, token) == Some([])
  {
  }

  // ----- trees

  /** Distinct keys throughout, and nothing below the depth limit. */
  predicate Sound(t: Json<Text>, depth: nat) {
    DistinctKeys(t) && depth + Height(t) <= STACK_LIMIT
  }

  predicate SoundItems(items: seq<Json<Text>>, depth: nat) {
    DistinctInItems(items) && (items == [] || depth + HeightOfItems(items) <= STACK_LIMIT)
  }

  predicate SoundMembers(members: seq<Member<Text>>, depth: nat) {
    DistinctInMembers(members) && (members == [] || depth + HeightOfMembers(members) <= STACK_LIMIT)
  }

  lemma {:induction false} PushItem(items: seq<Json<Text>>, t: Json<Text>, depth: nat)
    requires SoundItems(items, depth) && Sound(t, depth)
    ensures SoundItems(items + [t], depth)
  {
    if items == [] {
      assert ([] + [t])[1..] == [];
    } else {
      PushItem(items[1..], t, depth);
      assert (items + [t])[0] == items[0] && (items + [t])[1..] == items[1..] + [t];
    }
  }

  lemma {:induction false} SetKeys(members: seq<Member<Text>>, key: Text, value: Json<Text>, other: Text)
    ensures HasKey(SetMember(members, key, value), other) <==> other == key || HasKey(members, other)
  {
    if members == [] {
      assert SetMember(members, key, value)[0].key == key;
    } else {
      KeySplit(members, other);
      KeySplit(SetMember(members, key, value), other);
      if members[0].key != key {
        SetKeys(members[1..], key, value, other);
        assert SetMember(members, key, value)[1..] == SetMember(members[1..], key, value);
      } else {
        assert SetMember(members, key, value)[1..] == members[1..];
      }
    }
  }

  lemma KeySplit(members: seq<Member<Text>>, key: Text)
    requires members != []
    ensures HasKey(members, key) <==> members[0].key == key || HasKey(members[1..], key)
  {
    if HasKey(members, key) && members[0].key != key {
      var i :| 0 <= i < |members| && members[i].key == key;
      assert members[1..][i - 1].key == key;
    } else if HasKey(members[1..], key) {
      var i :| 0 <= i < |members[1..]| && members[1..][i].key == key;
      assert members[i + 1].key == key;
    }
  }

  lemma {:induction false} SetSound(members: seq<Member<Text>>, key: Text, value: Json<Text>, depth: nat)
    requires SoundMembers(members, depth) && Sound(value, depth)
    ensures SoundMembers(SetMember(members, key, value), depth)
  {
    var r := SetMember(members, key, value);
    if members == [] {
      assert r[1..] == [];
    } else if members[0].key == key {
      assert r[1..] == members[1..];
    } else {
      SetSound(members[1..], key, value, depth);
      SetKeys(members[1..], key, value, members[0].key);
      assert r[1..] == SetMember(members[1..], key, value);
    }
  }

  lemma {:induction false} BuiltValueIsSound(s: Text, depth: nat)
    ensures BuildValue(s, depth).Built? ==> Sound(BuildValue(s, depth).value, depth)
    decreases |s|, 0
  {
    if depth <= STACK_LIMIT {
      var l := ParseToken(s);
      if l.token == ArrayBegin {
        BuiltItemsAreSound(l.rest, depth, []);
      } else if l.token == ObjectBegin {
        BuiltMembersAreSound(l.rest, depth, []);
      }
    }
  }

  lemma {:induction false} BuiltItemsAreSound(s: Text, depth: nat, done: seq<Json<Text>>)
    requires SoundItems(done, depth + 1)
    ensures BuildItems(s, depth, done).Built? ==> SoundItems(BuildItems(s, depth, done).value, depth + 1)
    decreases |s|, 1
  {
    hide ParseToken;
    if ParseToken(s).token != ArrayEnd && BuildValue(s, depth + 1).Built? {
      var first := BuildValue(s, depth + 1);
      BuiltValueIsSound(s, depth + 1);
      PushItem(done, first.value, depth + 1);
      var next := ParseToken(first.rest);
      if next.token == ListSeparator {
        BuiltItemsAreSound(next.rest, depth, done + [first.value]);
      }
    }
  }

  lemma {:induction false} BuiltMembersAreSound(s: Text, depth: nat, done: seq<Member<Text>>)
    requires SoundMembers(done, depth + 1)
    ensures BuildMembers(s, depth, done).Built? ==> SoundMembers(BuildMembers(s, depth, done).value, depth + 1)
    decreases |s|, 1
  {
    hide ParseToken, SetMember;
    var l := ParseToken(s);
    if l.token == StringLiteral && DecodeLexeme(l.lexeme).Some? {
      var colon := ParseToken(l.rest);
      if colon.token == ObjectPairSeparator && BuildValue(colon.rest, depth + 1).Built? {
        var first := BuildValue(colon.rest, depth + 1);
        var members := SetMember(done, DecodeLexeme(l.lexeme).value, first.value);
        BuiltValueIsSound(colon.rest, depth + 1);
        SetSound(done, DecodeLexeme(l.lexeme).value, first.value, depth + 1);
        var next := ParseToken(first.rest);
        if next.token == ListSeparator {
          BuiltMembersAreSound(next.rest, depth, members);
        }
      }
    }
  }

  /** Every tree the parser returns has distinct keys and is at most a thousand deep. */
  lemma ParsedTreesAreSound(json: Text)
    ensures ParseJSON(json).Some? ==>
              DistinctKeys(ParseJSON(json).value) && Height(ParseJSON(json).value) <= STACK_LIMIT
  {
    BuiltValueIsSound(json, 0);
  }
}

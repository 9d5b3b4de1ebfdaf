/** Reading the number lexemes of a parsed tree as decimals: when the tree that was written comes back. */
module JsonNumbers {
  import opened Text
  import opened DecimalNumber
  import opened DecimalParser
  import opened DecimalRoundTrip
  import opened JsonTree
  import opened JsonWriter
  import opened JsonParser
  import opened JsonGrammar
  import opened JsonWritten
  import opened JsonRoundTrip

  /** The tree with every lexeme read by Decimal::fromString. */
  function Reread(t: Json<Text>): (r: Json<Decimal>)
    decreases t, 0
  {
    match t
    case Null => Null
    case Boolean(b) => Boolean(b)
    case Number(lexeme) => Number(Parse(lexeme))
    case String(s) => String(s)
    case Array(items) => Array(RereadItems(items))
    case Object(members) => Object(RereadMembers(members))
  }

  function RereadItems(items: seq<Json<Text>>): (r: seq<Json<Decimal>>)
    decreases items, 1
  {
    if items == [] then [] else [Reread(items[0])] + RereadItems(items[1..])
  }

  function RereadMembers(members: seq<Member<Text>>): (r: seq<Member<Decimal>>)
    decreases members, 1
  {
    if members == [] then [] else [Member(members[0].key, Reread(members[0].value))] + RereadMembers(members[1..])
  }

  /** The same tree, with numbers of the same sign and value. */
  ghost predicate Alike(a: Json<Decimal>, b: Json<Decimal>)
    decreases b, 0
  {
    match b
    case Number(y) => a.Number? && SameNumber(a.n, y)
    case Array(items) => a.Array? && AlikeItems(a.items, items)
    case Object(members) => a.Object? && AlikeMembers(a.members, members)
    case _ => a == b
  }

  ghost predicate SameNumber(x: Decimal, y: Decimal) {
    x.IsFinite() && y.IsFinite() && x.sign == y.sign && Value(x) == Value(y)
  }

  ghost predicate AlikeItems(a: seq<Json<Decimal>>, b: seq<Json<Decimal>>)
    decreases b, 1
  {
    if b == [] then a == [] else a != [] && Alike(a[0], b[0]) && AlikeItems(a[1..], b[1..])
  }

  ghost predicate AlikeMembers(a: seq<Member<Decimal>>, b: seq<Member<Decimal>>)
    decreases b, 1
  {
    if b == [] then a == []
    else a != [] && a[0].key == b[0].key && Alike(a[0].value, b[0].value) && AlikeMembers(a[1..], b[1..])
  }

  /** Every number of the tree is finite and survives printing. */
  predicate AllSurvive(t: Json<Decimal>)
    decreases t, 0
  {
    match t
    case Number(d) => d.IsFinite() && Survives(d.coefficient, d.exponent)
    case Array(items) => AllSurviveInItems(items)
    case Object(members) => AllSurviveInMembers(members)
    case _ => true
  }

  predicate AllSurviveInItems(items: seq<Json<Decimal>>)
    decreases items, 1
  {
    items == [] || (AllSurvive(items[0]) && AllSurviveInItems(items[1..]))
  }

  predicate AllSurviveInMembers(members: seq<Member<Decimal>>)
    decreases members, 1
  {
    members == [] || (AllSurvive(members[0].value) && AllSurviveInMembers(members[1..]))
  }

  lemma {:induction false} RereadLexemes(t: Json<Decimal>)
    ensures Alike(Reread(Lexemes(t)), t) <==> AllSurvive(t)
    decreases t, 0
  {
    match t
    case Null =>
    case Boolean(_) =>
    case String(_) =>
    case Number(d) =>
      if d.IsFinite() {
        RoundTrip(d);
      }
    case Array(items) => RereadLexemesOfItems(items);
    case Object(members) => RereadLexemesOfMembers(members);
  }

  lemma {:induction false} RereadLexemesOfItems(items: seq<Json<Decimal>>)
    ensures AlikeItems(RereadItems(LexemesOfItems(items)), items) <==> AllSurviveInItems(items)
    decreases items, 1
  {
    if items != [] {
      RereadLexemes(items[0]);
      RereadLexemesOfItems(items[1..]);
      var tail := LexemesOfItems(items[1..]);
      assert ([Lexemes(items[0])] + tail)[1..] == tail;
      assert ([Reread(Lexemes(items[0]))] + RereadItems(tail))[1..] == RereadItems(tail);
    }
  }

  lemma {:induction false} RereadLexemesOfMembers(members: seq<Member<Decimal>>)
    ensures AlikeMembers(RereadMembers(LexemesOfMembers(members)), members) <==> AllSurviveInMembers(members)
    decreases members, 1
  {
    if members != [] {
      var first := Member(members[0].key, Lexemes(members[0].value));
      RereadLexemes(members[0].value);
      RereadLexemesOfMembers(members[1..]);
      var tail := LexemesOfMembers(members[1..]);
      assert ([first] + tail)[1..] == tail;
      assert ([Member(first.key, Reread(first.value))] + RereadMembers(tail))[1..] == RereadMembers(tail);
    }
  }

  /**
    Whatever reads JSON texts and takes their numbers for decimals reads from either output the tree that was
    written, exactly when every number in it survives.
  */
  lemma TextRoundTrip(t: Json<Decimal>)
    ensures var r := Strict(ToJSONString(t));
            r.Some? && Strict(ToPrettyJSONString(t)) == r && (Alike(Reread(r.value), t) <==> AllSurvive(t))
  {
    hide Parse, Strict;
    CompactIsJson(t);
    PrettyIsJson(t);
    RereadLexemes(t);
  }

  /**
    Writing a tree, parsing the text and reading its numbers gives the tree back, key order included,
    exactly when it is at most a thousand deep and every number in it survives.
  */
  lemma TreeRoundTrip(t: Json<Decimal>)
    requires DistinctKeys(t)
    ensures var r := ParseJSON(ToJSONString(t));
            r.Some? && Alike(Reread(r.value), t) <==> Height(t) <= STACK_LIMIT && AllSurvive(t)
  {
    hide Parse, ParseJSON;
    CompactRoundTrip(t);
    RereadLexemes(t);
  }
}

/** Which characters a written text can hold. */
module JsonCharacters {
  import opened Text
  import opened DecimalNumber
  import opened Numerals
  import opened JsonTree
  import opened JsonWriter
  import opened JsonTokens

  /** Printable ASCII without angle brackets, so that the text can stand inside a script element. */
  predicate Safe(c: UChar) {
    32 <= c <= 126 && c != LESS && c != GREATER
  }

  /** In pretty text, also line ends. */
  predicate AllSafe(s: Text, pretty: bool) {
    forall i :: 0 <= i < |s| ==> Safe(s[i]) || (pretty && s[i] == NEWLINE)
  }

  lemma SafeConcat(a: Text, b: Text, pretty: bool)
    requires AllSafe(a, pretty) && AllSafe(b, pretty)
    ensures AllSafe(a + b, pretty)
  {
  }

  lemma {:induction false} EscapeIsSafe(s: Text, pretty: bool)
    ensures AllSafe(Escape(s), pretty)
  {
    if s != [] {
      EscapeIsSafe(s[1..], pretty);
      assert AllSafe(EscapeChar(s[0]), pretty);
      SafeConcat(EscapeChar(s[0]), Escape(s[1..]), pretty);
    }
  }

  lemma QuoteIsSafe(s: Text, pretty: bool)
    ensures AllSafe(Quote(s), pretty)
  {
    EscapeIsSafe(s, pretty);
  }

  lemma NumberIsSafe(d: Decimal, pretty: bool)
    ensures AllSafe(NumberText(d), pretty)
  {
    if d.IsFinite() {
      var n := PrintIsJsonNumber(d);
      NumeralIsSafe(n, pretty);
    }
  }

  lemma NumeralIsSafe(n: Numeral, pretty: bool)
    requires JsonNumber(n)
    ensures AllSafe(Render(n), pretty)
  {
    assert AllSafe(MarkText(n.mark), pretty) && AllSafe(n.whole, pretty);
    assert AllSafe(FractionText(n.frac), pretty);
    assert AllSafe(ExponentText(n.exp), pretty);
  }

  lemma {:induction false} IndentIsSafe(depth: nat, pretty: bool)
    ensures AllSafe(Indent(depth), pretty)
  {
    if depth > 0 {
      IndentIsSafe(depth - 1, pretty);
    }
  }

  lemma BreakIsSafe(pretty: bool, depth: nat)
    ensures AllSafe(Break(pretty, depth), pretty)
  {
    IndentIsSafe(depth, pretty);
  }

  lemma GapIsSafe(previous: Previous, breaks: bool, pretty: bool, depth: nat)
    ensures AllSafe(Gap(previous, breaks, pretty, depth), pretty) && AllSafe(Closing(previous, pretty, depth), pretty)
  {
    BreakIsSafe(pretty, depth);
    BreakIsSafe(pretty, depth + 1);
  }

  /** Whatever strings a value holds, its text is printable ASCII without angle brackets. */
  lemma {:induction false} WrittenIsSafe(t: Json<Decimal>, pretty: bool, depth: nat)
    ensures AllSafe(Write(t, pretty, depth), pretty)
    decreases t, 0
  {
    match t
    case Null =>
    case Boolean(_) =>
    case Number(d) => NumberIsSafe(d, pretty);
    case String(s) => QuoteIsSafe(s, pretty);
    case Array(items) => ItemsAreSafe(items, First, pretty, depth);
    case Object(members) => MembersAreSafe(members, true, pretty, depth);
  }

  lemma {:induction false} ItemsAreSafe(items: seq<Json<Decimal>>, previous: Previous, pretty: bool, depth: nat)
    ensures AllSafe(WriteItems(items, previous, pretty, depth), pretty)
    decreases items, 1
  {
    if items == [] {
      GapIsSafe(previous, false, pretty, depth);
    } else {
      GapIsSafe(previous, Breaks(items[0]), pretty, depth);
      WrittenIsSafe(items[0], pretty, depth + 1);
      ItemsAreSafe(items[1..], After(items[0]), pretty, depth);
    }
  }

  lemma {:induction false} MembersAreSafe(members: seq<Member<Decimal>>, first: bool, pretty: bool, depth: nat)
    ensures AllSafe(WriteMembers(members, first, pretty, depth), pretty)
    decreases members, 1
  {
    if members == [] {
      BreakIsSafe(pretty, depth);
    } else {
      BreakIsSafe(pretty, depth + 1);
      QuoteIsSafe(members[0].key, pretty);
      WrittenIsSafe(members[0].value, pretty, depth + 1);
      MembersAreSafe(members[1..], false, pretty, depth);
      var tail := Write(members[0].value, pretty, depth + 1) + WriteMembers(members[1..], false, pretty, depth);
      SafeConcat(Colon(pretty), tail, pretty);
      SafeConcat(Quote(members[0].key), Colon(pretty) + tail, pretty);
      SafeConcat(Break(pretty, depth + 1), Quote(members[0].key) + (Colon(pretty) + tail), pretty);
    }
  }
}

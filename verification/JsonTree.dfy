/** JSON values as trees. N is what a number leaf carries: a decimal when written, a lexeme when parsed. */
module JsonTree {
  import opened Text
  import opened DecimalNumber
  import opened DecimalPrinter

  datatype Json<N> =
    | Null
    | Boolean(b: bool)
    | Number(n: N)
    | String(s: Text)
    | Array(items: seq<Json<N>>)
    | Object(members: seq<Member<N>>)

  datatype Member<N> = Member(key: Text, value: Json<N>)

  const QUOTE: UChar := 0x22
  const COMMA: UChar := 0x2C
  const SLASH: UChar := 0x2F
  const COLON: UChar := 0x3A
  const LESS: UChar := 0x3C
  const GREATER: UChar := 0x3E
  const LBRACKET: UChar := 0x5B
  const BACKSLASH: UChar := 0x5C
  const RBRACKET: UChar := 0x5D
  const LBRACE: UChar := 0x7B
  const RBRACE: UChar := 0x7D
  const SPACE: UChar := 0x20
  const BACKSPACE: UChar := 0x08
  const TAB: UChar := 0x09
  const NEWLINE: UChar := 0x0A
  const VERTICAL_TAB: UChar := 0x0B
  const FORM_FEED: UChar := 0x0C
  const RETURN: UChar := 0x0D
  const LOWER_A: UChar := 0x61
  const LOWER_B: UChar := 0x62
  const LOWER_F: UChar := 0x66
  const LOWER_L: UChar := 0x6C
  const LOWER_N: UChar := 0x6E
  const LOWER_R: UChar := 0x72
  const LOWER_S: UChar := 0x73
  const LOWER_T: UChar := 0x74
  const LOWER_U: UChar := 0x75
  const LOWER_V: UChar := 0x76
  const LOWER_X: UChar := 0x78

  const NULL_TEXT: Text := [0x6E, 0x75, 0x6C, 0x6C]
  const TRUE_TEXT: Text := [0x74, 0x72, 0x75, 0x65]
  const FALSE_TEXT: Text := [0x66, 0x61, 0x6C, 0x73, 0x65]

  /** How many arrays and objects are open around the deepest value. */
  function Height<N>(t: Json<N>): (h: nat)
    decreases t, 0
  {
    match t
    case Array(items) => if items == [] then 0 else 1 + HeightOfItems(items)
    case Object(members) => if members == [] then 0 else 1 + HeightOfMembers(members)
    case _ => 0
  }

  function Max(a: nat, b: nat): (m: nat) { if a >= b then a else b }

  function HeightOfItems<N>(items: seq<Json<N>>): (h: nat)
    decreases items, 1
  {
    if items == [] then 0 else Max(Height(items[0]), HeightOfItems(items[1..]))
  }

  function HeightOfMembers<N>(members: seq<Member<N>>): (h: nat)
    decreases members, 1
  {
    if members == [] then 0 else Max(Height(members[0].value), HeightOfMembers(members[1..]))
  }

  predicate HasKey<N>(members: seq<Member<N>>, key: Text) {
    exists i :: 0 <= i < |members| && members[i].key == key
  }

  /** Every object in the tree has distinct keys, as a map with an order vector does. */
  predicate DistinctKeys<N>(t: Json<N>)
    decreases t, 0
  {
    match t
    case Array(items) => DistinctInItems(items)
    case Object(members) => DistinctInMembers(members)
    case _ => true
  }

  predicate DistinctInItems<N>(items: seq<Json<N>>)
    decreases items, 1
  {
    items == [] || (DistinctKeys(items[0]) && DistinctInItems(items[1..]))
  }

  predicate DistinctInMembers<N>(members: seq<Member<N>>)
    decreases members, 1
  {
    members == [] ||
    (&& DistinctKeys(members[0].value)
     && !HasKey(members[1..], members[0].key)
     && DistinctInMembers(members[1..]))
  }

  /** What is printed for a number; anything not finite becomes null. */
  function NumberText(d: Decimal): (s: Text) {
    if d.IsFinite() then Print(d) else NULL_TEXT
  }

  /** The tree as a parser sees it: numbers by their lexemes, numbers that are not finite as null. */
  function Lexemes(t: Json<Decimal>): (r: Json<Text>)
    decreases t, 0
  {
    match t
    case Null => Null
    case Boolean(b) => Boolean(b)
    case Number(d) => if d.IsFinite() then Number(Print(d)) else Null
    case String(s) => String(s)
    case Array(items) => Array(LexemesOfItems(items))
    case Object(members) => Object(LexemesOfMembers(members))
  }

  function LexemesOfItems(items: seq<Json<Decimal>>): (r: seq<Json<Text>>)
    decreases items, 1
  {
    if items == [] then [] else [Lexemes(items[0])] + LexemesOfItems(items[1..])
  }

  function LexemesOfMembers(members: seq<Member<Decimal>>): (r: seq<Member<Text>>)
    decreases members, 1
  {
    if members == [] then [] else [Member(members[0].key, Lexemes(members[0].value))] + LexemesOfMembers(members[1..])
  }
}

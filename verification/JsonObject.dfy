/** JSONObjectBase: a dictionary m_data beside a vector m_order that remembers when keys were first set. */
module JsonObject {
  import opened Text
  import opened Sequences
  import opened DecimalNumber
  import opened JsonTree
  import opened JsonWriter
  import opened JsonParser

  /** The members in order, as the writers see them. */
  function MembersOf(data: map<Text, Json<Decimal>>, order: seq<Text>): (r: seq<Member<Decimal>>)
    requires forall key :: key in order ==> key in data
  {
    if order == [] then [] else [Member(order[0], data[order[0]])] + MembersOf(data, order[1..])
  }

  function Lookup<N>(members: seq<Member<N>>, key: Text): (r: Option<Json<N>>) {
    if members == [] then None
    else if members[0].key == key then Some(members[0].value)
    else Lookup(members[1..], key)
  }

  function RemoveMember<N>(members: seq<Member<N>>, key: Text): (r: seq<Member<N>>) {
    if members == [] then []
    else if members[0].key == key then members[1..]
    else [members[0]] + RemoveMember(members[1..], key)
  }

  // ----- what setting and removing do to the members

  lemma {:induction false} MembersOfLength(data: map<Text, Json<Decimal>>, order: seq<Text>)
    requires forall key :: key in order ==> key in data
    ensures |MembersOf(data, order)| == |order|
    ensures forall i :: 0 <= i < |order| ==> MembersOf(data, order)[i] == Member(order[i], data[order[i]])
  {
    if order != [] {
      MembersOfLength(data, order[1..]);
    }
  }

  /** Values of keys outside the order play no part. */
  lemma {:induction false} MembersOfCongruent(a: map<Text, Json<Decimal>>, b: map<Text, Json<Decimal>>,
                                              order: seq<Text>)
    requires forall key :: key in order ==> key in a && key in b && a[key] == b[key]
    ensures MembersOf(a, order) == MembersOf(b, order)
  {
    if order != [] {
      MembersOfCongruent(a, b, order[1..]);
    }
  }

  lemma {:induction false} SetInOrder(data: map<Text, Json<Decimal>>, order: seq<Text>, key: Text, value: Json<Decimal>)
    requires NoDuplicates(order) && forall k :: k in order ==> k in data
    ensures MembersOf(data[key := value], if key in order then order else order + [key])
         == SetMember(MembersOf(data, order), key, value)
  {
    if order == [] {
    } else if order[0] == key {
      MembersOfCongruent(data, data[key := value], order[1..]);
    } else {
      SetInOrder(data, order[1..], key, value);
      assert (order + [key])[1..] == order[1..] + [key];
      assert key in order <==> key in order[1..];
    }
  }

  /** The order without the first occurrence of a key. */
  function Without(order: seq<Text>, key: Text): (r: seq<Text>)
    ensures forall k :: k in r ==> k in order
  {
    if order == [] then []
    else if order[0] == key then order[1..]
    else [order[0]] + Without(order[1..], key)
  }

  lemma {:induction false} WithoutShape(order: seq<Text>, key: Text)
    requires NoDuplicates(order)
    ensures NoDuplicates(Without(order, key))
    ensures forall k :: k in Without(order, key) <==> k in order && k != key
  {
    if order != [] {
      WithoutShape(order[1..], key);
      assert forall k :: k in order <==> k == order[0] || k in order[1..];
      assert order[0] !in order[1..];
    }
  }

  lemma {:induction false} RemoveInOrder(data: map<Text, Json<Decimal>>, order: seq<Text>, key: Text)
    requires NoDuplicates(order) && forall k :: k in order ==> k in data
    ensures (forall k :: k in Without(order, key) ==> k in data - {key})
         && MembersOf(data - {key}, Without(order, key)) == RemoveMember(MembersOf(data, order), key)
  {
    WithoutShape(order, key);
    if order == [] {
    } else if order[0] == key {
      MembersOfCongruent(data, data - {key}, order[1..]);
    } else {
      RemoveInOrder(data, order[1..], key);
      assert ([order[0]] + Without(order[1..], key))[1..] == Without(order[1..], key);
    }
  }

  lemma {:induction false} LookupInOrder(data: map<Text, Json<Decimal>>, order: seq<Text>, key: Text)
    requires forall k :: k in order ==> k in data
    ensures Lookup(MembersOf(data, order), key) == if key in order then Some(data[key]) else None
  {
    if order != [] {
      LookupInOrder(data, order[1..], key);
    }
  }

  /** An object held this way has distinct keys. */
  lemma {:induction false} ObjectsAreDistinct(data: map<Text, Json<Decimal>>, order: seq<Text>)
    requires NoDuplicates(order) && forall k :: k in order ==> k in data && DistinctKeys(data[k])
    ensures DistinctInMembers(MembersOf(data, order))
  {
    if order != [] {
      ObjectsAreDistinct(data, order[1..]);
      MembersOfLength(data, order[1..]);
    }
  }

  // ----- laws of the ordered dictionary

  /** The last value set for a key is found; other keys are not disturbed. */
  lemma {:induction false} SetThenLookup<N>(members: seq<Member<N>>, key: Text, value: Json<N>, other: Text)
    ensures Lookup(SetMember(members, key, value), other)
         == if other == key then Some(value) else Lookup(members, other)
  {
    if members != [] && members[0].key != key {
      SetThenLookup(members[1..], key, value, other);
    }
  }

  /** Setting a new key and removing it again changes nothing. */
  lemma {:induction false} RemoveUndoesSet<N>(members: seq<Member<N>>, key: Text, value: Json<N>)
    requires Lookup(members, key) == None
    ensures RemoveMember(SetMember(members, key, value), key) == members
  {
    if members != [] {
      RemoveUndoesSet(members[1..], key, value);
    }
  }

  /** Setting a known key again keeps its place. */
  lemma {:induction false} SetKeepsOrder<N>(members: seq<Member<N>>, key: Text, value: Json<N>)
    requires Lookup(members, key).Some?
    ensures var r := SetMember(members, key, value);
            |r| == |members| && forall i :: 0 <= i < |r| ==> r[i].key == members[i].key
  {
    if members[0].key != key {
      SetKeepsOrder(members[1..], key, value);
    }
  }

  /** The loop of JSONObjectBase::remove over the order vector. */
  method RemoveFirst(order: seq<Text>, name: Text) returns (r: seq<Text>)
    ensures r == Without(order, name)
  {
    for i := 0 to |order|
      invariant Without(order, name) == order[..i] + Without(order[i..], name)
    {
      assert order[i..][0] == order[i] && order[i..][1..] == order[i + 1..];
      if order[i] == name {
        return order[..i] + order[i + 1..];
      }
      assert order[..i + 1] == order[..i] + [order[i]];
      Assoc(order[..i], [order[i]], Without(order[i + 1..], name));
    }
    assert order[|order|..] == [] && order[..|order|] == order;
    r := order;
  }

  /** Every key of the order is found in the dictionary, so the writer's assert holds on every turn. */
  method WriteEntries(data: map<Text, Json<Decimal>>, order: seq<Text>, output: Text) returns (out: Text)
    requires forall key :: key in order ==> key in data
    ensures out == output + ([LBRACE] + WriteMembers(MembersOf(data, order), true, false, 0))
  {
    hide MembersOf, Write, Quote, WriteMembers;
    ghost var members := MembersOf(data, order);
    MembersOfLength(data, order);
    ghost var whole := output + ([LBRACE] + WriteMembers(members, true, false, 0));
    out := output + [LBRACE];
    Assoc(output, [LBRACE], WriteMembers(members, true, false, 0));
    assert members[0..] == members;
    for i := 0 to |order|
      invariant out + WriteMembers(members[i..], i == 0, false, 0) == whole
    {
      NextMember(out, members, i, false, 0);
      assert order[i] in data;
      out := WriteMember(order[i], data[order[i]], i == 0, out, 0);
    }
    assert members[|order|..] == [];
    ClosingBrace(|order| == 0, 0);
    out := out + [RBRACE];
  }

  class JSONObject {
    var data: map<Text, Json<Decimal>>
    var order: seq<Text>

    ghost predicate Valid()
      reads this
    {
      && NoDuplicates(order)
      && forall key :: key in data <==> key in order
    }

    /** The members in order. */
    ghost function Members(): (r: seq<Member<Decimal>>)
      requires Valid()
      reads this
    {
      MembersOf(data, order)
    }

    constructor ()
      ensures Valid() && Members() == []
    {
      data, order := map[], [];
    }

    method SetValue(name: Text, value: Json<Decimal>)
      requires Valid()
      modifies this
      ensures Valid() && Members() == SetMember(old(Members()), name, value)
    {
      SetInOrder(data, order, name, value);
      var isNewEntry := name !in data;
      data := data[name := value];
      if isNewEntry {
        order := order + [name];
      }
    }

    method Get(name: Text) returns (r: Option<Json<Decimal>>)
      requires Valid()
      ensures r == Lookup(Members(), name)
    {
      LookupInOrder(data, order, name);
      if name in data {
        r := Some(data[name]);
      } else {
        r := None;
      }
    }

    method Remove(name: Text)
      requires Valid()
      modifies this
      ensures Valid() && Members() == RemoveMember(old(Members()), name)
    {
      RemoveInOrder(data, order, name);
      WithoutShape(order, name);
      data := data - {name};
      order := RemoveFirst(order, name);
    }

    method WriteJSON(output: Text) returns (out: Text)
      requires Valid()
      ensures out == output + ToJSONString(Object(Members()))
    {
      out := WriteEntries(data, order, output);
    }
  }
}

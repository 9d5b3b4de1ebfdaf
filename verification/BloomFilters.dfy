/** BloomFilter: a table of saturating counters, two per key. */
module BloomFilters {

  const MAXIMUM_COUNT: int := 255

  type Count = n: int | 0 <= n <= MAXIMUM_COUNT
  type Hash = h: int | 0 <= h < 0x1_0000_0000

  /** The low bits of the hash. */
  function First(size: nat, h: Hash): (n: nat)
    requires size > 0
    ensures n < size
  {
    h % size
  }

  /** The low bits of its upper half. */
  function Second(size: nat, h: Hash): (n: nat)
    requires size > 0
    ensures n < size
  {
    (h / 0x1_0000) % size
  }

  function Up(c: Count): (r: Count) {
    if c < MAXIMUM_COUNT then c + 1 else c
  }

  /** A counter at its maximum sticks; a byte at zero would wrap. */
  function Down(c: Count): (r: Count) {
    if c == MAXIMUM_COUNT then c else if c == 0 then MAXIMUM_COUNT else c - 1
  }

  function Added(t: seq<Count>, h: Hash): (r: seq<Count>)
    requires t != []
    ensures |r| == |t|
  {
    var one := t[First(|t|, h) := Up(t[First(|t|, h)])];
    one[Second(|t|, h) := Up(one[Second(|t|, h)])]
  }

  function Removed(t: seq<Count>, h: Hash): (r: seq<Count>)
    requires t != []
    ensures |r| == |t|
  {
    var one := t[First(|t|, h) := Down(t[First(|t|, h)])];
    one[Second(|t|, h) := Down(one[Second(|t|, h)])]
  }

  predicate MayContain(t: seq<Count>, h: Hash)
    requires t != []
  {
    t[First(|t|, h)] != 0 && t[Second(|t|, h)] != 0
  }

  predicate LikelyEmpty(t: seq<Count>) {
    forall n :: 0 <= n < |t| ==> t[n] == 0 || t[n] == MAXIMUM_COUNT
  }

  // ----- counting what the live keys put into a slot

  /** A key whose two slots coincide counts twice. */
  function Share(size: nat, h: Hash, n: nat): (c: nat)
    requires size > 0
  {
    (if First(size, h) == n then 1 else 0) + (if Second(size, h) == n then 1 else 0)
  }

  function Load(size: nat, keys: seq<Hash>, n: nat): (c: nat)
    requires size > 0
  {
    if keys == [] then 0 else Share(size, keys[0], n) + Load(size, keys[1..], n)
  }

  /** The keys without one occurrence of a key. */
  function RemoveKey(keys: seq<Hash>, h: Hash): (r: seq<Hash>) {
    if keys == [] then [] else if keys[0] == h then keys[1..] else [keys[0]] + RemoveKey(keys[1..], h)
  }

  lemma {:induction false} LoadOfAdded(size: nat, keys: seq<Hash>, h: Hash, n: nat)
    requires size > 0
    ensures Load(size, keys + [h], n) == Load(size, keys, n) + Share(size, h, n)
  {
    if keys == [] {
      assert [] + [h] == [h] && [h][1..] == [];
    } else {
      assert (keys + [h])[0] == keys[0] && (keys + [h])[1..] == keys[1..] + [h];
      LoadOfAdded(size, keys[1..], h, n);
    }
  }

  lemma {:induction false} LoadOfRemoved(size: nat, keys: seq<Hash>, h: Hash, n: nat)
    requires size > 0 && h in keys
    ensures Load(size, keys, n) == Load(size, RemoveKey(keys, h), n) + Share(size, h, n)
  {
    if keys[0] != h {
      LoadOfRemoved(size, keys[1..], h, n);
      assert ([keys[0]] + RemoveKey(keys[1..], h))[1..] == RemoveKey(keys[1..], h);
    }
  }

  // ----- the invariant

  /** Each counter is stuck at its maximum or is exactly the number of contributions of live keys. */
  predicate Sound(t: seq<Count>, keys: seq<Hash>) {
    t != [] && forall n :: 0 <= n < |t| ==> t[n] == MAXIMUM_COUNT || t[n] == Load(|t|, keys, n)
  }

  lemma AddKeeps(t: seq<Count>, keys: seq<Hash>, h: Hash)
    requires Sound(t, keys)
    ensures Sound(Added(t, h), keys + [h])
  {
    forall n | 0 <= n < |t|
      ensures Added(t, h)[n] == MAXIMUM_COUNT || Added(t, h)[n] == Load(|t|, keys + [h], n)
    {
      LoadOfAdded(|t|, keys, h, n);
    }
  }

  /** Removing a live key keeps the table sound; the two counters are not zero, as the code asserts. */
  lemma RemoveKeeps(t: seq<Count>, keys: seq<Hash>, h: Hash)
    requires Sound(t, keys) && h in keys
    ensures MayContain(t, h)
    ensures Sound(Removed(t, h), RemoveKey(keys, h))
  {
    forall n | 0 <= n < |t|
      ensures Share(|t|, h, n) > 0 ==> t[n] > 0
      ensures Removed(t, h)[n] == MAXIMUM_COUNT || Removed(t, h)[n] == Load(|t|, RemoveKey(keys, h), n)
    {
      LoadOfRemoved(|t|, keys, h, n);
    }
    var first, second := First(|t|, h), Second(|t|, h);
    assert Share(|t|, h, first) > 0 && Share(|t|, h, second) > 0;
  }

  // ----- whole runs

  datatype Op = Add(h: Hash) | Remove(h: Hash) | Clear

  datatype Filter = Filter(table: seq<Count>, keys: seq<Hash>)

  function Zeros(size: nat): (t: seq<Count>)
    ensures |t| == size && forall n :: 0 <= n < size ==> t[n] == 0
  {
    seq(size, _ => 0)
  }

  function Next(f: Filter, op: Op): (r: Filter)
    requires f.table != []
    ensures |r.table| == |f.table|
  {
    match op
    case Add(h) => Filter(Added(f.table, h), f.keys + [h])
    case Remove(h) => Filter(Removed(f.table, h), RemoveKey(f.keys, h))
    case Clear => Filter(Zeros(|f.table|), [])
  }

  /** Only keys that are present are removed. */
  predicate Legal(f: Filter, ops: seq<Op>)
    requires f.table != []
    decreases ops
  {
    ops == [] || ((ops[0].Remove? ==> ops[0].h in f.keys) && Legal(Next(f, ops[0]), ops[1..]))
  }

  function Run(f: Filter, ops: seq<Op>): (r: Filter)
    requires f.table != []
    decreases ops
  {
    if ops == [] then f else Run(Next(f, ops[0]), ops[1..])
  }

  lemma {:induction false} RunKeeps(f: Filter, ops: seq<Op>)
    requires Sound(f.table, f.keys) && Legal(f, ops)
    ensures Sound(Run(f, ops).table, Run(f, ops).keys)
    decreases ops
  {
    if ops != [] {
      match ops[0] {
        case Add(h) => AddKeeps(f.table, f.keys, h);
        case Remove(h) => RemoveKeeps(f.table, f.keys, h);
        case Clear =>
      }
      RunKeeps(Next(f, ops[0]), ops[1..]);
    }
  }

  /** No false negatives after any run, and so no failing assertion in a removal of a key that is present. */
  lemma NoFalseNegatives(size: nat, ops: seq<Op>, h: Hash)
    requires size > 0 && Legal(Filter(Zeros(size), []), ops)
    ensures var f := Run(Filter(Zeros(size), []), ops);
            h in f.keys ==> f.table != [] && MayContain(f.table, h)
  {
    var start := Filter(Zeros(size), []);
    RunKeeps(start, ops);
    var f := Run(start, ops);
    if h in f.keys {
      RemoveKeeps(f.table, f.keys, h);
    }
  }

  /** With no counter stuck, the filter looks empty exactly when no key is left. */
  lemma EmptyLooksEmpty(t: seq<Count>, keys: seq<Hash>)
    requires Sound(t, keys)
    ensures keys == [] ==> LikelyEmpty(t)
    ensures MAXIMUM_COUNT !in t ==> (LikelyEmpty(t) <==> keys == [])
  {
    if MAXIMUM_COUNT !in t && keys != [] {
      var n := First(|t|, keys[0]);
      assert Load(|t|, keys, n) > 0;
      assert t[n] != 0 && t[n] != MAXIMUM_COUNT;
    }
  }

  // ----- the object

  class BloomFilter {
    const table: array<Count>
    ghost var keys: seq<Hash>

    ghost predicate Valid()
      reads this, table
    {
      table.Length > 0 && Sound(table[..], keys)
    }

    constructor (size: nat)
      requires 0 < size <= 0x1_0000
      ensures Valid() && fresh(table) && table.Length == size && keys == []
    {
      table := new Count[size](_ => 0);
      keys := [];
    }

    method AddHash(h: Hash)
      requires Valid()
      modifies this, table
      ensures Valid() && keys == old(keys) + [h] && table[..] == Added(old(table[..]), h)
    {
      AddKeeps(table[..], keys, h);
      var first, second := First(table.Length, h), Second(table.Length, h);
      if table[first] < MAXIMUM_COUNT {
        table[first] := table[first] + 1;
      }
      if table[second] < MAXIMUM_COUNT {
        table[second] := table[second] + 1;
      }
      keys := keys + [h];
      assert table[..] == Added(old(table[..]), h);
    }

    /** The counters are not zero, and the second decrement of coinciding slots does not wrap. */
    method RemoveHash(h: Hash)
      requires Valid() && h in keys
      modifies this, table
      ensures Valid() && keys == RemoveKey(old(keys), h) && table[..] == Removed(old(table[..]), h)
    {
      RemoveKeeps(table[..], keys, h);
      var first, second := First(table.Length, h), Second(table.Length, h);
      LoadOfRemoved(table.Length, keys, h, first);
      assert table[first] != 0 && table[second] != 0;
      if table[first] < MAXIMUM_COUNT {
        table[first] := table[first] - 1;
      }
      if table[second] < MAXIMUM_COUNT {
        table[second] := table[second] - 1;
      }
      keys := RemoveKey(keys, h);
      assert table[..] == Removed(old(table[..]), h);
    }

    method ClearTable()
      requires Valid()
      modifies this, table
      ensures Valid() && keys == [] && table[..] == Zeros(table.Length)
    {
      for n := 0 to table.Length
        invariant forall i :: 0 <= i < n ==> table[i] == 0
      {
        table[n] := 0;
      }
      keys := [];
    }

    method MayContainHash(h: Hash) returns (r: bool)
      requires Valid()
      ensures r == MayContain(table[..], h)
      ensures h in keys ==> r
    {
      if h in keys {
        RemoveKeeps(table[..], keys, h);
      }
      r := table[First(table.Length, h)] != 0 && table[Second(table.Length, h)] != 0;
    }

    method IsLikelyEmpty() returns (r: bool)
      requires Valid()
      ensures r == LikelyEmpty(table[..])
      ensures keys == [] ==> r
    {
      EmptyLooksEmpty(table[..], keys);
      for n := 0 to table.Length
        invariant forall i :: 0 <= i < n ==> table[i] == 0 || table[i] == MAXIMUM_COUNT
      {
        if table[n] != 0 && table[n] != MAXIMUM_COUNT {
          assert table[..][n] == table[n];
          return false;
        }
      }
      return true;
    }
  }
}

/** Several bit vectors over whole runs: each behaves as a set of natural numbers, and none disturbs another. */
module BitVectorRuns {
  import opened Sequences
  import opened BitVectors

  /** A call on the vector with a given number, with the bit, the size or the vector to copy from. */
  datatype Call =
    | CallGet(at: nat, bit: nat)
    | CallSet(at: nat, bit: nat)
    | CallClear(at: nat, bit: nat)
    | CallClearAll(at: nat)
    | CallEnsureSize(at: nat, size: nat)
    | CallResize(at: nat, size: nat)
    | CallAssign(at: nat, from: nat)

  // ----- what the calls do to sets

  /** What resize asserts: the bit that becomes the tag is clear. */
  predicate Allowed(sets: seq<set<nat>>, c: Call) {
    && c.at < |sets|
    && (c.CallAssign? ==> c.from < |sets|)
    && (c.CallResize? && c.size <= MAX_INLINE_BITS ==> MAX_INLINE_BITS !in sets[c.at])
  }

  function Changed(sets: seq<set<nat>>, c: Call): (r: set<nat>)
    requires Allowed(sets, c)
  {
    var s := sets[c.at];
    match c
    case CallGet(_, _) => s
    case CallSet(_, bit) => s + {bit}
    case CallClear(_, bit) => s - {bit}
    case CallClearAll(_) => {}
    case CallEnsureSize(_, _) => s
    case CallResize(_, size) => set b | b in s && b < SizeFor(size)
    case CallAssign(_, from) => sets[from]
  }

  function After(sets: seq<set<nat>>, c: Call): (r: seq<set<nat>>)
    requires Allowed(sets, c)
  {
    sets[c.at := Changed(sets, c)]
  }

  function Answer(sets: seq<set<nat>>, c: Call): (r: seq<bool>)
    requires Allowed(sets, c)
  {
    if c.CallGet? then [c.bit in sets[c.at]] else []
  }

  ghost predicate AllAllowed(sets: seq<set<nat>>, calls: seq<Call>)
    decreases calls
  {
    calls == [] || (Allowed(sets, calls[0]) && AllAllowed(After(sets, calls[0]), calls[1..]))
  }

  ghost function AfterAll(sets: seq<set<nat>>, calls: seq<Call>): (r: seq<set<nat>>)
    requires AllAllowed(sets, calls)
    decreases calls
  {
    if calls == [] then sets else AfterAll(After(sets, calls[0]), calls[1..])
  }

  ghost function Answers(sets: seq<set<nat>>, calls: seq<Call>): (r: seq<bool>)
    requires AllAllowed(sets, calls)
    decreases calls
  {
    if calls == [] then [] else Answer(sets, calls[0]) + Answers(After(sets, calls[0]), calls[1..])
  }

  // ----- vectors and sets

  ghost function WordsOf(v: BitVector): (s: set<object>)
    reads v
  {
    if v.outOfLine == null then {} else {v.outOfLine.words}
  }

  ghost function AllWords(vs: seq<BitVector>): (s: set<object>)
    reads vs
  {
    set i, w | 0 <= i < |vs| && w in WordsOf(vs[i]) :: w
  }

  ghost predicate IsSet(v: BitVector, s: set<nat>)
    reads v, WordsOf(v)
  {
    v.Valid() && forall b: nat :: v.Holds(b) <==> b in s
  }

  /** Different vectors with words of their own. */
  ghost predicate Apart(vs: seq<BitVector>)
    reads vs
  {
    && NoDuplicates(vs)
    && forall i, j :: 0 <= i < j < |vs| ==> WordsOf(vs[i]) !! WordsOf(vs[j])
  }

  ghost predicate Agree(vs: seq<BitVector>, sets: seq<set<nat>>)
    reads vs, AllWords(vs)
  {
    |vs| == |sets| && forall i :: 0 <= i < |vs| ==> IsSet(vs[i], sets[i])
  }

  /** One call, on one vector; for an assignment, source is the vector to copy from, perhaps the same. */
  method Perform(c: Call, v: BitVector, source: BitVector, ghost sets: seq<set<nat>>) returns (answer: seq<bool>)
    requires Allowed(sets, c) && IsSet(v, sets[c.at])
    requires c.CallAssign? ==> IsSet(source, sets[c.from])
    modifies v, WordsOf(v)
    ensures IsSet(v, Changed(sets, c)) && fresh(WordsOf(v) - old(WordsOf(v)))
    ensures answer == Answer(sets, c)
  {
    answer := [];
    match c
    case CallGet(_, bit) =>
      var holds := v.Get(bit);
      answer := [holds];
    case CallSet(_, bit) => v.SetBit(bit);
    case CallClear(_, bit) => v.Clear(bit);
    case CallClearAll(_) => v.ClearAll();
    case CallEnsureSize(_, size) => v.EnsureSize(size);
    case CallResize(_, size) => v.Resize(size);
    case CallAssign(_, _) => v.Assign(source);
  }

  /** The same among other vectors. */
  method Step(vs: seq<BitVector>, c: Call, ghost sets: seq<set<nat>>) returns (answer: seq<bool>)
    requires Apart(vs) && Agree(vs, sets) && Allowed(sets, c)
    modifies vs, AllWords(vs)
    ensures Apart(vs) && Agree(vs, After(sets, c)) && fresh(AllWords(vs) - old(AllWords(vs)))
    ensures answer == Answer(sets, c)
  {
    hide Changed, Answer;
    var v := vs[c.at];
    var source := if c.CallAssign? then vs[c.from] else v;
    answer := Perform(c, v, source, sets);
    forall i | 0 <= i < |vs| && i != c.at
      ensures WordsOf(vs[i]) == old(WordsOf(vs[i])) && IsSet(vs[i], sets[i])
    {
      assert vs[i] != v;
    }
  }

  /**
    Any run of calls: what is answered, and what every vector holds afterwards, is what sets of naturals give that
    the same calls are made on.
  */
  method Run(vs: seq<BitVector>, calls: seq<Call>, ghost sets: seq<set<nat>>) returns (answers: seq<bool>)
    requires Apart(vs) && Agree(vs, sets) && AllAllowed(sets, calls)
    modifies vs, AllWords(vs)
    ensures Apart(vs) && Agree(vs, AfterAll(sets, calls)) && fresh(AllWords(vs) - old(AllWords(vs)))
    ensures answers == Answers(sets, calls)
    decreases calls
  {
    hide Allowed, After, Changed, Answer;
    if calls == [] {
      return [];
    }
    var answer := Step(vs, calls[0], sets);
    answers := Run(vs, calls[1..], After(sets, calls[0]));
    answers := answer + answers;
  }
}

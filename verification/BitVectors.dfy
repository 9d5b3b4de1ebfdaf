/**
  BitVector: one word that is either 63 bits beside a tag bit or, with the tag bit clear, an address of an array
  of words shifted right by one.
*/
module BitVectors {
  type Word = bv64

  const WORD_BITS: int := 64
  const MAX_INLINE_BITS: int := 63

  // ----- bits of one word

  type Place = bv6

  function Mask(a: Place): (m: Word) {
    1 << a
  }

  predicate Test(w: Word, a: Place) {
    w & Mask(a) != 0
  }

  function Put(w: Word, a: Place): (r: Word) {
    w | Mask(a)
  }

  function Erase(w: Word, a: Place): (r: Word) {
    w & !Mask(a)
  }

  predicate Tagged(w: Word) {
    w >> 63 != 0
  }

  /** The place of a bit in its word. */
  function Offset(b: nat): (a: Place) {
    (b % WORD_BITS) as Place
  }

  lemma Converted(i: nat)
    requires i < 64
    ensures (i as Place) as int == i
  {
  }

  lemma Offsets(b: nat, c: nat)
    ensures Offset(b) == Offset(c) <==> b % WORD_BITS == c % WORD_BITS
  {
    Converted(b % WORD_BITS);
    Converted(c % WORD_BITS);
  }

  lemma Masks(a: Place, b: Place)
    ensures Mask(a) != 0
    ensures a != b ==> Mask(a) & Mask(b) == 0
  {
  }

  lemma OrApart(w: Word, x: Word, y: Word)
    requires x & y == 0
    ensures (w | x) & y == w & y
  {
  }

  lemma OrSame(w: Word, x: Word)
    ensures (w | x) & x == x
  {
  }

  lemma AndNotApart(w: Word, x: Word, y: Word)
    requires x & y == 0
    ensures (w & !x) & y == w & y
  {
  }

  lemma AndNotSame(w: Word, x: Word)
    ensures (w & !x) & x == 0
  {
  }

  lemma PutApart(w: Word, a: Place, b: Place)
    requires a != b
    ensures Test(Put(w, a), b) <==> Test(w, b)
  {
    Masks(a, b);
    OrApart(w, Mask(a), Mask(b));
  }

  lemma PutSame(w: Word, a: Place)
    ensures Test(Put(w, a), a)
  {
    Masks(a, a);
    OrSame(w, Mask(a));
  }

  lemma EraseApart(w: Word, a: Place, b: Place)
    requires a != b
    ensures Test(Erase(w, a), b) <==> Test(w, b)
  {
    Masks(a, b);
    AndNotApart(w, Mask(a), Mask(b));
  }

  lemma EraseSame(w: Word, a: Place)
    ensures !Test(Erase(w, a), a)
  {
    AndNotSame(w, Mask(a));
  }

  lemma TagIsBit63(w: Word)
    ensures Tagged(w) <==> Test(w, 63)
  {
  }

  /** An address as it is stored. */
  function Halved(w: Word): (r: Word) {
    w >> 1
  }

  lemma HalvedIsUntagged(w: Word)
    ensures !Tagged(Halved(w))
  {
  }

  // ----- bits of many words

  predicate Member(words: seq<Word>, b: nat) {
    b / WORD_BITS < |words| && Test(words[b / WORD_BITS], Offset(b))
  }

  lemma SamePlace(b: nat, c: nat)
    ensures b == c <==> b / WORD_BITS == c / WORD_BITS && b % WORD_BITS == c % WORD_BITS
  {
  }

  lemma PutMember(words: seq<Word>, b: nat, c: nat)
    requires b / WORD_BITS < |words|
    ensures var i := b / WORD_BITS;
            Member(words[i := Put(words[i], Offset(b))], c) <==> Member(words, c) || c == b
  {
    hide Test, Put, Offset;
    SamePlace(b, c);
    Offsets(b, c);
    if Offset(b) == Offset(c) {
      PutSame(words[b / WORD_BITS], Offset(b));
    } else {
      PutApart(words[b / WORD_BITS], Offset(b), Offset(c));
    }
  }

  lemma EraseMember(words: seq<Word>, b: nat, c: nat)
    requires b / WORD_BITS < |words|
    ensures var i := b / WORD_BITS;
            Member(words[i := Erase(words[i], Offset(b))], c) <==> Member(words, c) && c != b
  {
    hide Test, Erase, Offset;
    SamePlace(b, c);
    Offsets(b, c);
    if Offset(b) == Offset(c) {
      EraseSame(words[b / WORD_BITS], Offset(b));
    } else {
      EraseApart(words[b / WORD_BITS], Offset(b), Offset(c));
    }
  }

  function ZeroWords(n: nat): (r: seq<Word>)
    ensures |r| == n && forall i :: 0 <= i < n ==> r[i] == 0
  {
    seq(n, _ => 0)
  }

  lemma ZeroHoldsNothing(words: seq<Word>, b: nat)
    requires b / WORD_BITS < |words| ==> words[b / WORD_BITS] == 0
    ensures !Member(words, b)
  {
    ZeroTest(Offset(b));
  }

  lemma ZeroTest(a: Place)
    ensures !Test(0, a)
  {
  }

  /** What the one word or the array of words holds. */
  datatype Storage = Inline(word: Word) | OutOfLine(words: seq<Word>) {
    predicate Holds(b: nat) {
      match this
      case Inline(word) => b < MAX_INLINE_BITS && Test(word, Offset(b))
      case OutOfLine(words) => Member(words, b)
    }

    function Size(): (n: nat) {
      match this
      case Inline(_) => MAX_INLINE_BITS
      case OutOfLine(words) => |words| * WORD_BITS
    }

    predicate WellTagged() {
      Inline? ==> Tagged(word)
    }
  }

  /** quickSet and quickClear. */
  function Set(s: Storage, b: nat): (r: Storage)
    requires b < s.Size()
  {
    match s
    case Inline(word) => Inline(Put(word, Offset(b)))
    case OutOfLine(words) =>
      var i := b / WORD_BITS;
      OutOfLine(words[i := Put(words[i], Offset(b))])
  }

  function Unset(s: Storage, b: nat): (r: Storage)
    requires b < s.Size()
  {
    match s
    case Inline(word) => Inline(Erase(word, Offset(b)))
    case OutOfLine(words) =>
      var i := b / WORD_BITS;
      OutOfLine(words[i := Erase(words[i], Offset(b))])
  }

  /** Places of inline bits are all different, and none is the tag. */
  lemma InlinePlaces(b: nat, c: nat)
    requires b < MAX_INLINE_BITS && c <= MAX_INLINE_BITS
    ensures Offset(b) == Offset(c) <==> b == c
    ensures Offset(MAX_INLINE_BITS) == 63
  {
    Offsets(b, c);
    Converted(63);
  }

  /** Setting adds one bit and leaves the tag alone. */
  lemma SetHolds(s: Storage, b: nat, c: nat)
    requires b < s.Size() && s.WellTagged()
    ensures Set(s, b).Holds(c) <==> s.Holds(c) || c == b
    ensures Set(s, b).WellTagged() && Set(s, b).Size() == s.Size() && Set(s, b).Inline? == s.Inline?
  {
    hide Test, Put, Offset, Tagged;
    match s
    case Inline(word) =>
      InlinePlaces(b, 63);
      TagIsBit63(word);
      TagIsBit63(Put(word, Offset(b)));
      PutApart(word, Offset(b), 63);
      if b == c {
        PutSame(word, Offset(b));
      } else if c < MAX_INLINE_BITS {
        InlinePlaces(b, c);
        PutApart(word, Offset(b), Offset(c));
      }
    case OutOfLine(words) => PutMember(words, b, c);
  }

  /** Clearing removes one bit and leaves the tag alone. */
  lemma UnsetHolds(s: Storage, b: nat, c: nat)
    requires b < s.Size() && s.WellTagged()
    ensures Unset(s, b).Holds(c) <==> s.Holds(c) && c != b
    ensures Unset(s, b).WellTagged() && Unset(s, b).Size() == s.Size() && Unset(s, b).Inline? == s.Inline?
  {
    hide Test, Erase, Offset, Tagged;
    match s
    case Inline(word) =>
      InlinePlaces(b, 63);
      TagIsBit63(word);
      TagIsBit63(Erase(word, Offset(b)));
      EraseApart(word, Offset(b), 63);
      if b == c {
        EraseSame(word, Offset(b));
      } else if c < MAX_INLINE_BITS {
        InlinePlaces(b, c);
        EraseApart(word, Offset(b), Offset(c));
      }
    case OutOfLine(words) => EraseMember(words, b, c);
  }

  /** The words that resizeOutOfLine leaves: old words first, then zeros. */
  function Moved(s: Storage, n: nat): (r: seq<Word>)
    requires n > 0
    ensures |r| == n
  {
    match s
    case Inline(word) => [Erase(word, 63)] + ZeroWords(n - 1)
    case OutOfLine(words) => if n > |words| then words + ZeroWords(n - |words|) else words[..n]
  }

  /** Moving out of line, growing and shrinking lose no bit below the new size and invent none. */
  lemma MovedHolds(s: Storage, n: nat, b: nat)
    requires n > 0
    ensures OutOfLine(Moved(s, n)).Holds(b) <==> s.Holds(b) && b < n * WORD_BITS
  {
    hide Test, Erase, Offset;
    var words, i := Moved(s, n), b / WORD_BITS;
    if s.Inline? {
      if b < MAX_INLINE_BITS {
        InlinePlaces(b, 63);
        EraseApart(s.word, 63, Offset(b));
      } else if b == MAX_INLINE_BITS {
        InlinePlaces(0, 0);
        EraseSame(s.word, 63);
      } else {
        ZeroHoldsNothing(words, b);
      }
    } else if i < n && i >= |s.words| {
      ZeroHoldsNothing(words, b);
    }
  }

  /** makeInlineBits of the first word: what is below 63 stays. */
  lemma InlinedHolds(words: seq<Word>, b: nat)
    requires words != []
    ensures Inline(Put(words[0], 63)).WellTagged()
    ensures Inline(Put(words[0], 63)).Holds(b) <==> OutOfLine(words).Holds(b) && b < MAX_INLINE_BITS
  {
    hide Test, Offset, Tagged, Put;
    var w := words[0];
    TagIsBit63(Put(w, 63));
    PutSame(w, 63);
    if b < MAX_INLINE_BITS {
      InlinePlaces(b, 63);
      PutApart(w, 63, Offset(b));
    }
  }

  lemma WithinSize(s: Storage, b: nat)
    ensures s.Holds(b) ==> b < s.Size()
  {
  }

  function WordsFor(numBits: nat): (n: nat)
    ensures numBits <= n * WORD_BITS < numBits + WORD_BITS
  {
    (numBits + WORD_BITS - 1) / WORD_BITS
  }

  /** The size after resizing: inline, or whole words. */
  function SizeFor(numBits: nat): (n: nat)
    ensures n >= numBits
  {
    if numBits <= MAX_INLINE_BITS then MAX_INLINE_BITS else WordsFor(numBits) * WORD_BITS
  }

  // ----- the object

  class OutOfLineBits {
    const address: Word
    const words: array<Word>

    /** The words are not initialised. */
    constructor (numBits: nat)
      ensures fresh(words) && words.Length == WordsFor(numBits)
    {
      words := new Word[WordsFor(numBits)];
    }
  }

  /** memcpy of the first words of one array to another. */
  method CopyWords(source: array<Word>, target: array<Word>, n: nat)
    requires n <= source.Length && n <= target.Length && source != target
    modifies target
    ensures target[..n] == source[..n] && target[n..] == old(target[n..])
  {
    for i := 0 to n
      invariant forall j :: 0 <= j < i ==> target[j] == source[j]
      invariant forall j :: i <= j < target.Length ==> target[j] == old(target[j])
    {
      target[i] := source[i];
    }
  }

  /** memset to zero from a word on. */
  method ZeroFrom(target: array<Word>, from: nat)
    requires from <= target.Length
    modifies target
    ensures target[..from] == old(target[..from]) && target[from..] == ZeroWords(target.Length - from)
  {
    for i := from to target.Length
      invariant forall j :: from <= j < i ==> target[j] == 0
      invariant forall j :: 0 <= j < from ==> target[j] == old(target[j])
    {
      target[i] := 0;
    }
  }

  class BitVector {
    var bitsOrPointer: Word
    // What the address leads to when the tag is clear.
    var outOfLine: OutOfLineBits?

    ghost predicate Valid()
      reads this
    {
      && (Tagged(bitsOrPointer) <==> outOfLine == null)
      && (outOfLine != null ==> bitsOrPointer == Halved(outOfLine.address) && outOfLine.words.Length > 0)
    }

    ghost function Current(): (s: Storage)
      reads this, if outOfLine == null then {} else {outOfLine.words}
    {
      if outOfLine == null then Inline(bitsOrPointer) else OutOfLine(outOfLine.words[..])
    }

    ghost predicate Holds(b: nat)
      reads this, if outOfLine == null then {} else {outOfLine.words}
    {
      Current().Holds(b)
    }

    constructor ()
      ensures Valid() && outOfLine == null && forall b :: !Holds(b)
    {
      bitsOrPointer := Put(0, 63);
      outOfLine := null;
      new;
      forall b: nat
        ensures !Holds(b)
      {
        InlinedHolds([0], b);
        ZeroHoldsNothing([0], b);
      }
      InlinedHolds([0], 0);
    }

    method IsInline() returns (r: bool)
      requires Valid()
      ensures r <==> outOfLine == null
    {
      r := bitsOrPointer >> 63 != 0;
    }

    method Size() returns (n: nat)
      requires Valid()
      ensures n == Current().Size()
    {
      var isInline := IsInline();
      n := if isInline then MAX_INLINE_BITS else outOfLine.words.Length * WORD_BITS;
    }

    method Get(bit: nat) returns (r: bool)
      requires Valid()
      ensures r <==> Holds(bit)
    {
      var size := Size();
      if bit >= size {
        return false;
      }
      var isInline := IsInline();
      if isInline {
        r := Test(bitsOrPointer, Offset(bit));
      } else {
        r := Test(outOfLine.words[bit / WORD_BITS], Offset(bit));
      }
    }

    method QuickSet(bit: nat)
      requires Valid() && bit < Current().Size()
      modifies this, if outOfLine == null then {} else {outOfLine.words}
      ensures Valid() && outOfLine == old(outOfLine) && Current().Size() == old(Current().Size())
      ensures forall c: nat :: Holds(c) <==> old(Current()).Holds(c) || c == bit
    {
      hide Put, Tagged, Offset;
      ghost var s := Current();
      forall c: nat
        ensures Set(s, bit).Holds(c) <==> s.Holds(c) || c == bit
      {
        SetHolds(s, bit, c);
      }
      SetHolds(s, bit, bit);
      var isInline := IsInline();
      if isInline {
        bitsOrPointer := Put(bitsOrPointer, Offset(bit));
      } else {
        var i := bit / WORD_BITS;
        outOfLine.words[i] := Put(outOfLine.words[i], Offset(bit));
        assert outOfLine.words[..] == s.words[i := Put(s.words[i], Offset(bit))];
      }
      assert Current() == Set(s, bit);
    }

    method QuickClear(bit: nat)
      requires Valid() && bit < Current().Size()
      modifies this, if outOfLine == null then {} else {outOfLine.words}
      ensures Valid() && outOfLine == old(outOfLine) && Current().Size() == old(Current().Size())
      ensures forall c: nat :: Holds(c) <==> old(Current()).Holds(c) && c != bit
    {
      hide Erase, Tagged, Offset;
      ghost var s := Current();
      forall c: nat
        ensures Unset(s, bit).Holds(c) <==> s.Holds(c) && c != bit
      {
        UnsetHolds(s, bit, c);
      }
      UnsetHolds(s, bit, bit);
      var isInline := IsInline();
      if isInline {
        bitsOrPointer := Erase(bitsOrPointer, Offset(bit));
      } else {
        var i := bit / WORD_BITS;
        outOfLine.words[i] := Erase(outOfLine.words[i], Offset(bit));
        assert outOfLine.words[..] == s.words[i := Erase(s.words[i], Offset(bit))];
      }
      assert Current() == Unset(s, bit);
    }

    method Clear(bit: nat)
      requires Valid()
      modifies this, if outOfLine == null then {} else {outOfLine.words}
      ensures Valid() && outOfLine == old(outOfLine) && Current().Size() == old(Current().Size())
      ensures forall c: nat :: Holds(c) <==> old(Current()).Holds(c) && c != bit
    {
      var size := Size();
      if bit >= size {
        WithinSize(Current(), bit);
        return;
      }
      QuickClear(bit);
    }

    method ClearAll()
      requires Valid()
      modifies this, if outOfLine == null then {} else {outOfLine.words}
      ensures Valid() && outOfLine == old(outOfLine) && forall c: nat :: !Holds(c)
    {
      hide Test, Put, Tagged, Offset;
      var isInline := IsInline();
      if isInline {
        bitsOrPointer := Put(0, 63);
        InlinedHolds([0], 0);
        forall c: nat
          ensures !Holds(c)
        {
          InlinedHolds([0], c);
          ZeroHoldsNothing([0], c);
        }
      } else {
        ZeroFrom(outOfLine.words, 0);
        forall c: nat
          ensures !Holds(c)
        {
          assert outOfLine.words[0..] == outOfLine.words[..];
          ZeroHoldsNothing(outOfLine.words[..], c);
        }
      }
    }

    /** The words of a vector that is to take the place of this one. */
    method CreateWords(numBits: nat) returns (created: OutOfLineBits)
      requires Valid() && numBits > MAX_INLINE_BITS
      ensures fresh(created) && fresh(created.words)
      ensures created.words[..] == Moved(Current(), WordsFor(numBits))
    {
      hide Erase, Tagged, Halved;
      var isInline := IsInline();
      created := new OutOfLineBits(numBits);
      var n := created.words.Length;
      if isInline {
        created.words[0] := Erase(bitsOrPointer, 63);
        ZeroFrom(created.words, 1);
        assert created.words[..] == created.words[..1] + created.words[1..];
      } else {
        var m := outOfLine.words.Length;
        if numBits > m * WORD_BITS {
          CopyWords(outOfLine.words, created.words, m);
          ZeroFrom(created.words, m);
          assert created.words[..] == created.words[..m] + created.words[m..];
        } else {
          CopyWords(outOfLine.words, created.words, n);
          assert created.words[..] == created.words[..n];
        }
      }
    }

    method PointTo(created: OutOfLineBits)
      requires created.words.Length > 0
      modifies this
      ensures Valid() && outOfLine == created
    {
      hide Tagged;
      HalvedIsUntagged(created.address);
      bitsOrPointer := Halved(created.address);
      outOfLine := created;
    }

    /** The new words are filled from the old storage before it is given up. */
    method ResizeOutOfLine(numBits: nat)
      requires Valid() && numBits > MAX_INLINE_BITS
      modifies this
      ensures Valid() && outOfLine != null && fresh(outOfLine) && fresh(outOfLine.words)
      ensures Current() == OutOfLine(Moved(old(Current()), WordsFor(numBits)))
    {
      hide Moved;
      var created := CreateWords(numBits);
      assert |created.words[..]| > 0;
      PointTo(created);
    }

    method EnsureSize(numBits: nat)
      requires Valid()
      modifies this
      ensures Valid() && Current().Size() >= numBits
      ensures outOfLine == old(outOfLine) || (outOfLine != null && fresh(outOfLine) && fresh(outOfLine.words))
      ensures forall c: nat :: Holds(c) <==> old(Current()).Holds(c)
    {
      hide Moved, Member;
      var size := Size();
      if numBits <= size {
        return;
      }
      ResizeOutOfLine(numBits);
      forall c: nat
        ensures Holds(c) <==> old(Current()).Holds(c)
      {
        MovedHolds(old(Current()), WordsFor(numBits), c);
        WithinSize(old(Current()), c);
      }
    }

    method SetBit(bit: nat)
      requires Valid()
      modifies this, if outOfLine == null then {} else {outOfLine.words}
      ensures Valid()
      ensures outOfLine == old(outOfLine) || (outOfLine != null && fresh(outOfLine) && fresh(outOfLine.words))
      ensures forall c: nat :: Holds(c) <==> old(Current()).Holds(c) || c == bit
    {
      EnsureSize(bit + 1);
      QuickSet(bit);
    }

    /** Shrinking to the inline form asserts that the bit that becomes the tag is clear. */
    method Resize(numBits: nat)
      requires Valid() && (numBits <= MAX_INLINE_BITS && outOfLine != null ==> !Holds(MAX_INLINE_BITS))
      modifies this
      ensures Valid() && Current().Size() == SizeFor(numBits)
      ensures outOfLine == null || (fresh(outOfLine) && fresh(outOfLine.words))
      ensures forall c: nat :: Holds(c) <==> old(Current()).Holds(c) && c < SizeFor(numBits)
    {
      hide Moved, Member, Put, Tagged;
      ghost var s := Current();
      if numBits <= MAX_INLINE_BITS {
        var isInline := IsInline();
        if isInline {
          return;
        }
        ghost var words := outOfLine.words[..];
        bitsOrPointer := Put(outOfLine.words[0], 63);
        outOfLine := null;
        InlinedHolds(words, 0);
        forall c: nat
          ensures Holds(c) <==> s.Holds(c) && c < SizeFor(numBits)
        {
          InlinedHolds(words, c);
        }
        return;
      }
      ResizeOutOfLine(numBits);
      forall c: nat
        ensures Holds(c) <==> s.Holds(c) && c < SizeFor(numBits)
      {
        MovedHolds(s, WordsFor(numBits), c);
      }
    }

    /** operator=, also from the vector itself; the copy shares nothing with its source. */
    method Assign(other: BitVector)
      requires Valid() && other.Valid()
      modifies this
      ensures Valid() && Current() == old(other.Current())
      ensures outOfLine != null ==> fresh(outOfLine) && fresh(outOfLine.words)
    {
      hide Tagged;
      var isInline := other.IsInline();
      if isInline {
        bitsOrPointer, outOfLine := other.bitsOrPointer, null;
        return;
      }
      var n := other.outOfLine.words.Length;
      var created := new OutOfLineBits(n * WORD_BITS);
      CopyWords(other.outOfLine.words, created.words, n);
      assert created.words[..] == created.words[..n] && other.outOfLine.words[..n] == other.outOfLine.words[..];
      PointTo(created);
    }
  }
}

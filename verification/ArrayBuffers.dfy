/**
  ArrayBuffer and ArrayBufferView: a buffer threads its views on a doubly linked list through fields of the views.
  The ghost field views is the list as a sequence.
*/
module ArrayBuffers {
  import opened Text
  import opened Sequences

  type Bytes = seq<bv8>

  class ArrayBufferView {
    var buffer: ArrayBuffer?
    var byteOffset: nat
    var neuterable: bool
    var prevView: ArrayBufferView?
    var nextView: ArrayBufferView?

    /** A new view goes to the front of the list of its buffer, if it has one. */
    constructor (owner: ArrayBuffer?, byteOffset: nat, ghost buffers: set<ArrayBuffer>, ghost all: set<ArrayBufferView>)
      requires Consistent(buffers, all) && (owner != null ==> owner in buffers)
      modifies owner, ListOf(owner)`prevView
      ensures Consistent(buffers, all + {this})
      ensures buffer == owner && neuterable && this.byteOffset == byteOffset
      ensures if owner == null then Unlinked() else owner.views == [this] + old(owner.views)
    {
      this.byteOffset := byteOffset;
      neuterable := true;
      buffer := owner;
      prevView := null;
      nextView := null;
      new;
      if owner != null {
        owner.AddView(this);
        forall b | b in buffers && b != owner
          ensures b.Valid()
        {
          assert old(b.Valid()) && old(owner.Valid());
          StillValid(b);
        }
        forall v | v in all
          ensures Placed(v, buffers)
        {
          assert old(Placed(v, buffers));
        }
      }
    }

    ghost predicate Unlinked()
      reads this
    {
      prevView == null && nextView == null
    }

    method Neuter()
      modifies this`buffer, this`byteOffset
      ensures buffer == null && byteOffset == 0
    {
      buffer := null;
      byteOffset := 0;
    }
  }

  function Dropped<T>(s: seq<T>, k: nat): (r: seq<T>)
    requires k < |s|
  {
    s[..k] + s[k + 1..]
  }

  lemma DroppedAt<T>(s: seq<T>, k: nat)
    requires k < |s| && NoDuplicates(s)
    ensures NoDuplicates(Dropped(s, k)) && s[k] !in Dropped(s, k)
    ensures forall x :: x in Dropped(s, k) <==> x in s && x != s[k]
    ensures |Dropped(s, k)| == |s| - 1
    ensures forall i :: 0 <= i < |s| - 1 ==> Dropped(s, k)[i] == s[if i < k then i else i + 1]
  {
    var d := Dropped(s, k);
    forall x | x in s && x != s[k]
      ensures x in d
    {
      var i :| 0 <= i < |s| && s[i] == x;
      assert d[if i < k then i else i - 1] == x;
    }
  }

  ghost function At(s: seq<ArrayBufferView>, i: int): (v: ArrayBufferView?) {
    if 0 <= i < |s| then s[i] else null
  }

  /** The links are those of the sequence. */
  ghost predicate Linked(s: seq<ArrayBufferView>)
    reads s
  {
    && (forall i {:trigger s[i].prevView} :: 0 <= i < |s| ==> s[i].prevView == At(s, i - 1))
    && (forall i {:trigger s[i].nextView} :: 0 <= i < |s| ==> s[i].nextView == At(s, i + 1))
  }

  lemma LinkedAt(s: seq<ArrayBufferView>, k: nat)
    requires Linked(s) && NoDuplicates(s)
    ensures k < |s| ==> s[k].prevView == At(s, k - 1) && s[k].nextView == At(s, k + 1) && (s[k] == At(s, 0) <==> k == 0)
  {
  }

  predicate AllNeuterable(s: seq<ArrayBufferView>)
    reads s
  {
    forall v :: v in s ==> v.neuterable
  }

  /** Rewiring the neighbours of a view that is in a list, or doing nothing for one that is in none. */
  method Unlink(view: ArrayBufferView, ghost s: seq<ArrayBufferView>, ghost k: nat)
    requires k <= |s| && NoDuplicates(s) && Linked(s)
    requires if k < |s| then s[k] == view else view !in s && view.Unlinked()
    modifies s`prevView, s`nextView, view`prevView, view`nextView
    ensures view.Unlinked() && Linked(if k < |s| then Dropped(s, k) else s)
  {
    hide NoDuplicates;
    LinkedAt(s, k);
    if view.nextView != null {
      view.nextView.prevView := view.prevView;
    }
    if view.prevView != null {
      view.prevView.nextView := view.nextView;
    }
    view.prevView, view.nextView := null, null;
    if k < |s| {
      forall i | 0 <= i < |s| && i != k
        ensures s[i].prevView == if i == k + 1 then At(s, k - 1) else At(s, i - 1)
        ensures s[i].nextView == if i == k - 1 then At(s, k + 1) else At(s, i + 1)
      {
        Apart(s, i, k);
        Apart(s, i, k + 1);
        Apart(s, i, k - 1);
      }
      BridgedIsLinked(s, k);
    } else {
      assert unchanged(s);
    }
  }

  lemma Apart(s: seq<ArrayBufferView>, i: nat, j: int)
    requires NoDuplicates(s) && i < |s|
    ensures 0 <= j < |s| && i != j ==> s[i] != s[j]
  {
  }

  /** Links that skip one position. */
  ghost predicate Bridged(s: seq<ArrayBufferView>, k: nat)
    requires k < |s|
    reads s
  {
    && (forall i {:trigger s[i].prevView} :: 0 <= i < |s| && i != k ==>
          s[i].prevView == if i == k + 1 then At(s, k - 1) else At(s, i - 1))
    && (forall i {:trigger s[i].nextView} :: 0 <= i < |s| && i != k ==>
          s[i].nextView == if i == k - 1 then At(s, k + 1) else At(s, i + 1))
  }

  lemma BridgedIsLinked(s: seq<ArrayBufferView>, k: nat)
    requires k < |s| && Bridged(s, k)
    ensures Linked(Dropped(s, k))
  {
    var d := Dropped(s, k);
    forall i | 0 <= i < |d|
      ensures d[i].prevView == At(d, i - 1) && d[i].nextView == At(d, i + 1)
    {
      var j := if i < k then i else i + 1;
      assert d[i] == s[j];
      assert At(d, i - 1) == if j == k + 1 then At(s, k - 1) else At(s, j - 1);
      assert At(d, i + 1) == if j == k - 1 then At(s, k + 1) else At(s, j + 1);
    }
  }

  /** What was taken out of the front is not in the rest. */
  lemma Disjoint(s: seq<ArrayBufferView>, n: nat)
    requires NoDuplicates(s) && n < |s|
    ensures forall k :: 0 <= k < n ==> s[k] !in s[n..]
    ensures s[n] !in s[n + 1..]
  {
  }

  class ArrayBuffer {
    var data: Option<Bytes>
    var neutered: bool
    var firstView: ArrayBufferView?
    ghost var views: seq<ArrayBufferView>

    ghost predicate Valid()
      reads this, views
    {
      && NoDuplicates(views)
      && firstView == At(views, 0)
      && Linked(views)
      && forall v :: v in views ==> v.buffer == this
    }

    constructor (bytes: Bytes, ghost buffers: set<ArrayBuffer>, ghost all: set<ArrayBufferView>)
      requires Consistent(buffers, all)
      ensures Consistent(buffers + {this}, all)
      ensures Valid() && views == [] && data == Some(bytes) && !neutered
    {
      data, neutered, firstView, views := Some(bytes), false, null, [];
    }

    method AddView(view: ArrayBufferView)
      requires Valid() && view !in views
      modifies this`firstView, this`views, view`buffer, view`prevView, view`nextView, views`prevView
      ensures Valid() && views == [view] + old(views)
    {
      view.buffer := this;
      view.prevView := null;
      view.nextView := firstView;
      if firstView != null {
        firstView.prevView := view;
      }
      firstView := view;
      ghost var s := views;
      views := [view] + views;
      forall i | 0 <= i < |views|
        ensures views[i].prevView == At(views, i - 1) && views[i].nextView == At(views, i + 1)
      {
        assert i > 0 ==> views[i] == s[i - 1];
      }
    }

    /** Taking a view out of the list; one that was taken out before is left as it is. */
    method RemoveView(view: ArrayBufferView)
      requires Valid() && view.buffer == this && (view in views || view.Unlinked())
      modifies this`firstView, this`views, view`prevView, view`nextView, views`prevView, views`nextView
      ensures Valid() && view.Unlinked() && view !in views
      ensures forall k :: 0 <= k < |old(views)| && old(views)[k] == view ==> views == Dropped(old(views), k)
      ensures view !in old(views) ==> views == old(views)
    {
      hide Linked, NoDuplicates;
      ghost var s, k := views, IndexOf(view);
      LinkedAt(views, k);
      var next := view.nextView;
      Unlink(view, views, k);
      if firstView == view {
        firstView := next;
      }
      if k < |s| {
        DroppedAt(s, k);
        views := Dropped(s, k);
      }
    }

    /** The scan over the list by its links. */
    method ScanNeuterable() returns (all: bool)
      requires Valid()
      ensures all <==> AllNeuterable(views)
    {
      all := true;
      var i := firstView;
      ghost var n := 0;
      while i != null
        invariant n <= |views| && i == At(views, n)
        invariant all <==> AllNeuterable(views[..n])
        decreases |views| - n
      {
        assert views[..n + 1] == views[..n] + [views[n]];
        if !i.neuterable {
          all := false;
        }
        i := i.nextView;
        n := n + 1;
      }
      assert views[..n] == views;
    }

    /** Taking the first view out and neutering it, if it may be. */
    method DetachFirst(all: bool)
      requires Valid() && views != [] && (all ==> AllNeuterable(views))
      modifies this`firstView, this`views, views`buffer, views`byteOffset, views`prevView, views`nextView
      ensures Valid() && views == old(views)[1..]
      ensures Detached(old(views)[0])
      ensures forall v :: v in views ==> v.byteOffset == old(v.byteOffset)
      ensures old(views)[0].byteOffset == if old(views)[0].neuterable then 0 else old(views[0].byteOffset)
    {
      var current := firstView;
      assert current == views[0] && Dropped(views, 0) == views[1..];
      RemoveView(current);
      if all || current.neuterable {
        current.Neuter();
      }
    }

    ghost predicate Detached(v: ArrayBufferView)
      reads v
    {
      v.Unlinked() && v.buffer == if v.neuterable then null else this
    }

    /** The loop that empties the list. */
    method DetachAll(all: bool)
      requires Valid() && (all ==> AllNeuterable(views))
      modifies this`firstView, this`views, views`buffer, views`byteOffset, views`prevView, views`nextView
      ensures Valid() && views == []
      ensures forall v :: v in old(views) ==>
                Detached(v) && v.byteOffset == if v.neuterable then 0 else old(v.byteOffset)
    {
      ghost var s, n := views, 0;
      while firstView != null
        invariant Valid() && n <= |s| && views == s[n..]
        invariant forall k :: 0 <= k < n ==>
                    Detached(s[k]) && s[k].byteOffset == if s[k].neuterable then 0 else old(s[k].byteOffset)
        invariant forall v :: v in views ==> v.byteOffset == old(v.byteOffset)
        decreases |views|
      {
        assert s[n..][0] == s[n] && s[n..][1..] == s[n + 1..];
        Disjoint(s, n);
        DetachFirst(all);
        n := n + 1;
      }
    }

    /**
      Handing the bytes over. With a view that may not be neutered the bytes are copied, which can fail for want
      of memory. A view that is not neutered keeps the buffer, but leaves the list like every other.
    */
    method Transfer(canAllocate: bool) returns (ok: bool, result: Option<Bytes>)
      requires Valid()
      modifies this, views`buffer, views`byteOffset, views`prevView, views`nextView
      ensures Valid()
      ensures ok <==> old(data).Some? && (canAllocate || AllNeuterable(old(views)))
      ensures !ok ==> result == None && unchanged(this) && unchanged(old(views))
      ensures ok ==> result == old(data) && neutered && views == []
      ensures ok ==> data == if AllNeuterable(old(views)) then None else old(data)
      ensures ok ==> forall v :: v in old(views) ==>
                Detached(v) && v.byteOffset == if v.neuterable then 0 else old(v.byteOffset)
    {
      if data.None? {
        return false, None;
      }
      var all := ScanNeuterable();
      if all {
        result := data;
        data := None;
      } else {
        if !canAllocate {
          return false, None;
        }
        result := data;
      }
      DetachAll(all);
      neutered := true;
      ok := true;
    }

    /** A transfer among other buffers and their views: it keeps them, and only views of this buffer are detached. */
    method TransferAmong(canAllocate: bool, ghost buffers: set<ArrayBuffer>, ghost all: set<ArrayBufferView>)
      returns (ok: bool, result: Option<Bytes>)
      requires Consistent(buffers, all) && this in buffers
      modifies this, views`buffer, views`byteOffset, views`prevView, views`nextView
      ensures Consistent(buffers, all)
      ensures forall b :: b in buffers && b != this ==> unchanged(b) && unchanged(b.views)
      ensures ok <==> old(data).Some? && (canAllocate || AllNeuterable(old(views)))
      ensures !ok ==> result == None && unchanged(this) && unchanged(old(views))
      ensures ok ==> result == old(data) && neutered && views == []
      ensures ok ==> data == if AllNeuterable(old(views)) then None else old(data)
      ensures ok ==> forall v :: v in old(views) ==>
                Detached(v) && v.byteOffset == if v.neuterable then 0 else old(v.byteOffset)
    {
      ok, result := Transfer(canAllocate);
      forall b | b in buffers && b != this
        ensures b.Valid() && unchanged(b) && unchanged(b.views)
      {
        assert old(b.Valid());
        StillValid(b);
      }
      forall v | v in all
        ensures Placed(v, buffers)
      {
        assert old(Placed(v, buffers));
      }
    }

    ghost function IndexOf(view: ArrayBufferView): (k: nat)
      reads this
      ensures if view in views then k < |views| && views[k] == view else k == |views|
    {
      if view in views then
        var k :| 0 <= k < |views| && views[k] == view;
        k
      else |views|
    }
  }

  /**
    What holds of all buffers and all views together: the lists of the buffers are sound and hold such views only,
    and a view that has a buffer is in the list of that buffer, or in none after a transfer.
  */
  ghost predicate Consistent(buffers: set<ArrayBuffer>, all: set<ArrayBufferView>)
    reads buffers, all
  {
    && (forall b :: b in buffers ==> Holds(b, all) && b.Valid())
    && (forall v :: v in all ==> Placed(v, buffers))
  }

  ghost predicate Holds(b: ArrayBuffer, all: set<ArrayBufferView>)
    reads b
  {
    forall v :: v in b.views ==> v in all
  }

  ghost predicate Placed(v: ArrayBufferView, buffers: set<ArrayBuffer>)
    reads v, buffers
  {
    v.buffer != null ==> v.buffer in buffers && (v in v.buffer.views || v.Unlinked())
  }

  ghost function ListOf(b: ArrayBuffer?): (s: seq<ArrayBufferView>)
    reads b
  {
    if b == null then [] else b.views
  }

  twostate lemma StillValid(b: ArrayBuffer)
    requires old(b.Valid())
    requires unchanged(b)
    requires forall v :: v in b.views ==> unchanged(v)
    ensures b.Valid()
  {
    forall i | 0 <= i < |b.views|
      ensures b.views[i].prevView == At(b.views, i - 1) && b.views[i].nextView == At(b.views, i + 1)
    {
      assert b.views[i] in b.views && old(b.views[i].prevView) == At(b.views, i - 1);
    }
  }

  /** The destructor of a view: also for one that outlived a transfer, on which it changes nothing. */
  method DestroyView(view: ArrayBufferView, ghost buffers: set<ArrayBuffer>, ghost all: set<ArrayBufferView>)
    requires Consistent(buffers, all) && view in all
    modifies view`prevView, view`nextView, view.buffer, ListOf(view.buffer)`prevView, ListOf(view.buffer)`nextView
    ensures Consistent(buffers, all - {view}) && view.buffer == old(view.buffer)
    ensures var b := view.buffer; b != null ==>
              && b.Valid() && view !in b.views && b.data == old(b.data)
              && (view !in old(b.views) ==> b.views == old(b.views))
              && forall k :: 0 <= k < |old(b.views)| && old(b.views)[k] == view ==> b.views == Dropped(old(b.views), k)
  {
    if view.buffer != null {
      view.buffer.RemoveView(view);
      forall b | b in buffers && b != view.buffer
        ensures b.Valid() && view !in b.views
      {
        assert old(b.Valid()) && old(view.buffer.Valid());
        StillValid(b);
      }
      forall v | v in all
        ensures Placed(v, buffers)
      {
        assert old(Placed(v, buffers));
      }
    }
  }
}

/** Contexts and observers as objects that update each other. */
module LifecycleObjects {
  import opened Sequences

  /** Sets and references agree for the observers and contexts that exist. */
  ghost predicate Agree(os: set<Observer>, ns: set<Notifier>)
    reads os`context, ns`observers
  {
    && (forall o, n :: o in os && n in ns ==> (o in n.observers <==> o.context == n))
    && (forall n :: n in ns ==> n.observers <= os)
    && (forall o :: o in os && o.context != null ==> o.context in ns)
  }

  class Observer {
    var context: Notifier?

    constructor ()
      ensures context == null
    {
      context := null;
    }

    method SetContext(to: Notifier?, ghost os: set<Observer>, ghost ns: set<Notifier>)
      requires Agree(os, ns) && this in os && (to != null ==> to in ns && !to.iterating)
      modifies this`context, ns`observers
      ensures Agree(os, ns) && context == to
      ensures forall n :: n in ns ==>
                n.observers == if n == to then old(n.observers) + {this} else old(n.observers) - {this}
    {
      if context != null {
        context.RemoveObserver(this);
      }
      context := to;
      if context != null {
        context.AddObserver(this);
      }
    }

    /** Also what the destructor does. */
    method Dispose(ghost os: set<Observer>, ghost ns: set<Notifier>)
      requires Agree(os, ns) && this in os
      modifies this`context, ns`observers
      ensures Agree(os, ns) && context == null
      ensures forall n :: n in ns ==> n.observers == old(n.observers) - {this}
    {
      SetContext(null, os, ns);
    }
  }

  /** What a callback does to an observer. */
  datatype Move = Move(observer: Observer, context: Notifier?)

  /** The observers that a callback moves. */
  ghost function Moved(moves: seq<Move>): (r: set<Observer>) {
    set m | m in moves :: m.observer
  }

  /** The observers that some of the callbacks move. */
  ghost function MovedByCalls(calls: seq<Observer>, script: Observer -> seq<Move>): (r: set<Observer>) {
    if calls == [] then {} else MovedByCalls(calls[..|calls| - 1], script) + Moved(script(calls[|calls| - 1]))
  }

  lemma MovedByOneMore(calls: seq<Observer>, o: Observer, script: Observer -> seq<Move>)
    ensures MovedByCalls(calls + [o], script) == MovedByCalls(calls, script) + Moved(script(o))
  {
    assert (calls + [o])[..|calls|] == calls;
  }

  /** Calls of observers of a set, none repeated and none made after a callback moved its observer away. */
  ghost predicate InTime(calls: seq<Observer>, script: Observer -> seq<Move>, start: set<Observer>) {
    && NoDuplicates(calls)
    && forall k :: 0 <= k < |calls| ==> calls[k] in start && calls[k] !in MovedByCalls(calls[..k], script)
  }

  lemma OneMoreInTime(calls: seq<Observer>, script: Observer -> seq<Move>, start: set<Observer>, o: Observer)
    requires InTime(calls, script, start) && o !in calls && o in start && o !in MovedByCalls(calls, script)
    ensures InTime(calls + [o], script, start)
  {
    var all := calls + [o];
    assert forall k :: 0 <= k < |calls| ==> all[..k] == calls[..k];
    assert all[..|calls|] == calls;
  }

  lemma Prefix(s: seq<Observer>, i: nat)
    requires i < |s| && NoDuplicates(s)
    ensures s[..i + 1] == s[..i] + [s[i]] && s[i] !in s[..i]
  {
  }

  /** Each of some observers was called, or moved away by a callback. */
  ghost predicate Accounted(some: seq<Observer>, calls: seq<Observer>, script: Observer -> seq<Move>) {
    forall o :: o in some ==> o in calls || o in MovedByCalls(calls, script)
  }

  class Notifier {
    var observers: set<Observer>
    var iterating: bool
    var didCallContextDestroyed: bool

    constructor ()
      ensures observers == {} && !iterating && !didCallContextDestroyed
    {
      observers, iterating, didCallContextDestroyed := {}, false, false;
    }

    method AddObserver(o: Observer)
      requires !iterating
      modifies this`observers
      ensures observers == old(observers) + {o}
    {
      observers := observers + {o};
    }

    method RemoveObserver(o: Observer)
      modifies this`observers
      ensures observers == old(observers) - {o}
    {
      observers := observers - {o};
    }

    /** The destructor: afterwards the other contexts agree with the observers. */
    method Destroy(ghost os: set<Observer>, ghost ns: set<Notifier>)
      requires Agree(os, ns) && this in ns
      modifies os`context, this`iterating
      ensures Agree(os, ns - {this})
      ensures forall o :: o in os ==> o.context == if old(o.context) == this then null else old(o.context)
    {
      iterating := true;
      var rest := observers;
      while rest != {}
        invariant rest <= observers
        invariant forall o :: o in os ==>
                    o.context == if old(o.context) == this && o !in rest then null else old(o.context)
        decreases rest
      {
        var o :| o in rest;
        assert o.context == this;
        o.context := null;
        rest := rest - {o};
      }
    }

    /** copyToVector: the observers in some order. */
    method Snapshot() returns (snapshot: seq<Observer>)
      ensures NoDuplicates(snapshot) && forall o :: o in snapshot <==> o in observers
    {
      snapshot := [];
      var rest := observers;
      while rest != {}
        invariant rest <= observers && NoDuplicates(snapshot)
        invariant forall o :: o in snapshot <==> o in observers && o !in rest
        decreases rest
      {
        var o :| o in rest;
        snapshot := snapshot + [o];
        rest := rest - {o};
      }
    }

    /** What the code of a callback may do: dispose of observers or give them contexts other than this one. */
    ghost predicate Permits(moves: seq<Move>, os: set<Observer>, ns: set<Notifier>)
      reads ns`iterating
    {
      forall m :: m in moves ==>
        m.observer in os && (m.context != null ==> m.context in ns && m.context != this && !m.context.iterating)
    }

    /** A callback, made of its moves; it is called on an observer that is registered here. */
    method ContextDestroyed(observer: Observer, moves: seq<Move>, ghost os: set<Observer>, ghost ns: set<Notifier>)
      requires Agree(os, ns) && this in ns && Permits(moves, os, ns)
      requires observer in observers && observer.context == this
      modifies os`context, ns`observers
      ensures Agree(os, ns) && observers == old(observers) - Moved(moves)
    {
      assert moves[..0] == [];
      for i := 0 to |moves|
        invariant Agree(os, ns) && observers == old(observers) - Moved(moves[..i])
      {
        assert moves[..i + 1] == moves[..i] + [moves[i]];
        moves[i].observer.SetContext(moves[i].context, os, ns);
      }
      assert moves[..|moves|] == moves;
    }

    /** The loop over the snapshot. */
    method CallEach(snapshot: seq<Observer>, script: Observer -> seq<Move>,
                    ghost os: set<Observer>, ghost ns: set<Notifier>)
      returns (calls: seq<Observer>)
      requires Agree(os, ns) && this in ns && forall o :: o in os ==> Permits(script(o), os, ns)
      requires NoDuplicates(snapshot) && forall o :: o in snapshot <==> o in observers
      modifies os`context, ns`observers
      ensures Agree(os, ns) && InTime(calls, script, old(observers)) && Accounted(snapshot, calls, script)
      ensures observers == old(observers) - MovedByCalls(calls, script)
    {
      calls := [];
      for i := 0 to |snapshot|
        invariant Agree(os, ns) && observers == old(observers) - MovedByCalls(calls, script)
        invariant InTime(calls, script, old(observers)) && forall o :: o in calls ==> o in snapshot[..i]
        invariant Accounted(snapshot[..i], calls, script)
      {
        hide InTime, Moved, NoDuplicates;
        var observer := snapshot[i];
        Prefix(snapshot, i);
        if observer in observers {
          MovedByOneMore(calls, observer, script);
          OneMoreInTime(calls, script, old(observers), observer);
          calls := calls + [observer];
          ContextDestroyed(observer, script(observer), os, ns);
        }
      }
      assert snapshot[..|snapshot|] == snapshot;
    }

    /**
      Only observers that are still registered are called: each call is made before any callback has moved its
      observer away, and none is repeated. An observer is passed over only if a callback moved it away.
    */
    method NotifyContextDestroyed(script: Observer -> seq<Move>, ghost os: set<Observer>, ghost ns: set<Notifier>)
      returns (calls: seq<Observer>)
      requires Agree(os, ns) && this in ns && !iterating
      requires forall o :: o in os ==> Permits(script(o), os, ns)
      modifies os`context, ns`observers, this
      ensures Agree(os, ns) && !iterating && didCallContextDestroyed
      ensures old(didCallContextDestroyed) ==> calls == [] && observers == old(observers)
      ensures InTime(calls, script, old(observers))
      ensures !old(didCallContextDestroyed) ==>
                forall o :: o in old(observers) ==> o in calls || o in MovedByCalls(calls, script)
      ensures !old(didCallContextDestroyed) ==> observers == old(observers) - MovedByCalls(calls, script)
    {
      if didCallContextDestroyed {
        return [];
      }
      iterating := true;
      var snapshot := Snapshot();
      calls := CallEach(snapshot, script, os, ns);
      iterating := false;
      didCallContextDestroyed := true;
    }
  }
}

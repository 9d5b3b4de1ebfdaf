/**
  LifecycleNotifier and LifecycleObserver: an observer points to the context it watches, and the context keeps
  the set of its observers. Many contexts and observers share one state here.
*/
module Lifecycle {
  import opened Text
  import opened Sequences

  type Id = nat

  /** Contexts that exist are the keys of observers; observers that exist are the keys of contextOf. */
  datatype State = State(contextOf: map<Id, Option<Id>>, observers: map<Id, set<Id>>,
                         iterating: set<Id>, notified: set<Id>)

  /** The reference and the set always tell the same. */
  predicate Consistent(s: State) {
    && (forall o, n :: n in s.observers && o in s.observers[n] ==> o in s.contextOf && s.contextOf[o] == Some(n))
    && (forall o :: o in s.contextOf && s.contextOf[o].Some? ==>
          s.contextOf[o].value in s.observers && o in s.observers[s.contextOf[o].value])
  }

  function RemoveObserver(s: State, o: Id, n: Id): (r: State)
    requires n in s.observers
  {
    s.(observers := s.observers[n := s.observers[n] - {o}])
  }

  function AddObserver(s: State, o: Id, n: Id): (r: State)
    requires n in s.observers
  {
    s.(observers := s.observers[n := s.observers[n] + {o}])
  }

  /** The release assertion in addObserver: no context gains an observer while it iterates over them. */
  predicate CanSet(s: State, o: Id, context: Option<Id>) {
    o in s.contextOf && (context.Some? ==> context.value in s.observers && context.value !in s.iterating)
  }

  function SetContext(s: State, o: Id, context: Option<Id>): (r: State)
    requires Consistent(s) && CanSet(s, o, context)
  {
    var removed := if s.contextOf[o].Some? then RemoveObserver(s, o, s.contextOf[o].value) else s;
    var moved := removed.(contextOf := removed.contextOf[o := context]);
    if context.Some? then AddObserver(moved, o, context.value) else moved
  }

  lemma SetContextKeeps(s: State, o: Id, context: Option<Id>)
    requires Consistent(s) && CanSet(s, o, context)
    ensures Consistent(SetContext(s, o, context))
    ensures SetContext(s, o, context).contextOf == s.contextOf[o := context]
    ensures SetContext(s, o, context).observers.Keys == s.observers.Keys
  {
  }

  /** The destructor of a context clears the references of the observers it still has. */
  function DestroyContext(s: State, n: Id): (r: State)
    requires n in s.observers
  {
    s.(contextOf := map o | o in s.contextOf :: if o in s.observers[n] then None else s.contextOf[o],
       observers := s.observers - {n})
  }

  lemma DestroyContextKeeps(s: State, n: Id)
    requires Consistent(s) && n in s.observers
    ensures Consistent(DestroyContext(s, n))
    ensures forall o :: o in s.contextOf ==> DestroyContext(s, n).contextOf[o] != Some(n)
  {
  }

  /** The destructor of an observer disposes of it first. */
  function DestroyObserver(s: State, o: Id): (r: State)
    requires Consistent(s) && CanSet(s, o, None)
  {
    var disposed := SetContext(s, o, None);
    disposed.(contextOf := disposed.contextOf - {o})
  }

  lemma DestroyObserverKeeps(s: State, o: Id)
    requires Consistent(s) && CanSet(s, o, None)
    ensures Consistent(DestroyObserver(s, o))
  {
    SetContextKeeps(s, o, None);
  }

  // ----- notification

  /** What a callback does to an observer: it disposes of it or gives it another context. */
  datatype Move = Move(observer: Id, context: Option<Id>)

  predicate CanMove(s: State, moves: seq<Move>)
    requires Consistent(s)
    decreases moves
  {
    moves == [] ||
    (&& CanSet(s, moves[0].observer, moves[0].context)
     && (SetContextKeeps(s, moves[0].observer, moves[0].context);
         CanMove(SetContext(s, moves[0].observer, moves[0].context), moves[1..])))
  }

  function MoveAll(s: State, moves: seq<Move>): (r: State)
    requires Consistent(s) && CanMove(s, moves)
    ensures Consistent(r) && r.iterating == s.iterating && r.notified == s.notified
    ensures r.observers.Keys == s.observers.Keys && r.contextOf.Keys == s.contextOf.Keys
    decreases moves
  {
    if moves == [] then s
    else
      SetContextKeeps(s, moves[0].observer, moves[0].context);
      MoveAll(SetContext(s, moves[0].observer, moves[0].context), moves[1..])
  }

  /** The observers that a callback moves. */
  function Moved(moves: seq<Move>): (r: set<Id>) {
    set m | m in moves :: m.observer
  }

  lemma MovedSplit(moves: seq<Move>)
    requires moves != []
    ensures Moved(moves) == {moves[0].observer} + Moved(moves[1..])
  {
    assert moves == [moves[0]] + moves[1..];
  }

  lemma SetTakesAway(s: State, o: Id, context: Option<Id>, n: Id)
    requires Consistent(s) && CanSet(s, o, context) && n in s.observers && context != Some(n)
    ensures n in SetContext(s, o, context).observers
    ensures SetContext(s, o, context).observers[n] == s.observers[n] - {o}
    ensures SetContext(s, o, context).iterating == s.iterating
  {
  }

  /** A context that iterates loses exactly the observers that a callback moves, and gains none. */
  lemma {:induction false} MovesTakeAway(s: State, moves: seq<Move>, n: Id)
    requires Consistent(s) && CanMove(s, moves) && n in s.iterating && n in s.observers
    ensures MoveAll(s, moves).observers[n] == s.observers[n] - Moved(moves)
    decreases moves
  {
    hide Consistent, SetContext, Moved;
    if moves == [] {
      NothingMoved();
    } else {
      var o, context := moves[0].observer, moves[0].context;
      SetContextKeeps(s, o, context);
      SetTakesAway(s, o, context, n);
      MovedSplit(moves);
      MovesTakeAway(SetContext(s, o, context), moves[1..], n);
    }
  }

  lemma NothingMoved()
    ensures Moved([]) == {}
  {
  }

  /** A call of contextDestroyed, and the state in which it is made. */
  datatype Call = Call(observer: Id, at: State)

  /** The calls made, and the state after them. */
  datatype Notified = Notified(calls: seq<Call>, state: State)

  /** The loop over the snapshot; a script says what the callback of each observer does. */
  ghost function NotifyLoop(s: State, n: Id, snapshot: seq<Id>, script: Id -> seq<Move>): (r: Notified)
    requires Consistent(s) && n in s.observers && CanNotify(s, n, snapshot, script)
    decreases snapshot
  {
    if snapshot == [] then Notified([], s)
    else if snapshot[0] in s.observers[n] then
      var rest := NotifyLoop(MoveAll(s, script(snapshot[0])), n, snapshot[1..], script);
      rest.(calls := [Call(snapshot[0], s)] + rest.calls)
    else NotifyLoop(s, n, snapshot[1..], script)
  }

  /** Every callback that runs keeps to the rules for setContext. */
  ghost predicate CanNotify(s: State, n: Id, snapshot: seq<Id>, script: Id -> seq<Move>)
    requires Consistent(s) && n in s.observers
    decreases snapshot
  {
    snapshot == [] ||
    if snapshot[0] in s.observers[n] then
      CanMove(s, script(snapshot[0])) && CanNotify(MoveAll(s, script(snapshot[0])), n, snapshot[1..], script)
    else CanNotify(s, n, snapshot[1..], script)
  }

  // ----- what the calls have in common

  /** The observer is called while the context has it, and its reference is the context: the assertion in the loop. */
  predicate Registered(c: Call, n: Id) {
    && n in c.at.observers && c.observer in c.at.observers[n]
    && c.observer in c.at.contextOf && c.at.contextOf[c.observer] == Some(n)
  }

  /** The calls follow one another: each is made in the state that the callback before it left. */
  ghost predicate Follow(s: State, calls: seq<Call>, script: Id -> seq<Move>, end: State)
    requires Consistent(s)
    decreases calls
  {
    if calls == [] then s == end
    else
      && calls[0].at == s && CanMove(s, script(calls[0].observer))
      && Follow(MoveAll(s, script(calls[0].observer)), calls[1..], script, end)
  }

  /** No observer is called twice, and none after an earlier callback moved it away. */
  predicate CalledInTime(calls: seq<Call>, script: Id -> seq<Move>) {
    forall j, k :: 0 <= j < k < |calls| ==>
      calls[j].observer != calls[k].observer && calls[k].observer !in Moved(script(calls[j].observer))
  }

  predicate IsCalled(o: Id, calls: seq<Call>) {
    exists k :: 0 <= k < |calls| && calls[k].observer == o
  }

  predicate MovedByCall(o: Id, calls: seq<Call>, script: Id -> seq<Move>) {
    exists k :: 0 <= k < |calls| && o in Moved(script(calls[k].observer))
  }

  lemma ConsCalls(c: Call, calls: seq<Call>, script: Id -> seq<Move>, o: Id)
    ensures IsCalled(o, [c] + calls) <==> c.observer == o || IsCalled(o, calls)
    ensures MovedByCall(o, [c] + calls, script) <==> o in Moved(script(c.observer)) || MovedByCall(o, calls, script)
  {
    var all := [c] + calls;
    assert all[0] == c;
    assert forall k :: 0 <= k < |calls| ==> all[k + 1] == calls[k];
  }

  /** What the loop promises of its calls, on a snapshot of which some observers may be gone already. */
  ghost predicate CallsPromise(s: State, n: Id, snapshot: seq<Id>, script: Id -> seq<Move>, r: Notified)
    requires Consistent(s)
  {
    && (forall k :: 0 <= k < |r.calls| ==> Registered(r.calls[k], n))
    && (forall o :: IsCalled(o, r.calls) ==> o in snapshot && o in Watching(s, n))
    && CalledInTime(r.calls, script)
    && Follow(s, r.calls, script, r.state)
  }

  function Watching(s: State, n: Id): (r: set<Id>) {
    if n in s.observers then s.observers[n] else {}
  }

  /** What it promises of the observers of the context. */
  ghost predicate ObserversPromise(s: State, n: Id, snapshot: seq<Id>, script: Id -> seq<Move>, r: Notified) {
    && Consistent(r.state) && n in r.state.observers
    && r.state.iterating == s.iterating && r.state.notified == s.notified
    && (forall o :: o in Watching(r.state, n) <==> o in Watching(s, n) && !MovedByCall(o, r.calls, script))
    && (forall o :: o in snapshot && o in Watching(s, n) ==> IsCalled(o, r.calls) || MovedByCall(o, r.calls, script))
  }

  lemma {:induction false} NotifyLoopCalls(s: State, n: Id, snapshot: seq<Id>, script: Id -> seq<Move>)
    requires Consistent(s) && n in s.observers && n in s.iterating
    requires CanNotify(s, n, snapshot, script) && NoDuplicates(snapshot)
    ensures CallsPromise(s, n, snapshot, script, NotifyLoop(s, n, snapshot, script))
    ensures ObserversPromise(s, n, snapshot, script, NotifyLoop(s, n, snapshot, script))
    decreases snapshot
  {
    if snapshot != [] {
      var o := snapshot[0];
      assert o !in snapshot[1..];
      if o in s.observers[n] {
        MovesTakeAway(s, script(o), n);
        NotifyLoopCalls(MoveAll(s, script(o)), n, snapshot[1..], script);
        var rest := NotifyLoop(MoveAll(s, script(o)), n, snapshot[1..], script);
        OneMoreCall(s, n, snapshot, script, MoveAll(s, script(o)), rest);
        OneMoreMove(s, n, snapshot, script, MoveAll(s, script(o)), rest);
      } else {
        NotifyLoopCalls(s, n, snapshot[1..], script);
      }
    }
  }

  lemma RegisteredNow(s: State, n: Id, o: Id)
    requires Consistent(s) && o in Watching(s, n)
    ensures Registered(Call(o, s), n)
  {
  }

  lemma OneMoreCall(s: State, n: Id, snapshot: seq<Id>, script: Id -> seq<Move>, t: State, rest: Notified)
    requires Consistent(s) && NoDuplicates(snapshot)
    requires snapshot != [] && snapshot[0] in Watching(s, n) && CanMove(s, script(snapshot[0]))
    requires t == MoveAll(s, script(snapshot[0])) && Watching(t, n) == Watching(s, n) - Moved(script(snapshot[0]))
    requires CallsPromise(t, n, snapshot[1..], script, rest)
    ensures CallsPromise(s, n, snapshot, script, rest.(calls := [Call(snapshot[0], s)] + rest.calls))
  {
    hide Moved, MoveAll, Consistent, Registered;
    var c := Call(snapshot[0], s);
    var calls := [c] + rest.calls;
    RegisteredNow(s, n, snapshot[0]);
    assert calls[1..] == rest.calls;
    forall o
      ensures IsCalled(o, calls) <==> c.observer == o || IsCalled(o, rest.calls)
    {
      ConsCalls(c, rest.calls, script, o);
    }
    forall j, k | 0 <= j < k < |calls|
      ensures calls[j].observer != calls[k].observer && calls[k].observer !in Moved(script(calls[j].observer))
    {
      assert calls[k] == rest.calls[k - 1] && IsCalled(calls[k].observer, rest.calls);
    }
  }

  lemma OneMoreMove(s: State, n: Id, snapshot: seq<Id>, script: Id -> seq<Move>, t: State, rest: Notified)
    requires snapshot != [] && t.iterating == s.iterating && t.notified == s.notified
    requires Watching(t, n) == Watching(s, n) - Moved(script(snapshot[0]))
    requires ObserversPromise(t, n, snapshot[1..], script, rest)
    ensures ObserversPromise(s, n, snapshot, script, rest.(calls := [Call(snapshot[0], s)] + rest.calls))
  {
    hide Moved, Consistent, IsCalled, MovedByCall;
    var c := Call(snapshot[0], s);
    var calls := [c] + rest.calls;
    forall o
      ensures IsCalled(o, calls) <==> c.observer == o || IsCalled(o, rest.calls)
      ensures MovedByCall(o, calls, script) <==> o in Moved(script(c.observer)) || MovedByCall(o, rest.calls, script)
    {
      ConsCalls(c, rest.calls, script, o);
    }
  }

  // ----- a whole notification

  /** notifyContextDestroyed, once and for all. */
  ghost function Notify(s: State, n: Id, snapshot: seq<Id>, script: Id -> seq<Move>): (r: Notified)
    requires Consistent(s) && n in s.observers && n !in s.iterating
    requires CanNotify(s.(iterating := s.iterating + {n}), n, snapshot, script)
  {
    if n in s.notified then Notified([], s)
    else
      var r := NotifyLoop(s.(iterating := s.iterating + {n}), n, snapshot, script);
      r.(state := r.state.(iterating := s.iterating, notified := r.state.notified + {n}))
  }

  /** What is iterated over or was notified plays no part in consistency. */
  lemma ConsistentApart(s: State, t: State)
    requires Consistent(s) && s.contextOf == t.contextOf && s.observers == t.observers
    ensures Consistent(t)
  {
  }

  /**
    The first notification calls observers only while they are registered with the context, none twice and none
    after a callback moved it away; it passes over an observer only if an earlier callback moved it away; and the
    observers left are those that no callback moved. Later notifications call nobody.
  */
  lemma NotifyCalls(s: State, n: Id, snapshot: seq<Id>, script: Id -> seq<Move>)
    requires Consistent(s) && n in s.observers && n !in s.iterating
    requires CanNotify(s.(iterating := s.iterating + {n}), n, snapshot, script)
    requires NoDuplicates(snapshot) && forall o :: o in snapshot <==> o in s.observers[n]
    ensures var r := Notify(s, n, snapshot, script);
            && Consistent(r.state) && n in r.state.observers
            && (forall k :: 0 <= k < |r.calls| ==> Registered(r.calls[k], n))
            && CalledInTime(r.calls, script)
            && (n in s.notified ==> r == Notified([], s))
            && (n !in s.notified ==>
                  && n in r.state.notified
                  && (forall o :: o in s.observers[n] ==> IsCalled(o, r.calls) || MovedByCall(o, r.calls, script))
                  && (forall o :: o in r.state.observers[n] <==>
                        o in s.observers[n] && !MovedByCall(o, r.calls, script)))
  {
    assert CalledInTime([], script);
    hide Consistent, CanNotify, NotifyLoop, Registered, CalledInTime, IsCalled, MovedByCall, NoDuplicates;
    var start := s.(iterating := s.iterating + {n});
    ConsistentApart(s, start);
    if n !in s.notified {
      NotifyLoopCalls(start, n, snapshot, script);
      var r := NotifyLoop(start, n, snapshot, script);
      ConsistentApart(r.state, Notify(s, n, snapshot, script).state);
      forall o | o in s.observers[n]
        ensures IsCalled(o, r.calls) || MovedByCall(o, r.calls, script)
      {
        assert o in snapshot && o in Watching(start, n);
      }
      assert Watching(r.state, n) == r.state.observers[n];
    }
  }

  /** The states recorded with the calls are those that the loop goes through, from the first to the last. */
  lemma CalledWhileRegistered(s: State, n: Id, snapshot: seq<Id>, script: Id -> seq<Move>)
    requires Consistent(s) && n in s.observers && n !in s.iterating && n !in s.notified
    requires CanNotify(s.(iterating := s.iterating + {n}), n, snapshot, script) && NoDuplicates(snapshot)
    ensures var start, r := s.(iterating := s.iterating + {n}), Notify(s, n, snapshot, script);
            && Follow(start, r.calls, script, r.state.(iterating := start.iterating, notified := s.notified))
            && (forall k :: 0 <= k < |r.calls| ==> Registered(r.calls[k], n))
  {
    var start := s.(iterating := s.iterating + {n});
    assert Consistent(start);
    hide Consistent, CanNotify, NotifyLoop, Registered, Follow, NoDuplicates;
    NotifyLoopCalls(start, n, snapshot, script);
    var r := NotifyLoop(start, n, snapshot, script);
    var state := Notify(s, n, snapshot, script).state;
    assert state.(iterating := r.state.iterating, notified := r.state.notified) == r.state;
  }

  // ----- whole runs

  datatype Event =
    | NewContext(n: Id)
    | NewObserver(o: Id)
    | Set(o: Id, context: Option<Id>)
    | EndObserver(o: Id)
    | EndContext(n: Id)
    | Tell(n: Id, snapshot: seq<Id>, script: Id -> seq<Move>)

  ghost predicate Enabled(s: State, e: Event)
    requires Consistent(s)
  {
    match e
    case NewContext(n) => n !in s.observers && n !in s.notified
    case NewObserver(o) => o !in s.contextOf
    case Set(o, context) => CanSet(s, o, context)
    case EndObserver(o) => o in s.contextOf
    case EndContext(n) => n in s.observers
    case Tell(n, snapshot, script) =>
      && n in s.observers && n !in s.iterating && NoDuplicates(snapshot)
      && (forall o :: o in snapshot <==> o in s.observers[n])
      && CanNotify(s.(iterating := s.iterating + {n}), n, snapshot, script)
  }

  ghost function Next(s: State, e: Event): (r: State)
    requires Consistent(s) && Enabled(s, e)
    ensures Consistent(r)
  {
    match e
    case NewContext(n) => s.(observers := s.observers[n := {}])
    case NewObserver(o) => s.(contextOf := s.contextOf[o := None])
    case Set(o, context) => SetContextKeeps(s, o, context); SetContext(s, o, context)
    case EndObserver(o) => DestroyObserverKeeps(s, o); DestroyObserver(s, o)
    case EndContext(n) => DestroyContextKeeps(s, n); DestroyContext(s, n)
    case Tell(n, snapshot, script) => NotifyCalls(s, n, snapshot, script); Notify(s, n, snapshot, script).state
  }

  ghost predicate Legal(s: State, events: seq<Event>)
    requires Consistent(s)
    decreases |events|
  {
    |events| == 0 || (Enabled(s, events[0]) && Legal(Next(s, events[0]), events[1..]))
  }

  ghost function Run(s: State, events: seq<Event>): (r: State)
    requires Consistent(s) && Legal(s, events)
    ensures Consistent(r)
    decreases |events|
  {
    if |events| == 0 then s else Run(Next(s, events[0]), events[1..])
  }

  const EMPTY: State := State(map[], map[], {}, {})

  /** After any run, an observer is in the set of a context that exists exactly when its reference is that context. */
  lemma RegisteredIffPointed(events: seq<Event>, o: Id, n: Id)
    requires Legal(EMPTY, events)
    ensures var s := Run(EMPTY, events);
            n in s.observers ==> (o in s.observers[n] <==> o in s.contextOf && s.contextOf[o] == Some(n))
    ensures var s := Run(EMPTY, events);
            o in s.contextOf && s.contextOf[o].Some? ==> s.contextOf[o].value in s.observers
  {
    var s := Run(EMPTY, events);
    assert Consistent(s);
  }
}

/**
  RemoteDebuggingServer and V8Inspector: the IO thread accepts connections and posts tasks;
  the main thread runs them later, in order. The states and steps here cover both threads,
  and a run is any interleaving of their steps.
*/
module Handoff {
  import opened Text

  const NO_CONNECTION: int := -1

  datatype Task = HandleConnect(id: int) | HandleMessage(id: int, data: Text) | HandleDisconnect(id: int)

  /** A message of a client, with the session it belongs to; sessions are numbered from one. */
  datatype Received = Received(session: nat, data: Text)

  /** A message for a client, with the session in which an agent produced it. */
  datatype Response = Response(session: nat, message: Text)

  /** A response that went out, with the connection and the session it went to. */
  datatype Delivery = Delivery(connection: int, session: nat, response: Response)

  /**
    The IO side: the open connection, how many were opened, the messages that came while one was open,
    and what was sent. The main side: the frontend and its dispatcher, how many were connected, and
    the messages that were dispatched. Between them, one queue each way.
  */
  datatype State = State(
    connectionId: int, openings: nat, accepted: seq<Received>, deliveries: seq<Delivery>,
    mainQueue: seq<Task>, ioQueue: seq<Response>,
    frontend: bool, dispatcher: bool, connected: nat, dispatched: seq<Received>)

  datatype Event =
    | OnWebSocketRequest(id: int)
    | OnWebSocketMessage(id: int, data: Text)
    | OnClose(id: int)
    | RunMainTask
    | SerializeAndSend(message: Text)
    | RunIoTask

  const INITIAL: State := State(NO_CONNECTION, 0, [], [], [], [], false, false, 0, [])

  /** When an event can happen; a request while a connection is open breaks the server's own assertion. */
  predicate Enabled(s: State, e: Event) {
    match e
    case OnWebSocketRequest(id) => s.connectionId == NO_CONNECTION && id != NO_CONNECTION
    case OnWebSocketMessage(_, _) => true
    case OnClose(_) => true
    case RunMainTask => s.mainQueue != []
    case SerializeAndSend(_) => s.frontend
    case RunIoTask => s.ioQueue != []
  }

  function ConnectFrontend(s: State): (r: State) {
    s.(frontend := true, dispatcher := true, connected := s.connected + 1)
  }

  function DisconnectFrontend(s: State): (r: State) {
    if s.frontend then s.(frontend := false, dispatcher := false) else s
  }

  function DispatchMessage(s: State, data: Text): (r: State) {
    if s.dispatcher then s.(dispatched := s.dispatched + [Received(s.connected, data)]) else s
  }

  function RunTask(s: State, task: Task): (r: State) {
    match task
    case HandleConnect(_) => ConnectFrontend(s)
    case HandleMessage(_, data) => DispatchMessage(s, data)
    case HandleDisconnect(_) => DisconnectFrontend(s)
  }

  /** sendMessageToClient: to whatever connection is open now. */
  function SendMessage(s: State, response: Response): (r: State) {
    if s.connectionId == NO_CONNECTION then s
    else s.(deliveries := s.deliveries + [Delivery(s.connectionId, s.openings, response)])
  }

  function Accept(s: State, data: Text): (r: seq<Received>) {
    if s.connectionId == NO_CONNECTION then s.accepted else s.accepted + [Received(s.openings, data)]
  }

  function Next(s: State, e: Event): (r: State)
    requires Enabled(s, e)
  {
    match e
    case OnWebSocketRequest(id) =>
      s.(connectionId := id, openings := s.openings + 1, mainQueue := s.mainQueue + [HandleConnect(id)])
    case OnWebSocketMessage(id, data) =>
      s.(accepted := Accept(s, data), mainQueue := s.mainQueue + [HandleMessage(id, data)])
    case OnClose(id) =>
      s.(connectionId := NO_CONNECTION, mainQueue := s.mainQueue + [HandleDisconnect(id)])
    case RunMainTask =>
      RunTask(s.(mainQueue := s.mainQueue[1..]), s.mainQueue[0])
    case SerializeAndSend(message) =>
      s.(ioQueue := s.ioQueue + [Response(s.connected, message)])
    case RunIoTask =>
      SendMessage(s.(ioQueue := s.ioQueue[1..]), s.ioQueue[0])
  }

  ghost predicate Legal(s: State, events: seq<Event>)
    decreases events
  {
    events == [] || (Enabled(s, events[0]) && Legal(Next(s, events[0]), events[1..]))
  }

  ghost function Run(s: State, events: seq<Event>): (r: State)
    requires Legal(s, events)
    decreases events
  {
    if events == [] then s else Run(Next(s, events[0]), events[1..])
  }

  // ----- what draining the main queue would do

  /** The main side after running every task that is waiting. */
  function Drain(s: State, tasks: seq<Task>): (r: State)
    decreases tasks
  {
    if tasks == [] then s else Drain(RunTask(s, tasks[0]), tasks[1..])
  }

  /** Every connect that is waiting will find no frontend, as connectFrontend asserts. */
  predicate AssertsHold(s: State, tasks: seq<Task>)
    decreases tasks
  {
    tasks == [] ||
    (&& (tasks[0].HandleConnect? ==> !s.frontend)
     && AssertsHold(RunTask(s, tasks[0]), tasks[1..]))
  }

  /** Draining reads nothing but the main side. */
  predicate SameMain(a: State, b: State) {
    && a.frontend == b.frontend && a.dispatcher == b.dispatcher && a.connected == b.connected
    && a.dispatched == b.dispatched
  }

  lemma {:induction false} DrainSame(a: State, b: State, tasks: seq<Task>)
    requires SameMain(a, b)
    ensures SameMain(Drain(a, tasks), Drain(b, tasks))
    ensures AssertsHold(a, tasks) == AssertsHold(b, tasks)
    decreases tasks
  {
    if tasks != [] {
      DrainSame(RunTask(a, tasks[0]), RunTask(b, tasks[0]), tasks[1..]);
    }
  }

  lemma {:induction false} DrainSnoc(s: State, tasks: seq<Task>, task: Task)
    ensures Drain(s, tasks + [task]) == RunTask(Drain(s, tasks), task)
    ensures AssertsHold(s, tasks + [task])
        <==> AssertsHold(s, tasks) && (task.HandleConnect? ==> !Drain(s, tasks).frontend)
    decreases tasks
  {
    if tasks == [] {
      assert tasks + [task] == [task];
    } else {
      assert (tasks + [task])[0] == tasks[0] && (tasks + [task])[1..] == tasks[1..] + [task];
      DrainSnoc(RunTask(s, tasks[0]), tasks[1..], task);
    }
  }

  /** Running tasks only adds to the dispatched messages and to the count of connects. */
  lemma {:induction false} DrainGrows(s: State, tasks: seq<Task>)
    ensures s.dispatched <= Drain(s, tasks).dispatched
    ensures s.connected <= Drain(s, tasks).connected
    decreases tasks
  {
    if tasks != [] {
      DrainGrows(RunTask(s, tasks[0]), tasks[1..]);
    }
  }

  // ----- the invariant

  /** The main side, once drained, is where the IO side is now. */
  ghost predicate InStep(s: State) {
    var d := Drain(s, s.mainQueue);
    && d.frontend == (s.connectionId != NO_CONNECTION)
    && d.dispatcher == d.frontend
    && d.connected == s.openings
    && d.dispatched == s.accepted
  }

  ghost predicate Inv(s: State) {
    && s.dispatcher == s.frontend
    && InStep(s)
    && AssertsHold(s, s.mainQueue)
    && s.connected <= s.openings
    && (forall i :: 0 <= i < |s.ioQueue| ==> s.ioQueue[i].session <= s.openings)
    && (forall i :: 0 <= i < |s.deliveries| ==>
          s.deliveries[i].response.session <= s.deliveries[i].session <= s.openings)
  }

  lemma InitialInv()
    ensures Inv(INITIAL)
  {
  }

  /** Posting a task when the drained main side is in step. */
  lemma PostKeeps(s: State, t: State, task: Task)
    requires InStep(s) && AssertsHold(s, s.mainQueue) && SameMain(s, t) && t.mainQueue == s.mainQueue + [task]
    requires task.HandleConnect? ==> s.connectionId == NO_CONNECTION
    ensures SameMain(Drain(t, t.mainQueue), RunTask(Drain(s, s.mainQueue), task)) && AssertsHold(t, t.mainQueue)
  {
    DrainSnoc(s, s.mainQueue, task);
    DrainSame(s, t, t.mainQueue);
  }

  lemma RunMainKeeps(s: State)
    requires Inv(s) && s.mainQueue != []
    ensures Inv(Next(s, RunMainTask))
  {
    var rest := s.(mainQueue := s.mainQueue[1..]);
    var t := RunTask(rest, s.mainQueue[0]);
    assert SameMain(RunTask(s, s.mainQueue[0]), t);
    DrainSame(RunTask(s, s.mainQueue[0]), t, s.mainQueue[1..]);
    DrainGrows(t, t.mainQueue);
  }

  lemma StepKeeps(s: State, e: Event)
    requires Inv(s) && Enabled(s, e)
    ensures Inv(Next(s, e))
  {
    var t := Next(s, e);
    match e
    case OnWebSocketRequest(id) => PostKeeps(s, t, HandleConnect(id));
    case OnWebSocketMessage(id, data) => PostKeeps(s, t, HandleMessage(id, data));
    case OnClose(id) => PostKeeps(s, t, HandleDisconnect(id));
    case RunMainTask => RunMainKeeps(s);
    case SerializeAndSend(_) => DrainSame(s, t, s.mainQueue);
    case RunIoTask => DrainSame(s, t, s.mainQueue);
  }

  lemma {:induction false} RunKeeps(s: State, events: seq<Event>)
    requires Inv(s) && Legal(s, events)
    ensures Inv(Run(s, events))
    decreases events
  {
    if events != [] {
      StepKeeps(s, events[0]);
      RunKeeps(Next(s, events[0]), events[1..]);
    }
  }

  // ----- safety over all interleavings

  /** Once the main queue is drained, the frontend is connected exactly when a connection is open. */
  lemma DrainedIsConnected(events: seq<Event>)
    requires Legal(INITIAL, events)
    ensures var s := Run(INITIAL, events);
            Drain(s, s.mainQueue).frontend == (s.connectionId != NO_CONNECTION)
  {
    InitialInv();
    RunKeeps(INITIAL, events);
  }

  /** The assertion in connectFrontend never fails, whatever the interleaving. */
  lemma ConnectFindsNoFrontend(events: seq<Event>)
    requires Legal(INITIAL, events)
    ensures var s := Run(INITIAL, events);
            s.mainQueue != [] && s.mainQueue[0].HandleConnect? ==> !s.frontend
  {
    InitialInv();
    RunKeeps(INITIAL, events);
  }

  /**
    The main thread dispatches exactly the messages that arrived while a connection was open, in order,
    each in the session it arrived in: what was dispatched so far is a prefix of them, and all of them
    once the queue is empty.
  */
  lemma DispatchFollowsTheConnection(events: seq<Event>)
    requires Legal(INITIAL, events)
    ensures var s := Run(INITIAL, events);
            s.dispatched <= s.accepted && (s.mainQueue == [] ==> s.dispatched == s.accepted)
  {
    InitialInv();
    RunKeeps(INITIAL, events);
    var s := Run(INITIAL, events);
    DrainGrows(s, s.mainQueue);
  }

  /** A response never goes to a connection older than the session that produced it. */
  lemma ResponsesNeverGoBack(events: seq<Event>)
    requires Legal(INITIAL, events)
    ensures var s := Run(INITIAL, events);
            forall i :: 0 <= i < |s.deliveries| ==> s.deliveries[i].response.session <= s.deliveries[i].session
  {
    InitialInv();
    RunKeeps(INITIAL, events);
  }

  /** It can go to a newer one: the IO thread sends to the connection of the moment. */
  lemma ResponsesCanGoForward(message: Text)
    ensures var events := [OnWebSocketRequest(1), RunMainTask, SerializeAndSend(message), OnClose(1),
                           OnWebSocketRequest(2), RunIoTask];
            && Legal(INITIAL, events)
            && Run(INITIAL, events).deliveries == [Delivery(2, 2, Response(1, message))]
  {
    var e := [OnWebSocketRequest(1), RunMainTask, SerializeAndSend(message), OnClose(1),
              OnWebSocketRequest(2), RunIoTask];
    var s1 := Next(INITIAL, e[0]);
    var s2 := Next(s1, e[1]);
    var s3 := Next(s2, e[2]);
    var s4 := Next(s3, e[3]);
    var s5 := Next(s4, e[4]);
    var s6 := Next(s5, e[5]);
    assert Legal(s6, []) && Run(s6, []) == s6;
    assert e[5..] == [RunIoTask] && e[5..][1..] == [] && Legal(s5, e[5..]) && Run(s5, e[5..]) == s6;
    assert e[4..][1..] == e[5..] && Legal(s4, e[4..]) && Run(s4, e[4..]) == s6;
    assert e[3..][1..] == e[4..] && Legal(s3, e[3..]) && Run(s3, e[3..]) == s6;
    assert e[2..][1..] == e[3..] && Legal(s2, e[2..]) && Run(s2, e[2..]) == s6;
    assert e[1..][1..] == e[2..] && Legal(s1, e[1..]) && Run(s1, e[1..]) == s6;
  }

  // ----- when a response reaches the session it was made in

  /** Nothing of an earlier session is left: no response waits, no frontend is connected, and none is about to be. */
  predicate Settled(s: State) {
    s.ioQueue == [] && !s.frontend && s.connected == s.openings
  }

  /** Some delivery, from a position on, went to another session than the one that made it. */
  ghost predicate Astray(s: State, from: nat) {
    exists i :: from <= i < |s.deliveries| && s.deliveries[i].response.session != s.deliveries[i].session
  }

  /** Whatever is on its way to the client was made in the current session. */
  ghost predicate InSession(s: State, from: nat) {
    && (s.connected == s.openings || (s.connected + 1 == s.openings && !s.frontend))
    && (forall i :: 0 <= i < |s.ioQueue| ==> s.ioQueue[i].session == s.openings)
    && !Astray(s, from)
  }

  /** Connections are opened in settled states only. */
  ghost predicate OpensSettled(s: State, events: seq<Event>)
    requires Legal(s, events)
    decreases events
  {
    events == [] ||
    ((events[0].OnWebSocketRequest? ==> Settled(s)) && OpensSettled(Next(s, events[0]), events[1..]))
  }

  /** A task that runs is not a connect beyond the connections that were opened. */
  lemma ConnectsWereOpened(s: State)
    requires Inv(s) && s.mainQueue != []
    ensures RunTask(s, s.mainQueue[0]).connected <= s.openings
  {
    DrainGrows(RunTask(s, s.mainQueue[0]), s.mainQueue[1..]);
  }

  lemma SettledStep(s: State, e: Event, from: nat)
    requires Inv(s) && InSession(s, from) && Enabled(s, e)
    requires e.OnWebSocketRequest? ==> Settled(s)
    ensures InSession(Next(s, e), from)
  {
    if e.RunMainTask? {
      ConnectsWereOpened(s);
    }
  }

  lemma {:induction false} SettledRun(s: State, events: seq<Event>, from: nat)
    requires Inv(s) && InSession(s, from) && Legal(s, events) && OpensSettled(s, events)
    ensures InSession(Run(s, events), from)
    decreases events
  {
    if events != [] {
      StepKeeps(s, events[0]);
      SettledStep(s, events[0], from);
      SettledRun(Next(s, events[0]), events[1..], from);
    }
  }

  /** When connections are opened in settled states, every response reaches the session it was made in, or nobody. */
  lemma ResponsesReachTheirOwn(events: seq<Event>)
    requires Legal(INITIAL, events) && OpensSettled(INITIAL, events)
    ensures !Astray(Run(INITIAL, events), 0)
  {
    InitialInv();
    SettledRun(INITIAL, events, 0);
  }

  // ----- and that no weaker condition will do

  ghost predicate NoOpening(events: seq<Event>) {
    forall i :: 0 <= i < |events| ==> !events[i].OnWebSocketRequest?
  }

  /** Some run from here sends a response astray before another connection is opened. */
  ghost predicate CanGoAstray(s: State) {
    exists events :: NoOpening(events) && Legal(s, events) && Astray(Run(s, events), |s.deliveries|)
  }

  lemma {:induction false} NoOpeningIsSettled(s: State, events: seq<Event>)
    requires NoOpening(events) && Legal(s, events)
    ensures OpensSettled(s, events)
    decreases events
  {
    if events != [] {
      NoOpeningIsSettled(Next(s, events[0]), events[1..]);
    }
  }

  lemma {:induction false} RunAppend(s: State, a: seq<Event>, b: seq<Event>)
    requires Legal(s, a) && Legal(Run(s, a), b)
    ensures Legal(s, a + b) && Run(s, a + b) == Run(Run(s, a), b)
    decreases a
  {
    if a == [] {
      assert a + b == b;
    } else {
      assert (a + b)[0] == a[0] && (a + b)[1..] == a[1..] + b;
      RunAppend(Next(s, a[0]), a[1..], b);
    }
  }

  lemma RunOne(s: State, e: Event)
    requires Enabled(s, e)
    ensures Legal(s, [e]) && Run(s, [e]) == Next(s, e)
  {
    assert [e][1..] == [];
    assert Legal(Next(s, e), []);
  }

  /** With a connection open, a frontend of an earlier session can send a response to it. */
  lemma OldFrontendSends(s: State) returns (events: seq<Event>)
    requires s.connectionId != NO_CONNECTION && s.frontend && s.ioQueue == [] && s.connected < s.openings
    ensures NoOpening(events) && Legal(s, events) && Astray(Run(s, events), |s.deliveries|)
  {
    events := [SerializeAndSend([])] + [RunIoTask];
    var t := Next(s, SerializeAndSend([]));
    RunOne(s, SerializeAndSend([]));
    RunOne(t, RunIoTask);
    RunAppend(s, [SerializeAndSend([])], [RunIoTask]);
    var d := Run(s, events).deliveries[|s.deliveries|];
    assert d.response.session != d.session;
  }

  /** A connect of an earlier session that still waits can be run, and its frontend then sends. */
  lemma {:induction false} OldConnectSends(s: State) returns (events: seq<Event>)
    requires Inv(s) && s.connectionId != NO_CONNECTION && s.ioQueue == []
    requires s.connected + 1 < s.openings || (s.frontend && s.connected < s.openings)
    ensures NoOpening(events) && Legal(s, events) && Astray(Run(s, events), |s.deliveries|)
    decreases |s.mainQueue|
  {
    if s.frontend {
      events := OldFrontendSends(s);
    } else {
      assert s.mainQueue != [];
      var t := Next(s, RunMainTask);
      StepKeeps(s, RunMainTask);
      RunOne(s, RunMainTask);
      var rest := OldConnectSends(t);
      RunAppend(s, [RunMainTask], rest);
      events := [RunMainTask] + rest;
    }
  }

  lemma WaitingResponseGoesAstray(s: State) returns (events: seq<Event>)
    requires s.connectionId != NO_CONNECTION && s.ioQueue != [] && s.ioQueue[0].session < s.openings
    ensures NoOpening(events) && Legal(s, events) && Astray(Run(s, events), |s.deliveries|)
  {
    events := [RunIoTask];
    RunOne(s, RunIoTask);
    var d := Run(s, events).deliveries[|s.deliveries|];
    assert d.response.session != d.session;
  }

  /** Opening a connection can send a response astray exactly when the state is not settled. */
  lemma OpeningIsSafeIffSettled(s: State, id: int)
    requires Inv(s) && Enabled(s, OnWebSocketRequest(id))
    ensures CanGoAstray(Next(s, OnWebSocketRequest(id))) <==> !Settled(s)
  {
    var t := Next(s, OnWebSocketRequest(id));
    StepKeeps(s, OnWebSocketRequest(id));
    if !Settled(s) {
      var events: seq<Event>;
      if s.ioQueue != [] {
        events := WaitingResponseGoesAstray(t);
      } else {
        events := OldConnectSends(t);
      }
      assert CanGoAstray(t);
    } else if CanGoAstray(t) {
      var events :| NoOpening(events) && Legal(t, events) && Astray(Run(t, events), |t.deliveries|);
      NoOpeningIsSettled(t, events);
      SettledRun(t, events, |t.deliveries|);
      assert false;
    }
  }

  /** So it is for the state after any run. */
  lemma OpeningAfterAnyRun(events: seq<Event>, id: int)
    requires Legal(INITIAL, events) && Enabled(Run(INITIAL, events), OnWebSocketRequest(id))
    ensures var s := Run(INITIAL, events);
            CanGoAstray(Next(s, OnWebSocketRequest(id))) <==> !Settled(s)
  {
    InitialInv();
    RunKeeps(INITIAL, events);
    OpeningIsSafeIffSettled(Run(INITIAL, events), id);
  }

  // ----- the two objects

  /** Responses and deliveries without their sessions, which the code does not know. */
  function Messages(responses: seq<Response>): (r: seq<Text>) {
    seq(|responses|, i requires 0 <= i < |responses| => responses[i].message)
  }

  function Outputs(deliveries: seq<Delivery>): (r: seq<(int, Text)>) {
    seq(|deliveries|, i requires 0 <= i < |deliveries| => (deliveries[i].connection, deliveries[i].response.message))
  }

  class V8Inspector {
    var frontend: bool
    var backendDispatcher: bool
    // History: how often a frontend was connected, and what was dispatched.
    ghost var connected: nat
    ghost var dispatched: seq<Received>

    constructor ()
      ensures !frontend && !backendDispatcher && connected == 0 && dispatched == []
    {
      frontend, backendDispatcher := false, false;
      connected, dispatched := 0, [];
    }

    method ConnectFrontend()
      requires !frontend
      modifies this
      ensures frontend && backendDispatcher && connected == old(connected) + 1 && dispatched == old(dispatched)
    {
      frontend := true;
      backendDispatcher := true;
      connected := connected + 1;
    }

    method DisconnectFrontend()
      requires backendDispatcher == frontend
      modifies this
      ensures !frontend && !backendDispatcher && connected == old(connected) && dispatched == old(dispatched)
    {
      if !frontend {
        return;
      }
      backendDispatcher := false;
      frontend := false;
    }

    method DispatchMessageFromFrontend(message: Text)
      modifies this
      ensures frontend == old(frontend) && backendDispatcher == old(backendDispatcher) && connected == old(connected)
      ensures dispatched == old(dispatched) + if backendDispatcher then [Received(connected, message)] else []
    {
      if backendDispatcher {
        dispatched := dispatched + [Received(connected, message)];
      }
    }
  }

  class RemoteDebuggingServer {
    var connectionId: int
    var mainQueue: seq<Task>
    var ioQueue: seq<Text>
    var sent: seq<(int, Text)>
    // History: how many connections were opened, what came in while one was open, and, for each response that waits
    // or was sent, in which session it was made and delivered.
    ghost var openings: nat
    ghost var accepted: seq<Received>
    ghost var responses: seq<Response>
    ghost var deliveries: seq<Delivery>
    const inspector: V8Inspector

    ghost function Current(): (s: State)
      reads this, inspector
    {
      State(connectionId, openings, accepted, deliveries, mainQueue, responses,
            inspector.frontend, inspector.backendDispatcher, inspector.connected, inspector.dispatched)
    }

    ghost predicate Valid()
      reads this, inspector
    {
      Inv(Current()) && ioQueue == Messages(responses) && sent == Outputs(deliveries)
    }

    constructor (inspector: V8Inspector)
      requires !inspector.frontend && !inspector.backendDispatcher
      requires inspector.connected == 0 && inspector.dispatched == []
      ensures Valid() && Current() == INITIAL && this.inspector == inspector
    {
      connectionId, mainQueue, ioQueue, sent := NO_CONNECTION, [], [], [];
      openings, accepted, responses, deliveries := 0, [], [], [];
      this.inspector := inspector;
      new;
      InitialInv();
    }

    method HandleWebSocketRequest(id: int)
      requires Valid() && connectionId == NO_CONNECTION && id != NO_CONNECTION
      modifies this
      ensures Valid() && Current() == Next(old(Current()), OnWebSocketRequest(id))
    {
      StepKeeps(Current(), OnWebSocketRequest(id));
      connectionId := id;
      openings := openings + 1;
      mainQueue := mainQueue + [HandleConnect(id)];
    }

    method HandleWebSocketMessage(id: int, data: Text)
      requires Valid()
      modifies this
      ensures Valid() && Current() == Next(old(Current()), OnWebSocketMessage(id, data))
    {
      StepKeeps(Current(), OnWebSocketMessage(id, data));
      accepted := Accept(Current(), data);
      mainQueue := mainQueue + [HandleMessage(id, data)];
    }

    method HandleClose(id: int)
      requires Valid()
      modifies this
      ensures Valid() && Current() == Next(old(Current()), OnClose(id))
    {
      StepKeeps(Current(), OnClose(id));
      connectionId := NO_CONNECTION;
      mainQueue := mainQueue + [HandleDisconnect(id)];
    }

    /** The main message loop takes the next task; a connect meets the precondition of connectFrontend. */
    method RunMain()
      requires Valid() && mainQueue != []
      modifies this, inspector
      ensures Valid() && Current() == Next(old(Current()), RunMainTask)
    {
      StepKeeps(Current(), RunMainTask);
      var task := mainQueue[0];
      mainQueue := mainQueue[1..];
      match task {
        case HandleConnect(_) => inspector.ConnectFrontend();
        case HandleMessage(_, data) => inspector.DispatchMessageFromFrontend(data);
        case HandleDisconnect(_) => inspector.DisconnectFrontend();
      }
      assert Current().dispatched == Next(old(Current()), RunMainTask).dispatched;
    }

    /** An agent sends a response or a notification through the channel it was given on connecting. */
    method Send(message: Text)
      requires Valid() && inspector.frontend
      modifies this
      ensures Valid() && Current() == Next(old(Current()), SerializeAndSend(message))
    {
      StepKeeps(Current(), SerializeAndSend(message));
      ioQueue := ioQueue + [message];
      responses := responses + [Response(inspector.connected, message)];
    }

    /** The IO message loop takes the next response. */
    method RunIo()
      requires Valid() && ioQueue != []
      modifies this
      ensures Valid() && Current() == Next(old(Current()), RunIoTask)
    {
      StepKeeps(Current(), RunIoTask);
      var message := ioQueue[0];
      ghost var response := responses[0];
      ioQueue, responses := ioQueue[1..], responses[1..];
      if connectionId == NO_CONNECTION {
        return;
      }
      sent := sent + [(connectionId, message)];
      deliveries := deliveries + [Delivery(connectionId, openings, response)];
    }
  }
}

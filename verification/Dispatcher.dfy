/**
  InspectorBackendDispatcher: commands come in as messages with an id and leave through agents, which answer
  at once or later through a one-shot callback. A run is any sequence of the steps below; an agent may be
  re-entered, so the calls that are being served form a stack.
*/
module Dispatcher {
  import opened Text
  import opened JsonTree
  import opened JsonObject

  // ----- parameters

  datatype ParamType = NumberType | StringType | BooleanType | ObjectType | ArrayType

  datatype Param = Param(name: Text, kind: ParamType, optional: bool)

  datatype ProtocolError =
    HandlerNotAvailable | ContainerMissing(name: Text) | NotFound(name: Text) | WrongType(name: Text)

  /** The as_method of a parameter type. */
  predicate Fits(value: Json<Text>, kind: ParamType) {
    match kind
    case NumberType => value.Number?
    case StringType => value.String?
    case BooleanType => value.Boolean?
    case ObjectType => value.Object?
    case ArrayType => value.Array?
  }

  /** What a lookup yields: the value when it is there and fits, or else the initial value. */
  datatype Property = Property(value: Option<Json<Text>>, errors: seq<ProtocolError>)

  function GetProperty(params: Option<seq<Member<Text>>>, p: Param): (r: Property) {
    if params.None? then Property(None, if p.optional then [] else [ContainerMissing(p.name)])
    else
      match Lookup(params.value, p.name)
      case None => Property(None, if p.optional then [] else [NotFound(p.name)])
      case Some(value) => if Fits(value, p.kind) then Property(Some(value), []) else Property(None, [WrongType(p.name)])
  }

  /** A command: where it is served, whether it answers later, and its parameters in order. */
  datatype Command = Command(agent: Text, async: bool, params: seq<Param>)

  datatype Request = Request(id: int, name: Text, message: seq<Member<Text>>)

  const PARAMS: Text := [0x70, 0x61, 0x72, 0x61, 0x6D, 0x73]

  /** getObject: nothing when the member is absent or not an object. */
  function ParamsOf(message: seq<Member<Text>>): (r: Option<seq<Member<Text>>>) {
    match Lookup(message, PARAMS)
    case Some(Object(members)) => Some(members)
    case _ => None
  }

  function ParamErrors(container: Option<seq<Member<Text>>>, params: seq<Param>): (r: seq<ProtocolError>) {
    if params == [] then [] else GetProperty(container, params[0]).errors + ParamErrors(container, params[1..])
  }

  function ProtocolErrors(agents: set<Text>, c: Command, r: Request): (e: seq<ProtocolError>) {
    (if c.agent in agents then [] else [HandlerNotAvailable]) + ParamErrors(ParamsOf(r.message), c.params)
  }

  /** The value of a parameter, if the request has one. */
  function ValueOf(container: Option<seq<Member<Text>>>, name: Text): (r: Option<Json<Text>>) {
    if container.None? then None else Lookup(container.value, name)
  }

  /** What the caller must get right: every parameter that is required is there, and every one that is there fits. */
  predicate WellFormed(container: Option<seq<Member<Text>>>, params: seq<Param>) {
    forall i :: 0 <= i < |params| ==>
      var value := ValueOf(container, params[i].name);
      (value.None? ==> params[i].optional) && (value.Some? ==> Fits(value.value, params[i].kind))
  }

  lemma {:induction false} NoErrorsMeansWellFormed(container: Option<seq<Member<Text>>>, params: seq<Param>)
    ensures ParamErrors(container, params) == [] <==> WellFormed(container, params)
  {
    if params != [] {
      NoErrorsMeansWellFormed(container, params[1..]);
      var p := params[0];
      assert ParamErrors(container, params) == [] <==>
        GetProperty(container, p).errors == [] && ParamErrors(container, params[1..]) == [];
      assert WellFormed(container, params) ==> WellFormed(container, params[1..]);
      if WellFormed(container, params[1..]) && GetProperty(container, p).errors == [] {
        forall i | 0 <= i < |params|
          ensures var value := ValueOf(container, params[i].name);
                  (value.None? ==> params[i].optional) && (value.Some? ==> Fits(value.value, params[i].kind))
        {
          assert i > 0 ==> params[i] == params[1..][i - 1];
        }
      }
    }
  }

  // ----- states and steps

  const METHOD_NOT_FOUND: int := -32601
  const INVALID_PARAMS: int := -32602
  const SERVER_ERROR: int := -32000

  /** What the channel is given: a result, or an error with its code. */
  datatype Response = Response(id: int, error: Option<int>)

  datatype Callback = Callback(id: int, alreadySent: bool)

  /** A call whose agent is running: it answers on return, or through the callback with a given index. */
  datatype Frame = Sync(id: int) | Async(callback: nat)

  datatype State = State(
    channel: bool, responses: seq<Response>, callbacks: seq<Callback>, stack: seq<Frame>,
    dispatched: set<int>, invoked: seq<Request>)

  datatype Event =
    | Dispatch(request: Request)
    | Return(error: bool)
    | UseCallback(callback: nat, error: bool)
    | ClearFrontend

  const INITIAL: State := State(true, [], [], [], {}, [])

  /** Registered agents and known commands. */
  datatype Table = Table(agents: set<Text>, commands: map<Text, Command>)

  /** Ids are not reused, only calls that run return, and only callbacks that were handed out are used. */
  predicate Enabled(s: State, e: Event) {
    match e
    case Dispatch(r) => r.id !in s.dispatched
    case Return(_) => s.stack != []
    case UseCallback(i, _) => i < |s.callbacks|
    case ClearFrontend => true
  }

  /** sendProtocolResponse, if there is still a channel. */
  function Deliver(channel: bool, responses: seq<Response>, response: Response): (r: seq<Response>) {
    if channel then responses + [response] else responses
  }

  function Outcome(id: int, error: bool): (r: Response) {
    Response(id, if error then Some(SERVER_ERROR) else None)
  }

  function Begin(s: State, t: Table, r: Request): (n: State) {
    var seen := s.(dispatched := s.dispatched + {r.id});
    if r.name !in t.commands then
      seen.(responses := Deliver(s.channel, s.responses, Response(r.id, Some(METHOD_NOT_FOUND))))
    else
      var c := t.commands[r.name];
      if ProtocolErrors(t.agents, c, r) != [] then
        seen.(responses := Deliver(s.channel, s.responses, Response(r.id, Some(INVALID_PARAMS))))
      else if c.async then
        seen.(callbacks := s.callbacks + [Callback(r.id, false)], stack := s.stack + [Async(|s.callbacks|)],
              invoked := s.invoked + [r])
      else
        seen.(stack := s.stack + [Sync(r.id)], invoked := s.invoked + [r])
  }

  function SetSent(callbacks: seq<Callback>, i: nat): (r: seq<Callback>)
    requires i < |callbacks|
  {
    callbacks[i := callbacks[i].(alreadySent := true)]
  }

  function Finish(s: State, error: bool): (n: State)
    requires s.stack != [] && FramesValid(s)
  {
    var popped := s.(stack := s.stack[..|s.stack| - 1]);
    match s.stack[|s.stack| - 1]
    case Sync(id) => popped.(responses := Deliver(s.channel, s.responses, Outcome(id, error)))
    case Async(i) =>
      if !error then popped
      else popped.(callbacks := SetSent(s.callbacks, i),
                   responses := Deliver(s.channel, s.responses, Outcome(s.callbacks[i].id, true)))
  }

  function SendIfActive(s: State, i: nat, error: bool): (n: State)
    requires i < |s.callbacks|
  {
    if s.callbacks[i].alreadySent then s
    else s.(callbacks := SetSent(s.callbacks, i),
            responses := Deliver(s.channel, s.responses, Outcome(s.callbacks[i].id, error)))
  }

  function Next(s: State, t: Table, e: Event): (n: State)
    requires Enabled(s, e) && FramesValid(s)
  {
    match e
    case Dispatch(r) => Begin(s, t, r)
    case Return(error) => Finish(s, error)
    case UseCallback(i, error) => SendIfActive(s, i, error)
    case ClearFrontend => s.(channel := false)
  }

  predicate FramesValid(s: State) {
    forall k :: 0 <= k < |s.stack| && s.stack[k].Async? ==> s.stack[k].callback < |s.callbacks|
  }

  // ----- one response per call

  function Count(responses: seq<Response>, id: int): (n: nat) {
    if responses == [] then 0
    else (if responses[|responses| - 1].id == id then 1 else 0) + Count(responses[..|responses| - 1], id)
  }

  lemma CountDeliver(channel: bool, responses: seq<Response>, response: Response, id: int)
    ensures Count(Deliver(channel, responses, response), id)
         == Count(responses, id) + if channel && response.id == id then 1 else 0
  {
    assert (responses + [response])[..|responses|] == responses;
  }

  /** A call that has yet to be answered: its agent has not returned, or its callback was not used. */
  predicate Owed(s: State, id: int) {
    Sync(id) in s.stack || Callback(id, false) in s.callbacks
  }

  /** What the channel has seen of an id. */
  predicate Settled(s: State, id: int) {
    var n := Count(s.responses, id);
    if id !in s.dispatched then n == 0
    else if Owed(s, id) then n == 0
    else n <= 1 && (s.channel ==> n == 1)
  }

  /** Every call has one place where it is answered. */
  predicate Unique(s: State) {
    && (forall k, l :: 0 <= k < l < |s.stack| && s.stack[k].Sync? ==> s.stack[k] != s.stack[l])
    && (forall i, j :: 0 <= i < j < |s.callbacks| ==> s.callbacks[i].id != s.callbacks[j].id)
    && (forall k, i :: 0 <= k < |s.stack| && s.stack[k].Sync? && 0 <= i < |s.callbacks| ==>
          s.stack[k].id != s.callbacks[i].id)
    && (forall k :: 0 <= k < |s.stack| && s.stack[k].Sync? ==> s.stack[k].id in s.dispatched)
    && (forall i :: 0 <= i < |s.callbacks| ==> s.callbacks[i].id in s.dispatched)
  }

  ghost predicate Inv(s: State) {
    FramesValid(s) && Unique(s) && forall id: int :: Settled(s, id)
  }

  /** The agent did not both use its callback and report an error. */
  predicate Disciplined(s: State, e: Event)
    requires Enabled(s, e) && FramesValid(s)
  {
    match e
    case Return(error) =>
      var top := s.stack[|s.stack| - 1];
      error && top.Async? ==> !s.callbacks[top.callback].alreadySent
    case _ => true
  }

  /** A fresh call that is answered at once. */
  lemma RejectKeeps(s: State, n: State, response: Response)
    requires Inv(s) && response.id !in s.dispatched
    requires n == s.(dispatched := s.dispatched + {response.id}, responses := Deliver(s.channel, s.responses, response))
    ensures Inv(n)
  {
    forall id: int
      ensures Settled(n, id)
    {
      assert Settled(s, id);
      CountDeliver(s.channel, s.responses, response, id);
    }
  }

  /** A fresh call that an agent starts to serve. */
  lemma InvokeKeeps(s: State, n: State, r: Request)
    requires Inv(s) && r.id !in s.dispatched
    requires n.channel == s.channel && n.responses == s.responses && n.dispatched == s.dispatched + {r.id}
    requires || (n.stack == s.stack + [Sync(r.id)] && n.callbacks == s.callbacks)
             || (n.stack == s.stack + [Async(|s.callbacks|)] && n.callbacks == s.callbacks + [Callback(r.id, false)])
    ensures Inv(n)
  {
    forall id: int
      ensures Settled(n, id)
    {
      assert Settled(s, id);
      assert Owed(n, id) <==> Owed(s, id) || id == r.id;
    }
  }

  lemma BeginKeeps(s: State, t: Table, r: Request)
    requires Inv(s) && r.id !in s.dispatched
    ensures Inv(Begin(s, t, r))
  {
    hide ProtocolErrors, Inv;
    var n := Begin(s, t, r);
    if r.name !in t.commands {
      RejectKeeps(s, n, Response(r.id, Some(METHOD_NOT_FOUND)));
    } else if ProtocolErrors(t.agents, t.commands[r.name], r) != [] {
      RejectKeeps(s, n, Response(r.id, Some(INVALID_PARAMS)));
    } else {
      InvokeKeeps(s, n, r);
    }
  }

  lemma AnswerSync(s: State, error: bool)
    requires Inv(s) && s.stack != [] && s.stack[|s.stack| - 1].Sync?
    ensures Inv(Finish(s, error))
  {
    var n := Finish(s, error);
    var top := s.stack[|s.stack| - 1];
    forall id: int
      ensures Settled(n, id)
    {
      assert Settled(s, id);
      CountDeliver(s.channel, s.responses, Outcome(top.id, error), id);
      assert s.stack == n.stack + [top];
      assert Owed(s, id) <==> Owed(n, id) || id == top.id;
      assert !Owed(n, top.id);
    }
  }

  lemma SetSentOwes(s: State, i: nat, id: int)
    requires Unique(s) && i < |s.callbacks|
    ensures Callback(id, false) in SetSent(s.callbacks, i) <==>
              Callback(id, false) in s.callbacks && id != s.callbacks[i].id
  {
    var after := SetSent(s.callbacks, i);
    if Callback(id, false) in s.callbacks && id != s.callbacks[i].id {
      var j :| 0 <= j < |s.callbacks| && s.callbacks[j] == Callback(id, false);
      assert after[j] == Callback(id, false);
    }
  }

  lemma AnswerCallback(s: State, n: State, i: nat, error: bool)
    requires Inv(s) && i < |s.callbacks| && !s.callbacks[i].alreadySent
    requires n == SendIfActive(s, i, error)
    ensures Inv(n)
  {
    forall id: int
      ensures Settled(n, id)
    {
      assert Settled(s, id);
      CountDeliver(s.channel, s.responses, Outcome(s.callbacks[i].id, error), id);
      SetSentOwes(s, i, id);
    }
  }

  lemma PopAsync(s: State, n: State)
    requires Inv(s) && s.stack != [] && s.stack[|s.stack| - 1].Async? && n == s.(stack := s.stack[..|s.stack| - 1])
    ensures Inv(n)
  {
    forall id: int
      ensures Settled(n, id)
    {
      assert Settled(s, id);
      assert s.stack == n.stack + [s.stack[|s.stack| - 1]];
    }
  }

  lemma ReturnKeeps(s: State, error: bool)
    requires Inv(s) && s.stack != [] && (Disciplined(s, Return(error)) || !s.channel)
    ensures Inv(Finish(s, error))
  {
    var top := s.stack[|s.stack| - 1];
    if top.Sync? {
      AnswerSync(s, error);
    } else {
      var popped := s.(stack := s.stack[..|s.stack| - 1]);
      PopAsync(s, popped);
      if error {
        if s.callbacks[top.callback].alreadySent {
          assert SetSent(s.callbacks, top.callback) == s.callbacks;
        } else {
          AnswerCallback(popped, Finish(s, error), top.callback, true);
        }
      }
    }
  }

  lemma ClearKeeps(s: State)
    requires Inv(s)
    ensures Inv(s.(channel := false))
  {
    forall id: int
      ensures Settled(s.(channel := false), id)
    {
      assert Settled(s, id);
    }
  }

  /** The discipline is exactly what one step needs: without it, and with a channel, a call is answered twice. */
  lemma StepKeeps(s: State, t: Table, e: Event)
    requires Inv(s) && Enabled(s, e)
    ensures Inv(Next(s, t, e)) <==> Disciplined(s, e) || !s.channel
    ensures !(Disciplined(s, e) || !s.channel) ==>
              var id := s.callbacks[s.stack[|s.stack| - 1].callback].id;
              Count(Next(s, t, e).responses, id) == 2
  {
    match e
    case Dispatch(r) => BeginKeeps(s, t, r);
    case Return(error) =>
      if Disciplined(s, e) || !s.channel {
        ReturnKeeps(s, error);
      } else {
        SecondAnswer(s);
      }
    case UseCallback(i, error) =>
      if !s.callbacks[i].alreadySent {
        AnswerCallback(s, Next(s, t, e), i, error);
      }
    case ClearFrontend => ClearKeeps(s);
  }

  lemma SecondAnswer(s: State)
    requires Inv(s) && s.stack != [] && !Disciplined(s, Return(true)) && s.channel
    ensures var id := s.callbacks[s.stack[|s.stack| - 1].callback].id;
            Count(Finish(s, true).responses, id) == 2 && !Settled(Finish(s, true), id)
  {
    var i := s.stack[|s.stack| - 1].callback;
    var id := s.callbacks[i].id;
    assert Settled(s, id);
    assert !Owed(s, id);
    CountDeliver(s.channel, s.responses, Outcome(id, true), id);
  }

  /** A run of three steps that ends with two answers to one call. */
  lemma AnsweredTwice(id: int, name: Text)
    ensures var t := Table({name}, map[name := Command(name, true, [])]);
            var called := Begin(INITIAL, t, Request(id, name, []));
            && FramesValid(called) && called.stack == [Async(0)] && called.callbacks == [Callback(id, false)]
            && Count(Finish(SendIfActive(called, 0, false), true).responses, id) == 2
  {
    var t := Table({name}, map[name := Command(name, true, [])]);
    var called := Begin(INITIAL, t, Request(id, name, []));
    assert ProtocolErrors(t.agents, t.commands[name], Request(id, name, [])) == [];
    assert called.stack == [Async(0)] && called.callbacks == [Callback(id, false)];
    var used := SendIfActive(called, 0, false);
    CountDeliver(true, [], Outcome(id, false), id);
    CountDeliver(true, used.responses, Outcome(id, true), id);
  }

  // ----- whole runs

  /** Agents keep to the discipline as long as there is a channel. */
  ghost predicate Legal(s: State, t: Table, events: seq<Event>)
    decreases events
  {
    events == [] ||
    (&& FramesValid(s) && Enabled(s, events[0]) && (Disciplined(s, events[0]) || !s.channel)
     && Legal(Next(s, t, events[0]), t, events[1..]))
  }

  ghost function Run(s: State, t: Table, events: seq<Event>): (r: State)
    requires Legal(s, t, events)
    decreases events
  {
    if events == [] then s else Run(Next(s, t, events[0]), t, events[1..])
  }

  lemma {:induction false} RunKeeps(s: State, t: Table, events: seq<Event>)
    requires Inv(s) && Legal(s, t, events)
    ensures Inv(Run(s, t, events))
    decreases events
  {
    if events != [] {
      StepKeeps(s, t, events[0]);
      RunKeeps(Next(s, t, events[0]), t, events[1..]);
    }
  }

  /**
    Over every run, the channel gets at most one response for an id, none for an id that was never dispatched,
    none for a call still running or waiting, and, while the channel is set, exactly one for every other call.
  */
  lemma OneResponsePerCall(t: Table, events: seq<Event>, id: int)
    requires Legal(INITIAL, t, events)
    ensures var s := Run(INITIAL, t, events);
            var n := Count(s.responses, id);
            && n <= 1
            && (id !in s.dispatched || Owed(s, id) ==> n == 0)
            && (id in s.dispatched && !Owed(s, id) && s.channel ==> n == 1)
  {
    assert Inv(INITIAL) by {
      assert forall i: int :: Settled(INITIAL, i);
    }
    RunKeeps(INITIAL, t, events);
    assert Settled(Run(INITIAL, t, events), id);
  }

  /** A known command of a registered agent, with well-formed parameters. */
  predicate Allowed(t: Table, r: Request) {
    && r.name in t.commands
    && t.commands[r.name].agent in t.agents
    && WellFormed(ParamsOf(r.message), t.commands[r.name].params)
  }

  /** A call that is unknown or malformed is answered by the step that brings it, with the code for it. */
  lemma RejectedAtOnce(s: State, t: Table, r: Request)
    ensures Allowed(t, r) ==> Begin(s, t, r).invoked == s.invoked + [r] && Begin(s, t, r).responses == s.responses
    ensures !Allowed(t, r) ==> Begin(s, t, r).invoked == s.invoked && Begin(s, t, r).stack == s.stack
    ensures !Allowed(t, r) && r.name in t.commands ==>
              Begin(s, t, r).responses == Deliver(s.channel, s.responses, Response(r.id, Some(INVALID_PARAMS)))
    ensures r.name !in t.commands ==>
              Begin(s, t, r).responses == Deliver(s.channel, s.responses, Response(r.id, Some(METHOD_NOT_FOUND)))
  {
    if r.name in t.commands {
      NoErrorsMeansWellFormed(ParamsOf(r.message), t.commands[r.name].params);
    }
  }

  /** Nothing is sent once the frontend is cleared, whatever agents do. */
  lemma {:induction false} NothingAfterClear(s: State, t: Table, events: seq<Event>)
    requires !s.channel && Legal(s, t, events)
    ensures Run(s, t, events).responses == s.responses && !Run(s, t, events).channel
    decreases events
  {
    if events != [] {
      NothingAfterClear(Next(s, t, events[0]), t, events[1..]);
    }
  }

  /** Over every run, agents are invoked on such calls only. */
  lemma {:induction false} AgentsRunOnGoodCalls(s: State, t: Table, events: seq<Event>)
    requires Legal(s, t, events) && forall r :: r in s.invoked ==> Allowed(t, r)
    ensures forall r :: r in Run(s, t, events).invoked ==> Allowed(t, r)
    decreases events
  {
    if events != [] {
      var n := Next(s, t, events[0]);
      if events[0].Dispatch? && events[0].request.name in t.commands {
        var r := events[0].request;
        NoErrorsMeansWellFormed(ParamsOf(r.message), t.commands[r.name].params);
      }
      AgentsRunOnGoodCalls(n, t, events[1..]);
    }
  }
}

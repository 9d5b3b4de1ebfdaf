/** The dispatcher and its callbacks as objects, and the parameter checks as they run. */
module DispatcherObjects {
  import opened Text
  import opened JsonTree
  import opened JsonObject
  import opened Dispatcher

  /** getPropertyValueImpl: valueFound is wanted for optional parameters only. */
  method GetPropertyValue(params: Option<seq<Member<Text>>>, p: Param, protocolErrors: seq<ProtocolError>)
    returns (value: Option<Json<Text>>, valueFound: bool, errors: seq<ProtocolError>)
    ensures errors == protocolErrors + GetProperty(params, p).errors
    ensures valueFound <==> value.Some?
    ensures value.Some? ==> value == ValueOf(params, p.name) && Fits(value.value, p.kind)
    ensures errors == protocolErrors ==> value == ValueOf(params, p.name) && (value.None? ==> p.optional)
  {
    value, valueFound, errors := None, false, protocolErrors;
    if params.None? {
      if !p.optional {
        errors := errors + [ContainerMissing(p.name)];
      }
      return;
    }
    var found := Lookup(params.value, p.name);
    if found.None? {
      if !p.optional {
        errors := errors + [NotFound(p.name)];
      }
      return;
    }
    if !Fits(found.value, p.kind) {
      errors := errors + [WrongType(p.name)];
    } else {
      value, valueFound := found, true;
    }
  }

  /** The first half of a command handler, up to the question whether its agent is called. */
  method CheckCall(agents: set<Text>, c: Command, r: Request) returns (errors: seq<ProtocolError>)
    ensures errors == ProtocolErrors(agents, c, r)
  {
    errors := [];
    if c.agent !in agents {
      errors := [HandlerNotAvailable];
    }
    var container := ParamsOf(r.message);
    ghost var whole := errors + ParamErrors(container, c.params);
    assert c.params[0..] == c.params;
    for i := 0 to |c.params|
      invariant errors + ParamErrors(container, c.params[i..]) == whole
    {
      assert c.params[i..][0] == c.params[i] && c.params[i..][1..] == c.params[i + 1..];
      Assoc(errors, GetProperty(container, c.params[i]).errors, ParamErrors(container, c.params[i + 1..]));
      var value, valueFound, more := GetPropertyValue(container, c.params[i], errors);
      errors := more;
    }
    assert c.params[|c.params|..] == [] && errors + [] == errors;
  }

  class BackendDispatcher {
    var channel: bool
    // What the channel was given.
    var responses: seq<Response>

    constructor ()
      ensures channel && responses == []
    {
      channel, responses := true, [];
    }

    method ReportProtocolError(callId: int, code: int)
      modifies this
      ensures channel == old(channel)
      ensures responses == Deliver(channel, old(responses), Response(callId, Some(code)))
    {
      if channel {
        responses := responses + [Response(callId, Some(code))];
      }
    }

    method SendResponse(callId: int, invocationError: bool)
      modifies this
      ensures channel == old(channel)
      ensures responses == Deliver(channel, old(responses), Outcome(callId, invocationError))
    {
      if invocationError {
        ReportProtocolError(callId, SERVER_ERROR);
        return;
      }
      if channel {
        responses := responses + [Response(callId, None)];
      }
    }

    method ClearTheFrontend()
      modifies this
      ensures !channel && responses == old(responses)
    {
      channel := false;
    }

    /** dispatch, up to the agent: a call that is not passed on has been answered. */
    method Admit(t: Table, r: Request) returns (passed: bool)
      modifies this
      ensures channel == old(channel)
      ensures passed <==> Allowed(t, r)
      ensures responses == if passed then old(responses)
                           else Deliver(channel, old(responses), Response(r.id, Some(
                                          if r.name in t.commands then INVALID_PARAMS else METHOD_NOT_FOUND)))
    {
      if r.name !in t.commands {
        ReportProtocolError(r.id, METHOD_NOT_FOUND);
        return false;
      }
      var c := t.commands[r.name];
      NoErrorsMeansWellFormed(ParamsOf(r.message), c.params);
      var errors := CheckCall(t.agents, c, r);
      if |errors| > 0 {
        ReportProtocolError(r.id, INVALID_PARAMS);
        return false;
      }
      return true;
    }

    /** The second half of an asynchronous handler. */
    method FinishAsync(callback: CallbackBase, error: bool)
      requires callback.backend == this
      modifies this, callback
      ensures channel == old(channel)
      ensures callback.alreadySent == (old(callback.alreadySent) || error)
      ensures responses == if error then Deliver(channel, old(responses), Outcome(callback.id, true))
                           else old(responses)
    {
      if !error {
        return;
      }
      callback.Disable();
      SendResponse(callback.id, error);
    }
  }

  class CallbackBase {
    const backend: BackendDispatcher
    const id: int
    var alreadySent: bool

    constructor (backend: BackendDispatcher, id: int)
      ensures this.backend == backend && this.id == id && !alreadySent
    {
      this.backend, this.id, alreadySent := backend, id, false;
    }

    /** The state a run would be in with this callback at an index. */
    ghost predicate Shows(s: State, i: nat)
      reads this, backend
    {
      && s.channel == backend.channel && s.responses == backend.responses
      && i < |s.callbacks| && s.callbacks[i] == Callback(id, alreadySent)
    }

    method Disable()
      modifies this
      ensures alreadySent
    {
      alreadySent := true;
    }

    /** sendSuccess and sendFailure: only the first use is heard. */
    method Send(error: bool, ghost s: State, ghost i: nat)
      requires Shows(s, i)
      modifies this, backend
      ensures alreadySent && Shows(SendIfActive(s, i, error), i)
    {
      if alreadySent {
        return;
      }
      backend.SendResponse(id, error);
      alreadySent := true;
    }
  }
}

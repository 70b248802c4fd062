/** The objects of the application layer, each method proved against its specification function. */
module ApplicationObjects {
  import opened WebTypes
  import opened Responses
  import opened Resources
  import opened Applications

  /** Any handler, run against the response object. */
  method RunHandler(h: Handler, response: HttpResponse) returns (result: HandlerResult)
    modifies response`state, response.platform`log
    ensures (response.View(), result) == Play(h, [], old(response.View()), response.platform.answers)
  {
    hide DoStatus, DoHeader, DoBegin, DoWrite, DoSend, DoComplete, DoAbort;
    ghost var answers := response.platform.answers;
    ghost var whole := Play(h, [], response.View(), answers);
    var seen: seq<Seen> := [];
    while |seen| < h.limit
      invariant whole == Play(h, seen, response.View(), answers)
      decreases h.limit - |seen|
    {
      var move := h.behaviour(seen);
      if move.Return? {
        return move.result;
      }
      var outcome := SUCCESS;
      match move.op {
        case OpStatus(status) => outcome := response.Status(status);
        case OpHeader(name, value) => outcome := response.Header(name, value);
        case OpBegin(length) => outcome := response.Begin(length);
        case OpWrite(data) => outcome := response.Write(data);
        case OpWriteNull(size) => outcome := if size == 0 then SUCCESS else Failure(InvalidConfiguration);
        case OpSend(body, contentType) => outcome := response.Send(body, contentType);
        case OpComplete => outcome := response.Complete();
        case OpAbort => response.Abort();
      }
      seen := seen + [Seen(outcome, response.state)];
    }
    return h.atLimit;
  }

  /** StaticResourceHandler::Handle. */
  method HandleStatic(site: Site, request: Request, response: HttpResponse) returns (result: HandlerResult)
    modifies response`state, response.platform`log
    ensures (response.View(), result) == StaticHandle(site, request, old(response.View()), response.platform.answers)
  {
    hide WriteResource;
    if request.httpMethod != Get && request.httpMethod != Head {
      return NOT_HANDLED;
    }
    var safe := IsSafeWebResourcePath(request.path);
    if !safe {
      return HandlerFailure(ProtocolError);
    }
    var written := WriteWebResourceResponse(site.provider, request.path, response, request.httpMethod == Head,
                                            site.contentType(request.path), site.chunk);
    if written.error == NotFound {
      return NOT_HANDLED;
    }
    return HandledWith(written);
  }

  method RespondWith(responder: Responder, bodies: Bodies, error: WebError, request: Request, response: HttpResponse)
    returns (result: HandlerResult)
    modifies response`state, response.platform`log
    ensures (response.View(), result) == Respond(responder, bodies, error, request, old(response.View()),
            response.platform.answers)
    decreases responder
  {
    hide WriteResource, DoSend, DoStatus, Play;
    match responder
    case DefaultResponder =>
      var status := response.Status(DefaultHttpStatusForWebError(error));
      if !status.Succeeded() {
        return HandledWith(status);
      }
      var sent := response.Send(bodies(error), ERROR_CONTENT_TYPE);
      return HandledWith(sent);
    case ResourceResponder(site, pages, fallback) =>
      var page := pages(error);
      if page.None? {
        result := RespondWith(fallback, bodies, error, request, response);
        return;
      }
      var status := response.Status(page.value.status);
      if !status.Succeeded() {
        return HandledWith(status);
      }
      var written := WriteWebResourceResponse(site.provider, page.value.path, response, request.httpMethod == Head,
                                              site.contentType(page.value.path), site.chunk);
      if written.error == NotFound && response.state == Uncommitted {
        result := RespondWith(fallback, bodies, error, request, response);
        return;
      }
      return HandledWith(written);
    case CustomResponder(respond) =>
      result := RunHandler(respond(error), response);
  }

  /** What happens to the three atomics while the primary and while the fallback run: whatever
      the setters are called with meanwhile, by the handlers or by other threads. */
  datatype Meanwhile = Meanwhile(duringPrimary: Application -> Application, duringFallback: Application -> Application)

  /** What each stage of a request that starts on `app` then loads. */
  function LoadsOf(app: Application, meanwhile: Meanwhile): Loads {
    var second := meanwhile.duringPrimary(app);
    var third := meanwhile.duringFallback(second);
    Loads(app.primary, second.fallback, second.responder, third.responder)
  }

  class HttpApplication {
    var primary: RequestHandler
    var fallback: RequestHandler
    var responder: Responder
    const bodies: Bodies

    function View(): Application
      reads this
    {
      Application(primary, fallback, responder)
    }

    /** A null error responder means the default one. */
    constructor (primary: RequestHandler, fallback: RequestHandler, responder: Option<Responder>, bodies: Bodies)
      ensures View() == Application(primary, fallback, if responder.None? then DefaultResponder else responder.value)
      ensures this.bodies == bodies
    {
      this.primary, this.fallback, this.bodies := primary, fallback, bodies;
      this.responder := if responder.None? then DefaultResponder else responder.value;
    }

    method SetPrimary(primary: RequestHandler)
      modifies this`primary
      ensures View() == old(View()).(primary := primary)
    {
      this.primary := primary;
    }

    method SetFallback(fallback: RequestHandler)
      modifies this`fallback
      ensures View() == old(View()).(fallback := fallback)
    {
      this.fallback := fallback;
    }

    method SetErrorResponder(responder: Option<Responder>)
      modifies this`responder
      ensures View() == old(View()).(responder := if responder.None? then DefaultResponder else responder.value)
    {
      this.responder := if responder.None? then DefaultResponder else responder.value;
    }

    /** Any calls of the setters. */
    method Replace(app: Application)
      modifies this
      ensures View() == app
    {
      SetPrimary(app.primary);
      SetFallback(app.fallback);
      SetErrorResponder(Some(app.responder));
    }

    method InvokeOne(h: RequestHandler, request: Request, response: HttpResponse) returns (result: HandlerResult)
      modifies response`state, response.platform`log
      ensures (response.View(), result) == Invoke(h, request, old(response.View()), response.platform.answers)
    {
      hide Play, StaticHandle;
      match h
      case Absent => result := NOT_HANDLED;
      case Custom(handler) => result := RunHandler(handler, response);
      case Static(site) => result := HandleStatic(site, request, response);
    }

    /** `stages` records every call of a handler or responder, and the response it starts on. */
    method Resolve(error: WebError, request: Request, response: HttpResponse, ghost before: seq<Stage>)
      returns (result: HandlerResult, ghost stages: seq<Stage>)
      modifies response`state, response.platform`log
      ensures var run := ResolveError(responder, bodies, error, request, old(response.View()),
              response.platform.answers, before);
              response.View() == run.response && result == run.result && stages == run.stages
    {
      hide Respond;
      stages := before;
      if response.state != Uncommitted {
        return HandlerFailure(error), stages;
      }
      stages := stages + [Stage(ErrorResponder, response.View())];
      result := RespondWith(responder, bodies, error, request, response);
    }

    method Handle(request: Request, response: HttpResponse, meanwhile: Meanwhile)
      returns (result: HandlerResult, ghost stages: seq<Stage>)
      modifies this, response`state, response.platform`log
      ensures var run := HandleRequest(LoadsOf(old(View()), meanwhile), bodies, request, old(response.View()),
              response.platform.answers);
              response.View() == run.response && result == run.result && stages == run.stages
      ensures View() == (var second := meanwhile.duringPrimary(old(View()));
                         if |stages| > 1 && stages[1].role == Fallback
                         then meanwhile.duringFallback(second) else second)
    {
      hide Invoke, Respond;
      stages := [Stage(Primary, response.View())];
      result := InvokeOne(primary, request, response);
      Replace(meanwhile.duringPrimary(View()));
      if !result.result.Succeeded() {
        result, stages := Resolve(result.result.error, request, response, stages);
        return;
      }
      if result.disposition == Handled {
        return;
      }
      stages := stages + [Stage(Fallback, response.View())];
      result := InvokeOne(fallback, request, response);
      Replace(meanwhile.duringFallback(View()));
      if !result.result.Succeeded() {
        result, stages := Resolve(result.result.error, request, response, stages);
        return;
      }
      if result.disposition == Handled {
        return;
      }
      result, stages := Resolve(NotFound, request, response, stages);
    }
  }

  /** The numeric value of an error code, which indexes the page table. */
  function ErrorIndex(error: WebError): (index: nat)
    ensures index < 13
  {
    match error
    case NoError => 0
    case InvalidConfiguration => 1
    case AlreadyRunning => 2
    case NotRunning => 3
    case NotFound => 4
    case ResourceExhausted => 5
    case ConnectionFailure => 6
    case RequestTooLarge => 7
    case Unsupported => 8
    case InvalidState => 9
    case ProtocolError => 10
    case Closed => 11
    case PlatformFailure => 12
  }

  /** ResourceHttpErrorResponder's page table. */
  class ErrorPages {
    const mappings: array<Option<Page>>

    ghost predicate Valid()
      reads mappings
    {
      && mappings.Length == 13
      && mappings[0].None?
      && forall i :: 0 <= i < 13 && mappings[i].Some? ==> SafePath(mappings[i].value.path)
    }

    /** The page of each error. */
    ghost function Pages(): WebError -> Option<Page>
      requires Valid()
      reads mappings
    {
      var table := mappings[..];
      error => if ErrorIndex(error) < |table| then table[ErrorIndex(error)] else None
    }

    constructor ()
      ensures Valid() && fresh(mappings) && forall error :: Pages()(error).None?
    {
      mappings := new Option<Page>[13](_ => None);
    }

    /** Configuring one error changes that page and no other. */
    method ConfigureResource(error: WebError, path: string, status: nat) returns (result: WebResult)
      requires Valid()
      modifies mappings
      ensures Valid()
      ensures result.Succeeded() <==> error != NoError && SafePath(path)
      ensures !result.Succeeded() ==> result == Failure(InvalidConfiguration)
      ensures forall other :: Pages()(other) ==
                if result.Succeeded() && other == error then Some(Page(status, path)) else old(Pages()(other))
    {
      var safe := IsSafeWebResourcePath(path);
      if error == NoError || !safe {
        return Failure(InvalidConfiguration);
      }
      mappings[ErrorIndex(error)] := Some(Page(status, path));
      return SUCCESS;
    }

    method ClearResource(error: WebError)
      requires Valid()
      modifies mappings
      ensures Valid()
      ensures forall other :: Pages()(other) == if other == error then None else old(Pages()(other))
    {
      mappings[ErrorIndex(error)] := None;
    }
  }
}

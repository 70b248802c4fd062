/** Static resources, error responders and HttpApplication, composed over one response. */
module Applications {
  import opened WebTypes
  import opened Text
  import opened Responses
  import opened Resources
  import opened Delivery

  datatype Request = Request(httpMethod: HttpMethod, path: string)

  type Handling = (Response, HandlerResult)

  // ---------------------------------------------------------------- static resources

  /** A provider, the content type it is served with, and the read chunk size. */
  datatype Site = Site(provider: Provider, contentType: string -> string, chunk: nat)

  function ServePath(site: Site, path: string, headersOnly: bool, r: Response, answers: Answers): Outcome {
    WriteResource(site.provider, path, r, answers, headersOnly, site.contentType(path), site.chunk)
  }

  /** StaticResourceHandler::Handle. */
  function StaticHandle(site: Site, request: Request, r: Response, answers: Answers): Handling {
    if request.httpMethod != Get && request.httpMethod != Head then (r, NOT_HANDLED)
    else if !SafePath(request.path) then (r, HandlerFailure(ProtocolError))
    else
      var (final, result) := ServePath(site, request.path, request.httpMethod == Head, r, answers);
      (final, if result.error == NotFound then NOT_HANDLED else HandledWith(result))
  }

  /** The static handler declines other methods and refuses unsafe paths without touching the
      response; it declines what is missing; and it handles everything else with the result of
      serving it, of which a HEAD request gets the headers only. */
  lemma StaticDecides(site: Site, request: Request, r: Response, answers: Answers)
    ensures var whole := StaticHandle(site, request, r, answers);
            && (request.httpMethod !in {Get, Head} ==> whole == (r, HandlerResult(SUCCESS, Unhandled)))
            && (request.httpMethod in {Get, Head} && !SafePath(request.path) ==>
                  whole == (r, HandlerResult(WebResult(ProtocolError, 0), Handled)))
            && (request.httpMethod in {Get, Head} && SafePath(request.path) ==>
                  var (served, result) := ServePath(site, request.path, request.httpMethod == Head, r, answers);
                  && whole.0 == served
                  && whole.1 == if result.error == NotFound then HandlerResult(SUCCESS, Unhandled)
                                else HandlerResult(result, Handled))
  {
    hide WriteResource, SafePath;
  }

  /** A missing file is declined with the response untouched: opening says NotFound, or stat does
      where it is asked, or what is there is a directory. */
  lemma MissingIsDeclined(site: Site, request: Request, r: Response, answers: Answers)
    requires request.httpMethod in {Get, Head} && SafePath(request.path) && site.chunk > 0
    requires var provider := site.provider;
             var asksStat := request.httpMethod == Head ||
                             (provider.open.result.error == Unsupported && provider.open.stream.None?);
             || (request.httpMethod == Get && provider.open.result.error == NotFound)
             || (asksStat && provider.stat.result.error == NotFound)
             || (asksStat && provider.stat.result.Succeeded() && provider.stat.isDirectory)
    ensures StaticHandle(site, request, r, answers) == (r, NOT_HANDLED)
  {
    hide SafePath, Stream;
  }

  // ---------------------------------------------------------------- NotFound after the Begin

  /** After the first `from` events, the trace holds a write or a completion answered with the
      error. */
  predicate PlatformSaid(log: seq<Event>, from: nat, error: WebError) {
    exists i :: from <= i < |log| && (log[i].call.Write? || log[i].call.Complete?) && log[i].result.error == error
  }

  /** After the first `from` events, the trace is accepted writes and an Abort, and the read that
      comes after as many reads, at the offset those writes reach, is answered with the error. */
  predicate ReaderSaid(t: Transfer, log: seq<Event>, from: nat, error: WebError)
    requires from <= |log|
  {
    var last := |log| - 1;
    var offset := |Written(log)| - |Written(log[..from])|;
    && from <= last && log[last].call.Abort?
    && (forall i :: from <= i < last ==> log[i].call.Write? && log[i].result.Succeeded())
    && 0 <= offset < t.size
    && t.reader(last - from, offset, Requested(t, offset)).result.error == error
  }

  predicate Said(t: Transfer, log: seq<Event>, from: nat, error: WebError)
    requires from <= |log|
  {
    PlatformSaid(log, from, error) || ReaderSaid(t, log, from, error)
  }

  /** The trace so far: after `from` events, `turn` accepted writes of `offset` bytes in all. */
  predicate Streamed(log: seq<Event>, from: nat, offset: nat, turn: nat) {
    && from + turn == |log|
    && (forall i :: from <= i < |log| ==> log[i].call.Write? && log[i].result.Succeeded())
    && |Written(log)| == |Written(log[..from])| + offset
  }

  lemma CompleteSays(t: Transfer, r: Response, answers: Answers, from: nat, offset: nat, turn: nat, error: WebError)
    requires error != NoError
    requires r.state == Streaming && Streamed(r.log, from, offset, turn)
    ensures var (final, result) := DoComplete(r, answers);
            final.state != Uncommitted && (result.error == error <==> Said(t, final.log, from, error))
  {
    hide Written;
    var final := DoComplete(r, answers).0;
    assert final.log[|r.log|].call == Complete;
  }

  lemma BadReadSays(t: Transfer, r: Response, answers: Answers, from: nat, offset: nat, turn: nat, error: WebError)
    requires error != NoError
    requires r.state == Streaming && Streamed(r.log, from, offset, turn) && offset < t.size
    ensures var final := DoAbort(r, answers);
            && final.state != Uncommitted
            && (Said(t, final.log, from, error) <==>
                t.reader(turn, offset, Requested(t, offset)).result.error == error)
  {
    var e := Event(Abort, answers(r.log, Abort));
    var final := DoAbort(r, answers);
    WrittenStep(r.log, e);
    hide Written;
    assert final.log[|r.log|] == e && final.log[..from] == r.log[..from];
  }

  lemma BadWriteSays(t: Transfer, r: Response, answers: Answers, data: seq<byte>, from: nat, offset: nat, turn: nat,
                     error: WebError)
    requires error != NoError
    requires r.state == Streaming && Streamed(r.log, from, offset, turn)
    requires data != [] && !DoWrite(r, answers, data).1.Succeeded()
    ensures var (written, write) := DoWrite(r, answers, data);
            var final := DoAbort(written, answers);
            final.state != Uncommitted && (write.error == error <==> Said(t, final.log, from, error))
  {
    hide Written;
    var (written, write) := DoWrite(r, answers, data);
    var final := DoAbort(written, answers);
    assert final.log[|r.log|] == Event(Write(data), write);
    assert final.log[|r.log| + 1].call == Abort;
    assert forall i :: from <= i < |r.log| ==> final.log[i] == r.log[i];
  }

  lemma GoodWriteStreams(r: Response, answers: Answers, data: seq<byte>, from: nat, offset: nat, turn: nat)
    requires r.state == Streaming && Streamed(r.log, from, offset, turn)
    requires data != [] && DoWrite(r, answers, data).1.Succeeded()
    ensures var written := DoWrite(r, answers, data).0;
            written.state == Streaming && Streamed(written.log, from, offset + |data|, turn + 1)
  {
    var (written, write) := DoWrite(r, answers, data);
    WrittenStep(r.log, Event(Write(data), write));
    hide Written;
    assert written.log[..from] == r.log[..from];
  }

  /** A transfer reports an error exactly when its trace or the reader behind it said so; only a
      ProtocolError may also be its own verdict on a read. */
  lemma {:induction false} StreamErrorExactly(t: Transfer, r: Response, answers: Answers, buffer: seq<byte>,
                                              from: nat, offset: nat, turn: nat, error: WebError)
    requires error != NoError && error != ProtocolError
    requires 0 < t.chunk == |buffer| && r.state == Streaming && Streamed(r.log, from, offset, turn)
    ensures var (final, result) := Stream(t, r, answers, buffer, offset, turn);
            && final.state != Uncommitted && from <= |final.log|
            && (result.error == error <==> Said(t, final.log, from, error))
    decreases t.size - offset
  {
    hide Said, Streamed, DoAbort, DoComplete, DoWrite;
    StreamFrom(t, r, answers, buffer, from, offset, turn);
    if offset >= t.size {
      CompleteSays(t, r, answers, from, offset, turn, error);
    } else {
      StreamTurn(t, r, answers, buffer, offset, turn);
      hide Stream;
      var requested := Requested(t, offset);
      var answer := t.reader(turn, offset, requested);
      if GoodRead(answer, requested) {
        var filled := Stored(buffer, answer.bytes, requested);
        var data := filled[..answer.bytesRead];
        var (written, write) := DoWrite(r, answers, data);
        if write.Succeeded() {
          GoodWriteStreams(r, answers, data, from, offset, turn);
          StreamErrorExactly(t, written, answers, filled, from, offset + answer.bytesRead, turn + 1, error);
        } else {
          BadWriteSays(t, r, answers, data, from, offset, turn, error);
        }
      } else {
        BadReadSays(t, r, answers, from, offset, turn, error);
      }
    }
  }

  lemma StreamFrom(t: Transfer, r: Response, answers: Answers, buffer: seq<byte>, from: nat, offset: nat, turn: nat)
    requires 0 < t.chunk == |buffer| && r.state == Streaming && Streamed(r.log, from, offset, turn)
    ensures from <= |Stream(t, r, answers, buffer, offset, turn).0.log|
  {
    hide Stream, Written;
    if offset <= t.size {
      StreamCallsBounded(t, r, answers, buffer, offset, turn);
    } else {
      StreamEnd(t, r, answers, buffer, offset, turn);
    }
  }

  /** The Begin is accepted, and the trace after it or the reader says NotFound. */
  predicate LateNotFound(site: Site, request: Request, r: Response, answers: Answers) {
    var headersOnly := request.httpMethod == Head;
    var begun := Opened(site.provider, request.path, r, answers, headersOnly, site.contentType(request.path),
        site.chunk);
    var final := ServePath(site, request.path, headersOnly, r, answers).0;
    && (request.httpMethod == Get || request.httpMethod == Head)
    && begun.Some? && |begun.value.log| <= |final.log|
    && var t := Transfer(site.provider.reader, Locate(site.provider, headersOnly).size, site.chunk);
       Said(t, final.log, |begun.value.log|, NotFound)
  }

  /** The static handler declines a request with the response committed exactly when a NotFound
      comes after the Begin: exactly then its answer invites a fallback it must not have. */
  lemma DeclinesCommittedExactly(site: Site, request: Request, r: Response, answers: Answers)
    requires r.state == Uncommitted
    ensures var (final, result) := StaticHandle(site, request, r, answers);
            result == NOT_HANDLED && final.state != Uncommitted <==> LateNotFound(site, request, r, answers)
  {
    hide Stream, Said, WriteResource, Written, Locate;
    var headersOnly, contentType := request.httpMethod == Head, site.contentType(request.path);
    OpenedOrNot(site.provider, request.path, r, answers, headersOnly, contentType, site.chunk);
    match Opened(site.provider, request.path, r, answers, headersOnly, contentType, site.chunk) {
      case None =>
      case Some(begun) =>
        OpenedIsSafe(site.provider, request.path, r, answers, headersOnly, contentType, site.chunk);
        var t := Transfer(site.provider.reader, Locate(site.provider, headersOnly).size, site.chunk);
        hide Opened, DoComplete;
        assert begun.log[..|begun.log|] == begun.log;
        CompleteSays(t, begun, answers, |begun.log|, 0, 0, NotFound);
        StreamErrorExactly(t, begun, answers, Zeros(site.chunk), |begun.log|, 0, 0, NotFound);
        AbortWritesNothing(begun, answers);
    }
  }

  lemma OpenedIsSafe(provider: Provider, path: string, r: Response, answers: Answers,
                     headersOnly: bool, contentType: string, chunk: nat)
    requires Opened(provider, path, r, answers, headersOnly, contentType, chunk).Some?
    ensures SafePath(path)
  {
  }

  /** Neither the reader nor the platform ever says NotFound once a body is under way. */
  ghost predicate QuietAfterBegin(site: Site, answers: Answers) {
    && (forall turn: nat, offset: nat, requested: nat ::
          site.provider.reader(turn, offset, requested).result.error != NotFound)
    && (forall log: seq<Event>, call: Call :: call.Write? || call.Complete? ==> answers(log, call).error != NotFound)
  }

  lemma {:induction false} QuietNeverNotFound(site: Site, t: Transfer, r: Response, answers: Answers,
                                              buffer: seq<byte>, offset: nat, turn: nat)
    requires 0 < t.chunk == |buffer| && t.reader == site.provider.reader
    requires QuietAfterBegin(site, answers) && r.state == Streaming
    ensures Stream(t, r, answers, buffer, offset, turn).1.error != NotFound
    decreases t.size - offset
  {
    if offset < t.size {
      var requested := Requested(t, offset);
      var answer := t.reader(turn, offset, requested);
      if GoodRead(answer, requested) {
        var filled := Stored(buffer, answer.bytes, requested);
        var (written, write) := DoWrite(r, answers, filled[..answer.bytesRead]);
        if write.Succeeded() {
          QuietNeverNotFound(site, t, written, answers, filled, offset + answer.bytesRead, turn + 1);
        }
      }
    }
  }

  lemma QuietDeclinesUncommitted(site: Site, request: Request, r: Response, answers: Answers)
    requires r.state == Uncommitted && QuietAfterBegin(site, answers)
    ensures StaticHandle(site, request, r, answers).1 == NOT_HANDLED ==>
              StaticHandle(site, request, r, answers).0.state == Uncommitted
  {
    hide Stream, WriteResource, Written, Locate;
    var headersOnly, contentType := request.httpMethod == Head, site.contentType(request.path);
    OpenedOrNot(site.provider, request.path, r, answers, headersOnly, contentType, site.chunk);
    match Opened(site.provider, request.path, r, answers, headersOnly, contentType, site.chunk) {
      case None =>
      case Some(begun) =>
        var t := Transfer(site.provider.reader, Locate(site.provider, headersOnly).size, site.chunk);
        QuietNeverNotFound(site, t, begun, answers, Zeros(site.chunk), 0, 0);
    }
  }

  /** One file of one byte at every path. */
  function OneByteSite(read: WebResult): Site {
    Site(Provider(OpenAnswer(SUCCESS, Some(1)), StatAnswer(SUCCESS, 1, false),
                  (turn, offset, requested) => ReadAnswer(read, 1, [0])),
         path => "text/plain", 1)
  }

  /** A reader that loses its file after the Begin makes the handler decline an aborted response;
      so does a platform whose completion says NotFound. */
  lemma DecliningCommittedHappens()
    ensures var lost := StaticHandle(OneByteSite(Failure(NotFound)), Request(Get, "/a"), FRESH, (log, call) => SUCCESS);
            lost.1 == NOT_HANDLED && lost.0.state == Aborted
    ensures var refused := StaticHandle(OneByteSite(SUCCESS), Request(Head, "/a"), FRESH,
                                        (log, call) => if call == Complete then Failure(NotFound) else SUCCESS);
            refused.1 == NOT_HANDLED && refused.0.state == Streaming
  {
    assert Split("/a", '/', 1) == ["a"] by {
      assert Find("/a", '/', 1) == None;
      assert "/a"[1..] == "a";
    }
    assert SafePath("/a");
  }

  /** Once a body may be under way, readers, writes and completions fail only with these errors. */
  ghost predicate FailsOnlyWith(site: Site, answers: Answers, errors: iset<WebError>) {
    && (forall turn: nat, offset: nat, requested: nat ::
          var error := site.provider.reader(turn, offset, requested).result.error;
          error == NoError || error in errors)
    && (forall log: seq<Event>, call: Call :: call.Write? || call.Complete? ==>
          answers(log, call).error == NoError || answers(log, call).error in errors)
  }

  /** Whatever the site and the platform, short of these errors, no request is declined with the
      response committed. */
  ghost predicate NeverDeclinesCommitted(errors: iset<WebError>) {
    forall site: Site, request: Request, r: Response, answers: Answers ::
      r.state == Uncommitted && FailsOnlyWith(site, answers, errors) ==>
        StaticHandle(site, request, r, answers).1 == NOT_HANDLED ==>
          StaticHandle(site, request, r, answers).0.state == Uncommitted
  }

  /** Which errors a provider and a platform may use after the Begin: any but NotFound. */
  lemma NeverDeclinesCommittedExactly(errors: iset<WebError>)
    ensures NeverDeclinesCommitted(errors) <==> NotFound !in errors
  {
    if NotFound in errors {
      var site, answers: Answers := OneByteSite(Failure(NotFound)), (log, call) => SUCCESS;
      DecliningCommittedHappens();
      assert FailsOnlyWith(site, answers, errors);
      assert StaticHandle(site, Request(Get, "/a"), FRESH, answers).0.state == Aborted;
    } else {
      forall site: Site, request: Request, r: Response, answers: Answers
        | r.state == Uncommitted && FailsOnlyWith(site, answers, errors)
        ensures StaticHandle(site, request, r, answers).1 == NOT_HANDLED ==>
                  StaticHandle(site, request, r, answers).0.state == Uncommitted
      {
        assert QuietAfterBegin(site, answers);
        QuietDeclinesUncommitted(site, request, r, answers);
      }
    }
  }

  // ---------------------------------------------------------------- error responders

  datatype Page = Page(status: nat, path: string)

  datatype Responder =
    | DefaultResponder
    | ResourceResponder(site: Site, pages: WebError -> Option<Page>, fallback: Responder)
    | CustomResponder(respond: WebError -> Handler)

  function DefaultHttpStatusForWebError(error: WebError): nat {
    match error
    case NotFound => 404
    case RequestTooLarge => 413
    case Unsupported => 501
    case ProtocolError => 400
    case InvalidConfiguration => 400
    case ResourceExhausted => 503
    case NotRunning => 503
    case NoError => 200
    case _ => 500
  }

  /** The fixed body texts, as bytes chosen per error. */
  type Bodies = WebError -> seq<byte>

  const ERROR_CONTENT_TYPE := "text/plain; charset=utf-8"

  function Respond(responder: Responder, bodies: Bodies, error: WebError, request: Request, r: Response,
                   answers: Answers): Handling
  {
    match responder
    case DefaultResponder =>
      var (stated, status) := DoStatus(r, answers, DefaultHttpStatusForWebError(error));
      if !status.Succeeded() then (stated, HandledWith(status))
      else
        var (final, result) := DoSend(stated, answers, bodies(error), ERROR_CONTENT_TYPE);
        (final, HandledWith(result))
    case ResourceResponder(site, pages, fallback) =>
      (match pages(error)
       case None => Respond(fallback, bodies, error, request, r, answers)
       case Some(page) =>
         var (stated, status) := DoStatus(r, answers, page.status);
         if !status.Succeeded() then (stated, HandledWith(status))
         else
           var (final, result) := ServePath(site, page.path, request.httpMethod == Head, stated, answers);
           if result.error == NotFound && final.state == Uncommitted then
             Respond(fallback, bodies, error, request, final, answers)
           else (final, HandledWith(result)))
    case CustomResponder(respond) => Play(respond(error), [], r, answers)
  }

  /** The default responder sets the status of the error and then sends its text, in these calls,
      up to the first refused. */
  lemma DefaultResponds(bodies: Bodies, error: WebError, request: Request, r: Response, answers: Answers)
    requires r.state == Uncommitted
    ensures var (final, result) := Respond(DefaultResponder, bodies, error, request, r, answers);
            var status := SetStatus(DefaultHttpStatusForWebError(error));
            var stated := Event(status, answers(r.log, status));
            var send := OpSend(bodies(error), ERROR_CONTENT_TYPE);
            && result.disposition == Handled
            && if !stated.result.Succeeded() then final == r.(log := r.log + [stated]) && result.result == stated.result
               else
                 (final, result.result) == Perform(r.(log := r.log + [stated]), answers, send)
  {
    hide DoSend;
  }

  /** The status codes of errors: what the client did is a 4xx, what the server lacks a 5xx. */
  lemma StatusClasses(error: WebError)
    requires error != NoError
    ensures var client := {NotFound, RequestTooLarge, ProtocolError, InvalidConfiguration};
            (400 <= DefaultHttpStatusForWebError(error) < 500 <==> error in client) &&
            (500 <= DefaultHttpStatusForWebError(error) < 600 <==> error !in client)
    ensures DefaultHttpStatusForWebError(error) == 404 <==> error == NotFound
    ensures DefaultHttpStatusForWebError(error) == 413 <==> error == RequestTooLarge
  {
  }

  /** A resource responder shows the page of the error under the page's status. Without a page, or
      when the page is missing before anything was begun, its fallback responds instead. */
  lemma ResourceResponds(site: Site, pages: WebError -> Option<Page>, fallback: Responder, bodies: Bodies,
                         error: WebError, request: Request, r: Response, answers: Answers)
    requires r.state == Uncommitted
    ensures var whole := Respond(ResourceResponder(site, pages, fallback), bodies, error, request, r, answers);
            match pages(error)
            case None => whole == Respond(fallback, bodies, error, request, r, answers)
            case Some(page) =>
              var status := SetStatus(page.status);
              var stated := r.(log := r.log + [Event(status, answers(r.log, status))]);
              if !answers(r.log, status).Succeeded() then whole == (stated, HandledWith(answers(r.log, status)))
              else
                var (shown, result) := ServePath(site, page.path, request.httpMethod == Head, stated, answers);
                if result.error == NotFound && shown.state == Uncommitted
                then whole == Respond(fallback, bodies, error, request, shown, answers)
                else whole == (shown, HandledWith(result))
  {
    hide WriteResource;
  }

  predicate Shipped(responder: Responder) {
    match responder
    case DefaultResponder => true
    case ResourceResponder(_, _, fallback) => Shipped(fallback)
    case CustomResponder(_) => false
  }

  /** A shipped responder always answers Handled, keeps the trace legal, and succeeds only with
      a completed response. */
  lemma {:induction false} ShippedResponds(responder: Responder, bodies: Bodies, error: WebError, request: Request,
                                           r: Response, answers: Answers)
    requires Shipped(responder) && Consistent(r)
    ensures var (final, result) := Respond(responder, bodies, error, request, r, answers);
            && result.disposition == Handled
            && Consistent(final)
            && (result.result.Succeeded() ==> final.state == Completed)
  {
    hide Legal, WriteResource, DoSend, DoStatus;
    match responder
    case DefaultResponder =>
      StatusKeeps(r, answers, DefaultHttpStatusForWebError(error));
      SendKeeps(DoStatus(r, answers, DefaultHttpStatusForWebError(error)).0, answers, bodies(error),
          ERROR_CONTENT_TYPE);
    case ResourceResponder(site, pages, fallback) =>
      match pages(error) {
        case None => ShippedResponds(fallback, bodies, error, request, r, answers);
        case Some(page) =>
          StatusKeeps(r, answers, page.status);
          var (stated, status) := DoStatus(r, answers, page.status);
          var headersOnly := request.httpMethod == Head;
          WriteResourceKeeps(site.provider, page.path, stated, answers, headersOnly, site.contentType(page.path),
              site.chunk);
          var (final, result) := ServePath(site, page.path, headersOnly, stated, answers);
          ShippedResponds(fallback, bodies, error, request, final, answers);
      }
  }

  lemma StatusKeeps(r: Response, answers: Answers, status: nat)
    requires Consistent(r)
    ensures Consistent(DoStatus(r, answers, status).0) && DoStatus(r, answers, status).0.state == r.state
  {
    hide Legal;
    AskMoves(r, answers, SetStatus(status));
  }

  // ---------------------------------------------------------------- the application

  datatype RequestHandler = Absent | Custom(handler: Handler) | Static(site: Site)

  datatype Application = Application(primary: RequestHandler, fallback: RequestHandler, responder: Responder)

  function Invoke(h: RequestHandler, request: Request, r: Response, answers: Answers): Handling {
    match h
    case Absent => (r, NOT_HANDLED)
    case Custom(handler) => Play(handler, [], r, answers)
    case Static(site) => StaticHandle(site, request, r, answers)
  }

  datatype Role = Primary | Fallback | ErrorResponder

  /** Who was invoked, and the response at that moment. */
  datatype Stage = Stage(role: Role, start: Response)

  datatype Run = Run(response: Response, result: HandlerResult, stages: seq<Stage>)

  /** What a request loads from the three atomics, each when its stage comes: while a handler runs
      it, or another thread, may replace what is loaded later. */
  datatype Loads = Loads(
    primary: RequestHandler,
    fallback: RequestHandler,
    afterPrimary: Responder,
    afterFallback: Responder)

  function ResolveError(responder: Responder, bodies: Bodies, error: WebError, request: Request, r: Response,
                        answers: Answers, stages: seq<Stage>): Run
  {
    if r.state != Uncommitted then Run(r, HandlerFailure(error), stages)
    else
      var (final, result) := Respond(responder, bodies, error, request, r, answers);
      Run(final, result, stages + [Stage(ErrorResponder, r)])
  }

  /** HttpApplication::Handle. */
  function HandleRequest(loads: Loads, bodies: Bodies, request: Request, r: Response, answers: Answers): Run {
    var stages := [Stage(Primary, r)];
    var (first, result) := Invoke(loads.primary, request, r, answers);
    if !result.result.Succeeded() then
      ResolveError(loads.afterPrimary, bodies, result.result.error, request, first, answers, stages)
    else if result.disposition == Handled then Run(first, result, stages)
    else
      var stages' := stages + [Stage(Fallback, first)];
      var (second, result') := Invoke(loads.fallback, request, first, answers);
      if !result'.result.Succeeded() then
        ResolveError(loads.afterFallback, bodies, result'.result.error, request, second, answers, stages')
      else if result'.disposition == Handled then Run(second, result', stages')
      else ResolveError(loads.afterFallback, bodies, NotFound, request, second, answers, stages')
  }

  predicate FallbackStartsCommitted(run: Run) {
    exists i :: 0 <= i < |run.stages| && run.stages[i].role == Fallback && run.stages[i].start.state != Uncommitted
  }

  /** Whatever the handlers do, the error responder starts on an uncommitted response; and the
      fallback starts on a committed one exactly when the primary committed it and declined. */
  lemma StagesStartClean(loads: Loads, bodies: Bodies, request: Request, answers: Answers)
    ensures var run := HandleRequest(loads, bodies, request, FRESH, answers);
            && (forall i :: 0 <= i < |run.stages| && run.stages[i].role == ErrorResponder ==>
                  run.stages[i].start.state == Uncommitted)
            && (FallbackStartsCommitted(run) <==>
                var (first, result) := Invoke(loads.primary, request, FRESH, answers);
                && result.disposition == Unhandled && result.result.Succeeded()
                && first.state != Uncommitted)
  {
    hide Invoke, Respond;
    var run := HandleRequest(loads, bodies, request, FRESH, answers);
    var (first, result) := Invoke(loads.primary, request, FRESH, answers);
    if result.result.Succeeded() && result.disposition == Unhandled {
      assert run.stages[1] == Stage(Fallback, first);
    }
  }

  /** With a static primary the fallback starts on a committed response exactly on a late NotFound. */
  lemma StaticPrimaryFallback(loads: Loads, bodies: Bodies, request: Request, answers: Answers)
    requires loads.primary.Static?
    ensures var run := HandleRequest(loads, bodies, request, FRESH, answers);
            FallbackStartsCommitted(run) <==> LateNotFound(loads.primary.site, request, FRESH, answers)
  {
    StagesStartClean(loads, bodies, request, answers);
    DeclinesCommittedExactly(loads.primary.site, request, FRESH, answers);
    hide LateNotFound, HandleRequest, WriteResource;
  }

  // ---------------------------------------------------------------- who decides a request

  predicate Declines(result: HandlerResult) {
    result.result.Succeeded() && result.disposition == Unhandled
  }

  predicate Takes(result: HandlerResult) {
    result.result.Succeeded() && result.disposition == Handled
  }

  /** How a run ends once a handler failed, or both declined, leaving `left`: on an uncommitted
      response the responder is called with the error and decides; a committed one is left as it
      is and gets the bare error. */
  ghost predicate ErrorDecides(run: Run, before: seq<Stage>, responder: Responder, bodies: Bodies, error: WebError,
                               request: Request, left: Response, answers: Answers)
  {
    if left.state == Uncommitted then
      && (run.response, run.result) == Respond(responder, bodies, error, request, left, answers)
      && run.stages == before + [Stage(ErrorResponder, left)]
    else
      && run.response == left && run.stages == before
      && run.result == HandlerResult(WebResult(error, 0), Handled)
  }

  /** The primary is called first, on the request's response. If it takes the request its answer
      stands; if it fails, its error decides. Exactly if it declines the fallback is called, on the
      response that the primary left; if that one takes the request its answer stands; if it fails,
      its error decides; and if it declines too, NotFound does. Nobody else is called. */
  lemma RequestIsDecided(loads: Loads, bodies: Bodies, request: Request, r: Response, answers: Answers)
    ensures var run := HandleRequest(loads, bodies, request, r, answers);
            var (first, primary) := Invoke(loads.primary, request, r, answers);
            var (second, fallback) := Invoke(loads.fallback, request, first, answers);
            var called := [Stage(Primary, r)];
            var both := called + [Stage(Fallback, first)];
            && (Takes(primary) ==> run == Run(first, primary, called))
            && (!primary.result.Succeeded() ==>
                  ErrorDecides(run, called, loads.afterPrimary, bodies, primary.result.error, request, first, answers))
            && (Declines(primary) && Takes(fallback) ==> run == Run(second, fallback, both))
            && (Declines(primary) && !fallback.result.Succeeded() ==>
                  ErrorDecides(run, both, loads.afterFallback, bodies, fallback.result.error, request, second, answers))
            && (Declines(primary) && Declines(fallback) ==>
                  ErrorDecides(run, both, loads.afterFallback, bodies, NotFound, request, second, answers))
            && ((exists i :: 0 <= i < |run.stages| && run.stages[i].role == Fallback) <==> Declines(primary))
  {
    hide Invoke, Respond;
    var run := HandleRequest(loads, bodies, request, r, answers);
    var (first, primary) := Invoke(loads.primary, request, r, answers);
    if Declines(primary) {
      assert run.stages[1] == Stage(Fallback, first);
    }
  }

  /** An application with a fallback alone answers as the fallback does when that takes the request. */
  lemma FallbackAlone(loads: Loads, bodies: Bodies, request: Request, r: Response, answers: Answers)
    requires loads.primary.Absent? && Takes(Invoke(loads.fallback, request, r, answers).1)
    ensures var run := HandleRequest(loads, bodies, request, r, answers);
            (run.response, run.result) == Invoke(loads.fallback, request, r, answers)
  {
    RequestIsDecided(loads, bodies, request, r, answers);
    hide HandleRequest;
  }

  lemma InvokeKeeps(h: RequestHandler, request: Request, r: Response, answers: Answers)
    requires Consistent(r)
    ensures Consistent(Invoke(h, request, r, answers).0)
    ensures !h.Custom? && Invoke(h, request, r, answers).1.result.Succeeded() &&
            Invoke(h, request, r, answers).1.disposition == Handled ==>
              Invoke(h, request, r, answers).0.state == Completed
  {
    hide Legal, WriteResource, Play;
    match h
    case Absent =>
    case Custom(handler) => PlayKeeps(handler, [], r, answers);
    case Static(site) =>
      WriteResourceKeeps(site.provider, request.path, r, answers, request.httpMethod == Head,
          site.contentType(request.path), site.chunk);
  }

  /** An application of shipped parts never leaves a request unhandled, keeps the trace legal,
      and reports success only for a completed response. */
  lemma ShippedApplicationAnswers(loads: Loads, bodies: Bodies, request: Request, answers: Answers)
    requires ShippedParts(loads)
    ensures var run := HandleRequest(loads, bodies, request, FRESH, answers);
            && run.result.disposition == Handled
            && Consistent(run.response)
            && (run.result.result.Succeeded() ==> run.response.state == Completed)
  {
    hide Invoke, Respond, Legal;
    FreshIsConsistent();
    InvokeKeeps(loads.primary, request, FRESH, answers);
    var (first, result) := Invoke(loads.primary, request, FRESH, answers);
    InvokeKeeps(loads.fallback, request, first, answers);
    var (second, result') := Invoke(loads.fallback, request, first, answers);
    ShippedResponds(loads.afterPrimary, bodies, result.result.error, request, first, answers);
    ShippedResponds(loads.afterFallback, bodies, result'.result.error, request, second, answers);
    ShippedResponds(loads.afterFallback, bodies, NotFound, request, second, answers);
  }

  predicate ShippedParts(loads: Loads) {
    !loads.primary.Custom? && !loads.fallback.Custom? && Shipped(loads.afterPrimary) && Shipped(loads.afterFallback)
  }

  /** With static handlers whose reads and writes never say NotFound after the Begin, every
      stage of every request starts on an uncommitted response. */
  lemma QuietStagesStartClean(loads: Loads, bodies: Bodies, request: Request, answers: Answers)
    requires loads.primary.Static? ==> QuietAfterBegin(loads.primary.site, answers)
    requires !loads.primary.Custom?
    ensures var run := HandleRequest(loads, bodies, request, FRESH, answers);
            forall i :: 0 <= i < |run.stages| ==> run.stages[i].start.state == Uncommitted
  {
    hide Respond, WriteResource, QuietAfterBegin;
    StagesStartClean(loads, bodies, request, answers);
    if loads.primary.Static? {
      QuietDeclinesUncommitted(loads.primary.site, request, FRESH, answers);
    }
  }
}

/** HttpServer::Dispatch: admission, one handler, and the end of the response. */
module Dispatching {
  import opened WebTypes
  import opened Responses
  import opened Applications
  import opened ApplicationObjects
  import Lifecycle

  /** The verdict on a handling, from the result and the state the handler left behind. */
  function Conclude(r: Response, handling: HandlerResult): WebResult {
    if !handling.result.Succeeded() then handling.result
    else if handling.disposition == Unhandled then
      Failure(if r.state != Uncommitted then InvalidState else NotFound)
    else if r.state != Completed then Failure(InvalidState)
    else SUCCESS
  }

  /** What a dispatch reaches once it is admitted: an error, or a handler. */
  function Reached(admission: Lifecycle.Admission, contentLength: Option<nat>): (WebResult, Option<nat>) {
    match admission
    case NotAdmitted => (Failure(NotRunning), None)
    case Admitted(handler, maximum) =>
      if handler.None? then (Failure(InvalidState), None)
      else if contentLength.Some? && contentLength.value > maximum then (Failure(RequestTooLarge), None)
      else (SUCCESS, handler)
  }

  /** Dispatch with any handlers: the result, and the response after its destruction. */
  function Dispatch(admission: Lifecycle.Admission, contentLength: Option<nat>, handlers: nat -> Handler,
                    answers: Answers): Outcome
  {
    var (refused, reached) := Reached(admission, contentLength);
    match reached
    case None => (FRESH, refused)
    case Some(handler) =>
      var (r, handling) := Play(handlers(handler), [], FRESH, answers);
      (DoDestroy(r, answers), Conclude(r, handling))
  }

  method DispatchRequest(server: Lifecycle.ServerCore, contentLength: Option<nat>, handlers: nat -> Handler,
                         platform: ResponsePlatform)
    returns (result: WebResult)
    requires platform.log == []
    modifies platform`log
    ensures var (final, verdict) := Dispatch(Lifecycle.Admit(server.View()), contentLength, handlers, platform.answers);
            platform.log == final.log && result == verdict
  {
    hide Play;
    var admission := server.BeginDispatch();
    if admission.NotAdmitted? {
      return Failure(NotRunning);
    }
    if admission.handler.None? {
      return Failure(InvalidState);
    }
    if contentLength.Some? && contentLength.value > admission.maximumRequestBodyBytes {
      return Failure(RequestTooLarge);
    }
    var response := new HttpResponse(platform);
    var handling := RunHandler(handlers(admission.handler.value), response);
    result := SUCCESS;
    if !handling.result.Succeeded() {
      result := handling.result;
    } else if handling.disposition == Unhandled {
      result := Failure(if response.state != Uncommitted then InvalidState else NotFound);
    } else if response.state != Completed {
      result := Failure(InvalidState);
    }
    response.Destroy();
  }

  /** Who is refused, in this order, without any platform call: a request to a server that is not
      running, to one without a handler, and one that declares more than the limit. */
  lemma RefusalsExactly(core: Lifecycle.Core, contentLength: Option<nat>, handlers: nat -> Handler, answers: Answers)
    ensures var (final, result) := Dispatch(Lifecycle.Admit(core), contentLength, handlers, answers);
            var limit := core.configuration.maximumRequestBodyBytes;
            var tooLarge := contentLength.Some? && contentLength.value > limit;
            && (core.state != Lifecycle.Running ==> result == WebResult(NotRunning, 0))
            && (core.state == Lifecycle.Running && core.handler.None? ==> result == WebResult(InvalidState, 0))
            && (core.state == Lifecycle.Running && core.handler.Some? && tooLarge ==>
                  result == WebResult(RequestTooLarge, 0))
            && (core.state != Lifecycle.Running || core.handler.None? || tooLarge ==>
                  final.log == [] && final.state == Uncommitted)
  {
  }

  /** Every other request reaches the server's handler with a fresh response. Its failure is the
      result; declining is NotFound before the response is committed and InvalidState after; and
      handling succeeds exactly with a completed response. A response left streaming is aborted,
      any other left as it is. */
  lemma AdmittedExactly(core: Lifecycle.Core, contentLength: Option<nat>, handlers: nat -> Handler, answers: Answers)
    requires core.state == Lifecycle.Running && core.handler.Some?
    requires contentLength.Some? ==> contentLength.value <= core.configuration.maximumRequestBodyBytes
    ensures var (final, result) := Dispatch(Lifecycle.Admit(core), contentLength, handlers, answers);
            var (left, handling) := Play(handlers(core.handler.value), [], FRESH, answers);
            && (!handling.result.Succeeded() ==> result == handling.result)
            && (handling.result.Succeeded() && handling.disposition == Unhandled ==>
                  result == WebResult(if left.state == Uncommitted then NotFound else InvalidState, 0))
            && (handling.result.Succeeded() && handling.disposition == Handled ==>
                  result == if left.state == Completed then SUCCESS else WebResult(InvalidState, 0))
            && final == (if left.state == Streaming
                         then Response(Aborted, left.log + [Event(Abort, answers(left.log, Abort))]) else left)
  {
    hide Play;
  }

  /** However the handler behaves and whatever the platform answers, the response is never left
      streaming, its trace is legal, and success means exactly one accepted Begin, one accepted
      Complete and no Abort. */
  lemma DispatchEndsTheResponse(admission: Lifecycle.Admission, contentLength: Option<nat>,
                                handlers: nat -> Handler, answers: Answers)
    ensures var (final, result) := Dispatch(admission, contentLength, handlers, answers);
            && Consistent(final)
            && final.state != Streaming
            && (result.Succeeded() ==>
                  final.state == Completed &&
                  CountOpening(final.log) == 1 && CountClosing(final.log) == 1 && CountAbort(final.log) == 0)
  {
    hide Legal, Play, CountOpening, CountClosing, CountAbort;
    FreshIsConsistent();
    var reached := Reached(admission, contentLength).1;
    if reached.Some? {
      PlayKeeps(handlers(reached.value), [], FRESH, answers);
      var (r, handling) := Play(handlers(reached.value), [], FRESH, answers);
      AbortKeeps(r, answers);
      if Conclude(r, handling).Succeeded() {
        CompletedCounts(r.log);
      }
    }
  }

  /** A request that was not admitted, has no handler, or declares too large a body makes no
      platform call at all; and a handler that answers NotFound by declining has begun nothing. */
  lemma RefusedDispatchIsSilent(admission: Lifecycle.Admission, contentLength: Option<nat>,
                                handlers: nat -> Handler, answers: Answers)
    requires var (refused, reached) := Reached(admission, contentLength);
             reached.None? || Play(handlers(reached.value), [], FRESH, answers).1 == NOT_HANDLED
    ensures var (final, result) := Dispatch(admission, contentLength, handlers, answers);
            && !result.Succeeded()
            && (Reached(admission, contentLength).1.None? ==> final.log == [])
            && (result.error == NotFound ==> forall k :: 0 <= k < |final.log| ==> Setup(final.log[k]))
  {
    hide Play;
    FreshIsConsistent();
    var reached := Reached(admission, contentLength).1;
    if reached.Some? {
      PlayKeeps(handlers(reached.value), [], FRESH, answers);
    }
  }

  /** Behind a dispatch, an application of shipped parts succeeds exactly when it says so: the
      dispatcher's own checks never turn its success into a failure. */
  lemma ShippedApplicationDispatches(loads: Loads, bodies: Bodies, request: Request, answers: Answers)
    requires ShippedParts(loads)
    ensures var run := HandleRequest(loads, bodies, request, FRESH, answers);
            && Conclude(run.response, run.result) ==
               (if run.result.result.Succeeded() then SUCCESS else run.result.result)
            && Consistent(DoDestroy(run.response, answers))
            && DoDestroy(run.response, answers).state != Streaming
  {
    hide HandleRequest, Legal;
    ShippedApplicationAnswers(loads, bodies, request, answers);
    AbortKeeps(HandleRequest(loads, bodies, request, FRESH, answers).response, answers);
  }
}

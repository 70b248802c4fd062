/** DnsResponse, DnsServer::Dispatch and WildcardDnsHandler, against any response platform. */
module Dns {
  import opened WebTypes
  import Lifecycle

  datatype ResponseState = Uncommitted | Building | Completed | Aborted

  datatype ResponseCode = NoErrorCode | FormatError | ServerFailure | NameError | NotImplemented | Refused

  datatype Family = IPv4 | IPv6

  datatype Address = Address(family: Family, bytes: seq<byte>)

  datatype RecordType = A | Aaaa | OtherType

  datatype RecordClass = Internet | OtherClass

  datatype Query = Query(recordType: RecordType, recordClass: RecordClass)

  datatype Call = SetResponseCode(code: ResponseCode) | AddAddressAnswer(address: Address, ttl: nat) | Complete | Abort

  datatype Event = Event(call: Call, result: WebResult)

  type Answers = (seq<Event>, Call) -> WebResult

  datatype Response = Response(state: ResponseState, log: seq<Event>)

  const FRESH := Response(Uncommitted, [])

  type Outcome = (Response, WebResult)

  // ---------------------------------------------------------------- specification functions

  function Ask(r: Response, answers: Answers, call: Call): Outcome {
    var result := answers(r.log, call);
    (r.(log := r.log + [Event(call, result)]), result)
  }

  function DoCode(r: Response, answers: Answers, code: ResponseCode): Outcome {
    if r.state == Completed || r.state == Aborted then (r, Failure(InvalidState))
    else
      var (asked, result) := Ask(r, answers, SetResponseCode(code));
      (if result.Succeeded() then asked.(state := Building) else asked, result)
  }

  function DoAddress(r: Response, answers: Answers, address: Address, ttl: nat): Outcome {
    var (coded, code) := if r.state == Uncommitted then DoCode(r, answers, NoErrorCode) else (r, SUCCESS);
    if !code.Succeeded() then (coded, code)
    else if coded.state != Building then (coded, Failure(InvalidState))
    else Ask(coded, answers, AddAddressAnswer(address, ttl))
  }

  function DoComplete(r: Response, answers: Answers): Outcome {
    if r.state == Completed then (r, SUCCESS)
    else if r.state == Aborted then (r, Failure(InvalidState))
    else
      var (coded, code) := if r.state == Uncommitted then DoCode(r, answers, NoErrorCode) else (r, SUCCESS);
      if !code.Succeeded() then (coded, code)
      else
        var (asked, result) := Ask(coded, answers, Complete);
        (if result.Succeeded() then asked.(state := Completed) else asked, result)
  }

  function DoAbort(r: Response, answers: Answers): Response {
    if r.state == Completed || r.state == Aborted then r
    else Ask(r, answers, Abort).0.(state := Aborted)
  }

  function DoDestroy(r: Response, answers: Answers): Response {
    if r.state == Building then DoAbort(r, answers) else r
  }

  // ---------------------------------------------------------------- the class

  class DnsResponse {
    const answers: Answers
    var state: ResponseState
    var log: seq<Event>

    ghost function View(): Response
      reads this
    {
      Response(state, log)
    }

    constructor (answers: Answers)
      ensures this.answers == answers && View() == FRESH
    {
      this.answers, state, log := answers, Uncommitted, [];
    }

    method Answer(call: Call) returns (result: WebResult)
      modifies this`log
      ensures (View(), result) == Ask(old(View()), answers, call)
    {
      result := answers(log, call);
      log := log + [Event(call, result)];
    }

    method Code(code: ResponseCode) returns (result: WebResult)
      modifies this
      ensures (View(), result) == DoCode(old(View()), answers, code)
    {
      if state == Completed || state == Aborted {
        return Failure(InvalidState);
      }
      result := Answer(SetResponseCode(code));
      if result.Succeeded() {
        state := Building;
      }
    }

    method AddAddress(address: Address, ttl: nat) returns (result: WebResult)
      modifies this
      ensures (View(), result) == DoAddress(old(View()), answers, address, ttl)
    {
      if state == Uncommitted {
        var code := Code(NoErrorCode);
        if !code.Succeeded() {
          return code;
        }
      }
      if state != Building {
        return Failure(InvalidState);
      }
      result := Answer(AddAddressAnswer(address, ttl));
    }

    method Complete() returns (result: WebResult)
      modifies this
      ensures (View(), result) == DoComplete(old(View()), answers)
    {
      if state == Completed {
        return SUCCESS;
      }
      if state == Aborted {
        return Failure(InvalidState);
      }
      if state == Uncommitted {
        var code := Code(NoErrorCode);
        if !code.Succeeded() {
          return code;
        }
      }
      result := Answer(Call.Complete);
      if result.Succeeded() {
        state := Completed;
      }
    }

    method Abort()
      modifies this
      ensures View() == DoAbort(old(View()), answers)
    {
      if state == Completed || state == Aborted {
        return;
      }
      var _ := Answer(Call.Abort);
      state := Aborted;
    }

    /** The destructor. */
    method Destroy()
      modifies this
      ensures View() == DoDestroy(old(View()), answers)
    {
      if state == Building {
        Abort();
      }
    }
  }

  // ---------------------------------------------------------------- the language of traces

  predicate Coded(e: Event) {
    e.call.SetResponseCode? && e.result.Succeeded()
  }

  predicate Setup(e: Event) {
    e.call.SetResponseCode? && !e.result.Succeeded()
  }

  predicate Body(e: Event) {
    e.call.SetResponseCode? || e.call.AddAddressAnswer? || (e.call.Complete? && !e.result.Succeeded())
  }

  /** Refused codes, one accepted code, then codes, answers and refused completions. */
  predicate CodedAt(log: seq<Event>, n: nat, end: nat) {
    && n < end <= |log|
    && (forall k :: 0 <= k < n ==> Setup(log[k]))
    && Coded(log[n])
    && (forall k :: n < k < end ==> Body(log[k]))
  }

  ghost predicate Legal(log: seq<Event>, state: ResponseState) {
    var last := |log| - 1;
    match state
    case Uncommitted => forall k :: 0 <= k < |log| ==> Setup(log[k])
    case Building => exists n: nat :: CodedAt(log, n, |log|)
    case Completed =>
      last >= 0 && log[last].call.Complete? && log[last].result.Succeeded() &&
      exists n: nat :: CodedAt(log, n, last)
    case Aborted =>
      last >= 0 && log[last].call.Abort? &&
      ((forall k :: 0 <= k < last ==> Setup(log[k])) || exists n: nat :: CodedAt(log, n, last))
  }

  ghost predicate Consistent(r: Response) {
    Legal(r.log, r.state)
  }

  lemma LegalMoves(log: seq<Event>, e: Event)
    ensures Legal(log, Uncommitted) && Setup(e) ==> Legal(log + [e], Uncommitted)
    ensures Legal(log, Uncommitted) && Coded(e) ==> Legal(log + [e], Building)
    ensures Legal(log, Building) && Body(e) ==> Legal(log + [e], Building)
    ensures Legal(log, Building) && e.call.Complete? && e.result.Succeeded() ==> Legal(log + [e], Completed)
    ensures (Legal(log, Uncommitted) || Legal(log, Building)) && e.call.Abort? ==> Legal(log + [e], Aborted)
  {
    var longer := log + [e];
    assert forall k :: 0 <= k < |log| ==> longer[k] == log[k];
    if Legal(log, Uncommitted) && Coded(e) {
      assert CodedAt(longer, |log|, |longer|);
    }
    if Legal(log, Building) {
      var n: nat :| CodedAt(log, n, |log|);
      assert CodedAt(longer, n, |log|);
      if Body(e) {
        assert CodedAt(longer, n, |longer|);
      }
    }
  }

  lemma CodeKeeps(r: Response, answers: Answers, code: ResponseCode)
    requires Consistent(r)
    ensures Consistent(DoCode(r, answers, code).0)
  {
    LegalMoves(r.log, Event(SetResponseCode(code), answers(r.log, SetResponseCode(code))));
    hide Legal;
  }

  lemma AddressKeeps(r: Response, answers: Answers, address: Address, ttl: nat)
    requires Consistent(r)
    ensures Consistent(DoAddress(r, answers, address, ttl).0)
  {
    hide Legal;
    CodeKeeps(r, answers, NoErrorCode);
    var coded := if r.state == Uncommitted then DoCode(r, answers, NoErrorCode).0 else r;
    LegalMoves(coded.log, Event(AddAddressAnswer(address, ttl), answers(coded.log, AddAddressAnswer(address, ttl))));
  }

  lemma CompleteKeeps(r: Response, answers: Answers)
    requires Consistent(r)
    ensures Consistent(DoComplete(r, answers).0)
    ensures DoComplete(r, answers).1.Succeeded() ==> DoComplete(r, answers).0.state == Completed
  {
    hide Legal;
    CodeKeeps(r, answers, NoErrorCode);
    var coded := if r.state == Uncommitted then DoCode(r, answers, NoErrorCode).0 else r;
    LegalMoves(coded.log, Event(Complete, answers(coded.log, Complete)));
  }

  lemma AbortKeeps(r: Response, answers: Answers)
    requires Consistent(r)
    ensures Consistent(DoAbort(r, answers)) && Consistent(DoDestroy(r, answers)) &&
            DoDestroy(r, answers).state != Building
  {
    LegalMoves(r.log, Event(Abort, answers(r.log, Abort)));
    hide Legal;
  }

  // ---------------------------------------------------------------- handlers and dispatch

  datatype Op = OpCode(code: ResponseCode) | OpAddress(address: Address, ttl: nat) | OpComplete | OpAbort

  function Perform(r: Response, answers: Answers, op: Op): Outcome {
    match op
    case OpCode(code) => DoCode(r, answers, code)
    case OpAddress(address, ttl) => DoAddress(r, answers, address, ttl)
    case OpComplete => DoComplete(r, answers)
    case OpAbort => (DoAbort(r, answers), SUCCESS)
  }

  /** The calls in order, up to and including the first that is refused. */
  function AskedInTurn(calls: seq<Call>, answers: Answers, log: seq<Event>): seq<Event> {
    if |calls| == 0 then log
    else
      var e := Event(calls[0], answers(log, calls[0]));
      if e.result.Succeeded() then AskedInTurn(calls[1..], answers, log + [e]) else log + [e]
  }

  lemma AskedOnce(calls: seq<Call>, answers: Answers, log: seq<Event>)
    requires |calls| > 0
    ensures var e := Event(calls[0], answers(log, calls[0]));
            AskedInTurn(calls, answers, log) ==
            if e.result.Succeeded() && |calls| > 1 then AskedInTurn(calls[1..], answers, log + [e]) else log + [e]
  {
  }

  /** What an operation should come to in a state. */
  datatype Plan = Refuses(error: WebError) | Nothing | Asks(calls: seq<Call>)

  function PlanOf(state: ResponseState, op: Op): Plan {
    match op
    case OpCode(code) => BeforeEnd(state, [SetResponseCode(code)])
    case OpAddress(address, ttl) => BeforeEnd(state, WithCode(state, AddAddressAnswer(address, ttl)))
    case OpComplete => if state == Completed then Nothing else BeforeEnd(state, WithCode(state, Complete))
    case OpAbort => if state == Completed || state == Aborted then Nothing else Asks([Abort])
  }

  function BeforeEnd(state: ResponseState, calls: seq<Call>): Plan {
    if state == Completed || state == Aborted then Refuses(InvalidState) else Asks(calls)
  }

  /** A call that needs a code first. */
  function WithCode(state: ResponseState, call: Call): seq<Call> {
    if state == Uncommitted then [SetResponseCode(NoErrorCode), call] else [call]
  }

  /** The state that a call and its answer lead to. */
  function StateAfter(state: ResponseState, e: Event): ResponseState {
    if e.call.Abort? then Aborted
    else if e.call.SetResponseCode? && e.result.Succeeded() then Building
    else if e.call.Complete? && e.result.Succeeded() then Completed
    else state
  }

  /** Every operation in every state, on every platform: it makes exactly the calls of its plan in
      order, up to the first refused, reports the last answer, and is in the state that these
      calls lead to. */
  lemma PerformFollowsPlan(r: Response, answers: Answers, op: Op)
    ensures var (final, result) := Perform(r, answers, op);
            match PlanOf(r.state, op)
            case Refuses(error) => final == r && result == Failure(error)
            case Nothing => final == r && result == SUCCESS
            case Asks(calls) =>
              var asked := AskedInTurn(calls, answers, r.log);
              var first := Event(calls[0], answers(r.log, calls[0]));
              && |asked| > |r.log| && final.log == asked
              && final.state == (if |asked| == |r.log| + 1 then StateAfter(r.state, first)
                                 else StateAfter(StateAfter(r.state, first), asked[|asked| - 1]))
              && (!op.OpAbort? ==> result == asked[|asked| - 1].result)
  {
    match PlanOf(r.state, op)
    case Refuses(_) =>
    case Nothing =>
    case Asks(calls) =>
      AskedOnce(calls, answers, r.log);
      if |calls| > 1 {
        AskedOnce(calls[1..], answers, r.log + [Event(calls[0], answers(r.log, calls[0]))]);
      }
  }

  datatype Seen = Seen(result: WebResult, state: ResponseState)

  datatype Move = Do(op: Op) | Return(result: HandlerResult)

  /** Any handler whose run makes at most `limit` operations. */
  datatype Handler = Handler(behaviour: seq<Seen> -> Move, limit: nat, atLimit: HandlerResult)

  function Play(h: Handler, seen: seq<Seen>, r: Response, answers: Answers): (Response, HandlerResult)
    decreases h.limit - |seen|
  {
    if |seen| >= h.limit then (r, h.atLimit)
    else
      match h.behaviour(seen)
      case Return(result) => (r, result)
      case Do(op) =>
        var (next, result) := Perform(r, answers, op);
        Play(h, seen + [Seen(result, next.state)], next, answers)
  }

  lemma {:induction false} PlayKeeps(h: Handler, seen: seq<Seen>, r: Response, answers: Answers)
    requires Consistent(r)
    ensures Consistent(Play(h, seen, r, answers).0)
    decreases h.limit - |seen|
  {
    hide Legal;
    if |seen| < h.limit && h.behaviour(seen).Do? {
      var op := h.behaviour(seen).op;
      match op {
        case OpCode(code) => CodeKeeps(r, answers, code);
        case OpAddress(address, ttl) => AddressKeeps(r, answers, address, ttl);
        case OpComplete => CompleteKeeps(r, answers);
        case OpAbort => AbortKeeps(r, answers);
      }
      var (next, result) := Perform(r, answers, op);
      PlayKeeps(h, seen + [Seen(result, next.state)], next, answers);
    }
  }

  /** What DnsServer::Dispatch makes of a handling: a declined query is answered with NameError. */
  function Conclude(r: Response, handling: HandlerResult, answers: Answers): Outcome {
    if !handling.result.Succeeded() then (r, handling.result)
    else if handling.disposition == Unhandled then
      if r.state != Uncommitted then (r, Failure(InvalidState))
      else
        var (coded, code) := DoCode(r, answers, NameError);
        if !code.Succeeded() then (coded, code) else DoComplete(coded, answers)
    else (r, if r.state == Completed then SUCCESS else Failure(InvalidState))
  }

  function Serve(h: Handler, answers: Answers): Outcome {
    var (r, handling) := Play(h, [], FRESH, answers);
    var (final, result) := Conclude(r, handling, answers);
    (DoDestroy(final, answers), result)
  }

  /** DnsServer::Dispatch. */
  function Dispatch(running: bool, handler: Option<Handler>, answers: Answers): Outcome {
    if !running then (FRESH, Failure(NotRunning))
    else if handler.None? then (FRESH, Failure(InvalidState))
    else Serve(handler.value, answers)
  }

  /** Any handler, run against the response object. */
  method RunHandler(h: Handler, response: DnsResponse) returns (result: HandlerResult)
    modifies response
    ensures (response.View(), result) == Play(h, [], old(response.View()), response.answers)
  {
    hide DoCode, DoAddress, DoComplete, DoAbort;
    ghost var whole := Play(h, [], response.View(), response.answers);
    var seen: seq<Seen> := [];
    while |seen| < h.limit
      invariant whole == Play(h, seen, response.View(), response.answers)
      decreases h.limit - |seen|
    {
      var move := h.behaviour(seen);
      if move.Return? {
        return move.result;
      }
      var outcome := SUCCESS;
      match move.op {
        case OpCode(code) => outcome := response.Code(code);
        case OpAddress(address, ttl) => outcome := response.AddAddress(address, ttl);
        case OpComplete => outcome := response.Complete();
        case OpAbort => response.Abort();
      }
      seen := seen + [Seen(outcome, response.state)];
    }
    return h.atLimit;
  }

  method DispatchQuery(server: DnsServer, handlers: nat -> Handler, answers: Answers)
    returns (result: WebResult, log: seq<Event>)
    ensures var handler := if server.handler.None? then None else Some(handlers(server.handler.value));
            var (final, verdict) := Dispatch(server.state == Lifecycle.Running, handler, answers);
            log == final.log && result == verdict
  {
    hide Play, DoCode, DoComplete, DoDestroy, DoAbort;
    var running, handler := server.BeginDispatch();
    if !running {
      return Failure(NotRunning), [];
    }
    if handler.None? {
      return Failure(InvalidState), [];
    }
    var response := new DnsResponse(answers);
    var handling := RunHandler(handlers(handler.value), response);
    if !handling.result.Succeeded() {
      result := handling.result;
    } else if handling.disposition == Unhandled {
      if response.state != Uncommitted {
        result := Failure(InvalidState);
      } else {
        result := response.Code(NameError);
        if result.Succeeded() {
          result := response.Complete();
        }
      }
    } else {
      result := if response.state == Completed then SUCCESS else Failure(InvalidState);
    }
    response.Destroy();
    log := response.log;
  }

  lemma ConcludeKeeps(r: Response, handling: HandlerResult, answers: Answers)
    requires Consistent(r)
    ensures Consistent(Conclude(r, handling, answers).0)
    ensures Conclude(r, handling, answers).1.Succeeded() ==> Conclude(r, handling, answers).0.state == Completed
  {
    hide Legal, DoCode, DoComplete;
    CodeKeeps(r, answers, NameError);
    CompleteKeeps(DoCode(r, answers, NameError).0, answers);
  }

  /** The response is never left half built, its trace is legal, and success means it was
      completed: one accepted code first, and the accepted completion last. */
  lemma DispatchEndsTheResponse(running: bool, handler: Option<Handler>, answers: Answers)
    ensures var (final, result) := Dispatch(running, handler, answers);
            && Consistent(final)
            && final.state != Building
            && (result.Succeeded() ==> final.state == Completed)
            && (!running || handler.None? ==> final.log == [] && !result.Succeeded())
  {
    assert Consistent(FRESH);
    hide Legal, Play, Conclude;
    if running && handler.Some? {
      var h := handler.value;
      PlayKeeps(h, [], FRESH, answers);
      var (r, handling) := Play(h, [], FRESH, answers);
      ConcludeKeeps(r, handling, answers);
      AbortKeeps(Conclude(r, handling, answers).0, answers);
    }
  }

  /** Who is refused without any platform call, and what becomes of every other query: it reaches
      the handler with a fresh response; a failure is the result; a query declined before the
      response was begun is answered with NameError, up to the first refused call, and declined
      later is InvalidState; and handling succeeds exactly with a completed response. A response
      left half built is aborted. */
  lemma DispatchExactly(running: bool, handler: Option<Handler>, answers: Answers)
    ensures !running ==> Dispatch(running, handler, answers) == (FRESH, WebResult(NotRunning, 0))
    ensures running && handler.None? ==> Dispatch(running, handler, answers) == (FRESH, WebResult(InvalidState, 0))
    ensures running && handler.Some? ==>
              var (final, result) := Dispatch(running, handler, answers);
              var (left, handling) := Play(handler.value, [], FRESH, answers);
              if !handling.result.Succeeded() then
                final == AbortedIfBuilding(left, answers) && result == handling.result
              else if handling.disposition == Handled then
                && final == AbortedIfBuilding(left, answers)
                && result == (if left.state == Completed then SUCCESS else WebResult(InvalidState, 0))
              else if left.state != Uncommitted then
                final == AbortedIfBuilding(left, answers) && result == WebResult(InvalidState, 0)
              else
                var asked := AskedInTurn([SetResponseCode(NameError), Complete], answers, left.log);
                && |asked| > |left.log| && result == asked[|asked| - 1].result
                && final.log == if result.Succeeded() || |asked| == |left.log| + 1 then asked
                                else asked + [Event(Abort, answers(asked, Abort))]
  {
    hide Play;
    if running && handler.Some? {
      var left := Play(handler.value, [], FRESH, answers).0;
      var calls := [SetResponseCode(NameError), Complete];
      AskedOnce(calls, answers, left.log);
      AskedOnce(calls[1..], answers, left.log + [Event(calls[0], answers(left.log, calls[0]))]);
    }
  }

  function AbortedIfBuilding(r: Response, answers: Answers): Response {
    if r.state == Building then Response(Aborted, r.log + [Event(Abort, answers(r.log, Abort))]) else r
  }

  // ---------------------------------------------------------------- the server object

  /** The server object; each method is one locked section. It stores no configuration: for every
      configuration, its sections are those of the machine in `Lifecycle` whose server keeps that
      one, so every theorem about the runs of that machine is one about this server. */
  class DnsServer {
    var state: Lifecycle.ServerState
    var handler: Option<nat>

    ghost function View(c: Lifecycle.Configuration): Lifecycle.Core
      reads this
    {
      Lifecycle.Core(state, c, handler)
    }

    constructor ()
      ensures forall c :: View(c) == Lifecycle.Core(Lifecycle.Stopped, c, None)
    {
      state, handler := Lifecycle.Stopped, None;
    }

    method BeginInitialize() returns (result: WebResult)
      modifies this`state
      ensures forall c :: (View(c), result) == Lifecycle.ClaimInitialize(old(View(c)))
    {
      if state == Lifecycle.Running || state == Lifecycle.Starting ||
         state == Lifecycle.Stopping || state == Lifecycle.Initializing
      {
        return Failure(InvalidState);
      }
      state := Lifecycle.Initializing;
      return SUCCESS;
    }

    method EndInitialize(result: WebResult)
      modifies this`state
      ensures forall c :: View(c) == Lifecycle.FinishInitialize(old(View(c)), c, result.Succeeded())
    {
      state := if result.Succeeded() then Lifecycle.Ready else Lifecycle.Faulted;
    }

    method BeginStart() returns (result: WebResult)
      modifies this`state
      ensures forall c :: (View(c), result) == Lifecycle.ClaimStart(old(View(c)))
    {
      if state == Lifecycle.Running {
        return Failure(AlreadyRunning);
      }
      if state != Lifecycle.Ready {
        return Failure(InvalidState);
      }
      state := Lifecycle.Starting;
      return SUCCESS;
    }

    method EndStart(result: WebResult)
      modifies this`state
      ensures forall c :: View(c) == Lifecycle.FinishStart(old(View(c)), result.Succeeded())
    {
      state := if result.Succeeded() then Lifecycle.Running else Lifecycle.Faulted;
    }

    method BeginStop() returns (claim: Lifecycle.StopClaim)
      modifies this`state
      ensures forall c :: (View(c), claim) == Lifecycle.ClaimStop(old(View(c)))
    {
      if state == Lifecycle.Stopped {
        return Lifecycle.AlreadyStopped;
      }
      if state == Lifecycle.Ready || state == Lifecycle.Faulted {
        state := Lifecycle.Stopped;
        return Lifecycle.ResetOnly;
      } else if state == Lifecycle.Running {
        state := Lifecycle.Stopping;
        return Lifecycle.MustStop;
      }
      return Lifecycle.StopClaim.Refused;
    }

    method EndStop(result: WebResult)
      modifies this`state
      ensures forall c :: View(c) == Lifecycle.FinishStop(old(View(c)), result.Succeeded())
    {
      state := if result.Succeeded() then Lifecycle.Stopped else Lifecycle.Faulted;
    }

    method SetRequestHandler(handler: Option<nat>) returns (result: WebResult)
      modifies this`handler
      ensures forall c :: (View(c), result) == Lifecycle.SetHandler(old(View(c)), handler)
    {
      if state == Lifecycle.Running || state == Lifecycle.Starting || state == Lifecycle.Stopping {
        return Failure(InvalidState);
      }
      this.handler := handler;
      return SUCCESS;
    }

    method BeginDispatch() returns (running: bool, admitted: Option<nat>)
      ensures running == (state == Lifecycle.Running) && (running ==> admitted == handler)
      ensures forall c :: Lifecycle.Admit(View(c)) ==
                          if running then Lifecycle.Admission.Admitted(admitted, c.maximumRequestBodyBytes)
                          else Lifecycle.NotAdmitted
    {
      if state != Lifecycle.Running {
        return false, None;
      }
      return true, handler;
    }
  }

  // ---------------------------------------------------------------- the wildcard handler

  predicate Compatible(address: Address, query: Query) {
    (address.family == IPv4 && query.recordType == A) || (address.family == IPv6 && query.recordType == Aaaa)
  }

  /** WildcardDnsHandler::Handle, as a handler of at most two operations. */
  function Wildcard(address: Address, ttl: nat, query: Query): Handler {
    Handler(
      (seen: seq<Seen>) =>
        if !Compatible(address, query) || query.recordClass != Internet then Return(NOT_HANDLED)
        else if |seen| == 0 then Do(OpAddress(address, ttl))
        else if |seen| == 1 && seen[0].result.Succeeded() then Do(OpComplete)
        else Return(HandledWith(seen[|seen| - 1].result)),
      3, NOT_HANDLED)
  }

  method HandleWildcard(address: Address, ttl: nat, query: Query, response: DnsResponse) returns (result: HandlerResult)
    modifies response
    ensures (response.View(), result) == Play(Wildcard(address, ttl, query), [], old(response.View()), response.answers)
  {
    hide Play, Wildcard, DoAddress, DoComplete;
    WildcardPlays(address, ttl, query, response.View(), response.answers);
    if !Compatible(address, query) || query.recordClass != Internet {
      return NOT_HANDLED;
    }
    var added := response.AddAddress(address, ttl);
    if !added.Succeeded() {
      return HandledWith(added);
    }
    var completed := response.Complete();
    return HandledWith(completed);
  }

  /** The whole exchange of a wildcard server: a compatible query is answered with the address,
      any other with NameError and no address. */
  function WildcardCalls(address: Address, ttl: nat, query: Query): seq<Call> {
    if Compatible(address, query) && query.recordClass == Internet
    then [SetResponseCode(NoErrorCode), AddAddressAnswer(address, ttl), Complete]
    else [SetResponseCode(NameError), Complete]
  }

  /** A running wildcard server makes exactly those calls in that order, stops at the first one
      refused and reports its error, and then aborts exactly when a code had been accepted. */
  lemma WildcardAnswers(address: Address, ttl: nat, query: Query, answers: Answers)
    ensures var (final, result) := Dispatch(true, Some(Wildcard(address, ttl, query)), answers);
            var asked := AskedInTurn(WildcardCalls(address, ttl, query), answers, []);
            && |asked| > 0
            && result.error == asked[|asked| - 1].result.error
            && (!result.Succeeded() ==> result == asked[|asked| - 1].result)
            && (result.Succeeded() <==> final.state == Completed)
            && final.log == if result.Succeeded() || |asked| == 1 then asked
                            else asked + [Event(Abort, answers(asked, Abort))]
  {
    WildcardPlays(address, ttl, query, FRESH, answers);
    hide Play, Wildcard, AskedInTurn;
    var calls := WildcardCalls(address, ttl, query);
    AskedOnce(calls, answers, []);
    AskedOnce(calls[1..], answers, [Event(calls[0], answers([], calls[0]))]);
    if Compatible(address, query) && query.recordClass == Internet {
      var coded := DoCode(FRESH, answers, NoErrorCode).0;
      assert coded.log == [Event(calls[0], answers([], calls[0]))];
      assert calls[1..][0] == calls[1] && calls[1..][1..] == calls[2..];
      AskedOnce(calls[2..], answers, DoAddress(FRESH, answers, address, ttl).0.log);
    } else {
      var coded := DoCode(FRESH, answers, NameError).0;
      assert coded.log == [Event(calls[0], answers([], calls[0]))];
      assert calls[1..][0] == Complete && |calls[1..]| == 1;
    }
  }

  lemma WildcardPlays(address: Address, ttl: nat, query: Query, r: Response, answers: Answers)
    ensures Play(Wildcard(address, ttl, query), [], r, answers) ==
            if !Compatible(address, query) || query.recordClass != Internet then (r, NOT_HANDLED)
            else
              var (one, added) := DoAddress(r, answers, address, ttl);
              if !added.Succeeded() then (one, HandledWith(added))
              else
                var (two, completed) := DoComplete(one, answers);
                (two, HandledWith(completed))
  {
    hide DoAddress, DoComplete;
    var h := Wildcard(address, ttl, query);
    if Compatible(address, query) && query.recordClass == Internet {
      var (one, added) := DoAddress(r, answers, address, ttl);
      var (two, completed) := DoComplete(one, answers);
      var seen1 := [Seen(added, one.state)];
      var seen2 := seen1 + [Seen(completed, two.state)];
      assert [] + seen1 == seen1;
      assert Play(h, seen2, two, answers) == (two, HandledWith(completed));
      assert Play(h, seen1, one, answers) ==
             if added.Succeeded() then (two, HandledWith(completed)) else (one, HandledWith(added));
    }
  }

}

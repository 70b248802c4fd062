/** HttpResponse: a state machine in front of a response platform that may answer anything. */
module Responses {
  import opened WebTypes

  datatype ResponseState = Uncommitted | Streaming | Completed | Aborted

  /** The calls the platform can see. */
  datatype Call =
    | SetStatus(status: nat)
    | SetHeader(name: string, value: string)
    | Begin(length: Option<nat>)
    | Write(data: seq<byte>)
    | Complete
    | Abort

  datatype Event = Event(call: Call, result: WebResult)

  /** The adversary: any answer to any call, depending on everything that happened before. */
  type Answers = (seq<Event>, Call) -> WebResult

  const CONTENT_TYPE := "Content-Type"

  // ---------------------------------------------------------------- specification functions

  /** The response as a value: its state and the platform calls made so far. */
  datatype Response = Response(state: ResponseState, log: seq<Event>)

  const FRESH := Response(Uncommitted, [])

  type Outcome = (Response, WebResult)

  function Ask(r: Response, answers: Answers, call: Call): Outcome {
    var result := answers(r.log, call);
    (r.(log := r.log + [Event(call, result)]), result)
  }

  function DoStatus(r: Response, answers: Answers, status: nat): Outcome {
    if r.state != Uncommitted then (r, Failure(InvalidState)) else Ask(r, answers, SetStatus(status))
  }

  function DoHeader(r: Response, answers: Answers, name: string, value: string): Outcome {
    if name == "" then (r, Failure(InvalidConfiguration))
    else if r.state != Uncommitted then (r, Failure(InvalidState))
    else Ask(r, answers, SetHeader(name, value))
  }

  function DoBegin(r: Response, answers: Answers, length: Option<nat>): Outcome {
    if r.state != Uncommitted then (r, Failure(InvalidState))
    else
      var (asked, result) := Ask(r, answers, Begin(length));
      (if result.Succeeded() then asked.(state := Streaming) else asked, result)
  }

  function DoWrite(r: Response, answers: Answers, data: seq<byte>): Outcome {
    if data == [] then (r, SUCCESS)
    else
      var (begun, begin) := if r.state == Uncommitted then DoBegin(r, answers, None) else (r, SUCCESS);
      if !begin.Succeeded() then (begun, begin)
      else if begun.state != Streaming then (begun, Failure(InvalidState))
      else Ask(begun, answers, Write(data))
  }

  /** Write through a null pointer. */
  function DoWriteNull(r: Response, size: nat): Outcome {
    (r, if size == 0 then SUCCESS else Failure(InvalidConfiguration))
  }

  function DoComplete(r: Response, answers: Answers): Outcome {
    if r.state == Completed then (r, SUCCESS)
    else if r.state == Aborted then (r, Failure(InvalidState))
    else
      var (begun, begin) := if r.state == Uncommitted then DoBegin(r, answers, Some(0)) else (r, SUCCESS);
      if !begin.Succeeded() then (begun, begin)
      else
        var (asked, result) := Ask(begun, answers, Complete);
        (if result.Succeeded() then asked.(state := Completed) else asked, result)
  }

  function DoAbort(r: Response, answers: Answers): Response {
    if r.state == Completed || r.state == Aborted then r
    else Ask(r, answers, Abort).0.(state := Aborted)
  }

  function DoSend(r: Response, answers: Answers, body: seq<byte>, contentType: string): Outcome {
    if r.state != Uncommitted then (r, Failure(InvalidState))
    else
      var (typed, header) := DoHeader(r, answers, CONTENT_TYPE, contentType);
      if !header.Succeeded() then (typed, header)
      else
        var (begun, begin) := DoBegin(typed, answers, Some(|body|));
        if !begin.Succeeded() then (begun, begin)
        else
          var (written, write) := if body == [] then (begun, SUCCESS) else Ask(begun, answers, Write(body));
          if !write.Succeeded() then (DoAbort(written, answers), write)
          else DoComplete(written, answers)
  }

  /** The destructor. */
  function DoDestroy(r: Response, answers: Answers): Response {
    if r.state == Streaming then Ask(r, answers, Abort).0.(state := Aborted) else r
  }

  // ---------------------------------------------------------------- the class

  class ResponsePlatform {
    const answers: Answers
    var log: seq<Event>

    constructor (answers: Answers)
      ensures this.answers == answers && log == []
    {
      this.answers, log := answers, [];
    }

    method Answer(call: Call) returns (result: WebResult)
      modifies this`log
      ensures result == answers(old(log), call)
      ensures log == old(log) + [Event(call, result)]
    {
      result := answers(log, call);
      log := log + [Event(call, result)];
    }
  }

  class HttpResponse {
    const platform: ResponsePlatform
    var state: ResponseState

    ghost function View(): Response
      reads this, platform
    {
      Response(state, platform.log)
    }

    constructor (platform: ResponsePlatform)
      ensures this.platform == platform && state == Uncommitted
    {
      this.platform, state := platform, Uncommitted;
    }

    method Status(status: nat) returns (result: WebResult)
      modifies platform`log
      ensures (View(), result) == DoStatus(old(View()), platform.answers, status)
    {
      if state != Uncommitted {
        return Failure(InvalidState);
      }
      result := platform.Answer(SetStatus(status));
    }

    method Header(name: string, value: string) returns (result: WebResult)
      modifies platform`log
      ensures (View(), result) == DoHeader(old(View()), platform.answers, name, value)
    {
      if name == "" {
        return Failure(InvalidConfiguration);
      }
      if state != Uncommitted {
        return Failure(InvalidState);
      }
      result := platform.Answer(SetHeader(name, value));
    }

    method ContentType(value: string) returns (result: WebResult)
      modifies platform`log
      ensures (View(), result) == DoHeader(old(View()), platform.answers, CONTENT_TYPE, value)
    {
      result := Header(CONTENT_TYPE, value);
    }

    method Begin(length: Option<nat>) returns (result: WebResult)
      modifies this`state, platform`log
      ensures (View(), result) == DoBegin(old(View()), platform.answers, length)
    {
      if state != Uncommitted {
        return Failure(InvalidState);
      }
      result := platform.Answer(Call.Begin(length));
      if result.Succeeded() {
        state := Streaming;
      }
    }

    method Write(data: seq<byte>) returns (result: WebResult)
      modifies this`state, platform`log
      ensures (View(), result) == DoWrite(old(View()), platform.answers, data)
    {
      if |data| == 0 {
        return SUCCESS;
      }
      if state == Uncommitted {
        var begin := Begin(None);
        if !begin.Succeeded() {
          return begin;
        }
      }
      if state != Streaming {
        return Failure(InvalidState);
      }
      result := platform.Answer(Call.Write(data));
    }

    method Send(body: seq<byte>, contentType: string) returns (result: WebResult)
      modifies this`state, platform`log
      ensures (View(), result) == DoSend(old(View()), platform.answers, body, contentType)
    {
      if state != Uncommitted {
        return Failure(InvalidState);
      }
      result := ContentType(contentType);
      if !result.Succeeded() {
        return;
      }
      result := Begin(Some(|body|));
      if !result.Succeeded() {
        return;
      }
      if |body| != 0 {
        result := platform.Answer(Call.Write(body));
        if !result.Succeeded() {
          Abort();
          return;
        }
      }
      result := Complete();
    }

    method Complete() returns (result: WebResult)
      modifies this`state, platform`log
      ensures (View(), result) == DoComplete(old(View()), platform.answers)
    {
      if state == Completed {
        return SUCCESS;
      }
      if state == Aborted {
        return Failure(InvalidState);
      }
      if state == Uncommitted {
        var begin := Begin(Some(0));
        if !begin.Succeeded() {
          return begin;
        }
      }
      result := platform.Answer(Call.Complete);
      if result.Succeeded() {
        state := Completed;
      }
    }

    method Abort()
      modifies this`state, platform`log
      ensures View() == DoAbort(old(View()), platform.answers)
    {
      if state == Completed || state == Aborted {
        return;
      }
      var _ := platform.Answer(Call.Abort);
      state := Aborted;
    }

    /** The destructor. */
    method Destroy()
      modifies this`state, platform`log
      ensures View() == DoDestroy(old(View()), platform.answers)
    {
      if state == Streaming {
        var _ := platform.Answer(Call.Abort);
        state := Aborted;
      }
    }
  }

  // ---------------------------------------------------------------- the language of traces

  predicate Setup(e: Event) {
    e.call.SetStatus? || e.call.SetHeader? || (e.call.Begin? && !e.result.Succeeded())
  }

  predicate Opening(e: Event) {
    e.call.Begin? && e.result.Succeeded()
  }

  predicate Body(e: Event) {
    e.call.Write? || (e.call.Complete? && !e.result.Succeeded())
  }

  predicate Closing(e: Event) {
    e.call.Complete? && e.result.Succeeded()
  }

  /** Setup* Opening Body* over the first `end` events, opened at `n`. */
  predicate OpenedAt(log: seq<Event>, n: nat, end: nat) {
    && n < end <= |log|
    && (forall k :: 0 <= k < n ==> Setup(log[k]))
    && Opening(log[n])
    && (forall k :: n < k < end ==> Body(log[k]))
  }

  /** The traces that belong to each state, as regular expressions:
      Setup*, Setup* Opening Body*, the same followed by Closing, and either followed by Abort. */
  ghost predicate Legal(log: seq<Event>, state: ResponseState) {
    var last := |log| - 1;
    match state
    case Uncommitted => forall k :: 0 <= k < |log| ==> Setup(log[k])
    case Streaming => exists n: nat :: OpenedAt(log, n, |log|)
    case Completed => last >= 0 && Closing(log[last]) && exists n: nat :: OpenedAt(log, n, last)
    case Aborted =>
      last >= 0 && log[last].call.Abort? &&
      ((forall k :: 0 <= k < last ==> Setup(log[k])) || exists n: nat :: OpenedAt(log, n, last))
  }

  ghost predicate Consistent(r: Response) {
    Legal(r.log, r.state)
  }

  lemma OpenedExtends(log: seq<Event>, e: Event, n: nat, end: nat)
    requires end <= |log|
    ensures OpenedAt(log + [e], n, end) <==> OpenedAt(log, n, end)
  {
    assert forall k :: 0 <= k < |log| ==> (log + [e])[k] == log[k];
  }

  /** The four ways a platform call can move a legal trace. */
  lemma LegalMoves(log: seq<Event>, e: Event)
    ensures Legal(log, Uncommitted) && Setup(e) ==> Legal(log + [e], Uncommitted)
    ensures Legal(log, Uncommitted) && Opening(e) ==> Legal(log + [e], Streaming)
    ensures Legal(log, Streaming) && Body(e) ==> Legal(log + [e], Streaming)
    ensures Legal(log, Streaming) && Closing(e) ==> Legal(log + [e], Completed)
    ensures (Legal(log, Uncommitted) || Legal(log, Streaming)) && e.call.Abort? ==> Legal(log + [e], Aborted)
  {
    var longer := log + [e];
    if Legal(log, Uncommitted) && Opening(e) {
      assert OpenedAt(longer, |log|, |longer|);
    }
    if Legal(log, Streaming) {
      var n: nat :| OpenedAt(log, n, |log|);
      OpenedExtends(log, e, n, |log|);
      if Body(e) {
        assert OpenedAt(longer, n, |longer|);
      }
    }
  }

  /** A trace belongs to at most one state: the platform can read the state off the trace. */
  lemma LegalStateIsUnique(log: seq<Event>, a: ResponseState, b: ResponseState)
    requires Legal(log, a) && Legal(log, b)
    ensures a == b
  {
    forall n: nat, end: nat | OpenedAt(log, n, end) ensures !Setup(log[n]) {
    }
    if a == Streaming || b == Streaming {
      var n: nat :| OpenedAt(log, n, |log|);
      var last := |log| - 1;
      assert !Setup(log[n]);
      assert last == n || Body(log[last]);
      assert !Closing(log[last]) && !log[last].call.Abort?;
    }
  }

  lemma AskMoves(r: Response, answers: Answers, call: Call)
    requires Consistent(r)
    ensures var (asked, result) := Ask(r, answers, call);
            && (r.state == Uncommitted &&
                (call.SetStatus? || call.SetHeader? || (call.Begin? && !result.Succeeded())) ==>
                  Legal(asked.log, Uncommitted))
            && (r.state == Uncommitted && call.Begin? && result.Succeeded() ==> Legal(asked.log, Streaming))
            && (r.state == Streaming && (call.Write? || (call.Complete? && !result.Succeeded())) ==>
                  Legal(asked.log, Streaming))
            && (r.state == Streaming && call.Complete? && result.Succeeded() ==> Legal(asked.log, Completed))
            && ((r.state == Uncommitted || r.state == Streaming) && call.Abort? ==> Legal(asked.log, Aborted))
  {
    LegalMoves(r.log, Event(call, answers(r.log, call)));
  }

  // ---------------------------------------------------------------- operations as data, and arbitrary handlers

  datatype Op =
    | OpStatus(status: nat)
    | OpHeader(name: string, value: string)
    | OpBegin(length: Option<nat>)
    | OpWrite(data: seq<byte>)
    | OpWriteNull(size: nat)
    | OpSend(body: seq<byte>, contentType: string)
    | OpComplete
    | OpAbort

  function Perform(r: Response, answers: Answers, op: Op): Outcome {
    match op
    case OpStatus(status) => DoStatus(r, answers, status)
    case OpHeader(name, value) => DoHeader(r, answers, name, value)
    case OpBegin(length) => DoBegin(r, answers, length)
    case OpWrite(data) => DoWrite(r, answers, data)
    case OpWriteNull(size) => DoWriteNull(r, size)
    case OpSend(body, contentType) => DoSend(r, answers, body, contentType)
    case OpComplete => DoComplete(r, answers)
    case OpAbort => (DoAbort(r, answers), SUCCESS)
  }

  lemma BeginKeeps(r: Response, answers: Answers, length: Option<nat>)
    requires Consistent(r)
    ensures var (begun, result) := DoBegin(r, answers, length);
            && Consistent(begun)
            && (r.state == Uncommitted && result.Succeeded() ==> begun.state == Streaming)
  {
    hide Legal;
    AskMoves(r, answers, Begin(length));
  }

  lemma WriteKeeps(r: Response, answers: Answers, data: seq<byte>)
    requires Consistent(r)
    ensures Consistent(DoWrite(r, answers, data).0)
  {
    hide Legal;
    BeginKeeps(r, answers, None);
    var begun := if r.state == Uncommitted then DoBegin(r, answers, None).0 else r;
    AskMoves(begun, answers, Write(data));
  }

  lemma CompleteKeeps(r: Response, answers: Answers)
    requires Consistent(r)
    ensures Consistent(DoComplete(r, answers).0)
    ensures DoComplete(r, answers).1.Succeeded() ==> DoComplete(r, answers).0.state == Completed
  {
    hide Legal;
    BeginKeeps(r, answers, Some(0));
    var begun := if r.state == Uncommitted then DoBegin(r, answers, Some(0)).0 else r;
    AskMoves(begun, answers, Complete);
  }

  lemma AbortKeeps(r: Response, answers: Answers)
    requires Consistent(r)
    ensures Consistent(DoAbort(r, answers)) && Consistent(DoDestroy(r, answers))
    ensures DoAbort(r, answers).state in {Completed, Aborted}
    ensures DoDestroy(r, answers).state != Streaming
  {
    hide Legal;
    AskMoves(r, answers, Abort);
  }

  lemma SendKeeps(r: Response, answers: Answers, body: seq<byte>, contentType: string)
    requires Consistent(r)
    ensures Consistent(DoSend(r, answers, body, contentType).0)
    ensures DoSend(r, answers, body, contentType).1.Succeeded() ==>
              DoSend(r, answers, body, contentType).0.state == Completed
  {
    hide Legal;
    if r.state == Uncommitted {
      AskMoves(r, answers, SetHeader(CONTENT_TYPE, contentType));
      var typed := DoHeader(r, answers, CONTENT_TYPE, contentType).0;
      BeginKeeps(typed, answers, Some(|body|));
      var (begun, begin) := DoBegin(typed, answers, Some(|body|));
      if begin.Succeeded() {
        AskMoves(begun, answers, Write(body));
        var (written, write) := if body == [] then (begun, SUCCESS) else Ask(begun, answers, Write(body));
        AbortKeeps(written, answers);
        CompleteKeeps(written, answers);
      }
    }
  }

  /** Every operation, whatever the platform answers, keeps the trace in the language of the state. */
  lemma PerformKeeps(r: Response, answers: Answers, op: Op)
    requires Consistent(r)
    ensures Consistent(Perform(r, answers, op).0)
  {
    hide Legal;
    match op
    case OpStatus(status) => AskMoves(r, answers, SetStatus(status));
    case OpHeader(name, value) => AskMoves(r, answers, SetHeader(name, value));
    case OpBegin(length) => BeginKeeps(r, answers, length);
    case OpWrite(data) => WriteKeeps(r, answers, data);
    case OpWriteNull(size) =>
    case OpSend(body, contentType) => SendKeeps(r, answers, body, contentType);
    case OpComplete => CompleteKeeps(r, answers);
    case OpAbort => AbortKeeps(r, answers);
  }

  /** What a handler sees after each operation. */
  datatype Seen = Seen(result: WebResult, state: ResponseState)

  datatype Move = Do(op: Op) | Return(result: HandlerResult)

  /** Any handler whose run makes at most `limit` operations: its next move may depend on
      everything it has seen. Every terminating run is a run of such a handler. */
  datatype Handler = Handler(behaviour: seq<Seen> -> Move, limit: nat, atLimit: HandlerResult)

  function Play(h: Handler, seen: seq<Seen>, r: Response, answers: Answers): (Response, HandlerResult)
    decreases h.limit - |seen|
  {
    if |seen| >= h.limit then (r, h.atLimit)
    else
      match h.behaviour(seen)
      case Return(result) => (r, result)
      case Do(op) =>
        var (next, result) := Perform(r, answers, op);
        Play(h, seen + [Seen(result, next.state)], next, answers)
  }

  /** A handler that does one operation and then returns is that operation and that result. */
  lemma PlayOnce(h: Handler, r: Response, answers: Answers, op: Op)
    requires h.limit >= 2 && h.behaviour([]) == Do(op)
    requires var (next, result) := Perform(r, answers, op); h.behaviour([Seen(result, next.state)]).Return?
    ensures var (next, result) := Perform(r, answers, op);
            Play(h, [], r, answers) == (next, h.behaviour([Seen(result, next.state)]).result)
  {
    hide Perform;
    var (next, result) := Perform(r, answers, op);
    var seen := [Seen(result, next.state)];
    assert [] + seen == seen;
    assert Play(h, seen, next, answers) == (next, h.behaviour(seen).result);
  }

  lemma {:induction false} PlayKeeps(h: Handler, seen: seq<Seen>, r: Response, answers: Answers)
    requires Consistent(r)
    ensures Consistent(Play(h, seen, r, answers).0)
    decreases h.limit - |seen|
  {
    hide Legal;
    if |seen| < h.limit && h.behaviour(seen).Do? {
      var op := h.behaviour(seen).op;
      var (next, result) := Perform(r, answers, op);
      PerformKeeps(r, answers, op);
      PlayKeeps(h, seen + [Seen(result, next.state)], next, answers);
    }
  }

  /** Whatever a handler does and whichever platform call fails, once the response has been
      destroyed the platform saw Setup* followed by nothing, by one Abort, or by one Opening,
      Body* and exactly one of Closing and Abort. */
  lemma DestroyedTraceIsLegal(h: Handler, answers: Answers)
    ensures var final := DoDestroy(Play(h, [], FRESH, answers).0, answers);
            || Legal(final.log, Uncommitted)
            || Legal(final.log, Completed)
            || Legal(final.log, Aborted)
  {
    hide Legal;
    assert Consistent(FRESH) by {
      FreshIsConsistent();
    }
    PlayKeeps(h, [], FRESH, answers);
    AbortKeeps(Play(h, [], FRESH, answers).0, answers);
  }

  lemma FreshIsConsistent()
    ensures Consistent(FRESH)
  {
  }

  function CountOpening(log: seq<Event>): nat {
    if |log| == 0 then 0 else (if Opening(log[0]) then 1 else 0) + CountOpening(log[1..])
  }

  function CountClosing(log: seq<Event>): nat {
    if |log| == 0 then 0 else (if Closing(log[0]) then 1 else 0) + CountClosing(log[1..])
  }

  function CountAbort(log: seq<Event>): nat {
    if |log| == 0 then 0 else (if log[0].call.Abort? then 1 else 0) + CountAbort(log[1..])
  }

  lemma {:induction false} CompletedCounts(log: seq<Event>)
    requires Legal(log, Completed)
    ensures CountOpening(log) == 1 && CountClosing(log) == 1 && CountAbort(log) == 0
  {
    var last := |log| - 1;
    var n: nat :| OpenedAt(log, n, last);
    CountsFrom(log, n, 0);
    assert log[0..] == log;
  }

  lemma {:induction false} CountsFrom(log: seq<Event>, n: nat, k: nat)
    requires |log| > 0 && OpenedAt(log, n, |log| - 1) && Closing(log[|log| - 1]) && k <= |log|
    ensures CountOpening(log[k..]) == if k <= n then 1 else 0
    ensures CountClosing(log[k..]) == if k < |log| then 1 else 0
    ensures CountAbort(log[k..]) == 0
    decreases |log| - k
  {
    if k < |log| {
      CountsFrom(log, n, k + 1);
      assert log[k..][1..] == log[k + 1..];
    }
  }

  // ---------------------------------------------------------------- what each operation asks for

  /** What an operation should come to in a state: a refusal, nothing to do, or these calls. */
  datatype Plan = Refuses(error: WebError) | Nothing | Asks(calls: seq<Call>)

  function PlanOf(state: ResponseState, op: Op): Plan {
    match op
    case OpStatus(status) => BeforeBegin(state, [SetStatus(status)])
    case OpHeader(name, value) =>
      if name == "" then Refuses(InvalidConfiguration) else BeforeBegin(state, [SetHeader(name, value)])
    case OpBegin(length) => BeforeBegin(state, [Begin(length)])
    case OpSend(body, contentType) =>
      BeforeBegin(state, if body == [] then [SetHeader(CONTENT_TYPE, contentType), Begin(Some(0)), Complete]
                         else [SetHeader(CONTENT_TYPE, contentType), Begin(Some(|body|)), Write(body), Complete])
    case OpWrite(data) =>
      if data == [] then Nothing
      else if state == Uncommitted then Asks([Begin(None), Write(data)])
      else if state == Streaming then Asks([Write(data)])
      else Refuses(InvalidState)
    case OpWriteNull(size) => if size == 0 then Nothing else Refuses(InvalidConfiguration)
    case OpComplete =>
      (match state
       case Uncommitted => Asks([Begin(Some(0)), Complete])
       case Streaming => Asks([Complete])
       case Completed => Nothing
       case Aborted => Refuses(InvalidState))
    case OpAbort => if state == Completed || state == Aborted then Nothing else Asks([Abort])
  }

  /** Only an uncommitted response may be asked for these. */
  function BeforeBegin(state: ResponseState, calls: seq<Call>): Plan {
    if state == Uncommitted then Asks(calls) else Refuses(InvalidState)
  }

  /** The calls in order, up to and including the first that is refused; an Abort cannot be. */
  function AskedInTurn(calls: seq<Call>, answers: Answers, log: seq<Event>): (asked: seq<Event>)
    ensures if |calls| == 0 then asked == log else |asked| > |log|
  {
    if |calls| == 0 then log
    else
      var e := Event(calls[0], answers(log, calls[0]));
      if e.result.Succeeded() then AskedInTurn(calls[1..], answers, log + [e]) else log + [e]
  }

  /** The state that a call and its answer lead to. */
  function StateAfter(state: ResponseState, e: Event): ResponseState {
    if e.call.Abort? then Aborted
    else if e.call.Begin? && e.result.Succeeded() then Streaming
    else if e.call.Complete? && e.result.Succeeded() then Completed
    else state
  }

  /** The state after all events of the trace from `from` on. */
  function StateFrom(state: ResponseState, log: seq<Event>, from: nat): ResponseState
    requires from <= |log|
    decreases |log| - from
  {
    if from == |log| then state else StateFrom(StateAfter(state, log[from]), log, from + 1)
  }

  lemma AskedOnce(calls: seq<Call>, answers: Answers, log: seq<Event>)
    requires |calls| > 0
    ensures var e := Event(calls[0], answers(log, calls[0]));
            AskedInTurn(calls, answers, log) ==
            if e.result.Succeeded() && |calls| > 1 then AskedInTurn(calls[1..], answers, log + [e]) else log + [e]
  {
  }

  lemma {:induction false} StateFromStep(state: ResponseState, log: seq<Event>, from: nat, e: Event)
    requires from <= |log|
    ensures StateFrom(state, log + [e], from) == StateAfter(StateFrom(state, log, from), e)
    ensures from == |log| ==> StateFrom(state, log, from) == state
    decreases |log| - from
  {
    var longer := log + [e];
    if from < |log| {
      assert longer[from] == log[from];
      StateFromStep(StateAfter(state, log[from]), log, from + 1, e);
    } else {
      assert StateFrom(state, longer, from) == StateFrom(StateAfter(state, e), longer, from + 1);
    }
  }

  /** The events asked for, and an Abort when a Send could not write its body. */
  function TraceOf(op: Op, calls: seq<Call>, answers: Answers, log: seq<Event>): seq<Event>
    requires |calls| > 0
  {
    var asked := AskedInTurn(calls, answers, log);
    var last := asked[|asked| - 1];
    if op.OpSend? && last.call.Write? && !last.result.Succeeded() then asked + [Event(Abort, answers(asked, Abort))]
    else asked
  }

  /** Every operation in every state, on every platform: it makes exactly the calls of its plan in
      order, up to the first refused, reports the last answer, and is in the state that these
      calls lead to; a Send whose body is refused aborts. */
  lemma PerformFollowsPlan(r: Response, answers: Answers, op: Op)
    ensures var (final, result) := Perform(r, answers, op);
            match PlanOf(r.state, op)
            case Refuses(error) => final == r && result == Failure(error)
            case Nothing => final == r && result == SUCCESS
            case Asks(calls) =>
              var asked := AskedInTurn(calls, answers, r.log);
              && |asked| > |r.log| && final.log == TraceOf(op, calls, answers, r.log)
              && final.state == StateFrom(r.state, final.log, |r.log|)
              && (!op.OpAbort? ==> result == asked[|asked| - 1].result)
  {
    hide AskedInTurn, StateFrom, DoSend;
    match PlanOf(r.state, op)
    case Refuses(_) => SendRefused(r, answers, op);
    case Nothing =>
    case Asks(calls) =>
      if op.OpSend? {
        SendFollowsPlan(r, answers, op.body, op.contentType);
      } else {
        AskedOnce(calls, answers, r.log);
        var e := Event(calls[0], answers(r.log, calls[0]));
        StateFromStep(r.state, r.log, |r.log|, e);
        if |calls| > 1 && e.result.Succeeded() {
          AskedOnce(calls[1..], answers, r.log + [e]);
          StateFromStep(r.state, r.log + [e], |r.log|, Event(calls[1], answers(r.log + [e], calls[1])));
        }
      }
  }

  lemma SendRefused(r: Response, answers: Answers, op: Op)
    ensures op.OpSend? && r.state != Uncommitted ==> Perform(r, answers, op) == (r, Failure(InvalidState))
  {
  }

  lemma SendFollowsPlan(r: Response, answers: Answers, body: seq<byte>, contentType: string)
    requires r.state == Uncommitted
    ensures var op := OpSend(body, contentType);
            var (final, result) := DoSend(r, answers, body, contentType);
            var calls := PlanOf(Uncommitted, op).calls;
            var asked := AskedInTurn(calls, answers, r.log);
            && |asked| > |r.log| && final.log == TraceOf(op, calls, answers, r.log)
            && final.state == StateFrom(r.state, final.log, |r.log|)
            && result == asked[|asked| - 1].result
  {
    hide AskedInTurn, StateFrom, DoSend, TraceOf;
    SendAsks(r, answers, body, contentType);
    SendMoves(r, answers, body, contentType);
  }

  lemma SendAsks(r: Response, answers: Answers, body: seq<byte>, contentType: string)
    requires r.state == Uncommitted
    ensures var op := OpSend(body, contentType);
            var (final, result) := DoSend(r, answers, body, contentType);
            var calls := PlanOf(Uncommitted, op).calls;
            var asked := AskedInTurn(calls, answers, r.log);
            && |asked| > |r.log| && final.log == TraceOf(op, calls, answers, r.log)
            && result == asked[|asked| - 1].result
  {
    hide AskedInTurn;
    var calls := PlanOf(Uncommitted, OpSend(body, contentType)).calls;
    var log1 := r.log + [Event(calls[0], answers(r.log, calls[0]))];
    var log2 := log1 + [Event(calls[1], answers(log1, calls[1]))];
    AskedOnce(calls, answers, r.log);
    AskedOnce(calls[1..], answers, log1);
    AskedOnce(calls[2..], answers, log2);
    assert calls[1..][1..] == calls[2..] && calls[2..][1..] == calls[3..];
    if body != [] {
      AskedOnce(calls[3..], answers, log2 + [Event(calls[2], answers(log2, calls[2]))]);
    }
  }

  lemma SendMoves(r: Response, answers: Answers, body: seq<byte>, contentType: string)
    requires r.state == Uncommitted
    ensures var final := DoSend(r, answers, body, contentType).0;
            |r.log| <= |final.log| && final.state == StateFrom(r.state, final.log, |r.log|)
  {
    hide StateFrom;
    var start := |r.log|;
    var typed := DoHeader(r, answers, CONTENT_TYPE, contentType).0;
    var (begun, begin) := DoBegin(typed, answers, Some(|body|));
    StateFromStep(r.state, r.log, start, typed.log[start]);
    StateFromStep(r.state, typed.log, start, begun.log[start + 1]);
    if begin.Succeeded() {
      var written := if body == [] then begun else Ask(begun, answers, Write(body)).0;
      if body != [] {
        StateFromStep(r.state, begun.log, start, written.log[start + 2]);
        StateFromStep(r.state, written.log, start, Event(Abort, answers(written.log, Abort)));
      }
      StateFromStep(r.state, written.log, start, Event(Complete, answers(written.log, Complete)));
    }
  }

  /** The destructor aborts a streaming response and leaves every other one alone. */
  lemma DestroyAborts(r: Response, answers: Answers)
    ensures DoDestroy(r, answers) ==
            if r.state == Streaming then Response(Aborted, r.log + [Event(Abort, answers(r.log, Abort))]) else r
  {
  }
}

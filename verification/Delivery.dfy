/** What a streamed resource delivers, over every chunk size and every pattern of short reads. */
module Delivery {
  import opened WebTypes
  import opened Responses
  import opened Resources

  /** The bytes handed to the platform by the Write calls of a trace. */
  function Written(log: seq<Event>): seq<byte> {
    if |log| == 0 then []
    else
      var last := log[|log| - 1];
      Written(log[..|log| - 1]) + (if last.call.Write? then last.call.data else [])
  }

  lemma WrittenStep(log: seq<Event>, e: Event)
    ensures Written(log + [e]) == Written(log) + (if e.call.Write? then e.call.data else [])
  {
    assert (log + [e])[..|log|] == log;
  }

  /** A truthful reader: what it claims to have read is what the resource holds there. It may
      still be short, stall, fail, or claim more than it was asked for. */
  ghost predicate Truthful(reader: Reader, content: seq<byte>) {
    forall turn: nat, offset: nat, requested: nat ::
      GoodRead(reader(turn, offset, requested), requested) && offset + requested <= |content| ==>
        Honest(reader(turn, offset, requested), content, offset)
  }

  predicate Honest(answer: ReadAnswer, content: seq<byte>, offset: nat) {
    && offset + answer.bytesRead <= |content|
    && answer.bytesRead <= |answer.bytes|
    && answer.bytes[..answer.bytesRead] == content[offset..offset + answer.bytesRead]
  }

  lemma AppendPiece(base: seq<byte>, content: seq<byte>, from: nat, to: nat)
    requires from <= to <= |content|
    ensures base + content[..from] + content[from..to] == base + content[..to]
    ensures base + content[..to] <= base + content
    ensures base + content[..from] <= base + content[..to]
  {
    assert content[..from] + content[from..to] == content[..to];
    assert content == content[..to] + content[to..];
    assert base + content == base + content[..to] + content[to..];
    assert base + content[..to] == base + content[..from] + content[from..to];
  }

  lemma AbortWritesNothing(r: Response, answers: Answers)
    requires r.state == Streaming
    ensures Written(DoAbort(r, answers).log) == Written(r.log)
    ensures Written(DoComplete(r, answers).0.log) == Written(r.log)
    ensures DoComplete(r, answers).1.Succeeded() ==> DoComplete(r, answers).0.state == Completed
    ensures r.log <= DoComplete(r, answers).0.log && |DoComplete(r, answers).0.log| == |r.log| + 1
  {
    WrittenStep(r.log, Event(Abort, answers(r.log, Abort)));
    WrittenStep(r.log, Event(Complete, answers(r.log, Complete)));
  }

  lemma WriteWrites(r: Response, answers: Answers, data: seq<byte>)
    requires r.state == Streaming && data != []
    ensures var (written, _) := DoWrite(r, answers, data);
            written.state == Streaming && Written(written.log) == Written(r.log) + data
  {
    WrittenStep(r.log, Event(Write(data), answers(r.log, Write(data))));
  }

  lemma HonestData(t: Transfer, buffer: seq<byte>, offset: nat, turn: nat, content: seq<byte>)
    requires 0 < t.chunk == |buffer| && |content| == t.size && offset < t.size
    requires Truthful(t.reader, content)
    requires GoodRead(t.reader(turn, offset, Requested(t, offset)), Requested(t, offset))
    ensures var requested := Requested(t, offset);
            var answer := t.reader(turn, offset, requested);
            var data := Stored(buffer, answer.bytes, requested)[..answer.bytesRead];
            data == content[offset..offset + answer.bytesRead] && data != []
  {
    var requested := Requested(t, offset);
    assert Honest(t.reader(turn, offset, requested), content, offset);
  }

  /** Whatever happens, what was written is a prefix of the resource that reaches at least as far
      as before; on success it is the whole resource, and the response is complete. */
  lemma {:induction false} StreamDelivers(t: Transfer, r: Response, answers: Answers, buffer: seq<byte>,
                                          offset: nat, turn: nat, base: seq<byte>, content: seq<byte>)
    requires 0 < t.chunk == |buffer| && |content| == t.size && offset <= t.size
    requires Truthful(t.reader, content)
    requires r.state == Streaming && Written(r.log) == base + content[..offset]
    ensures var (final, result) := Stream(t, r, answers, buffer, offset, turn);
            && base + content[..offset] <= Written(final.log) <= base + content
            && (result.Succeeded() ==> final.state == Completed && Written(final.log) == base + content)
    decreases t.size - offset
  {
    hide Written, DoAbort, DoWrite, Truthful, Stored;
    AbortWritesNothing(r, answers);
    AppendPiece(base, content, offset, offset);
    if offset == t.size {
      assert content[..offset] == content;
    } else {
      hide Stream;
      StreamTurn(t, r, answers, buffer, offset, turn);
      var requested := Requested(t, offset);
      var answer := t.reader(turn, offset, requested);
      if GoodRead(answer, requested) {
        var filled := Stored(buffer, answer.bytes, requested);
        var data := filled[..answer.bytesRead];
        var next := offset + answer.bytesRead;
        HonestData(t, buffer, offset, turn, content);
        AppendPiece(base, content, offset, next);
        WriteWrites(r, answers, data);
        var (written, write) := DoWrite(r, answers, data);
        AbortWritesNothing(written, answers);
        if write.Succeeded() {
          StreamDelivers(t, written, answers, filled, next, turn + 1, base, content);
        }
      }
    }
  }

  /** A transfer makes at most one platform call per remaining byte, and one to end. */
  lemma {:induction false} StreamCallsBounded(t: Transfer, r: Response, answers: Answers, buffer: seq<byte>,
                                              offset: nat, turn: nat)
    requires 0 < t.chunk == |buffer| && offset <= t.size && r.state == Streaming
    ensures |r.log| < |Stream(t, r, answers, buffer, offset, turn).0.log| <= |r.log| + (t.size - offset) + 1
    ensures r.log <= Stream(t, r, answers, buffer, offset, turn).0.log
    decreases t.size - offset
  {
    if offset < t.size {
      var requested := Requested(t, offset);
      var answer := t.reader(turn, offset, requested);
      if GoodRead(answer, requested) {
        var filled := Stored(buffer, answer.bytes, requested);
        var data := filled[..answer.bytesRead];
        var (written, write) := DoWrite(r, answers, data);
        assert written == Ask(r, answers, Write(data)).0;
        if write.Succeeded() {
          StreamCallsBounded(t, written, answers, filled, offset + answer.bytesRead, turn + 1);
        }
      }
    }
  }

  /** A success is a completed response; a failure an aborted one, unless it is the completion
      itself that was refused. */
  predicate EndsProperly(outcome: Outcome) {
    var (final, result) := outcome;
    var last := |final.log| - 1;
    && last >= 0
    && if result.Succeeded() then final.state == Completed && final.log[last].call == Complete
       else if final.log[last].call == Complete then final.state == Streaming && final.log[last].result == result
       else final.state == Aborted && final.log[last].call == Abort
  }

  lemma AbortEnds(r: Response, answers: Answers, result: WebResult)
    requires r.state == Streaming && !result.Succeeded()
    ensures EndsProperly((DoAbort(r, answers), result))
  {
  }

  lemma CompleteEnds(r: Response, answers: Answers)
    requires r.state == Streaming
    ensures EndsProperly(DoComplete(r, answers))
  {
  }

  /** Every transfer ends so, and never as if nothing had happened. */
  lemma {:induction false} TransferEndsProperly(t: Transfer, r: Response, answers: Answers, buffer: seq<byte>,
                                                offset: nat, turn: nat)
    requires 0 < t.chunk == |buffer| && r.state == Streaming
    ensures EndsProperly(Stream(t, r, answers, buffer, offset, turn))
    decreases t.size - offset
  {
    hide EndsProperly, DoAbort, DoComplete, DoWrite, Stored, Stream;
    if offset >= t.size {
      StreamEnd(t, r, answers, buffer, offset, turn);
      CompleteEnds(r, answers);
    } else {
      StreamTurn(t, r, answers, buffer, offset, turn);
      var requested := Requested(t, offset);
      var answer := t.reader(turn, offset, requested);
      if GoodRead(answer, requested) {
        var filled := Stored(buffer, answer.bytes, requested);
        var data := filled[..answer.bytesRead];
        var (written, write) := DoWrite(r, answers, data);
        WriteStreams(r, answers, data);
        if write.Succeeded() {
          TransferEndsProperly(t, written, answers, filled, offset + answer.bytesRead, turn + 1);
        } else {
          AbortEnds(written, answers, write);
        }
      } else {
        AbortEnds(r, answers, if answer.result.Succeeded() then Failure(ProtocolError) else answer.result);
      }
    }
  }

  /** The response right after an accepted Begin, if the run gets that far. */
  function Opened(provider: Provider, path: string, r: Response, answers: Answers,
                  headersOnly: bool, contentType: string, chunk: nat): Option<Response>
  {
    var located := Locate(provider, headersOnly);
    if !SafePath(path) || chunk == 0 || located.Missing? || located.size > SIZE_MAX then None
    else
      var (typed, header) := DoHeader(r, answers, CONTENT_TYPE, contentType);
      if !header.Succeeded() then None
      else
        var (begun, begin) := DoBegin(typed, answers, Some(located.size));
        if begin.Succeeded() then Some(begun) else None
  }

  /** Every run either ends before the Begin is accepted, or is the transfer after it. */
  lemma OpenedOrNot(provider: Provider, path: string, r: Response, answers: Answers,
                    headersOnly: bool, contentType: string, chunk: nat)
    ensures var whole := WriteResource(provider, path, r, answers, headersOnly, contentType, chunk);
            match Opened(provider, path, r, answers, headersOnly, contentType, chunk)
            case None => whole.0.state == r.state && r.log <= whole.0.log &&
                Written(whole.0.log) == Written(r.log) && !whole.1.Succeeded()
            case Some(begun) =>
              var size := Locate(provider, headersOnly).size;
              && r.state == Uncommitted && begun.state == Streaming
              && |begun.log| == |r.log| + 2 && r.log <= begun.log
              && begun.log[|r.log|].call == SetHeader(CONTENT_TYPE, contentType)
              && begun.log[|r.log| + 1].call == Begin(Some(size))
              && Written(begun.log) == Written(r.log)
              && chunk > 0
              && whole == if headersOnly || size == 0 then DoComplete(begun, answers)
                          else Stream(Transfer(provider.reader, size, chunk), begun, answers, Zeros(chunk), 0, 0)
  {
    hide Written, Stream, DoComplete, SafePath;
    var located := Locate(provider, headersOnly);
    if located.Found? {
      var (typed, header) := DoHeader(r, answers, CONTENT_TYPE, contentType);
      var call := SetHeader(CONTENT_TYPE, contentType);
      WrittenStep(r.log, Event(call, answers(r.log, call)));
      WrittenStep(typed.log, Event(Begin(Some(located.size)), answers(typed.log, Begin(Some(located.size)))));
    }
  }

  /** A successful body request declared the size and delivered exactly the resource. */
  lemma DeliveredExactly(provider: Provider, path: string, r: Response, answers: Answers,
                         contentType: string, chunk: nat, content: seq<byte>)
    requires WriteResource(provider, path, r, answers, false, contentType, chunk).1.Succeeded()
    requires Truthful(provider.reader, content)
    requires Locate(provider, false).Found? ==> Locate(provider, false).size == |content|
    ensures var (final, _) := WriteResource(provider, path, r, answers, false, contentType, chunk);
            && final.state == Completed
            && r.log <= final.log && |final.log| >= |r.log| + 3
            && final.log[|r.log|].call == SetHeader(CONTENT_TYPE, contentType)
            && final.log[|r.log| + 1].call == Begin(Some(|content|))
            && Written(final.log) == Written(r.log) + content
  {
    hide Written, Stream, DoComplete, WriteResource, Truthful;
    OpenedOrNot(provider, path, r, answers, false, contentType, chunk);
    var begun := Opened(provider, path, r, answers, false, contentType, chunk).value;
    hide Opened;
    AbortWritesNothing(begun, answers);
    if |content| == 0 {
      assert Written(r.log) + content == Written(r.log);
    } else {
      var t := Transfer(provider.reader, |content|, chunk);
      assert Written(r.log) + content[..0] == Written(r.log);
      StreamDelivers(t, begun, answers, Zeros(chunk), 0, 0, Written(r.log), content);
      StreamCallsBounded(t, begun, answers, Zeros(chunk), 0, 0);
    }
  }

  /** Every run, successful or not, leaves the earlier trace alone and adds a prefix of the resource. */
  lemma DeliversPrefix(provider: Provider, path: string, r: Response, answers: Answers,
                       headersOnly: bool, contentType: string, chunk: nat, content: seq<byte>)
    requires Truthful(provider.reader, content)
    requires Locate(provider, headersOnly).Found? ==> Locate(provider, headersOnly).size == |content|
    ensures var (final, _) := WriteResource(provider, path, r, answers, headersOnly, contentType, chunk);
            && r.log <= final.log
            && Written(r.log) <= Written(final.log) <= Written(r.log) + content
            && (headersOnly ==> Written(final.log) == Written(r.log))
  {
    hide Written, Stream, DoComplete, WriteResource, Truthful;
    OpenedOrNot(provider, path, r, answers, headersOnly, contentType, chunk);
    match Opened(provider, path, r, answers, headersOnly, contentType, chunk) {
      case None =>
      case Some(begun) =>
        assert Locate(provider, headersOnly).Found?;
        hide Opened;
        AbortWritesNothing(begun, answers);
        if !headersOnly && |content| > 0 {
          var t := Transfer(provider.reader, |content|, chunk);
          assert Written(r.log) + content[..0] == Written(r.log);
          StreamDelivers(t, begun, answers, Zeros(chunk), 0, 0, Written(r.log), content);
          StreamCallsBounded(t, begun, answers, Zeros(chunk), 0, 0);
        }
    }
  }

  // ---------------------------------------------------------------- the trace stays legal

  lemma WriteStreams(r: Response, answers: Answers, data: seq<byte>)
    requires r.state == Streaming
    ensures DoWrite(r, answers, data).0.state == Streaming
  {
  }

  lemma {:induction false} StreamKeeps(t: Transfer, r: Response, answers: Answers, buffer: seq<byte>, offset: nat,
                                       turn: nat)
    requires 0 < t.chunk == |buffer| && Consistent(r) && r.state == Streaming
    ensures Consistent(Stream(t, r, answers, buffer, offset, turn).0)
    ensures Stream(t, r, answers, buffer, offset, turn).1.Succeeded() ==>
              Stream(t, r, answers, buffer, offset, turn).0.state == Completed
    ensures Stream(t, r, answers, buffer, offset, turn).0.state != Uncommitted
    decreases t.size - offset
  {
    hide Legal, DoWrite, Stored;
    CompleteKeeps(r, answers);
    AbortKeeps(r, answers);
    if offset < t.size {
      hide Stream;
      StreamTurn(t, r, answers, buffer, offset, turn);
      var requested := Requested(t, offset);
      var answer := t.reader(turn, offset, requested);
      if GoodRead(answer, requested) {
        var filled := Stored(buffer, answer.bytes, requested);
        var data := filled[..answer.bytesRead];
        var (written, write) := DoWrite(r, answers, data);
        WriteKeeps(r, answers, data);
        WriteStreams(r, answers, data);
        AbortKeeps(written, answers);
        if write.Succeeded() {
          StreamKeeps(t, written, answers, filled, offset + answer.bytesRead, turn + 1);
        }
      }
    }
  }

  /** Writing a resource keeps the trace legal, completes the response when it succeeds, and
      commits it exactly when the platform accepted a Begin. */
  lemma WriteResourceKeeps(provider: Provider, path: string, r: Response, answers: Answers,
                           headersOnly: bool, contentType: string, chunk: nat)
    requires Consistent(r)
    ensures var (final, result) := WriteResource(provider, path, r, answers, headersOnly, contentType, chunk);
            && Consistent(final)
            && (result.Succeeded() ==> final.state == Completed)
  {
    hide Legal;
    if r.state == Uncommitted {
      AskMoves(r, answers, SetHeader(CONTENT_TYPE, contentType));
      var typed := DoHeader(r, answers, CONTENT_TYPE, contentType).0;
      var located := Locate(provider, headersOnly);
      if located.Found? {
        var size := located.size;
        BeginKeeps(typed, answers, Some(size));
        var (begun, begin) := DoBegin(typed, answers, Some(size));
        if begin.Succeeded() {
          CompleteKeeps(begun, answers);
          if chunk > 0 {
            StreamKeeps(Transfer(provider.reader, size, chunk), begun, answers, Zeros(chunk), 0, 0);
          }
        }
      }
    }
  }

  // ---------------------------------------------------------------- who is served

  /** What keeps a resource from being served, in this order, without any call of the response: an
      unsafe path or an empty chunk; for a body, an open that succeeds without a stream, or fails
      other than as unsupported; where stat is asked, its failure, or a directory; and a size
      beyond the address space. */
  lemma RefusalsExactly(provider: Provider, path: string, r: Response, answers: Answers,
                        headersOnly: bool, contentType: string, chunk: nat)
    ensures var whole := WriteResource(provider, path, r, answers, headersOnly, contentType, chunk);
            var open, stat := provider.open, provider.stat;
            var usable := SafePath(path) && chunk > 0;
            var isOpen := !headersOnly && open.result.Succeeded();
            var refused := !headersOnly && !open.result.Succeeded() && open.result.error != Unsupported;
            var stats := headersOnly || (!isOpen && !refused && open.stream.None?);
            && (!usable ==> whole == (r, WebResult(InvalidConfiguration, 0)))
            && (usable && isOpen && open.stream.None? ==> whole == (r, WebResult(PlatformFailure, 0)))
            && (usable && refused ==> whole == (r, open.result))
            && (usable && stats && !stat.result.Succeeded() ==> whole == (r, stat.result))
            && (usable && stats && stat.result.Succeeded() && stat.isDirectory ==> whole == (r, WebResult(NotFound, 0)))
            && (usable && isOpen && open.stream.Some? && open.stream.value > SIZE_MAX ==>
                  whole == (r, WebResult(ResourceExhausted, 0)))
            && (usable && stats && stat.result.Succeeded() && !stat.isDirectory && stat.size > SIZE_MAX ==>
                  whole == (r, WebResult(ResourceExhausted, 0)))
  {
    hide SafePath, Stream, DoComplete, DoBegin, DoHeader;
  }

  /** The resource is there and its size known: from an opened stream for a body, or else from stat. */
  predicate Available(provider: Provider, headersOnly: bool, size: nat) {
    if !headersOnly && provider.open.result.Succeeded() then provider.open.stream == Some(size)
    else
      && (headersOnly || (provider.open.result.error == Unsupported && provider.open.stream.None?))
      && provider.stat.result.Succeeded() && !provider.stat.isDirectory && provider.stat.size == size
  }

  /** A reader that brings something true on every read within the resource, as little as it likes. */
  ghost predicate Willing(reader: Reader, content: seq<byte>) {
    forall turn: nat, offset: nat, requested: nat :: 0 < requested && offset + requested <= |content| ==>
      WillingAnswer(reader(turn, offset, requested), content, offset, requested)
  }

  predicate WillingAnswer(answer: ReadAnswer, content: seq<byte>, offset: nat, requested: nat) {
    GoodRead(answer, requested) && Honest(answer, content, offset)
  }

  ghost predicate AllAccepted(answers: Answers) {
    forall log: seq<Event>, call: Call :: answers(log, call).Succeeded()
  }

  lemma {:induction false} StreamSucceeds(t: Transfer, r: Response, answers: Answers, buffer: seq<byte>,
                                          offset: nat, turn: nat, content: seq<byte>)
    requires 0 < t.chunk == |buffer| && |content| == t.size && offset <= t.size && r.state == Streaming
    requires Willing(t.reader, content) && AllAccepted(answers)
    ensures Stream(t, r, answers, buffer, offset, turn).1.Succeeded()
    decreases t.size - offset
  {
    hide Stream, Stored, Willing;
    if offset == t.size {
      StreamEnd(t, r, answers, buffer, offset, turn);
    } else {
      StreamTurn(t, r, answers, buffer, offset, turn);
      var requested := Requested(t, offset);
      var answer := t.reader(turn, offset, requested);
      WillingReads(t.reader, content, turn, offset, requested);
      var filled := Stored(buffer, answer.bytes, requested);
      var data := filled[..answer.bytesRead];
      var (written, write) := DoWrite(r, answers, data);
      StreamSucceeds(t, written, answers, filled, offset + answer.bytesRead, turn + 1, content);
    }
  }

  lemma WillingReads(reader: Reader, content: seq<byte>, turn: nat, offset: nat, requested: nat)
    requires Willing(reader, content) && 0 < requested && offset + requested <= |content|
    ensures WillingAnswer(reader(turn, offset, requested), content, offset, requested)
  {
  }

  /** An available resource is served: with a willing reader and platform, a body request succeeds
      and delivers all of it, whatever the chunks and short reads, and a header-only request makes
      exactly the three calls that declare it. */
  lemma AvailableIsServed(provider: Provider, path: string, r: Response, answers: Answers,
                          headersOnly: bool, contentType: string, chunk: nat, content: seq<byte>)
    requires r.state == Uncommitted && SafePath(path) && chunk > 0 && |content| <= SIZE_MAX
    requires Available(provider, headersOnly, |content|) && AllAccepted(answers)
    requires !headersOnly ==> Willing(provider.reader, content)
    ensures var (final, result) := WriteResource(provider, path, r, answers, headersOnly, contentType, chunk);
            && result.Succeeded() && final.state == Completed
            && Written(final.log) == Written(r.log) + (if headersOnly then [] else content)
            && |final.log| >= |r.log| + 3
            && final.log[|r.log|].call == SetHeader(CONTENT_TYPE, contentType)
            && final.log[|r.log| + 1].call == Begin(Some(|content|))
            && (headersOnly || content == [] ==>
                  |final.log| == |r.log| + 3 && final.log[|r.log| + 2].call == Complete)
  {
    hide Written, Stream, SafePath, Willing;
    OpenedOrNot(provider, path, r, answers, headersOnly, contentType, chunk);
    var begun := Opened(provider, path, r, answers, headersOnly, contentType, chunk).value;
    AbortWritesNothing(begun, answers);
    if headersOnly || content == [] {
      assert Written(r.log) + [] == Written(r.log);
    } else {
      StreamSucceeds(Transfer(provider.reader, |content|, chunk), begun, answers, Zeros(chunk), 0, 0, content);
      WillingIsTruthful(provider.reader, content);
      DeliveredExactly(provider, path, r, answers, contentType, chunk, content);
    }
  }

  lemma WillingIsTruthful(reader: Reader, content: seq<byte>)
    requires Willing(reader, content)
    ensures Truthful(reader, content)
  {
    forall turn: nat, offset: nat, requested: nat
      | GoodRead(reader(turn, offset, requested), requested) && offset + requested <= |content|
      ensures Honest(reader(turn, offset, requested), content, offset)
    {
      WillingReads(reader, content, turn, offset, requested);
    }
  }
}

/** Streaming a web resource through a response, against readers that may be short, stall or lie. */
module Resources {
  import opened WebTypes
  import opened Text
  import opened Responses

  // ---------------------------------------------------------------- safe paths

  /** No backslash, no NUL, and no `..` between slashes. */
  predicate SafePath(path: string) {
    && |path| > 0
    && path[0] == '/'
    && '\\' !in path
    && '\0' !in path
    && ".." !in Split(path, '/', 1)
  }

  /** How deep below the root a walk along the first `k` segments ends: two dots lead up, one dot
      and nothing lead nowhere. */
  function WalkDepth(segments: seq<string>, k: nat): int
    requires k <= |segments|
  {
    if k == 0 then 0
    else
      var segment := segments[k - 1];
      WalkDepth(segments, k - 1) + (if segment == ".." then -1 else if segment == "." || segment == "" then 0 else 1)
  }

  /** A safe path never leaves the root, not even on the way. */
  lemma {:induction false} SafeStaysBelowRoot(path: string, k: nat)
    requires SafePath(path) && k <= |Split(path, '/', 1)|
    ensures WalkDepth(Split(path, '/', 1), k) >= 0
  {
    if k > 0 {
      SafeStaysBelowRoot(path, k - 1);
    }
  }

  method IsSafeWebResourcePath(path: string) returns (safe: bool)
    ensures safe == SafePath(path)
  {
    hide Split, Find;
    if path == "" || path[0] != '/' {
      return false;
    }
    var backslash, zero := Find(path, '\\', 0), Find(path, '\0', 0);
    if backslash.Some? || zero.Some? {
      return false;
    }
    var position := 1;
    while position <= |path|
      invariant 1 <= position <= |path|
      invariant ".." in Split(path, '/', 1) <==> ".." in Split(path, '/', position)
    {
      var separator := Find(path, '/', position);
      var end := if separator.None? then |path| else separator.value;
      var segment := path[position..end];
      SplitStep(path, '/', position);
      ghost var left := Split(path, '/', position);
      assert left == [left[0]] + left[1..];
      if segment == ".." {
        return false;
      }
      if separator.None? {
        break;
      }
      position := separator.value + 1;
    }
    return true;
  }

  // ---------------------------------------------------------------- readers

  /** One answer of a reader: a result, the count it claims, and the bytes it really stored. */
  datatype ReadAnswer = ReadAnswer(result: WebResult, bytesRead: nat, bytes: seq<byte>)

  /** The adversary behind a resource: any answer to the `turn`-th read of `requested` bytes
      at a position. A sequential stream is asked at the position it has reached itself. */
  type Reader = (nat, nat, nat) -> ReadAnswer

  /** The buffer after a reader stored bytes at its front; it has room for `requested` of them. */
  function Stored(buffer: seq<byte>, bytes: seq<byte>, requested: nat): (r: seq<byte>)
    requires requested <= |buffer|
    ensures |r| == |buffer|
  {
    var count := if |bytes| < requested then |bytes| else requested;
    bytes[..count] + buffer[count..]
  }

  class ResourceReader {
    const answers: Reader
    var turns: nat
    var position: nat

    constructor (answers: Reader)
      ensures this.answers == answers && turns == 0 && position == 0
    {
      this.answers, turns, position := answers, 0, 0;
    }

    method Store(bytes: seq<byte>, buffer: array<byte>, requested: nat)
      requires requested <= buffer.Length
      modifies buffer
      ensures buffer[..] == Stored(old(buffer[..]), bytes, requested)
    {
      var count := if |bytes| < requested then |bytes| else requested;
      for i := 0 to count
        invariant forall k :: 0 <= k < i ==> buffer[k] == bytes[k]
        invariant forall k :: i <= k < buffer.Length ==> buffer[k] == old(buffer[k])
      {
        buffer[i] := bytes[i];
      }
    }

    /** IWebResourceReadStream::Read. */
    method ReadNext(buffer: array<byte>, requested: nat) returns (result: WebResult, bytesRead: nat)
      requires requested <= buffer.Length
      modifies this`turns, this`position, buffer
      ensures var a := answers(old(turns), old(position), requested);
              && result == a.result && bytesRead == a.bytesRead
              && buffer[..] == Stored(old(buffer[..]), a.bytes, requested)
      ensures turns == old(turns) + 1 && position == old(position) + bytesRead
    {
      var a := answers(turns, position, requested);
      Store(a.bytes, buffer, requested);
      turns, position := turns + 1, position + a.bytesRead;
      return a.result, a.bytesRead;
    }

    /** IWebResourceProvider::Read. */
    method ReadAt(offset: nat, buffer: array<byte>, requested: nat) returns (result: WebResult, bytesRead: nat)
      requires requested <= buffer.Length
      modifies this`turns, buffer
      ensures var a := answers(old(turns), offset, requested);
              && result == a.result && bytesRead == a.bytesRead
              && buffer[..] == Stored(old(buffer[..]), a.bytes, requested)
      ensures turns == old(turns) + 1
    {
      var a := answers(turns, offset, requested);
      Store(a.bytes, buffer, requested);
      turns := turns + 1;
      return a.result, a.bytesRead;
    }
  }

  // ---------------------------------------------------------------- the transfer

  /** Everything a transfer reads besides the response: who answers, how much, in which chunks. */
  datatype Transfer = Transfer(reader: Reader, size: nat, chunk: nat)

  function Requested(t: Transfer, offset: nat): nat
    requires offset < t.size
  {
    if t.size - offset < t.chunk then t.size - offset else t.chunk
  }

  predicate GoodRead(answer: ReadAnswer, requested: nat) {
    answer.result.Succeeded() && 0 < answer.bytesRead <= requested
  }

  /** The streaming loop from a given point on. */
  function Stream(t: Transfer, r: Response, answers: Answers, buffer: seq<byte>, offset: nat, turn: nat): Outcome
    requires 0 < t.chunk == |buffer|
    decreases t.size - offset
  {
    if offset >= t.size then DoComplete(r, answers)
    else
      var requested := Requested(t, offset);
      var answer := t.reader(turn, offset, requested);
      if !answer.result.Succeeded() then (DoAbort(r, answers), answer.result)
      else if !GoodRead(answer, requested) then (DoAbort(r, answers), Failure(ProtocolError))
      else
        var filled := Stored(buffer, answer.bytes, requested);
        var (written, write) := DoWrite(r, answers, filled[..answer.bytesRead]);
        if !write.Succeeded() then (DoAbort(written, answers), write)
        else Stream(t, written, answers, filled, offset + answer.bytesRead, turn + 1)
  }

  /** One turn of the loop. */
  lemma StreamTurn(t: Transfer, r: Response, answers: Answers, buffer: seq<byte>, offset: nat, turn: nat)
    requires 0 < t.chunk == |buffer| && offset < t.size
    ensures var requested := Requested(t, offset);
            var answer := t.reader(turn, offset, requested);
            var whole := Stream(t, r, answers, buffer, offset, turn);
            if !GoodRead(answer, requested) then
              var result := if answer.result.Succeeded() then Failure(ProtocolError) else answer.result;
              whole == (DoAbort(r, answers), result)
            else
              var filled := Stored(buffer, answer.bytes, requested);
              var (written, write) := DoWrite(r, answers, filled[..answer.bytesRead]);
              if !write.Succeeded() then whole == (DoAbort(written, answers), write)
              else whole == Stream(t, written, answers, filled, offset + answer.bytesRead, turn + 1)
  {
  }

  lemma StreamEnd(t: Transfer, r: Response, answers: Answers, buffer: seq<byte>, offset: nat, turn: nat)
    requires 0 < t.chunk == |buffer| && t.size <= offset
    ensures Stream(t, r, answers, buffer, offset, turn) == DoComplete(r, answers)
  {
  }

  /** OpenRead's answer: a result and possibly a stream of some size. */
  datatype OpenAnswer = OpenAnswer(result: WebResult, stream: Option<nat>)

  datatype StatAnswer = StatAnswer(result: WebResult, size: nat, isDirectory: bool)

  datatype Provider = Provider(open: OpenAnswer, stat: StatAnswer, reader: Reader)

  /** What opening and stat-ing decide: an error, or a size and which reader to use. */
  datatype Located = Missing(result: WebResult) | Found(size: nat, sequential: bool)

  function Locate(provider: Provider, headersOnly: bool): Located {
    if !headersOnly && provider.open.result.Succeeded() then
      match provider.open.stream
      case None => Missing(Failure(PlatformFailure))
      case Some(size) => Found(size, true)
    else if !headersOnly && provider.open.result.error != Unsupported then Missing(provider.open.result)
    else if !headersOnly && provider.open.stream.Some? then Found(0, true)
    else if !provider.stat.result.Succeeded() then Missing(provider.stat.result)
    else if provider.stat.isDirectory then Missing(Failure(NotFound))
    else Found(provider.stat.size, false)
  }

  /** The memory a fresh vector of bytes holds. */
  function Zeros(n: nat): (r: seq<byte>)
    ensures |r| == n
  {
    seq(n, _ => 0)
  }

  /** WriteWebResourceResponse. */
  function WriteResource(provider: Provider, path: string, r: Response, answers: Answers,
                         headersOnly: bool, contentType: string, chunk: nat): Outcome
  {
    if !SafePath(path) || chunk == 0 then (r, Failure(InvalidConfiguration))
    else
      match Locate(provider, headersOnly)
      case Missing(result) => (r, result)
      case Found(size, sequential) =>
        if size > SIZE_MAX then (r, Failure(ResourceExhausted))
        else
          var (typed, header) := DoHeader(r, answers, CONTENT_TYPE, contentType);
          if !header.Succeeded() then (typed, header)
          else
            var (begun, begin) := DoBegin(typed, answers, Some(size));
            if !begin.Succeeded() then (begun, begin)
            else if headersOnly || size == 0 then DoComplete(begun, answers)
            else Stream(Transfer(provider.reader, size, chunk), begun, answers, Zeros(chunk), 0, 0)
  }

  /** The loop in place: one buffer, one offset, either kind of reader. */
  method WriteWebResourceResponse(provider: Provider, path: string, response: HttpResponse,
                                  headersOnly: bool, contentType: string, chunk: nat)
    returns (result: WebResult)
    modifies response`state, response.platform`log
    ensures (response.View(), result) ==
            WriteResource(provider, path, old(response.View()), response.platform.answers,
                          headersOnly, contentType, chunk)
  {
    hide SafePath, DoComplete, DoHeader, DoBegin, DoAbort, DoWrite;
    ghost var answers := response.platform.answers;
    var safe := IsSafeWebResourcePath(path);
    if !safe || chunk == 0 {
      return Failure(InvalidConfiguration);
    }
    var size: nat := 0;
    var isDirectory := false;
    var stream: Option<ResourceReader> := None;
    if !headersOnly {
      var open := provider.open;
      if open.stream.Some? {
        var sequential := new ResourceReader(provider.reader);
        stream := Some(sequential);
      }
      if open.result.Succeeded() {
        if stream.None? {
          return Failure(PlatformFailure);
        }
        size := open.stream.value;
        isDirectory := false;
      } else if open.result.error != Unsupported {
        return open.result;
      }
    }
    if stream.None? {
      var stat := provider.stat;
      size, isDirectory := stat.size, stat.isDirectory;
      if !stat.result.Succeeded() {
        return stat.result;
      }
      if isDirectory {
        return Failure(NotFound);
      }
    }
    assert Locate(provider, headersOnly) == Found(size, stream.Some?);
    if size > SIZE_MAX {
      return Failure(ResourceExhausted);
    }
    result := response.ContentType(contentType);
    if !result.Succeeded() {
      return;
    }
    result := response.Begin(Some(size));
    if !result.Succeeded() {
      return;
    }
    if headersOnly || size == 0 {
      result := response.Complete();
      return;
    }
    var direct := new ResourceReader(provider.reader);
    result := StreamBody(stream, direct, response, size, chunk);
  }

  /** The body of WriteWebResourceResponse from the buffer on. A stream keeps its own position;
      that it always equals the offset is why both readers give the same transfer. */
  method StreamBody(stream: Option<ResourceReader>, direct: ResourceReader, response: HttpResponse, size: nat,
                    chunk: nat)
    returns (result: WebResult)
    requires chunk > 0
    requires direct.turns == 0
    requires stream.Some? ==>
               stream.value != direct && stream.value.answers == direct.answers &&
               stream.value.turns == 0 && stream.value.position == 0
    modifies response`state, response.platform`log, direct, if stream.Some? then {stream.value} else {}
    ensures (response.View(), result) ==
            Stream(Transfer(direct.answers, size, chunk), old(response.View()), response.platform.answers,
                   Zeros(chunk), 0, 0)
  {
    hide DoComplete, DoAbort, DoWrite, Stream, Stored;
    ghost var t := Transfer(direct.answers, size, chunk);
    ghost var answers := response.platform.answers;
    ghost var whole := Stream(t, response.View(), answers, Zeros(chunk), 0, 0);
    var buffer := new byte[chunk](_ => 0);
    assert buffer[..] == Zeros(chunk);
    var offset: nat := 0;
    ghost var turn: nat := 0;
    while offset < size
      invariant 0 <= offset
      invariant if stream.Some? then stream.value.position == offset && stream.value.turns == turn
                else direct.turns == turn
      invariant whole == Stream(t, response.View(), answers, buffer[..], offset, turn)
      decreases size - offset
    {
      StreamTurn(t, response.View(), answers, buffer[..], offset, turn);
      var remaining := size - offset;
      var requested := if remaining < buffer.Length then remaining else buffer.Length;
      var read, bytesRead;
      if stream.Some? {
        read, bytesRead := stream.value.ReadNext(buffer, requested);
      } else {
        read, bytesRead := direct.ReadAt(offset, buffer, requested);
      }
      if !read.Succeeded() {
        response.Abort();
        return read;
      }
      if bytesRead == 0 || bytesRead > requested {
        response.Abort();
        return Failure(ProtocolError);
      }
      result := response.Write(buffer[..bytesRead]);
      if !result.Succeeded() {
        response.Abort();
        return;
      }
      offset := offset + bytesRead;
      turn := turn + 1;
    }
    StreamEnd(t, response.View(), answers, buffer[..], offset, turn);
    result := response.Complete();
  }
}

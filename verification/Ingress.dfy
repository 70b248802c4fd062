/** The bounded body loops of the command and event ingress, against any body source. */
module Ingress {
  import opened WebTypes

  /** One answer of the request platform: the bytes that the claimed range holds after the read,
      stored by this read or left there before, and whether the body ended. An answer with more
      bytes than it was offered room for is a false claim. */
  datatype BodyAnswer = BodyAnswer(result: WebResult, bytes: seq<byte>, endOfBody: bool)

  /** The adversary behind ReadBody: any answer to the `turn`-th read, at an offset, of a capacity. */
  type Source = (nat, nat, nat) -> BodyAnswer

  datatype BodyOutcome = Accepted(body: seq<byte>) | Rejected(result: WebResult)

  // ---------------------------------------------------------------- specification functions

  /** HttpRequest::ReadBody. */
  function ReadBody(source: Source, turn: nat, offset: nat, capacity: nat): BodyAnswer {
    if capacity == 0 then BodyAnswer(Failure(InvalidConfiguration), [], false) else source(turn, offset, capacity)
  }

  /** The loop for a declared length, holding `got` so far. */
  function ReadDeclared(source: Source, declared: nat, got: seq<byte>, turn: nat): BodyOutcome
    decreases declared - |got|
  {
    if |got| >= declared then Rejected(Failure(ProtocolError))
    else
      var read := ReadBody(source, turn, |got|, declared - |got|);
      if !read.result.Succeeded() then Rejected(read.result)
      else if |read.bytes| > declared - |got| then Rejected(Failure(ProtocolError))
      else
        var now := got + read.bytes;
        if read.endOfBody then
          if |now| == declared then Accepted(now) else Rejected(Failure(ProtocolError))
        else if |read.bytes| == 0 then Rejected(Failure(ProtocolError))
        else ReadDeclared(source, declared, now, turn + 1)
  }

  /** The loop for an unknown length. */
  function ReadUnknown(source: Source, maximum: nat, chunk: nat, got: seq<byte>, turn: nat): BodyOutcome
    decreases maximum - |got|
  {
    if |got| >= maximum then Rejected(Failure(RequestTooLarge))
    else
      var capacity := Capacity(maximum, chunk, |got|);
      var read := ReadBody(source, turn, |got|, capacity);
      if !read.result.Succeeded() then Rejected(read.result)
      else if |read.bytes| > capacity then Rejected(Failure(ProtocolError))
      else if read.endOfBody then Accepted(got + read.bytes)
      else if |read.bytes| == 0 then Rejected(Failure(ProtocolError))
      else ReadUnknown(source, maximum, chunk, got + read.bytes, turn + 1)
  }

  function Capacity(maximum: nat, chunk: nat, size: nat): nat
    requires size <= maximum
  {
    if chunk < maximum - size then chunk else maximum - size
  }

  function ReadBodyOf(source: Source, declared: Option<nat>, maximum: nat, chunk: nat): BodyOutcome {
    match declared
    case Some(length) => ReadDeclared(source, length, [], 0)
    case None => ReadUnknown(source, maximum, chunk, [], 0)
  }

  /** The length checks of Handle around the loops: declared 0 or beyond the maximum never reaches
      the source, and an empty body is refused. */
  function Ingest(source: Source, declared: Option<nat>, maximum: nat, chunk: nat): BodyOutcome {
    if declared.Some? && declared.value > maximum then Rejected(Failure(RequestTooLarge))
    else if declared == Some(0) then Rejected(Failure(ProtocolError))
    else
      var read := ReadBodyOf(source, declared, maximum, chunk);
      if read.Accepted? && read.body == [] then Rejected(Failure(ProtocolError)) else read
  }

  // ---------------------------------------------------------------- the loops in place

  /** The request platform's side of a read: it works at `destination[offset..]`. Its contract
      leaves open what it does to the room beyond its claim, and false claims are only reported. */
  class BodyReader {
    const source: Source
    var turn: nat

    constructor (source: Source)
      ensures this.source == source && turn == 0
    {
      this.source, turn := source, 0;
    }

    method ReadInto(destination: array<byte>, offset: nat, capacity: nat)
      returns (result: WebResult, bytesRead: nat, endOfBody: bool)
      requires offset + capacity <= destination.Length
      modifies this`turn, destination
      ensures turn == old(turn) + 1
      ensures var read := ReadBody(source, old(turn), offset, capacity);
              && result == read.result && bytesRead == |read.bytes| && endOfBody == read.endOfBody
              && destination[..offset] == old(destination[..offset])
              && (bytesRead <= capacity ==> destination[offset..offset + bytesRead] == read.bytes)
    {
      var read := ReadBody(source, turn, offset, capacity);
      if |read.bytes| <= capacity {
        for i := 0 to |read.bytes|
          invariant turn == old(turn)
          invariant destination[..offset] == old(destination[..offset])
          invariant forall k :: 0 <= k < i ==> destination[offset + k] == read.bytes[k]
        {
          destination[offset + i] := read.bytes[i];
        }
      }
      turn := turn + 1;
      return read.result, |read.bytes|, read.endOfBody;
    }
  }

  /** HttpCommandIngress::ReadCommandBody: straight into the envelope, with room for a final NUL. */
  method ReadCommandBody(source: Source, declared: Option<nat>, chunk: nat, raw: array<byte>)
    returns (result: WebResult, rawLength: nat)
    requires 2 <= raw.Length <= 65536
    requires declared.Some? ==> 0 < declared.value < raw.Length
    modifies raw
    ensures match ReadBodyOf(source, declared, raw.Length - 1, chunk)
            case Rejected(error) => result == error
            case Accepted(body) =>
              result == SUCCESS && rawLength == |body| < raw.Length && raw[..rawLength] == body && raw[rawLength] == 0
    ensures rawLength <= 65535
  {
    hide ReadDeclared, ReadUnknown, ReadBody;
    var maximumBytes := raw.Length - 1;
    var reader := new BodyReader(source);
    var offset: nat := 0;
    rawLength := 0;
    assert raw[..0] == [];
    if declared.Some? {
      var length := declared.value;
      while offset < length
        invariant 0 <= offset <= length
        invariant reader.source == source
        invariant ReadDeclared(source, length, raw[..offset], reader.turn) == ReadDeclared(source, length, [], 0)
        decreases length - offset
      {
        ghost var got := raw[..offset];
        DeclaredTurn(source, length, got, reader.turn);
        var read, bytesRead, endOfBody := reader.ReadInto(raw, offset, length - offset);
        if !read.Succeeded() {
          return read, 0;
        }
        if bytesRead > length - offset {
          return Failure(ProtocolError), 0;
        }
        assert raw[..offset + bytesRead] == got + raw[offset..offset + bytesRead];
        offset := offset + bytesRead;
        if endOfBody {
          if offset != length {
            return Failure(ProtocolError), 0;
          }
          raw[offset] := 0;
          return SUCCESS, offset;
        }
        if bytesRead == 0 {
          return Failure(ProtocolError), 0;
        }
      }
      DeclaredTurn(source, length, raw[..offset], reader.turn);
      return Failure(ProtocolError), 0;
    }

    while true
      invariant 0 <= offset <= maximumBytes
      invariant reader.source == source
      invariant ReadUnknown(source, maximumBytes, chunk, raw[..offset], reader.turn) ==
                ReadUnknown(source, maximumBytes, chunk, [], 0)
      decreases maximumBytes - offset
    {
      ghost var got := raw[..offset];
      UnknownTurn(source, maximumBytes, chunk, got, reader.turn);
      if offset >= maximumBytes {
        return Failure(RequestTooLarge), 0;
      }
      var capacity := if chunk < maximumBytes - offset then chunk else maximumBytes - offset;
      var read, bytesRead, endOfBody := reader.ReadInto(raw, offset, capacity);
      if !read.Succeeded() {
        return read, 0;
      }
      if bytesRead > capacity {
        return Failure(ProtocolError), 0;
      }
      assert raw[..offset + bytesRead] == got + raw[offset..offset + bytesRead];
      offset := offset + bytesRead;
      if endOfBody {
        raw[offset] := 0;
        return SUCCESS, offset;
      }
      if bytesRead == 0 {
        return Failure(ProtocolError), 0;
      }
    }
  }

  lemma DeclaredTurn(source: Source, declared: nat, got: seq<byte>, turn: nat)
    ensures var whole := ReadDeclared(source, declared, got, turn);
            if |got| >= declared then whole == Rejected(Failure(ProtocolError))
            else
              var read := ReadBody(source, turn, |got|, declared - |got|);
              if !read.result.Succeeded() then whole == Rejected(read.result)
              else if |read.bytes| > declared - |got| then whole == Rejected(Failure(ProtocolError))
              else if read.endOfBody then
                whole == if |got| + |read.bytes| == declared then Accepted(got + read.bytes)
                         else Rejected(Failure(ProtocolError))
              else if |read.bytes| == 0 then whole == Rejected(Failure(ProtocolError))
              else whole == ReadDeclared(source, declared, got + read.bytes, turn + 1)
  {
  }

  lemma UnknownTurn(source: Source, maximum: nat, chunk: nat, got: seq<byte>, turn: nat)
    ensures var whole := ReadUnknown(source, maximum, chunk, got, turn);
            if |got| >= maximum then whole == Rejected(Failure(RequestTooLarge))
            else
              var capacity := Capacity(maximum, chunk, |got|);
              var read := ReadBody(source, turn, |got|, capacity);
              if !read.result.Succeeded() then whole == Rejected(read.result)
              else if |read.bytes| > capacity then whole == Rejected(Failure(ProtocolError))
              else if read.endOfBody then whole == Accepted(got + read.bytes)
              else if |read.bytes| == 0 then whole == Rejected(Failure(ProtocolError))
              else whole == ReadUnknown(source, maximum, chunk, got + read.bytes, turn + 1)
  {
  }

  /** vector::resize. */
  function Resize(packet: seq<byte>, size: nat): (r: seq<byte>)
    ensures |r| == size
  {
    if size <= |packet| then packet[..size] else packet + seq(size - |packet|, _ => 0)
  }

  /** A read into the vector's storage at `offset`. */
  function Filled(packet: seq<byte>, offset: nat, bytes: seq<byte>, capacity: nat): (r: seq<byte>)
    requires offset + capacity <= |packet|
    ensures |r| == |packet| && r[..offset] == packet[..offset]
    ensures |bytes| <= capacity ==> r[offset..offset + |bytes|] == bytes
  {
    if |bytes| <= capacity then packet[..offset] + bytes + packet[offset + |bytes|..] else packet
  }

  /** HttpEventIngress::ReadPacketBody: one vector, sized once or grown chunk by chunk. */
  method ReadPacketBody(source: Source, declared: Option<nat>, maximum: nat, chunk: nat)
    returns (result: WebResult, packet: seq<byte>)
    ensures match ReadBodyOf(source, declared, maximum, chunk)
            case Rejected(error) => result == error
            case Accepted(body) => result == SUCCESS && packet == body
    ensures |packet| <= if declared.Some? then declared.value else maximum
  {
    hide ReadDeclared, ReadUnknown, ReadBody;
    packet := [];
    var turn: nat := 0;
    if declared.Some? {
      packet := Resize(packet, declared.value);
      var offset: nat := 0;
      while offset < |packet|
        invariant 0 <= offset <= |packet| == declared.value
        invariant ReadDeclared(source, |packet|, packet[..offset], turn) == ReadDeclared(source, declared.value, [], 0)
        decreases |packet| - offset
      {
        ghost var got := packet[..offset];
        DeclaredTurn(source, |packet|, got, turn);
        var read := ReadBody(source, turn, offset, |packet| - offset);
        packet := Filled(packet, offset, read.bytes, |packet| - offset);
        turn := turn + 1;
        if !read.result.Succeeded() {
          return read.result, packet;
        }
        if |read.bytes| > |packet| - offset {
          return Failure(ProtocolError), packet;
        }
        assert packet[..offset + |read.bytes|] == got + read.bytes;
        offset := offset + |read.bytes|;
        if read.endOfBody {
          assert packet[..|packet|] == packet;
          return if offset == |packet| then SUCCESS else Failure(ProtocolError), packet;
        }
        if |read.bytes| == 0 {
          return Failure(ProtocolError), packet;
        }
      }
      DeclaredTurn(source, |packet|, packet[..offset], turn);
      return Failure(ProtocolError), packet;
    }

    while true
      invariant |packet| <= maximum
      invariant ReadUnknown(source, maximum, chunk, packet, turn) == ReadUnknown(source, maximum, chunk, [], 0)
      decreases maximum - |packet|
    {
      UnknownTurn(source, maximum, chunk, packet, turn);
      if |packet| >= maximum {
        return Failure(RequestTooLarge), packet;
      }
      ghost var got := packet;
      var oldSize := |packet|;
      var capacity := if chunk < maximum - oldSize then chunk else maximum - oldSize;
      packet := Resize(packet, oldSize + capacity);
      var read := ReadBody(source, turn, oldSize, capacity);
      packet := Filled(packet, oldSize, read.bytes, capacity);
      turn := turn + 1;
      if !read.result.Succeeded() {
        packet := Resize(packet, oldSize);
        return read.result, packet;
      }
      if |read.bytes| > capacity {
        packet := Resize(packet, oldSize);
        return Failure(ProtocolError), packet;
      }
      packet := Resize(packet, oldSize + |read.bytes|);
      assert packet == got + read.bytes by {
        assert packet[..oldSize] == got;
        assert packet[oldSize..] == read.bytes;
      }
      if read.endOfBody {
        return SUCCESS, packet;
      }
      if |read.bytes| == 0 {
        return Failure(ProtocolError), packet;
      }
    }
  }

  // ---------------------------------------------------------------- sources

  /** A source of `body` that never lies: what it delivers is the body at that offset, and it
      reports the end only at the end. It may fail, stall, over-claim, or report the end late. */
  ghost predicate Faithful(source: Source, body: seq<byte>) {
    forall turn: nat, offset: nat, capacity: nat ::
      && offset <= |body|
      && source(turn, offset, capacity).result.Succeeded()
      && |source(turn, offset, capacity).bytes| <= capacity ==>
        FaithfulAnswer(source(turn, offset, capacity), body, offset)
  }

  predicate FaithfulAnswer(read: BodyAnswer, body: seq<byte>, offset: nat) {
    && offset + |read.bytes| <= |body|
    && read.bytes == body[offset..offset + |read.bytes|]
    && (read.endOfBody ==> offset + |read.bytes| == |body|)
  }

  /** When a platform reports the end of the body together with the last bytes: decided by the
      number, the offset and the room of the read that delivered them. If it does not, the next,
      empty read reports it. */
  type EndPolicy = (nat, nat, nat) -> bool

  /** A faithful source that always makes progress within the room offered: any short-read
      pattern, and the end reported by that policy. */
  ghost predicate Delivers(source: Source, body: seq<byte>, ends: EndPolicy) {
    forall turn: nat, offset: nat, capacity: nat ::
      offset <= |body| && 0 < capacity ==>
        DeliversAnswer(source(turn, offset, capacity), body, turn, offset, capacity, ends)
  }

  predicate DeliversAnswer(read: BodyAnswer, body: seq<byte>, turn: nat, offset: nat, capacity: nat, ends: EndPolicy) {
    && read.result.Succeeded()
    && FaithfulAnswer(read, body, offset)
    && |read.bytes| <= capacity
    && (offset < |body| ==> |read.bytes| > 0)
    && (read.endOfBody <==> offset == |body| || (offset + |read.bytes| == |body| && ends(turn, offset, capacity)))
  }

  /** The offsets that so many reads, each with progress, can reach. */
  predicate Reachable(turn: nat, offset: nat) {
    turn <= offset && (offset > 0 ==> turn > 0)
  }

  /** The end is reported on every read that the end of the body fills exactly. */
  ghost predicate FlagsFullReads(ends: EndPolicy, size: nat) {
    forall turn: nat, offset: nat :: offset < size && Reachable(turn, offset) ==>
      FlagsFullRead(ends, turn, offset, size)
  }

  predicate FlagsFullRead(ends: EndPolicy, turn: nat, offset: nat, size: nat) {
    offset <= size && ends(turn, offset, size - offset)
  }

  /** A platform that never flags a full read, such as one that flags only reads shorter than
      the room offered, or only a separate empty read. */
  ghost predicate FlagsNoFullRead(ends: EndPolicy, size: nat) {
    forall turn: nat, offset: nat :: offset < size && Reachable(turn, offset) ==>
      !FlagsFullRead(ends, turn, offset, size)
  }

  /** What a complete, well-sized body is worth. */
  function Verdict(body: seq<byte>, length: nat, maximum: nat): BodyOutcome {
    if length > maximum then Rejected(Failure(RequestTooLarge))
    else if length == 0 then Rejected(Failure(ProtocolError))
    else Accepted(body)
  }

  // ---------------------------------------------------------------- theorems

  lemma NextPiece(body: seq<byte>, offset: nat, size: nat)
    requires offset + size <= |body|
    ensures body[..offset] + body[offset..offset + size] == body[..offset + size]
  {
  }

  /** No accepted body is cut short, padded or reordered, in either mode. */
  lemma {:induction false} AcceptedIsTheBody(source: Source, declared: Option<nat>, maximum: nat, chunk: nat,
                                             body: seq<byte>)
    requires Faithful(source, body)
    ensures var outcome := Ingest(source, declared, maximum, chunk);
            outcome.Accepted? ==> outcome.body == body && 0 < |body| <= maximum
    ensures declared.Some? && Ingest(source, declared, maximum, chunk).Accepted? ==> declared.value == |body|
  {
    hide ReadDeclared, ReadUnknown, Faithful;
    assert body[..0] == [];
    match declared
    case Some(length) => DeclaredIsTheBody(source, length, 0, 0, body);
    case None => UnknownIsTheBody(source, maximum, chunk, 0, 0, body);
  }

  lemma {:induction false} DeclaredIsTheBody(source: Source, declared: nat, offset: nat, turn: nat, body: seq<byte>)
    requires Faithful(source, body) && offset <= |body|
    ensures var outcome := ReadDeclared(source, declared, body[..offset], turn);
            outcome.Accepted? ==> outcome.body == body && |body| == declared
    decreases declared - offset
  {
    hide ReadDeclared, ReadUnknown;
    DeclaredTurn(source, declared, body[..offset], turn);
    if offset < declared {
      var read := ReadBody(source, turn, offset, declared - offset);
      if read.result.Succeeded() && |read.bytes| <= declared - offset {
        assert FaithfulAnswer(read, body, offset);
        NextPiece(body, offset, |read.bytes|);
        assert body[..|body|] == body;
        if |read.bytes| > 0 {
          DeclaredIsTheBody(source, declared, offset + |read.bytes|, turn + 1, body);
        }
      }
    }
  }

  lemma {:induction false} UnknownIsTheBody(source: Source, maximum: nat, chunk: nat, offset: nat, turn: nat,
                                            body: seq<byte>)
    requires Faithful(source, body) && offset <= |body|
    ensures var outcome := ReadUnknown(source, maximum, chunk, body[..offset], turn);
            outcome.Accepted? ==> outcome.body == body && |body| <= maximum
    decreases maximum - offset
  {
    hide ReadDeclared, ReadUnknown;
    UnknownTurn(source, maximum, chunk, body[..offset], turn);
    if offset < maximum {
      var capacity := Capacity(maximum, chunk, offset);
      var read := ReadBody(source, turn, offset, capacity);
      if read.result.Succeeded() && |read.bytes| <= capacity {
        assert FaithfulAnswer(read, body, offset);
        NextPiece(body, offset, |read.bytes|);
        assert body[..|body|] == body;
        if |read.bytes| > 0 {
          UnknownIsTheBody(source, maximum, chunk, offset + |read.bytes|, turn + 1, body);
        }
      }
    }
  }

  /** A declaration other than the body's length is always refused; the right one depends on how
      the last read reports the end. */
  lemma {:induction false} DeclaredDelivered(source: Source, declared: nat, offset: nat, turn: nat,
                                             body: seq<byte>, ends: EndPolicy)
    requires Delivers(source, body, ends) && offset <= |body| && offset <= declared && Reachable(turn, offset)
    ensures var outcome := ReadDeclared(source, declared, body[..offset], turn);
            && (outcome == Rejected(Failure(ProtocolError)) || (declared == |body| && outcome == Accepted(body)))
            && (declared == |body| && offset < |body| && FlagsFullReads(ends, |body|) ==> outcome == Accepted(body))
    decreases declared - offset
  {
    hide ReadDeclared, ReadUnknown;
    DeclaredTurn(source, declared, body[..offset], turn);
    if offset < declared {
      var read := ReadBody(source, turn, offset, declared - offset);
      assert DeliversAnswer(read, body, turn, offset, declared - offset, ends);
      assert offset < |body| ==> (FlagsFullRead(ends, turn, offset, |body|) <==> ends(turn, offset, |body| - offset));
      NextPiece(body, offset, |read.bytes|);
      assert body[..|body|] == body;
      if !read.endOfBody {
        DeclaredDelivered(source, declared, offset + |read.bytes|, turn + 1, body, ends);
      }
    }
  }

  /** A body that leaves a byte of room is always accepted, one beyond the maximum never; one that
      fills the maximum depends on how the last read reports the end. */
  lemma {:induction false} UnknownDelivered(source: Source, maximum: nat, chunk: nat, offset: nat, turn: nat,
                                            body: seq<byte>, ends: EndPolicy)
    requires Delivers(source, body, ends) && chunk > 0 && offset <= |body| && offset <= maximum
    requires maximum > 0 && Reachable(turn, offset)
    ensures var outcome := ReadUnknown(source, maximum, chunk, body[..offset], turn);
            && (outcome == Accepted(body) || outcome == Rejected(Failure(RequestTooLarge)))
            && (|body| < maximum ==> outcome == Accepted(body))
            && (|body| > maximum ==> outcome == Rejected(Failure(RequestTooLarge)))
            && (|body| == maximum && offset < |body| && FlagsFullReads(ends, |body|) ==> outcome == Accepted(body))
            && (|body| == maximum && FlagsNoFullRead(ends, |body|) ==> outcome == Rejected(Failure(RequestTooLarge)))
    decreases maximum - offset
  {
    hide ReadDeclared, ReadUnknown;
    UnknownTurn(source, maximum, chunk, body[..offset], turn);
    if offset < maximum {
      var capacity := Capacity(maximum, chunk, offset);
      var read := ReadBody(source, turn, offset, capacity);
      assert DeliversAnswer(read, body, turn, offset, capacity, ends);
      assert offset < |body| ==> (FlagsFullRead(ends, turn, offset, |body|) <==> ends(turn, offset, |body| - offset));
      NextPiece(body, offset, |read.bytes|);
      assert body[..|body|] == body;
      if !read.endOfBody {
        UnknownDelivered(source, maximum, chunk, offset + |read.bytes|, turn + 1, body, ends);
      }
    }
  }

  /** Sources that flag full reads: the declared mode accepts exactly when the declaration is the
      body's length and within 1..maximum, whatever the short reads. */
  lemma DeclaredAcceptsExactly(source: Source, declared: nat, maximum: nat, chunk: nat, body: seq<byte>,
                               ends: EndPolicy)
    requires Delivers(source, body, ends) && FlagsFullReads(ends, |body|)
    ensures Ingest(source, Some(declared), maximum, chunk) ==
            if declared == |body| then Verdict(body, |body|, maximum)
            else Rejected(Failure(if declared > maximum then RequestTooLarge else ProtocolError))
  {
    if 0 < declared <= maximum {
      assert body[..0] == [];
      DeclaredDelivered(source, declared, 0, 0, body, ends);
    }
  }

  // ---------------------------------------------------------------- how the end must be reported

  /** A platform that reaches `split` in `turns` reads, one byte at a time at first, and then
      fills the room. */
  function Stepwise(body: seq<byte>, split: nat, turns: nat, ends: EndPolicy): Source {
    (turn: nat, offset: nat, capacity: nat) => StepwiseAnswer(body, split, turns, ends, turn, offset, capacity)
  }

  function StepwiseAnswer(body: seq<byte>, split: nat, turns: nat, ends: EndPolicy,
                          turn: nat, offset: nat, capacity: nat): BodyAnswer
  {
    if offset > |body| then BodyAnswer(SUCCESS, [], true)
    else
      var left := |body| - offset;
      var wanted :=
        if turn + 1 < turns then 1
        else if turn + 1 == turns && offset < split then split - offset
        else left;
      var room := if capacity < left then capacity else left;
      var count := if wanted < room then wanted else room;
      BodyAnswer(SUCCESS, body[offset..offset + count],
                 offset == |body| || (offset + count == |body| && ends(turn, offset, capacity)))
  }

  lemma StepwiseDelivers(body: seq<byte>, split: nat, turns: nat, ends: EndPolicy)
    ensures Delivers(Stepwise(body, split, turns, ends), body, ends)
  {
    hide StepwiseAnswer, DeliversAnswer;
    forall turn: nat, offset: nat, capacity: nat | offset <= |body| && 0 < capacity
      ensures DeliversAnswer(Stepwise(body, split, turns, ends)(turn, offset, capacity), body, turn, offset,
              capacity, ends)
    {
      StepwiseAnswers(body, split, turns, ends, turn, offset, capacity);
    }
  }

  lemma StepwiseAnswers(body: seq<byte>, split: nat, turns: nat, ends: EndPolicy, turn: nat, offset: nat, capacity: nat)
    requires offset <= |body| && 0 < capacity
    ensures DeliversAnswer(StepwiseAnswer(body, split, turns, ends, turn, offset, capacity), body, turn, offset,
            capacity, ends)
  {
  }

  lemma {:induction false} StepwiseReaches(body: seq<byte>, split: nat, turns: nat, ends: EndPolicy, k: nat)
    requires k < turns <= split < |body|
    ensures var source := Stepwise(body, split, turns, ends);
            ReadDeclared(source, |body|, body[..k], k) == ReadDeclared(source, |body|, body[..split], turns)
    decreases turns - k
  {
    hide ReadDeclared;
    DeclaredTurn(Stepwise(body, split, turns, ends), |body|, body[..k], k);
    if k + 1 < turns {
      NextPiece(body, k, 1);
      StepwiseReaches(body, split, turns, ends, k + 1);
    } else {
      NextPiece(body, k, split - k);
    }
  }

  /** When the read that comes at the split fills its room, which is what is left, an unflagged
      end makes the declared mode refuse the body. */
  lemma StepwiseRefused(body: seq<byte>, split: nat, turns: nat, ends: EndPolicy)
    requires split < |body| && Reachable(turns, split) && !FlagsFullRead(ends, turns, split, |body|)
    ensures ReadDeclared(Stepwise(body, split, turns, ends), |body|, [], 0) == Rejected(Failure(ProtocolError))
  {
    hide ReadDeclared;
    var source := Stepwise(body, split, turns, ends);
    assert body[..0] == [];
    if turns > 0 {
      StepwiseReaches(body, split, turns, ends, 0);
    }
    DeclaredTurn(source, |body|, body[..split], turns);
    NextPiece(body, split, |body| - split);
    assert body[..|body|] == body;
    DeclaredTurn(source, |body|, body, turns + 1);
  }

  /** The platforms of a policy are all served in declared mode exactly when the policy reports
      the end on every read that it fills exactly. */
  lemma DeclaredServesExactly(body: seq<byte>, maximum: nat, chunk: nat, ends: EndPolicy)
    requires 0 < |body| <= maximum
    ensures (forall source: Source :: Delivers(source, body, ends) ==>
               Ingest(source, Some(|body|), maximum, chunk) == Accepted(body)) <==>
            FlagsFullReads(ends, |body|)
  {
    hide Delivers, ReadDeclared;
    if FlagsFullReads(ends, |body|) {
      forall source: Source | Delivers(source, body, ends)
        ensures Ingest(source, Some(|body|), maximum, chunk) == Accepted(body)
      {
        DeclaredAcceptsExactly(source, |body|, maximum, chunk, body, ends);
      }
    } else {
      var turns: nat, split: nat :|
        split < |body| && Reachable(turns, split) && !FlagsFullRead(ends, turns, split, |body|);
      StepwiseDelivers(body, split, turns, ends);
      StepwiseRefused(body, split, turns, ends);
      assert Ingest(Stepwise(body, split, turns, ends), Some(|body|), maximum, chunk) != Accepted(body);
    }
  }

  /** Both modes give the same answer to that body from those two sources. */
  predicate Agree(first: Source, second: Source, body: seq<byte>, maximum: nat, chunk: nat, otherChunk: nat) {
    Ingest(first, Some(|body|), maximum, chunk) == Ingest(second, None, maximum, otherChunk)
  }

  /** The body never comes into play, or its end is reported where the declared mode looks. */
  ghost predicate ModesMeet(size: nat, maximum: nat, ends: EndPolicy) {
    size == 0 || size > maximum || FlagsFullReads(ends, size)
  }

  lemma ModesAgree(first: Source, second: Source, maximum: nat, chunk: nat, otherChunk: nat, body: seq<byte>,
                   ends: EndPolicy)
    requires Delivers(first, body, ends) && Delivers(second, body, ends) && ModesMeet(|body|, maximum, ends)
    requires maximum > 0 && otherChunk > 0
    ensures Agree(first, second, body, maximum, chunk, otherChunk)
    ensures Ingest(second, None, maximum, otherChunk) == Verdict(body, |body|, maximum)
  {
    hide Delivers, ReadDeclared, ReadUnknown;
    assert body[..0] == [];
    if 0 < |body| <= maximum {
      DeclaredAcceptsExactly(first, |body|, maximum, chunk, body, ends);
    }
    UnknownDelivered(second, maximum, otherChunk, 0, 0, body, ends);
  }

  /** The two modes agree, for any two platforms of a policy, any two short-read patterns and any
      two chunk sizes, exactly when the body is empty or beyond the maximum or the policy reports
      the end on every read that it fills exactly. It makes no difference to ask for agreement of
      each platform with itself. */
  lemma ModesAgreeExactly(body: seq<byte>, maximum: nat, chunk: nat, otherChunk: nat, ends: EndPolicy)
    requires maximum > 0 && otherChunk > 0
    ensures (forall first: Source, second: Source :: Delivers(first, body, ends) && Delivers(second, body, ends) ==>
               Agree(first, second, body, maximum, chunk, otherChunk)) <==>
            ModesMeet(|body|, maximum, ends)
    ensures (forall source: Source :: Delivers(source, body, ends) ==>
               Agree(source, source, body, maximum, chunk, otherChunk)) <==>
            ModesMeet(|body|, maximum, ends)
  {
    hide Delivers, ReadDeclared, ReadUnknown, Agree;
    if ModesMeet(|body|, maximum, ends) {
      forall first: Source, second: Source | Delivers(first, body, ends) && Delivers(second, body, ends)
        ensures Agree(first, second, body, maximum, chunk, otherChunk)
      {
        ModesAgree(first, second, maximum, chunk, otherChunk, body, ends);
      }
    } else {
      var turns: nat, split: nat :|
        split < |body| && Reachable(turns, split) && !FlagsFullRead(ends, turns, split, |body|);
      StepwiseDelivers(body, split, turns, ends);
      StepwisePartsModes(body, split, turns, maximum, chunk, otherChunk, ends);
    }
  }

  lemma StepwisePartsModes(body: seq<byte>, split: nat, turns: nat, maximum: nat, chunk: nat, otherChunk: nat,
                           ends: EndPolicy)
    requires 0 < |body| <= maximum && otherChunk > 0
    requires split < |body| && Reachable(turns, split) && !FlagsFullRead(ends, turns, split, |body|)
    ensures var source := Stepwise(body, split, turns, ends);
            !Agree(source, source, body, maximum, chunk, otherChunk)
  {
    hide Delivers, ReadDeclared, ReadUnknown, Stepwise;
    StepwiseDelivers(body, split, turns, ends);
    StepwiseRefused(body, split, turns, ends);
    assert body[..0] == [];
    UnknownDelivered(Stepwise(body, split, turns, ends), maximum, otherChunk, 0, 0, body, ends);
  }

  /** When no full read is flagged the modes part on every body that fits: the declared mode accepts no body at all, the
      unknown mode every body that leaves a byte of room, and one that fills the maximum is too
      large for it. */
  lemma UnflaggedEndSeparatesModes(source: Source, declared: nat, maximum: nat, chunk: nat, body: seq<byte>,
                                   ends: EndPolicy)
    requires Delivers(source, body, ends) && FlagsNoFullRead(ends, |body|) && maximum > 0 && chunk > 0
    ensures Ingest(source, Some(declared), maximum, chunk) ==
            Rejected(Failure(if declared > maximum then RequestTooLarge else ProtocolError))
    ensures Ingest(source, None, maximum, chunk) ==
            if |body| == 0 then Rejected(Failure(ProtocolError))
            else if |body| < maximum then Accepted(body)
            else Rejected(Failure(RequestTooLarge))
  {
    hide Delivers, ReadUnknown;
    assert body[..0] == [];
    if 0 < declared <= maximum {
      UnflaggedRefused(source, declared, 0, 0, body, ends);
    }
    UnknownDelivered(source, maximum, chunk, 0, 0, body, ends);
  }

  lemma {:induction false} UnflaggedRefused(source: Source, declared: nat, offset: nat, turn: nat, body: seq<byte>,
                                            ends: EndPolicy)
    requires Delivers(source, body, ends) && FlagsNoFullRead(ends, |body|)
    requires offset <= |body| && offset <= declared && Reachable(turn, offset)
    ensures ReadDeclared(source, declared, body[..offset], turn) == Rejected(Failure(ProtocolError))
    decreases declared - offset
  {
    hide ReadDeclared, ReadUnknown;
    DeclaredTurn(source, declared, body[..offset], turn);
    if offset < declared {
      var read := ReadBody(source, turn, offset, declared - offset);
      assert DeliversAnswer(read, body, turn, offset, declared - offset, ends);
      assert offset < |body| ==> (FlagsFullRead(ends, turn, offset, |body|) <==> ends(turn, offset, |body| - offset));
      NextPiece(body, offset, |read.bytes|);
      if !read.endOfBody {
        UnflaggedRefused(source, declared, offset + |read.bytes|, turn + 1, body, ends);
      }
    }
  }

  /** The smallest case: a platform that flags the end on reads shorter than the room. */
  lemma ShortReadFlagsPartModes()
    ensures var shortReads: EndPolicy := (turn, offset, capacity) => 1 - offset < capacity;
            var source := Stepwise([1], 0, 0, shortReads);
            && Delivers(source, [1], shortReads)
            && Ingest(source, Some(1), 4, 4) == Rejected(Failure(ProtocolError))
            && Ingest(source, None, 4, 4) == Accepted([1])
  {
    var shortReads: EndPolicy := (turn, offset, capacity) => 1 - offset < capacity;
    StepwiseDelivers([1], 0, 0, shortReads);
    hide Delivers;
    UnflaggedEndSeparatesModes(Stepwise([1], 0, 0, shortReads), 1, 4, 4, [1], shortReads);
  }

  // ---------------------------------------------------------------- how a read ends the body

  /** The bytes held after `n` reads that all succeeded within their room, brought something and
      did not end the body; `room` is the room offered at an offset. */
  function HeldAfter(source: Source, room: nat -> nat, n: nat): Option<seq<byte>> {
    if n == 0 then Some([])
    else
      match HeldAfter(source, room, n - 1)
      case None => None
      case Some(got) =>
        var read := source(n - 1, |got|, room(|got|));
        if read.result.Succeeded() && 0 < |read.bytes| <= room(|got|) && !read.endOfBody then Some(got + read.bytes)
        else None
  }

  function DeclaredRoom(declared: nat): nat -> nat {
    (offset: nat) => if offset < declared then declared - offset else 0
  }

  function UnknownRoom(maximum: nat, chunk: nat): nat -> nat {
    (offset: nat) => if offset < maximum then Capacity(maximum, chunk, offset) else 0
  }

  lemma {:induction false} DeclaredHeld(source: Source, declared: nat, n: nat)
    requires HeldAfter(source, DeclaredRoom(declared), n).Some?
    ensures var got := HeldAfter(source, DeclaredRoom(declared), n).value;
            |got| <= declared && ReadDeclared(source, declared, [], 0) == ReadDeclared(source, declared, got, n)
  {
    hide ReadDeclared;
    if n > 0 {
      DeclaredHeld(source, declared, n - 1);
      var got := HeldAfter(source, DeclaredRoom(declared), n - 1).value;
      DeclaredTurn(source, declared, got, n - 1);
    }
  }

  /** After any number of good reads in declared mode, the next one decides: a failure is the
      result, a false claim or a read that brings nothing is a protocol error, and an end is
      accepted exactly at the declared length; and so is a body that goes on beyond it. */
  lemma DeclaredReadDecides(source: Source, declared: nat, n: nat)
    requires HeldAfter(source, DeclaredRoom(declared), n).Some?
    ensures var outcome := ReadDeclared(source, declared, [], 0);
            var got := HeldAfter(source, DeclaredRoom(declared), n).value;
            && (|got| == declared ==> outcome == Rejected(WebResult(ProtocolError, 0)))
            && (|got| < declared ==>
                  var read := source(n, |got|, declared - |got|);
                  && (!read.result.Succeeded() ==> outcome == Rejected(read.result))
                  && (read.result.Succeeded() && |read.bytes| > declared - |got| ==>
                        outcome == Rejected(WebResult(ProtocolError, 0)))
                  && (read.result.Succeeded() && |read.bytes| <= declared - |got| && read.endOfBody ==>
                        outcome == if |got + read.bytes| == declared then Accepted(got + read.bytes)
                                   else Rejected(WebResult(ProtocolError, 0)))
                  && (read.result.Succeeded() && read.bytes == [] && !read.endOfBody ==>
                        outcome == Rejected(WebResult(ProtocolError, 0))))
  {
    hide ReadDeclared;
    DeclaredHeld(source, declared, n);
    DeclaredTurn(source, declared, HeldAfter(source, DeclaredRoom(declared), n).value, n);
  }

  lemma {:induction false} UnknownHeld(source: Source, maximum: nat, chunk: nat, n: nat)
    requires HeldAfter(source, UnknownRoom(maximum, chunk), n).Some?
    ensures var got := HeldAfter(source, UnknownRoom(maximum, chunk), n).value;
            && |got| <= maximum
            && ReadUnknown(source, maximum, chunk, [], 0) == ReadUnknown(source, maximum, chunk, got, n)
  {
    hide ReadUnknown;
    if n > 0 {
      UnknownHeld(source, maximum, chunk, n - 1);
      var got := HeldAfter(source, UnknownRoom(maximum, chunk), n - 1).value;
      UnknownTurn(source, maximum, chunk, got, n - 1);
    }
  }

  /** The same for an unknown length: an end is always accepted, and a body that has filled the
      maximum without one is too large. */
  lemma UnknownReadDecides(source: Source, maximum: nat, chunk: nat, n: nat)
    requires HeldAfter(source, UnknownRoom(maximum, chunk), n).Some? && chunk > 0
    ensures var outcome := ReadUnknown(source, maximum, chunk, [], 0);
            var got := HeldAfter(source, UnknownRoom(maximum, chunk), n).value;
            && (|got| == maximum ==> outcome == Rejected(WebResult(RequestTooLarge, 0)))
            && (|got| < maximum ==>
                  var room := if chunk < maximum - |got| then chunk else maximum - |got|;
                  var read := source(n, |got|, room);
                  && (!read.result.Succeeded() ==> outcome == Rejected(read.result))
                  && (read.result.Succeeded() && |read.bytes| > room ==>
                        outcome == Rejected(WebResult(ProtocolError, 0)))
                  && (read.result.Succeeded() && |read.bytes| <= room && read.endOfBody ==>
                        outcome == Accepted(got + read.bytes))
                  && (read.result.Succeeded() && read.bytes == [] && !read.endOfBody ==>
                        outcome == Rejected(WebResult(ProtocolError, 0))))
  {
    hide ReadUnknown;
    UnknownHeld(source, maximum, chunk, n);
    UnknownTurn(source, maximum, chunk, HeldAfter(source, UnknownRoom(maximum, chunk), n).value, n);
  }
}

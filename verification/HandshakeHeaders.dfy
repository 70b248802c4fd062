/** WebSocketClient::ValidateHeaders: header checks and overflow-free byte accounting. */
module HandshakeHeaders {
  import opened WebTypes
  import opened Text

  datatype Header = Header(name: string, value: string)

  /** A header source: a count, and a lookup that may fail at any index. */
  datatype HeaderSource = HeaderSource(count: nat, header: nat -> Option<Header>)

  const MAXIMUM_HANDSHAKE_HEADER_COUNT: nat := 64
  const FRAMING_BYTES: nat := 4

  // ---------------------------------------------------------------- size_t

  /** size_t addition and subtraction, where they do not wrap; `sizeMax` is the largest size_t. */
  function AddSize(a: nat, b: nat, sizeMax: nat): nat
    requires a + b <= sizeMax
  {
    a + b
  }

  function SubtractSize(a: nat, b: nat): nat
    requires b <= a
  {
    a - b
  }

  // ---------------------------------------------------------------- specification

  function LowerAscii(c: char): char {
    if 'A' <= c <= 'Z' then c + (32 as char) else c
  }

  function Lowered(s: string): (r: string)
    ensures |r| == |s|
    ensures forall k :: 0 <= k < |s| ==> r[k] == LowerAscii(s[k])
  {
    seq(|s|, i requires 0 <= i < |s| => LowerAscii(s[i]))
  }

  /** The header names the handshake keeps for itself, in lower case. */
  const RESERVED: set<string> := {
    "host", "connection", "upgrade", "sec-websocket-key", "sec-websocket-version", "sec-websocket-protocol"}

  predicate NameCharacter(c: char) {
    0x20 < c as int < 0x7f && c != ':'
  }

  /** A header the handshake may carry. */
  predicate WellFormed(header: Header) {
    && header.name != ""
    && (forall k :: 0 <= k < |header.name| ==> NameCharacter(header.name[k]))
    && Lowered(header.name) !in RESERVED
    && '\r' !in header.value
    && '\n' !in header.value
  }

  /** "name: value" and the line end. */
  function LineBytes(header: Option<Header>): nat {
    match header
    case None => 0
    case Some(h) => |h.name| + |h.value| + FRAMING_BYTES
  }

  /** The unbounded byte count of the first `n` lines. */
  function TotalBytes(source: HeaderSource, n: nat): nat {
    if n == 0 then 0 else TotalBytes(source, n - 1) + LineBytes(source.header(n - 1))
  }

  predicate Acceptable(source: HeaderSource, i: nat) {
    source.header(i).Some? && WellFormed(source.header(i).value)
  }

  /** The error decided at index `i`, if any. */
  function Offence(source: HeaderSource, maximumBytes: nat, i: nat): Option<WebError> {
    if !Acceptable(source, i) then Some(InvalidConfiguration)
    else if TotalBytes(source, i + 1) > maximumBytes then Some(ResourceExhausted)
    else None
  }

  /** The first offending index decides. */
  function FirstOffence(source: HeaderSource, maximumBytes: nat, from: nat): (r: Option<WebError>)
    ensures r.None? <==> forall i :: from <= i < source.count ==> Offence(source, maximumBytes, i).None?
    ensures r.Some? ==> exists i :: from <= i < source.count && Offence(source, maximumBytes, i) == r &&
                                    forall j :: from <= j < i ==> Offence(source, maximumBytes, j).None?
    decreases source.count - from
  {
    if from >= source.count then None
    else if Offence(source, maximumBytes, from).Some? then Offence(source, maximumBytes, from)
    else FirstOffence(source, maximumBytes, from + 1)
  }

  function Verdict(headers: Option<HeaderSource>, maximumBytes: nat): WebResult {
    match headers
    case None => SUCCESS
    case Some(source) =>
      if maximumBytes == 0 then Failure(InvalidConfiguration)
      else if source.count > MAXIMUM_HANDSHAKE_HEADER_COUNT then Failure(ResourceExhausted)
      else
        match FirstOffence(source, maximumBytes, 0)
        case None => SUCCESS
        case Some(error) => Failure(error)
  }

  // ---------------------------------------------------------------- the loops

  method HeaderNameEquals(left: string, right: string) returns (equal: bool)
    ensures equal <==> Lowered(left) == Lowered(right)
  {
    if |left| != |right| {
      return false;
    }
    for index := 0 to |left|
      invariant forall k :: 0 <= k < index ==> LowerAscii(left[k]) == LowerAscii(right[k])
    {
      if LowerAscii(left[index]) != LowerAscii(right[index]) {
        assert Lowered(left)[index] != Lowered(right)[index];
        return false;
      }
    }
    return true;
  }

  lemma LoweredIs(s: string, lower: string)
    requires |s| == |lower| && forall k :: 0 <= k < |s| ==> lower[k] == LowerAscii(s[k])
    ensures Lowered(s) == lower
  {
  }

  lemma ReservedNames()
    ensures Lowered("Host") == "host" && Lowered("Connection") == "connection" && Lowered("Upgrade") == "upgrade"
    ensures Lowered("Sec-WebSocket-Key") == "sec-websocket-key"
    ensures Lowered("Sec-WebSocket-Version") == "sec-websocket-version"
    ensures Lowered("Sec-WebSocket-Protocol") == "sec-websocket-protocol"
  {
    LoweredIs("Host", "host");
    LoweredIs("Connection", "connection");
    LoweredIs("Upgrade", "upgrade");
    LoweredIs("Sec-WebSocket-Key", "sec-websocket-key");
    LoweredIs("Sec-WebSocket-Version", "sec-websocket-version");
    LoweredIs("Sec-WebSocket-Protocol", "sec-websocket-protocol");
  }

  method IsReservedHandshakeHeader(name: string) returns (reserved: bool)
    ensures reserved <==> Lowered(name) in RESERVED
  {
    ReservedNames();
    hide Lowered;
    var host := HeaderNameEquals(name, "Host");
    var connection := HeaderNameEquals(name, "Connection");
    var upgrade := HeaderNameEquals(name, "Upgrade");
    var key := HeaderNameEquals(name, "Sec-WebSocket-Key");
    var version := HeaderNameEquals(name, "Sec-WebSocket-Version");
    var protocol := HeaderNameEquals(name, "Sec-WebSocket-Protocol");
    return host || connection || upgrade || key || version || protocol;
  }

  method ContainsInvalidHeaderNameCharacter(name: string) returns (invalid: bool)
    ensures invalid <==> name == "" || exists k :: 0 <= k < |name| && !NameCharacter(name[k])
  {
    if name == "" {
      return true;
    }
    for index := 0 to |name|
      invariant forall k :: 0 <= k < index ==> NameCharacter(name[k])
    {
      var character := name[index] as int;
      if character <= 0x20 || character >= 0x7f || name[index] == ':' {
        return true;
      }
    }
    return false;
  }

  /** Every view fits the address space, so every size is a size_t. */
  predicate Addressable(source: HeaderSource, sizeMax: nat) {
    forall i: nat :: i < source.count && source.header(i).Some? ==>
      |source.header(i).value.name| <= sizeMax && |source.header(i).value.value| <= sizeMax
  }

  /** For any width of size_t the loop gives the verdict of the unbounded sum, and no operation
      wraps: every AddSize and SubtractSize meets its precondition. */
  method ValidateHeaders(headers: Option<HeaderSource>, maximumBytes: nat, sizeMax: nat) returns (result: WebResult)
    requires FRAMING_BYTES <= sizeMax && maximumBytes <= sizeMax
    requires headers.Some? ==> Addressable(headers.value, sizeMax)
    ensures result == Verdict(headers, maximumBytes)
  {
    if headers.None? {
      return SUCCESS;
    }
    if maximumBytes == 0 {
      return Failure(InvalidConfiguration);
    }
    var source := headers.value;
    if source.count > MAXIMUM_HANDSHAKE_HEADER_COUNT {
      return Failure(ResourceExhausted);
    }
    var totalBytes: nat := 0;
    var index: nat := 0;
    while index < source.count
      invariant index <= source.count
      invariant totalBytes == TotalBytes(source, index) <= maximumBytes
      invariant FirstOffence(source, maximumBytes, 0) == FirstOffence(source, maximumBytes, index)
    {
      var header := source.header(index);
      if header.None? {
        return Failure(InvalidConfiguration);
      }
      var name, value := header.value.name, header.value.value;
      var invalid := ContainsInvalidHeaderNameCharacter(name);
      var reserved := IsReservedHandshakeHeader(name);
      var lineBreak := Find(value, '\r', 0).Some? || Find(value, '\n', 0).Some?;
      assert Acceptable(source, index) <==> !invalid && !reserved && !lineBreak;
      if invalid || reserved || lineBreak {
        return Failure(InvalidConfiguration);
      }
      assert TotalBytes(source, index + 1) == totalBytes + |name| + |value| + FRAMING_BYTES;
      if |name| > SubtractSize(sizeMax, |value|) {
        return Failure(ResourceExhausted);
      }
      if AddSize(|name|, |value|, sizeMax) > SubtractSize(sizeMax, FRAMING_BYTES) {
        return Failure(ResourceExhausted);
      }
      var lineBytes := AddSize(AddSize(|name|, |value|, sizeMax), FRAMING_BYTES, sizeMax);
      if lineBytes > maximumBytes {
        return Failure(ResourceExhausted);
      }
      if totalBytes > SubtractSize(maximumBytes, lineBytes) {
        return Failure(ResourceExhausted);
      }
      totalBytes := AddSize(totalBytes, lineBytes, sizeMax);
      index := index + 1;
    }
    return SUCCESS;
  }

  // ---------------------------------------------------------------- what success means

  lemma {:induction false} TotalBytesGrow(source: HeaderSource, m: nat, n: nat)
    requires m <= n
    ensures TotalBytes(source, m) <= TotalBytes(source, n)
    decreases n
  {
    if m < n {
      TotalBytesGrow(source, m, n - 1);
    }
  }

  /** Success is: no source; or a positive budget, at most 64 headers, every one of them
      acceptable, and the sum of all lines within the budget. */
  lemma SuccessExactly(headers: Option<HeaderSource>, maximumBytes: nat)
    ensures Verdict(headers, maximumBytes).Succeeded() <==>
            || headers.None?
            || (&& maximumBytes > 0
                && headers.value.count <= MAXIMUM_HANDSHAKE_HEADER_COUNT
                && (forall i: nat :: i < headers.value.count ==> Acceptable(headers.value, i))
                && TotalBytes(headers.value, headers.value.count) <= maximumBytes)
  {
    if headers.Some? {
      var source := headers.value;
      var n := source.count;
      if FirstOffence(source, maximumBytes, 0).None? && n > 0 {
        forall i: nat | i < n ensures Acceptable(source, i) {
          assert Offence(source, maximumBytes, i).None?;
        }
        assert Offence(source, maximumBytes, n - 1).None?;
      }
      if TotalBytes(source, n) <= maximumBytes && forall i: nat :: i < n ==> Acceptable(source, i) {
        forall i: nat | i < n ensures Offence(source, maximumBytes, i).None? {
          assert Acceptable(source, i);
          TotalBytesGrow(source, i + 1, n);
        }
      }
    }
  }

  /** And which error anything else is: the number of headers and the budget are looked at first,
      then the first header that is missing, malformed or reserved, or that no longer fits. */
  lemma ErrorExactly(headers: Option<HeaderSource>, maximumBytes: nat, i: nat)
    requires headers.Some?
    ensures var source := headers.value;
            && (maximumBytes == 0 ==> Verdict(headers, maximumBytes) == WebResult(InvalidConfiguration, 0))
            && (maximumBytes > 0 && source.count > 64 ==>
                  Verdict(headers, maximumBytes) == WebResult(ResourceExhausted, 0))
            && (maximumBytes > 0 && i < source.count <= 64 && TotalBytes(source, i) <= maximumBytes &&
                (forall j: nat :: j < i ==> Acceptable(source, j)) ==>
                  && (!Acceptable(source, i) ==> Verdict(headers, maximumBytes) == WebResult(InvalidConfiguration, 0))
                  && (Acceptable(source, i) && TotalBytes(source, i + 1) > maximumBytes ==>
                        Verdict(headers, maximumBytes) == WebResult(ResourceExhausted, 0)))
  {
    var source := headers.value;
    if i < source.count && TotalBytes(source, i) <= maximumBytes && forall j: nat :: j < i ==> Acceptable(source, j) {
      forall j: nat | j < i ensures Offence(source, maximumBytes, j).None? {
        TotalBytesGrow(source, j + 1, i);
      }
      if Offence(source, maximumBytes, i).Some? {
        FirstIs(source, maximumBytes, 0, i);
      }
    }
  }

  lemma {:induction false} FirstIs(source: HeaderSource, maximumBytes: nat, from: nat, i: nat)
    requires from <= i < source.count && Offence(source, maximumBytes, i).Some?
    requires forall j: nat :: from <= j < i ==> Offence(source, maximumBytes, j).None?
    ensures FirstOffence(source, maximumBytes, from) == Offence(source, maximumBytes, i)
    decreases i - from
  {
    hide Offence;
    if from < i {
      FirstIs(source, maximumBytes, from + 1, i);
    }
  }

  // ---------------------------------------------------------------- what acceptance protects

  /** Two characters are the same but for case exactly if they are equal, or an upper-case letter
      and the lower-case letter 32 places on. */
  lemma LowerAsciiExactly(c: char, d: char)
    ensures LowerAscii(c) == LowerAscii(d) <==>
            || c == d
            || ('A' <= c <= 'Z' && d as int == c as int + 32)
            || ('A' <= d <= 'Z' && c as int == d as int + 32)
  {
  }

  /** The line a header adds to the handshake. */
  function Line(header: Header): string {
    header.name + ": " + header.value + "\r\n"
  }

  /** A well-formed header can be read back from whatever begins with its line: the name ends at
      the first colon and the line at the first carriage return, so no header smuggles another. */
  lemma LineReadsBack(header: Header, text: string)
    requires WellFormed(header) && Line(header) <= text
    ensures var colon, end := Find(text, ':', 0), Find(text, '\r', 0);
            && colon == Some(|header.name|) && end == Some(|header.name| + 2 + |header.value|)
            && text[..colon.value] == header.name && text[colon.value + 2..end.value] == header.value
            && |Line(header)| == LineBytes(Some(header)) == end.value + 2
  {
    NamePlain(header);
    hide WellFormed, Find;
    var n, v := |header.name|, |header.value|;
    LineParts(header, text);
    FindAt(text, ':', n);
    FindAt(text, '\r', n + 2 + v);
  }

  lemma NamePlain(header: Header)
    requires WellFormed(header)
    ensures ':' !in header.name && '\r' !in header.name && '\r' !in header.value
  {
  }

  lemma FindAt(s: string, c: char, at: nat)
    requires at < |s| && s[at] == c && c !in s[..at]
    ensures Find(s, c, 0) == Some(at)
  {
    assert forall k :: 0 <= k < at ==> s[k] == s[..at][k];
  }

  lemma LineParts(header: Header, text: string)
    requires Line(header) <= text && ':' !in header.name && '\r' !in header.name && '\r' !in header.value
    ensures var n, v := |header.name|, |header.value|;
            && |text| >= |Line(header)| == n + v + 4
            && text[..n] == header.name && text[n + 2..n + 2 + v] == header.value
            && text[n] == ':' && text[n + 2 + v] == '\r'
            && '\r' !in text[..n + 2 + v]
  {
    var n, v := |header.name|, |header.value|;
    var line := Line(header);
    assert text[..|line|] == line;
    assert line[..n] == header.name && line[n + 2..n + 2 + v] == header.value;
    assert text[..n] == line[..n] && text[n + 2..n + 2 + v] == line[n + 2..n + 2 + v];
    assert text[n] == line[n] && text[n + 1] == line[n + 1] && text[n + 2 + v] == line[n + 2 + v];
    assert text[..n + 2 + v] == text[..n] + [text[n], text[n + 1]] + text[n + 2..n + 2 + v];
  }
}

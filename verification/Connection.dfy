/** One client connection: struct Conn of src/connection.c and the functions that fill it,
    copy a request body to a file and send responses. */
module Connection {
  import opened Options
  import opened CStrings
  import opened Messages
  import opened Texts
  import opened Numbers
  import opened Streams
  import opened Http

  const BUFFER: nat := 4096
  const BLANK: Bytes := "\r\n\r\n"

  /** What conn_recv_file copies to the file: the part of the body that came with the head,
      whole, then the rest of the stream up to the declared length. `data` is everything the
      client sends, `k` the part conn_parse has read. */
  function Stored(data: Bytes, k: nat, start: nat, length: int): Bytes
    requires k <= |data|
  {
    var kept := if start < k then data[start..k] else "";
    var remaining := length - |kept|;
    kept + (if remaining > 0 then data[k..k + Min(remaining, |data| - k)] else "")
  }

  /** The same from what is in the buffer and what is still to come. */
  function Copied(buf: string, k: nat, start: nat, length: int, rest: Bytes): Bytes
    requires k <= |buf|
  {
    var kept := if start < k then buf[start..k] else "";
    kept + (if length > |kept| then rest[..Min(length - |kept|, |rest|)] else "")
  }

  /** The header loop is a fold over the successive leftmost matches, in which the last
      Content-Length and the last Request-Id win. */
  method ScanHeaders(text: string, from: nat, length0: int, id0: string) returns (at: nat, length: int, id: string)
    requires from <= |text|
    ensures var hs := Headers(text, from);
            at == HeadersEnd(from, hs) && length == LengthOf(hs, length0) && id == IdOf(hs, id0)
  {
    at, length, id := from, length0, id0;
    ghost var seen: seq<Header> := [];
    var m := NextHeader(text, at);
    while m.Some?
      invariant Scanned(text, from, at, seen, length0, id0, length, id)
      invariant m == NextHeader(text, at)
      decreases |text| - at
    {
      var h := m.value;
      ScanStep(text, from, at, seen, length0, id0, length, id, h);
      if h.key == LENGTH_KEY {
        length := Signed(Strtoull(h.value));
      } else if h.key == ID_KEY {
        id := h.value;
      }
      seen := seen + [h];
      at := h.end;
      m := NextHeader(text, at);
    }
    assert seen == Headers(text, from);
  }

  class Conn {
    const buffer: array<char>
    var bytesRead: int
    var messageStart: int
    var inMessage: int
    var contentLength: int
    var uri: string
    var requestId: string
    var request: Verb

    /** conn_new: everything zero, the request id that is logged when none is sent. */
    constructor ()
      ensures fresh(buffer) && buffer.Length == BUFFER + 1 && Blank() && bytesRead == 0 && inMessage == 0
    {
      buffer := new char[BUFFER + 1](_ => NUL);
      bytesRead, messageStart, inMessage, contentLength := 0, 0, 0, 0;
      uri, requestId, request := "", "0", UNSUPPORTED;
    }

    /** Nothing has been parsed yet. */
    predicate Blank()
      reads this
    {
      messageStart == 0 && contentLength == 0 && uri == "" && requestId == "0" && request == UNSUPPORTED
    }

    ghost predicate Shows(status: Option<nat>, v: Verdict)
      reads this
    {
      && status == v.status && request == v.verb && uri == v.uri && requestId == v.id
      && contentLength == v.length && messageStart == v.start
    }

    /** parse_headers: the message starts after the last header and one blank line. `text` is
        the buffer as the pattern matcher sees it. */
    method ParseHeaders(text: string)
      requires 0 <= messageStart <= |text|
      modifies this
      ensures bytesRead == old(bytesRead) && inMessage == old(inMessage) && uri == old(uri) && request == old(request)
      ensures var hs := Headers(text, old(messageStart));
              && messageStart == HeadersEnd(old(messageStart), hs) + 2
              && contentLength == LengthOf(hs, old(contentLength))
              && requestId == IdOf(hs, old(requestId))
    {
      var at;
      at, contentLength, requestId := ScanHeaders(text, messageStart, contentLength, requestId);
      messageStart := at + 2;
    }

    /** process_request after the request line matched as `l`. */
    method Interpret(text: string, l: Line) returns (status: Option<nat>)
      requires Blank()
      requires l.method_ + 2 <= l.uri && l.uri < l.major && l.major + 1 < l.minor && l.minor + 2 <= |text|
      modifies this
      ensures Shows(status, Judge(text, l)) && bytesRead == old(bytesRead) && inMessage == old(inMessage)
    {
      request := VerbOf(text);
      uri := text[l.method_ + 2..l.uri];
      if l.minor - (l.major + 1) > 1 {
        return Some(400);
      }
      if text[l.major + 1] != '1' {
        return Some(505);
      }
      messageStart := l.minor + 2;
      ParseHeaders(text);
      return None;
    }

    /** process_request fills the connection with the verdict on the buffered text. */
    method ProcessRequest(text: string) returns (status: Option<nat>)
      requires Blank()
      modifies this
      ensures Shows(status, ParseText(text)) && bytesRead == old(bytesRead) && inMessage == old(inMessage)
    {
      var r := MatchLine(text);
      if r.None? {
        return Some(400);
      }
      status := Interpret(text, r.value);
    }

    /** conn_parse on any stream, however it is cut up: the verdict is that on the part read,
        and on success the unread part of the buffer is accounted for. */
    method Parse(src: Source) returns (status: Option<nat>, src': Source)
      requires buffer.Length == BUFFER + 1 && Blank()
      modifies this, buffer
      ensures -1 <= bytesRead <= BUFFER
      ensures bytesRead < 0 ==> FirstError(src.quirks).Some?
      ensures bytesRead < 0 ==> status == Some(if FirstError(src.quirks).value then 500 else 400)
      ensures bytesRead == 0 ==> status == Some(400)
      ensures bytesRead <= 0 ==> Blank()
      ensures bytesRead >= 0 ==>
                && Cut(src.data, bytesRead, BUFFER, BLANK)
                && buffer[..bytesRead] == src.data[..bytesRead] && src'.data == src.data[bytesRead..]
      ensures bytesRead > 0 ==> Shows(status, ParseText(CString(src.data[..bytesRead])))
      ensures status.None? ==> bytesRead > 0 && messageStart >= 0 && inMessage == bytesRead - messageStart
      ensures bytesRead >= 0 ==> FirstError(src'.quirks) == FirstError(src.quirks)
    {
      var rc, timeout, text;
      rc, timeout, text, src' := Fill(src);
      bytesRead := rc;
      if rc < 0 {
        return Some(if timeout then 500 else 400), src';
      }
      if rc == 0 {
        return Some(400), src';
      }
      status := ProcessRequest(text);
      if status.Some? {
        return status, src';
      }
      inMessage := bytesRead - messageStart;
    }

    /** The read_until call of conn_parse, and the terminator after what it read. */
    method Fill(src: Source) returns (rc: int, timeout: bool, text: string, src': Source)
      requires buffer.Length == BUFFER + 1
      modifies buffer
      ensures -1 <= rc <= BUFFER
      ensures rc < 0 ==> FirstError(src.quirks) == Some(timeout)
      ensures rc >= 0 ==> Cut(src.data, rc, BUFFER, BLANK)
      ensures rc >= 0 ==> buffer[..rc] == src.data[..rc] && src'.data == src.data[rc..]
      ensures rc >= 0 ==> text == CString(src.data[..rc])
      ensures rc >= 0 ==> FirstError(src'.quirks) == FirstError(src.quirks)
    {
      text := "";
      rc, timeout, src' := ReadUntil(src, buffer, BUFFER, BLANK);
      if rc >= 0 {
        buffer[rc] := NUL;
        assert buffer[..rc] == src.data[..rc];
        TextStopsAt(buffer[..], rc);
        assert buffer[..][..rc] == src.data[..rc];
        text := CString(buffer[..]);
      }
    }

    /** conn_recv_file: on success the file gets the kept bytes and then the stream, up to the
        declared length or the end; on failure a prefix of that. */
    method RecvFile(src: Source, dst: Sink) returns (ok: bool, src': Source, dst': Sink)
      requires 0 <= messageStart && 0 <= bytesRead <= buffer.Length && inMessage == bytesRead - messageStart
      ensures var all := dst.written + Copied(buffer[..], bytesRead, messageStart, contentLength, src.data);
              (ok ==> dst'.written == all) && dst.written <= dst'.written <= all
      ensures !ok ==> Fails(src.quirks) || Fails(dst.quirks)
    {
      src', dst' := src, dst;
      var total := 0;
      ghost var kept := if messageStart < bytesRead then buffer[..][messageStart..bytesRead] else "";
      if inMessage > 0 {
        total, dst' := WriteAll(dst', buffer[messageStart..bytesRead]);
        if total < 0 {
          return false, src', dst';
        }
      }
      assert dst'.written == dst.written + kept;
      var remaining := contentLength - total;
      if remaining > 0 {
        var rc;
        rc, src', dst' := PassBytes(src', dst', remaining);
        if rc < 0 {
          return false, src', dst';
        }
      }
      return true, src', dst';
    }
  }

  /** A terminator right after the data hides whatever else is in the buffer. */
  lemma TextStopsAt(buf: string, n: nat)
    requires n < |buf| && buf[n] == NUL
    ensures CString(buf) == CString(buf[..n])
  {
    var t := CString(buf[..n]);
    if |t| < n {
      CStringSkips(t, buf[|t|..]);
      assert buf == t + buf[|t|..];
    } else {
      CStringSkips(t, buf[n..]);
      assert buf == t + buf[n..];
    }
  }

  /** What conn_recv_file writes, in terms of the whole stream. */
  lemma StoredFromBuffer(buf: string, data: Bytes, k: nat, start: nat, length: int)
    requires k <= |data| && k <= |buf| && buf[..k] == data[..k]
    ensures Copied(buf, k, start, length, data[k..]) == Stored(data, k, start, length)
  {
    if k > start {
      assert buf[start..k] == buf[..k][start..];
      assert data[start..k] == data[..k][start..];
    }
  }

  // ----- Responses ------------------------------------------------------------------------------

  function ResponseText(status: nat, length: nat): Text {
    Piece("HTTP/1.1 ", Piece(Dec(status), Piece(" ", Piece(Message(status), Piece("\r\n",
      HeaderText(LENGTH_KEY, Dec(length), Piece("\r\n", End)))))))
  }

  /** A response: status line, declared length, blank line, body. */
  function Response(status: nat, length: nat, body: Bytes): Bytes {
    Flat(ResponseText(status, length)) + body
  }

  /** What conn_send_response sends for a status... */
  function SentResponse(status: nat): Bytes {
    Response(status, |StatusBody(status)|, StatusBody(status))
  }

  /** ...and conn_send_file for a file of which `count` bytes are asked. */
  function SentFile(file: Bytes, count: nat): Bytes {
    Response(200, count, file[..Min(count, |file|)])
  }

  method SendResponse(dst: Sink, status: nat) returns (ok: bool, dst': Sink)
    ensures var text := SentResponse(status);
            && (ok ==> dst'.written == dst.written + text)
            && dst.written <= dst'.written <= dst.written + text
    ensures !ok ==> Fails(dst.quirks)
  {
    var body := StatusBody(status);
    var rc;
    rc, dst' := WriteAll(dst, Response(status, |body|, body));
    ok := rc >= 0;
  }

  /** conn_send_file: the head declares `count`, the body is that many bytes of the file, or
      fewer if the file ends before. */
  method SendFile(dst: Sink, file: Source, count: nat) returns (ok: bool, dst': Sink)
    ensures var text := SentFile(file.data, count);
            && (ok ==> dst'.written == dst.written + text)
            && dst.written <= dst'.written <= dst.written + text
    ensures !ok ==> Fails(file.quirks) || Fails(dst.quirks)
  {
    var head := Response(200, count, "");
    ghost var sent := file.data[..Min(count, |file.data|)];
    assert Response(200, count, sent) == head + sent;
    var rc;
    rc, dst' := WriteAll(dst, head);
    if rc < 0 {
      return false, dst';
    }
    if count > 0 {
      var file';
      rc, file', dst' := PassBytes(file, dst', count);
      if rc < 0 {
        return false, dst';
      }
    }
    return true, dst';
  }
}

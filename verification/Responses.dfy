/** The responses of src/connection.c as the client of test_scripts/olivertwist.py reads them. */
module Responses {
  import opened Options
  import opened CStrings
  import opened Messages
  import opened Texts
  import opened Numbers
  import opened Streams
  import opened Http
  import opened Connection
  import opened Heads
  import opened Entries

  // ----- The response the client reads ---------------------------------------------------------------------

  predicate NotSpace(c: char) { c != ' ' }
  predicate NotNewline(c: char) { c != '\n' }

  /** The status code found by matching HTTP/1.1 ([^ ]*) (.*)\r\n at the front: none, text that
      is no number, or a number. */
  datatype Code = NoMatch | NoNumber | Code(value: nat)

  function ReadCode(r: Bytes): Code {
    if |r| < 9 || r[..6] != "HTTP/1" || r[6] == '\n' || r[7..9] != "1 " then NoMatch
    else
      var c := RunEnd(r, 9, NotSpace);
      if c == |r| then NoMatch
      else
        var e := RunEnd(r, c + 1, NotNewline);
        if e == |r| || e == c + 1 || r[e - 1] != '\r' then NoMatch
        else if c == 9 || !AllDigits(r[9..c]) then NoNumber
        else Code(ToNat(r[9..c]))
  }

  /** bytearray.find: the first position of the blank line, or -1. */
  function FindBlank(r: Bytes, i: nat): (j: int)
    requires i <= |r|
    ensures j == -1 || (i <= j && OccursAt(r, j, BLANK))
    ensures forall k :: i <= k < (if j == -1 then |r| + 1 else j) ==> !OccursAt(r, k, BLANK)
    decreases |r| - i
  {
    if OccursAt(r, i, BLANK) then i
    else if i == |r| then -1
    else FindBlank(r, i + 1)
  }

  function ReadBody(r: Bytes): Bytes {
    var i := FindBlank(r, 0) + 4;
    if i <= |r| then r[i..] else ""
  }

  /** Text inside a line. */
  ghost predicate Plain(t: Bytes) {
    t != "" && forall i :: 0 <= i < |t| ==> t[i] != '\r' && t[i] != NUL
  }

  lemma OneLine(text: Bytes)
    requires Plain(text)
    ensures Lines(text + "\r\n")
  {
  }

  /** Every character of a stretch of `s` is one of `part`. */
  lemma AllStand(s: Bytes, a: nat, part: Bytes, p: char -> bool)
    requires StandsAt(s, a, part) && forall i :: 0 <= i < |part| ==> p(part[i])
    ensures AllIn(s, a, a + |part|, p)
  {
    forall k | a <= k < a + |part| ensures p(s[k]) {
      assert s[k] == s[a..a + |part|][k - a] == part[k - a];
    }
  }

  /** Text of a line without a newline. */
  ghost predicate OneLiner(t: Bytes) {
    Plain(t) && forall i :: 0 <= i < |t| ==> NotNewline(t[i])
  }

  lemma SuccessIsPlain(status: nat)
    requires status == 200 || status == 201 || status == 400 || status == 403
    ensures OneLiner(Message(status))
  {
  }

  lemma NotFoundIsPlain(status: nat)
    requires status == 404 || status == 501
    ensures OneLiner(Message(status))
  {
  }

  lemma ErrorIsPlain()
    ensures OneLiner("Version Not Supported") && OneLiner("Internal Server Error")
  {
  }

  lemma MessageIsPlain(status: nat)
    ensures OneLiner(Message(status))
  {
    if status == 200 || status == 201 || status == 400 || status == 403 {
      SuccessIsPlain(status);
    } else if status == 404 || status == 501 {
      NotFoundIsPlain(status);
    } else {
      ErrorIsPlain();
    }
  }

  function LengthLine(length: nat): Bytes {
    LENGTH_KEY + ": " + Dec(length) + "\r\n"
  }

  lemma LengthLineIsLine(length: nat)
    ensures Lines(LengthLine(length))
  {
    OneLine(LENGTH_KEY + ": " + Dec(length));
  }

  /** The part of a response before its blank line, as two lines. */
  ghost function StatusLines(status: nat, length: nat): Bytes {
    StatusLine(status) + LengthLine(length)
  }

  lemma StatusLineIsLine(number: Bytes, message: Bytes)
    requires Plain(number) && Plain(message)
    ensures Lines("HTTP/1.1 " + number + " " + message + "\r\n")
  {
    OneLine("HTTP/1.1 " + number + " " + message);
  }

  lemma StatusLinesAreLines(status: nat, length: nat)
    ensures Lines(StatusLines(status, length))
  {
    MessageIsPlain(status);
    StatusLineIsLine(Dec(status), Message(status));
    LengthLineIsLine(length);
    MoreLines("HTTP/1.1 " + Dec(status) + " " + Message(status) + "\r\n", LengthLine(length));
  }

  lemma FlatLength(length: nat)
    ensures Flat(HeaderText(LENGTH_KEY, Dec(length), Piece("\r\n", End))) == LengthLine(length) + "\r\n"
  {
    var r3 := Piece(Dec(length), Piece("\r\n", Piece("\r\n", End)));
    assert Flat(Piece("\r\n", Piece("\r\n", End))) == "\r\n" + "\r\n";
    assert Flat(r3) == Dec(length) + "\r\n" + "\r\n";
    assert Flat(Piece(": ", r3)) == ": " + Dec(length) + "\r\n" + "\r\n";
  }

  lemma Flatten(a: Bytes, b: Bytes, c: Bytes, d: Bytes, e: Bytes, f: Bytes, g: Bytes)
    ensures a + (b + (c + (d + (e + (f + g))))) == a + b + c + d + e + f + g
  {
    assert a + b + c + (d + (e + (f + g))) == a + b + c + d + e + f + g;
  }

  lemma FlatResponse(status: nat, length: nat)
    ensures Flat(ResponseText(status, length)) == Head(StatusLines(status, length))
  {
    var number, message := Dec(status), Message(status);
    var blank := Piece("\r\n", End);
    var r6 := HeaderText(LENGTH_KEY, Dec(length), blank);
    var r5 := Piece("\r\n", r6);
    var r4 := Piece(message, r5);
    var r3 := Piece(" ", r4);
    FlatLength(length);
    assert Flat(blank) == "\r\n";
    assert Flat(r4) == message + ("\r\n" + (LengthLine(length) + "\r\n"));
    assert Flat(ResponseText(status, length)) == "HTTP/1.1 " + (number + (" " + Flat(r4)));
    Flatten("HTTP/1.1 ", number, " ", message, "\r\n", LengthLine(length), "\r\n");
  }

  lemma BodyReadBack(t: Bytes, body: Bytes)
    requires Lines(t)
    ensures ReadBody(Head(t) + body) == body
  {
    var r := Head(t) + body;
    FirstBlank(t, body, FindBlank(r, 0));
    FirstBlank(t, body, |t| - 2);
    assert FindBlank(r, 0) == |t| - 2;
  }

  lemma PrefixMatches(r: Bytes)
    requires StandsAt(r, 0, "HTTP/1.1 ")
    ensures r[..6] == "HTTP/1" && r[6] != '\n' && r[7..9] == "1 "
  {
    assert r[..6] == r[0..9][..6] && r[7..9] == r[0..9][7..] && r[6] == r[0..9][6];
  }

  /** The two runs the pattern goes through. */
  lemma NumberRun(r: Bytes, a: nat, number: Bytes)
    requires AllDigits(number) && StandsAt(r, a, number) && StandsAt(r, a + |number|, " ")
    ensures RunEnd(r, a, NotSpace) == a + |number|
  {
    var c := a + |number|;
    assert r[c] == r[c..c + 1][0];
    AllStand(r, a, number, NotSpace);
    RunEndIs(r, a, c, NotSpace);
  }

  lemma MessageRun(r: Bytes, a: nat, message: Bytes)
    requires forall i :: 0 <= i < |message| ==> NotNewline(message[i])
    requires StandsAt(r, a, message) && StandsAt(r, a + |message|, "\r\n")
    ensures RunEnd(r, a, NotNewline) == a + |message| + 1 < |r| && r[a + |message|] == '\r'
  {
    var e := a + |message|;
    assert r[e] == r[e..e + 2][0] && r[e + 1] == r[e..e + 2][1];
    AllStand(r, a, message, NotNewline);
    RunEndIs(r, a, e + 1, NotNewline);
  }

  /** The two runs over the pieces of a status line. */
  ghost predicate RunsTo(r: Bytes, c: nat, e: nat) {
    && 9 < c < |r| && RunEnd(r, 9, NotSpace) == c
    && c + 1 < e < |r| && RunEnd(r, c + 1, NotNewline) == e && r[e - 1] == '\r'
  }

  lemma StatusRuns(r: Bytes, number: Bytes, message: Bytes)
    requires |number| > 0 && AllDigits(number) && forall i :: 0 <= i < |message| ==> NotNewline(message[i])
    requires StandsAt(r, 9, number) && StandsAt(r, 9 + |number|, " ")
    requires StandsAt(r, 10 + |number|, message) && StandsAt(r, 10 + |number| + |message|, "\r\n")
    ensures RunsTo(r, 9 + |number|, 11 + |number| + |message|)
  {
    NumberRun(r, 9, number);
    MessageRun(r, 10 + |number|, message);
  }

  lemma CodeReadBack(r: Bytes, c: nat, e: nat)
    requires RunsTo(r, c, e) && r[..6] == "HTTP/1" && r[6] != '\n' && r[7..9] == "1 " && AllDigits(r[9..c])
    ensures ReadCode(r) == Code(ToNat(r[9..c]))
  {
  }

  lemma StatusOf(r: Bytes, number: Bytes, message: Bytes, rest: Text)
    requires |number| > 0 && AllDigits(number) && forall i :: 0 <= i < |message| ==> NotNewline(message[i])
    requires Stands(r, 0, Piece("HTTP/1.1 ", Piece(number, Piece(" ", Piece(message, Piece("\r\n", rest))))))
    ensures ReadCode(r) == Code(ToNat(number))
  {
    var d := |number|;
    var r5 := Piece("\r\n", rest);
    var r4 := Piece(message, r5);
    var r3 := Piece(" ", r4);
    assert Stands(r, 9, Piece(number, r3));
    assert Stands(r, 9 + d, r3);
    assert Stands(r, 10 + d, r4);
    assert Stands(r, 10 + d + |message|, r5);
    StatusRuns(r, number, message);
    PrefixMatches(r);
    CodeReadBack(r, 9 + d, 11 + d + |message|);
  }

  lemma ResponseStands(status: nat, length: nat, body: Bytes)
    ensures Stands(Response(status, length, body), 0, ResponseText(status, length))
  {
    FlatStands("", ResponseText(status, length), body);
    assert "" + Flat(ResponseText(status, length)) + body == Response(status, length, body);
  }

  lemma StatusReadBack(status: nat, length: nat, body: Bytes)
    ensures ReadCode(Response(status, length, body)) == Code(status)
  {
    ResponseStands(status, length, body);
    MessageIsPlain(status);
    DecToNat(status);
    StatusOf(Response(status, length, body), Dec(status), Message(status), HeaderText(LENGTH_KEY, Dec(length), Piece("\r\n", End)));
  }

  lemma ResponseBodyReadBack(status: nat, length: nat, body: Bytes)
    ensures ReadBody(Response(status, length, body)) == body
  {
    StatusLinesAreLines(status, length);
    FlatResponse(status, length);
    BodyReadBack(StatusLines(status, length), body);
  }

  /** The response round trip: from any response of the server the client reads the exact status
      and the exact body, whatever the body holds. */
  lemma ResponseRoundTrip(status: nat, length: nat, body: Bytes)
    ensures ReadCode(Response(status, length, body)) == Code(status)
    ensures ReadBody(Response(status, length, body)) == body
  {
    StatusReadBack(status, length, body);
    ResponseBodyReadBack(status, length, body);
  }

  // ----- The declared length ---------------------------------------------------------------------------

  /** A line without a colon has no header. */
  lemma NoColonNoHeader(line: Bytes, x: Bytes)
    requires EndsLine(line) && ':' !in line
    ensures NextHeader(line + x, 0) == NextHeader(line + x, |line|)
  {
    if FindField(line, 0).Some? {
      FindFieldIsField(line, 0);
    }
    NextSame(line, x, 0);
  }

  lemma LengthIsEntry(length: nat)
    requires length < SSIZE
    ensures var e := Entry("Content-Length", ' ', Dec(length)); Good(e) && EntryText(e) == LengthLine(length)
  {
    LengthRoundTrip(length);
  }

  ghost function StatusLine(status: nat): Bytes {
    "HTTP/1.1 " + Dec(status) + " " + Message(status) + "\r\n"
  }

  lemma MessageHasNoColon(status: nat)
    ensures ':' !in Message(status)
  {
  }

  lemma StatusLineHasNoColon(status: nat)
    ensures ':' !in StatusLine(status) && EndsLine(StatusLine(status))
  {
    MessageHasNoColon(status);
    assert ':' !in Dec(status);
  }

  /** The number in the first header of a response. */
  function ReadLength(r: Bytes): Option<int> {
    var h := NextHeader(r, 0);
    if h.None? || h.value.key != "Content-Length" then None else Some(Signed(Strtoull(h.value.value)))
  }

  lemma ReadFrom(line: Bytes, e: Entry, x: Bytes, length: nat)
    requires EndsLine(line) && ':' !in line && Good(e) && e.key == "Content-Length" && Signed(Strtoull(e.value)) == length
    ensures ReadLength(line + (EntryText(e) + x)) == Some(length)
  {
    FirstIsEntry(line, e, x);
  }

  lemma FirstIsEntry(line: Bytes, e: Entry, x: Bytes)
    requires EndsLine(line) && ':' !in line && Good(e)
    ensures NextHeader(line + (EntryText(e) + x), 0) == Some(Header(e.key, e.value, |line + EntryText(e)|))
  {
    NoColonNoHeader(line, EntryText(e) + x);
    EntryFoundBefore(line, e, x);
    Regroup(line, EntryText(e), x);
  }

  /** The first header of any response is its Content-Length, and it says the length declared. */
  lemma LengthReadBack(status: nat, length: nat, body: Bytes)
    requires length < SSIZE
    ensures ReadLength(Response(status, length, body)) == Some(length)
  {
    ResponseIs(status, length, body);
    StatusLineHasNoColon(status);
    LengthIsEntry(length);
    LengthRoundTrip(length);
    ReadFrom(StatusLine(status), Entry("Content-Length", ' ', Dec(length)), CRLF + body, length);
  }

  lemma ResponseIs(status: nat, length: nat, body: Bytes)
    ensures Response(status, length, body) == StatusLine(status) + (LengthLine(length) + (CRLF + body))
  {
    FlatResponse(status, length);
  }

  /** A response with these words, byte by byte. */
  function Worded(number: Bytes, message: Bytes, size: Bytes): Bytes {
    "HTTP/1.1 " + number + " " + message + "\r\n" + ("Content-Length" + ": " + size + "\r\n") + ("\r\n" + (message + "\n"))
  }

  lemma WordedIs(number: Bytes, message: Bytes, size: Bytes, status: nat)
    requires Dec(status) == number && Message(status) == message && Dec(|message| + 1) == size
    ensures SentResponse(status) == Worded(number, message, size)
  {
    assert |StatusBody(status)| == |message| + 1;
    ResponseIs(status, |message| + 1, StatusBody(status));
    Regroup(StatusLine(status), LengthLine(|message| + 1), CRLF + StatusBody(status));
  }

  lemma Regroup(a: Bytes, b: Bytes, c: Bytes)
    ensures a + (b + c) == a + b + c
  {
  }

  /** The responses of conn_send_response for success... */
  lemma SuccessBytes()
    ensures SentResponse(200) == Worded("200", "OK", "3")
    ensures SentResponse(201) == Worded("201", "Created", "8")
  {
    WordedIs("200", "OK", "3", 200);
    WordedIs("201", "Created", "8", 201);
  }

  /** ...for refusals... */
  lemma RefusalBytes()
    ensures SentResponse(403) == Worded("403", "Forbidden", "10")
    ensures SentResponse(404) == Worded("404", "Not Found", "10")
  {
    WordedIs("403", "Forbidden", "10", 403);
    WordedIs("404", "Not Found", "10", 404);
  }

  /** ...for a malformed request... */
  lemma BadRequestBytes()
    ensures SentResponse(400) == Worded("400", "Bad Request", "12")
  {
    WordedIs("400", "Bad Request", "12", 400);
  }

  /** ...for an unknown method... */
  lemma NotImplementedBytes()
    ensures SentResponse(501) == Worded("501", "Not Implemented", "16")
  {
    WordedIs("501", "Not Implemented", "16", 501);
  }

  /** ...for an error... */
  lemma InternalErrorBytes()
    ensures SentResponse(500) == Worded("500", "Internal Server Error", "22")
  {
    WordedIs("500", "Internal Server Error", "22", 500);
  }

  /** ...and for another version. */
  lemma VersionBytes()
    ensures SentResponse(505) == Worded("505", "Version Not Supported", "22")
  {
    WordedIs("505", "Version Not Supported", "22", 505);
  }
}

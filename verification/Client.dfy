/** The client of test_scripts/olivertwist.py against the server's parser: what it prints is
    read back, and a PUT stores its body. Concrete requests show where the server does not do
    what one would expect. */
module Client {
  import opened Options
  import opened CStrings
  import opened Messages
  import opened Texts
  import opened Numbers
  import opened LockPath
  import opened Streams
  import opened Http
  import opened Connection
  import opened Heads
  import opened Bodies
  import opened Entries
  import Responses

  // ----- The request line ------------------------------------------------------------------------

  function VerbText(verb: Verb): Bytes {
    if verb == PUT then "PUT" else "GET"
  }

  function RequestLine(verb: Verb, uri: Bytes): Bytes {
    VerbText(verb) + " /" + uri + " HTTP/" + "1.1" + CRLF
  }

  lemma RequestLineIsLine(verb: Verb, uri: Bytes)
    requires ParsedUri(uri)
    ensures Lines(RequestLine(verb, uri)) && |RequestLine(verb, uri)| == |uri| + 16
  {
    var text := VerbText(verb) + " /" + uri + " HTTP/" + "1.1";
    forall i | 0 <= i < |text| ensures text[i] != '\r' && text[i] != NUL {
      if 5 <= i < 5 + |uri| {
        assert text[i] == uri[i - 5];
      }
    }
    Responses.OneLine(text);
  }

  /** The same in pieces. */
  function LineText(verb: Verb, uri: Bytes): Text {
    Piece(VerbText(verb), Piece(" /", Piece(uri, Piece(" HTTP/", Piece("1.1", Piece(CRLF, End))))))
  }

  lemma FlatLine(verb: Verb, uri: Bytes)
    ensures Flat(LineText(verb, uri)) == RequestLine(verb, uri)
  {
    var r5 := Piece("1.1", Piece(CRLF, End));
    var r3 := Piece(uri, Piece(" HTTP/", r5));
    assert Flat(r5) == "1.1" + (CRLF + "");
    assert Flat(r3) == uri + (" HTTP/" + Flat(r5));
    assert Flat(LineText(verb, uri)) == VerbText(verb) + (" /" + Flat(r3));
    Responses.Flatten(VerbText(verb), " /", uri, " HTTP/", "1.1", CRLF, "");
  }

  ghost predicate LineStands(s: Bytes, verb: Verb, uri: Bytes) {
    && StandsAt(s, 0, VerbText(verb)) && StandsAt(s, 3, " /") && StandsAt(s, 5, uri)
    && StandsAt(s, 5 + |uri|, " HTTP/") && StandsAt(s, 11 + |uri|, "1.1") && StandsAt(s, 14 + |uri|, CRLF)
  }

  lemma PiecesStand(s: Bytes, verb: Verb, uri: Bytes)
    requires Stands(s, 0, LineText(verb, uri))
    ensures LineStands(s, verb, uri)
  {
    var r6 := Piece(CRLF, End);
    var r5 := Piece("1.1", r6);
    var r4 := Piece(" HTTP/", r5);
    var r3 := Piece(uri, r4);
    assert Stands(s, 3, Piece(" /", r3));
    assert Stands(s, 5, r3);
    assert Stands(s, 5 + |uri|, r4);
    assert Stands(s, 11 + |uri|, r5);
    assert Stands(s, 14 + |uri|, r6);
  }

  lemma LineOf(verb: Verb, uri: Bytes)
    ensures LineStands(RequestLine(verb, uri), verb, uri)
  {
    var s := RequestLine(verb, uri);
    FlatLine(verb, uri);
    FlatStands("", LineText(verb, uri), "");
    assert "" + s + "" == s;
    PiecesStand(s, verb, uri);
  }

  lemma FixedTexts(s: Bytes, verb: Verb, uri: Bytes)
    requires LineStands(s, verb, uri)
    ensures var u := 5 + |uri|;
            Slash(s, 3) && Protocol(s, u) && s[u + 6] == '1' && s[u + 7] == '.' && s[u + 8] == '1' && LineEnd(s, u + 9)
  {
    var u := 5 + |uri|;
    assert s[3] == s[3..5][0] && s[4] == s[3..5][1];
    var protocol := s[u..u + 6];
    assert forall i :: 0 <= i < 6 ==> s[u + i] == protocol[i];
    var version := s[u + 6..u + 9];
    assert forall i :: 0 <= i < 3 ==> s[u + 6 + i] == version[i];
    assert s[u + 9] == s[u + 9..u + 11][0] && s[u + 10] == s[u + 9..u + 11][1];
  }

  lemma LineParsed(s: Bytes, verb: Verb, uri: Bytes)
    requires (verb == GET || verb == PUT) && ParsedUri(uri) && LineStands(s, verb, uri)
    ensures var u := 5 + |uri|; MatchLine(s) == Some(Line(3, u, u + 7, u + 9)) && s[u + 8] == '1'
  {
    var u := 5 + |uri|;
    Responses.AllStand(s, 0, VerbText(verb), Alpha);
    Responses.AllStand(s, 5, uri, UriChar);
    FixedTexts(s, verb, uri);
    ParsedByVersion(s, Line(3, u, u + 7, u + 9));
  }

  /** A line with version 1.1 is matched in exactly one way. */
  lemma ParsedByVersion(s: string, l: Line)
    requires IsTarget(s, l) && l.major == l.uri + 7 && l.minor == l.uri + 9 && LineEnd(s, l.minor)
    requires s[l.uri + 6] == '1' && s[l.uri + 7] == '.' && s[l.uri + 8] == '1'
    ensures MatchLine(s) == Some(l)
  {
    assert IsVersion(s, l);
    LineUnique(s, l);
    MatchLineIsLine(s);
  }

  lemma VerbRead(s: Bytes, verb: Verb)
    requires (verb == GET || verb == PUT) && StandsAt(s, 0, VerbText(verb))
    ensures VerbOf(s) == verb
  {
    assert s[0] == s[0..3][0] && s[1] == s[0..3][1] && s[2] == s[0..3][2];
  }

  lemma LineAccepted(line: Bytes, verb: Verb, uri: Bytes)
    requires (verb == GET || verb == PUT) && ParsedUri(uri) && |line| == |uri| + 16 && LineStands(line, verb, uri)
    ensures MatchLine(line).Some? && MatchLine(line).value.minor + 2 == |line|
    ensures ParseText(line) == Welcome(line, verb, uri, |line|)
  {
    var u := 5 + |uri|;
    LineParsed(line, verb, uri);
    VerbRead(line, verb);
    WelcomeIs(line, Line(3, u, u + 7, u + 9));
  }

  lemma RequestLineRead(verb: Verb, uri: Bytes)
    requires (verb == GET || verb == PUT) && ParsedUri(uri)
    ensures var line := RequestLine(verb, uri);
            OnlyLine(line) && ParseText(line).verb == verb && ParseText(line).uri == uri && |line| == |uri| + 16
  {
    RequestLineIsLine(verb, uri);
    LineOf(verb, uri);
    LineAccepted(RequestLine(verb, uri), verb, uri);
  }

  // ----- The request the client prints ------------------------------------------------------------

  /** Request-Id, and Content-Length unless the body is empty. */
  function Printed(id: Bytes, n: nat): seq<Entry> {
    if n > 0 then [Entry(ID_KEY, ' ', id)] + [Entry(LENGTH_KEY, ' ', Dec(n))] else [Entry(ID_KEY, ' ', id)]
  }

  function PrintedLines(verb: Verb, uri: Bytes, id: Bytes, n: nat): Bytes {
    Listed(RequestLine(verb, uri), Printed(id, n))
  }

  function PrintedHead(verb: Verb, uri: Bytes, id: Bytes, n: nat): Bytes {
    Head(PrintedLines(verb, uri, id, n))
  }

  /** What the client may ask for. */
  ghost predicate Askable(verb: Verb, uri: Bytes, id: Bytes, n: nat) {
    && (verb == GET || verb == PUT) && ParsedUri(uri) && n < SSIZE
    && 1 <= |id| <= 128 && forall i :: 0 <= i < |id| ==> ValueChar(id[i])
  }

  lemma KeysAreGood(id: Bytes, n: nat)
    requires 1 <= |id| <= 128 && (forall i :: 0 <= i < |id| ==> ValueChar(id[i])) && n < SSIZE
    ensures Good(Entry(ID_KEY, ' ', id)) && Good(Entry(LENGTH_KEY, ' ', Dec(n)))
  {
    LengthRoundTrip(n);
  }

  /** The values and the size of what the client prints behind its request line. */
  lemma PrintedValues(line: Bytes, id: Bytes, n: nat)
    requires Good(Entry(ID_KEY, ' ', id)) && Good(Entry(LENGTH_KEY, ' ', Dec(n))) && n < SSIZE
    ensures AllGood(Printed(id, n)) && |Listed(line, Printed(id, n))| <= |line| + |id| + 51
    ensures IdOf(Found(line, Printed(id, n)), "0") == id && LengthOf(Found(line, Printed(id, n)), 0) == n
  {
    var e := Entry(ID_KEY, ' ', id);
    assert [] + [e] == [e];
    OneMoreEntry(line, [], e);
    if n > 0 {
      LengthRoundTrip(n);
      OneMoreEntry(line, [e], Entry(LENGTH_KEY, ' ', Dec(n)));
    }
  }

  lemma PrintedBehind(line: Bytes, id: Bytes, n: nat)
    requires OnlyLine(line) && 1 <= |id| <= 128 && (forall i :: 0 <= i < |id| ==> ValueChar(id[i])) && n < SSIZE
    ensures var lines, v, w := Listed(line, Printed(id, n)), ParseText(Listed(line, Printed(id, n))), ParseText(line);
            && Valid(lines) && Whole(lines) && |lines| <= |line| + |id| + 51
            && v.verb == w.verb && v.uri == w.uri && v.id == id && v.length == n
  {
    KeysAreGood(id, n);
    PrintedValues(line, id, n);
    ListRead(line, Printed(id, n));
  }

  /** The head the client prints, byte by byte. */
  lemma PrintedBytes(verb: Verb, uri: Bytes, id: Bytes, n: nat)
    ensures PrintedHead(verb, uri, id, n)
            == ((if verb == PUT then "PUT" else "GET") + " /" + uri + " HTTP/" + "1.1" + "\r\n")
               + ("Request-Id" + ": " + id + "\r\n")
               + (if n > 0 then "Content-Length" + ": " + Dec(n) + "\r\n" else "") + "\r\n"
  {
    var line, e, f := RequestLine(verb, uri), Entry(ID_KEY, ' ', id), Entry(LENGTH_KEY, ' ', Dec(n));
    assert [] + [e] == [e];
    ListedStep(line, [], e);
    ListedStep(line, [e], f);
    EntryBytes(e);
    EntryBytes(f);
  }

  lemma EntryBytes(e: Entry)
    requires e.space == ' '
    ensures EntryText(e) == e.key + ": " + e.value + "\r\n"
  {
  }

  /** The head the client prints is accepted, read correctly, and fits the buffer. */
  lemma PrintedRead(verb: Verb, uri: Bytes, id: Bytes, n: nat)
    requires Askable(verb, uri, id, n)
    ensures var lines, v := PrintedLines(verb, uri, id, n), ParseText(PrintedLines(verb, uri, id, n));
            && Valid(lines) && Whole(lines) && |Head(lines)| <= 300
            && v.verb == verb && v.uri == uri && v.id == id && v.length == n
  {
    RequestLineRead(verb, uri);
    PrintedBehind(RequestLine(verb, uri), id, n);
  }

  /** The request round trip: for any buffered text `t` behind the head, the method and URI are
      read back; the message starts right behind the head if and only if `t` has no
      header-shaped text, and then the id and the length are read back too. */
  lemma RequestRoundTrip(verb: Verb, uri: Bytes, id: Bytes, n: nat, t: Bytes)
    requires Askable(verb, uri, id, n)
    ensures var v, h := ParseText(PrintedHead(verb, uri, id, n) + t), |PrintedHead(verb, uri, id, n)|;
            && v.status == None && v.verb == verb && v.uri == uri && v.start >= h
            && (v.start == h <==> !HasHeader(t))
            && (!HasHeader(t) ==> v.id == id && v.length == n)
  {
    PrintedRead(verb, uri, id, n);
    HeadRead(PrintedLines(verb, uri, id, n), t);
  }

  /** For every PUT of the client: the body is stored under every way its stream is cut up, if
      and only if the part of it that may be read with the head has no header-shaped text. */
  lemma ClientPutStored(uri: Bytes, id: Bytes, body: Bytes)
    requires Askable(PUT, uri, id, |body|)
    ensures var head := PrintedHead(PUT, uri, id, |body|);
            AlwaysStored(head, body) <==> !HasHeader(CString(Early(head, body)))
  {
    var lines := PrintedLines(PUT, uri, id, |body|);
    PrintedRead(PUT, uri, id, |body|);
    PutAlwaysStoresBody(lines, body);
    WholeIsSafe(lines, body);
  }

  // ----- Requests that do not go as expected --------------------------------------------------------

  lemma ShortHasNoHeader(t: Bytes)
    requires |t| < 6
    ensures !HasHeader(CString(t))
  {
  }

  const LOST: Bytes := "a: b\r\n"

  lemma LostHasHeader()
    ensures HasHeader(CString(LOST))
  {
    CStringSkips(LOST, "");
    assert LOST + "" == LOST;
    FindFieldLeftmost(LOST, 0, Field(0, 1, 4));
  }

  /** A body that looks like a header is lost. */
  lemma HeaderShapedBodyIsLost(uri: Bytes, id: Bytes)
    requires Askable(PUT, uri, id, 6)
    ensures !AlwaysStored(PrintedHead(PUT, uri, id, 6), LOST)
  {
    PrintedRead(PUT, uri, id, 6);
    LostHasHeader();
    ClientPutStored(uri, id, LOST);
  }

  /** What is stored of a short text behind a head that declares more or less, if all arrives
      at once. */
  lemma AllAtOnce(lines: Bytes, sent: Bytes, data: Bytes)
    requires Valid(lines) && Whole(lines) && |Head(lines)| <= 300 && |sent| < 6 && data == Head(lines) + sent
    ensures Cut(data, |data|, BUFFER, BLANK)
    ensures StoredAt(data, |data|) == sent && ParseText(CString(data[..|data|])) == ParseText(lines)
  {
    ShortHasNoHeader(sent);
    assert Early(Head(lines), sent) == sent;
    StoredBehind(lines, sent, |data|);
    AllStored(Head(lines), sent, data, ParseText(lines).length);
  }

  lemma AllStored(head: Bytes, sent: Bytes, data: Bytes, n: int)
    requires data == head + sent
    ensures Stored(data, |data|, |head|, n) == sent
  {
    StoredIs(data, |data|, |head|, n);
    assert data[|head|..] == sent;
  }

  /** An over-long first segment: one byte is declared, two are stored. */
  lemma OverlongIsStored(uri: Bytes, id: Bytes)
    requires Askable(PUT, uri, id, 1)
    ensures var data := PrintedHead(PUT, uri, id, 1) + "ab";
            && Cut(data, |data|, BUFFER, BLANK) && ParseText(CString(data[..|data|])).length == 1
            && |StoredAt(data, |data|)| == 2
  {
    PrintedRead(PUT, uri, id, 1);
    AllAtOnce(PrintedLines(PUT, uri, id, 1), "ab", PrintedHead(PUT, uri, id, 1) + "ab");
  }

  /** A body that ends early: five bytes are declared, the two that came are stored, and the
      request is accepted. */
  lemma EarlyEndIsAccepted(uri: Bytes, id: Bytes)
    requires Askable(PUT, uri, id, 5)
    ensures var data := PrintedHead(PUT, uri, id, 5) + "ab";
            && Cut(data, |data|, BUFFER, BLANK) && ParseText(CString(data[..|data|])).status == None
            && ParseText(CString(data[..|data|])).length == 5 && StoredAt(data, |data|) == "ab"
  {
    PrintedRead(PUT, uri, id, 5);
    AllAtOnce(PrintedLines(PUT, uri, id, 5), "ab", PrintedHead(PUT, uri, id, 5) + "ab");
  }

  /** With anything but a digit between the numbers there is one way to match. */
  lemma SeparatedIsLongest(s: string, l: Line)
    requires IsLine(s, l) && !Digit(s[l.major])
    ensures LongestLine(s, l)
  {
    forall k | IsLine(s, k) ensures k.major <= l.major {
      LineUnique(s, l);
      LineUnique(s, k);
    }
  }

  const LOOSE: string := "GETX /a HTTP/9x1\r\n"

  lemma LooseIsLine()
    ensures var l := Line(4, 7, 14, 16); IsLine(LOOSE, l) && !Digit(LOOSE[14]) && LOOSE[15] == '1'
  {
  }

  /** A method that only begins like one, and a version that only ends like one, are accepted. */
  lemma LooseLineIsAccepted()
    ensures ParseText(LOOSE).status == None && ParseText(LOOSE).verb == GET && ParseText(LOOSE).uri == "a"
  {
    var l := Line(4, 7, 14, 16);
    LooseIsLine();
    SeparatedIsLongest(LOOSE, l);
    VerdictExact(LOOSE, l);
    assert LOOSE[..4] == "GETX" && LOOSE[6..7] == "a";
  }

  /** A header line the pattern does not take: its value has a blank inside. */
  const ODD: Bytes := "X: a b\r\n"

  lemma OddIsLines()
    ensures Lines(ODD) && ODD[0] != '\r' && |ODD| == 8
  {
  }

  lemma OddChars(pre: Bytes, t: Bytes)
    requires t == pre + ODD
    ensures |t| == |pre| + 8 && forall i :: 0 <= i < 8 ==> t[|pre| + i] == ODD[i]
  {
  }

  /** No match ends with that line, and none starts in it. */
  lemma OddIsNotTaken(pre: Bytes, t: Bytes, f: Field)
    requires t == pre + ODD && IsField(t, f)
    ensures Http.End(f) != |t| && f.start < |pre|
  {
    OddChars(pre, t);
    var n := |pre|;
    assert t[n + 2] == ' ' && t[n + 3] == 'a' && t[n + 4] == ' ' && t[n + 5] == 'b' && t[n + 6] == '\r' && t[n + 7] == '\n';
    assert t[n] == 'X' && t[n + 1] == ':';
  }

  /** Behind any accepted lines it leaves all that was read off them, and hides the body. */
  lemma OddLine(pre: Bytes, t: Bytes)
    requires Valid(pre) && t == pre + ODD
    ensures Valid(t) && !LastLineTaken(t) && ParseText(t) == ParseText(pre)
  {
    OddIsLines();
    MoreLines(pre, ODD);
    HeadAlone(pre, ODD);
    NothingInOdd(pre, t);
    MatchKept(pre, t);
    NotTaken(pre, t);
  }

  lemma NothingInOdd(pre: Bytes, t: Bytes)
    requires t == pre + ODD
    ensures |pre| <= |t| && Headers(t, |pre|) == []
  {
    if FindField(t, |pre|).Some? {
      FindFieldIsField(t, |pre|);
      OddIsNotTaken(pre, t, FindField(t, |pre|).value);
    }
  }

  lemma NotTaken(pre: Bytes, t: Bytes)
    requires t == pre + ODD && MatchLine(t).Some? && MatchLine(t).value.minor + 2 <= |pre|
    ensures !LastLineTaken(t)
  {
    OddIsLines();
    forall f: Field | IsField(t, f) ensures Http.End(f) != |t| {
      OddIsNotTaken(pre, t, f);
    }
  }

  /** A PUT of one byte whose last header has a blank in its value: accepted, with the right
      length, and the byte is not stored. */
  lemma OddLineSpoils(uri: Bytes, id: Bytes)
    requires Askable(PUT, uri, id, 1)
    ensures var lines := PrintedLines(PUT, uri, id, 1) + ODD;
            && Valid(lines) && !LastLineTaken(lines) && |Head(lines)| <= BUFFER
            && ParseText(lines).verb == PUT && ParseText(lines).length == 1
            && !HeadSafe(lines) && !AlwaysStored(Head(lines), ['b'])
  {
    var pre := PrintedLines(PUT, uri, id, 1);
    PrintedRead(PUT, uri, id, 1);
    OddLine(pre, pre + ODD);
    OddIsLines();
    HeadIsSafe(pre + ODD);
    OneByteLost(pre, pre + ODD, 'b');
  }

  lemma OneByteLost(pre: Bytes, lines: Bytes, b: char)
    requires Whole(pre) && Valid(lines) && lines == pre + ODD && !LastLineTaken(lines) && ParseText(lines) == ParseText(pre)
    requires |Head(lines)| <= BUFFER && ParseText(lines).length == 1 && b != ' '
    ensures !AlwaysStored(Head(lines), [b])
  {
    WholeExact(lines);
    BlankStored(pre, lines);
    UntakenLineLoses(lines, [b]);
    PutAlwaysStoresBody(lines, [b]);
  }

  lemma BlankStored(pre: Bytes, lines: Bytes)
    requires lines == pre + ODD
    ensures |pre| + 2 < |Head(lines)| && Head(lines)[|pre| + 2] == ' '
  {
    OddChars(pre, lines);
    assert Head(lines)[|pre| + 2] == lines[|pre| + 2] == ODD[2];
  }

  // ----- The bounds of the request line ---------------------------------------------------------------

  /** A request line with any method and URI of the right characters. */
  function AnyLine(m: Bytes, uri: Bytes): Bytes {
    m + " /" + uri + " HTTP/" + "1.1" + CRLF
  }

  ghost predicate IsAnyLine(s: Bytes, m: Bytes, uri: Bytes) {
    var u := |m| + 2 + |uri|;
    && |s| == u + 11 && s[..|m|] == m && Slash(s, |m|) && s[|m| + 2..u] == uri && Protocol(s, u)
    && s[u + 6] == '1' && s[u + 7] == '.' && s[u + 8] == '1' && LineEnd(s, u + 9)
  }

  lemma AnyLineIs(m: Bytes, uri: Bytes)
    ensures IsAnyLine(AnyLine(m, uri), m, uri)
  {
    var s, u := AnyLine(m, uri), |m| + 2 + |uri|;
    assert s[..|m|] == m && s[|m| + 2..u] == uri;
    assert s == (m + " /" + uri) + " HTTP/" + "1.1" + CRLF;
  }

  /** Any match has its first parts where the method and the URI are. */
  lemma PartsOfLine(s: Bytes, m: Bytes, uri: Bytes, l: Line)
    requires IsAnyLine(s, m, uri) && IsLine(s, l)
    requires (forall i :: 0 <= i < |m| ==> Alpha(m[i])) && (forall i :: 0 <= i < |uri| ==> UriChar(uri[i]))
    ensures l.method_ == |m| && l.uri == |m| + 2 + |uri|
  {
    var u := |m| + 2 + |uri|;
    assert forall i :: 0 <= i < |m| ==> s[i] == m[i];
    assert forall i :: |m| + 2 <= i < u ==> s[i] == uri[i - |m| - 2];
    assert l.method_ == |m|;
    assert l.uri == u;
  }

  lemma LineMatches(s: Bytes, m: Bytes, uri: Bytes)
    requires IsAnyLine(s, m, uri) && 1 <= |m| <= 8 && 1 <= |uri| <= 63
    requires (forall i :: 0 <= i < |m| ==> Alpha(m[i])) && (forall i :: 0 <= i < |uri| ==> UriChar(uri[i]))
    ensures var u := |m| + 2 + |uri|; LongestLine(s, Line(|m|, u, u + 7, u + 9))
  {
    var u := |m| + 2 + |uri|;
    assert forall i :: 0 <= i < |m| ==> s[i] == m[i];
    assert forall i :: |m| + 2 <= i < u ==> s[i] == uri[i - |m| - 2];
    SeparatedIsLongest(s, Line(|m|, u, u + 7, u + 9));
  }

  /** Such a line is accepted if and only if the method has 1 to 8 letters and the URI 1 to 63
      characters; otherwise the answer is 400. */
  lemma LineAcceptedIff(m: Bytes, uri: Bytes)
    requires (forall i :: 0 <= i < |m| ==> Alpha(m[i])) && (forall i :: 0 <= i < |uri| ==> UriChar(uri[i]))
    ensures ParseText(AnyLine(m, uri)).status == if 1 <= |m| <= 8 && 1 <= |uri| <= 63 then None else Some(400)
  {
    var s, u := AnyLine(m, uri), |m| + 2 + |uri|;
    AnyLineIs(m, uri);
    if 1 <= |m| <= 8 && 1 <= |uri| <= 63 {
      LineMatches(s, m, uri);
      VerdictExact(s, Line(|m|, u, u + 7, u + 9));
    } else {
      forall l ensures !IsLine(s, l) {
        if IsLine(s, l) {
          PartsOfLine(s, m, uri, l);
        }
      }
      NoLineIsBad(s);
    }
  }

  // ----- A head that does not fit -------------------------------------------------------------------

  const WIDEST: nat := 128

  function Letters(n: nat): (r: Bytes)
    ensures |r| == n && forall i :: 0 <= i < n ==> r[i] == 'x'
  {
    seq(n, _ => 'x')
  }

  function Filler(n: nat): Entry { Entry(Letters(WIDEST), ' ', Letters(n)) }

  lemma FillerIsGood(n: nat)
    requires 1 <= n <= WIDEST
    ensures Good(Filler(n)) && |Filler(n).key| == WIDEST && |Filler(n).value| == n
  {
    assert forall i :: 0 <= i < n ==> ValueChar(Letters(n)[i]);
  }

  function Fillers(m: nat): seq<Entry> {
    if m == 0 then [] else Fillers(m - 1) + [Filler(WIDEST)]
  }

  lemma {:induction false} FillersSize(line: Bytes, m: nat)
    ensures AllGood(Fillers(m)) && |Listed(line, Fillers(m))| == |line| + 260 * m
  {
    if m > 0 {
      FillersSize(line, m - 1);
      FillerIsGood(WIDEST);
      OneMoreEntry(line, Fillers(m - 1), Filler(WIDEST));
    }
  }

  /** Long headers and a Content-Length. */
  function LongList(m: nat, n: nat): seq<Entry> {
    Fillers(m) + [Filler(n)] + [Entry(LENGTH_KEY, ' ', Dec(1))]
  }

  lemma LengthEntry(n: nat)
    requires n < 10
    ensures var e := Entry(LENGTH_KEY, ' ', Dec(n)); Good(e) && |Dec(n)| == 1 && |LENGTH_KEY| == 14
  {
  }

  lemma LongListRead(line: Bytes, m: nat, n: nat)
    requires 1 <= n <= WIDEST
    ensures AllGood(LongList(m, n)) && |Listed(line, LongList(m, n))| == |line| + 260 * m + n + 151
    ensures LengthOf(Found(line, LongList(m, n)), 0) == 1
  {
    FillersSize(line, m);
    FillerIsGood(n);
    LengthEntry(1);
    LengthRoundTrip(1);
    TwoMoreEntries(line, Fillers(m), Filler(n), Entry(LENGTH_KEY, ' ', Dec(1)));
  }

  lemma TwoMoreEntries(line: Bytes, es: seq<Entry>, d: Entry, e: Entry)
    requires AllGood(es) && Good(d) && Good(e) && e.key == LENGTH_KEY
    ensures AllGood(es + [d] + [e])
    ensures |Listed(line, es + [d] + [e])| == |Listed(line, es)| + |d.key| + |d.value| + |e.key| + |e.value| + 8
    ensures LengthOf(Found(line, es + [d] + [e]), 0) == Signed(Strtoull(e.value))
  {
    OneMoreEntry(line, es, d);
    OneMoreEntry(line, es + [d], e);
  }

  /** Behind a head of 4097 bytes every body but one of newlines is spoiled. */
  lemma LongByOneSpoils(lines: Bytes, body: Bytes)
    requires Valid(lines) && Whole(lines) && ParseText(lines).length == |body| && |Head(lines)| == BUFFER + 1
    ensures AlwaysStored(Head(lines), body) <==> forall i :: 0 <= i < |body| ==> body[i] == '\n'
  {
    LongByOne(lines, body);
    forall k: nat | Cut(Head(lines) + body, k, BUFFER, BLANK) ensures k == BUFFER {
      CutOfHead(lines, body, k);
    }
    ShiftedNewlines(body);
  }

  lemma {:induction false} ShiftedNewlines(body: Bytes)
    ensures ("\n" + body)[..|body|] == body <==> forall i :: 0 <= i < |body| ==> body[i] == '\n'
  {
    if body != "" {
      var n := |body| - 1;
      ShiftedNewlines(body[..n]);
      assert ("\n" + body)[..n] == ("\n" + body[..n])[..n];
      assert body == body[..n] + [body[n]];
      assert ("\n" + body)[..n + 1] == ("\n" + body)[..n] + [("\n" + body)[n]];
    }
  }

  lemma OneByteSpoiled(lines: Bytes, b: char)
    requires Valid(lines) && Whole(lines) && ParseText(lines).length == 1 && |Head(lines)| == BUFFER + 1 && b != '\n'
    ensures !AlwaysStored(Head(lines), [b])
  {
    LongByOneSpoils(lines, [b]);
    assert [b][0] == b;
  }

  lemma LongListSpoils(line: Bytes, m: nat, n: nat, b: char)
    requires OnlyLine(line) && 1 <= n <= WIDEST && |line| + 260 * m + n + 153 == BUFFER + 1 && b != '\n'
    ensures var lines := Listed(line, LongList(m, n));
            && Valid(lines) && Whole(lines) && ParseText(lines).verb == ParseText(line).verb
            && ParseText(lines).length == 1 && |Head(lines)| == BUFFER + 1 && !AlwaysStored(Head(lines), [b])
  {
    LongListRead(line, m, n);
    ListRead(line, LongList(m, n));
    OneByteSpoiled(Listed(line, LongList(m, n)), b);
  }

  const MANY: nat := 15

  /** For every URI of at most 27 characters, a valid PUT of one byte with a head of 4097 bytes:
      it is accepted, and the byte is not stored. */
  lemma LongHeadIsNotStored(uri: Bytes)
    requires ParsedUri(uri) && |uri| <= 27
    ensures var lines := Listed(RequestLine(PUT, uri), LongList(MANY, 28 - |uri|));
            && Valid(lines) && Whole(lines) && ParseText(lines).verb == PUT && ParseText(lines).length == 1
            && |Head(lines)| == BUFFER + 1 && !AlwaysStored(Head(lines), ['b'])
  {
    RequestLineRead(PUT, uri);
    LongListSpoils(RequestLine(PUT, uri), MANY, 28 - |uri|, 'b');
  }
}

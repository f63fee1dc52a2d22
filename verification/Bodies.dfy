/** What conn_parse and conn_recv_file store of a stream: exactly when it is the body that was
    sent, and exactly when it is what the head declared. */
module Bodies {
  import opened Options
  import opened CStrings
  import opened Messages
  import opened Streams
  import opened Http
  import opened Connection
  import opened Heads

  /** What is stored of a stream of which conn_parse read the first `k` bytes. */
  function StoredAt(data: Bytes, k: nat): Bytes
    requires k <= |data|
  {
    var v := ParseText(CString(data[..k]));
    Stored(data, k, v.start, v.length)
  }

  /** The server's own code on any stream without I/O errors: conn_parse, then conn_recv_file
      into an empty file. */
  method ServePut(src: Source, dst: Sink) returns (accepted: bool, ok: bool, k: nat, dst': Sink)
    requires !Fails(src.quirks) && !Fails(dst.quirks) && dst.written == ""
    ensures Cut(src.data, k, BUFFER, BLANK)
    ensures accepted <==> k > 0 && ParseText(CString(src.data[..k])).status.None?
    ensures if accepted then ok && dst'.written == StoredAt(src.data, k) else dst' == dst
  {
    var conn := new Conn();
    var status, src' := conn.Parse(src);
    k := conn.bytesRead;
    accepted, ok, dst' := status.None?, false, dst;
    if accepted {
      StoredFromBuffer(conn.buffer[..], src.data, k, conn.messageStart, conn.contentLength);
      var src2;
      ok, src2, dst' := conn.RecvFile(src', dst);
    }
  }

  // ----- One stretch of the stream ------------------------------------------------------------------

  /** How many bytes are copied of a stream of `total` bytes. */
  function Count(total: nat, k: nat, start: nat, length: int): nat
    requires k <= total
  {
    var from := Min(start, k);
    var want := if length < 0 then 0 else Min(length, total - from);
    if k - from < want then want else k - from
  }

  /** What is stored is one stretch of the stream. */
  lemma StoredIs(data: Bytes, k: nat, start: nat, length: int)
    requires k <= |data|
    ensures var from := Min(start, k);
            Stored(data, k, start, length) == data[from..from + Count(|data|, k, start, length)]
  {
    var from, n := Min(start, k), Count(|data|, k, start, length);
    if from + n > k {
      assert data[from..from + n] == data[from..k] + data[k..from + n];
    }
  }

  /** With a message start that may be wrong: the stretch that is stored has the size of the
      body, starts no later than the body, and the body repeats the end of the head that is
      stored before it. */
  ghost predicate Fits(head: Bytes, body: Bytes, k: nat, start: nat, length: int)
    requires k <= |head| + |body|
  {
    var from := Min(start, k);
    from <= |head| && Count(|head| + |body|, k, start, length) == |body| && body <= head[from..] + body
  }

  lemma StoredExact(head: Bytes, body: Bytes, k: nat, start: nat, length: int)
    requires k <= |head| + |body|
    ensures Stored(head + body, k, start, length) == body <==> Fits(head, body, k, start, length)
  {
    var data, from, n := head + body, Min(start, k), Count(|head| + |body|, k, start, length);
    StoredIs(data, k, start, length);
    if from <= |head| && n == |body| {
      assert data[from..] == head[from..] + body;
      assert data[from..from + n] == data[from..][..n];
    }
  }

  /** With the right start and length the body fits. */
  lemma RightFits(head: Bytes, body: Bytes, k: nat)
    requires |head| <= k <= |head| + |body|
    ensures Fits(head, body, k, |head|, |body|)
  {
    assert head[|head|..] + body == body;
  }

  lemma FitsSooner(head: Bytes, body: Bytes, k: nat, most: nat, start: nat)
    requires start <= |head| <= k <= most <= |head| + |body| && Fits(head, body, most, start, |body|)
    ensures Fits(head, body, k, start, |body|)
  {
  }

  // ----- Cuts of a head and a body -------------------------------------------------------------------

  /** However the stream is cut up, read_until returns at least the whole head, if it fits the
      buffer, and otherwise a full buffer. */
  lemma CutOfHead(lines: Bytes, body: Bytes, k: nat)
    requires Lines(lines) && Cut(Head(lines) + body, k, BUFFER, BLANK)
    ensures if |Head(lines)| <= BUFFER then |Head(lines)| <= k else k == BUFFER
  {
    var s := Head(lines) + body;
    if k != BUFFER && k != |s| {
      var i :| OccursAt(s[..k], i, BLANK);
      assert s[i..i + 4] == s[..k][i..i + 4];
      FirstBlank(lines, body, i);
    }
  }

  /** The text the matcher sees: the head, and the buffered body up to a NUL. */
  lemma TextRead(lines: Bytes, body: Bytes, k: nat)
    requires Lines(lines) && |Head(lines)| <= k <= |Head(lines)| + |body|
    ensures CString((Head(lines) + body)[..k]) == Head(lines) + CString(body[..k - |Head(lines)|])
  {
    var head := Head(lines);
    assert (head + body)[..k] == head + body[..k - |head|];
    CStringSkips(head, body[..k - |head|]);
  }

  /** The part of the body that is read together with its head. */
  function Buffered(head: Bytes, body: Bytes, k: nat): Bytes
    requires |head| <= k <= |head| + |body|
  {
    CString(body[..k - |head|])
  }

  lemma ShortHead(lines: Bytes, body: Bytes, k: nat)
    requires Valid(lines) && |Head(lines)| <= k <= |Head(lines)| + |body|
    ensures var head, data, w := Head(lines), Head(lines) + body, ParseText(lines);
            var v := ParseText(CString(data[..k]));
            && v.status == None && v.verb == w.verb && v.uri == w.uri && w.start <= |head|
            && (!HasHeader(Buffered(head, body, k)) ==> v == w)
            && (StoredAt(data, k) == body <==> !HasHeader(Buffered(head, body, k)) && Fits(head, body, k, w.start, w.length))
  {
    var head, t := Head(lines), Buffered(Head(lines), body, k);
    TextRead(lines, body, k);
    HeadRead(lines, t);
    var v := ParseText(head + t);
    StoredExact(head, body, k, v.start, v.length);
    NoHeaderInNothing();
  }

  lemma NoHeaderInNothing()
    ensures !HasHeader("")
  {
  }

  /** A head that does not fit the buffer is accepted by its request line. */
  lemma LongHeadAccepted(lines: Bytes)
    requires Valid(lines) && |Head(lines)| > BUFFER
    ensures var u, w := ParseText(Head(lines)[..BUFFER]), ParseText(lines);
            u.status == None && u.verb == w.verb && u.uri == w.uri
  {
    SameWelcome(lines, Head(lines));
    PrefixAccepted(Head(lines)[..BUFFER], Head(lines));
  }

  lemma LongHead(lines: Bytes, body: Bytes)
    requires Valid(lines) && |Head(lines)| > BUFFER
    ensures var head, data, u := Head(lines), Head(lines) + body, ParseText(Head(lines)[..BUFFER]);
            && ParseText(CString(data[..BUFFER])) == u
            && (StoredAt(data, BUFFER) == body <==> Fits(head, body, BUFFER, u.start, u.length))
  {
    var head := Head(lines);
    var p := head[..BUFFER];
    assert (head + body)[..BUFFER] == p;
    CStringSkips(p, "");
    assert p + "" == p;
    var u := ParseText(p);
    StoredExact(head, body, BUFFER, u.start, u.length);
  }

  /** For every head the server accepts, every body and every way the stream is cut up: the
      request is accepted with its method and URI; and exactly when the file gets the body. For
      a head that fits the buffer, the part of the body read with it has no header-shaped text,
      and the body fits behind the start and within the length read off the head. */
  lemma PutStoresBody(lines: Bytes, body: Bytes, k: nat)
    requires Valid(lines) && Cut(Head(lines) + body, k, BUFFER, BLANK)
    ensures var head, data, w := Head(lines), Head(lines) + body, ParseText(lines);
            var v := ParseText(CString(data[..k]));
            && v.status == None && v.verb == w.verb && v.uri == w.uri
            && (|head| <= BUFFER ==>
                  && |head| <= k
                  && (!HasHeader(Buffered(head, body, k)) ==> v == w)
                  && (StoredAt(data, k) == body <==>
                        !HasHeader(Buffered(head, body, k)) && Fits(head, body, k, w.start, w.length)))
            && (|head| > BUFFER ==>
                  var u := ParseText(head[..BUFFER]);
                  && k == BUFFER && v == u
                  && (StoredAt(data, k) == body <==> Fits(head, body, BUFFER, u.start, u.length)))
  {
    CutOfHead(lines, body, k);
    if |Head(lines)| <= BUFFER {
      ShortHead(lines, body, k);
    } else {
      LongHeadAccepted(lines);
      LongHead(lines, body);
    }
  }

  // ----- Every cut -----------------------------------------------------------------------------------

  /** The longest part of the body that can be read together with its head. */
  function Early(head: Bytes, body: Bytes): Bytes {
    if |head| + |body| <= BUFFER then body else if |head| <= BUFFER then body[..BUFFER - |head|] else ""
  }

  lemma LongestCut(head: Bytes, body: Bytes)
    requires |head| <= BUFFER
    ensures var k := |head| + |Early(head, body)|;
            && k <= |head| + |body| && Cut(head + body, k, BUFFER, BLANK)
            && Buffered(head, body, k) == CString(Early(head, body))
  {
    assert body[..|body|] == body;
  }

  lemma NoHeaderEarlier(head: Bytes, body: Bytes, k: nat)
    requires |head| <= k <= BUFFER && k <= |head| + |body| && !HasHeader(CString(Early(head, body)))
    ensures !HasHeader(Buffered(head, body, k))
  {
    var part := body[..k - |head|];
    CStringPrefix(part, Early(head, body));
    if HasHeader(CString(part)) {
      HeaderInPrefix(CString(part), CString(Early(head, body)));
    }
  }

  ghost predicate AlwaysStored(head: Bytes, body: Bytes) {
    forall k: nat | Cut(head + body, k, BUFFER, BLANK) :: StoredAt(head + body, k) == body
  }

  /** What a client can check before it sends: the head fits the buffer, no header-shaped text
      can be read with it, and the start and length read off the head are right, or do not
      matter because the body repeats the end of the head; or the head does not fit, and the
      body repeats what the server mistakes for it. */
  ghost predicate BodySafe(lines: Bytes, body: Bytes) {
    var head := Head(lines);
    if |head| <= BUFFER then
      var w := ParseText(lines);
      !HasHeader(CString(Early(head, body))) && Fits(head, body, |head| + |Early(head, body)|, w.start, w.length)
    else
      var u := ParseText(head[..BUFFER]);
      Fits(head, body, BUFFER, u.start, u.length)
  }

  lemma ShortStored(lines: Bytes, body: Bytes, k: nat)
    requires Valid(lines) && |Head(lines)| <= k <= |Head(lines)| + |body|
    ensures var head, w := Head(lines), ParseText(lines);
            StoredAt(head + body, k) == body <==> !HasHeader(Buffered(head, body, k)) && Fits(head, body, k, w.start, w.length)
  {
    ShortHead(lines, body, k);
  }

  lemma LongestStored(lines: Bytes, body: Bytes)
    requires Valid(lines) && |Head(lines)| <= BUFFER
    ensures var head := Head(lines);
            var most := |head| + |Early(head, body)|;
            && Cut(head + body, most, BUFFER, BLANK)
            && (StoredAt(head + body, most) == body <==> BodySafe(lines, body))
  {
    LongestCut(Head(lines), body);
    ShortStored(lines, body, |Head(lines)| + |Early(Head(lines), body)|);
  }

  lemma SafeIsStored(lines: Bytes, body: Bytes, k: nat)
    requires Valid(lines) && ParseText(lines).length == |body| && |Head(lines)| <= BUFFER
    requires BodySafe(lines, body) && Cut(Head(lines) + body, k, BUFFER, BLANK)
    ensures StoredAt(Head(lines) + body, k) == body
  {
    var head := Head(lines);
    CutOfHead(lines, body, k);
    NoHeaderEarlier(head, body, k);
    StartInHead(lines);
    FitsSooner(head, body, k, |head| + |Early(head, body)|, ParseText(lines).start);
    ShortStored(lines, body, k);
  }

  lemma ShortAlways(lines: Bytes, body: Bytes)
    requires Valid(lines) && ParseText(lines).length == |body| && |Head(lines)| <= BUFFER
    ensures AlwaysStored(Head(lines), body) <==> BodySafe(lines, body)
  {
    LongestStored(lines, body);
    forall k: nat | Cut(Head(lines) + body, k, BUFFER, BLANK) && BodySafe(lines, body)
      ensures StoredAt(Head(lines) + body, k) == body
    {
      SafeIsStored(lines, body, k);
    }
  }

  lemma LongAlways(lines: Bytes, body: Bytes)
    requires Valid(lines) && |Head(lines)| > BUFFER
    ensures AlwaysStored(Head(lines), body) <==> BodySafe(lines, body)
  {
    LongHead(lines, body);
    assert Cut(Head(lines) + body, BUFFER, BUFFER, BLANK);
    forall k: nat | Cut(Head(lines) + body, k, BUFFER, BLANK) ensures k == BUFFER {
      CutOfHead(lines, body, k);
    }
  }

  /** For every head the server accepts that declares the size of the body sent: the file gets
      exactly the body under every way to cut up the stream, if and only if the body is safe. */
  lemma PutAlwaysStoresBody(lines: Bytes, body: Bytes)
    requires Valid(lines) && ParseText(lines).length == |body|
    ensures AlwaysStored(Head(lines), body) <==> BodySafe(lines, body)
  {
    if |Head(lines)| <= BUFFER {
      ShortAlways(lines, body);
    } else {
      LongAlways(lines, body);
    }
  }

  /** The message is found right behind the head. */
  ghost predicate Whole(lines: Bytes) {
    ParseText(lines).start == |Head(lines)|
  }

  /** The lines end in a match of the header pattern, or there is only a request line. */
  ghost predicate LastLineTaken(lines: Bytes) {
    MatchLine(lines).Some? &&
    var a := MatchLine(lines).value.minor + 2;
    a == |lines| || EndsInField(lines, a)
  }

  /** The message is found right behind the head exactly when the last line is taken. */
  lemma WholeExact(lines: Bytes)
    requires Valid(lines)
    ensures Whole(lines) <==> LastLineTaken(lines)
  {
    AcceptedIs(lines);
    ReachesEnd(lines, MatchLine(lines).value.minor + 2);
  }

  /** Then only header-shaped text can spoil a body whose head fits the buffer. */
  lemma WholeIsSafe(lines: Bytes, body: Bytes)
    requires Valid(lines) && Whole(lines) && ParseText(lines).length == |body| && |Head(lines)| <= BUFFER
    ensures BodySafe(lines, body) <==> !HasHeader(CString(Early(Head(lines), body)))
  {
    LongestCut(Head(lines), body);
    RightFits(Head(lines), body, |Head(lines)| + |Early(Head(lines), body)|);
  }

  /** A body that does not start like the part of the head stored before it is lost. */
  lemma OtherStartDoesNotFit(head: Bytes, body: Bytes, k: nat, start: nat, length: int)
    requires k <= |head| + |body| && body != "" && Min(start, k) < |head| && body[0] != head[Min(start, k)]
    ensures !Fits(head, body, k, start, length)
  {
    assert (head[Min(start, k)..] + body)[0] == head[Min(start, k)];
  }

  lemma LongHeadLoses(lines: Bytes, body: Bytes)
    requires Valid(lines) && |Head(lines)| > BUFFER && body != "" && body[0] !in Head(lines)
    ensures !BodySafe(lines, body)
  {
    var u := ParseText(Head(lines)[..BUFFER]);
    OtherStartDoesNotFit(Head(lines), body, BUFFER, u.start, u.length);
  }

  lemma UntakenLineLoses(lines: Bytes, body: Bytes)
    requires Valid(lines) && |Head(lines)| <= BUFFER && !Whole(lines) && body != ""
    requires ParseText(lines).start < |Head(lines)| ==> body[0] != Head(lines)[ParseText(lines).start]
    ensures !BodySafe(lines, body)
  {
    var head, w := Head(lines), ParseText(lines);
    StartInHead(lines);
    OtherStartDoesNotFit(head, body, |head| + |Early(head, body)|, w.start, w.length);
  }

  function Nuls(n: nat): (r: Bytes)
    ensures |r| == n && forall i :: 0 <= i < n ==> r[i] == NUL
  {
    seq(n, _ => NUL)
  }

  lemma NoNulInHead(lines: Bytes)
    requires Lines(lines)
    ensures NUL !in Head(lines)
  {
  }

  lemma NoHeaderInNuls(head: Bytes, n: nat)
    ensures !HasHeader(CString(Early(head, Nuls(n))))
  {
    assert CString(Early(head, Nuls(n))) == "";
    NoHeaderInNothing();
  }

  /** Every body of the declared size without header-shaped text is stored under every cut. */
  ghost predicate HeadSafe(lines: Bytes) {
    forall body: Bytes | |body| == ParseText(lines).length && !HasHeader(CString(Early(Head(lines), body))) ::
      AlwaysStored(Head(lines), body)
  }

  /** For every head the server accepts that declares a body: it is safe if and only if it fits
      the buffer and its last line is taken. */
  lemma HeadIsSafe(lines: Bytes)
    requires Valid(lines) && ParseText(lines).length >= 1
    ensures HeadSafe(lines) <==> |Head(lines)| <= BUFFER && LastLineTaken(lines)
  {
    var n := ParseText(lines).length;
    WholeExact(lines);
    if |Head(lines)| <= BUFFER && Whole(lines) {
      forall body: Bytes | |body| == n && !HasHeader(CString(Early(Head(lines), body)))
        ensures AlwaysStored(Head(lines), body)
      {
        PutAlwaysStoresBody(lines, body);
        WholeIsSafe(lines, body);
      }
    } else {
      NoNulInHead(lines);
      if |Head(lines)| <= BUFFER { UntakenLineLoses(lines, Nuls(n)); } else { LongHeadLoses(lines, Nuls(n)); }
      NoHeaderInNuls(Head(lines), n);
      PutAlwaysStoresBody(lines, Nuls(n));
    }
  }

  /** A head one byte longer than the buffer: accepted as if nothing had happened, and the file
      gets the last byte of the head and loses the last byte of the body. */
  lemma LongByOne(lines: Bytes, body: Bytes)
    requires Valid(lines) && Whole(lines) && ParseText(lines).length == |body| && |Head(lines)| == BUFFER + 1
    ensures var data := Head(lines) + body;
            && Cut(data, BUFFER, BUFFER, BLANK)
            && ParseText(CString(data[..BUFFER])) == ParseText(lines)
            && StoredAt(data, BUFFER) == ("\n" + body)[..|body|]
  {
    LongHead(lines, body);
    ReadShortByOne(lines);
    StoredShortByOne(Head(lines), body);
  }

  lemma ReadShortByOne(lines: Bytes)
    requires Valid(lines) && |Head(lines)| == BUFFER + 1
    ensures ParseText(Head(lines)[..BUFFER]) == ParseText(lines)
  {
    assert Head(lines)[..BUFFER] == lines + "\r";
    HeadAlone(lines, "\r");
    NothingInReturn(lines);
  }

  lemma StoredShortByOne(head: Bytes, body: Bytes)
    requires |head| == BUFFER + 1 && head[BUFFER] == '\n'
    ensures Stored(head + body, BUFFER, |head|, |body|) == ("\n" + body)[..|body|]
  {
    var data := head + body;
    StoredIs(data, BUFFER, |head|, |body|);
    assert data[BUFFER..] == "\n" + body;
    assert data[BUFFER..BUFFER + |body|] == data[BUFFER..][..|body|];
  }

  lemma NothingInReturn(lines: Bytes)
    ensures Headers(lines + "\r", |lines|) == []
  {
    assert (lines + "\r")[|lines|] == '\r';
    assert FieldAt(lines + "\r", |lines|).None?;
    assert FindField(lines + "\r", |lines| + 1).None?;
  }

  /** A head with a NUL in it: the server sees only the text before the NUL, so the verdict does
      not depend on the body, and the message never seems to start behind the head. */
  lemma NulHead(lines: Bytes, body: Bytes, k: nat)
    requires EndsLine(lines) && NUL in lines && |Head(lines)| <= k <= |Head(lines)| + |body|
    requires ParseText(CString(lines)).status.None?
    ensures var head, data, w := Head(lines), Head(lines) + body, ParseText(CString(lines));
            && ParseText(CString(data[..k])) == w && w.start < |head|
            && (StoredAt(data, k) == body <==> Fits(head, body, k, w.start, w.length))
  {
    var w := ParseText(CString(lines));
    NulTextRead(lines, body, k);
    StartInHead(CString(lines));
    StoredExact(Head(lines), body, k, w.start, w.length);
  }

  lemma NulTextRead(lines: Bytes, body: Bytes, k: nat)
    requires EndsLine(lines) && NUL in lines && |Head(lines)| <= k <= |Head(lines)| + |body|
    ensures CString((Head(lines) + body)[..k]) == CString(lines) && |CString(lines)| < |lines|
  {
    var x := CRLF + body[..k - |Head(lines)|];
    assert (Head(lines) + body)[..k] == lines + x;
    CStringStops(lines, x);
  }

  // ----- The declared length -------------------------------------------------------------------------

  /** The stored bytes are the declared ones if and only if no more than that came with the
      head; they are as many as declared if and only if, besides, that many were sent. */
  lemma DeclaredExact(data: Bytes, k: nat, start: nat, length: nat)
    requires start <= k <= |data|
    ensures Stored(data, k, start, length) == data[start..start + Min(length, |data| - start)] <==> k - start <= length
    ensures |Stored(data, k, start, length)| == length <==> k - start <= length <= |data| - start
  {
    StoredIs(data, k, start, length);
  }

  /** More than the declared length is stored if and only if more came with the head. */
  lemma DeclaredBound(data: Bytes, k: nat, start: nat, length: int)
    requires k <= |data|
    ensures var limit := if length < 0 then 0 else length;
            |Stored(data, k, start, length)| <= limit <==> k - start <= limit
  {
    StoredIs(data, k, start, length);
  }

  /** Behind a head that is read correctly, without header-shaped text, the start and the length
      are those of the head. */
  lemma StoredBehind(lines: Bytes, sent: Bytes, k: nat)
    requires Valid(lines) && Whole(lines) && |Head(lines)| <= k <= BUFFER && k <= |Head(lines)| + |sent|
    requires !HasHeader(CString(Early(Head(lines), sent)))
    ensures var head := Head(lines);
            && ParseText(CString((head + sent)[..k])) == ParseText(lines)
            && StoredAt(head + sent, k) == Stored(head + sent, k, |head|, ParseText(lines).length)
  {
    NoHeaderEarlier(Head(lines), sent, k);
    TextRead(lines, sent, k);
    HeadRead(lines, Buffered(Head(lines), sent, k));
  }

  lemma DeclaredBehind(head: Bytes, sent: Bytes, k: nat, n: nat)
    requires |head| <= k <= |head| + |sent|
    ensures Stored(head + sent, k, |head|, n) == sent[..Min(n, |sent|)] <==> k - |head| <= n
    ensures |Stored(head + sent, k, |head|, n)| == n <==> k - |head| <= n <= |sent|
  {
    DeclaredExact(head + sent, k, |head|, n);
    assert (head + sent)[|head|..|head| + Min(n, |sent|)] == sent[..Min(n, |sent|)];
  }

  lemma DeclaredAt(lines: Bytes, sent: Bytes, k: nat)
    requires Valid(lines) && Whole(lines) && |Head(lines)| <= BUFFER && ParseText(lines).length >= 0
    requires !HasHeader(CString(Early(Head(lines), sent))) && Cut(Head(lines) + sent, k, BUFFER, BLANK)
    ensures var head, n := Head(lines), ParseText(lines).length;
            && k <= |head| + |Early(head, sent)|
            && (StoredAt(head + sent, k) == sent[..Min(n, |sent|)] <==> k - |head| <= n)
            && (|StoredAt(head + sent, k)| == n <==> k - |head| <= n <= |sent|)
  {
    CutOfHead(lines, sent, k);
    StoredBehind(lines, sent, k);
    DeclaredBehind(Head(lines), sent, k, ParseText(lines).length);
  }

  /** In terms of what the client sends behind a head that is read correctly: under every cut
      the declared bytes are stored, if and only if no more than that fit the buffer behind the
      head. */
  lemma DeclaredAlways(lines: Bytes, sent: Bytes)
    requires Valid(lines) && Whole(lines) && |Head(lines)| <= BUFFER && ParseText(lines).length >= 0
    requires !HasHeader(CString(Early(Head(lines), sent)))
    ensures var data, n := Head(lines) + sent, ParseText(lines).length;
            (forall k: nat | Cut(data, k, BUFFER, BLANK) :: StoredAt(data, k) == sent[..Min(n, |sent|)])
            <==> |Early(Head(lines), sent)| <= n
  {
    var head, n := Head(lines), ParseText(lines).length;
    LongestCut(head, sent);
    forall k: nat | Cut(head + sent, k, BUFFER, BLANK)
      ensures StoredAt(head + sent, k) == sent[..Min(n, |sent|)] <==> k - |head| <= n
    {
      DeclaredAt(lines, sent, k);
    }
  }

  /** ...and under every cut as many bytes as declared are stored, if and only if moreover that
      many are sent. A body that ends early is stored short, and counts as success. */
  lemma DeclaredCount(lines: Bytes, sent: Bytes)
    requires Valid(lines) && Whole(lines) && |Head(lines)| <= BUFFER && ParseText(lines).length >= 0
    requires !HasHeader(CString(Early(Head(lines), sent)))
    ensures var data, n := Head(lines) + sent, ParseText(lines).length;
            (forall k: nat | Cut(data, k, BUFFER, BLANK) :: |StoredAt(data, k)| == n)
            <==> |Early(Head(lines), sent)| <= n <= |sent|
  {
    var head, n := Head(lines), ParseText(lines).length;
    LongestCut(head, sent);
    forall k: nat | Cut(head + sent, k, BUFFER, BLANK)
      ensures |StoredAt(head + sent, k)| == n <==> k - |head| <= n <= |sent|
    {
      DeclaredAt(lines, sent, k);
    }
  }
}

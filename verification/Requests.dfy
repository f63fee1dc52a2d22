/** Where the parser and the step system meet: the request a worker serves is what conn_parse
    and conn_recv_file make of the bytes of the connection. */
module Requests {
  import opened Options
  import opened CStrings
  import opened Messages
  import opened Numbers
  import opened Streams
  import opened Http
  import opened Connection
  import opened Heads
  import opened Bodies
  import opened Client
  import Responses
  import Store
  import Worker
  import Server
  import Linearization
  import Ordering
  import Failures

  /** The id as the checkers read it; -1 for text that is no number. */
  function IdNumber(id: Bytes): int {
    if AllDigits(id) then ToNat(id) else -1
  }

  /** The request seen in a stream of which conn_parse read the first `k` bytes. */
  function Understood(data: Bytes, k: nat): Worker.Parsed
    requires k <= |data|
  {
    if k == 0 then Worker.Empty
    else
      var v := ParseText(CString(data[..k]));
      var rid := IdNumber(v.id);
      if v.status.Some? then Worker.Rejected(v.status.value, v.verb, v.uri, rid)
      else
        match v.verb
        case UNSUPPORTED => Worker.Unsupported(v.uri, rid)
        case GET => Worker.Wants(Store.Get(v.uri), rid)
        case PUT => Worker.Wants(Store.Put(v.uri, StoredAt(data, k)), rid)
  }

  /** handle_connection up to its handlers, on any stream: a failed read is answered with 500 after
      a timeout and 400 otherwise, everything else by what was understood. */
  method Receive(src: Source) returns (req: Worker.Parsed, k: int)
    ensures k < 0 ==> FirstError(src.quirks).Some?
    ensures k < 0 ==> req == Worker.Rejected(if FirstError(src.quirks).value then 500 else 400, UNSUPPORTED, "", 0)
    ensures k >= 0 ==> Cut(src.data, k, BUFFER, BLANK) && req == Understood(src.data, k)
  {
    var conn := new Conn();
    var status, src' := conn.Parse(src);
    k := conn.bytesRead;
    var rid := IdNumber(conn.requestId);
    if status.Some? {
      if conn.bytesRead == 0 {
        return Worker.Empty, k;
      }
      assert AllDigits("0") && ToNat("0") == 0;
      return Worker.Rejected(status.value, conn.request, conn.uri, rid), k;
    }
    match conn.request
    case GET => return Worker.Wants(Store.Get(conn.uri), rid), k;
    case PUT => return Worker.Wants(Store.Put(conn.uri, StoredAt(src.data, k)), rid), k;
    case UNSUPPORTED => return Worker.Unsupported(conn.uri, rid), k;
  }

  /** What is understood, in terms of the patterns alone: nothing of an empty stream; a request
      without a line is turned down with 400... */
  lemma NothingUnderstood(data: Bytes, k: nat)
    requires k <= |data|
    ensures Understood(data, k) == Worker.Empty <==> k == 0
    ensures k > 0 && (forall l :: !IsLine(CString(data[..k]), l)) ==>
              Understood(data, k) == Worker.Rejected(400, UNSUPPORTED, "", 0)
  {
    NoLineIsBad(CString(data[..k]));
    assert AllDigits("0") && ToNat("0") == 0;
  }

  /** ...and one with a line by its minor version, with 400 for two digits and 505 for another digit
      than 1; otherwise its method begins with GET, with PUT, or is unsupported. */
  lemma UnderstoodExact(data: Bytes, k: nat, l: Line)
    requires 0 < k <= |data| && LongestLine(CString(data[..k]), l)
    ensures var s, u := CString(data[..k]), Understood(data, k);
            var uri, rid, one := s[l.method_ + 2..l.uri], IdNumber(ParseText(s).id), l.minor == l.major + 2 && s[l.major + 1] == '1';
            && (l.minor > l.major + 2 ==> u.Rejected? && u.status == 400 && u.uri == uri)
            && (l.minor == l.major + 2 && s[l.major + 1] != '1' ==> u.Rejected? && u.status == 505 && u.uri == uri)
            && (u.Rejected? ==> (u.verb == UNSUPPORTED <==> !("GET" <= s[..l.method_]) && !("PUT" <= s[..l.method_])))
            && (one && "GET" <= s[..l.method_] ==> u == Worker.Wants(Store.Get(uri), rid))
            && (one && "PUT" <= s[..l.method_] ==> u == Worker.Wants(Store.Put(uri, StoredAt(data, k)), rid))
            && (one && !("GET" <= s[..l.method_]) && !("PUT" <= s[..l.method_]) ==> u == Worker.Unsupported(uri, rid))
  {
    VerdictExact(CString(data[..k]), l);
  }

  /** Whatever a client sends, the step system may take it for granted. */
  lemma UnderstoodIsParseable(data: Bytes, k: nat)
    requires k <= |data|
    ensures Server.Parseable(Understood(data, k))
  {
    if k > 0 && ParseText(CString(data[..k])).status.None? {
      AcceptedRequest(CString(data[..k]));
    }
  }

  /** What is meant by a request for `uri`. */
  function Meant(verb: Verb, uri: Bytes, rid: int, body: Bytes): Worker.Parsed {
    Worker.Wants(if verb == PUT then Store.Put(uri, body) else Store.Get(uri), rid)
  }

  /** For every head the server accepts and reads correctly, however the stream is cut up: the
      worker serves the method, URI and id of the head, and for a PUT exactly the body, if no
      header-shaped text can be read with the head. */
  lemma HeadUnderstood(lines: Bytes, body: Bytes, k: nat)
    requires Valid(lines) && Whole(lines) && |Head(lines)| <= BUFFER && Cut(Head(lines) + body, k, BUFFER, BLANK)
    requires ParseText(lines).verb == GET || ParseText(lines).verb == PUT
    requires ParseText(lines).length == |body| && !HasHeader(CString(Early(Head(lines), body)))
    ensures var w := ParseText(lines);
            Understood(Head(lines) + body, k) == Meant(w.verb, w.uri, IdNumber(w.id), body)
  {
    CutOfHead(lines, body, k);
    StoredBehind(lines, body, k);
    WholeStored(Head(lines), body, k);
  }

  lemma WholeStored(head: Bytes, body: Bytes, k: nat)
    requires |head| <= k <= |head| + |body|
    ensures Stored(head + body, k, |head|, |body|) == body
  {
    RightFits(head, body, k);
    StoredExact(head, body, k, |head|, |body|);
  }

  // ----- The client's own requests --------------------------------------------------------------

  ghost predicate Sent(verb: Verb, uri: Bytes, rid: nat, body: Bytes, k: nat) {
    Askable(verb, uri, Dec(rid), |body|) && Cut(PrintedHead(verb, uri, Dec(rid), |body|) + body, k, BUFFER, BLANK)
  }

  lemma IdReadBack(rid: nat)
    ensures IdNumber(Dec(rid)) == rid
  {
    DecToNat(rid);
  }

  /** From the bytes of the client to the operation of the sequential store: however the stream
      is cut up, the worker serves exactly what the client meant. */
  lemma RequestUnderstood(verb: Verb, uri: Bytes, rid: nat, body: Bytes, k: nat)
    requires Sent(verb, uri, rid, body, k)
    requires !HasHeader(CString(Early(PrintedHead(verb, uri, Dec(rid), |body|), body)))
    ensures Understood(PrintedHead(verb, uri, Dec(rid), |body|) + body, k) == Meant(verb, uri, rid, body)
  {
    PrintedRead(verb, uri, Dec(rid), |body|);
    HeadUnderstood(PrintedLines(verb, uri, Dec(rid), |body|), body, k);
    IdReadBack(rid);
  }

  /** The client printed this request with id `c`, and `req` is what came in. */
  ghost predicate Asked(req: Worker.Parsed, c: int, verb: Verb, uri: Bytes, body: Bytes, k: nat) {
    && c >= 0 && Sent(verb, uri, c, body, k)
    && !HasHeader(CString(Early(PrintedHead(verb, uri, Dec(c), |body|), body)))
    && req == Understood(PrintedHead(verb, uri, Dec(c), |body|) + body, k)
  }

  /** Connection `c` carries a request the client printed with id `c`. */
  ghost predicate FromClient(req: Worker.Parsed, c: int) {
    exists verb, uri, body, k :: Asked(req, c, verb, uri, body, k)
  }

  /** With the client's own requests, what the order of the log needs is met. */
  lemma FromClientIsFaithful(s: Server.State)
    requires forall c :: c in s.conns ==> FromClient(s.conns[c], c)
    ensures Ordering.Faithful(s)
  {
    forall c | c in s.conns ensures s.conns[c] != Worker.Empty && Ordering.RidOf(s.conns[c]) == c {
      var verb, uri, body, k :| Asked(s.conns[c], c, verb, uri, body, k);
      RequestUnderstood(verb, uri, c, body, k);
    }
  }

  // ----- The answers --------------------------------------------------------------------------------

  /** The bytes of a response as audited. */
  function Wire(out: Worker.Outcome): Bytes {
    Response(out.status, out.declared, out.sent)
  }

  /** From the log to the client: for every logged GET or PUT that did not fail and whose response
      was sent whole, in every run, what was sent is what conn_send_file or conn_send_response
      sends, and the status and body the client reads are the sequential store's reply. */
  lemma ClientReadsReply(run: seq<Server.State>, acts: seq<Server.Action>, i: nat, k: nat)
    requires Server.IsRun(run, acts) && i < |run| && k < |run[i].history|
    requires var r := run[i].history[k]; r.req.Wants? && !Linearization.Failed(r) && r.out.complete
    ensures var r, before := run[i].history[k], Server.Replay(run[i].init, run[i].history[..k]);
            var reply := Store.Respond(before, r.req.op);
            && Responses.ReadCode(Wire(r.out)) == Responses.Code(reply.status)
            && Responses.ReadBody(Wire(r.out)) == reply.body
            && (|reply.body| < SSIZE ==> Responses.ReadLength(Wire(r.out)) == Some(|reply.body|))
            && (if r.req.op.Get? && r.req.op.uri in before
                then Wire(r.out) == SentFile(before[r.req.op.uri], |before[r.req.op.uri]|)
                else Wire(r.out) == SentResponse(reply.status))
  {
    var r := run[i].history[k];
    Linearization.LogIsLinearization(run, acts, i, k);
    WireReadBack(r.out);
    var before := Server.Replay(run[i].init, run[i].history[..k]);
    ReplyTexts(before, r.req.op);
  }

  lemma ReplyTexts(before: Store.Files, op: Store.Op)
    ensures var reply := Store.Respond(before, op);
            && (op.Get? && op.uri in before ==> reply.body[..|reply.body|] == reply.body)
            && (!(op.Get? && op.uri in before) ==> reply.body == StatusBody(reply.status))
  {
  }

  // ----- End to end -----------------------------------------------------------------------------------

  /** On connection `c` the client asked for `op`. */
  ghost predicate AskedFor(req: Worker.Parsed, c: int, op: Store.Op) {
    exists verb, uri, body, k :: Asked(req, c, verb, uri, body, k) && op == Meant(verb, uri, c, body).op
  }

  lemma AskedIsServed(req: Worker.Parsed, c: int, op: Store.Op)
    requires AskedFor(req, c, op)
    ensures req == Worker.Wants(op, c)
  {
    var verb, uri, body, k :| Asked(req, c, verb, uri, body, k) && op == Meant(verb, uri, c, body).op;
    RequestUnderstood(verb, uri, c, body, k);
  }

  /** What the client asked for on each connection. */
  ghost predicate AllAsked(s: Server.State, asked: map<int, Store.Op>) {
    forall c :: c in s.conns ==> c in asked && AskedFor(s.conns[c], c, asked[c])
  }

  /** The lines of the log are of requests that did not fail and were answered whole. */
  ghost predicate AnsweredWhole(h: seq<Worker.Record>) {
    forall k :: 0 <= k < |h| ==> !Linearization.Failed(h[k]) && h[k].out.complete
  }

  /** What was asked, in the order of the log. */
  function InLogOrder(h: seq<Worker.Record>, asked: map<int, Store.Op>): seq<Store.Op>
    requires forall k :: 0 <= k < |h| ==> h[k].conn in asked
  {
    seq(|h|, k requires 0 <= k < |h| => asked[h[k].conn])
  }

  lemma ServedAsAsked(s: Server.State, asked: map<int, Store.Op>)
    requires Ordering.Lines(s) && AllAsked(s, asked) && AnsweredWhole(s.history)
    ensures forall k :: 0 <= k < |s.history| ==> s.history[k].conn in asked
    ensures Linearization.Clean(s.history) && Linearization.Ops(s.history) == InLogOrder(s.history, asked)
  {
    var h := s.history;
    forall k | 0 <= k < |h| ensures h[k].conn in asked && h[k].req == Worker.Wants(asked[h[k].conn], h[k].conn) {
      AskedIsServed(s.conns[h[k].conn], h[k].conn, asked[h[k].conn]);
    }
  }

  /** The client reads the sequential store's answer to the `k`th of `ops`. */
  ghost predicate ReadsReply(out: Worker.Outcome, init: Store.Files, ops: seq<Store.Op>, k: nat)
    requires k < |ops|
  {
    var reply := Store.Respond(Store.ReplayOps(init, ops[..k]), ops[k]);
    && Responses.ReadCode(Wire(out)) == Responses.Code(reply.status)
    && Responses.ReadBody(Wire(out)) == reply.body
    && (|reply.body| < SSIZE ==> Responses.ReadLength(Wire(out)) == Some(|reply.body|))
  }

  /** From the bytes the client prints to the bytes it reads: in every run whose connections all
      carry requests the client printed, with no failed line and every response sent whole, what
      the client reads for each request is the answer of the sequential store to the operation
      the client asked for, run in the order of the log; and once the server is idle its files
      are those of that replay. */
  lemma EndToEnd(run: seq<Server.State>, acts: seq<Server.Action>, i: nat, asked: map<int, Store.Op>)
    requires Server.IsRun(run, acts) && i < |run| && AllAsked(run[i], asked) && AnsweredWhole(run[i].history)
    ensures var s := run[i];
            && (forall k :: 0 <= k < |s.history| ==> s.history[k].conn in asked)
            && (forall k :: 0 <= k < |s.history| ==>
                  ReadsReply(s.history[k].out, s.init, InLogOrder(s.history, asked), k))
            && ((forall w :: 0 <= w < |s.workers| ==> s.workers[w].Idle?) ==>
                  s.files == Store.ReplayOps(s.init, InLogOrder(s.history, asked)))
  {
    var s := run[i];
    Ordering.OrderedAlways(run, acts, i);
    ServedAsAsked(s, asked);
    Linearization.WatsonAccepts(run, acts, i);
    forall k | 0 <= k < |s.history| ensures ReadsReply(s.history[k].out, s.init, InLogOrder(s.history, asked), k) {
      var out := s.history[k].out;
      assert Linearization.Replayed(s.init, InLogOrder(s.history, asked), k, out);
      WireReadBack(out);
    }
  }

  lemma WireReadBack(out: Worker.Outcome)
    ensures Responses.ReadCode(Wire(out)) == Responses.Code(out.status) && Responses.ReadBody(Wire(out)) == out.sent
    ensures out.declared < SSIZE ==> Responses.ReadLength(Wire(out)) == Some(out.declared)
  {
    Responses.ResponseRoundTrip(out.status, out.declared, out.sent);
    if out.declared < SSIZE {
      Responses.LengthReadBack(out.status, out.declared, out.sent);
    }
  }

  /** In every run without a failing system call or a broken answer, all of this holds of every
      request the client printed. */
  lemma EndToEndUndisturbed(run: seq<Server.State>, acts: seq<Server.Action>, i: nat, asked: map<int, Store.Op>)
    requires Server.IsRun(run, acts) && i < |run| && AllAsked(run[i], asked) && Failures.Undisturbed(run, acts, i)
    ensures AnsweredWhole(run[i].history)
    ensures forall k :: 0 <= k < |run[i].history| ==> run[i].history[k].conn in asked
    ensures forall k :: 0 <= k < |run[i].history| ==>
              ReadsReply(run[i].history[k].out, run[i].init, InLogOrder(run[i].history, asked), k)
  {
    Ordering.OrderedAlways(run, acts, i);
    forall k | 0 <= k < |run[i].history|
      ensures !Linearization.Failed(run[i].history[k]) && run[i].history[k].out.complete
    {
      var c := run[i].history[k].conn;
      AskedIsServed(run[i].conns[c], c, asked[c]);
      Failures.NothingFails(run, acts, i, k);
    }
    EndToEnd(run, acts, i, asked);
  }
}

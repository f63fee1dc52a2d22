/** One request on one worker thread: the statements of handle_connection, handle_get,
    handle_put and audit_send_response (src/httpserver.c) as local transitions. Shared
    data is reached only through the contents of the one file the request names. */
module Worker {
  import opened Options
  import opened Messages
  import opened Store

  /** What conn_parse makes of the bytes of a connection. For a PUT, `op.body` is what
      conn_recv_file copies when no I/O error occurs. */
  datatype Parsed =
    | Empty
    | Rejected(status: nat, verb: Verb, uri: Uri, rid: int)
    | Unsupported(uri: Uri, rid: int)
    | Wants(op: Op, rid: int)

  datatype Hold = NoLock | Shared | Exclusive

  /** A response as audited: status, declared Content-Length, body bytes sent, and
      whether sending succeeded. */
  datatype Outcome = Outcome(status: nat, declared: nat, sent: Bytes, complete: bool)

  /** The next statement. Audit waits for the log mutex; Append and Unlog hold it. */
  datatype Phase =
    | Parse
    | Lock
    | GetOpen
    | GetStat
    | Sending(size: nat, sent: Bytes)
    | PutCheck
    | PutOpen(existed: bool)
    | PutTruncate(existed: bool)
    | Receiving(existed: bool, got: nat)
    | Respond(status: nat)
    | Audit(out: Outcome)
    | Append(out: Outcome)
    | Unlog
    | Release
    | Close

  /** `dirty`: this PUT has opened its target and has not been logged yet. */
  datatype Worker =
    | Idle
    | Busy(conn: int, req: Parsed, hold: Hold, dirty: bool, phase: Phase)

  /** How the environment lets a statement end: normally, with an error mapped to a status,
      after moving `n` more bytes, or interrupted by a signal. */
  datatype Move = Go | Fail(status: nat) | Chunk(n: nat) | Retry

  /** 501 takes precedence over 505. */
  function FinalStatus(status: nat, verb: Verb): nat {
    if status == 505 && verb == UNSUPPORTED then 501 else status
  }

  function Target(req: Parsed): Uri {
    if req.Wants? then req.op.uri else ""
  }

  function Mode(op: Op): Hold { if op.Get? then Shared else Exclusive }

  /** write(2) at a file offset; a gap would read as NULs. */
  function WriteAt(file: Bytes, off: nat, data: Bytes): Bytes {
    var padded := if off <= |file| then file else file + seq(off - |file|, _ => '\0');
    padded[..off] + data + (if off + |data| <= |padded| then padded[off + |data|..] else "")
  }

  /** The worker after a statement, and the new contents of its file if it wrote any. */
  datatype Next = Stuck | Next(worker: Worker, write: Option<Bytes>)

  function To(w: Worker, phase: Phase): Next
    requires w.Busy?
  {
    Next(w.(phase := phase), None)
  }

  /** The statement at `w.phase`, ending as `m` says. `file` is the target's contents. Whether
      the flock is granted and the log mutex is free is decided by the caller. */
  function Act(w: Worker, file: Option<Bytes>, m: Move): Next
    requires w.Busy?
  {
    match w.phase
    case Parse => if m == Go then Next(w.(phase := Dispatch(w.req)), None) else Stuck
    case Lock =>
      if !w.req.Wants? then Stuck
      else if m == Go then
        Next(w.(hold := Mode(w.req.op), phase := if w.req.op.Get? then GetOpen else PutCheck), None)
      else if m == Fail(500) then To(w, Respond(500))
      else if m == Retry then To(w, Lock)
      else Stuck
    case GetOpen =>
      if m == Go then To(w, if file.Some? then GetStat else Respond(404))
      else if m == Fail(403) || m == Fail(500) then To(w, Respond(m.status))
      else Stuck
    case GetStat =>
      if m == Go && file.Some? then To(w, Sending(|file.value|, ""))
      else if m == Fail(403) || m == Fail(500) then To(w, Respond(m.status))
      else Stuck
    case Sending(size, sent) =>
      if file.None? then Stuck
      else if m.Chunk? && 0 < m.n && |sent| + m.n <= size && |sent| + m.n <= |file.value| then
        To(w, Sending(size, sent + file.value[|sent|..|sent| + m.n]))
      else if m == Go && (size <= |sent| || |file.value| <= |sent|) then
        To(w, Audit(Outcome(200, size, sent, true)))
      else if m.Fail? then To(w, Audit(Outcome(200, size, sent, false)))
      else Stuck
    case PutCheck => if m == Go then To(w, PutOpen(file.Some?)) else Stuck
    case PutOpen(existed) =>
      if m == Go then
        Next(w.(dirty := true, phase := PutTruncate(existed)), Some(if file.Some? then file.value else ""))
      else if m == Fail(403) || m == Fail(500) then To(w, Respond(m.status))
      else Stuck
    case PutTruncate(existed) =>
      if m == Go then Next(w.(phase := Receiving(existed, 0)), Some(""))
      else if m == Fail(500) then To(w, Respond(500))
      else Stuck
    case Receiving(existed, got) =>
      if !(w.req.Wants? && w.req.op.Put?) || file.None? then Stuck
      else if m.Chunk? && 0 < m.n && got + m.n <= |w.req.op.body| then
        Next(w.(phase := Receiving(existed, got + m.n)),
             Some(WriteAt(file.value, got, w.req.op.body[got..got + m.n])))
      else if m == Go && got == |w.req.op.body| then To(w, Respond(if existed then 200 else 201))
      else if m == Fail(500) then To(w, Respond(500))
      else Stuck
    case Respond(status) =>
      var body := StatusBody(status);
      if m == Go then To(w, Audit(Outcome(status, |body|, body, true)))
      else if m.Chunk? && m.n <= |body| then To(w, Audit(Outcome(status, |body|, body[..m.n], false)))
      else Stuck
    case Audit(out) => if m == Go then To(w, Append(out)) else Stuck
    case Append(out) => if m == Go then Next(w.(dirty := false, phase := Unlog), None) else Stuck
    case Unlog => if m == Go then To(w, Release) else Stuck
    case Release => if m == Go then Next(w.(hold := NoLock, phase := Close), None) else Stuck
    case Close => if m == Go then Next(Idle, None) else Stuck
  }

  function Dispatch(req: Parsed): Phase {
    match req
    case Empty => Close
    case Rejected(status, verb, _, _) => Respond(FinalStatus(status, verb))
    case Unsupported(_, _) => Respond(501)
    case Wants(_, _) => Lock
  }

  // ----- What each program point knows --------------------------------------------------

  /** What an intended status says about the live file and the replayed file. */
  ghost predicate Justified(w: Worker, status: nat, file: Option<Bytes>, view: Option<Bytes>)
    requires w.Busy?
  {
    match w.req
    case Empty => false
    case Rejected(st, verb, _, _) => w.hold == NoLock && status == FinalStatus(st, verb)
    case Unsupported(_, _) => w.hold == NoLock && status == 501
    case Wants(Get(_), _) =>
      if w.hold == NoLock then status == 500
      else status == 403 || status == 500 || (status == 404 && file.None?)
    case Wants(Put(_, body), _) =>
      if w.hold == NoLock then status == 500
      else
        || (status == 403 && !w.dirty)
        || status == 500
        || (w.dirty && file == Some(body) && status == if view.Some? then 200 else 201)
  }

  /** The audited outcome matches the file: a prefix of the right body was sent, all of
      it if sending succeeded, and its full length was declared. */
  ghost predicate OutcomeOk(w: Worker, out: Outcome, file: Option<Bytes>, view: Option<Bytes>)
    requires w.Busy?
  {
    var served := w.req.Wants? && w.req.op.Get? && w.hold == Shared && out.status == 200 && file.Some?;
    var body := if served then file.value else StatusBody(out.status);
    && (served || Justified(w, out.status, file, view))
    && out.sent <= body
    && out.declared == |body|
    && (out.complete ==> out.sent == body)
  }

  /** What a PUT may have made of its file on the way: nothing yet, or part of its body. */
  ghost predicate Partial(op: Op, file: Option<Bytes>, view: Option<Bytes>) {
    file.Some? && (file == view || (op.Put? && file.value <= op.body))
  }

  /** The local assertion of a program point. A lock holder whose change is not pending
      sees the file that the replayed log has. */
  ghost predicate Facts(w: Worker, file: Option<Bytes>, view: Option<Bytes>) {
    w.Busy? ==>
      && (w.hold != NoLock ==> w.req.Wants? && w.hold == Mode(w.req.op))
      && (w.hold != NoLock && !w.dirty ==> file == view)
      && (w.dirty ==> w.hold == Exclusive && Partial(w.req.op, file, view))
      && match w.phase
         case Parse => w.hold == NoLock
         case Lock => w.hold == NoLock && w.req.Wants?
         case GetOpen => w.hold == Shared
         case GetStat => w.hold == Shared && file.Some?
         case Sending(size, sent) => w.hold == Shared && file.Some? && size == |file.value| && sent <= file.value
         case PutCheck => w.hold == Exclusive && !w.dirty
         case PutOpen(existed) => w.hold == Exclusive && !w.dirty && existed == view.Some?
         case PutTruncate(existed) => w.dirty && existed == view.Some?
         case Receiving(existed, got) =>
           && w.dirty
           && got <= |w.req.op.body|
           && file == Some(w.req.op.body[..got])
           && existed == view.Some?
         case Respond(status) => Justified(w, status, file, view)
         case Audit(out) => OutcomeOk(w, out, file, view)
         case Append(out) => OutcomeOk(w, out, file, view)
         case Unlog => !w.dirty
         case Release => !w.dirty
         case Close => w.hold == NoLock
  }

  function After(file: Option<Bytes>, write: Option<Bytes>): Option<Bytes> {
    if write.Some? then write else file
  }

  predicate InLog(w: Worker) { w.Busy? && (w.phase.Append? || w.phase.Unlog?) }

  /** What a statement does to the worker's lock, its hold on the log mutex and its identity. */
  lemma ActShape(w: Worker, file: Option<Bytes>, m: Move)
    requires w.Busy? && Act(w, file, m) != Stuck
    ensures var n := Act(w, file, m).worker;
            && (n.Busy? ==> n.conn == w.conn && n.req == w.req)
            && (n.Busy? && n.hold != NoLock ==>
                  n.hold == w.hold || (w.phase.Lock? && m == Go && w.req.Wants? && n.hold == Mode(w.req.op)))
            && (InLog(n) <==> w.phase.Audit? || w.phase.Append?)
            && (n.Idle? <==> w.phase.Close?)
  {
  }

  /** What a statement other than the append must leave behind. */
  ghost predicate Kept(w: Worker, next: Next, file: Option<Bytes>, view: Option<Bytes>)
    requires w.Busy? && next != Stuck
  {
    && Facts(next.worker, After(file, next.write), view)
    && (next.write.Some? ==> next.worker.Busy? && next.worker.dirty && w.hold == Exclusive)
    && (w.dirty ==> next.worker.Busy? && next.worker.dirty)
  }

  lemma GetKeepsFacts(w: Worker, file: Option<Bytes>, view: Option<Bytes>, m: Move)
    requires w.Busy? && Facts(w, file, view) && Act(w, file, m) != Stuck
    requires w.phase.GetOpen? || w.phase.GetStat? || w.phase.Sending?
    ensures Kept(w, Act(w, file, m), file, view)
  {
  }

  lemma PutKeepsFacts(w: Worker, file: Option<Bytes>, view: Option<Bytes>, m: Move)
    requires w.Busy? && Facts(w, file, view) && Act(w, file, m) != Stuck
    requires w.phase.PutCheck? || w.phase.PutOpen? || w.phase.PutTruncate? || w.phase.Receiving?
    ensures Kept(w, Act(w, file, m), file, view)
  {
    if w.phase.Receiving? {
      var body, got := w.req.op.body, w.phase.got;
      assert body[..|body|] == body;
      if m.Chunk? {
        assert body[..got + m.n] == body[..got] + body[got..got + m.n];
        assert WriteAt(body[..got], got, body[got..got + m.n]) == body[..got + m.n];
      }
    }
  }

  /** Every statement but the append keeps the assertions, against an unchanged log. */
  lemma ActKeepsFacts(w: Worker, file: Option<Bytes>, view: Option<Bytes>, m: Move)
    requires w.Busy? && Facts(w, file, view) && !w.phase.Append?
    requires w.phase.Lock? && m == Go ==> file == view
    requires Act(w, file, m) != Stuck
    ensures Kept(w, Act(w, file, m), file, view)
  {
    if w.phase.GetOpen? || w.phase.GetStat? || w.phase.Sending? {
      GetKeepsFacts(w, file, view, m);
    } else if w.phase.PutCheck? || w.phase.PutOpen? || w.phase.PutTruncate? || w.phase.Receiving? {
      PutKeepsFacts(w, file, view, m);
    }
  }

  // ----- The audit record ----------------------------------------------------------------

  /** A line of the log with its history: what was asked, what was answered, and the contents
      left in the target if this request wrote to it. */
  datatype Record = Record(conn: int, req: Parsed, out: Outcome, effect: Option<Bytes>)

  function RecordOf(w: Worker, file: Option<Bytes>): Record
    requires w.Busy? && w.phase.Append?
  {
    Record(w.conn, w.req, w.phase.out, if w.dirty then file else None)
  }

  function At(files: Files, uri: Uri): Option<Bytes> {
    if uri in files then Some(files[uri]) else None
  }

  function Commit(files: Files, r: Record): Files {
    if r.effect.Some? then files[Target(r.req) := r.effect.value] else files
  }

  /** The record is what the sequential store answers and does at this point. Only the
      statuses 403 and 500 report a request that failed on the way; of these only a PUT with
      500 may have changed its file, to part of its body. */
  ghost predicate Agrees(files: Files, r: Record) {
    match r.req
    case Empty => false
    case Rejected(status, verb, _, _) => r.out.status == FinalStatus(status, verb) && r.effect.None?
    case Unsupported(_, _) => r.out.status == 501 && r.effect.None?
    case Wants(op, _) =>
      if r.out.status == 403 || (r.out.status == 500 && op.Get?) then r.effect.None?
      else if r.out.status == 500 then r.effect.Some? ==> Partial(op, r.effect, At(files, op.uri))
      else
        var reply := Store.Respond(files, op);
        && r.out.status == reply.status
        && r.out.sent <= reply.body
        && r.out.declared == |reply.body|
        && (r.out.complete ==> r.out.sent == reply.body)
        && Commit(files, r) == Apply(files, op)
  }

  /** Appending the line is the request's turn in the sequential order. */
  lemma AppendAgrees(w: Worker, file: Option<Bytes>, store: Files)
    requires w.Busy? && w.phase.Append? && Facts(w, file, At(store, Target(w.req)))
    ensures Agrees(store, RecordOf(w, file))
    ensures Facts(Act(w, file, Go).worker, file, At(Commit(store, RecordOf(w, file)), Target(w.req)))
  {
  }
}

/** The main theorems about every run of the server: its log is a linearization. */
module Linearization {
  import opened Store
  import opened Worker
  import opened Server
  import LockPath

  /** The status is that of the reply, its length was declared, and a prefix of its body was sent,
      all of it if sending succeeded. */
  ghost predicate Matches(out: Outcome, reply: Reply) {
    && out.status == reply.status && out.sent <= reply.body && out.declared == |reply.body|
    && (out.complete ==> out.sent == reply.body)
  }

  predicate Failed(r: Record) { r.out.status == 403 || r.out.status == 500 }

  /** Replaying the log through the sequential store answers each GET and PUT the way it
      was answered, unless the request failed on the way; failures show in the status. */
  lemma LogIsLinearization(run: seq<State>, acts: seq<Action>, i: nat, k: nat)
    requires IsRun(run, acts) && i < |run| && k < |run[i].history|
    ensures var s := run[i];
            var r, before := s.history[k], Replay(s.init, s.history[..k]);
            && Agrees(before, r)
            && Replay(s.init, s.history[..k + 1]) == Commit(before, r)
            && (r.req.Wants? ==>
                  var reply := Store.Respond(before, r.req.op);
                  && (r.out.status == reply.status <==> !Failed(r))
                  && (!Failed(r) ==> r.out.sent <= reply.body && r.out.declared == |reply.body|)
                  && (!Failed(r) && r.out.complete ==> r.out.sent == reply.body))
  {
    SafeAlways(run, acts, i);
    var h := run[i].history;
    assert h[..k + 1] == h[..k] + [h[k]];
    ReplayExtends(run[i].init, h[..k], h[k]);
  }

  /** What a line means, spelled out: a GET got 200 and the file, or 404; a PUT got 200 if the file
      existed and 201 if not, and left its body; a request turned down got its status, 501 before
      505, and left everything as it was. */
  lemma LineMeaning(run: seq<State>, acts: seq<Action>, i: nat, k: nat)
    requires IsRun(run, acts) && i < |run| && k < |run[i].history|
    ensures var h := run[i].history;
            var r, out := h[k], h[k].out;
            var before, after := Replay(run[i].init, h[..k]), Replay(run[i].init, h[..k + 1]);
            match r.req
            case Empty => false
            case Rejected(st, verb, _, _) =>
              out.status == (if st == 505 && verb.UNSUPPORTED? then 501 else st) && after == before
            case Unsupported(_, _) => out.status == 501 && after == before
            case Wants(Get(uri), _) =>
              && after == before
              && (!Failed(r) && uri in before ==>
                    out.status == 200 && out.declared == |before[uri]| && out.sent <= before[uri]
                    && (out.complete ==> out.sent == before[uri]))
              && (!Failed(r) && uri !in before ==> out.status == 404 && (out.complete ==> out.sent == "Not Found\n"))
            case Wants(Put(uri, body), _) =>
              && (!Failed(r) ==> after == before[uri := body])
              && (!Failed(r) && uri in before ==> out.status == 200 && (out.complete ==> out.sent == "OK\n"))
              && (!Failed(r) && uri !in before ==> out.status == 201 && (out.complete ==> out.sent == "Created\n"))
              && (out.status == 403 ==> after == before)
              && (out.status == 500 ==>
                    after == before || (uri in after && after == before[uri := after[uri]] && after[uri] <= body))
  {
    LogIsLinearization(run, acts, i, k);
  }

  /** Outside a PUT between open and audit, the live file is the replayed file. */
  lemma LiveFilesMatchLog(run: seq<State>, acts: seq<Action>, i: nat, uri: Uri)
    requires IsRun(run, acts) && i < |run|
    requires forall w :: 0 <= w < |run[i].workers| ==> !DirtyOn(run[i].workers[w], uri)
    ensures At(run[i].files, uri) == At(View(run[i]), uri)
  {
    SafeAlways(run, acts, i);
    assert LiveAt(run[i], uri);
  }

  /** A GET in progress sends the file of the log, and declared its length: it never sees a
      truncated or half-written file. */
  lemma ReadersSeeTheLog(run: seq<State>, acts: seq<Action>, i: nat, w: nat)
    requires IsRun(run, acts) && i < |run| && w < |run[i].workers|
    requires run[i].workers[w].Busy? && run[i].workers[w].phase.Sending?
    ensures var b := run[i].workers[w];
            var uri := Target(b.req);
            && uri in View(run[i]) && At(run[i].files, uri) == At(View(run[i]), uri)
            && b.phase.size == |View(run[i])[uri]|
            && b.phase.sent <= View(run[i])[uri]
  {
    SafeAlways(run, acts, i);
    assert FactsOf(run[i], w);
  }

  // ----- Replaying what was served ------------------------------------------------------------

  predicate Served(r: Record) { r.req.Wants? && !Failed(r) }

  /** The operations that were served, in log order. */
  function ServedOps(h: seq<Record>): seq<Op> {
    if h == [] then []
    else
      var p, r := ServedOps(h[..|h| - 1]), h[|h| - 1];
      if Served(r) then p + [r.req.op] else p
  }

  /** No PUT that failed with 500 has left anything in its file. */
  predicate Harmless(h: seq<Record>) {
    forall k :: 0 <= k < |h| && h[k].req.Wants? && h[k].req.op.Put? && h[k].out.status == 500 ==> h[k].effect.None?
  }

  lemma {:induction false} ServedReplay(init: Files, h: seq<Record>)
    requires Consistent(init, h) && Harmless(h)
    ensures Replay(init, h) == ReplayOps(init, ServedOps(h))
  {
    if h != [] {
      var n := |h| - 1;
      var p, r := h[..n], h[n];
      assert forall k :: 0 <= k < n ==> p[..k] == h[..k];
      ServedReplay(init, p);
      assert Agrees(Replay(init, p), r);
      if Served(r) {
        assert (ServedOps(p) + [r.req.op])[..|ServedOps(p)|] == ServedOps(p);
      }
    }
  }

  /** Whatever else is in the log, lines of requests turned down or failed included: if no failed
      PUT has left anything in its file, every request served was answered as the sequential
      store answers it after the requests served before, and an idle server has the files of
      that replay. */
  lemma ServedAnswers(run: seq<State>, acts: seq<Action>, i: nat)
    requires IsRun(run, acts) && i < |run| && Harmless(run[i].history)
    ensures var s := run[i];
            && (forall k :: 0 <= k < |s.history| && Served(s.history[k]) ==>
                  Answered(ReplayOps(s.init, ServedOps(s.history[..k])), s.history[k]))
            && ((forall w :: 0 <= w < |s.workers| ==> s.workers[w].Idle?) ==>
                  s.files == ReplayOps(s.init, ServedOps(s.history)))
  {
    SafeAlways(run, acts, i);
    var s := run[i];
    forall k | 0 <= k < |s.history| && Served(s.history[k])
      ensures Answered(ReplayOps(s.init, ServedOps(s.history[..k])), s.history[k])
    {
      var p := s.history[..k];
      assert forall j :: 0 <= j < k ==> p[..j] == s.history[..j];
      ServedReplay(s.init, p);
      assert Agrees(Replay(s.init, p), s.history[k]);
    }
    ServedReplay(s.init, s.history);
    if forall w :: 0 <= w < |s.workers| ==> s.workers[w].Idle? {
      QuietFiles(s);
    }
  }

  ghost predicate Answered(files: Files, r: Record)
    requires r.req.Wants?
  {
    Matches(r.out, Store.Respond(files, r.req.op))
  }

  // ----- The replay of watson.py -----------------------------------------------------------

  /** Every line is a GET or PUT that ran to its end. */
  predicate Clean(h: seq<Record>) {
    forall k :: 0 <= k < |h| ==> h[k].req.Wants? && !Failed(h[k])
  }

  function Ops(h: seq<Record>): seq<Op>
    requires Clean(h)
  {
    seq(|h|, k requires 0 <= k < |h| => h[k].req.op)
  }

  ghost predicate Consistent(init: Files, h: seq<Record>) {
    forall k :: 0 <= k < |h| ==> Agrees(Replay(init, h[..k]), h[k])
  }

  lemma {:induction false} CleanReplay(init: Files, h: seq<Record>)
    requires Clean(h) && Consistent(init, h)
    ensures Replay(init, h) == ReplayOps(init, Ops(h))
  {
    if h != [] {
      var n := |h| - 1;
      var p := h[..n];
      assert forall k :: 0 <= k < n ==> p[..k] == h[..k];
      CleanReplay(init, p);
      assert Ops(h)[..n] == Ops(p);
      assert Agrees(Replay(init, p), h[n]);
    }
  }

  /** The answer the log shows is the answer of the replay. */
  ghost predicate Replayed(init: Files, ops: seq<Op>, k: nat, out: Outcome)
    requires k < |ops|
  {
    Matches(out, Store.Respond(ReplayOps(init, ops[..k]), ops[k]))
  }

  lemma LineReplayed(init: Files, h: seq<Record>, k: nat)
    requires Clean(h) && Consistent(init, h) && k < |h|
    ensures Replayed(init, Ops(h), k, h[k].out)
  {
    CleanPrefix(init, h, k);
    CleanReplay(init, h[..k]);
    assert Agrees(Replay(init, h[..k]), h[k]);
  }

  lemma CleanPrefix(init: Files, h: seq<Record>, k: nat)
    requires Clean(h) && Consistent(init, h) && k < |h|
    ensures Clean(h[..k]) && Consistent(init, h[..k]) && Ops(h[..k]) == Ops(h)[..k] && Ops(h)[k] == h[k].req.op
  {
    assert forall j :: 0 <= j < k ==> h[..k][..j] == h[..j];
  }

  /** Between requests the live files are the replayed ones. */
  lemma QuietFiles(s: State)
    requires Linear(s) && forall w :: 0 <= w < |s.workers| ==> s.workers[w].Idle?
    ensures s.files == View(s)
  {
    forall uri ensures At(s.files, uri) == At(View(s), uri) {
      assert LiveAt(s, uri);
    }
    SameFiles(s.files, View(s));
  }

  /** The whole check of watson.py: replaying the requests in log order gives every client the
      status and the body it received, and leaves the files the server has. */
  lemma WatsonAccepts(run: seq<State>, acts: seq<Action>, i: nat)
    requires IsRun(run, acts) && i < |run| && Clean(run[i].history)
    ensures var s := run[i];
            var ops := Ops(s.history);
            && (forall k :: 0 <= k < |ops| ==> Replayed(s.init, ops, k, s.history[k].out))
            && ((forall w :: 0 <= w < |s.workers| ==> s.workers[w].Idle?) ==> s.files == ReplayOps(s.init, ops))
  {
    SafeAlways(run, acts, i);
    var s := run[i];
    forall k | 0 <= k < |s.history| ensures Replayed(s.init, Ops(s.history), k, s.history[k].out) {
      LineReplayed(s.init, s.history, k);
    }
    CleanReplay(s.init, s.history);
    if forall w :: 0 <= w < |s.workers| ==> s.workers[w].Idle? {
      QuietFiles(s);
    }
  }

  lemma SameFiles(f: Files, g: Files)
    requires forall uri :: At(f, uri) == At(g, uri)
    ensures f == g
  {
    forall uri ensures uri in f <==> uri in g {
      assert At(f, uri) == At(g, uri);
    }
    forall uri | uri in f ensures f[uri] == g[uri] {
      assert At(f, uri) == At(g, uri);
    }
  }

  // ----- Locks ---------------------------------------------------------------------------------

  /** An exclusive holder excludes every other holder of its URI. */
  lemma ExclusiveIsAlone(run: seq<State>, acts: seq<Action>, i: nat, v: nat, w: nat)
    requires IsRun(run, acts) && i < |run|
    requires v < |run[i].workers| && w < |run[i].workers| && v != w
    requires run[i].workers[v].Busy? && run[i].workers[v].hold == Exclusive
    requires run[i].workers[w].Busy? && Target(run[i].workers[w].req) == Target(run[i].workers[v].req)
    ensures run[i].workers[w].hold == NoLock
  {
    SafeAlways(run, acts, i);
  }

  /** A worker is kept waiting only by a conflicting request for the very same URI. */
  lemma BlockedBySameUri(run: seq<State>, acts: seq<Action>, i: nat, w: nat)
    requires IsRun(run, acts) && i < |run| && w < |run[i].workers|
    requires run[i].workers[w].Busy? && run[i].workers[w].phase.Lock?
    ensures run[i].workers[w].req.Wants?
    ensures !Granted(run[i], w) ==>
              exists v :: 0 <= v < |run[i].workers| && v != w && Holds(run[i].workers[v])
                && Target(run[i].workers[v].req) == Target(run[i].workers[w].req)
                && (run[i].workers[v].hold == Exclusive || run[i].workers[w].req.op.Put?)
  {
    SafeAlways(run, acts, i);
    var s := run[i];
    assert FactsOf(s, w);
    if !Granted(s, w) {
      var v :| 0 <= v < |s.workers| && v != w && Holds(s.workers[v])
        && LockName(s, s.workers[v]) == LockName(s, s.workers[w])
        && !(s.workers[v].hold == Shared && s.workers[w].req.op.Get?);
      assert FactsOf(s, v);
      LockPath.PathInjective(s.dir, Target(s.workers[v].req), Target(s.workers[w].req));
    }
  }
}

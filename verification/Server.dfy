/** The whole server: any number of workers over one file store, per-URI flocks, the log
    mutex and one sequential client log (src/httpserver.c, src/log.c).

    The store is flat and has no outside writers. A flock is held through the worker's own
    descriptor, so the lock table is read off the workers. */
module Server {
  import opened Options
  import opened Messages
  import opened Store
  import opened Worker
  import LockPath
  import Sherlock

  datatype State = State(
    dir: string,
    init: Files,
    files: Files,
    conns: map<int, Parsed>,
    events: seq<Sherlock.Event>,
    pending: set<int>,
    workers: seq<Worker>,
    mu: Option<nat>,
    history: seq<Record>,
    closed: set<int>)

  /** The client connects, logs other lines of a request, LOAD or UNLOAD, and waits for the end
      of a connection; a worker takes a queued connection or executes its next statement. */
  datatype Action =
    | Connect(c: int, req: Parsed)
    | Chatter(c: int)
    | Aside(load: bool)
    | Await(c: int)
    | Take(w: nat, c: int)
    | Work(w: nat, m: Move)

  predicate Holds(w: Worker) { w.Busy? && w.hold != NoLock }

  function LockName(s: State, w: Worker): string
    requires w.Busy?
  {
    LockPath.Path(s.dir, Target(w.req))
  }

  /** flock grants the lock: every other holder of that lockfile shares with it. */
  predicate Granted(s: State, w: nat)
    requires w < |s.workers| && s.workers[w].Busy? && s.workers[w].req.Wants?
  {
    forall v :: 0 <= v < |s.workers| && v != w && Holds(s.workers[v])
      && LockName(s, s.workers[v]) == LockName(s, s.workers[w])
      ==> s.workers[v].hold == Shared && s.workers[w].req.op.Get?
  }

  /** What conn_parse guarantees of a request it accepts. */
  ghost predicate Parseable(req: Parsed) {
    req.Wants? ==> LockPath.ParsedUri(req.op.uri)
  }

  function FileOf(s: State, w: Worker): Option<Bytes>
    requires w.Busy?
  {
    At(s.files, Target(w.req))
  }

  ghost predicate Enabled(s: State, a: Action) {
    match a
    case Connect(c, req) => c !in s.conns && Parseable(req)
    case Chatter(c) => c in s.conns
    case Aside(_) => true
    case Await(c) => c in s.closed && c in s.conns
    case Take(w, c) => w < |s.workers| && s.workers[w].Idle? && c in s.pending && c in s.conns
    case Work(w, m) =>
      && w < |s.workers|
      && s.workers[w].Busy?
      && Act(s.workers[w], FileOf(s, s.workers[w]), m) != Stuck
      && (s.workers[w].phase.Lock? && m == Go ==> Granted(s, w))
      && (s.workers[w].phase.Audit? ==> s.mu.None?)
  }

  ghost function Do(s: State, a: Action): State
    requires Enabled(s, a)
  {
    match a
    case Connect(c, req) =>
      s.(conns := s.conns[c := req], pending := s.pending + {c}, events := s.events + [Sherlock.Connect(c)])
    case Chatter(c) => s.(events := s.events + [Sherlock.Other(c)])
    case Aside(load) => s.(events := s.events + [if load then Sherlock.Load else Sherlock.Unload])
    case Await(c) => s.(events := s.events + [Sherlock.Wait(c)])
    case Take(w, c) =>
      s.(pending := s.pending - {c}, workers := s.workers[w := Busy(c, s.conns[c], NoLock, false, Parse)])
    case Work(w, m) =>
      var b := s.workers[w];
      var next := Act(b, FileOf(s, b), m);
      s.(workers := s.workers[w := next.worker],
         files := if next.write.Some? then s.files[Target(b.req) := next.write.value] else s.files,
         mu := if b.phase.Audit? then Some(w) else if b.phase.Unlog? then None else s.mu,
         history := if b.phase.Append? then s.history + [RecordOf(b, FileOf(s, b))] else s.history,
         closed := if b.phase.Close? then s.closed + {b.conn} else s.closed)
  }

  ghost predicate Init(s: State) {
    && |s.dir| <= LockPath.DIR_LIMIT
    && s.files == s.init
    && s.conns == map[] && s.events == [] && s.pending == {} && s.closed == {}
    && s.history == [] && s.mu == None
    && forall w :: 0 <= w < |s.workers| ==> s.workers[w].Idle?
  }

  /** A run: the states passed through and the actions between them. */
  ghost predicate IsRun(run: seq<State>, acts: seq<Action>) {
    && |run| == |acts| + 1
    && Init(run[0])
    && forall i :: 0 <= i < |acts| ==> Enabled(run[i], acts[i]) && run[i + 1] == Do(run[i], acts[i])
  }

  // ----- Replaying the log -----------------------------------------------------------------

  /** The files the log accounts for. */
  function Replay(init: Files, h: seq<Record>): Files {
    if h == [] then init else Commit(Replay(init, h[..|h| - 1]), h[|h| - 1])
  }

  function View(s: State): Files { Replay(s.init, s.history) }

  lemma ReplayExtends(init: Files, h: seq<Record>, r: Record)
    ensures Replay(init, h + [r]) == Commit(Replay(init, h), r)
  {
    assert (h + [r])[..|h|] == h;
  }

  // ----- The invariant ---------------------------------------------------------------------

  /** Every connection is queued, with one worker, or closed. */
  ghost predicate Owned(s: State) {
    && s.pending <= s.conns.Keys && s.closed <= s.conns.Keys && s.pending !! s.closed
    && (forall c :: c in s.conns ==> Parseable(s.conns[c]))
    && (forall w :: 0 <= w < |s.workers| && s.workers[w].Busy? ==>
          var b := s.workers[w];
          b.conn in s.conns && b.req == s.conns[b.conn] && b.conn !in s.pending && b.conn !in s.closed)
    && (forall v, w :: 0 <= v < w < |s.workers| && s.workers[v].Busy? && s.workers[w].Busy? ==>
          s.workers[v].conn != s.workers[w].conn)
  }

  /** Holders of one lockfile all share it, unless there is just one. */
  ghost predicate Exclusion(s: State) {
    forall v, w :: 0 <= v < w < |s.workers| && Holds(s.workers[v]) && Holds(s.workers[w])
      && LockName(s, s.workers[v]) == LockName(s, s.workers[w])
      ==> s.workers[v].hold == Shared && s.workers[w].hold == Shared
  }

  /** The log mutex is with the worker at Append or Unlog. */
  ghost predicate MutexOk(s: State) {
    && (s.mu.Some? ==> s.mu.value < |s.workers|)
    && forall w :: 0 <= w < |s.workers| ==>
         (s.mu == Some(w) <==> InLog(s.workers[w]))
  }

  ghost predicate FactsOf(s: State, w: nat)
    requires w < |s.workers|
  {
    var b := s.workers[w];
    b.Busy? ==> Facts(b, FileOf(s, b), At(View(s), Target(b.req)))
  }

  predicate DirtyOn(w: Worker, uri: Uri) { w.Busy? && w.dirty && Target(w.req) == uri }

  /** Outside a PUT that is being served, the live file is the replayed file. */
  ghost predicate LiveAt(s: State, uri: Uri) {
    (exists w :: 0 <= w < |s.workers| && DirtyOn(s.workers[w], uri)) || At(s.files, uri) == At(View(s), uri)
  }

  ghost predicate Linear(s: State) {
    && (forall w :: 0 <= w < |s.workers| ==> FactsOf(s, w))
    && (forall uri :: LiveAt(s, uri))
    && (forall i :: 0 <= i < |s.history| ==> Agrees(Replay(s.init, s.history[..i]), s.history[i]))
  }

  ghost predicate Safe(s: State) {
    Owned(s) && Exclusion(s) && MutexOk(s) && Linear(s) && |s.dir| <= LockPath.DIR_LIMIT
  }

  // ----- Each step keeps it ----------------------------------------------------------------

  /** What a worker's step changes outside files and log. */
  ghost predicate Shaped(s: State, t: State, w: nat)
    requires w < |s.workers| == |t.workers| && s.workers[w].Busy?
  {
    var b, n := s.workers[w], t.workers[w];
    && t.dir == s.dir && t.conns == s.conns && t.pending == s.pending
    && (forall v :: 0 <= v < |s.workers| && v != w ==> t.workers[v] == s.workers[v])
    && (n.Busy? ==> n.conn == b.conn && n.req == b.req)
    && (Holds(n) ==> n.hold == b.hold || (b.req.Wants? && Granted(s, w) && n.hold == Mode(b.req.op)))
    && (InLog(n) <==> b.phase.Audit? || b.phase.Append?)
    && t.closed == (if n.Idle? then s.closed + {b.conn} else s.closed)
    && t.mu == (if b.phase.Audit? then Some(w) else if b.phase.Unlog? then None else s.mu)
    && (b.phase.Audit? ==> s.mu.None?)
  }

  lemma WorkShaped(s: State, w: nat, m: Move)
    requires Enabled(s, Work(w, m))
    ensures Shaped(s, Do(s, Work(w, m)), w)
  {
    ActShape(s.workers[w], FileOf(s, s.workers[w]), m);
  }

  lemma OwnedFrame(s: State, t: State, w: nat)
    requires Owned(s) && w < |s.workers| == |t.workers| && s.workers[w].Busy? && Shaped(s, t, w)
    ensures Owned(t)
  {
  }

  lemma ExclusionFrame(s: State, t: State, w: nat)
    requires Exclusion(s) && w < |s.workers| == |t.workers| && s.workers[w].Busy? && Shaped(s, t, w)
    ensures Exclusion(t)
  {
  }

  lemma MutexFrame(s: State, t: State, w: nat)
    requires MutexOk(s) && w < |s.workers| == |t.workers| && s.workers[w].Busy? && Shaped(s, t, w)
    ensures MutexOk(t)
  {
  }

  lemma FrameStep(s: State, a: Action)
    requires Owned(s) && Exclusion(s) && MutexOk(s) && Enabled(s, a)
    ensures Owned(Do(s, a)) && Exclusion(Do(s, a)) && MutexOk(Do(s, a))
  {
    if a.Work? {
      WorkShaped(s, a.w, a.m);
      OwnedFrame(s, Do(s, a), a.w);
      ExclusionFrame(s, Do(s, a), a.w);
      MutexFrame(s, Do(s, a), a.w);
    }
  }

  /** Only an append moves the replayed files. */
  lemma ViewStep(s: State, a: Action)
    requires Enabled(s, a)
    ensures View(Do(s, a)) ==
            if a.Work? && s.workers[a.w].phase.Append?
            then Commit(View(s), RecordOf(s.workers[a.w], FileOf(s, s.workers[a.w])))
            else View(s)
  {
    if a.Work? && s.workers[a.w].phase.Append? {
      ReplayExtends(s.init, s.history, RecordOf(s.workers[a.w], FileOf(s, s.workers[a.w])));
    }
  }

  /** A worker that is granted a lock finds no change pending on its file. */
  lemma GrantedSeesLog(s: State, w: nat)
    requires Linear(s) && w < |s.workers| && s.workers[w].Busy? && s.workers[w].phase.Lock?
    requires s.workers[w].req.Wants? && Granted(s, w)
    ensures FileOf(s, s.workers[w]) == At(View(s), Target(s.workers[w].req))
  {
    var uri := Target(s.workers[w].req);
    assert LiveAt(s, uri) && FactsOf(s, w);
    forall v | 0 <= v < |s.workers| ensures !DirtyOn(s.workers[v], uri) {
      assert FactsOf(s, v);
    }
  }

  lemma AppendFacts(s: State, w: nat, m: Move)
    requires Enabled(s, Work(w, m)) && s.workers[w].phase.Append? && FactsOf(s, w)
    ensures FactsOf(Do(s, Work(w, m)), w)
  {
    ViewStep(s, Work(w, m));
    AppendAgrees(s.workers[w], FileOf(s, s.workers[w]), View(s));
  }

  lemma SelfFacts(s: State, w: nat, m: Move)
    requires Linear(s) && Enabled(s, Work(w, m))
    ensures FactsOf(Do(s, Work(w, m)), w)
  {
    var b := s.workers[w];
    assert FactsOf(s, w);
    if b.phase.Append? {
      AppendFacts(s, w, m);
    } else {
      ViewStep(s, Work(w, m));
      if b.phase.Lock? && m == Go {
        GrantedSeesLog(s, w);
      }
      ActKeepsFacts(b, FileOf(s, b), At(View(s), Target(b.req)), m);
    }
  }

  /** A step that changes a live or a replayed file holds its lock exclusively. */
  lemma ChangeIsExclusive(s: State, w: nat, m: Move)
    requires Linear(s) && Enabled(s, Work(w, m))
    ensures var b, t := s.workers[w], Do(s, Work(w, m));
            && (forall u :: u != Target(b.req) ==> At(t.files, u) == At(s.files, u) && At(View(t), u) == At(View(s), u))
            && (b.hold != Exclusive ==> t.files == s.files && View(t) == View(s))
  {
    var b := s.workers[w];
    assert FactsOf(s, w);
    ViewStep(s, Work(w, m));
    if !b.phase.Append? {
      if b.phase.Lock? && m == Go {
        GrantedSeesLog(s, w);
      }
      ActKeepsFacts(b, FileOf(s, b), At(View(s), Target(b.req)), m);
    }
  }

  /** A worker without a lock asserts nothing about files. */
  lemma UnlockedFacts(w: Worker, f: Option<Bytes>, g: Option<Bytes>, f': Option<Bytes>, g': Option<Bytes>)
    requires w.Busy? && w.hold == NoLock && Facts(w, f, g)
    ensures Facts(w, f', g')
  {
  }

  lemma OtherFacts(s: State, w: nat, m: Move, v: nat)
    requires Linear(s) && Exclusion(s) && Enabled(s, Work(w, m)) && v < |s.workers| && v != w
    ensures FactsOf(Do(s, Work(w, m)), v)
  {
    var t := Do(s, Work(w, m));
    var b, o := s.workers[w], s.workers[v];
    assert FactsOf(s, v);
    ChangeIsExclusive(s, w, m);
    if o.Busy? {
      var u := Target(o.req);
      if o.hold == NoLock {
        UnlockedFacts(o, FileOf(s, o), At(View(s), u), FileOf(t, o), At(View(t), u));
      } else {
        assert At(t.files, u) == At(s.files, u) && At(View(t), u) == At(View(s), u);
      }
    }
  }

  /** After any worker's step, the live file of a URI is the replayed one, or a PUT's change to
      it is pending. */
  lemma LiveStep(s: State, w: nat, m: Move, uri: Uri)
    requires Linear(s) && Enabled(s, Work(w, m))
    ensures LiveAt(Do(s, Work(w, m)), uri)
  {
    var b, t := s.workers[w], Do(s, Work(w, m));
    assert FactsOf(s, w) && LiveAt(s, uri);
    SelfFacts(s, w, m);
    ChangeIsExclusive(s, w, m);
    if exists v :: 0 <= v < |s.workers| && v != w && DirtyOn(s.workers[v], uri) {
      var v :| 0 <= v < |s.workers| && v != w && DirtyOn(s.workers[v], uri);
      assert DirtyOn(t.workers[v], uri);
    } else if uri != Target(b.req) {
      assert forall v :: 0 <= v < |s.workers| ==> !DirtyOn(s.workers[v], uri);
    } else {
      OwnLive(s, w, m);
    }
  }

  /** The stepping worker's own file: pending after the step, or equal to the replayed one. */
  lemma OwnLive(s: State, w: nat, m: Move)
    requires Linear(s) && Enabled(s, Work(w, m))
    requires forall v :: 0 <= v < |s.workers| && v != w ==> !DirtyOn(s.workers[v], Target(s.workers[w].req))
    ensures LiveAt(Do(s, Work(w, m)), Target(s.workers[w].req))
  {
    var b, t := s.workers[w], Do(s, Work(w, m));
    var uri := Target(b.req);
    assert FactsOf(s, w) && LiveAt(s, uri);
    ViewStep(s, Work(w, m));
    if !b.phase.Append? {
      if b.phase.Lock? && m == Go {
        GrantedSeesLog(s, w);
      }
      ActKeepsFacts(b, FileOf(s, b), At(View(s), uri), m);
      if b.dirty || Act(b, FileOf(s, b), m).write.Some? {
        assert DirtyOn(t.workers[w], uri);
      }
    }
  }

  lemma HistoryStep(s: State, a: Action, i: nat)
    requires Linear(s) && Enabled(s, a) && i < |Do(s, a).history|
    ensures Agrees(Replay(s.init, Do(s, a).history[..i]), Do(s, a).history[i])
  {
    var h := Do(s, a).history;
    if i < |s.history| {
      assert h[..i] == s.history[..i];
    } else {
      var b := s.workers[a.w];
      assert FactsOf(s, a.w);
      assert h[..i] == s.history;
      AppendAgrees(b, FileOf(s, b), View(s));
    }
  }

  lemma LinearStep(s: State, a: Action)
    requires Linear(s) && Exclusion(s) && Enabled(s, a)
    ensures Linear(Do(s, a))
  {
    var t := Do(s, a);
    forall i | 0 <= i < |t.history| ensures Agrees(Replay(t.init, t.history[..i]), t.history[i]) {
      HistoryStep(s, a, i);
    }
    if a.Work? {
      forall v | 0 <= v < |s.workers| ensures FactsOf(t, v) {
        if v == a.w { SelfFacts(s, v, a.m); } else { OtherFacts(s, a.w, a.m, v); }
      }
      forall uri ensures LiveAt(t, uri) {
        LiveStep(s, a.w, a.m, uri);
      }
    } else {
      forall v | 0 <= v < |s.workers| ensures FactsOf(t, v) {
        assert FactsOf(s, v);
      }
      forall uri ensures LiveAt(t, uri) {
        assert LiveAt(s, uri);
        if exists v :: 0 <= v < |s.workers| && DirtyOn(s.workers[v], uri) {
          var v :| 0 <= v < |s.workers| && DirtyOn(s.workers[v], uri);
          assert DirtyOn(t.workers[v], uri);
        }
      }
    }
  }

  lemma SafeStep(s: State, a: Action)
    requires Safe(s) && Enabled(s, a)
    ensures Safe(Do(s, a))
  {
    FrameStep(s, a);
    LinearStep(s, a);
  }

  lemma {:induction false} SafeAlways(run: seq<State>, acts: seq<Action>, i: nat)
    requires IsRun(run, acts) && i < |run|
    ensures Safe(run[i])
  {
    if i == 0 {
      assert forall uri :: LiveAt(run[0], uri);
    } else {
      SafeAlways(run, acts, i - 1);
      SafeStep(run[i - 1], acts[i - 1]);
    }
  }
}

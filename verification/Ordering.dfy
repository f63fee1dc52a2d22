/** The order of the audit log: lines appear once per request and respect real time, so the
    checker of test_scripts/sherlock.py accepts them. */
module Ordering {
  import opened Options
  import opened Messages
  import opened Worker
  import opened Server
  import Sherlock

  function Logged(h: seq<Record>): set<int> {
    set i | 0 <= i < |h| :: h[i].conn
  }

  lemma LoggedExtends(h: seq<Record>, r: Record)
    ensures Logged(h + [r]) == Logged(h) + {r.conn}
  {
    var g := h + [r];
    forall c | c in Logged(h) ensures c in Logged(g) {
      var i :| 0 <= i < |h| && h[i].conn == c;
      assert g[i].conn == c;
    }
    assert g[|h|].conn == r.conn;
  }

  predicate PastLog(p: Phase) { p.Unlog? || p.Release? || p.Close? }

  /** A request has a line exactly when its worker is past the append, or it is closed; an
      empty connection never has one. */
  ghost predicate Lines(s: State) {
    && (forall i :: 0 <= i < |s.history| ==>
          var r := s.history[i]; r.conn in s.conns && r.req == s.conns[r.conn] && r.req != Empty)
    && (forall i, j :: 0 <= i < j < |s.history| ==> s.history[i].conn != s.history[j].conn)
    && (forall w :: 0 <= w < |s.workers| && s.workers[w].Busy? ==>
          var b := s.workers[w];
          b.conn in Logged(s.history) <==> PastLog(b.phase) && b.req != Empty)
    && (forall c :: c in s.pending ==> c !in Logged(s.history))
    && (forall c :: c in s.closed ==> c in s.conns && (s.conns[c] != Empty ==> c in Logged(s.history)))
  }

  /** Where a statement leads, as far as the log line is concerned. */
  lemma PhaseStep(w: Worker, file: Option<Bytes>, view: Option<Bytes>, m: Move)
    requires w.Busy? && Facts(w, file, view) && Act(w, file, m) != Stuck
    ensures var n := Act(w, file, m).worker;
            && (n.Idle? <==> w.phase.Close?)
            && (n.Busy? ==> n.conn == w.conn && n.req == w.req)
            && (n.Busy? && w.req != Empty ==> (PastLog(n.phase) <==> PastLog(w.phase) || w.phase.Append?))
            && (w.phase.Append? ==> w.req != Empty)
  {
  }

  /** What a worker's step may change, with `r` the records it appends. */
  ghost predicate Stepped(s: State, t: State, w: nat, r: seq<Record>)
    requires w < |s.workers| == |t.workers| && s.workers[w].Busy?
  {
    var b, n := s.workers[w], t.workers[w];
    && t.conns == s.conns && t.pending == s.pending && t.history == s.history + r
    && (forall v :: 0 <= v < |s.workers| && v != w ==> t.workers[v] == s.workers[v])
    && t.closed == (if n.Idle? then s.closed + {b.conn} else s.closed)
    && (n.Idle? <==> b.phase.Close?)
    && (n.Busy? ==> n.conn == b.conn && n.req == b.req)
  }

  lemma WorkStepped(s: State, a: Action) returns (r: seq<Record>)
    requires Safe(s) && Enabled(s, a) && a.Work?
    ensures Stepped(s, Do(s, a), a.w, r)
    ensures var b, n := s.workers[a.w], Do(s, a).workers[a.w];
            && (n.Busy? && b.req != Empty ==> (PastLog(n.phase) <==> PastLog(b.phase) || b.phase.Append?))
            && (if b.phase.Append? then |r| == 1 && r[0].conn == b.conn && r[0].req == b.req && b.req != Empty else r == [])
  {
    var b := s.workers[a.w];
    assert FactsOf(s, a.w);
    PhaseStep(b, FileOf(s, b), At(View(s), Target(b.req)), a.m);
    r := if b.phase.Append? then [RecordOf(b, FileOf(s, b))] else [];
  }

  lemma LinesAppend(s: State, t: State, w: nat, r: Record)
    requires Owned(s) && Lines(s) && w < |s.workers| == |t.workers| && s.workers[w].Busy?
    requires Stepped(s, t, w, [r]) && s.workers[w].phase.Append?
    requires r.conn == s.workers[w].conn && r.req == s.workers[w].req != Empty
    requires t.workers[w].Busy? && PastLog(t.workers[w].phase)
    ensures Lines(t)
  {
    LoggedExtends(s.history, r);
    assert forall i :: 0 <= i < |s.history| ==> s.history[i].conn in Logged(s.history);
  }

  lemma LinesQuiet(s: State, t: State, w: nat)
    requires Owned(s) && Lines(s) && w < |s.workers| == |t.workers| && s.workers[w].Busy?
    requires Stepped(s, t, w, [])
    requires t.workers[w].Busy? && s.workers[w].req != Empty ==> PastLog(t.workers[w].phase) == PastLog(s.workers[w].phase)
    ensures Lines(t)
  {
    assert t.history == s.history;
  }

  lemma LinesStep(s: State, a: Action)
    requires Safe(s) && Lines(s) && Enabled(s, a)
    ensures Lines(Do(s, a))
  {
    if a.Work? {
      var r := WorkStepped(s, a);
      if r == [] {
        LinesQuiet(s, Do(s, a), a.w);
      } else {
        assert r == [r[0]];
        LinesAppend(s, Do(s, a), a.w, r[0]);
      }
    } else if a.Connect? {
      assert forall i :: 0 <= i < |s.history| ==> s.history[i].conn in Logged(s.history);
      assert a.c !in Logged(s.history);
    }
  }

  /** What the client's log has recorded so far, against the connections of the server. */
  ghost predicate Watched(s: State, o: Sherlock.Order) {
    && Sherlock.Recorded(s.events) == Some(o)
    && o.requests.Keys == s.conns.Keys
    && o.finished <= s.closed
    && (forall b :: b in o.requests ==> o.requests[b] <= s.closed)
  }

  /** A request that finished before another connected stands before it in the log. */
  ghost predicate Sorted(s: State, o: Sherlock.Order) {
    forall i, a :: 0 <= i < |s.history| && s.history[i].conn in o.requests
      && a in o.requests[s.history[i].conn] && a in s.conns && s.conns[a] != Empty
      ==> a in Logged(s.history[..i])
  }

  ghost predicate Ordered(s: State) {
    && Lines(s)
    && Sherlock.Recorded(s.events).Some?
    && Watched(s, Sherlock.Recorded(s.events).value)
    && Sorted(s, Sherlock.Recorded(s.events).value)
  }

  /** The client's next log line, if the action makes one. */
  ghost function LineOf(a: Action): Option<Sherlock.Event> {
    match a
    case Connect(c, _) => Some(Sherlock.Connect(c))
    case Chatter(c) => Some(Sherlock.Other(c))
    case Aside(load) => Some(if load then Sherlock.Load else Sherlock.Unload)
    case Await(c) => Some(Sherlock.Wait(c))
    case _ => None
  }

  lemma WatchedStep(s: State, a: Action, o: Sherlock.Order) returns (o': Sherlock.Order)
    requires Watched(s, o) && Enabled(s, a)
    ensures Watched(Do(s, a), o')
    ensures LineOf(a).Some? ==> Sherlock.Note(o, LineOf(a).value) == Some(o')
    ensures LineOf(a).None? ==> o' == o
  {
    var t := Do(s, a);
    if LineOf(a).Some? {
      assert t.events[..|t.events| - 1] == s.events;
      o' := Sherlock.Note(o, LineOf(a).value).value;
    } else {
      o' := o;
    }
  }

  lemma SortedStep(s: State, a: Action, o: Sherlock.Order, o': Sherlock.Order)
    requires Safe(s) && Lines(s) && Watched(s, o) && Sorted(s, o) && Enabled(s, a)
    requires LineOf(a).Some? ==> Sherlock.Note(o, LineOf(a).value) == Some(o')
    requires LineOf(a).None? ==> o' == o
    ensures Sorted(Do(s, a), o')
  {
    var t := Do(s, a);
    forall i, x | 0 <= i < |t.history| && t.history[i].conn in o'.requests
      && x in o'.requests[t.history[i].conn] && x in t.conns && t.conns[x] != Empty
      ensures x in Logged(t.history[..i])
    {
      if i < |s.history| {
        assert t.history[..i] == s.history[..i] && t.history[i] == s.history[i];
        var b := s.history[i].conn;
        assert b in s.conns && o'.requests[b] == o.requests[b];
        assert x in s.closed;
      } else {
        assert t.history[..i] == s.history;
        assert x in s.closed;
      }
    }
  }

  lemma OrderedStep(s: State, a: Action, t: State)
    requires Safe(s) && Ordered(s) && Enabled(s, a) && t == Do(s, a)
    ensures Ordered(t)
  {
    var o := Sherlock.Recorded(s.events).value;
    LinesStep(s, a);
    var o' := WatchedStep(s, a, o);
    SortedStep(s, a, o, o');
  }

  lemma OrderedInit(s: State)
    requires Init(s)
    ensures Ordered(s)
  {
  }

  lemma {:induction false} OrderedAlways(run: seq<State>, acts: seq<Action>, i: nat)
    requires IsRun(run, acts) && i < |run|
    ensures Ordered(run[i])
  {
    if i > 0 {
      SafeAlways(run, acts, i - 1);
      OrderedAlways(run, acts, i - 1);
      OrderedStep(run[i - 1], acts[i - 1], run[i]);
    } else {
      OrderedInit(run[0]);
    }
  }

  // ----- Theorems ----------------------------------------------------------------------------

  /** The Request-Id column of a line. */
  function RidOf(req: Parsed): int {
    match req
    case Empty => 0
    case Rejected(_, _, _, rid) => rid
    case Unsupported(_, rid) => rid
    case Wants(_, rid) => rid
  }

  function Rids(h: seq<Record>): seq<int> {
    seq(|h|, i requires 0 <= i < |h| => RidOf(h[i].req))
  }

  /** The server read back the id of every request it was sent. */
  ghost predicate ReadBack(s: State) {
    forall c :: c in s.conns && s.conns[c] != Empty ==> RidOf(s.conns[c]) == c
  }

  /** Moreover the client sent a request on every connection. */
  ghost predicate Faithful(s: State) {
    ReadBack(s) && forall c :: c in s.conns ==> s.conns[c] != Empty
  }

  lemma RidsAreConns(s: State)
    requires Lines(s) && ReadBack(s)
    ensures forall k :: 0 <= k < |s.history| ==> Rids(s.history)[k] == s.history[k].conn
    ensures forall k, a :: 0 <= k <= |s.history| ==> (a in Rids(s.history)[..k] <==> a in Logged(s.history[..k]))
  {
    var h, rids := s.history, Rids(s.history);
    assert forall k :: 0 <= k < |h| ==> rids[k] == h[k].conn;
    forall k, a | 0 <= k <= |h| ensures a in rids[..k] <==> a in Logged(h[..k]) {
      if a in rids[..k] {
        var l :| 0 <= l < k && rids[..k][l] == a;
        assert h[..k][l].conn == a;
      }
      if a in Logged(h[..k]) {
        var l :| 0 <= l < k && h[..k][l].conn == a;
        assert rids[..k][l] == a;
      }
    }
  }

  /** At every moment of every run the log names known requests, each at most once. Then
      sherlock.py accepts it if and only if no logged request connected after an empty
      connection was waited for: those have no line. */
  lemma AcceptedIffNoEmpty(run: seq<State>, acts: seq<Action>, i: nat)
    requires IsRun(run, acts) && i < |run| && ReadBack(run[i])
    ensures Sherlock.Recorded(run[i].events).Some?
    ensures var s, rids, requests := run[i], Rids(run[i].history), Sherlock.Recorded(run[i].events).value.requests;
            && (forall k :: 0 <= k < |rids| ==> rids[k] in requests)
            && (forall k, l :: 0 <= k < l < |rids| ==> rids[k] != rids[l])
            && (Sherlock.Respects(rids, requests) <==>
                  forall k, a :: 0 <= k < |rids| && a in requests[rids[k]] ==> a in s.conns && s.conns[a] != Empty)
  {
    OrderedAlways(run, acts, i);
    var s := run[i];
    var rids, requests := Rids(s.history), Sherlock.Recorded(s.events).value.requests;
    RidsAreConns(s);
    forall k, a | 0 <= k < |rids| && a in requests[rids[k]]
      ensures a in rids[..k] <==> a in s.conns && s.conns[a] != Empty
    {
      assert s.history[k].conn == rids[k];
      if a in Logged(s.history[..k]) {
        var l :| 0 <= l < k && s.history[..k][l].conn == a;
        assert s.history[l].conn == a;
      }
    }
  }

  /** With a request on every connection, sherlock.py accepts the log at every moment. */
  lemma LogAccepted(run: seq<State>, acts: seq<Action>, i: nat)
    requires IsRun(run, acts) && i < |run| && Faithful(run[i])
    ensures Sherlock.Recorded(run[i].events).Some?
    ensures var rids, requests := Rids(run[i].history), Sherlock.Recorded(run[i].events).value.requests;
            && (forall k :: 0 <= k < |rids| ==> rids[k] in requests)
            && (forall k, l :: 0 <= k < l < |rids| ==> rids[k] != rids[l])
            && Sherlock.Respects(rids, requests)
  {
    AcceptedIffNoEmpty(run, acts, i);
    OrderedAlways(run, acts, i);
    SafeAlways(run, acts, i);
    OnlyConnections(run[i], Sherlock.Recorded(run[i].events).value);
  }

  /** Predecessors are connections. */
  lemma OnlyConnections(s: State, o: Sherlock.Order)
    requires Owned(s) && Watched(s, o)
    ensures forall a, b :: b in o.requests && a in o.requests[b] ==> a in s.conns
  {
  }

  /** Once every connection is closed, the log names each request exactly once. */
  lemma LogComplete(run: seq<State>, acts: seq<Action>, i: nat)
    requires IsRun(run, acts) && i < |run| && ReadBack(run[i])
    requires run[i].closed == run[i].conns.Keys
    ensures forall b :: b in Rids(run[i].history) <==> b in run[i].conns && run[i].conns[b] != Empty
  {
    OrderedAlways(run, acts, i);
    var s := run[i];
    var h := s.history;
    RidsAreConns(s);
    assert Rids(h)[..|h|] == Rids(h) && h[..|h|] == h;
    forall b ensures b in Logged(h) <==> b in s.conns && s.conns[b] != Empty {
      if b in Logged(h) {
        var l :| 0 <= l < |h| && h[l].conn == b;
      }
    }
  }

  lemma EventsStep(s: State, a: Action)
    requires Ordered(s) && Enabled(s, a) && Sherlock.WellFormed(s.events)
    ensures Sherlock.WellFormed(Do(s, a).events)
  {
    if LineOf(a).Some? {
      Sherlock.RecordedMeaning(s.events);
      Sherlock.WellFormedExtends(s.events, LineOf(a).value);
    }
  }

  /** The client's log of any run is of the kind the checker is exact for. */
  lemma {:induction false} EventsWellFormed(run: seq<State>, acts: seq<Action>, i: nat)
    requires IsRun(run, acts) && i < |run|
    ensures Sherlock.WellFormed(run[i].events)
  {
    if i > 0 {
      EventsWellFormed(run, acts, i - 1);
      OrderedAlways(run, acts, i - 1);
      EventsStep(run[i - 1], acts[i - 1]);
    }
  }

  /** Whatever request the client saw end before it connected again stands in the log in that
      order, in every run: the audit log extends the order of the client's own log. */
  lemma LogExtendsClientOrder(run: seq<State>, acts: seq<Action>, i: nat, a: int, k: nat)
    requires IsRun(run, acts) && i < |run| && k < |run[i].history|
    requires Sherlock.Before(run[i].events, a, run[i].history[k].conn)
    ensures a in run[i].conns
    ensures (exists l :: 0 <= l < k && run[i].history[l].conn == a) <==> run[i].conns[a] != Empty
  {
    var s := run[i];
    EventsWellFormed(run, acts, i);
    Sherlock.RecordedMeaning(s.events);
    OrderedAlways(run, acts, i);
    SafeAlways(run, acts, i);
    LoggedBefore(s, Sherlock.Recorded(s.events).value, a, k);
  }

  lemma LoggedBefore(s: State, o: Sherlock.Order, a: int, k: nat)
    requires Owned(s) && Lines(s) && Watched(s, o) && Sorted(s, o) && k < |s.history|
    requires s.history[k].conn in o.requests && a in o.requests[s.history[k].conn]
    ensures a in s.conns && ((exists l :: 0 <= l < k && s.history[l].conn == a) <==> s.conns[a] != Empty)
  {
    OnlyConnections(s, o);
    if s.conns[a] != Empty {
      assert a in Logged(s.history[..k]);
      var l :| 0 <= l < k && s.history[..k][l].conn == a;
      assert s.history[l].conn == a;
    }
  }

  lemma {:induction false} HistoryGrows(run: seq<State>, acts: seq<Action>, i: nat, j: nat)
    requires IsRun(run, acts) && i <= j < |run|
    ensures run[i].history <= run[j].history
    decreases j
  {
    if i < j {
      HistoryGrows(run, acts, i, j - 1);
    }
  }

  /** Real time: a request that connects after another was closed is logged after it. */
  lemma RealTime(run: seq<State>, acts: seq<Action>, i: nat, j: nat, a: int, b: int, k: nat)
    requires IsRun(run, acts) && i <= j < |run|
    requires a in run[i].closed && a in run[i].conns && run[i].conns[a] != Empty
    requires b !in run[i].conns
    requires k < |run[j].history| && run[j].history[k].conn == b
    ensures exists l :: 0 <= l < k && run[j].history[l].conn == a
  {
    OrderedAlways(run, acts, i);
    OrderedAlways(run, acts, j);
    HistoryGrows(run, acts, i, j);
    var h := run[i].history;
    assert a in Logged(h);
    var l :| 0 <= l < |h| && h[l].conn == a;
    assert run[j].history[l] == h[l];
  }

  // ----- A run with an empty connection --------------------------------------------------------------

  /** Some run leads to `s`. */
  ghost predicate Reachable(s: State) {
    exists run, acts :: IsRun(run, acts) && run[|run| - 1] == s
  }

  lemma ReachableStep(s: State, a: Action, t: State)
    requires Reachable(s) && Enabled(s, a) && t == Do(s, a)
    ensures Reachable(t)
  {
    var run: seq<State>, acts: seq<Action> :| IsRun(run, acts) && run[|run| - 1] == s;
    var longer, more := run + [t], acts + [a];
    forall i | 0 <= i < |more| ensures Enabled(longer[i], more[i]) && longer[i + 1] == Do(longer[i], more[i]) {
      if i < |acts| {
        assert longer[i + 1] == run[i + 1] && longer[i] == run[i] && more[i] == acts[i];
      }
    }
    assert IsRun(longer, more) && longer[|longer| - 1] == t;
  }

  /** A connection comes in and the only worker takes it. */
  lemma Begins(s: State, c: int, req: Parsed) returns (t: State)
    requires Reachable(s) && s.workers == [Idle] && c !in s.conns && Parseable(req)
    ensures Reachable(t) && t.workers == [Busy(c, req, NoLock, false, Parse)] && t.conns == s.conns[c := req]
    ensures t.events == s.events + [Sherlock.Connect(c)] && t.mu == s.mu && t.history == s.history && t.closed == s.closed
  {
    var u := Do(s, Server.Connect(c, req));
    ReachableStep(s, Server.Connect(c, req), u);
    t := Do(u, Take(0, c));
    ReachableStep(u, Take(0, c), t);
  }

  /** Its next statement, outside the append. */
  lemma Goes(s: State, next: Worker) returns (t: State)
    requires Reachable(s) && |s.workers| == 1 && s.workers[0].Busy? && !s.workers[0].phase.Lock?
    requires !s.workers[0].phase.Append? && (s.workers[0].phase.Audit? ==> s.mu.None?)
    requires Act(s.workers[0], FileOf(s, s.workers[0]), Go) == Next(next, None)
    ensures Reachable(t) && t.workers == [next] && t.conns == s.conns && t.events == s.events && t.history == s.history
    ensures !s.workers[0].phase.Audit? && s.mu.None? ==> t.mu.None?
    ensures t.closed == if s.workers[0].phase.Close? then s.closed + {s.workers[0].conn} else s.closed
  {
    t := Do(s, Work(0, Go));
    ReachableStep(s, Work(0, Go), t);
  }

  /** The client connects, sends nothing, and waits for the end. */
  lemma EmptyConnection() returns (s: State)
    ensures Reachable(s) && s.workers == [Idle] && s.mu.None? && s.history == []
    ensures s.conns == map[0 := Empty] && s.events == [Sherlock.Connect(0), Sherlock.Wait(0)]
  {
    s := State("", map[], map[], map[], [], {}, [Idle], None, [], {});
    assert IsRun([s], []) && [s][0] == s;
    s := Begins(s, 0, Empty);
    s := Goes(s, Busy(0, Empty, NoLock, false, Close));
    s := Goes(s, Idle);
    var t := Do(s, Await(0));
    ReachableStep(s, Await(0), t);
    s := t;
  }

  /** Then it sends a request, which is logged. */
  lemma RequestAfterwards(s: State) returns (t: State)
    requires Reachable(s) && s.workers == [Idle] && s.mu.None? && s.history == [] && 1 !in s.conns
    ensures Reachable(t) && t.conns == s.conns[1 := Unsupported("a", 1)] && t.events == s.events + [Sherlock.Connect(1)]
    ensures |t.history| == 1 && t.history[0].conn == 1
  {
    var req := Unsupported("a", 1);
    var out := Outcome(501, |StatusBody(501)|, StatusBody(501), true);
    var u := Begins(s, 1, req);
    u := Goes(u, Busy(1, req, NoLock, false, Phase.Respond(501)));
    u := Goes(u, Busy(1, req, NoLock, false, Audit(out)));
    t := Appends(u, out);
  }

  /** The only worker takes the log mutex and appends its line. */
  lemma Appends(s: State, out: Outcome) returns (t: State)
    requires Reachable(s) && |s.workers| == 1 && s.workers[0].Busy? && s.workers[0].phase == Audit(out) && s.mu.None?
    ensures Reachable(t) && t.conns == s.conns && t.events == s.events
    ensures |t.history| == |s.history| + 1 && t.history[|s.history|].conn == s.workers[0].conn
  {
    var u := Goes(s, s.workers[0].(phase := Append(out)));
    t := Do(u, Work(0, Go));
    ReachableStep(u, Work(0, Go), t);
  }

  /** So sherlock.py does not accept the log of every run: one with an empty connection that the
      client waited for. */
  lemma EmptyConnectionIsNotAccepted() returns (s: State)
    ensures Reachable(s) && ReadBack(s) && Sherlock.Recorded(s.events).Some?
    ensures var rids, requests := Rids(s.history), Sherlock.Recorded(s.events).value.requests;
            (forall k :: 0 <= k < |rids| ==> rids[k] in requests) && !Sherlock.Respects(rids, requests)
  {
    var e := EmptyConnection();
    s := RequestAfterwards(e);
    var run: seq<State>, acts: seq<Action> :| IsRun(run, acts) && run[|run| - 1] == s;
    AcceptedIffNoEmpty(run, acts, |run| - 1);
    EventsWellFormed(run, acts, |run| - 1);
    Sherlock.RecordedMeaning(s.events);
    assert s.events[1] == Sherlock.Wait(0) && s.events[2] == Sherlock.Connect(1);
    assert Sherlock.Before(s.events, 0, 1);
    OrderedAlways(run, acts, |run| - 1);
    RidsAreConns(s);
    assert Rids(s.history)[0] == 1;
  }
}

/** Progress of the server: some worker can always move, every move brings the end of some
    request closer, and so every accepted request is eventually closed. */
module Progress {
  import opened Options
  import opened Sums
  import opened Messages
  import opened Worker
  import opened Server

  /** Moves of the server itself; an interrupted flock is retried and changes nothing. */
  predicate ServerMove(a: Action) { a.Take? || (a.Work? && a.m != Retry) }

  const QUEUED: nat := 20

  function Rank(w: Worker): nat {
    if w.Idle? then 0 else
      match w.phase
      case Parse => 15
      case Lock => 14
      case GetOpen => 13
      case GetStat => 12
      case Sending(_, _) => 11
      case PutCheck => 13
      case PutOpen(_) => 12
      case PutTruncate(_) => 11
      case Receiving(_, _) => 10
      case Respond(_) => 9
      case Audit(_) => 8
      case Append(_) => 7
      case Unlog => 6
      case Release => 5
      case Close => 4
  }

  /** Bytes still to be moved by a streaming statement. */
  function Left(w: Worker): nat {
    if w.Busy? && w.phase.Sending? && |w.phase.sent| <= w.phase.size then w.phase.size - |w.phase.sent|
    else if w.Busy? && w.phase.Receiving? && w.req.Wants? && w.req.op.Put? && w.phase.got <= |w.req.op.body|
    then |w.req.op.body| - w.phase.got
    else 0
  }

  lemma ActDecreases(w: Worker, file: Option<Bytes>, m: Move)
    requires w.Busy? && Act(w, file, m) != Stuck && m != Retry
    ensures var n := Act(w, file, m).worker;
            Rank(n) < Rank(w) || (Rank(n) == Rank(w) && Left(n) < Left(w))
  {
  }

  function Total(s: State): nat { QUEUED * |s.pending| + Sum(s.workers, Rank) }
  function Rest(s: State): nat { Sum(s.workers, Left) }

  /** Each move brings the pair (Total, Rest) down in lexicographic order. */
  lemma MoveDecreases(s: State, a: Action)
    requires Enabled(s, a) && ServerMove(a)
    ensures Total(Do(s, a)) < Total(s) || (Total(Do(s, a)) == Total(s) && Rest(Do(s, a)) < Rest(s))
  {
    var t := Do(s, a);
    SumUpdate(s.workers, a.w, t.workers[a.w], Rank);
    SumUpdate(s.workers, a.w, t.workers[a.w], Left);
    if a.Work? {
      ActDecreases(s.workers[a.w], FileOf(s, s.workers[a.w]), a.m);
    } else {
      assert |s.pending - {a.c}| == |s.pending| - 1;
    }
  }

  /** The statement that goes well. */
  function NextMove(w: Worker, file: Option<Bytes>): Move
    requires w.Busy?
  {
    if w.phase.Sending? && file.Some? && |w.phase.sent| < w.phase.size && |w.phase.sent| < |file.value| then Chunk(1)
    else if w.phase.Receiving? && w.req.Wants? && w.req.op.Put? && w.phase.got < |w.req.op.body| then Chunk(1)
    else Go
  }

  lemma CanAct(w: Worker, file: Option<Bytes>, view: Option<Bytes>)
    requires w.Busy? && Facts(w, file, view)
    ensures Act(w, file, NextMove(w, file)) != Stuck
  {
  }

  ghost predicate Quiet(s: State) {
    s.pending == {} && forall w :: 0 <= w < |s.workers| ==> s.workers[w].Idle?
  }

  ghost predicate CanMove(s: State) {
    exists a :: ServerMove(a) && Enabled(s, a)
  }

  /** A worker that is neither waiting for a lock nor for the log mutex can move. */
  lemma RunningCanMove(s: State, w: nat)
    requires Safe(s) && w < |s.workers| && s.workers[w].Busy? && !s.workers[w].phase.Lock?
    ensures CanMove(s)
  {
    var b := s.workers[w];
    assert FactsOf(s, w);
    CanAct(b, FileOf(s, b), At(View(s), Target(b.req)));
    if b.phase.Audit? && s.mu.Some? {
      var v := s.mu.value;
      var o := s.workers[v];
      assert InLog(o) && FactsOf(s, v);
      CanAct(o, FileOf(s, o), At(View(s), Target(o.req)));
      assert Enabled(s, Work(v, NextMove(o, FileOf(s, o))));
    } else {
      assert Enabled(s, Work(w, NextMove(b, FileOf(s, b))));
    }
  }

  /** No deadlock: with a request unfinished, some worker can move. */
  lemma NeverStuck(s: State)
    requires Safe(s) && |s.workers| > 0 && !Quiet(s)
    ensures CanMove(s)
  {
    if w :| 0 <= w < |s.workers| && s.workers[w].Busy? {
      assert FactsOf(s, w);
      if !s.workers[w].phase.Lock? {
        RunningCanMove(s, w);
      } else if Granted(s, w) {
        assert Enabled(s, Work(w, Go));
      } else {
        var v :| 0 <= v < |s.workers| && v != w && Holds(s.workers[v]);
        assert FactsOf(s, v);
        RunningCanMove(s, v);
      }
    } else {
      assert forall w :: 0 <= w < |s.workers| ==> s.workers[w].Idle?;
      var c := Pick(s.pending);
      assert Enabled(s, Take(0, c));
    }
  }

  // ----- Every request is closed ---------------------------------------------------------------

  /** No connection is lost: it is queued, with a worker, or closed. */
  ghost predicate Tracked(s: State) {
    forall c :: c in s.conns ==> c in s.pending || c in s.closed || InHand(s, c)
  }

  ghost predicate InHand(s: State, c: int) {
    exists w :: 0 <= w < |s.workers| && s.workers[w].Busy? && s.workers[w].conn == c
  }

  lemma TrackedStep(s: State, a: Action)
    requires Tracked(s) && Enabled(s, a)
    ensures Tracked(Do(s, a))
  {
    var t := Do(s, a);
    if a.Work? {
      WorkShaped(s, a.w, a.m);
    }
    forall c | c in t.conns ensures c in t.pending || c in t.closed || InHand(t, c) {
      if InHand(s, c) {
        var w :| 0 <= w < |s.workers| && s.workers[w].Busy? && s.workers[w].conn == c;
        assert (t.workers[w].Busy? && t.workers[w].conn == c) || c in t.closed;
      } else if a.Take? && c == a.c {
        assert t.workers[a.w].Busy? && t.workers[a.w].conn == c;
      }
    }
  }

  lemma {:induction false} TrackedAlways(run: seq<State>, acts: seq<Action>, i: nat)
    requires IsRun(run, acts) && i < |run|
    ensures Tracked(run[i])
  {
    if i > 0 {
      TrackedAlways(run, acts, i - 1);
      TrackedStep(run[i - 1], acts[i - 1]);
    }
  }

  ghost predicate Moves(s: State, t: State) {
    exists a :: ServerMove(a) && Enabled(s, a) && t == Do(s, a)
  }

  /** An infinite future in which the server goes on as long as it can, with no new clients. */
  ghost predicate Future(f: nat -> State) {
    forall i: nat :: Moves(f(i), f(i + 1)) || (f(i + 1) == f(i) && !CanMove(f(i)))
  }

  lemma Later(f: nat -> State) returns (g: nat -> State)
    requires Future(f)
    ensures Future(g) && forall i: nat :: g(i) == f(i + 1)
  {
    g := (i: nat) => f(i + 1);
    forall i: nat ensures Moves(g(i), g(i + 1)) || (g(i + 1) == g(i) && !CanMove(g(i))) {
      assert g(i) == f(i + 1) && g(i + 1) == f(i + 1 + 1);
    }
  }

  lemma MoveKeeps(s: State, a: Action, t: State)
    requires Safe(s) && Tracked(s) && ServerMove(a) && Enabled(s, a) && t == Do(s, a)
    ensures Safe(t) && Tracked(t) && |t.workers| == |s.workers| && t.conns == s.conns
    ensures Total(t) < Total(s) || (Total(t) == Total(s) && Rest(t) < Rest(s))
  {
    SafeStep(s, a);
    TrackedStep(s, a);
    MoveDecreases(s, a);
  }

  lemma {:induction false} Drains(f: nat -> State) returns (n: nat)
    requires Future(f) && Safe(f(0)) && Tracked(f(0)) && |f(0).workers| > 0
    ensures Quiet(f(n)) && Tracked(f(n)) && Safe(f(n)) && f(n).conns == f(0).conns
    decreases Total(f(0)), Rest(f(0))
  {
    if Quiet(f(0)) {
      n := 0;
    } else {
      NeverStuck(f(0));
      assert Moves(f(0), f(0 + 1));
      var a :| ServerMove(a) && Enabled(f(0), a) && f(1) == Do(f(0), a);
      MoveKeeps(f(0), a, f(1));
      var g := Later(f);
      var k := Drains(g);
      n := k + 1;
    }
  }

  /** From any reachable state, every connection made so far is eventually closed. */
  lemma EveryRequestIsClosed(run: seq<State>, acts: seq<Action>, i: nat, f: nat -> State) returns (n: nat)
    requires IsRun(run, acts) && i < |run| && |run[i].workers| > 0
    requires Future(f) && f(0) == run[i]
    ensures f(n).closed == run[i].conns.Keys
  {
    SafeAlways(run, acts, i);
    TrackedAlways(run, acts, i);
    n := Drains(f);
    forall c | c in run[i].conns ensures c in f(n).closed {
      assert !InHand(f(n), c);
    }
  }
}

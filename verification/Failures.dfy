/** Why a request fails: a logged line reports an error, or an answer cut short, exactly when an
    error happened to the worker that served it. */
module Failures {
  import opened Options
  import opened Messages
  import opened Store
  import opened Worker
  import opened Server
  import opened Linearization
  import opened Ordering

  /** What can go wrong with a GET or PUT: it is answered with an error status, or its answer is
      not sent whole. */
  datatype Trouble = Answer(status: nat) | CutShort

  predicate Bad(t: Trouble) { t.CutShort? || t.status == 403 || t.status == 500 }

  /** The worker is on its way to a line that shows the trouble. */
  predicate Marked(t: Trouble, w: Worker) {
    w.Busy? &&
    match t
    case Answer(st) =>
      w.req.Wants? && (w.phase == Phase.Respond(st) || ((w.phase.Audit? || w.phase.Append?) && w.phase.out.status == st))
    case CutShort => (w.phase.Audit? || w.phase.Append?) && !w.phase.out.complete
  }

  /** This end of a statement is the trouble: a system call that fails with that status, or the
      sending of an answer that breaks off. */
  predicate Causes(t: Trouble, w: Worker, m: Move) {
    w.Busy? &&
    match t
    case Answer(st) => w.req.Wants? && m == Fail(st) && !w.phase.Sending?
    case CutShort => (w.phase.Sending? && m.Fail?) || (w.phase.Respond? && m.Chunk?)
  }

  /** The line shows the trouble. */
  predicate Shows(t: Trouble, r: Record) {
    match t
    case Answer(st) => r.req.Wants? && r.out.status == st
    case CutShort => !r.out.complete
  }

  lemma MarkStep(t: Trouble, w: Worker, file: Option<Bytes>, m: Move)
    requires Bad(t) && w.Busy? && Act(w, file, m) != Stuck && !w.phase.Append?
    ensures Marked(t, Act(w, file, m).worker) <==> Marked(t, w) || Causes(t, w, m)
  {
  }

  /** At step `j` worker `w`, serving connection `c`, meets the trouble. */
  ghost predicate CausedAt(run: seq<State>, acts: seq<Action>, j: nat, w: nat, c: int, t: Trouble)
    requires IsRun(run, acts)
  {
    && j < |acts| && acts[j].Work? && acts[j].w == w && w < |run[j].workers|
    && Causes(t, run[j].workers[w], acts[j].m) && run[j].workers[w].conn == c
  }

  /** How a step changes one worker. */
  lemma WorkerStep(s: State, a: Action, w: nat)
    requires Enabled(s, a) && w < |s.workers|
    ensures w < |Do(s, a).workers| == |s.workers|
    ensures a.Work? && a.w == w ==>
              s.workers[w].Busy? && Do(s, a).workers[w] == Act(s.workers[w], FileOf(s, s.workers[w]), a.m).worker
    ensures a.Take? && a.w == w ==> s.workers[w].Idle? && Do(s, a).workers[w].Busy? && Do(s, a).workers[w].phase.Parse?
    ensures !((a.Work? || a.Take?) && a.w == w) ==> Do(s, a).workers[w] == s.workers[w]
  {
  }

  lemma MarkedBefore(s: State, a: Action, r: State, w: nat, t: Trouble)
    requires Enabled(s, a) && r == Do(s, a) && w < |s.workers| == |r.workers| && Bad(t) && Marked(t, r.workers[w])
    ensures s.workers[w].Busy? && s.workers[w].conn == r.workers[w].conn
    ensures Marked(t, s.workers[w]) || (a.Work? && a.w == w && Causes(t, s.workers[w], a.m))
  {
    WorkerStep(s, a, w);
    if a.Work? && a.w == w {
      var file := FileOf(s, s.workers[w]);
      ActShape(s.workers[w], file, a.m);
      if !s.workers[w].phase.Append? {
        MarkStep(t, s.workers[w], file, a.m);
      }
    }
  }

  lemma {:induction false} SameWorkers(run: seq<State>, acts: seq<Action>, i: nat)
    requires IsRun(run, acts) && i < |run|
    ensures |run[i].workers| == |run[0].workers|
  {
    if i > 0 {
      SameWorkers(run, acts, i - 1);
    }
  }

  /** A marked worker met the trouble before. */
  lemma {:induction false} MarkIsCaused(run: seq<State>, acts: seq<Action>, i: nat, w: nat, t: Trouble) returns (j: nat)
    requires IsRun(run, acts) && i < |run| && w < |run[i].workers| && Bad(t) && Marked(t, run[i].workers[w])
    ensures j < i && CausedAt(run, acts, j, w, run[i].workers[w].conn, t)
  {
    j := 0;
    SameWorkers(run, acts, i);
    if i > 0 {
      SameWorkers(run, acts, i - 1);
      MarkedBefore(run[i - 1], acts[i - 1], run[i], w, t);
      if Marked(t, run[i - 1].workers[w]) {
        j := MarkIsCaused(run, acts, i - 1, w, t);
      } else {
        j := i - 1;
      }
    }
  }

  /** The line appended by a step. */
  lemma LineStep(s: State, a: Action)
    requires Enabled(s, a)
    ensures s.history <= Do(s, a).history && |Do(s, a).history| <= |s.history| + 1
    ensures |Do(s, a).history| > |s.history| <==> a.Work? && s.workers[a.w].phase.Append?
    ensures a.Work? && s.workers[a.w].phase.Append? ==>
              var b, r := s.workers[a.w], Do(s, a).history[|s.history|];
              r.conn == b.conn && r.req == b.req && r.out == b.phase.out
  {
  }

  lemma AppendShows(t: Trouble, b: Worker, r: Record)
    requires b.Busy? && b.phase.Append? && r.conn == b.conn && r.req == b.req && r.out == b.phase.out
    ensures Shows(t, r) <==> Marked(t, b)
  {
  }

  /** A line that shows the trouble was caused by it. */
  lemma {:induction false} ShownIsCaused(run: seq<State>, acts: seq<Action>, i: nat, k: nat, t: Trouble)
    returns (j: nat, w: nat)
    requires IsRun(run, acts) && i < |run| && k < |run[i].history| && Bad(t) && Shows(t, run[i].history[k])
    ensures j < i && CausedAt(run, acts, j, w, run[i].history[k].conn, t)
  {
    j, w := 0, 0;
    if i > 0 {
      var s, a := run[i - 1], acts[i - 1];
      LineStep(s, a);
      if k < |s.history| {
        j, w := ShownIsCaused(run, acts, i - 1, k, t);
      } else {
        w := a.w;
        AppendShows(t, s.workers[w], run[i].history[k]);
        j := MarkIsCaused(run, acts, i - 1, w, t);
      }
    }
  }

  /** The trouble met leaves its mark until the line shows it. */
  ghost predicate Kept(s: State, w: nat, c: int, t: Trouble) {
    || (w < |s.workers| && Marked(t, s.workers[w]) && s.workers[w].conn == c)
    || exists k :: 0 <= k < |s.history| && s.history[k].conn == c && Shows(t, s.history[k])
  }

  lemma KeptStep(s: State, a: Action, w: nat, c: int, t: Trouble)
    requires Enabled(s, a) && Bad(t) && Kept(s, w, c, t)
    ensures Kept(Do(s, a), w, c, t)
  {
    var r := Do(s, a);
    LineStep(s, a);
    if k :| 0 <= k < |s.history| && s.history[k].conn == c && Shows(t, s.history[k]) {
      assert r.history[k] == s.history[k];
    } else {
      WorkerStep(s, a, w);
      if a.Work? && a.w == w {
        var b := s.workers[w];
        ActShape(b, FileOf(s, b), a.m);
        if b.phase.Append? {
          AppendShows(t, b, r.history[|s.history|]);
        } else {
          MarkStep(t, b, FileOf(s, b), a.m);
        }
      }
    }
  }

  lemma {:induction false} CauseIsKept(run: seq<State>, acts: seq<Action>, j: nat, i: nat, w: nat, c: int, t: Trouble)
    requires IsRun(run, acts) && j < i < |run| && Bad(t) && CausedAt(run, acts, j, w, c, t)
    ensures Kept(run[i], w, c, t)
    decreases i
  {
    if i == j + 1 {
      var s, a := run[j], acts[j];
      WorkerStep(s, a, w);
      ActShape(s.workers[w], FileOf(s, s.workers[w]), a.m);
      MarkStep(t, s.workers[w], FileOf(s, s.workers[w]), a.m);
    } else {
      CauseIsKept(run, acts, j, i - 1, w, c, t);
      KeptStep(run[i - 1], acts[i - 1], w, c, t);
    }
  }

  /** In every run, a line shows an error status or an answer cut short, if and only if a worker
      serving that connection met that very error before. */
  lemma TroubleExact(run: seq<State>, acts: seq<Action>, i: nat, k: nat, t: Trouble)
    requires IsRun(run, acts) && i < |run| && k < |run[i].history| && Bad(t)
    ensures Shows(t, run[i].history[k]) <==>
              exists j, w :: 0 <= j < i && 0 <= w && CausedAt(run, acts, j, w, run[i].history[k].conn, t)
  {
    var s, c := run[i], run[i].history[k].conn;
    if Shows(t, s.history[k]) {
      var j, w := ShownIsCaused(run, acts, i, k, t);
      assert 0 <= j < i && 0 <= w && CausedAt(run, acts, j, w, c, t);
    }
    if j, w :| 0 <= j < i && 0 <= w && CausedAt(run, acts, j, w, c, t) {
      CauseIsKept(run, acts, j, i, w, c, t);
      OrderedAlways(run, acts, i);
      OneLineOnly(s, k, w, t);
    }
  }

  lemma OneLineOnly(s: State, k: nat, w: nat, t: Trouble)
    requires Ordering.Lines(s) && k < |s.history| && Kept(s, w, s.history[k].conn, t)
    ensures Shows(t, s.history[k])
  {
    assert s.history[k].conn in Logged(s.history);
  }

  // ----- Without errors everything is served -----------------------------------------------------------

  /** No system call fails and no answer breaks off, up to the state `i`. */
  ghost predicate Undisturbed(run: seq<State>, acts: seq<Action>, i: nat)
    requires IsRun(run, acts) && i < |run|
  {
    forall j :: 0 <= j < i && acts[j].Work? ==>
      !acts[j].m.Fail? && !(acts[j].m.Chunk? && run[j].workers[acts[j].w].phase.Respond?)
  }

  lemma NothingFails(run: seq<State>, acts: seq<Action>, i: nat, k: nat)
    requires IsRun(run, acts) && i < |run| && k < |run[i].history| && Undisturbed(run, acts, i)
    ensures run[i].history[k].out.complete && (run[i].history[k].req.Wants? ==> !Failed(run[i].history[k]))
  {
    TroubleExact(run, acts, i, k, CutShort);
    TroubleExact(run, acts, i, k, Answer(403));
    TroubleExact(run, acts, i, k, Answer(500));
  }

  /** Then every GET and PUT in the log was served, answered whole, and answered as the sequential
      store answers it after the GETs and PUTs before. */
  lemma AllServed(run: seq<State>, acts: seq<Action>, i: nat)
    requires IsRun(run, acts) && i < |run| && Undisturbed(run, acts, i)
    ensures var s := run[i];
            && (forall k :: 0 <= k < |s.history| && s.history[k].req.Wants? ==>
                  && Served(s.history[k]) && s.history[k].out.complete
                  && Answered(ReplayOps(s.init, ServedOps(s.history[..k])), s.history[k]))
            && ((forall w :: 0 <= w < |s.workers| ==> s.workers[w].Idle?) ==>
                  s.files == ReplayOps(s.init, ServedOps(s.history)))
  {
    forall k | 0 <= k < |run[i].history|
      ensures run[i].history[k].out.complete && (run[i].history[k].req.Wants? ==> !Failed(run[i].history[k]))
    {
      NothingFails(run, acts, i, k);
    }
    ServedAnswers(run, acts, i);
  }

  /** Errors do happen: wherever the source checks for one, the model lets it happen, and any
      number of bytes may be moved at a time. */
  lemma ErrorsHappen(w: Worker, file: Option<Bytes>, view: Option<Bytes>, st: nat, n: nat)
    requires w.Busy? && Facts(w, file, view)
    ensures (w.phase.GetOpen? || w.phase.GetStat? || w.phase.PutOpen?) && (st == 403 || st == 500)
            ==> Act(w, file, Fail(st)) != Stuck
    ensures (w.phase.Lock? || w.phase.PutTruncate? || w.phase.Receiving?) ==> Act(w, file, Fail(500)) != Stuck
    ensures w.phase.Sending? ==> Act(w, file, Fail(st)) != Stuck
    ensures w.phase.Sending? && 0 < n <= w.phase.size - |w.phase.sent| ==> Act(w, file, Chunk(n)) != Stuck
    ensures w.phase.Receiving? && 0 < n <= |w.req.op.body| - w.phase.got ==> Act(w, file, Chunk(n)) != Stuck
    ensures w.phase.Respond? && n <= |StatusBody(w.phase.status)| ==> Act(w, file, Chunk(n)) != Stuck
    ensures w.phase.Lock? ==> Act(w, file, Retry) == Next(w, None)
  {
  }
}

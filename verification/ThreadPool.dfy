/** The worker pool of src/threadpool.c over the bounded queue: submits, then one stop
    sentinel per worker, then the joins. Rolling back a half-made pool is the same protocol
    with the workers created so far and nothing submitted. */
module ThreadPool {
  import opened Sums
  import opened BoundedQueue

  const STOP: int := -1

  datatype Job = Looping | Handling(fd: int) | Exited

  /** Threads 0..n-1 of the queue are the workers, thread n is the one that owns the pool;
      `todo` is what it has still to push. */
  datatype Pool = Pool(q: State<int>, fds: seq<int>, jobs: seq<Job>, todo: seq<int>, handled: seq<int>, joined: nat)

  function Stops(n: nat): (r: seq<int>)
    ensures |r| == n
  {
    if n == 0 then [] else Stops(n - 1) + [STOP]
  }

  /** Everything the owner pushes, in order. */
  function Script(p: Pool): seq<int> { p.fds + Stops(|p.jobs|) }

  datatype Action =
    | Submit            // the owner calls queue_push
    | Queue(t: nat)     // a thread takes its next statement inside the queue
    | Loop(i: nat)      // a worker calls queue_pop
    | Take(i: nat)      // a worker looks at what it popped
    | Handle(i: nat)    // a handler returns
    | Join              // pthread_join of the next worker returns

  ghost predicate Enabled(p: Pool, a: Action) {
    var n := |p.jobs|;
    |p.q.threads| == n + 1 &&
    match a
    case Submit => p.q.threads[n].Out? && p.todo != []
    case Queue(t) => BoundedQueue.Enabled(p.q, Step(t))
    case Loop(i) => i < n && p.jobs[i].Looping? && p.q.threads[i].Out?
    case Take(i) => i < n && p.q.threads[i].Got?
    case Handle(i) => i < n && p.jobs[i].Handling?
    case Join => p.q.threads[n].Out? && p.todo == [] && p.joined < n && p.jobs[p.joined].Exited?
  }

  ghost function Do(p: Pool, a: Action): Pool
    requires Enabled(p, a)
  {
    match a
    case Submit => p.(q := BoundedQueue.Do(p.q, Call(|p.jobs|, PushFull(p.todo[0]))), todo := p.todo[1..])
    case Queue(t) => p.(q := BoundedQueue.Do(p.q, Step(t)))
    case Loop(i) => p.(q := BoundedQueue.Do(p.q, Call(i, PopEmpty)))
    case Take(i) =>
      var x := p.q.threads[i].x;
      p.(q := BoundedQueue.Do(p.q, Return(i)), jobs := p.jobs[i := if x == STOP then Exited else Handling(x)])
    case Handle(i) => p.(handled := p.handled + [p.jobs[i].fd], jobs := p.jobs[i := Looping])
    case Join => p.(joined := p.joined + 1)
  }

  /** A new pool; descriptors are never negative, and without workers nothing is submitted. */
  ghost predicate Init(p: Pool) {
    && BoundedQueue.Init(p.q) && |p.q.threads| == |p.jobs| + 1
    && (forall k :: 0 <= k < |p.fds| ==> p.fds[k] >= 0)
    && (|p.jobs| == 0 ==> p.fds == [])
    && (forall i :: 0 <= i < |p.jobs| ==> p.jobs[i].Looping?)
    && p.todo == Script(p) && p.handled == [] && p.joined == 0
  }

  ghost predicate Done(p: Pool) {
    |p.q.threads| == |p.jobs| + 1 && p.q.threads[|p.jobs|].Out? && p.todo == [] && p.joined == |p.jobs|
  }

  // ----- Who has what ------------------------------------------------------------------------

  datatype Seat = Seat(pc: Pc<int>, job: Job)

  ghost function Seats(p: Pool): seq<Seat>
    requires |p.q.threads| == |p.jobs| + 1
  {
    seq(|p.jobs|, i requires 0 <= i < |p.jobs| => Seat(p.q.threads[i], p.jobs[i]))
  }

  /** What a worker has popped and not finished with; one that exited keeps its sentinel. */
  function Hand(w: Seat): multiset<int> {
    if w.pc.PopUnlock? || w.pc.PopPost? || w.pc.Got? then multiset{w.pc.x}
    else if w.job.Handling? then multiset{w.job.fd}
    else if w.job.Exited? then multiset{STOP}
    else multiset{}
  }

  function Hands(ws: seq<Seat>): multiset<int> { Pile(ws, Hand) }

  /** A worker is outside the queue unless it is in its loop. */
  predicate SeatOk(w: Seat) {
    && (w.pc.Out? || w.pc.PopEmpty? || w.pc.PopMutex? || w.pc.PopBody? || w.pc.PopUnlock? || w.pc.PopPost? || w.pc.Got?)
    && (!w.job.Looping? ==> w.pc.Out?)
    && (w.job.Handling? ==> w.job.fd != STOP)
  }

  predicate OwnerOk(pc: Pc<int>) {
    pc.Out? || pc.PushFull? || pc.PushMutex? || pc.PushBody? || pc.PushUnlock? || pc.PushPost?
  }

  /** The element the owner is carrying into the queue. */
  function Carried(pc: Pc<int>): seq<int> {
    if pc.PushFull? || pc.PushMutex? || pc.PushBody? then [pc.x] else []
  }

  ghost predicate Shape(p: Pool) {
    var n := |p.jobs|;
    && |p.q.threads| == n + 1
    && (forall k :: 0 <= k < |p.fds| ==> p.fds[k] >= 0) && (n == 0 ==> p.fds == [])
    && (forall i :: 0 <= i < n ==> SeatOk(Seats(p)[i]))
    && OwnerOk(p.q.threads[n])
    && STOP !in p.handled
    && p.joined <= n && (forall i :: 0 <= i < p.joined ==> p.jobs[i].Exited?)
  }

  /** The script is what was pushed, is being pushed and is left; what was popped was handled
      or is in some worker's hand. */
  ghost predicate Books(p: Pool)
    requires |p.q.threads| == |p.jobs| + 1
  {
    && Script(p) == p.q.pushed + Carried(p.q.threads[|p.jobs|]) + p.todo
    && multiset(p.q.popped) == multiset(p.handled) + Hands(Seats(p))
  }

  ghost predicate Inv(p: Pool) {
    Shape(p) && BoundedQueue.Inv(p.q) && Books(p)
  }

  /** A step of worker `i` that leaves the owner and the other workers alone. */
  ghost predicate Moved(p: Pool, r: Pool, i: nat) {
    && |p.q.threads| == |r.q.threads| == |p.jobs| + 1 && i < |p.jobs| == |r.jobs|
    && (forall k :: 0 <= k <= |p.jobs| && k != i ==> r.q.threads[k] == p.q.threads[k])
    && (forall k :: 0 <= k < |p.jobs| && k != i ==> r.jobs[k] == p.jobs[k])
    && r.fds == p.fds && r.todo == p.todo && r.joined == p.joined && r.q.pushed == p.q.pushed
  }

  lemma ShapeMoved(p: Pool, r: Pool, i: nat)
    requires Shape(p) && Moved(p, r, i) && SeatOk(Seat(r.q.threads[i], r.jobs[i]))
    requires p.jobs[i].Exited? ==> r.jobs[i].Exited?
    requires STOP !in r.handled
    ensures Shape(r)
  {
    forall k | 0 <= k < |r.jobs| ensures SeatOk(Seats(r)[k]) {
      assert SeatOk(Seats(p)[k]);
    }
  }

  lemma BooksMoved(p: Pool, r: Pool, i: nat, d: multiset<int>, e: multiset<int>)
    requires Shape(p) && Books(p) && Moved(p, r, i)
    requires multiset(r.q.popped) == multiset(p.q.popped) + d && multiset(r.handled) == multiset(p.handled) + e
    requires Hand(Seat(p.q.threads[i], p.jobs[i])) + d == Hand(Seat(r.q.threads[i], r.jobs[i])) + e
    ensures Books(r)
  {
    var w := Seat(r.q.threads[i], r.jobs[i]);
    assert Seats(r) == Seats(p)[i := w];
    PileUpdate(Seats(p), i, w, Hand);
    Balance(multiset(p.q.popped), multiset(p.handled), Hands(Seats(p)), Hands(Seats(r)), Hand(Seats(p)[i]), Hand(w), d, e);
  }

  lemma OwnerQueueInv(p: Pool)
    requires Inv(p) && Enabled(p, Queue(|p.jobs|))
    ensures Inv(Do(p, Queue(|p.jobs|)))
  {
    var r := Do(p, Queue(|p.jobs|));
    StepInv(p.q, Step(|p.jobs|));
    assert Seats(r) == Seats(p);
  }

  /** What one statement of queue_pop does, seen from the pool. */
  lemma PopStatement(p: Pool, i: nat)
    requires i < |p.jobs| && Enabled(p, Queue(i)) && SeatOk(Seat(p.q.threads[i], p.jobs[i]))
    ensures var r := Do(p, Queue(i));
            && Moved(p, r, i) && SeatOk(Seat(r.q.threads[i], r.jobs[i])) && r.jobs == p.jobs && r.handled == p.handled
            && (p.q.threads[i].PopBody? ==>
                  r.q.threads[i].PopUnlock? && r.q.popped == p.q.popped + [r.q.threads[i].x])
            && (!p.q.threads[i].PopBody? ==>
                  r.q.popped == p.q.popped
                  && Hand(Seat(r.q.threads[i], r.jobs[i])) == Hand(Seat(p.q.threads[i], p.jobs[i])))
  {
  }

  lemma PopRank(p: Pool, i: nat)
    requires i < |p.jobs| && Enabled(p, Queue(i)) && SeatOk(Seat(p.q.threads[i], p.jobs[i]))
    ensures var r := Do(p, Queue(i));
            && Moved(p, r, i)
            && SeatRank(Seat(r.q.threads[i], r.jobs[i])) + 10 * |p.q.popped|
               < SeatRank(Seat(p.q.threads[i], p.jobs[i])) + 10 * |r.q.popped|
  {
  }

  lemma WorkerQueueInv(p: Pool, i: nat)
    requires Inv(p) && i < |p.jobs| && Enabled(p, Queue(i))
    ensures Inv(Do(p, Queue(i)))
  {
    var r := Do(p, Queue(i));
    assert SeatOk(Seats(p)[i]);
    StepInv(p.q, Step(i));
    PopStatement(p, i);
    ShapeMoved(p, r, i);
    var d := if p.q.threads[i].PopBody? then multiset{r.q.threads[i].x} else multiset{};
    BooksMoved(p, r, i, d, multiset{});
  }

  lemma SubmitInv(p: Pool)
    requires Inv(p) && Enabled(p, Submit)
    ensures Inv(Do(p, Submit))
  {
    var r := Do(p, Submit);
    StepInv(p.q, Call(|p.jobs|, PushFull(p.todo[0])));
    assert Seats(r) == Seats(p);
    assert p.todo == [p.todo[0]] + p.todo[1..];
  }

  lemma LoopInv(p: Pool, i: nat)
    requires Inv(p) && Enabled(p, Loop(i))
    ensures Inv(Do(p, Loop(i)))
  {
    var r := Do(p, Loop(i));
    StepInv(p.q, Call(i, PopEmpty));
    ShapeMoved(p, r, i);
    BooksMoved(p, r, i, multiset{}, multiset{});
  }

  lemma TakeStatement(p: Pool, i: nat)
    requires Enabled(p, Take(i)) && SeatOk(Seat(p.q.threads[i], p.jobs[i]))
    ensures var r := Do(p, Take(i));
            && Moved(p, r, i) && SeatOk(Seat(r.q.threads[i], r.jobs[i])) && p.jobs[i].Looping?
            && r.q.popped == p.q.popped && r.handled == p.handled
            && Hand(Seat(r.q.threads[i], r.jobs[i])) == Hand(Seat(p.q.threads[i], p.jobs[i]))
  {
  }

  lemma TakeInv(p: Pool, i: nat)
    requires Inv(p) && Enabled(p, Take(i))
    ensures Inv(Do(p, Take(i)))
  {
    var r := Do(p, Take(i));
    assert SeatOk(Seats(p)[i]);
    TakeStatement(p, i);
    StepInv(p.q, Return(i));
    ShapeMoved(p, r, i);
    BooksMoved(p, r, i, multiset{}, multiset{});
  }

  lemma HandleInv(p: Pool, i: nat)
    requires Inv(p) && Enabled(p, Handle(i))
    ensures Inv(Do(p, Handle(i)))
  {
    var r := Do(p, Handle(i));
    assert SeatOk(Seats(p)[i]);
    ShapeMoved(p, r, i);
    BooksMoved(p, r, i, multiset{}, multiset{p.jobs[i].fd});
  }

  lemma PoolStepInv(p: Pool, a: Action)
    requires Inv(p) && Enabled(p, a)
    ensures Inv(Do(p, a))
  {
    match a
    case Submit => SubmitInv(p);
    case Queue(t) => if t == |p.jobs| { OwnerQueueInv(p); } else { WorkerQueueInv(p, t); }
    case Loop(i) => LoopInv(p, i);
    case Take(i) => TakeInv(p, i);
    case Handle(i) => HandleInv(p, i);
    case Join => assert Seats(Do(p, a)) == Seats(p);
  }

  ghost predicate IsRun(run: seq<Pool>, acts: seq<Action>) {
    && |run| == |acts| + 1
    && Init(run[0])
    && forall i :: 0 <= i < |acts| ==> Enabled(run[i], acts[i]) && run[i + 1] == Do(run[i], acts[i])
  }

  lemma {:induction false} NothingInHand(ws: seq<Seat>)
    requires forall i :: 0 <= i < |ws| ==> Hand(ws[i]) == multiset{}
    ensures Hands(ws) == multiset{}
  {
    if ws != [] {
      NothingInHand(ws[1..]);
    }
  }

  lemma {:induction false} PoolInv(run: seq<Pool>, acts: seq<Action>, i: nat)
    requires IsRun(run, acts) && i < |run|
    ensures Inv(run[i])
  {
    if i == 0 {
      InitInv(run[0].q);
      NothingInHand(Seats(run[0]));
    } else {
      PoolInv(run, acts, i - 1);
      PoolStepInv(run[i - 1], acts[i - 1]);
    }
  }

  // ----- Counting sentinels ------------------------------------------------------------------

  lemma {:induction false} StopsCount(n: nat)
    ensures multiset(Stops(n))[STOP] == n
    ensures forall x :: x != STOP ==> multiset(Stops(n))[x] == 0
  {
    if n > 0 {
      StopsCount(n - 1);
    }
  }

  /** The script holds one sentinel per worker, and ends in one if there are workers. */
  lemma ScriptCount(p: Pool)
    requires Shape(p)
    ensures multiset(Script(p))[STOP] == |p.jobs|
    ensures |p.jobs| > 0 ==> Script(p)[|Script(p)| - 1] == STOP
    ensures |p.jobs| == 0 ==> Script(p) == []
  {
    StopsCount(|p.jobs|);
    assert multiset(Script(p)) == multiset(p.fds) + multiset(Stops(|p.jobs|));
    assert multiset(p.fds)[STOP] == 0;
  }

  /** Once every sentinel of the script was popped, the whole script was. */
  lemma AllStopsPopped(p: Pool)
    requires Inv(p) && multiset(p.q.popped)[STOP] == |p.jobs|
    ensures p.q.popped == p.q.pushed == Script(p) && p.todo == [] && Carried(p.q.threads[|p.jobs|]) == []
  {
    ScriptCount(p);
    var k := |p.q.popped|;
    var rest := Script(p)[k..];
    assert Script(p)[..k] == p.q.popped;
    assert Script(p) == p.q.popped + rest;
    assert multiset(Script(p)) == multiset(p.q.popped) + multiset(rest);
  }

  lemma HandStops(p: Pool)
    requires Inv(p)
    ensures multiset(p.q.popped)[STOP] == Hands(Seats(p))[STOP] <= |p.jobs|
    ensures Hands(Seats(p))[STOP] == |p.jobs| <==> forall i :: 0 <= i < |p.jobs| ==> Hand(Seats(p)[i])[STOP] == 1
  {
    assert multiset(p.handled)[STOP] == 0;
    PileCount(Seats(p), Hand, STOP);
  }

  // ----- Theorems -------------------------------------------------------------------------------

  /** When the owner is done: every submitted descriptor was handled exactly once, every worker
      exited on a sentinel of its own, and the queue is empty. */
  lemma CleanShutdown(run: seq<Pool>, acts: seq<Action>, i: nat)
    requires IsRun(run, acts) && i < |run| && Done(run[i])
    ensures var p := run[i];
            && multiset(p.handled) == multiset(p.fds)
            && (forall k :: 0 <= k < |p.jobs| ==> p.jobs[k].Exited?)
            && multiset(p.q.popped)[STOP] == |p.jobs|
            && p.q.ring.count == 0
  {
    PoolInv(run, acts, i);
    var p := run[i];
    forall k | 0 <= k < |p.jobs| ensures Hand(Seats(p)[k]) == multiset{STOP} {
      assert SeatOk(Seats(p)[k]);
    }
    HandStops(p);
    AllStopsPopped(p);
    HandsAreStops(Seats(p));
    assert multiset(Script(p)) == multiset(p.fds) + multiset(Stops(|p.jobs|));
    Cancel(multiset(p.handled), multiset(p.fds), multiset(Stops(|p.jobs|)));
  }

  lemma {:induction false} HandsAreStops(ws: seq<Seat>)
    requires forall i :: 0 <= i < |ws| ==> Hand(ws[i]) == multiset{STOP}
    ensures Hands(ws) == multiset(Stops(|ws|))
  {
    if ws != [] {
      HandsAreStops(ws[1..]);
    }
  }

  ghost predicate CanMove(p: Pool) {
    exists a :: Enabled(p, a)
  }

  /** A worker with no step of its own has exited, or waits for an element. */
  lemma IdleWorker(p: Pool, i: nat)
    requires Inv(p) && !CanMove(p) && i < |p.jobs|
    ensures p.jobs[i].Exited? || p.q.threads[i].PopEmpty?
  {
    assert SeatOk(Seats(p)[i]);
    QueueBlocked(p);
    assert !Enabled(p, Loop(i)) && !Enabled(p, Take(i)) && !Enabled(p, Handle(i));
  }

  lemma QueueBlocked(p: Pool)
    requires Inv(p) && !CanMove(p)
    ensures forall t :: 0 <= t < |p.q.threads| ==> !Ready(p.q, t)
    ensures forall t :: 0 <= t < |p.q.threads| ==>
              p.q.threads[t].Out? || p.q.threads[t].Got? || p.q.threads[t].PushFull? || p.q.threads[t].PopEmpty?
  {
    forall t | 0 <= t < |p.q.threads| ensures !Ready(p.q, t) {
      assert !Enabled(p, Queue(t));
    }
    BlockedMeans(p.q);
  }

  /** If every worker has exited, the owner has nothing left to push. */
  lemma AllExited(p: Pool)
    requires Inv(p) && forall i :: 0 <= i < |p.jobs| ==> p.jobs[i].Exited?
    ensures p.todo == [] && Carried(p.q.threads[|p.jobs|]) == []
  {
    forall i | 0 <= i < |p.jobs| ensures Hand(Seats(p)[i])[STOP] == 1 {
      assert SeatOk(Seats(p)[i]);
    }
    HandStops(p);
    AllStopsPopped(p);
  }

  /** If some worker waits on an empty queue with nothing left to push, some sentinel is missing. */
  lemma WaiterImpossible(p: Pool, i: nat)
    requires Inv(p) && i < |p.jobs| && p.q.threads[i].PopEmpty?
    requires p.todo == [] && Carried(p.q.threads[|p.jobs|]) == []
    ensures p.q.ring.count > 0
  {
    assert SeatOk(Seats(p)[i]) && Hand(Seats(p)[i])[STOP] == 0;
    HandStops(p);
    ScriptCount(p);
    assert Script(p) == p.q.pushed;
    assert p.q.ring.count == 0 ==> p.q.popped == p.q.pushed;
  }

  /** The protocol is never stuck, whatever the queue size and the number of workers. */
  lemma NeverStuck(p: Pool)
    requires Inv(p) && !Done(p)
    ensures CanMove(p)
  {
    if !CanMove(p) {
      QueueBlocked(p);
      BlockedMeans(p.q);
      assert !Enabled(p, Submit) && !Enabled(p, Join);
      if i :| 0 <= i < |p.jobs| && !p.jobs[i].Exited? {
        IdleWorker(p, i);
        assert p.q.ring.count == 0;
        assert !p.q.threads[|p.jobs|].PushFull?;
        WaiterImpossible(p, i);
      } else {
        AllExited(p);
      }
      assert false;
    }
  }

  // ----- Termination -----------------------------------------------------------------------------

  function OwnerRank(pc: Pc<int>): nat {
    match pc
    case PushFull(_) => 5
    case PushMutex(_) => 4
    case PushBody(_) => 3
    case PushUnlock => 2
    case PushPost => 1
    case _ => 0
  }

  function SeatRank(w: Seat): nat {
    if w.job.Exited? then 0
    else if w.job.Handling? then 11
    else
      match w.pc
      case PopUnlock(_) => 14
      case PopPost(_) => 13
      case Got(_) => 12
      case PopEmpty => 7
      case PopMutex => 6
      case PopBody => 5
      case _ => 8
  }

  /** Statements left: an element still to be popped pays for the worker's way back round. */
  ghost function Measure(p: Pool): int
    requires |p.q.threads| == |p.jobs| + 1
  {
    6 * |p.todo| + OwnerRank(p.q.threads[|p.jobs|]) + 10 * (|Script(p)| - |p.q.popped|)
    + Sum(Seats(p), SeatRank) + (|p.jobs| - p.joined)
  }

  lemma SeatDecreases(p: Pool, r: Pool, i: nat)
    requires Moved(p, r, i)
    requires SeatRank(Seat(r.q.threads[i], r.jobs[i])) + 10 * |p.q.popped|
             < SeatRank(Seat(p.q.threads[i], p.jobs[i])) + 10 * |r.q.popped|
    ensures Measure(r) < Measure(p)
  {
    var w := Seat(r.q.threads[i], r.jobs[i]);
    assert Seats(r) == Seats(p)[i := w];
    SumUpdate(Seats(p), i, w, SeatRank);
  }

  lemma WorkerDecreases(p: Pool, a: Action)
    requires Enabled(p, a) && (a.Loop? || a.Take? || a.Handle?) && SeatOk(Seat(p.q.threads[a.i], p.jobs[a.i]))
    ensures Measure(Do(p, a)) < Measure(p)
  {
    SeatDecreases(p, Do(p, a), a.i);
  }

  lemma PopDecreases(p: Pool, i: nat)
    requires Enabled(p, Queue(i)) && i < |p.jobs| && SeatOk(Seat(p.q.threads[i], p.jobs[i]))
    ensures Measure(Do(p, Queue(i))) < Measure(p)
  {
    PopRank(p, i);
    SeatDecreases(p, Do(p, Queue(i)), i);
  }

  lemma OwnerDecreases(p: Pool, a: Action)
    requires Enabled(p, a) && (a.Submit? || a.Join? || a == Queue(|p.jobs|)) && OwnerOk(p.q.threads[|p.jobs|])
    ensures Measure(Do(p, a)) < Measure(p)
  {
    assert Seats(Do(p, a)) == Seats(p);
  }

  lemma StepDecreases(p: Pool, a: Action)
    requires Shape(p) && Enabled(p, a)
    ensures Measure(Do(p, a)) < Measure(p)
  {
    match a
    case Submit => OwnerDecreases(p, a);
    case Join => OwnerDecreases(p, a);
    case Queue(t) =>
      if t == |p.jobs| {
        OwnerDecreases(p, a);
      } else {
        assert SeatOk(Seats(p)[t]);
        PopDecreases(p, t);
      }
    case _ =>
      assert SeatOk(Seats(p)[a.i]);
      WorkerDecreases(p, a);
  }

  ghost predicate Moves(p: Pool, r: Pool) {
    exists a :: Enabled(p, a) && r == Do(p, a)
  }

  /** An infinite future that goes on as long as some thread can move. */
  ghost predicate Future(f: nat -> Pool) {
    forall i: nat :: Moves(f(i), f(i + 1)) || (f(i + 1) == f(i) && !CanMove(f(i)))
  }

  lemma Later(f: nat -> Pool) returns (g: nat -> Pool)
    requires Future(f)
    ensures Future(g) && forall i: nat :: g(i) == f(i + 1)
  {
    g := (i: nat) => f(i + 1);
    forall i: nat ensures Moves(g(i), g(i + 1)) || (g(i + 1) == g(i) && !CanMove(g(i))) {
      assert g(i) == f(i + 1) && g(i + 1) == f(i + 1 + 1);
    }
  }

  lemma {:induction false} Finishes(f: nat -> Pool) returns (n: nat)
    requires Future(f) && Inv(f(0))
    ensures Inv(f(n)) && Done(f(n))
    decreases Measure(f(0))
  {
    if Done(f(0)) {
      n := 0;
    } else {
      NeverStuck(f(0));
      assert Moves(f(0), f(0 + 1));
      var a :| Enabled(f(0), a) && f(1) == Do(f(0), a);
      PoolStepInv(f(0), a);
      StepDecreases(f(0), a);
      var g := Later(f);
      var k := Finishes(g);
      n := k + 1;
    }
  }

  /** threadpool_destroy returns: whatever the schedule, the owner gets through its last join. */
  lemma ShutdownTerminates(run: seq<Pool>, acts: seq<Action>, i: nat, f: nat -> Pool) returns (n: nat)
    requires IsRun(run, acts) && i < |run| && Future(f) && f(0) == run[i]
    ensures Done(f(n))
  {
    PoolInv(run, acts, i);
    n := Finishes(f);
  }
}

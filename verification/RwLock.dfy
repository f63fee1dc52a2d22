/** The condition-variable reader-writer lock of practica/pthreads/rwlock with its two
    excluding policies, run by any number of threads, one statement a step. */
module RwLock {
  import opened Options
  import opened Sums

  datatype Kind = Reader | Writer

  /** policy_rstarve.c prefers writers, policy_wstarve.c prefers readers. */
  datatype Policy = ReadersStarve | WritersStarve

  datatype Counters = Counters(areaders: int, awriters: int, wreaders: int, wwriters: int)

  /** reader_wait and writer_wait. */
  predicate MustWait(policy: Policy, c: Counters, k: Kind) {
    match k
    case Reader => c.awriters != 0 || (policy.ReadersStarve? && c.wwriters != 0)
    case Writer => c.awriters != 0 || c.areaders != 0
  }

  /** Where a thread is in read_lock/read_unlock or write_lock/write_unlock. */
  datatype At =
    | Away          // not using the lock
    | Want          // about to lock the mutex in *_lock
    | Register      // mutex held, about to count itself as waiting
    | Check         // mutex held, about to evaluate the wait predicate
    | Asleep        // in pthread_cond_wait, not signalled
    | Woken         // signalled, about to lock the mutex again
    | Enter         // mutex held, predicate was false, about to change the counts
    | Leave         // mutex held, about to unlock it
    | Active        // holds the reader-writer lock
    | WantOut       // about to lock the mutex in *_unlock
    | Retire        // mutex held, about to count itself out
    | WakeReaders   // mutex held, first half of rwlock_wakeup
    | WakeWriters   // mutex held, second half
    | Finish        // mutex held, about to unlock it

  datatype Thread = Thread(kind: Kind, at: At)

  datatype State = State(policy: Policy, c: Counters, mu: Option<nat>, threads: seq<Thread>)

  function Wake(threads: seq<Thread>, k: Kind): (r: seq<Thread>)
    ensures |r| == |threads|
    ensures forall i :: 0 <= i < |threads| ==>
              r[i] == if threads[i] == Thread(k, Asleep) then Thread(k, Woken) else threads[i]
  {
    seq(|threads|, i requires 0 <= i < |threads| => if threads[i] == Thread(k, Asleep) then Thread(k, Woken) else threads[i])
  }

  function AddWaiting(c: Counters, k: Kind, d: int): Counters {
    if k.Reader? then c.(wreaders := c.wreaders + d) else c.(wwriters := c.wwriters + d)
  }

  function AddActive(c: Counters, k: Kind, d: int): Counters {
    if k.Reader? then c.(areaders := c.areaders + d) else c.(awriters := c.awriters + d)
  }

  /** A thread calls *_lock, takes its next statement, or wakes up for no reason. */
  datatype Action = Call(t: nat, k: Kind) | Step(t: nat) | Spurious(t: nat)

  predicate Enabled(s: State, a: Action) {
    a.t < |s.threads| &&
    match a
    case Call(t, _) => s.threads[t].at.Away?
    case Spurious(t) => s.threads[t].at.Asleep?
    case Step(t) =>
      match s.threads[t].at
      case Away => false
      case Asleep => false
      case Want => s.mu.None?
      case Woken => s.mu.None?
      case WantOut => s.mu.None?
      case _ => true
  }

  function Goto(s: State, t: nat, at: At): State
    requires t < |s.threads|
  {
    s.(threads := s.threads[t := s.threads[t].(at := at)])
  }

  function Do(s: State, a: Action): State
    requires Enabled(s, a)
  {
    match a
    case Call(t, k) => s.(threads := s.threads[t := Thread(k, Want)])
    case Spurious(t) => Goto(s, t, Woken)
    case Step(t) =>
      var k := s.threads[t].kind;
      match s.threads[t].at
      case Want => Goto(s, t, Register).(mu := Some(t))
      case Register => Goto(s, t, Check).(c := AddWaiting(s.c, k, 1))
      case Check => if MustWait(s.policy, s.c, k) then Goto(s, t, Asleep).(mu := None) else Goto(s, t, Enter)
      case Woken => Goto(s, t, Check).(mu := Some(t))
      case Enter => Goto(s, t, Leave).(c := AddActive(AddWaiting(s.c, k, -1), k, 1))
      case Leave => Goto(s, t, Active).(mu := None)
      case Active => Goto(s, t, WantOut)
      case WantOut => Goto(s, t, Retire).(mu := Some(t))
      case Retire => Goto(s, t, WakeReaders).(c := AddActive(s.c, k, -1))
      case WakeReaders =>
        var u := Goto(s, t, WakeWriters);
        if s.c.wreaders != 0 then u.(threads := Wake(u.threads, Reader)) else u
      case WakeWriters =>
        var u := Goto(s, t, Finish);
        if s.c.wwriters != 0 then u.(threads := Wake(u.threads, Writer)) else u
      case Finish => Goto(s, t, Away).(mu := None)
      case _ => s
  }

  predicate Init(s: State) {
    && s.c == Counters(0, 0, 0, 0) && s.mu.None?
    && forall t :: 0 <= t < |s.threads| ==> s.threads[t].at.Away?
  }

  // ----- The invariant ---------------------------------------------------------------------------

  predicate Critical(at: At) {
    at.Register? || at.Check? || at.Enter? || at.Leave? || at.Retire? || at.WakeReaders? || at.WakeWriters? || at.Finish?
  }

  function IsWaiting(k: Kind, th: Thread): nat {
    if th.kind == k && (th.at.Check? || th.at.Enter? || th.at.Asleep? || th.at.Woken?) then 1 else 0
  }

  function IsActive(k: Kind, th: Thread): nat {
    if th.kind == k && (th.at.Leave? || th.at.Active? || th.at.WantOut? || th.at.Retire?) then 1 else 0
  }

  function WaitingReader(th: Thread): nat { IsWaiting(Reader, th) }
  function WaitingWriter(th: Thread): nat { IsWaiting(Writer, th) }
  function ActiveReader(th: Thread): nat { IsActive(Reader, th) }
  function ActiveWriter(th: Thread): nat { IsActive(Writer, th) }

  /** The four counters count the threads at the corresponding places. */
  ghost predicate Counted(s: State) {
    && s.c.wreaders == Sum(s.threads, WaitingReader)
    && s.c.wwriters == Sum(s.threads, WaitingWriter)
    && s.c.areaders == Sum(s.threads, ActiveReader)
    && s.c.awriters == Sum(s.threads, ActiveWriter)
  }

  ghost predicate Mutex(s: State) {
    && (s.mu.Some? ==> s.mu.value < |s.threads|)
    && forall t :: 0 <= t < |s.threads| ==> (s.mu == Some(t) <==> Critical(s.threads[t].at))
  }

  /** Readers share, a writer is alone. */
  predicate Excludes(c: Counters) {
    c.awriters == 0 || (c.awriters == 1 && c.areaders == 0)
  }

  /** A thread between its check and its entry may still enter. */
  ghost predicate CheckedOk(s: State) {
    forall t :: 0 <= t < |s.threads| && s.threads[t].at.Enter? ==> !MustWait(s.policy, s.c, s.threads[t].kind)
  }

  /** A wake-up for this kind of thread is on its way: some thread is inside rwlock_wakeup. */
  predicate WakeComing(s: State, k: Kind) {
    && s.mu.Some? && s.mu.value < |s.threads|
    && (s.threads[s.mu.value].at.WakeReaders? || (k.Writer? && s.threads[s.mu.value].at.WakeWriters?))
  }

  /** A sleeping thread has to wait, or is about to be woken. */
  ghost predicate NoLostWakeup(s: State) {
    forall t :: 0 <= t < |s.threads| && s.threads[t].at.Asleep? ==>
      MustWait(s.policy, s.c, s.threads[t].kind) || WakeComing(s, s.threads[t].kind)
  }

  ghost predicate Inv(s: State) {
    Counted(s) && Mutex(s) && Excludes(s.c) && CheckedOk(s) && NoLostWakeup(s)
  }

  lemma Recount(ts: seq<Thread>, t: nat, th: Thread)
    requires t < |ts|
    ensures Sum(ts[t := th], WaitingReader) + WaitingReader(ts[t]) == Sum(ts, WaitingReader) + WaitingReader(th)
    ensures Sum(ts[t := th], WaitingWriter) + WaitingWriter(ts[t]) == Sum(ts, WaitingWriter) + WaitingWriter(th)
    ensures Sum(ts[t := th], ActiveReader) + ActiveReader(ts[t]) == Sum(ts, ActiveReader) + ActiveReader(th)
    ensures Sum(ts[t := th], ActiveWriter) + ActiveWriter(ts[t]) == Sum(ts, ActiveWriter) + ActiveWriter(th)
  {
    SumUpdate(ts, t, th, WaitingReader);
    SumUpdate(ts, t, th, WaitingWriter);
    SumUpdate(ts, t, th, ActiveReader);
    SumUpdate(ts, t, th, ActiveWriter);
  }

  lemma WakeKeepsCounts(ts: seq<Thread>, k: Kind)
    ensures Sum(Wake(ts, k), WaitingReader) == Sum(ts, WaitingReader)
    ensures Sum(Wake(ts, k), WaitingWriter) == Sum(ts, WaitingWriter)
    ensures Sum(Wake(ts, k), ActiveReader) == Sum(ts, ActiveReader)
    ensures Sum(Wake(ts, k), ActiveWriter) == Sum(ts, ActiveWriter)
  {
    SumSame(ts, Wake(ts, k), WaitingReader);
    SumSame(ts, Wake(ts, k), WaitingWriter);
    SumSame(ts, Wake(ts, k), ActiveReader);
    SumSame(ts, Wake(ts, k), ActiveWriter);
  }

  predicate Waking(s: State, a: Action) {
    a.Step? && a.t < |s.threads| && (s.threads[a.t].at.WakeReaders? || s.threads[a.t].at.WakeWriters?)
  }

  /** A step that is no broadcast moves one thread, and each counter with it. */
  lemma CounterDelta(s: State, a: Action)
    requires Enabled(s, a) && !Waking(s, a)
    ensures var r := Do(s, a);
            && |r.threads| == |s.threads| && r.threads == s.threads[a.t := r.threads[a.t]]
            && r.c.wreaders - s.c.wreaders == WaitingReader(r.threads[a.t]) - WaitingReader(s.threads[a.t])
            && r.c.wwriters - s.c.wwriters == WaitingWriter(r.threads[a.t]) - WaitingWriter(s.threads[a.t])
            && r.c.areaders - s.c.areaders == ActiveReader(r.threads[a.t]) - ActiveReader(s.threads[a.t])
            && r.c.awriters - s.c.awriters == ActiveWriter(r.threads[a.t]) - ActiveWriter(s.threads[a.t])
  {
  }

  lemma CountedStep(s: State, a: Action)
    requires Counted(s) && Enabled(s, a)
    ensures Counted(Do(s, a))
  {
    if Waking(s, a) {
      CountedWake(s, a);
    } else {
      CounterDelta(s, a);
      Recount(s.threads, a.t, Do(s, a).threads[a.t]);
    }
  }

  /** A broadcast moves the waking thread, and maybe all sleepers of one kind. */
  lemma WakeShape(s: State, a: Action) returns (ts: seq<Thread>, k: Kind)
    requires Enabled(s, a) && Waking(s, a)
    ensures ts == s.threads[a.t := s.threads[a.t].(at := if s.threads[a.t].at.WakeReaders? then WakeWriters else Finish)]
    ensures Do(s, a).c == s.c && Do(s, a).policy == s.policy
    ensures Do(s, a).threads == ts || Do(s, a).threads == Wake(ts, k)
  {
    ts := s.threads[a.t := s.threads[a.t].(at := if s.threads[a.t].at.WakeReaders? then WakeWriters else Finish)];
    k := if s.threads[a.t].at.WakeReaders? then Reader else Writer;
  }

  lemma CountedWake(s: State, a: Action)
    requires Counted(s) && Enabled(s, a) && Waking(s, a)
    ensures Counted(Do(s, a))
  {
    var ts, k := WakeShape(s, a);
    CountedBroadcast(s, Do(s, a), a.t, ts[a.t], k);
  }

  lemma CountedBroadcast(s: State, r: State, t: nat, th: Thread, k: Kind)
    requires Counted(s) && t < |s.threads| && r.c == s.c
    requires r.threads == s.threads[t := th] || r.threads == Wake(s.threads[t := th], k)
    requires th.at.WakeWriters? || th.at.Finish?
    requires s.threads[t].at.WakeReaders? || s.threads[t].at.WakeWriters?
    ensures Counted(r)
  {
    CountedMoved(s, t, th);
    WakeKeepsCounts(s.threads[t := th], k);
  }

  lemma CountedMoved(s: State, t: nat, th: Thread)
    requires Counted(s) && t < |s.threads|
    requires th.at.WakeWriters? || th.at.Finish?
    requires s.threads[t].at.WakeReaders? || s.threads[t].at.WakeWriters?
    ensures Counted(s.(threads := s.threads[t := th]))
  {
    Recount(s.threads, t, th);
  }

  lemma MutexStep(s: State, a: Action)
    requires Mutex(s) && Enabled(s, a)
    ensures Mutex(Do(s, a))
  {
  }

  /** Before and after a step, some counted threads exist. */
  lemma CountsBound(s: State, t: nat)
    requires Counted(s) && t < |s.threads|
    ensures s.c.wreaders >= IsWaiting(Reader, s.threads[t]) && s.c.wwriters >= IsWaiting(Writer, s.threads[t])
    ensures s.c.areaders >= IsActive(Reader, s.threads[t]) && s.c.awriters >= IsActive(Writer, s.threads[t])
  {
    SumAtLeast(s.threads, t, WaitingReader);
    SumAtLeast(s.threads, t, WaitingWriter);
    SumAtLeast(s.threads, t, ActiveReader);
    SumAtLeast(s.threads, t, ActiveWriter);
  }

  lemma ExcludesStep(s: State, a: Action)
    requires Inv(s) && Enabled(s, a)
    ensures Excludes(Do(s, a).c)
  {
    CountsBound(s, a.t);
  }

  lemma CheckedStep(s: State, a: Action)
    requires Inv(s) && Enabled(s, a)
    ensures CheckedOk(Do(s, a))
  {
  }

  /** A thread that sleeps after a broadcast was not the one to be woken. */
  lemma WakeupBroadcast(s: State, a: Action, t: nat)
    requires Inv(s) && Enabled(s, a) && Waking(s, a) && t < |s.threads| && Do(s, a).threads[t].at.Asleep?
    ensures MustWait(s.policy, Do(s, a).c, Do(s, a).threads[t].kind) || WakeComing(Do(s, a), Do(s, a).threads[t].kind)
  {
    CountsBound(s, t);
  }

  lemma WakeupStep(s: State, a: Action, t: nat)
    requires Inv(s) && Enabled(s, a) && t < |s.threads| && Do(s, a).threads[t].at.Asleep?
    ensures MustWait(s.policy, Do(s, a).c, Do(s, a).threads[t].kind) || WakeComing(Do(s, a), Do(s, a).threads[t].kind)
  {
    if Waking(s, a) {
      WakeupBroadcast(s, a, t);
    } else {
      CountsBound(s, t);
      CountsBound(s, a.t);
    }
  }

  lemma StepInv(s: State, a: Action)
    requires Inv(s) && Enabled(s, a)
    ensures Inv(Do(s, a))
  {
    CountedStep(s, a);
    MutexStep(s, a);
    ExcludesStep(s, a);
    CheckedStep(s, a);
    forall t | 0 <= t < |s.threads| && Do(s, a).threads[t].at.Asleep?
      ensures MustWait(s.policy, Do(s, a).c, Do(s, a).threads[t].kind) || WakeComing(Do(s, a), Do(s, a).threads[t].kind)
    {
      WakeupStep(s, a, t);
    }
  }

  ghost predicate IsRun(run: seq<State>, acts: seq<Action>) {
    && |run| == |acts| + 1
    && Init(run[0])
    && forall i :: 0 <= i < |acts| ==> Enabled(run[i], acts[i]) && run[i + 1] == Do(run[i], acts[i])
  }

  lemma {:induction false} InvAlways(run: seq<State>, acts: seq<Action>, i: nat)
    requires IsRun(run, acts) && i < |run|
    ensures Inv(run[i])
  {
    if i == 0 {
      SumZero(run[0].threads, WaitingReader);
      SumZero(run[0].threads, WaitingWriter);
      SumZero(run[0].threads, ActiveReader);
      SumZero(run[0].threads, ActiveWriter);
    } else {
      InvAlways(run, acts, i - 1);
      StepInv(run[i - 1], acts[i - 1]);
    }
  }

  // ----- Theorems ---------------------------------------------------------------------------------

  /** A thread inside the lock: between a successful entry and the start of its exit. */
  predicate Has(th: Thread, k: Kind) {
    th.kind == k && (th.at.Leave? || th.at.Active? || th.at.WantOut? || th.at.Retire?)
  }

  /** In every run, under either policy, a writer inside is the only thread inside. */
  lemma WriterIsAlone(run: seq<State>, acts: seq<Action>, i: nat, t: nat, u: nat)
    requires IsRun(run, acts) && i < |run| && t < |run[i].threads| && u < |run[i].threads| && t != u
    requires Has(run[i].threads[t], Writer)
    ensures !Has(run[i].threads[u], Reader) && !Has(run[i].threads[u], Writer)
  {
    InvAlways(run, acts, i);
    var s := run[i];
    CountsBound(s, t);
    CountsBound(s, u);
    if t < u {
      SumAtLeastTwo(s.threads, t, u, ActiveWriter);
    } else {
      SumAtLeastTwo(s.threads, u, t, ActiveWriter);
    }
  }

  /** Preferring writers: a reader gets in only when no writer is inside or waiting; preferring
      readers: only when no writer is inside. A writer gets in only when nobody is inside. */
  lemma EntryRespectsPolicy(run: seq<State>, acts: seq<Action>, i: nat, t: nat)
    requires IsRun(run, acts) && i < |acts| && acts[i] == Step(t) && run[i].threads[t].at.Enter?
    ensures run[i].c.awriters == 0
    ensures run[i].threads[t].kind.Reader? && run[i].policy.ReadersStarve? ==> run[i].c.wwriters == 0
    ensures run[i].threads[t].kind.Writer? ==> run[i].c.areaders == 0
  {
    InvAlways(run, acts, i);
  }

  /** A thread that has registered and is not inside yet. */
  predicate Waits(th: Thread, k: Kind) {
    th.kind == k && (th.at.Check? || th.at.Enter? || th.at.Asleep? || th.at.Woken?)
  }

  /** A counter is zero exactly when nobody counts for it. */
  lemma CountersTell(s: State)
    requires Counted(s)
    ensures s.c.awriters == 0 <==> forall u :: 0 <= u < |s.threads| ==> !Has(s.threads[u], Writer)
    ensures s.c.areaders == 0 <==> forall u :: 0 <= u < |s.threads| ==> !Has(s.threads[u], Reader)
    ensures s.c.wwriters == 0 <==> forall u :: 0 <= u < |s.threads| ==> !Waits(s.threads[u], Writer)
  {
    forall u | 0 <= u < |s.threads| ensures s.c.awriters >= IsActive(Writer, s.threads[u])
      && s.c.areaders >= IsActive(Reader, s.threads[u]) && s.c.wwriters >= IsWaiting(Writer, s.threads[u])
    {
      CountsBound(s, u);
    }
    if s.c.awriters != 0 {
      var u := SumWitness(s.threads, ActiveWriter);
    }
    if s.c.areaders != 0 {
      var u := SumWitness(s.threads, ActiveReader);
    }
    if s.c.wwriters != 0 {
      var u := SumWitness(s.threads, WaitingWriter);
    }
  }

  /** In every run, a thread that evaluates its wait predicate goes on exactly when the policy
      says so: a writer when nobody is inside, a reader when no writer is inside and, preferring
      writers, none is waiting either; otherwise it goes to sleep. */
  lemma CheckExact(run: seq<State>, acts: seq<Action>, i: nat, t: nat)
    requires IsRun(run, acts) && i < |acts| && acts[i] == Step(t) && run[i].threads[t].at.Check?
    ensures var s, at := run[i], run[i + 1].threads[t].at;
            && (at.Enter? || at.Asleep?)
            && (s.threads[t].kind.Writer? ==>
                  (at.Enter? <==> forall u :: 0 <= u < |s.threads| ==>
                     !Has(s.threads[u], Writer) && !Has(s.threads[u], Reader)))
            && (s.threads[t].kind.Reader? && s.policy.WritersStarve? ==>
                  (at.Enter? <==> forall u :: 0 <= u < |s.threads| ==> !Has(s.threads[u], Writer)))
            && (s.threads[t].kind.Reader? && s.policy.ReadersStarve? ==>
                  (at.Enter? <==> forall u :: 0 <= u < |s.threads| ==>
                     !Has(s.threads[u], Writer) && !Waits(s.threads[u], Writer)))
  {
    InvAlways(run, acts, i);
    CountersTell(run[i]);
  }

  /** No wake-up is lost: unless a thread is inside rwlock_wakeup, every sleeper must wait. */
  lemma SleepersMustWait(run: seq<State>, acts: seq<Action>, i: nat, t: nat)
    requires IsRun(run, acts) && i < |run| && t < |run[i].threads| && run[i].threads[t].at.Asleep?
    requires forall u :: 0 <= u < |run[i].threads| ==> !run[i].threads[u].at.WakeReaders? && !run[i].threads[u].at.WakeWriters?
    ensures MustWait(run[i].policy, run[i].c, run[i].threads[t].kind)
  {
    InvAlways(run, acts, i);
  }

  predicate AllAway(s: State) {
    forall t :: 0 <= t < |s.threads| ==> s.threads[t].at.Away?
  }

  ghost predicate CanStep(s: State) {
    exists t :: Enabled(s, Step(t))
  }

  /** A thread that cannot step is away, asleep, or waits for a mutex that is taken. */
  lemma MutexFree(s: State)
    requires Inv(s) && !CanStep(s)
    ensures s.mu.None? && forall t :: 0 <= t < |s.threads| ==> s.threads[t].at.Away? || s.threads[t].at.Asleep?
  {
    assert s.mu.Some? ==> Enabled(s, Step(s.mu.value));
    forall t | 0 <= t < |s.threads| ensures s.threads[t].at.Away? || s.threads[t].at.Asleep? {
      assert !Enabled(s, Step(t));
    }
  }

  /** Progress without spurious wake-ups or new calls: as long as some thread uses the lock,
      some thread can take a step. */
  lemma NeverStuck(s: State)
    requires Inv(s) && !AllAway(s)
    ensures CanStep(s)
  {
    if !CanStep(s) {
      MutexFree(s);
      SumZero(s.threads, ActiveReader);
      SumZero(s.threads, ActiveWriter);
      var t :| 0 <= t < |s.threads| && !s.threads[t].at.Away?;
      assert MustWait(s.policy, s.c, s.threads[t].kind);
      var u := SumWitness(s.threads, WaitingWriter);
      assert false;
    }
  }

  // ----- Everybody gets in and out --------------------------------------------------------------------

  /** Broadcasts a thread has still to make. */
  function Broadcasts(th: Thread): nat {
    if th.at.Away? || th.at.Finish? then 0 else if th.at.WakeWriters? then 1 else 2
  }

  /** Statements left for a thread that is not put to sleep and woken again. */
  function Rank(th: Thread): nat {
    match th.at
    case Away => 0
    case Finish => 1
    case WakeWriters => 2
    case WakeReaders => 3
    case Retire => 4
    case WantOut => 5
    case Active => 6
    case Leave => 7
    case Enter => 8
    case Asleep => 8
    case Check => 9
    case Woken => 10
    case Register => 10
    case Want => 11
  }

  function BroadcastsLeft(s: State): nat { Sum(s.threads, Broadcasts) }
  function StatementsLeft(s: State): nat { Sum(s.threads, Rank) }

  lemma WakeDecreases(s: State, t: nat)
    requires Enabled(s, Step(t)) && Waking(s, Step(t))
    ensures BroadcastsLeft(Do(s, Step(t))) < BroadcastsLeft(s)
  {
    var ts, k := WakeShape(s, Step(t));
    SumUpdate(s.threads, t, ts[t], Broadcasts);
    SumSame(ts, Wake(ts, k), Broadcasts);
  }

  /** Broadcasts get fewer; between them, statements get fewer. */
  lemma StepDecreases(s: State, t: nat)
    requires Enabled(s, Step(t))
    ensures var r := Do(s, Step(t));
            BroadcastsLeft(r) < BroadcastsLeft(s) || (BroadcastsLeft(r) == BroadcastsLeft(s) && StatementsLeft(r) < StatementsLeft(s))
  {
    if Waking(s, Step(t)) {
      WakeDecreases(s, t);
    } else {
      CounterDelta(s, Step(t));
      SumUpdate(s.threads, t, Do(s, Step(t)).threads[t], Broadcasts);
      SumUpdate(s.threads, t, Do(s, Step(t)).threads[t], Rank);
    }
  }

  /** An infinite future of steps, as long as there are any; no new calls. */
  ghost predicate Future(f: nat -> State) {
    forall i: nat :: Steps(f(i), f(i + 1)) || (f(i + 1) == f(i) && !CanStep(f(i)))
  }

  ghost predicate Steps(s: State, r: State) {
    exists t :: Enabled(s, Step(t)) && r == Do(s, Step(t))
  }

  lemma Later(f: nat -> State) returns (g: nat -> State)
    requires Future(f)
    ensures Future(g) && forall i: nat :: g(i) == f(i + 1)
  {
    g := (i: nat) => f(i + 1);
    forall i: nat ensures Steps(g(i), g(i + 1)) || (g(i + 1) == g(i) && !CanStep(g(i))) {
      assert g(i) == f(i + 1) && g(i + 1) == f(i + 1 + 1);
    }
  }

  /** Every thread that asked for the lock gets it and gives it back, whatever the schedule. */
  lemma {:induction false} EverybodyGetsThrough(f: nat -> State) returns (n: nat)
    requires Future(f) && Inv(f(0))
    ensures AllAway(f(n))
    decreases BroadcastsLeft(f(0)), StatementsLeft(f(0))
  {
    if AllAway(f(0)) {
      n := 0;
    } else {
      NeverStuck(f(0));
      assert Steps(f(0), f(0 + 1));
      var t :| Enabled(f(0), Step(t)) && f(1) == Do(f(0), Step(t));
      StepInv(f(0), Step(t));
      StepDecreases(f(0), t);
      var g := Later(f);
      var k := EverybodyGetsThrough(g);
      n := k + 1;
    }
  }

  // ----- New calls all the time -----------------------------------------------------------------------

  /** Thread `t` is about to enter. */
  predicate Enters(s: State, a: Action) {
    a.Step? && a.t < |s.threads| && s.threads[a.t].at.Enter?
  }

  /** Broadcasts still to come from the threads inside; a thread outside has to enter first. */
  function BroadcastsInside(th: Thread): nat {
    match th.at
    case Leave => 2
    case Active => 2
    case WantOut => 2
    case Retire => 2
    case WakeReaders => 2
    case WakeWriters => 1
    case _ => 0
  }

  /** Statements left before a thread is asleep, or about to enter, counting another call. */
  function RankOutside(th: Thread): nat {
    match th.at
    case Leave => 12
    case Active => 11
    case WantOut => 10
    case Retire => 9
    case WakeReaders => 8
    case WakeWriters => 7
    case Finish => 6
    case Away => 5
    case Want => 4
    case Register => 3
    case Woken => 3
    case Check => 2
    case Enter => 1
    case Asleep => 0
  }

  function InsideLeft(s: State): nat { Sum(s.threads, BroadcastsInside) }
  function OutsideLeft(s: State): nat { Sum(s.threads, RankOutside) }

  lemma WakeBringsDown(s: State, a: Action)
    requires Enabled(s, a) && Waking(s, a)
    ensures InsideLeft(Do(s, a)) < InsideLeft(s)
  {
    var ts, k := WakeShape(s, a);
    SumUpdate(s.threads, a.t, ts[a.t], BroadcastsInside);
    SumSame(ts, Wake(ts, k), BroadcastsInside);
  }

  lemma OneThreadDown(s: State, a: Action)
    requires Enabled(s, a) && !a.Spurious? && !Waking(s, a) && !Enters(s, a)
    ensures var r := Do(s, a);
            && |r.threads| == |s.threads| && r.threads == s.threads[a.t := r.threads[a.t]]
            && BroadcastsInside(r.threads[a.t]) <= BroadcastsInside(s.threads[a.t])
            && RankOutside(r.threads[a.t]) < RankOutside(s.threads[a.t])
  {
  }

  /** Every step and every new call but an entry brings the pair down. */
  lemma OutsideDecreases(s: State, a: Action)
    requires Enabled(s, a) && !a.Spurious? && !Enters(s, a)
    ensures var r := Do(s, a);
            InsideLeft(r) < InsideLeft(s) || (InsideLeft(r) == InsideLeft(s) && OutsideLeft(r) < OutsideLeft(s))
  {
    if Waking(s, a) {
      WakeBringsDown(s, a);
    } else {
      OneThreadDown(s, a);
      SumUpdate(s.threads, a.t, Do(s, a).threads[a.t], BroadcastsInside);
      SumUpdate(s.threads, a.t, Do(s, a).threads[a.t], RankOutside);
    }
  }

  /** Until somebody enters, nobody stops waiting. */
  lemma WaitingStays(s: State, a: Action)
    requires Enabled(s, a) && !Enters(s, a)
    ensures Do(s, a).policy == s.policy
    ensures Do(s, a).c.wreaders >= s.c.wreaders && Do(s, a).c.wwriters >= s.c.wwriters
  {
  }

  lemma StillWaiting(s: State, a: Action, r: State)
    requires Inv(s) && Enabled(s, a) && !a.Spurious? && !Enters(s, a) && r == Do(s, a)
    ensures Inv(r) && r.policy == s.policy && r.c.wreaders >= s.c.wreaders && r.c.wwriters >= s.c.wwriters
    ensures InsideLeft(r) < InsideLeft(s) || (InsideLeft(r) == InsideLeft(s) && OutsideLeft(r) < OutsideLeft(s))
  {
    StepInv(s, a);
    OutsideDecreases(s, a);
    WaitingStays(s, a);
  }

  /** A step or a new call. */
  ghost predicate Goes(s: State, r: State) {
    exists a :: Enabled(s, a) && !a.Spurious? && r == Do(s, a)
  }

  /** An infinite future of steps and new calls, in any order. */
  ghost predicate BusyFuture(f: nat -> State) {
    forall i: nat :: Goes(f(i), f(i + 1)) || (f(i + 1) == f(i) && !CanStep(f(i)))
  }

  lemma BusyLater(f: nat -> State) returns (g: nat -> State)
    requires BusyFuture(f)
    ensures BusyFuture(g) && forall i: nat :: g(i) == f(i + 1)
  {
    g := (i: nat) => f(i + 1);
    forall i: nat ensures Goes(g(i), g(i + 1)) || (g(i + 1) == g(i) && !CanStep(g(i))) {
      assert g(i) == f(i + 1) && g(i + 1) == f(i + 1 + 1);
    }
  }

  lemma SomebodyWaits(s: State)
    requires Inv(s) && s.c.wreaders + s.c.wwriters > 0
    ensures CanStep(s)
  {
    if AllAway(s) {
      SumZero(s.threads, WaitingReader);
      SumZero(s.threads, WaitingWriter);
    }
    NeverStuck(s);
  }

  /** The step with which thread `t` enters. */
  ghost predicate EntersNext(s: State, r: State, t: nat) {
    t < |s.threads| && s.threads[t].at.Enter? && r == Do(s, Step(t))
  }

  /** Under either policy and every schedule, with new calls all the time: while somebody waits,
      somebody gets in. Nobody stopped waiting before. */
  lemma {:induction false} SomebodyGetsIn(f: nat -> State) returns (n: nat, t: nat)
    requires BusyFuture(f) && Inv(f(0)) && f(0).c.wreaders + f(0).c.wwriters > 0
    ensures Inv(f(n)) && EntersNext(f(n), f(n + 1), t) && f(n).policy == f(0).policy
    ensures f(n).c.wreaders >= f(0).c.wreaders && f(n).c.wwriters >= f(0).c.wwriters
    decreases InsideLeft(f(0)), OutsideLeft(f(0))
  {
    SomebodyWaits(f(0));
    assert Goes(f(0), f(0 + 1));
    var a :| Enabled(f(0), a) && !a.Spurious? && f(1) == Do(f(0), a);
    if Enters(f(0), a) {
      n, t := 0, a.t;
      assert f(0 + 1) == f(1);
    } else {
      StillWaiting(f(0), a, f(1));
      var g := BusyLater(f);
      var m;
      m, t := SomebodyGetsIn(g);
      n := m + 1;
      assert g(m) == f(n) && g(m + 1) == f(n + 1);
    }
  }

  /** Preferring writers: while a writer waits, a writer gets in, however many readers call. */
  lemma WriterGetsIn(f: nat -> State) returns (n: nat, t: nat)
    requires BusyFuture(f) && Inv(f(0)) && f(0).policy.ReadersStarve? && f(0).c.wwriters > 0
    ensures EntersNext(f(n), f(n + 1), t) && f(n).threads[t].kind.Writer?
  {
    CountsNotNegative(f(0));
    n, t := SomebodyGetsIn(f);
  }

  lemma CountsNotNegative(s: State)
    requires Counted(s)
    ensures s.c.wreaders >= 0 && s.c.wwriters >= 0
  {
  }
}

/** queue_push and queue_pop of src/queue.c run by any number of threads: three semaphores
    around the circular buffer, one statement a step. */
module BoundedQueue {
  import opened Sums
  import opened Ring

  /** Where a thread is. The argument is the element pushed, or the element popped. */
  datatype Pc<T> =
    | Out
    | PushFull(x: T) | PushMutex(x: T) | PushBody(x: T) | PushUnlock | PushPost
    | PopEmpty | PopMutex | PopBody | PopUnlock(x: T) | PopPost(x: T) | Got(x: T)

  /** `pushed` and `popped` list the elements in the order of the critical sections. */
  datatype State<T> = State(
    ring: Ring<T>,
    mutex: nat,
    full: nat,
    empty: nat,
    threads: seq<Pc<T>>,
    pushed: seq<T>,
    popped: seq<T>)

  /** A thread inside an operation can take its next statement: semaphore waits need a token. */
  ghost predicate Ready<T>(s: State<T>, t: nat) {
    t < |s.threads| &&
    match s.threads[t]
    case Out => false
    case PushFull(_) => s.full > 0
    case PushMutex(_) => s.mutex > 0
    case PopEmpty => s.empty > 0
    case PopMutex => s.mutex > 0
    case Got(_) => false
    case _ => true
  }

  function Set<T>(s: State<T>, t: nat, pc: Pc<T>): State<T>
    requires t < |s.threads|
  {
    s.(threads := s.threads[t := pc])
  }

  function Advance<T>(s: State<T>, t: nat): State<T>
    requires t < |s.threads| && 0 < s.ring.size == |s.ring.buffer| && s.ring.head < s.ring.size && s.ring.tail < s.ring.size
  {
    match s.threads[t]
    case PushFull(x) => if s.full > 0 then Set(s, t, PushMutex(x)).(full := s.full - 1) else s
    case PushMutex(x) => if s.mutex > 0 then Set(s, t, PushBody(x)).(mutex := s.mutex - 1) else s
    case PushBody(x) => Set(s, t, PushUnlock).(ring := Store(s.ring, x), pushed := s.pushed + [x])
    case PushUnlock => Set(s, t, PushPost).(mutex := s.mutex + 1)
    case PushPost => Set(s, t, Out).(empty := s.empty + 1)
    case PopEmpty => if s.empty > 0 then Set(s, t, PopMutex).(empty := s.empty - 1) else s
    case PopMutex => if s.mutex > 0 then Set(s, t, PopBody).(mutex := s.mutex - 1) else s
    case PopBody =>
      var x := Front(s.ring);
      Set(s, t, PopUnlock(x)).(ring := Drop(s.ring), popped := s.popped + [x])
    case PopUnlock(x) => Set(s, t, PopPost(x)).(mutex := s.mutex + 1)
    case PopPost(x) => Set(s, t, Got(x)).(full := s.full + 1)
    case _ => s
  }

  /** Any thread outside may call queue_push or queue_pop; a finished pop may return. */
  datatype Action<T> = Call(t: nat, pc: Pc<T>) | Step(t: nat) | Return(t: nat)

  ghost predicate Enabled<T>(s: State<T>, a: Action<T>) {
    match a
    case Call(t, pc) => t < |s.threads| && s.threads[t].Out? && (pc.PushFull? || pc.PopEmpty?)
    case Step(t) => Ready(s, t) && InRange(s.ring)
    case Return(t) => t < |s.threads| && s.threads[t].Got?
  }

  ghost function Do<T>(s: State<T>, a: Action<T>): State<T>
    requires Enabled(s, a)
  {
    match a
    case Call(t, pc) => Set(s, t, pc)
    case Step(t) => Advance(s, t)
    case Return(t) => Set(s, t, Out)
  }

  /** queue_new, with no thread inside. */
  ghost predicate Init<T>(s: State<T>) {
    && Valid(s.ring) && s.ring.count == 0
    && s.mutex == 1 && s.full == s.ring.size && s.empty == 0
    && s.pushed == [] && s.popped == []
    && forall t :: 0 <= t < |s.threads| ==> s.threads[t].Out?
  }

  // ----- Token classes -----------------------------------------------------------------------

  /** Inside the critical section. */
  function Inside<T>(pc: Pc<T>): nat {
    if pc.PushBody? || pc.PushUnlock? || pc.PopBody? || pc.PopUnlock? then 1 else 0
  }

  /** Claimed a free slot, not stored yet. */
  function SlotClaim<T>(pc: Pc<T>): nat { if pc.PushMutex? || pc.PushBody? then 1 else 0 }

  /** Stored an element, not announced yet. */
  function Unannounced<T>(pc: Pc<T>): nat { if pc.PushUnlock? || pc.PushPost? then 1 else 0 }

  /** Claimed an element, not taken yet. */
  function ItemClaim<T>(pc: Pc<T>): nat { if pc.PopMutex? || pc.PopBody? then 1 else 0 }

  /** Took an element, slot not given back yet. */
  function Unreturned<T>(pc: Pc<T>): nat { if pc.PopUnlock? || pc.PopPost? then 1 else 0 }

  /** Every slot and every element is accounted for by exactly one token or thread. */
  ghost predicate Tokens<T>(s: State<T>) {
    && s.mutex + Sum(s.threads, Inside) == 1
    && s.full + Sum(s.threads, SlotClaim) + s.ring.count + Sum(s.threads, Unreturned) == s.ring.size
    && s.empty + Sum(s.threads, ItemClaim) + Sum(s.threads, Unannounced) == s.ring.count
  }

  ghost predicate Inv<T>(s: State<T>) {
    Valid(s.ring) && Tokens(s) && s.pushed == s.popped + Contents(s.ring)
  }

  lemma InitInv<T>(s: State<T>)
    requires Init(s)
    ensures Inv(s)
  {
    SumZero(s.threads, Inside);
    SumZero(s.threads, SlotClaim);
    SumZero(s.threads, Unannounced);
    SumZero(s.threads, ItemClaim);
    SumZero(s.threads, Unreturned);
  }

  /** The five sums after one thread moved. */
  lemma Recount<T>(s: seq<Pc<T>>, t: nat, pc: Pc<T>)
    requires t < |s|
    ensures Sum(s[t := pc], Inside) + Inside(s[t]) == Sum(s, Inside) + Inside(pc)
    ensures Sum(s[t := pc], SlotClaim) + SlotClaim(s[t]) == Sum(s, SlotClaim) + SlotClaim(pc)
    ensures Sum(s[t := pc], Unannounced) + Unannounced(s[t]) == Sum(s, Unannounced) + Unannounced(pc)
    ensures Sum(s[t := pc], ItemClaim) + ItemClaim(s[t]) == Sum(s, ItemClaim) + ItemClaim(pc)
    ensures Sum(s[t := pc], Unreturned) + Unreturned(s[t]) == Sum(s, Unreturned) + Unreturned(pc)
  {
    SumUpdate(s, t, pc, Inside);
    SumUpdate(s, t, pc, SlotClaim);
    SumUpdate(s, t, pc, Unannounced);
    SumUpdate(s, t, pc, ItemClaim);
    SumUpdate(s, t, pc, Unreturned);
  }

  /** A thread about to store finds a free slot, one about to take finds an element. */
  lemma NoOverrun<T>(s: State<T>, t: nat)
    requires Inv(s) && t < |s.threads|
    ensures s.threads[t].PushBody? ==> s.ring.count < s.ring.size
    ensures s.threads[t].PopBody? ==> s.ring.count > 0
  {
    SumAtLeast(s.threads, t, SlotClaim);
    SumAtLeast(s.threads, t, ItemClaim);
  }

  /** At most one thread is in the critical section. */
  lemma MutualExclusion<T>(s: State<T>, t: nat, u: nat)
    requires Inv(s) && t < u < |s.threads|
    ensures Inside(s.threads[t]) + Inside(s.threads[u]) <= 1
  {
    SumAtLeastTwo(s.threads, t, u, Inside);
  }

  lemma PushBodyInv<T>(s: State<T>, t: nat)
    requires Inv(s) && t < |s.threads| && s.threads[t].PushBody?
    ensures Inv(Advance(s, t))
  {
    NoOverrun(s, t);
    Recount(s.threads, t, PushUnlock);
    StoreAppends(s.ring, s.threads[t].x);
    assert s.pushed + [s.threads[t].x] == s.popped + (Contents(s.ring) + [s.threads[t].x]);
  }

  lemma PopBodyInv<T>(s: State<T>, t: nat)
    requires Inv(s) && t < |s.threads| && s.threads[t].PopBody?
    ensures Inv(Advance(s, t))
  {
    var x := Front(s.ring);
    NoOverrun(s, t);
    Recount(s.threads, t, PopUnlock(x));
    DropRemoves(s.ring);
    assert s.pushed == (s.popped + [x]) + Contents(Drop(s.ring));
  }

  lemma PushInv<T>(s: State<T>, t: nat)
    requires Inv(s) && Ready(s, t)
    requires s.threads[t].PushFull? || s.threads[t].PushMutex? || s.threads[t].PushUnlock? || s.threads[t].PushPost?
    ensures Inv(Advance(s, t))
  {
    Recount(s.threads, t, Advance(s, t).threads[t]);
  }

  lemma PopInv<T>(s: State<T>, t: nat)
    requires Inv(s) && Ready(s, t)
    requires s.threads[t].PopEmpty? || s.threads[t].PopMutex? || s.threads[t].PopUnlock? || s.threads[t].PopPost?
    ensures Inv(Advance(s, t))
  {
    Recount(s.threads, t, Advance(s, t).threads[t]);
  }

  lemma StepInv<T>(s: State<T>, a: Action<T>)
    requires Inv(s) && Enabled(s, a)
    ensures Inv(Do(s, a))
  {
    if !a.Step? {
      Recount(s.threads, a.t, Do(s, a).threads[a.t]);
    } else {
      match s.threads[a.t]
      case PushBody(_) => PushBodyInv(s, a.t);
      case PopBody => PopBodyInv(s, a.t);
      case PushFull(_) => PushInv(s, a.t);
      case PushMutex(_) => PushInv(s, a.t);
      case PushUnlock => PushInv(s, a.t);
      case PushPost => PushInv(s, a.t);
      case _ => PopInv(s, a.t);
    }
  }

  ghost predicate IsRun<T>(run: seq<State<T>>, acts: seq<Action<T>>) {
    && |run| == |acts| + 1
    && Init(run[0])
    && forall i :: 0 <= i < |acts| ==> Enabled(run[i], acts[i]) && run[i + 1] == Do(run[i], acts[i])
  }

  /** Every run: tokens are conserved, and what was popped is the oldest part of what was
      pushed, the rest being in the buffer. */
  lemma {:induction false} QueueIsFifo<T>(run: seq<State<T>>, acts: seq<Action<T>>, i: nat)
    requires IsRun(run, acts) && i < |run|
    ensures Inv(run[i]) && run[i].popped <= run[i].pushed
    ensures |run[i].pushed| - |run[i].popped| == run[i].ring.count <= run[i].ring.size
  {
    if i == 0 {
      InitInv(run[0]);
    } else {
      QueueIsFifo(run, acts, i - 1);
      StepInv(run[i - 1], acts[i - 1]);
    }
  }

  /** When no thread in an operation can take a step, every one of them waits for a token
      that is not there: pushers on a full queue, poppers on an empty one. */
  lemma BlockedMeans<T>(s: State<T>)
    requires Inv(s) && forall t :: 0 <= t < |s.threads| ==> !Ready(s, t)
    ensures forall t :: 0 <= t < |s.threads| ==>
              s.threads[t].Out? || s.threads[t].Got? || s.threads[t].PushFull? || s.threads[t].PopEmpty?
    ensures s.full + s.ring.count == s.ring.size && s.empty == s.ring.count
    ensures (exists t :: 0 <= t < |s.threads| && s.threads[t].PushFull?) ==> s.ring.count == s.ring.size
    ensures (exists t :: 0 <= t < |s.threads| && s.threads[t].PopEmpty?) ==> s.ring.count == 0
  {
    if s.mutex == 0 {
      var t := SumWitness(s.threads, Inside);
      assert Ready(s, t);
    }
    forall t | 0 <= t < |s.threads|
      ensures s.threads[t].Out? || s.threads[t].Got? || s.threads[t].PushFull? || s.threads[t].PopEmpty?
      ensures SlotClaim(s.threads[t]) == Unannounced(s.threads[t]) == ItemClaim(s.threads[t]) == Unreturned(s.threads[t]) == 0
    {
      assert !Ready(s, t);
    }
    SumZero(s.threads, SlotClaim);
    SumZero(s.threads, Unannounced);
    SumZero(s.threads, ItemClaim);
    SumZero(s.threads, Unreturned);
    if t :| 0 <= t < |s.threads| && s.threads[t].PushFull? {
      assert !Ready(s, t);
    }
    if t :| 0 <= t < |s.threads| && s.threads[t].PopEmpty? {
      assert !Ready(s, t);
    }
  }
}

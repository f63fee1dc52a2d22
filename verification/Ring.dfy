/** The circular buffer inside src/queue.c: raw index arithmetic, and the proof that it is a
    first-in first-out queue. */
module Ring {

  /** The fields of `struct queue` that its mutex protects. */
  datatype Ring<T> = Ring(size: nat, count: int, buffer: seq<T>, head: nat, tail: nat)

  /** Indices that can be used without a bounds fault. */
  ghost predicate InRange<T>(r: Ring<T>) {
    0 < r.size == |r.buffer| && r.head < r.size && r.tail < r.size
  }

  ghost predicate Valid<T>(r: Ring<T>) {
    InRange(r) && 0 <= r.count <= r.size && r.tail == (r.head + r.count) % r.size
  }

  /** The critical section of queue_push. */
  function Store<T>(r: Ring<T>, x: T): Ring<T>
    requires InRange(r)
  {
    Ring(r.size, r.count + 1, r.buffer[r.tail := x], r.head, (r.tail + 1) % r.size)
  }

  /** The critical section of queue_pop returns this element... */
  function Front<T>(r: Ring<T>): T
    requires InRange(r)
  {
    r.buffer[r.head]
  }

  /** ...and leaves this buffer. */
  function Drop<T>(r: Ring<T>): Ring<T>
    requires InRange(r)
  {
    r.(count := r.count - 1, head := (r.head + 1) % r.size)
  }

  /** The queued elements, oldest first. */
  ghost function Contents<T>(r: Ring<T>): seq<T>
    requires Valid(r)
  {
    seq(r.count, i requires 0 <= i < r.count => r.buffer[(r.head + i) % r.size])
  }

  lemma Wrap(i: nat, n: nat)
    requires i < 2 * n
    ensures i % n == if i < n then i else i - n
  {
    if n <= i {
      assert i == n * 1 + (i - n);
      assert i / n == 1;
    }
  }

  lemma WrapAll(n: nat)
    requires n > 0
    ensures forall i: nat :: i < 2 * n ==> i % n == if i < n then i else i - n
  {
    forall i: nat | i < 2 * n ensures i % n == if i < n then i else i - n {
      Wrap(i, n);
    }
  }

  /** Storing into a buffer that is not full appends, and keeps the invariant. */
  lemma StoreAppends<T>(r: Ring<T>, x: T)
    requires Valid(r) && r.count < r.size
    ensures Valid(Store(r, x)) && Contents(Store(r, x)) == Contents(r) + [x]
  {
    WrapAll(r.size);
    var q := Store(r, x);
    forall i | 0 <= i < q.count ensures Contents(q)[i] == (Contents(r) + [x])[i] {
      assert i < r.count ==> (r.head + i) % r.size != r.tail;
    }
  }

  /** Dropping from a buffer that is not empty removes the oldest element. */
  lemma DropRemoves<T>(r: Ring<T>)
    requires Valid(r) && r.count > 0
    ensures Valid(Drop(r)) && Contents(r) == [Front(r)] + Contents(Drop(r))
  {
    WrapAll(r.size);
    var q := Drop(r);
    assert |Contents(r)| == 1 + |Contents(q)|;
    forall i | 0 <= i < r.count ensures Contents(r)[i] == ([Front(r)] + Contents(q))[i] {
      if i > 0 {
        assert (q.head + (i - 1)) % r.size == (r.head + i) % r.size;
      }
    }
  }

  /** `struct queue` as queue.c updates it in place. */
  class Buffer<T> {
    const size: nat
    var count: int
    const buffer: array<T>
    var head: nat
    var tail: nat

    ghost function Value(): Ring<T>
      reads this, buffer
    {
      Ring(size, count, buffer[..], head, tail)
    }

    constructor (size: nat, blank: T)
      requires size > 0
      ensures fresh(buffer) && this.size == size
      ensures Valid(Value()) && Contents(Value()) == []
    {
      this.size := size;
      this.count := 0;
      this.buffer := new T[size](_ => blank);
      this.head := 0;
      this.tail := 0;
    }

    method Push(x: T)
      requires InRange(Value())
      modifies this, buffer
      ensures Value() == Store(old(Value()), x)
      ensures old(Valid(Value()) && count < size) ==> Valid(Value()) && Contents(Value()) == old(Contents(Value())) + [x]
    {
      ghost var r := Value();
      buffer[tail] := x;
      tail := (tail + 1) % size;
      count := count + 1;
      assert buffer[..] == r.buffer[r.tail := x];
      if Valid(r) && r.count < r.size {
        StoreAppends(r, x);
      }
    }

    method Pop() returns (x: T)
      requires InRange(Value())
      modifies this
      ensures Value() == Drop(old(Value())) && x == Front(old(Value()))
      ensures old(Valid(Value()) && count > 0) ==> Valid(Value()) && old(Contents(Value())) == [x] + Contents(Value())
    {
      ghost var r := Value();
      x := buffer[head];
      head := (head + 1) % size;
      count := count - 1;
      if Valid(r) && r.count > 0 {
        DropRemoves(r);
      }
    }
  }
}

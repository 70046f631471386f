/**
 The fixed-capacity circular buffer that the repository writes out four times: the run-queue
 (src/coroutine.c), the pipeline's `Ring` (tests/test_pipeline.c) and the two `TaskQueue`s
 (examples/work_stealing.c, examples/fiber_pool.c).
 */
module Rings {

  function Wrap(x: nat, cap: nat): nat
    requires 0 < cap
  {
    if x < cap then x else x - cap
  }

  lemma WrapIsMod(x: nat, cap: nat)
    requires 0 < cap && x < 2 * cap
    ensures x % cap == Wrap(x, cap)
  {
    if x >= cap {
      ModDrops(x - cap, cap);
    }
  }

  lemma ModDrops(y: nat, cap: nat)
    requires 0 < cap && y < cap
    ensures (y + cap) % cap == y
  {
    assert (y + cap) / cap == 1;
  }

  class Ring<T(0)> {
    const cap: nat
    const buf: array<T>
    var head: nat
    var tail: nat
    var size: nat

    ghost predicate Valid()
      reads this
    {
      && 0 < cap == buf.Length
      && head < cap && size <= cap
      && tail == Wrap(head + size, cap)
    }

    ghost function At(k: nat): T
      reads this, buf
      requires Valid() && k < size
    {
      buf[Wrap(head + k, cap)]
    }

    /** The buffered elements, oldest first. */
    ghost function Contents(): (s: seq<T>)
      reads this, buf
      requires Valid()
      ensures |s| == size
    {
      seq(size, k requires 0 <= k < size reads this, buf requires Valid() => At(k))
    }

    constructor (capacity: nat)
      requires 0 < capacity
      ensures Valid() && Contents() == [] && cap == capacity && fresh(buf)
    {
      cap := capacity;
      buf := new T[capacity];
      head, tail, size := 0, 0, 0;
    }

    predicate Full()
      reads this
      requires Valid()
      ensures Full() <==> |Contents()| == cap
    {
      size == cap
    }

    predicate Empty()
      reads this, buf
      requires Valid()
      ensures Empty() <==> Contents() == []
    {
      size == 0
    }

    /** `q_push`, `ring_push`: overflow is asserted not to happen. */
    method Push(v: T)
      requires Valid() && !Full()
      modifies this, buf
      ensures Valid() && Contents() == old(Contents()) + [v]
    {
      buf[tail] := v;
      WrapIsMod(tail + 1, cap);
      tail := (tail + 1) % cap;
      size := size + 1;
      assert forall k: nat :: k < old(size) ==> At(k) == old(At(k));
      assert At(old(size)) == v;
    }

    /** `ring_pop`: underflow is asserted not to happen. */
    method Pop() returns (v: T)
      requires Valid() && !Empty()
      modifies this
      ensures Valid() && old(Contents()) == [v] + Contents()
    {
      v := buf[head];
      WrapIsMod(head + 1, cap);
      head := (head + 1) % cap;
      size := size - 1;
      assert forall k: nat :: k < size ==> At(k) == old(At(k + 1));
    }

    /** `tq_push`, `queue_push`: a full buffer refuses. */
    method TryPush(v: T) returns (ok: bool)
      requires Valid()
      modifies this, buf
      ensures Valid() && ok == (|old(Contents())| < cap)
      ensures Contents() == if ok then old(Contents()) + [v] else old(Contents())
    {
      ok := size != cap;
      if ok { Push(v); }
    }

    /** `q_pop`, `tq_pop`, `queue_pop`: an empty buffer says so; `v` then keeps what the caller passed. */
    method TryPop(unset: T) returns (ok: bool, v: T)
      requires Valid()
      modifies this
      ensures Valid() && ok == (old(Contents()) != [])
      ensures if ok then old(Contents()) == [v] + Contents()
              else v == unset && Contents() == old(Contents())
    {
      ok, v := size != 0, unset;
      if ok { v := Pop(); }
    }
  }
}

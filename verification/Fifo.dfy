/** The ring of lib/ldp_fifo.c: a bounded queue that can also be pushed at its front. */
module Fifos {
  import opened Common

  /** Slot of the `i`-th element of a ring of `size` slots that starts at `tail`. */
  function Slot(tail: int, i: int, size: int): int {
    if tail + i < size then tail + i else tail + i - size
  }

  /** The `n` elements from `tail` on, around the ring. */
  function Around<T>(ring: seq<T>, tail: int, n: int): (s: seq<T>)
    requires 0 <= tail < |ring| && 0 <= n <= |ring|
    ensures |s| == n
  {
    if tail + n <= |ring| then ring[tail..tail + n] else ring[tail..] + ring[..tail + n - |ring|]
  }

  lemma AroundPushed<T>(ring: seq<T>, tail: int, n: int, x: T)
    requires 0 <= tail < |ring| && 0 <= n < |ring|
    ensures Around(ring[Slot(tail, n, |ring|) := x], tail, n + 1) == Around(ring, tail, n) + [x]
  {
  }

  lemma AroundAt<T>(ring: seq<T>, tail: int, n: int, i: int)
    requires 0 <= tail < |ring| && 0 <= i < n <= |ring|
    ensures Around(ring, tail, n)[i] == ring[Slot(tail, i, |ring|)]
  {
  }

  lemma AroundPushedFirst<T>(ring: seq<T>, tail: int, n: int, x: T)
    requires 0 <= tail < |ring| && 0 <= n < |ring|
    ensures var before := if tail == 0 then |ring| - 1 else tail - 1;
            Around(ring[before := x], before, n + 1) == [x] + Around(ring, tail, n)
  {
    hide Around;
    var before := if tail == 0 then |ring| - 1 else tail - 1;
    var after, s := Around(ring[before := x], before, n + 1), [x] + Around(ring, tail, n);
    forall i | 0 <= i < n + 1 ensures after[i] == s[i] {
      AroundAt(ring[before := x], before, n + 1, i);
      if i > 0 { AroundAt(ring, tail, n, i - 1); }
    }
  }

  lemma AroundPopped<T>(ring: seq<T>, tail: int, n: int)
    requires 0 <= tail < |ring| && 0 < n <= |ring|
    ensures Around(ring, tail, n)[0] == ring[tail]
    ensures Around(ring, if tail + 1 == |ring| then 0 else tail + 1, n - 1) == Around(ring, tail, n)[1..]
  {
  }

  class Fifo<T(0)> {
    const size: int
    const queue: array<T>
    var tail: int
    var head: int
    var currentSize: int

    ghost predicate Valid()
      reads this, queue
    {
      && 0 < size == queue.Length && 0 <= tail < size && 0 <= currentSize <= size
      && head == Slot(tail, currentSize, size)
    }

    /** The queued elements, next to be popped first. */
    ghost function Contents(): (s: seq<T>)
      reads this, queue
      requires Valid()
      ensures |s| == currentSize <= size
    {
      Around(queue[..], tail, currentSize)
    }

    /** ldp_init_fifo */
    constructor (size: int)
      requires size > 0
      ensures Valid() && fresh(queue) && this.size == size && Contents() == []
    {
      this.size := size;
      tail := 0;
      head := 0;
      currentSize := 0;
      queue := new T[size];
    }

    /** ldp_push_fifo */
    method Push(element: T) returns (ok: bool)
      requires Valid()
      modifies this, queue
      ensures Valid() && ok == (|old(Contents())| < size)
      ensures Contents() == if ok then old(Contents()) + [element] else old(Contents())
    {
      hide Around;
      if currentSize >= size {
        return false;
      }
      AroundPushed(queue[..], tail, currentSize, element);
      queue[head] := element;
      currentSize := currentSize + 1;
      if currentSize == 1 {
        tail := head;
      }
      head := head + 1;
      if head >= size {
        head := 0;
      }
      return true;
    }

    /** ldp_push_first_fifo */
    method PushFirst(element: T) returns (ok: bool)
      requires Valid()
      modifies this, queue
      ensures Valid() && ok == (|old(Contents())| < size)
      ensures Contents() == if ok then [element] + old(Contents()) else old(Contents())
    {
      hide Around;
      if currentSize >= size {
        return false;
      }
      AroundPushedFirst(queue[..], tail, currentSize, element);
      if currentSize == 0 {
        var _ := Push(element);
        return true;
      }
      currentSize := currentSize + 1;
      tail := tail - 1;
      if tail < 0 {
        tail := size - 1;
      }
      queue[tail] := element;
      return true;
    }

    /** ldp_pop_fifo */
    method Pop() returns (element: Option<T>)
      requires Valid()
      modifies this
      ensures Valid()
      ensures old(Contents()) == [] ==> element == None && Contents() == []
      ensures old(Contents()) != [] ==> element == Some(old(Contents())[0]) && Contents() == old(Contents())[1..]
    {
      hide Around;
      if currentSize <= 0 {
        return None;
      }
      AroundPopped(queue[..], tail, currentSize);
      element := Some(queue[tail]);
      currentSize := currentSize - 1;
      tail := tail + 1;
      if tail >= size {
        tail := 0;
      }
    }
  }
}

// The bounded array queue (queue.c) and the functions on sequences it computes.
module Queue {
  import opened Options

  const MAX_QUEUE_SIZE: nat := 10

  // A full queue drops the newcomer.
  function Enqueued<T>(q: seq<T>, x: T): seq<T> {
    if |q| >= MAX_QUEUE_SIZE then q else q + [x]
  }

  function Dequeued<T>(q: seq<T>): seq<T> {
    if q == [] then q else q[1..]
  }

  class Queue<T(0)> {
    const proc: array<T>
    var size: nat

    ghost predicate Valid()
      reads this
    {
      proc.Length == MAX_QUEUE_SIZE && size <= MAX_QUEUE_SIZE
    }

    ghost function Contents(): (s: seq<T>)
      requires Valid()
      reads this, proc
      ensures |s| == size
    {
      proc[..size]
    }

    constructor ()
      ensures Valid() && Contents() == [] && fresh(proc)
    {
      proc := new T[MAX_QUEUE_SIZE];
      size := 0;
    }

    method Enqueue(x: T)
      requires Valid()
      modifies this, proc
      ensures Valid() && Contents() == Enqueued(old(Contents()), x)
    {
      if size >= MAX_QUEUE_SIZE {
        return;
      }
      proc[size] := x;
      size := size + 1;
      assert Contents() == old(Contents()) + [x];
    }

    method Dequeue() returns (r: Option<T>)
      requires Valid()
      modifies this, proc
      ensures Valid() && Contents() == Dequeued(old(Contents()))
      ensures r == if old(Contents()) == [] then None else Some(old(Contents())[0])
    {
      if size == 0 {
        return None;
      }
      r := Some(proc[0]);
      RemoveAt(0);
    }

    // The shifting loop of dequeue and of both removal loops in sys_killall.c.
    method RemoveAt(i: nat)
      requires Valid() && i < size
      modifies this, proc
      ensures Valid() && size == old(size) - 1
      ensures Contents() == old(Contents())[..i] + old(Contents())[i + 1..]
    {
      for j := i to size - 1
        invariant Valid() && size == old(size)
        invariant forall k :: 0 <= k < i || j <= k < size ==> proc[k] == old(proc[k])
        invariant forall k :: i <= k < j ==> proc[k] == old(proc[k + 1])
      {
        proc[j] := proc[j + 1];
      }
      size := size - 1;
    }
  }
}

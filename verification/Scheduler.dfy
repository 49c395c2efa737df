// The multi-level queue (sched.c:49-107): 140 bounded queues, scanned from
// level 0 on every get.
module Scheduler {
  import opened Options
  import opened Queue

  const MAX_PRIO: nat := 140

  // ---- the policy on values ----------------------------------------------------

  function FirstReady<T>(levels: seq<seq<T>>, i: nat): (k: nat)
    requires i <= |levels|
    ensures i <= k <= |levels|
    ensures forall j :: i <= j < k ==> levels[j] == []
    ensures k < |levels| ==> levels[k] != []
    decreases |levels| - i
  {
    if i == |levels| || levels[i] != [] then i else FirstReady(levels, i + 1)
  }

  function Got<T>(levels: seq<seq<T>>): Option<T> {
    var k := FirstReady(levels, 0);
    if k == |levels| then None else Some(levels[k][0])
  }

  function AfterGet<T>(levels: seq<seq<T>>): (r: seq<seq<T>>)
    ensures |r| == |levels|
  {
    var k := FirstReady(levels, 0);
    if k == |levels| then levels else levels[k := levels[k][1..]]
  }

  function AfterPut<T>(levels: seq<seq<T>>, prio: nat, x: T): (r: seq<seq<T>>)
    requires prio < |levels|
    ensures |r| == |levels|
  {
    levels[prio := Enqueued(levels[prio], x)]
  }

  // ---- in place -------------------------------------------------------------------

  class Mlq<T(0)> {
    const queues: seq<Queue<T>>

    ghost predicate Valid()
      reads queues
    {
      && |queues| == MAX_PRIO
      && (forall i :: 0 <= i < MAX_PRIO ==> queues[i].Valid())
      && (forall i, j :: 0 <= i < j < MAX_PRIO ==> queues[i] != queues[j] && queues[i].proc != queues[j].proc)
    }

    ghost function Cells(): set<object>
    {
      set i | 0 <= i < |queues| :: queues[i].proc
    }

    ghost function Levels(): (s: seq<seq<T>>)
      requires Valid()
      reads queues, Cells()
      ensures |s| == MAX_PRIO
    {
      seq(MAX_PRIO, i requires 0 <= i < MAX_PRIO && Valid() reads queues, Cells() => queues[i].Contents())
    }

    constructor (queues: seq<Queue<T>>)
      requires |queues| == MAX_PRIO && (forall i :: 0 <= i < MAX_PRIO ==> queues[i].Valid())
      requires forall i, j :: 0 <= i < j < MAX_PRIO ==> queues[i] != queues[j] && queues[i].proc != queues[j].proc
      ensures Valid() && this.queues == queues
    {
      this.queues := queues;
    }

    // get_mlq_proc
    method GetProc() returns (r: Option<T>)
      requires Valid()
      modifies queues, Cells()
      ensures Valid() && Levels() == AfterGet(old(Levels())) && r == Got(old(Levels()))
    {
      ghost var was := Levels();
      r := None;
      var prio := 0;
      while prio < MAX_PRIO
        invariant prio <= MAX_PRIO && r == None && Valid() && Levels() == was
        invariant FirstReady(was, 0) == FirstReady(was, prio)
      {
        assert was[prio] == queues[prio].Contents();
        if queues[prio].size != 0 {
          r := queues[prio].Dequeue();
          assert forall i :: 0 <= i < MAX_PRIO && i != prio ==> queues[i].Contents() == was[i];
          break;
        }
        prio := prio + 1;
      }
    }

    // put_mlq_proc and add_mlq_proc
    method PutProc(x: T, prio: nat)
      requires Valid() && prio < MAX_PRIO
      modifies queues[prio], queues[prio].proc
      ensures Valid() && Levels() == AfterPut(old(Levels()), prio, x)
    {
      ghost var was := Levels();
      queues[prio].Enqueue(x);
      assert forall i :: 0 <= i < MAX_PRIO && i != prio ==> queues[i].Contents() == was[i];
    }
  }

  // ---- who is returned, and when -----------------------------------------------

  datatype Event<T> = Get | Put(prio: nat, x: T)

  function After<T>(levels: seq<seq<T>>, e: Event<T>): (r: seq<seq<T>>)
    requires e.Put? ==> e.prio < |levels|
    ensures |r| == |levels|
  {
    match e
    case Get => AfterGet(levels)
    case Put(prio, x) => AfterPut(levels, prio, x)
  }

  // The processes that the gets of a run return, in order.
  function Returned<T>(levels: seq<seq<T>>, events: seq<Event<T>>): seq<T>
    requires forall i :: 0 <= i < |events| && events[i].Put? ==> events[i].prio < |levels|
    decreases |events|
  {
    if events == [] then []
    else
      var here := if events[0].Get? && Got(levels).Some? then [Got(levels).value] else [];
      here + Returned(After(levels, events[0]), events[1..])
  }

  function Gets<T>(events: seq<Event<T>>): nat {
    if events == [] then 0 else (if events[0].Get? then 1 else 0) + Gets(events[1..])
  }

  // The head of the lowest non-empty level comes out, and only it leaves.
  lemma GetIsHighest<T>(levels: seq<seq<T>>, q: nat)
    requires q < |levels| && levels[q] != [] && forall j :: 0 <= j < q ==> levels[j] == []
    ensures Got(levels) == Some(levels[q][0]) && AfterGet(levels) == levels[q := levels[q][1..]]
  {
  }

  ghost predicate Served<T>(levels: seq<seq<T>>, q: nat, events: seq<Event<T>>) {
    && q < |levels| && (forall j :: 0 <= j < q ==> levels[j] == [])
    && (forall i :: 0 <= i < |events| && events[i].Put? ==> q <= events[i].prio < |levels|)
  }

  lemma ServedAfter<T>(levels: seq<seq<T>>, q: nat, events: seq<Event<T>>)
    requires Served(levels, q, events) && events != [] && levels[q] != []
    ensures var next := After(levels, events[0]);
            && Served(next, q, events[1..])
            && (events[0].Get? ==> Got(levels) == Some(levels[q][0]) && next[q] == levels[q][1..])
            && (events[0].Put? ==> levels[q] <= next[q])
  {
    GetIsHighest(levels, q);
  }

  // A process at position i of the highest waiting level is what the (i+1)-th
  // get returns, whatever is put meanwhile at that level or lower ones.
  lemma {:induction false} ReturnedInTurn<T>(levels: seq<seq<T>>, q: nat, events: seq<Event<T>>, i: nat)
    requires Served(levels, q, events) && i < |levels[q]| && i < Gets(events)
    ensures i < |Returned(levels, events)| && Returned(levels, events)[i] == levels[q][i]
    decreases |events|
  {
    hide FirstReady, AfterGet, AfterPut;
    ServedAfter(levels, q, events);
    var next := After(levels, events[0]);
    if events[0].Put? {
      ReturnedInTurn(next, q, events[1..], i);
    } else if i > 0 {
      ReturnedInTurn(next, q, events[1..], i - 1);
    }
  }
}

// The two removal loops of __sys_killall (sys_killall.c:51-109), without the
// release of memory.
module Killall {
  import opened Queue

  class Pcb {
    const path: string
    var pid: nat

    constructor (path: string, pid: nat)
      ensures this.path == path && this.pid == pid
    {
      this.path := path;
      this.pid := pid;
    }
  }

  predicate Named(p: Pcb?, name: string) {
    p != null && p.path == name
  }

  // The processes of other names, in their old order.
  function Survivors(s: seq<Pcb?>, name: string): (r: seq<Pcb?>)
    ensures |r| <= |s|
  {
    if s == [] then []
    else if Named(s[0], name) then Survivors(s[1..], name)
    else [s[0]] + Survivors(s[1..], name)
  }

  function Killed(s: seq<Pcb?>, name: string): nat {
    |s| - |Survivors(s, name)|
  }

  function Victims(s: seq<Pcb?>, name: string): set<Pcb> {
    set p: Pcb | p in s && Named(p, name)
  }

  // None of that name is left, everyone else is, as often as before.
  lemma {:induction false} SurvivorsExact(s: seq<Pcb?>, name: string, p: Pcb?)
    ensures multiset(Survivors(s, name))[p] == if Named(p, name) then 0 else multiset(s)[p]
  {
    if s != [] {
      SurvivorsExact(s[1..], name, p);
      assert s == [s[0]] + s[1..];
    }
  }

  // The survivors keep their order: of any two parts of a queue, those of the first
  // come first, and a single process stays unless it is of that name.
  lemma {:induction false} SurvivorsInOrder(a: seq<Pcb?>, b: seq<Pcb?>, p: Pcb?, name: string)
    ensures Survivors(a + b, name) == Survivors(a, name) + Survivors(b, name)
    ensures Survivors([p], name) == if Named(p, name) then [] else [p]
  {
    assert [p][1..] == [];
    if a == [] {
      assert [] + b == b;
    } else {
      assert (a + b)[1..] == a[1..] + b;
      SurvivorsInOrder(a[1..], b, p, name);
    }
  }

  lemma RemoveFirst<T>(a: seq<T>, b: seq<T>)
    requires b != []
    ensures (a + b)[..|a|] + (a + b)[|a| + 1..] == a + b[1..]
  {
  }

  lemma KeepFirst<T>(a: seq<T>, b: seq<T>)
    requires b != []
    ensures a + b == a + [b[0]] + b[1..]
  {
  }

  // One look at slot i of a queue holding kept + rest, with |kept| == i: a match
  // is marked and shifted over, anything else stays.
  method Visit(q: Queue<Pcb?>, i: nat, name: string, ghost kept: seq<Pcb?>, ghost rest: seq<Pcb?>, ghost others: set<Pcb>)
    returns (killed: bool)
    requires q.Valid() && rest != [] && |kept| == i && q.Contents() == kept + rest
    modifies q, q.proc, if Named(rest[0], name) then {rest[0]} else {}
    ensures q.Valid() && killed == Named(rest[0], name)
    ensures q.Contents() == (if killed then kept else kept + [rest[0]]) + rest[1..]
    ensures killed ==> rest[0].pid == 0
    ensures forall p :: p in others && old(p.pid) == 0 ==> p.pid == 0
  {
    assert i < q.size && q.Contents()[i] == rest[0];
    var proc := q.proc[i];
    killed := proc != null && proc.path == name;
    if killed {
      proc.pid := 0;
      q.RemoveAt(i);
      RemoveFirst(kept, rest);
    } else {
      KeepFirst(kept, rest);
    }
  }

  // Filter one queue in place: shift over a match and look at the same slot again.
  method RemoveNamed(q: Queue<Pcb?>, name: string) returns (count: nat)
    requires q.Valid()
    modifies q, q.proc, Victims(q.Contents(), name)
    ensures q.Valid() && q.Contents() == Survivors(old(q.Contents()), name)
    ensures count == Killed(old(q.Contents()), name)
    ensures forall p :: p in Victims(old(q.Contents()), name) ==> p.pid == 0
  {
    ghost var was := q.Contents();
    ghost var kept, rest: seq<Pcb?> := [], was;
    count := 0;
    var i := 0;
    assert [] + Survivors(was, name) == Survivors(was, name) && [] + was == was;
    while i < q.size
      invariant q.Valid() && |kept| == i && q.Contents() == kept + rest
      invariant kept + Survivors(rest, name) == Survivors(was, name) && count == |was| - |kept| - |rest|
      invariant forall p :: p in Victims(was, name) ==> p.pid == 0 || p in rest
      invariant forall p :: p in rest ==> p in was
      decreases |rest|
    {
      Regroup(kept, rest[0], Survivors(rest[1..], name));
      HeadOrTail(rest);
      var killed := Visit(q, i, name, kept, rest, Victims(was, name));
      if killed {
        count := count + 1;
      } else {
        i := i + 1;
        kept := kept + [rest[0]];
      }
      rest := rest[1..];
    }
    assert rest == [] && kept + Survivors([], name) == kept && kept + [] == kept;
  }

  lemma Regroup<T>(a: seq<T>, x: T, b: seq<T>)
    ensures a + ([x] + b) == a + [x] + b
  {
  }

  lemma HeadOrTail<T>(s: seq<T>)
    requires s != []
    ensures forall x :: x in s ==> x == s[0] || x in s[1..]
  {
  }

  // ---- over the running list and all levels --------------------------------------

  function TotalKilled(levels: seq<seq<Pcb?>>, name: string): nat {
    if levels == [] then 0
    else TotalKilled(levels[..|levels| - 1], name) + Killed(levels[|levels| - 1], name)
  }

  ghost predicate Separate(levels: seq<Queue<Pcb?>>) {
    forall i, j :: 0 <= i < j < |levels| ==> levels[i] != levels[j] && levels[i].proc != levels[j].proc
  }

  ghost predicate AllValid(levels: seq<Queue<Pcb?>>)
    reads levels
  {
    forall i :: 0 <= i < |levels| ==> levels[i].Valid()
  }

  ghost function Cells(levels: seq<Queue<Pcb?>>): set<object> {
    set i | 0 <= i < |levels| :: levels[i].proc
  }

  ghost function AllContents(levels: seq<Queue<Pcb?>>): (s: seq<seq<Pcb?>>)
    requires AllValid(levels)
    reads levels, Cells(levels)
    ensures |s| == |levels|
  {
    seq(|levels|, i requires 0 <= i < |levels| && AllValid(levels) reads levels, Cells(levels) => levels[i].Contents())
  }

  function VictimsOf(levels: seq<seq<Pcb?>>, name: string): set<Pcb> {
    set i, p | 0 <= i < |levels| && p in Victims(levels[i], name) :: p
  }

  lemma VictimsUpTo(levels: seq<seq<Pcb?>>, k: nat, name: string)
    requires k < |levels|
    ensures VictimsOf(levels[..k + 1], name) == VictimsOf(levels[..k], name) + Victims(levels[k], name)
    ensures Victims(levels[k], name) <= VictimsOf(levels, name)
  {
    hide Victims;
    assert forall i :: 0 <= i < k ==> levels[..k + 1][i] == levels[..k][i];
    assert levels[..k + 1][k] == levels[k];
  }

  ghost function AllVictims(levels: seq<Queue<Pcb?>>, name: string): set<Pcb>
    requires AllValid(levels)
    reads levels, Cells(levels)
  {
    VictimsOf(AllContents(levels), name)
  }

  // One level; processes already marked stay marked.
  method FilterLevel(levels: seq<Queue<Pcb?>>, prio: nat, name: string, ghost marked: set<Pcb>) returns (count: nat)
    requires AllValid(levels) && Separate(levels) && prio < |levels|
    requires forall p :: p in marked ==> p.pid == 0
    modifies levels[prio], levels[prio].proc, Victims(levels[prio].Contents(), name)
    ensures AllValid(levels) && count == Killed(old(AllContents(levels))[prio], name)
    ensures AllContents(levels) == old(AllContents(levels))[prio := Survivors(old(AllContents(levels))[prio], name)]
    ensures forall p :: p in marked + Victims(old(AllContents(levels))[prio], name) ==> p.pid == 0
  {
    hide Survivors, Victims, Killed;
    ghost var was := AllContents(levels);
    ghost var here := Victims(was[prio], name);
    count := RemoveNamed(levels[prio], name);
    assert forall i :: 0 <= i < |levels| && i != prio ==> levels[i].Contents() == was[i];
    forall p | p in marked ensures p.pid == 0 {
      if p !in here {
        assert p.pid == old(p.pid);
      }
    }
  }

  function Filtered(levels: seq<seq<Pcb?>>, k: nat, name: string): (r: seq<seq<Pcb?>>)
    requires k <= |levels|
    ensures |r| == |levels|
  {
    seq(|levels|, i requires 0 <= i < |levels| => if i < k then Survivors(levels[i], name) else levels[i])
  }

  lemma FilteredStep(levels: seq<seq<Pcb?>>, k: nat, name: string)
    requires k < |levels|
    ensures Filtered(levels, k, name)[k] == levels[k]
    ensures Filtered(levels, k + 1, name) == Filtered(levels, k, name)[k := Survivors(levels[k], name)]
    ensures TotalKilled(levels[..k + 1], name) == TotalKilled(levels[..k], name) + Killed(levels[k], name)
  {
    assert levels[..k + 1][..k] == levels[..k];
  }

  // The loop over the priorities.
  method KillLevels(levels: seq<Queue<Pcb?>>, name: string, ghost marked: set<Pcb>) returns (count: nat)
    requires AllValid(levels) && Separate(levels)
    requires forall p :: p in marked ==> p.pid == 0
    modifies levels, Cells(levels), AllVictims(levels, name)
    ensures AllValid(levels) && AllContents(levels) == Filtered(old(AllContents(levels)), |levels|, name)
    ensures count == TotalKilled(old(AllContents(levels)), name)
    ensures forall p :: p in marked + old(AllVictims(levels, name)) ==> p.pid == 0
  {
    hide Survivors, Victims, Killed, TotalKilled, Filtered, VictimsOf;
    ghost var was := AllContents(levels);
    count := 0;
    NothingYet(was, name);
    for prio := 0 to |levels|
      invariant AllValid(levels) && AllContents(levels) == Filtered(was, prio, name)
      invariant count == TotalKilled(was[..prio], name)
      invariant forall p :: p in marked + VictimsOf(was[..prio], name) ==> p.pid == 0
    {
      FilteredStep(was, prio, name);
      VictimsUpTo(was, prio, name);
      assert levels[prio].Contents() == AllContents(levels)[prio] == was[prio];
      var removed := FilterLevel(levels, prio, name, marked + VictimsOf(was[..prio], name));
      count := count + removed;
    }
    assert was[..|levels|] == was;
  }

  lemma NothingYet(levels: seq<seq<Pcb?>>, name: string)
    ensures Filtered(levels, 0, name) == levels && TotalKilled(levels[..0], name) == 0
    ensures VictimsOf(levels[..0], name) == {}
  {
  }

  // The running list first, then every level; the count is the total, and every
  // process of the name is marked.
  method KillAll(run: Queue<Pcb?>, levels: seq<Queue<Pcb?>>, name: string) returns (count: nat)
    requires run.Valid() && AllValid(levels) && Separate([run] + levels)
    modifies run, run.proc, Victims(run.Contents(), name), levels, Cells(levels), AllVictims(levels, name)
    ensures run.Valid() && run.Contents() == Survivors(old(run.Contents()), name)
    ensures AllValid(levels) && AllContents(levels) == Filtered(old(AllContents(levels)), |levels|, name)
    ensures count == Killed(old(run.Contents()), name) + TotalKilled(old(AllContents(levels)), name)
    ensures forall p :: p in Victims(old(run.Contents()), name) + old(AllVictims(levels, name)) ==> p.pid == 0
  {
    hide Survivors, Victims, Killed, TotalKilled, Filtered, VictimsOf;
    Apart(run, levels);
    ghost var was := AllContents(levels);
    ghost var marked := Victims(run.Contents(), name);
    count := RemoveNamed(run, name);
    assert AllContents(levels) == was;
    var more := KillLevels(levels, name, marked);
    count := count + more;
  }

  lemma Apart(run: Queue<Pcb?>, levels: seq<Queue<Pcb?>>)
    requires Separate([run] + levels)
    ensures Separate(levels)
    ensures forall i :: 0 <= i < |levels| ==> levels[i] != run && levels[i].proc != run.proc
  {
    forall i | 0 <= i < |levels| ensures levels[i] != run && levels[i].proc != run.proc {
      assert ([run] + levels)[0] == run && ([run] + levels)[i + 1] == levels[i];
    }
    assert forall i :: 0 <= i < |levels| ==> ([run] + levels)[i + 1] == levels[i];
  }
}

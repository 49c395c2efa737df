// In which order the CPUs of a run get the processes, and what the running list
// records: read off the threads before and after each step.
module Turns {
  import Barrier
  import opened Options
  import opened Queue
  import opened Scheduler
  import opened Simulator
  import opened SimulatorSafety
  import opened Conservation
  import opened Completion

  // ---- dispatches -------------------------------------------------------------------

  // A CPU that has just got a process: it is about to test it, with no time given
  // to it yet.
  function Dispatched(n: Sim, st: Step): Option<nat> {
    match st
    case CpuStep(c) =>
      if c < |n.cpus| && n.cpus[c].pc == Recheck && n.cpus[c].left == 0 then n.cpus[c].proc else None
    case _ => None
  }

  ghost function Dispatches(cfg: Config, s: Sim, steps: seq<Step>): seq<nat>
    decreases |steps|
  {
    if steps == [] || !Enabled(cfg, s, steps[0]) then []
    else
      var n := Apply(cfg, s, steps[0]);
      (if Dispatched(n, steps[0]).Some? then [Dispatched(n, steps[0]).value] else [])
      + Dispatches(cfg, n, steps[1..])
  }

  // The process that a step is about to put or add, read off the threads.
  function Handing(s: Sim, st: Step): Option<nat> {
    match st
    case CpuStep(c) => if c < |s.cpus| && s.cpus[c].pc == PutQueue then s.cpus[c].proc else None
    case LoaderStep => if s.loader == LAdd then Some(s.next) else None
    case _ => None
  }

  // It goes to level q or a lower one.
  predicate HandsLow(s: Sim, st: Step, q: nat) {
    var j := Handing(s, st);
    j.Some? && j.value < |s.procs| ==> q <= s.procs[j.value].prio
  }

  ghost predicate HandsLowThroughout(cfg: Config, s: Sim, steps: seq<Step>, q: nat)
    decreases |steps|
  {
    steps == [] || (Enabled(cfg, s, steps[0]) ==>
      HandsLow(s, steps[0], q) && HandsLowThroughout(cfg, Apply(cfg, s, steps[0]), steps[1..], q))
  }

  // Level q is the highest at which a process waits.
  predicate Highest(s: Sim, q: nat) {
    q < |s.levels| && s.levels[q] != [] && forall k :: 0 <= k < q ==> s.levels[k] == []
  }

  // No process waits above level q.
  predicate NoneAbove(s: Sim, q: nat) {
    q < |s.levels| && forall k :: 0 <= k < q ==> s.levels[k] == []
  }

  // While a process waits at level q and none above, a dispatch takes the head of
  // the level and leaves the others in order; any other step leaves all that wait
  // there in order, with newcomers behind them.
  lemma StepTurn(cfg: Config, s: Sim, st: Step, q: nat)
    requires Inv(cfg, s) && Enabled(cfg, s, st) && Highest(s, q) && HandsLow(s, st, q)
    ensures var n := Apply(cfg, s, st); var d := Dispatched(n, st);
            && NoneAbove(n, q)
            && (d.Some? ==> d.value == s.levels[q][0] && n.levels[q] == s.levels[q][1..])
            && (d.None? ==> s.levels[q] <= n.levels[q])
  {
    if st.CpuStep? {
      assert CpuTime(cfg, s, st.c);
      CpuStepTurn(cfg, s, st.c, q);
    }
  }

  lemma CpuStepTurn(cfg: Config, s: Sim, c: nat, q: nat)
    requires Enabled(cfg, s, CpuStep(c)) && CpuTime(cfg, s, c) && Highest(s, q) && HandsLow(s, CpuStep(c), q)
    ensures var n := Apply(cfg, s, CpuStep(c)); var d := Dispatched(n, CpuStep(c));
            && NoneAbove(n, q)
            && (d.Some? ==> d.value == s.levels[q][0] && n.levels[q] == s.levels[q][1..])
            && (d.None? ==> s.levels[q] <= n.levels[q])
  {
    hide Barrier.Apply, FirstReady;
    GetIsHighest(s.levels, q);
  }

  // Over every run: the process at position i of the highest waiting level is the
  // (i+1)-th to be dispatched from now on, whatever is put or added meanwhile at
  // that level or lower ones.
  lemma {:induction false} DispatchedInTurn(cfg: Config, s: Sim, steps: seq<Step>, t: Sim, q: nat, i: nat)
    requires Inv(cfg, s) && RunsTo(cfg, s, steps, t)
    requires NoneAbove(s, q) && HandsLowThroughout(cfg, s, steps, q)
    requires i < |s.levels[q]| && i < |Dispatches(cfg, s, steps)|
    ensures Dispatches(cfg, s, steps)[i] == s.levels[q][i]
    decreases |steps|
  {
    hide Apply, Enabled, Inv, Dispatched, HandsLow;
    var n := Apply(cfg, s, steps[0]);
    StepTurn(cfg, s, steps[0], q);
    StepInv(cfg, s, steps[0]);
    var rest := Dispatches(cfg, n, steps[1..]);
    if Dispatched(n, steps[0]).None? {
      assert [] + rest == rest;
      DispatchedInTurn(cfg, n, steps[1..], t, q, i);
    } else if i > 0 {
      DispatchedInTurn(cfg, n, steps[1..], t, q, i - 1);
    }
  }

  // So a process that is put back waits for all that were waiting at its level: if
  // none waits above, each of them is dispatched before it.
  lemma PutBackWaits(cfg: Config, s: Sim, c: nat, steps: seq<Step>, t: Sim)
    requires Inv(cfg, s) && Enabled(cfg, s, CpuStep(c)) && s.cpus[c].pc == PutQueue
    requires RunsTo(cfg, Apply(cfg, s, CpuStep(c)), steps, t)
    requires var q := s.procs[s.cpus[c].proc.value].prio;
             && NoneAbove(s, q) && HandsLowThroughout(cfg, Apply(cfg, s, CpuStep(c)), steps, q)
             && |Dispatches(cfg, Apply(cfg, s, CpuStep(c)), steps)| > |s.levels[q]|
    ensures var j := s.cpus[c].proc.value; var waiting := s.levels[s.procs[j].prio];
            var d := Dispatches(cfg, Apply(cfg, s, CpuStep(c)), steps);
            d[..|waiting|] == waiting && d[|waiting|] == j
  {
    var n := Apply(cfg, s, CpuStep(c));
    var j := s.cpus[c].proc.value;
    var q := s.procs[j].prio;
    var d := Dispatches(cfg, n, steps);
    PutGoesBehind(cfg, s, c);
    StepInv(cfg, s, CpuStep(c));
    forall i | 0 <= i < |n.levels[q]| ensures d[i] == n.levels[q][i] {
      DispatchedInTurn(cfg, n, steps, t, q, i);
    }
  }

  lemma PutGoesBehind(cfg: Config, s: Sim, c: nat)
    requires Inv(cfg, s) && Enabled(cfg, s, CpuStep(c)) && s.cpus[c].pc == PutQueue
    ensures var n := Apply(cfg, s, CpuStep(c)); var j := s.cpus[c].proc.value; var q := s.procs[j].prio;
            && n.levels[q] == s.levels[q] + [j] && (NoneAbove(s, q) ==> NoneAbove(n, q))
  {
    RoomyHasRoom(cfg, s, CpuStep(c));
  }

  // ---- the running list -----------------------------------------------------------

  // A process that is being recorded: its CPU has just begun to put it back, or the
  // loader to add it.
  function Recorded(s: Sim, n: Sim, st: Step): Option<nat> {
    match st
    case CpuStep(c) => if c < |n.cpus| && n.cpus[c].pc == PutQueue then n.cpus[c].proc else None
    case LoaderStep => if n.loader == LAdd then Some(n.next) else None
    case _ => None
  }

  ghost function Records(cfg: Config, s: Sim, steps: seq<Step>): seq<nat>
    decreases |steps|
  {
    if steps == [] || !Enabled(cfg, s, steps[0]) then []
    else
      var n := Apply(cfg, s, steps[0]);
      (if Recorded(s, n, steps[0]).Some? then [Recorded(s, n, steps[0]).value] else [])
      + Records(cfg, n, steps[1..])
  }

  function FirstTen(q: seq<nat>): seq<nat> {
    if |q| <= MAX_QUEUE_SIZE then q else q[..MAX_QUEUE_SIZE]
  }

  lemma StepRecords(cfg: Config, s: Sim, st: Step)
    requires Enabled(cfg, s, st) && |s.running| <= MAX_QUEUE_SIZE
    ensures var n := Apply(cfg, s, st); var j := Recorded(s, n, st);
            n.running == FirstTen(s.running + (if j.Some? then [j.value] else []))
  {
  }

  // Nothing leaves the running list: it holds the first ten processes that were
  // added or put back, once for every time, and no later ones.
  lemma {:induction false} RunningIsFirstTen(cfg: Config, s: Sim, steps: seq<Step>, t: Sim)
    requires RunsTo(cfg, s, steps, t) && |s.running| <= MAX_QUEUE_SIZE
    ensures t.running == FirstTen(s.running + Records(cfg, s, steps))
    decreases |steps|
  {
    if steps == [] {
      assert s.running + [] == s.running;
    } else {
      var n := Apply(cfg, s, steps[0]);
      var j := Recorded(s, n, steps[0]);
      StepRecords(cfg, s, steps[0]);
      RunningIsFirstTen(cfg, n, steps[1..], t);
      TenOfTen(s.running, if j.Some? then [j.value] else [], Records(cfg, n, steps[1..]));
    }
  }

  lemma TenOfTen(a: seq<nat>, b: seq<nat>, c: seq<nat>)
    ensures FirstTen(FirstTen(a + b) + c) == FirstTen(a + (b + c))
  {
    assert a + (b + c) == a + b + c;
  }
}

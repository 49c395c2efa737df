// The exact slot in which every process is added.
module LoadTimes {
  import Barrier
  import opened Options
  import opened Simulator
  import opened SimulatorSafety
  import opened Completion

  // Each at its start time, or one slot after the process before it.
  function Due(starts: seq<nat>, i: nat): (d: nat)
    requires i < |starts|
    ensures d >= starts[i]
  {
    if i == 0 then starts[0]
    else
      var next := Due(starts, i - 1) + 1;
      if starts[i] > next then starts[i] else next
  }

  lemma {:induction false} DueGrows(starts: seq<nat>, i: nat, j: nat)
    requires i <= j < |starts|
    ensures Due(starts, i) + (j - i) <= Due(starts, j)
    decreases j
  {
    if i < j {
      DueGrows(starts, i, j - 1);
    }
  }

  // The last add was due when it came. Until the next one is, the slot the loader
  // is in, or will be in when it comes back from next_slot, does not pass it.
  predicate OnSchedule(cfg: Config, s: Sim)
    requires |s.b.devs| > 0
  {
    var x := s.b.devs[0];
    && s.next <= |cfg.starts|
    && (if s.next == 0 then s.lastAdd == -1 else s.lastAdd == Due(cfg.starts, s.next - 1))
    && (s.next < |cfg.starts| ==>
          var due := Due(cfg.starts, s.next);
          && (Passed(x) ==> x.released <= due)
          && (InNext(x.mode) && !Passed(x) ==> x.released < due)
          && (s.loader == LAdd ==> x.released == due))
  }

  lemma ReleasedOnce(b: Barrier.State, a: Barrier.Action, d: nat)
    requires Barrier.Inv(b) && Barrier.Enabled(b, a) && !Barrier.UserAction(a) && d < |b.devs|
    ensures var x, y := b.devs[d], Barrier.Apply(b, a).devs[d];
            && (InNext(y.mode) || Passed(y) ==> InNext(x.mode) || Passed(x))
            && y.released <= x.released + 1
            && (Passed(x) ==> Passed(y) && y.released == x.released)
            && (x.mode == Barrier.Working ==> y.mode == Barrier.Working && y.released == x.released)
            && (InNext(y.mode) && !Passed(y) ==> InNext(x.mode) && !Passed(x) && y.released == x.released)
  {
    assert Barrier.DevInv(b, d);
  }

  lemma ThreadOnSchedule(cfg: Config, s: Sim, a: Barrier.Action)
    requires Modes(cfg, s) && OnSchedule(cfg, s) && Enabled(cfg, s, Thread(a))
    ensures |Apply(cfg, s, Thread(a)).b.devs| > 0 && OnSchedule(cfg, Apply(cfg, s, Thread(a)))
  {
    ReleasedOnce(s.b, a, 0);
    LoaderWorks(cfg, s);
  }

  // Between taking a process and adding it the loader is outside the barrier.
  lemma LoaderWorks(cfg: Config, s: Sim)
    requires Modes(cfg, s)
    ensures s.loader == LAdd ==> s.b.devs[0].mode == Barrier.Working
  {
  }

  lemma CpuOnSchedule(cfg: Config, s: Sim, c: nat)
    requires Modes(cfg, s) && OnSchedule(cfg, s) && Enabled(cfg, s, CpuStep(c))
    ensures |Apply(cfg, s, CpuStep(c)).b.devs| > 0 && OnSchedule(cfg, Apply(cfg, s, CpuStep(c)))
  {
    UserDevice(s.b, MoveOf(cfg, s, c).call, c + 1, 0);
  }

  lemma LoaderOnSchedule(cfg: Config, s: Sim)
    requires Modes(cfg, s) && OnSchedule(cfg, s) && Enabled(cfg, s, LoaderStep)
    ensures |Apply(cfg, s, LoaderStep).b.devs| > 0 && OnSchedule(cfg, Apply(cfg, s, LoaderStep))
  {
    UserDevice(s.b, LoaderMoveOf(cfg, s).call, 0, 0);
  }

  lemma StepOnSchedule(cfg: Config, s: Sim, st: Step)
    requires Modes(cfg, s) && OnSchedule(cfg, s) && Enabled(cfg, s, st)
    ensures |Apply(cfg, s, st).b.devs| > 0 && OnSchedule(cfg, Apply(cfg, s, st))
  {
    match st
    case Thread(a) => ThreadOnSchedule(cfg, s, a);
    case CpuStep(c) => CpuOnSchedule(cfg, s, c);
    case LoaderStep => LoaderOnSchedule(cfg, s);
  }

  lemma {:induction false} RunOnSchedule(cfg: Config, s: Sim, steps: seq<Step>, t: Sim)
    requires Inv(cfg, s) && OnSchedule(cfg, s) && RunsTo(cfg, s, steps, t)
    ensures Inv(cfg, t) && OnSchedule(cfg, t)
    decreases |steps|
  {
    if steps != [] {
      StepInv(cfg, s, steps[0]);
      StepOnSchedule(cfg, s, steps[0]);
      RunOnSchedule(cfg, Apply(cfg, s, steps[0]), steps[1..], t);
    }
  }

  // The time never passes the slot of an add that has not been made.
  lemma NotYetAdded(cfg: Config, s: Sim, j: nat)
    requires Modes(cfg, s) && OnSchedule(cfg, s) && s.next <= j < |cfg.starts|
    ensures s.b.time <= Due(cfg.starts, j)
  {
    DueGrows(cfg.starts, s.next, j);
    assert Barrier.DevInv(s.b, 0);
  }

  lemma ReachableOnSchedule(cfg: Config, cpus: nat, procs: seq<Proc>, s: Sim)
    requires Reachable(cfg, cpus, procs, s)
    ensures Inv(cfg, s) && OnSchedule(cfg, s)
  {
    var steps :| RunsTo(cfg, Init(cpus, procs), steps, s);
    InitInv(cfg, cpus, procs);
    RunOnSchedule(cfg, Init(cpus, procs), steps, s);
  }

  // In every reachable state the last process that has been added was added in the
  // slot in which it was due, and every process whose slot is over has been added.
  lemma AddedWhenDue(cfg: Config, cpus: nat, procs: seq<Proc>, s: Sim, j: nat)
    requires Reachable(cfg, cpus, procs, s) && j < |cfg.starts|
    ensures 0 < s.next ==> s.next <= |cfg.starts| && s.lastAdd == Due(cfg.starts, s.next - 1)
    ensures s.b.time > Due(cfg.starts, j) ==> s.next > j
    ensures s.next > j ==> s.b.time >= Due(cfg.starts, j)
  {
    ReachableOnSchedule(cfg, cpus, procs, s);
    if s.next <= j {
      NotYetAdded(cfg, s, j);
    } else {
      DueGrows(cfg.starts, j, s.next - 1);
    }
  }

  // Loading is over exactly when the slot of the last add is.
  lemma LoadedIff(cfg: Config, s: Sim)
    requires Modes(cfg, s) && OnSchedule(cfg, s) && cfg.starts != []
    ensures Loaded(s) <==> s.b.time > Due(cfg.starts, |cfg.starts| - 1)
  {
    if s.next < |cfg.starts| {
      NotYetAdded(cfg, s, |cfg.starts| - 1);
    }
  }
}

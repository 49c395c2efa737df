// Every slot is finite and every run can go on; and which CPUs never stop.
module SlotEnd {
  import Barrier
  import opened Options
  import opened Queue
  import opened Scheduler
  import opened Simulator
  import opened SimulatorSafety
  import opened Conservation
  import opened Completion

  // ---- a slot has finitely many steps -----------------------------------------------

  // How many actions a thread has left before it calls next_slot or detaches.
  function CpuRank(u: Cpu): nat {
    match u.pc
    case Top => 4
    case PutQueue => 3
    case GetNext => 2
    case Recheck => 1
    case Halted => 0
  }

  function LoaderRank(pc: LoaderPc): nat {
    match pc
    case LTop => 2
    case LAdd => 1
    case LEnded => 0
  }

  function CpuRanks(cpus: seq<Cpu>): nat {
    if cpus == [] then 0 else CpuRank(cpus[0]) + CpuRanks(cpus[1..])
  }

  lemma {:induction false} CpuRanksSet(cpus: seq<Cpu>, c: nat, u: Cpu)
    requires c < |cpus|
    ensures CpuRanks(cpus[c := u]) == CpuRanks(cpus) - CpuRank(cpus[c]) + CpuRank(u)
  {
    if c == 0 {
      assert cpus[c := u][1..] == cpus[1..];
    } else {
      CpuRanksSet(cpus[1..], c - 1, u);
      assert cpus[c := u][1..] == cpus[1..][c - 1 := u];
    }
  }

  function StepsLeft(s: Sim): int {
    Barrier.Measure(s.b) + CpuRanks(s.cpus) + LoaderRank(s.loader)
  }

  // A step inside a slot: neither the tick nor a spurious wakeup.
  predicate Inside(st: Step) {
    st.Thread? ==> !st.a.Tick? && !Barrier.Spurious(st.a)
  }

  lemma CpuStepNearer(cfg: Config, s: Sim, c: nat)
    requires Modes(cfg, s) && Enabled(cfg, s, CpuStep(c))
    ensures StepsLeft(Apply(cfg, s, CpuStep(c))) < StepsLeft(s)
  {
    var m := MoveOf(cfg, s, c);
    assert CpuModes(s, c);
    CpuRanksSet(s.cpus, c, m.cpu);
    if m.call != Stay {
      Barrier.SlotEnds(s.b, Called(m.call, c + 1));
    }
  }

  lemma LoaderStepNearer(cfg: Config, s: Sim)
    requires Modes(cfg, s) && Enabled(cfg, s, LoaderStep)
    ensures StepsLeft(Apply(cfg, s, LoaderStep)) < StepsLeft(s)
  {
    var m := LoaderMoveOf(cfg, s);
    if m.call != Stay {
      Barrier.SlotEnds(s.b, Called(m.call, 0));
    }
  }

  lemma StepNearer(cfg: Config, s: Sim, st: Step)
    requires Modes(cfg, s) && Enabled(cfg, s, st) && Inside(st)
    ensures StepsLeft(Apply(cfg, s, st)) < StepsLeft(s)
  {
    match st
    case Thread(a) => Barrier.SlotEnds(s.b, a);
    case CpuStep(c) => CpuStepNearer(cfg, s, c);
    case LoaderStep => LoaderStepNearer(cfg, s);
  }

  // However the threads are scheduled, only so many steps fit between two ticks.
  lemma {:induction false} SlotIsFinite(cfg: Config, s: Sim, steps: seq<Step>, t: Sim)
    requires Inv(cfg, s) && RunsTo(cfg, s, steps, t)
    requires forall i :: 0 <= i < |steps| ==> Inside(steps[i])
    ensures |steps| <= StepsLeft(s)
    decreases |steps|
  {
    if steps == [] {
      Barrier.MeasureNat(s.b);
    } else {
      StepInv(cfg, s, steps[0]);
      StepNearer(cfg, s, steps[0]);
      SlotIsFinite(cfg, Apply(cfg, s, steps[0]), steps[1..], t);
    }
  }

  // ---- and a run never gets stuck -------------------------------------------------

  // While some thread has not detached, a step other than a spurious wakeup can
  // be taken.
  lemma NeverStuck(cfg: Config, s: Sim, d: nat) returns (st: Step)
    requires Inv(cfg, s) && d < |s.b.devs| && s.b.devs[d].mode != Barrier.Gone
    ensures Enabled(cfg, s, st) && (st.Thread? ==> !Barrier.Spurious(st.a))
  {
    var a := Barrier.Progress(s.b, d);
    match a
    case Work(e) =>
      if e == 0 {
        st := LoaderStep;
      } else {
        st := CpuStep(e - 1);
        assert CpuOk(s, e - 1);
      }
    case _ => st := Thread(a);
  }

  // ---- CPUs that never stop -----------------------------------------------------

  // All work is done and CPU c stands at the head of its loop empty-handed.
  ghost predicate IdleForGood(s: Sim, c: nat) {
    && c < |s.cpus| && s.cpus[c].pc == Top && s.cpus[c].proc.None?
    && s.next == |s.procs| && forall j :: 0 <= j < |s.procs| ==> j in s.freed
  }

  lemma AllFreedEmpty(s: Sim)
    requires Places(s) && s.next == |s.procs| && forall j :: 0 <= j < |s.procs| ==> j in s.freed
    ensures Got(s.levels).None?
  {
    var k := FirstReady(s.levels, 0);
    if k < |s.levels| {
      var j := s.levels[k][0];
      assert LevelOk(s, k) && j in s.levels[k];
      assert Queued(s, j);
    }
  }

  lemma IdleStays(cfg: Config, s: Sim, st: Step, c: nat)
    requires Inv(cfg, s) && Enabled(cfg, s, st) && IdleForGood(s, c)
    ensures IdleForGood(Apply(cfg, s, st), c)
  {
    AllFreedEmpty(s);
  }

  // Such a CPU loops without ever testing done, so the timer never stops either.
  lemma {:induction false} IdleCpuNeverStops(cfg: Config, s: Sim, steps: seq<Step>, t: Sim, c: nat)
    requires Inv(cfg, s) && IdleForGood(s, c) && RunsTo(cfg, s, steps, t)
    ensures t.cpus != [] && c < |t.cpus| && t.cpus[c].pc != Halted && t.b.timer != Barrier.Stopped
    decreases |steps|
  {
    if steps == [] {
      assert CpuModes(s, c);
      assert Barrier.DevInv(s.b, c + 1);
    } else {
      StepInv(cfg, s, steps[0]);
      IdleStays(cfg, s, steps[0], c);
      IdleCpuNeverStops(cfg, Apply(cfg, s, steps[0]), steps[1..], t, c);
    }
  }

  // ---- CPUs that stop ------------------------------------------------------------

  ghost predicate AllDone(s: Sim) {
    s.done && s.next == |s.procs| && forall j :: 0 <= j < |s.procs| ==> j in s.freed
  }

  // Actions a CPU with nothing to do takes before it has stopped.
  function StepsToStop(u: Cpu): nat {
    match u.pc
    case GetNext => 2
    case Recheck => 1
    case _ => 0
  }

  // With all work done, a CPU holds nothing: it stands idle at the head of its
  // loop, has stopped, or is about to find no process and stop.
  lemma DonePlaces(cfg: Config, s: Sim, c: nat)
    requires Inv(cfg, s) && AllDone(s) && c < |s.cpus|
    ensures Got(s.levels).None?
    ensures s.cpus[c].pc in {Top, GetNext, Recheck, Halted}
    ensures s.cpus[c].pc == Top <==> IdleForGood(s, c)
    ensures s.cpus[c].pc == Recheck ==> s.cpus[c].proc.None?
  {
    AllFreedEmpty(s);
    assert CpuOk(s, c);
    if Held(s.cpus[c]).Some? {
      assert HeldBy(s, s.cpus[c].proc.value, c);
    }
  }

  // Such a CPU comes nearer to its end with every action; those of the other
  // threads leave it where it is.
  lemma DoneStep(cfg: Config, s: Sim, st: Step, c: nat)
    requires Inv(cfg, s) && AllDone(s) && c < |s.cpus| && Enabled(cfg, s, st) && !IdleForGood(s, c)
    ensures var n := Apply(cfg, s, st);
            && AllDone(n) && |n.cpus| == |s.cpus| && !IdleForGood(n, c)
            && StepsToStop(n.cpus[c]) <= StepsToStop(s.cpus[c])
            && (st == CpuStep(c) && StepsToStop(s.cpus[c]) > 0 ==> StepsToStop(n.cpus[c]) < StepsToStop(s.cpus[c]))
  {
    DonePlaces(cfg, s, c);
    DoneStays(cfg, s, st);
    if st == CpuStep(c) {
      assert CpuModes(s, c);
    }
  }

  lemma DoneStays(cfg: Config, s: Sim, st: Step)
    requires Inv(cfg, s) && AllDone(s) && Enabled(cfg, s, st)
    ensures AllDone(Apply(cfg, s, st))
  {
    if st.CpuStep? {
      CpuStepShape(cfg, s, st.c);
    }
  }

  lemma DoneCanStep(cfg: Config, s: Sim, c: nat)
    requires Inv(cfg, s) && AllDone(s) && c < |s.cpus| && StepsToStop(s.cpus[c]) > 0
    ensures Enabled(cfg, s, CpuStep(c)) && !IdleForGood(s, c)
  {
    assert CpuModes(s, c) && CpuOk(s, c) && Barrier.DevInv(s.b, c + 1);
  }

  ghost predicate CanStop(cfg: Config, s: Sim, c: nat) {
    exists steps, t :: RunsTo(cfg, s, steps, t) && c < |t.cpus| && t.cpus[c].pc == Halted
  }

  lemma {:induction false} NotIdleCanStop(cfg: Config, s: Sim, c: nat)
    requires Inv(cfg, s) && AllDone(s) && c < |s.cpus| && !IdleForGood(s, c)
    ensures CanStop(cfg, s, c)
    decreases StepsToStop(s.cpus[c])
  {
    DonePlaces(cfg, s, c);
    if StepsToStop(s.cpus[c]) == 0 {
      assert RunsTo(cfg, s, [], s);
    } else {
      DoneCanStep(cfg, s, c);
      var n := Apply(cfg, s, CpuStep(c));
      DoneStep(cfg, s, CpuStep(c), c);
      StepInv(cfg, s, CpuStep(c));
      NotIdleCanStop(cfg, n, c);
      var steps, t :| RunsTo(cfg, n, steps, t) && c < |t.cpus| && t.cpus[c].pc == Halted;
      assert ([CpuStep(c)] + steps)[1..] == steps;
      assert RunsTo(cfg, s, [CpuStep(c)] + steps, t);
    }
  }

  // When all work is done, a CPU can still stop if and only if it does not stand
  // at the head of its loop.
  lemma StopsIff(cfg: Config, s: Sim, c: nat)
    requires Inv(cfg, s) && AllDone(s) && c < |s.cpus|
    ensures CanStop(cfg, s, c) <==> !IdleForGood(s, c)
  {
    if IdleForGood(s, c) {
      forall steps, t | RunsTo(cfg, s, steps, t) ensures c < |t.cpus| && t.cpus[c].pc != Halted {
        IdleCpuNeverStops(cfg, s, steps, t, c);
      }
    } else {
      NotIdleCanStop(cfg, s, c);
    }
  }

  function ActionsOf(steps: seq<Step>, c: nat): nat {
    if steps == [] then 0 else (if steps[0] == CpuStep(c) then 1 else 0) + ActionsOf(steps[1..], c)
  }

  // And it does stop: at its second action at the latest, whatever the other
  // threads do in between.
  lemma {:induction false} StopsBySecondAction(cfg: Config, s: Sim, steps: seq<Step>, t: Sim, c: nat)
    requires Inv(cfg, s) && AllDone(s) && c < |s.cpus| && !IdleForGood(s, c) && RunsTo(cfg, s, steps, t)
    requires ActionsOf(steps, c) >= StepsToStop(s.cpus[c])
    ensures StepsToStop(s.cpus[c]) <= 2 && c < |t.cpus| && t.cpus[c].pc == Halted
    decreases |steps|
  {
    DonePlaces(cfg, s, c);
    if steps != [] {
      DoneStep(cfg, s, steps[0], c);
      StepInv(cfg, s, steps[0]);
      StopsBySecondAction(cfg, Apply(cfg, s, steps[0]), steps[1..], t, c);
    }
  }

  // It happens: with nothing to load, no CPU ever stops.
  lemma EmptyLoadNeverEnds(cfg: Config, cpus: nat, steps: seq<Step>, t: Sim)
    requires cfg.slot > 0 && cpus > 0 && cfg.starts == []
    requires RunsTo(cfg, Init(cpus, []), steps, t)
    ensures t.b.timer != Barrier.Stopped
  {
    assert forall k :: 0 <= k < MAX_PRIO ==> Peers([], k) == {};
    assert Startable(cfg, cpus, []);
    InitInv(cfg, cpus, []);
    IdleCpuNeverStops(cfg, Init(cpus, []), steps, t, 0);
  }
}

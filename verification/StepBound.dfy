// One bound for a whole configuration: after so many steps, however the threads
// are scheduled, every program has run to its end.
module StepBound {
  import Barrier
  import opened Options
  import opened Queue
  import opened Scheduler
  import opened Simulator
  import opened SimulatorSafety
  import opened Conservation
  import opened Completion
  import opened SlotEnd
  import opened LoadTimes

  // ---- work never grows ---------------------------------------------------------------

  predicate WorkBounded(s: Sim, work: nat) {
    Remaining(s.procs) <= work && s.owed <= work
  }

  lemma StepWork(cfg: Config, s: Sim, st: Step, work: nat)
    requires Enabled(cfg, s, st) && WorkBounded(s, work)
    ensures WorkBounded(Apply(cfg, s, st), work)
  {
    if st.CpuStep? {
      var u := s.cpus[st.c];
      if u.pc == Recheck && u.proc.Some? {
        RemainingSet(s.procs, u.proc.value, RunOne(s.procs[u.proc.value]));
      }
    }
  }

  // ---- slots and steps ---------------------------------------------------------------

  ghost predicate Good(cfg: Config, s: Sim, cpus: nat, work: nat) {
    && Inv(cfg, s) && OnSchedule(cfg, s) && WorkBounded(s, work)
    && |s.cpus| == cpus && |s.procs| == |cfg.starts|
  }

  lemma StepGood(cfg: Config, s: Sim, st: Step, cpus: nat, work: nat)
    requires Good(cfg, s, cpus, work) && Enabled(cfg, s, st)
    ensures Good(cfg, Apply(cfg, s, st), cpus, work)
  {
    StepInv(cfg, s, st);
    StepOnSchedule(cfg, s, st);
    StepWork(cfg, s, st, work);
  }

  // The slot after which all work is done: that of the last add, and one for every
  // instruction.
  function LastSlot(cfg: Config, work: nat): nat {
    (if cfg.starts == [] then 0 else Due(cfg.starts, |cfg.starts| - 1)) + work
  }

  lemma DoneAfterLastSlot(cfg: Config, s: Sim, cpus: nat, work: nat)
    requires Good(cfg, s, cpus, work) && s.b.time > LastSlot(cfg, work)
    ensures Remaining(s.procs) == 0
  {
    if cfg.starts != [] {
      LoadedIff(cfg, s);
    }
  }

  // More than any measure of a slot.
  function SlotSteps(cpus: nat): nat { 41 * cpus + 43 }

  lemma {:induction false} RanksBound(devs: seq<Barrier.Device>)
    ensures Barrier.Ranks(devs) <= 15 * |devs|
  {
    if devs != [] {
      RanksBound(devs[1..]);
    }
  }

  lemma {:induction false} CpuRanksBound(cpus: seq<Cpu>)
    ensures CpuRanks(cpus) <= 4 * |cpus|
  {
    if cpus != [] {
      CpuRanksBound(cpus[1..]);
    }
  }

  lemma StepsLeftBound(cfg: Config, s: Sim)
    requires Modes(cfg, s)
    ensures 0 <= StepsLeft(s) < SlotSteps(|s.cpus|)
  {
    RanksBound(s.b.devs);
    CpuRanksBound(s.cpus);
    Barrier.MeasureNat(s.b);
  }

  predicate SpuriousStep(st: Step) { st.Thread? && Barrier.Spurious(st.a) }

  lemma SpuriousCosts(cfg: Config, s: Sim, st: Step)
    requires Modes(cfg, s) && Enabled(cfg, s, st) && SpuriousStep(st)
    ensures StepsLeft(Apply(cfg, s, st)) <= StepsLeft(s) + 2
  {
    match st.a
    case SpuriousDevice(d) =>
      assert Barrier.DevInv(s.b, d);
      Barrier.RanksApply(s.b, st.a, d);
    case _ =>
  }

  // Slots left until the last one, in steps, and the steps left in this one.
  function Potential(cfg: Config, s: Sim, work: nat): int {
    (LastSlot(cfg, work) + 1 - s.b.time) * SlotSteps(|s.cpus|) + StepsLeft(s)
  }

  lemma OneSlotLess(n: int, k: nat)
    ensures (n - 1) * k == n * k - k
  {
  }

  // Every step lowers the potential, but for a spurious wakeup, which costs two.
  lemma StepPotential(cfg: Config, s: Sim, st: Step, work: nat)
    requires Modes(cfg, s) && Enabled(cfg, s, st) && Modes(cfg, Apply(cfg, s, st))
    ensures Potential(cfg, Apply(cfg, s, st), work)
         <= Potential(cfg, s, work) + (if SpuriousStep(st) then 2 else -1)
    ensures Apply(cfg, s, st).b.time >= s.b.time
  {
    var n := Apply(cfg, s, st);
    if st.Thread? && st.a.Tick? {
      StepsLeftBound(cfg, s);
      StepsLeftBound(cfg, n);
      OneSlotLess(LastSlot(cfg, work) + 1 - s.b.time, SlotSteps(|s.cpus|));
    } else {
      SameTime(cfg, s, st);
      if SpuriousStep(st) {
        SpuriousCosts(cfg, s, st);
      } else {
        StepNearer(cfg, s, st);
      }
    }
  }

  lemma SameTime(cfg: Config, s: Sim, st: Step)
    requires Modes(cfg, s) && Enabled(cfg, s, st) && !(st.Thread? && st.a.Tick?)
    ensures Apply(cfg, s, st).b.time == s.b.time && |Apply(cfg, s, st).cpus| == |s.cpus|
  {
  }

  // ---- whole runs -----------------------------------------------------------------------

  function SpuriousSteps(steps: seq<Step>): nat {
    if steps == [] then 0 else (if SpuriousStep(steps[0]) then 1 else 0) + SpuriousSteps(steps[1..])
  }

  // A run that has not passed the last slot is short.
  lemma {:induction false} RunPotential(cfg: Config, s: Sim, steps: seq<Step>, t: Sim, cpus: nat, work: nat)
    requires Good(cfg, s, cpus, work) && RunsTo(cfg, s, steps, t)
    ensures Good(cfg, t, cpus, work) && t.b.time >= s.b.time
    ensures t.b.time <= LastSlot(cfg, work) ==> |steps| <= Potential(cfg, s, work) + 3 * SpuriousSteps(steps)
    decreases |steps|
  {
    if steps == [] {
      PotentialNat(cfg, s, work);
    } else {
      var n := Apply(cfg, s, steps[0]);
      StepGood(cfg, s, steps[0], cpus, work);
      StepPotential(cfg, s, steps[0], work);
      RunPotential(cfg, n, steps[1..], t, cpus, work);
    }
  }

  lemma PotentialNat(cfg: Config, s: Sim, work: nat)
    requires Modes(cfg, s)
    ensures s.b.time <= LastSlot(cfg, work) ==> Potential(cfg, s, work) >= 0
  {
    StepsLeftBound(cfg, s);
    if s.b.time <= LastSlot(cfg, work) {
      NatTimes(LastSlot(cfg, work) + 1 - s.b.time, SlotSteps(|s.cpus|));
    }
  }

  lemma NatTimes(a: nat, b: nat)
    ensures a * b >= 0
  {
  }

  function Bound(cfg: Config, cpus: nat, procs: seq<Proc>): nat {
    (LastSlot(cfg, Remaining(procs)) + 2) * SlotSteps(cpus)
  }

  lemma InitGood(cfg: Config, cpus: nat, procs: seq<Proc>)
    requires Startable(cfg, cpus, procs)
    ensures Good(cfg, Init(cpus, procs), cpus, Remaining(procs))
    ensures Potential(cfg, Init(cpus, procs), Remaining(procs)) < Bound(cfg, cpus, procs)
  {
    InitInv(cfg, cpus, procs);
    StepsLeftBound(cfg, Init(cpus, procs));
    OneSlotLess(LastSlot(cfg, Remaining(procs)) + 2, SlotSteps(cpus));
  }

  // Every run of that many steps, three more for every spurious wakeup in it, has
  // all programs complete.
  lemma CompleteWithinBound(cfg: Config, cpus: nat, procs: seq<Proc>, steps: seq<Step>, t: Sim, j: nat)
    requires Startable(cfg, cpus, procs) && RunsTo(cfg, Init(cpus, procs), steps, t) && j < |procs|
    requires |steps| >= Bound(cfg, cpus, procs) + 3 * SpuriousSteps(steps)
    ensures |t.procs| == |procs| && t.procs[j].pc == procs[j].size
  {
    var work := Remaining(procs);
    InitGood(cfg, cpus, procs);
    RunPotential(cfg, Init(cpus, procs), steps, t, cpus, work);
    DoneAfterLastSlot(cfg, t, cpus, work);
    RemainingZero(t.procs);
    RunPrograms(cfg, Init(cpus, procs), steps, t, j);
  }

  // A shorter run can be taken further, unless every thread has ended; and then
  // too all programs are complete.
  lemma GoesOnUntilComplete(cfg: Config, cpus: nat, procs: seq<Proc>, s: Sim, j: nat)
    requires Reachable(cfg, cpus, procs, s) && j < |procs|
    ensures |s.procs| == |procs|
    ensures s.procs[j].pc == procs[j].size || exists st :: Enabled(cfg, s, st) && !SpuriousStep(st)
  {
    ReachableInv(cfg, cpus, procs, s);
    ReachablePrograms(cfg, cpus, procs, s, j);
    if d: nat :| d < |s.b.devs| && s.b.devs[d].mode != Barrier.Gone {
      var st := NeverStuck(cfg, s, d);
    } else {
      forall c | 0 <= c < |s.cpus| ensures s.cpus[c].pc == Halted {
        assert CpuModes(s, c) && s.b.devs[c + 1].mode == Barrier.Gone;
      }
      AllStoppedAllComplete(cfg, cpus, procs, s, j);
    }
  }
}

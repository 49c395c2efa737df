// No abandoned work, and how long it takes: the barrier, the scheduler and the
// loader's last slot together.
module Completion {
  import Barrier
  import opened Options
  import opened Queue
  import opened Scheduler
  import opened Simulator
  import opened SimulatorSafety
  import opened Conservation

  // ---- time slices ---------------------------------------------------------------

  // A CPU without a process has no time left, and a process is given back or
  // run only while it still has instructions.
  predicate CpuTime(cfg: Config, s: Sim, c: nat)
    requires c < |s.cpus|
  {
    var u := s.cpus[c];
    && 0 <= u.left <= cfg.slot
    && (u.proc.None? || u.pc == PutQueue || u.pc == GetNext ==> u.left == 0)
    && ((u.pc == Recheck || u.pc == PutQueue) && u.proc.Some? ==>
        u.proc.value < |s.procs| && s.procs[u.proc.value].pc < s.procs[u.proc.value].size)
    && SliceOk(cfg, u)
  }

  // What has been run since the dispatch and what is left make up the slice.
  predicate SliceOk(cfg: Config, u: Cpu) {
    match u.pc
    case Top => u.proc.Some? ==> 0 < u.since && u.since + u.left == cfg.slot
    case PutQueue => u.since == cfg.slot
    case Recheck => u.proc.Some? ==> if u.left == 0 then u.since == 0 else u.since + u.left == cfg.slot
    case _ => true
  }

  // Queued and not yet loaded processes still have instructions to run.
  ghost predicate Unfinished(s: Sim) {
    && (forall j :: 0 <= j < |s.procs| ==> s.procs[j].pc <= s.procs[j].size)
    && (forall j: nat :: Queued(s, j) ==> s.procs[j].pc < s.procs[j].size)
    && (forall j :: s.next <= j < |s.procs| ==> s.procs[j].pc < s.procs[j].size)
  }

  ghost predicate Slices(cfg: Config, s: Sim) {
    && cfg.slot > 0 && Unfinished(s)
    && forall c :: 0 <= c < |s.cpus| ==> CpuTime(cfg, s, c)
  }

  // A CPU changes the program of a process only by running it, and only if the
  // process is in its hands; others enter a queue only by being put back.
  lemma CpuStepProc(cfg: Config, s: Sim, c: nat, j: nat)
    requires Places(s) && Enabled(cfg, s, CpuStep(c)) && j < |s.procs|
    ensures var n := Apply(cfg, s, CpuStep(c));
            && |n.procs| == |s.procs| && n.procs[j].prio == s.procs[j].prio && n.procs[j].size == s.procs[j].size
            && (n.procs[j] != s.procs[j] ==> s.cpus[c].pc == Recheck && HeldBy(s, j, c) && n.procs[j] == RunOne(s.procs[j]))
  {
  }

  lemma CpuStepQueued(cfg: Config, s: Sim, c: nat, j: nat)
    requires Places(s) && Enabled(cfg, s, CpuStep(c)) && Queued(Apply(cfg, s, CpuStep(c)), j)
    ensures Queued(s, j) || (s.cpus[c].pc == PutQueue && s.cpus[c].proc == Some(j))
  {
    CpuStepProc(cfg, s, c, j);
  }

  lemma CpuStepUnfinished(cfg: Config, s: Sim, c: nat)
    requires Places(s) && Slices(cfg, s) && Enabled(cfg, s, CpuStep(c))
    ensures Unfinished(Apply(cfg, s, CpuStep(c)))
  {
    var n := Apply(cfg, s, CpuStep(c));
    assert CpuTime(cfg, s, c);
    forall j | 0 <= j < |n.procs|
      ensures n.procs[j].pc <= n.procs[j].size && (s.next <= j || Queued(n, j) ==> n.procs[j].pc < n.procs[j].size)
    {
      CpuStepProc(cfg, s, c, j);
      if Queued(n, j) {
        CpuStepQueued(cfg, s, c, j);
      }
    }
  }

  lemma CpuStepTime(cfg: Config, s: Sim, c: nat, e: nat)
    requires Places(s) && Slices(cfg, s) && Enabled(cfg, s, CpuStep(c)) && e < |s.cpus|
    ensures CpuTime(cfg, Apply(cfg, s, CpuStep(c)), e)
  {
    var n := Apply(cfg, s, CpuStep(c));
    assert CpuTime(cfg, s, e) && CpuOk(s, e);
    if e != c {
      var u := s.cpus[e];
      if u.proc.Some? && (u.pc == Recheck || u.pc == PutQueue) {
        assert HeldBy(s, u.proc.value, e);
        CpuStepProc(cfg, s, c, u.proc.value);
      }
    } else {
      OwnTime(cfg, s, c);
    }
  }

  lemma HeadUnfinished(s: Sim)
    requires Places(s) && Unfinished(s) && Got(s.levels).Some?
    ensures var p := Got(s.levels).value; p < |s.procs| && s.procs[p].pc < s.procs[p].size
  {
    var k := FirstReady(s.levels, 0);
    var p := s.levels[k][0];
    assert LevelOk(s, k) && p in s.levels[k];
    assert Queued(s, p);
  }

  lemma OwnTime(cfg: Config, s: Sim, c: nat)
    requires Places(s) && Slices(cfg, s) && Enabled(cfg, s, CpuStep(c))
    ensures CpuTime(cfg, Apply(cfg, s, CpuStep(c)), c)
  {
    assert CpuTime(cfg, s, c);
    if Got(s.levels).Some? {
      HeadUnfinished(s);
    }
    OwnTimeGiven(cfg, s, c);
  }

  lemma OwnTimeGiven(cfg: Config, s: Sim, c: nat)
    requires Enabled(cfg, s, CpuStep(c)) && CpuTime(cfg, s, c) && cfg.slot > 0
    requires forall j :: 0 <= j < |s.procs| ==> s.procs[j].pc <= s.procs[j].size
    requires Got(s.levels).Some? ==>
      var p := Got(s.levels).value; p < |s.procs| && s.procs[p].pc < s.procs[p].size
    ensures CpuTime(cfg, Apply(cfg, s, CpuStep(c)), c)
  {
  }

  lemma SlicesStep(cfg: Config, s: Sim, st: Step)
    requires Places(s) && Slices(cfg, s) && Enabled(cfg, s, st)
    ensures Slices(cfg, Apply(cfg, s, st))
  {
    var n := Apply(cfg, s, st);
    match st
    case Thread(_) =>
      forall c | 0 <= c < |n.cpus| ensures CpuTime(cfg, n, c) {
        assert CpuTime(cfg, s, c);
      }
      assert forall j: nat :: Queued(n, j) ==> Queued(s, j);
    case CpuStep(c) =>
      CpuStepUnfinished(cfg, s, c);
      forall e | 0 <= e < |n.cpus| ensures CpuTime(cfg, n, e) {
        CpuStepTime(cfg, s, c, e);
      }
    case LoaderStep =>
      forall c | 0 <= c < |n.cpus| ensures CpuTime(cfg, n, c) {
        assert CpuTime(cfg, s, c);
      }
      assert forall j: nat :: Queued(n, j) ==> Queued(s, j) || j == s.next;
  }

  // ---- every slot with work left runs something -----------------------------------

  // In next_slot for the present slot, whether or not the flag is set already.
  predicate InThisSlot(b: Barrier.State, d: nat)
    requires d < |b.devs|
  {
    var x := b.devs[d];
    || x.mode in {Barrier.EvAcquire, Barrier.EvHold}
    || (Barrier.Waiting(x.mode) && x.done && x.released == b.time)
  }

  predicate Posted(s: Sim, c: nat)
    requires c < |s.cpus| && |s.b.devs| == |s.cpus| + 1
  {
    InThisSlot(s.b, c + 1)
  }

  // Through with the present slot without a process.
  predicate GivenUp(s: Sim, c: nat)
    requires c < |s.cpus| && |s.b.devs| == |s.cpus| + 1
  {
    Doomed(s.cpus[c]) || (s.cpus[c].pc == Top && s.cpus[c].proc.None? && Posted(s, c))
  }

  ghost predicate Busy(s: Sim)
    requires |s.b.devs| == |s.cpus| + 1
  {
    && (!s.ran ==> forall c :: 0 <= c < |s.cpus| && Posted(s, c) ==> s.cpus[c].proc.None?)
    && (Loaded(s) && !s.ran ==> Empty(s.levels) || exists c :: 0 <= c < |s.cpus| && !GivenUp(s, c))
  }

  // The slots since the last add are paid for by instructions that have run.
  predicate Paid(s: Sim) {
    && Remaining(s.procs) <= s.owed
    && (Loaded(s) && Remaining(s.procs) > 0 ==>
        Remaining(s.procs) + (s.b.time - s.lastAdd - 1) + (if s.ran then 1 else 0) <= s.owed)
  }

  ghost predicate Inv(cfg: Config, s: Sim) {
    && |s.cpus| > 0 && Modes(cfg, s) && SomeoneComes(s)
    && Places(s) && Roomy(s.procs) && Slices(cfg, s) && Busy(s) && Paid(s)
  }

  lemma InThisSlotStays(b: Barrier.State, a: Barrier.Action, d: nat)
    requires Barrier.Inv(b) && Barrier.Enabled(b, a) && !Barrier.UserAction(a) && d < |b.devs|
    ensures var n := Barrier.Apply(b, a);
            |n.devs| == |b.devs| && (InThisSlot(n, d) ==> !a.Tick? && InThisSlot(b, d))
  {
    assert Barrier.DevInv(b, d);
  }

  // When the timer ticks every CPU has posted this slot or is gone.
  lemma TickPosted(s: Sim, c: nat)
    requires Barrier.Inv(s.b) && Barrier.Enabled(s.b, Barrier.Tick) && c + 1 < |s.b.devs|
    ensures s.b.devs[c + 1].mode == Barrier.Gone || (InThisSlot(s.b, c + 1) && InNext(s.b.devs[c + 1].mode))
  {
    assert Barrier.DevInv(s.b, c + 1);
  }

  // The key step: if a slot is about to end and nothing has run in it, then no
  // work is left.
  lemma QuietSlotMeansDone(cfg: Config, s: Sim)
    requires Inv(cfg, s) && Loaded(s) && Barrier.Enabled(s.b, Barrier.Tick) && !s.ran
    ensures Remaining(s.procs) == 0
  {
    forall c | 0 <= c < |s.cpus| ensures GivenUp(s, c) && Held(s.cpus[c]).None? {
      TickPosted(s, c);
      assert CpuModes(s, c);
    }
    assert Empty(s.levels);
    assert forall j: nat, c: nat :: !HeldBy(s, j, c);
    assert forall j: nat :: !Queued(s, j);
    assert forall j: nat :: j < s.next ==> j in s.freed;
    RemainingZero(s.procs);
  }

  lemma ThreadPosted(cfg: Config, s: Sim, a: Barrier.Action)
    requires Inv(cfg, s) && Enabled(cfg, s, Thread(a))
    ensures var n := Apply(cfg, s, Thread(a));
            && |n.b.devs| == |n.cpus| + 1
            && forall c :: 0 <= c < |n.cpus| && Posted(n, c) ==> !a.Tick? && Posted(s, c)
  {
    var n := Apply(cfg, s, Thread(a));
    InThisSlotStays(s.b, a, 0);
    forall c | 0 <= c < |n.cpus| && Posted(n, c) ensures !a.Tick? && Posted(s, c) {
      InThisSlotStays(s.b, a, c + 1);
    }
  }

  lemma ThreadBusy(cfg: Config, s: Sim, a: Barrier.Action)
    requires Inv(cfg, s) && Enabled(cfg, s, Thread(a))
    ensures |Apply(cfg, s, Thread(a)).b.devs| == |s.cpus| + 1 && Busy(Apply(cfg, s, Thread(a)))
  {
    var n := Apply(cfg, s, Thread(a));
    ThreadPosted(cfg, s, a);
    ThreadComes(cfg, s, a);
    if Loaded(n) && !n.ran && !Empty(n.levels) {
      if a.Tick? {
        var c :| 0 <= c < |n.cpus| && !Doomed(n.cpus[c]);
        assert !GivenUp(n, c);
      } else {
        var c :| 0 <= c < |s.cpus| && !GivenUp(s, c);
        assert !GivenUp(n, c);
      }
    }
  }

  lemma ThreadPaid(cfg: Config, s: Sim, a: Barrier.Action)
    requires Inv(cfg, s) && Enabled(cfg, s, Thread(a))
    ensures Paid(Apply(cfg, s, Thread(a)))
  {
    if a.Tick? && Loaded(s) && !s.ran {
      QuietSlotMeansDone(cfg, s);
    }
  }

  lemma OthersStill(cfg: Config, s: Sim, c: nat, e: nat)
    requires Barrier.Inv(s.b) && |s.b.devs| == |s.cpus| + 1
    requires Enabled(cfg, s, CpuStep(c)) && e < |s.cpus| && e != c
    ensures var n := Apply(cfg, s, CpuStep(c));
            && |n.b.devs| == |n.cpus| + 1 && n.cpus[e] == s.cpus[e]
            && Posted(n, e) == Posted(s, e) && GivenUp(n, e) == GivenUp(s, e)
  {
    UserDevice(s.b, MoveOf(cfg, s, c).call, c + 1, e + 1);
  }

  lemma CpuStepIdle(cfg: Config, s: Sim, c: nat, e: nat)
    requires Inv(cfg, s) && Enabled(cfg, s, CpuStep(c)) && e < |s.cpus|
    ensures var n := Apply(cfg, s, CpuStep(c));
            |n.b.devs| == |n.cpus| + 1 && (!n.ran && Posted(n, e) ==> n.cpus[e].proc.None?)
  {
    if e == c {
      UserDevice(s.b, MoveOf(cfg, s, c).call, c + 1, c + 1);
      if !MoveOf(cfg, s, c).ran {
        QuietStep(cfg, s, c);
      }
    } else {
      OthersStill(cfg, s, c, e);
    }
  }

  lemma CpuStepBusy(cfg: Config, s: Sim, c: nat)
    requires Inv(cfg, s) && Enabled(cfg, s, CpuStep(c))
    ensures |Apply(cfg, s, CpuStep(c)).b.devs| == |s.cpus| + 1 && Busy(Apply(cfg, s, CpuStep(c)))
  {
    var n := Apply(cfg, s, CpuStep(c));
    UserDevice(s.b, MoveOf(cfg, s, c).call, c + 1, c + 1);
    forall e | 0 <= e < |s.cpus| ensures !n.ran && Posted(n, e) ==> n.cpus[e].proc.None? {
      CpuStepIdle(cfg, s, c, e);
    }
    if Loaded(n) && !n.ran && !Empty(n.levels) && GivenUp(n, c) {
      StillGivenUp(cfg, s, c);
      var e :| 0 <= e < |s.cpus| && !GivenUp(s, e);
      OthersStill(cfg, s, c, e);
      assert !GivenUp(n, e);
    }
  }

  // A step after which nothing has run yet enters next_slot only empty-handed.
  lemma QuietStep(cfg: Config, s: Sim, c: nat)
    requires Inv(cfg, s) && Enabled(cfg, s, CpuStep(c)) && !MoveOf(cfg, s, c).ran
    ensures MoveOf(cfg, s, c).call == NextSlot ==> MoveOf(cfg, s, c).cpu.proc.None?
  {
    assert CpuTime(cfg, s, c);
  }

  // A CPU that gives up with processes waiting had given up before.
  lemma StillGivenUp(cfg: Config, s: Sim, c: nat)
    requires Inv(cfg, s) && Enabled(cfg, s, CpuStep(c))
    requires var n := Apply(cfg, s, CpuStep(c));
             |n.b.devs| == |n.cpus| + 1 && GivenUp(n, c) && Loaded(n) && !n.ran && !Empty(n.levels)
    ensures GivenUp(s, c) && !Empty(s.levels) && Loaded(s)
  {
    GotNoneIffEmpty(s.levels);
    UserDevice(s.b, MoveOf(cfg, s, c).call, c + 1, c + 1);
    assert CpuTime(cfg, s, c);
  }

  lemma CpuStepPaid(cfg: Config, s: Sim, c: nat)
    requires Inv(cfg, s) && Enabled(cfg, s, CpuStep(c))
    ensures Paid(Apply(cfg, s, CpuStep(c)))
  {
    var n := Apply(cfg, s, CpuStep(c));
    var u := s.cpus[c];
    UserDevice(s.b, MoveOf(cfg, s, c).call, c + 1, 0);
    if u.pc == Recheck && u.proc.Some? {
      assert CpuTime(cfg, s, c);
      RemainingSet(s.procs, u.proc.value, RunOne(s.procs[u.proc.value]));
    }
  }

  lemma LoaderStepBusyPaid(cfg: Config, s: Sim)
    requires Inv(cfg, s) && Enabled(cfg, s, LoaderStep)
    ensures var n := Apply(cfg, s, LoaderStep); |n.b.devs| == |n.cpus| + 1 && Busy(n) && Paid(n)
  {
    var n := Apply(cfg, s, LoaderStep);
    var m := LoaderMoveOf(cfg, s);
    forall e | 0 <= e < |s.cpus|
      ensures n.cpus[e] == s.cpus[e] && n.b.devs[e + 1] == s.b.devs[e + 1]
    {
      UserDevice(s.b, m.call, 0, e + 1);
    }
    UserDevice(s.b, m.call, 0, 0);
    if Loaded(n) && !n.ran && !Empty(n.levels) {
      assert Loaded(s) && n.levels == s.levels;
      var e :| 0 <= e < |s.cpus| && !GivenUp(s, e);
      assert !GivenUp(n, e);
    }
  }

  // ---- every reachable state ---------------------------------------------------------

  lemma StepInv(cfg: Config, s: Sim, st: Step)
    requires Inv(cfg, s) && Enabled(cfg, s, st)
    ensures Inv(cfg, Apply(cfg, s, st))
  {
    StepPlaces(cfg, s, st);
    SlicesStep(cfg, s, st);
    match st
    case Thread(a) =>
      ThreadModes(cfg, s, a);
      ThreadComes(cfg, s, a);
      ThreadBusy(cfg, s, a);
      ThreadPaid(cfg, s, a);
    case CpuStep(c) =>
      CpuStepModes(cfg, s, c);
      CpuStepComes(cfg, s, c);
      CpuStepBusy(cfg, s, c);
      CpuStepPaid(cfg, s, c);
    case LoaderStep =>
      LoaderStepModes(cfg, s);
      LoaderStepComes(cfg, s);
      LoaderStepBusyPaid(cfg, s);
  }

  // What a run may start from: a positive time slot, programs with at least one
  // instruction at their beginning, and at most ten processes per priority.
  ghost predicate Startable(cfg: Config, cpus: nat, procs: seq<Proc>) {
    && cfg.slot > 0 && cpus > 0 && |cfg.starts| == |procs| && Roomy(procs)
    && forall j :: 0 <= j < |procs| ==> procs[j].pc == 0 < procs[j].size && procs[j].prio < MAX_PRIO
  }

  lemma InitInv(cfg: Config, cpus: nat, procs: seq<Proc>)
    requires Startable(cfg, cpus, procs)
    ensures Inv(cfg, Init(cpus, procs))
  {
    var s := Init(cpus, procs);
    Barrier.InitInv(cpus + 1);
    assert forall j: nat :: !Queued(s, j);
    assert forall j: nat, c: nat :: !HeldBy(s, j, c);
  }

  ghost predicate RunsTo(cfg: Config, s: Sim, steps: seq<Step>, t: Sim)
    decreases |steps|
  {
    if steps == [] then t == s
    else Enabled(cfg, s, steps[0]) && RunsTo(cfg, Apply(cfg, s, steps[0]), steps[1..], t)
  }

  lemma {:induction false} RunInv(cfg: Config, s: Sim, steps: seq<Step>, t: Sim)
    requires Inv(cfg, s) && RunsTo(cfg, s, steps, t)
    ensures Inv(cfg, t)
    decreases |steps|
  {
    if steps != [] {
      StepInv(cfg, s, steps[0]);
      RunInv(cfg, Apply(cfg, s, steps[0]), steps[1..], t);
    }
  }

  ghost predicate Reachable(cfg: Config, cpus: nat, procs: seq<Proc>, s: Sim) {
    Startable(cfg, cpus, procs) && exists steps :: RunsTo(cfg, Init(cpus, procs), steps, s)
  }

  lemma ReachableInv(cfg: Config, cpus: nat, procs: seq<Proc>, s: Sim)
    requires Reachable(cfg, cpus, procs, s)
    ensures Inv(cfg, s)
  {
    var steps :| RunsTo(cfg, Init(cpus, procs), steps, s);
    InitInv(cfg, cpus, procs);
    RunInv(cfg, Init(cpus, procs), steps, s);
  }

  // Steps advance programs and change nothing else about processes.
  predicate SameProgram(p: Proc, q: Proc) {
    q.size == p.size && q.prio == p.prio && p.pc <= q.pc
  }

  lemma {:induction false} RunPrograms(cfg: Config, s: Sim, steps: seq<Step>, t: Sim, j: nat)
    requires RunsTo(cfg, s, steps, t) && j < |s.procs|
    ensures |t.procs| == |s.procs| && SameProgram(s.procs[j], t.procs[j])
    decreases |steps|
  {
    if steps != [] {
      RunPrograms(cfg, Apply(cfg, s, steps[0]), steps[1..], t, j);
    }
  }

  lemma ReachablePrograms(cfg: Config, cpus: nat, procs: seq<Proc>, s: Sim, j: nat)
    requires Reachable(cfg, cpus, procs, s) && j < |procs|
    ensures |s.procs| == |procs| && SameProgram(procs[j], s.procs[j])
  {
    var steps :| RunsTo(cfg, Init(cpus, procs), steps, s);
    RunPrograms(cfg, Init(cpus, procs), steps, s, j);
  }

  // A process is put back exactly when it has run a whole slice since it was
  // dispatched, and keeps its CPU until then unless it finishes first.
  lemma FullSliceBeforePut(cfg: Config, cpus: nat, procs: seq<Proc>, s: Sim, c: nat)
    requires Reachable(cfg, cpus, procs, s) && c < |s.cpus| && Enabled(cfg, s, CpuStep(c))
    ensures s.cpus[c].pc == PutQueue ==> s.cpus[c].since == cfg.slot
    ensures s.cpus[c].pc == Top && s.cpus[c].proc.Some? ==>
      var p := s.cpus[c].proc.value; var m := MoveOf(cfg, s, c);
      && 0 < s.cpus[c].since <= cfg.slot
      && (m.cpu.pc == PutQueue <==> s.cpus[c].since == cfg.slot && !Complete(s.procs[p]))
      && (m.cpu.proc != Some(p) ==> Complete(s.procs[p]))
  {
    ReachableInv(cfg, cpus, procs, s);
    assert CpuTime(cfg, s, c);
  }

  // ---- nobody starts early ---------------------------------------------------------

  // What has been handed to the scheduler was due by then.
  predicate OnTime(cfg: Config, s: Sim) {
    && s.next <= |cfg.starts|
    && (forall j :: 0 <= j < s.next ==> cfg.starts[j] <= s.b.time)
    && (s.loader == LAdd && s.next < |cfg.starts| ==> cfg.starts[s.next] <= s.b.time)
  }

  lemma StepOnTime(cfg: Config, s: Sim, st: Step)
    requires OnTime(cfg, s) && Enabled(cfg, s, st)
    ensures OnTime(cfg, Apply(cfg, s, st))
  {
    if st.LoaderStep? {
      assert Apply(cfg, s, st).b.time == s.b.time;
    }
  }

  lemma {:induction false} RunOnTime(cfg: Config, s: Sim, steps: seq<Step>, t: Sim)
    requires OnTime(cfg, s) && RunsTo(cfg, s, steps, t)
    ensures OnTime(cfg, t)
    decreases |steps|
  {
    if steps != [] {
      StepOnTime(cfg, s, steps[0]);
      RunOnTime(cfg, Apply(cfg, s, steps[0]), steps[1..], t);
    }
  }

  // No process is in a queue, on a CPU or finished before the slot it is
  // configured to start in.
  lemma NotBeforeStart(cfg: Config, cpus: nat, procs: seq<Proc>, s: Sim, j: nat)
    requires Reachable(cfg, cpus, procs, s) && j < |cfg.starts| && s.b.time < cfg.starts[j]
    ensures !Queued(s, j) && j !in s.freed && forall c: nat :: !HeldBy(s, j, c)
  {
    ReachableInv(cfg, cpus, procs, s);
    var steps :| RunsTo(cfg, Init(cpus, procs), steps, s);
    RunOnTime(cfg, Init(cpus, procs), steps, s);
    assert s.next <= j;
    NotLoadedNotQueued(s, j);
  }

  lemma NotLoadedNotQueued(s: Sim, j: nat)
    requires QueuesOk(s) && s.next <= j
    ensures !Queued(s, j)
  {
    assert j < |s.procs| && s.procs[j].prio < MAX_PRIO ==> LevelOk(s, s.procs[j].prio);
  }

  // ---- the results --------------------------------------------------------------------

  predicate Complete(p: Proc) { p.pc == p.size }

  // Once done is set, a process that has not finished and been freed has a CPU
  // that is neither stopped nor on its way there.
  lemma NoAbandonedWork(cfg: Config, cpus: nat, procs: seq<Proc>, s: Sim, j: nat)
    requires Reachable(cfg, cpus, procs, s) && s.done && j < |s.procs| && j !in s.freed
    ensures exists c :: 0 <= c < |s.cpus| && !Doomed(s.cpus[c])
  {
    ReachableInv(cfg, cpus, procs, s);
    if c: nat :| HeldBy(s, j, c) {
      assert !Doomed(s.cpus[c]);
    } else {
      assert Queued(s, j);
    }
  }

  // So when every CPU has stopped, every process has been loaded and has run to
  // the end of its program.
  lemma AllStoppedAllComplete(cfg: Config, cpus: nat, procs: seq<Proc>, s: Sim, j: nat)
    requires Reachable(cfg, cpus, procs, s) && j < |procs|
    requires forall c :: 0 <= c < |s.cpus| ==> s.cpus[c].pc == Halted
    ensures |s.procs| == |procs| == s.next && j in s.freed && s.procs[j].pc == procs[j].size
  {
    ReachableInv(cfg, cpus, procs, s);
    ReachablePrograms(cfg, cpus, procs, s, j);
    assert CpuModes(s, 0);
    if j !in s.freed {
      NoAbandonedWork(cfg, cpus, procs, s, j);
      assert false;
    }
  }

  // From the slot of the last add on, work is left for at most as many slots as
  // there were instructions left then.
  lemma BoundedCompletion(cfg: Config, cpus: nat, procs: seq<Proc>, s: Sim, j: nat)
    requires Reachable(cfg, cpus, procs, s) && j < |procs|
    requires Loaded(s) && s.b.time > s.lastAdd + s.owed
    ensures |s.procs| == |procs| && s.procs[j].pc == procs[j].size
  {
    ReachableInv(cfg, cpus, procs, s);
    ReachablePrograms(cfg, cpus, procs, s, j);
    RemainingZero(s.procs);
  }
}

// Runs in which a level overflows: what a whole run keeps, and a run of eleven
// processes of one priority that loses one of them.
module Overflow {
  import Barrier
  import opened Options
  import opened Queue
  import opened Scheduler
  import opened Simulator
  import opened Conservation
  import opened Completion

  // ---- every run -----------------------------------------------------------------

  ghost predicate PlacesThroughout(cfg: Config, s: Sim, steps: seq<Step>)
    decreases |steps|
  {
    Places(s) && (steps == [] || (Enabled(cfg, s, steps[0]) ==> PlacesThroughout(cfg, Apply(cfg, s, steps[0]), steps[1..])))
  }

  ghost predicate RoomThroughout(cfg: Config, s: Sim, steps: seq<Step>)
    decreases |steps|
  {
    steps == [] || (Enabled(cfg, s, steps[0]) ==>
      RoomFor(s, steps[0]) && RoomThroughout(cfg, Apply(cfg, s, steps[0]), steps[1..]))
  }

  // A run keeps every added process in exactly one place throughout if and only
  // if none of its puts and adds meets a full level.
  lemma {:induction false} RunPlacesIff(cfg: Config, s: Sim, steps: seq<Step>)
    requires Places(s)
    ensures PlacesThroughout(cfg, s, steps) <==> RoomThroughout(cfg, s, steps)
    decreases |steps|
  {
    if steps != [] && Enabled(cfg, s, steps[0]) {
      StepPlacesIff(cfg, s, steps[0]);
      var n := Apply(cfg, s, steps[0]);
      if Places(n) {
        RunPlacesIff(cfg, n, steps[1..]);
      }
    }
  }

  // ---- one time slot of a barrier with two devices ----------------------------------

  function Dev(mode: Barrier.Mode, done: bool, released: nat): Barrier.Device {
    Barrier.Device(mode, done, false, Barrier.Free, Barrier.Free, released)
  }

  // Both devices in the same position.
  function Both(mode: Barrier.Mode, done: bool, released: nat, timer: Barrier.Timer, counted: nat, time: nat): Barrier.State {
    Barrier.State([Dev(mode, done, released), Dev(mode, done, released)], timer, 0, counted, time, false)
  }

  function Quiet(time: nat): Barrier.State {
    Both(Barrier.Working, false, time, Barrier.Scan(0), 0, time)
  }

  predicate FourEnabled(s: Barrier.State, a: Barrier.Action, b: Barrier.Action, c: Barrier.Action, d: Barrier.Action) {
    && Barrier.Enabled(s, a) && Barrier.Enabled(Barrier.Apply(s, a), b)
    && Barrier.Enabled(Barrier.Apply(Barrier.Apply(s, a), b), c)
    && Barrier.Enabled(Barrier.Apply(Barrier.Apply(Barrier.Apply(s, a), b), c), d)
  }

  lemma FourSteps(s: Barrier.State, a: Barrier.Action, b: Barrier.Action, c: Barrier.Action, d: Barrier.Action)
    requires FourEnabled(s, a, b, c, d)
    ensures Barrier.RunFrom(s, [a, b, c, d],
              Barrier.Apply(Barrier.Apply(Barrier.Apply(Barrier.Apply(s, a), b), c), d))
  {
    hide Barrier.Enabled, Barrier.Apply;
    var s1 := Barrier.Apply(s, a);
    var s2 := Barrier.Apply(s1, b);
    var s3 := Barrier.Apply(s2, c);
    var s4 := Barrier.Apply(s3, d);
    assert [a, b, c, d][1..] == [b, c, d] && [b, c, d][1..] == [c, d] && [c, d][1..] == [d] && [d][1..] == [];
    assert Barrier.RunFrom(s3, [d], s4);
    assert Barrier.RunFrom(s2, [c, d], s4);
    assert Barrier.RunFrom(s1, [b, c, d], s4);
  }

  lemma PostBoth(time: nat)
    ensures Barrier.RunFrom(Both(Barrier.EvAcquire, false, time, Barrier.Scan(0), 0, time),
              [Barrier.EvLock(0), Barrier.Post(0), Barrier.EvLock(1), Barrier.Post(1)],
              Both(Barrier.TmAcquire, true, time, Barrier.Scan(0), 0, time))
  {
    FourSteps(Both(Barrier.EvAcquire, false, time, Barrier.Scan(0), 0, time),
      Barrier.EvLock(0), Barrier.Post(0), Barrier.EvLock(1), Barrier.Post(1));
  }

  lemma ScanBoth(time: nat)
    ensures Barrier.RunFrom(Both(Barrier.TmAcquire, true, time, Barrier.Scan(0), 0, time),
              [Barrier.TimerLock, Barrier.TimerCheck, Barrier.TimerLock, Barrier.TimerCheck],
              Both(Barrier.TmAcquire, true, time, Barrier.Scan(2), 2, time))
  {
    FourSteps(Both(Barrier.TmAcquire, true, time, Barrier.Scan(0), 0, time),
      Barrier.TimerLock, Barrier.TimerCheck, Barrier.TimerLock, Barrier.TimerCheck);
  }

  lemma ReleaseBoth(time: nat)
    ensures Barrier.RunFrom(Both(Barrier.TmAcquire, true, time, Barrier.Release(0), 2, time + 1),
              [Barrier.ReleaseLock, Barrier.ReleasePost, Barrier.ReleaseLock, Barrier.ReleasePost],
              Both(Barrier.TmAcquire, false, time + 1, Barrier.Release(2), 2, time + 1))
  {
    FourSteps(Both(Barrier.TmAcquire, true, time, Barrier.Release(0), 2, time + 1),
      Barrier.ReleaseLock, Barrier.ReleasePost, Barrier.ReleaseLock, Barrier.ReleasePost);
  }

  lemma ReturnBoth(time: nat)
    ensures Barrier.RunFrom(Both(Barrier.TmAcquire, false, time, Barrier.Scan(0), 0, time),
              [Barrier.TmLock(0), Barrier.Check(0), Barrier.TmLock(1), Barrier.Check(1)], Quiet(time))
  {
    FourSteps(Both(Barrier.TmAcquire, false, time, Barrier.Scan(0), 0, time),
      Barrier.TmLock(0), Barrier.Check(0), Barrier.TmLock(1), Barrier.Check(1));
  }

  // ---- the same steps in the simulator ----------------------------------------------

  function Threads(trace: seq<Barrier.Action>): seq<Step> {
    seq(|trace|, i requires 0 <= i < |trace| => Thread(trace[i]))
  }

  predicate NoUser(trace: seq<Barrier.Action>) {
    forall a :: a in trace ==> !Barrier.UserAction(a)
  }

  // Steps of the barrier change nothing but the barrier and the history ran.
  predicate OnlyBarrier(s: Sim, t: Sim) {
    t == s.(b := t.b, ran := t.ran)
  }

  lemma {:induction false} ThreadsRun(cfg: Config, s: Sim, trace: seq<Barrier.Action>, b: Barrier.State) returns (t: Sim)
    requires NoUser(trace) && Barrier.RunFrom(s.b, trace, b)
    ensures RunsTo(cfg, s, Threads(trace), t) && OnlyBarrier(s, t) && t.b == b
    decreases |trace|
  {
    t := s;
    if trace != [] {
      var n := Apply(cfg, s, Thread(trace[0]));
      assert forall a :: a in trace[1..] ==> a in trace;
      t := ThreadsRun(cfg, n, trace[1..], b);
      assert Threads(trace)[1..] == Threads(trace[1..]);
    }
  }

  lemma {:induction false} RunsOn(cfg: Config, s: Sim, steps: seq<Step>, m: Sim, more: seq<Step>, t: Sim)
    requires RunsTo(cfg, s, steps, m) && RunsTo(cfg, m, more, t)
    ensures RunsTo(cfg, s, steps + more, t)
    decreases |steps|
  {
    hide Apply, Enabled;
    if steps == [] {
      assert [] + more == more;
    } else {
      RunsOn(cfg, Apply(cfg, s, steps[0]), steps[1..], m, more, t);
      assert (steps + more)[1..] == steps[1..] + more;
    }
  }

  lemma OneStep(cfg: Config, s: Sim, st: Step)
    requires Enabled(cfg, s, st)
    ensures RunsTo(cfg, s, [st], Apply(cfg, s, st))
  {
    assert [st][1..] == [];
  }

  // A run of barrier steps, then one more step.
  lemma ThreadsThen(cfg: Config, s: Sim, trace: seq<Barrier.Action>, b: Barrier.State, last: Barrier.Action)
      returns (steps: seq<Step>, t: Sim)
    requires NoUser(trace) && Barrier.RunFrom(s.b, trace, b)
    requires !Barrier.UserAction(last) && Barrier.Enabled(b, last)
    ensures RunsTo(cfg, s, steps, t) && OnlyBarrier(s, t) && t.b == Barrier.Apply(b, last)
  {
    hide Barrier.RunFrom, Barrier.Apply, Barrier.Enabled;
    var m := ThreadsRun(cfg, s, trace, b);
    t := Apply(cfg, m, Thread(last));
    OneStep(cfg, m, Thread(last));
    steps := Threads(trace) + [Thread(last)];
    RunsOn(cfg, s, Threads(trace), m, [Thread(last)], t);
  }

  // The timer finds both devices done and ticks.
  lemma Ticks(cfg: Config, s: Sim, time: nat) returns (steps: seq<Step>, t: Sim)
    requires s.b == Both(Barrier.TmAcquire, true, time, Barrier.Scan(0), 0, time)
    ensures RunsTo(cfg, s, steps, t) && OnlyBarrier(s, t)
    ensures t.b == Both(Barrier.TmAcquire, true, time, Barrier.Release(0), 2, time + 1)
  {
    hide Barrier.RunFrom;
    ScanBoth(time);
    steps, t := ThreadsThen(cfg, s, [Barrier.TimerLock, Barrier.TimerCheck, Barrier.TimerLock, Barrier.TimerCheck],
                  Both(Barrier.TmAcquire, true, time, Barrier.Scan(2), 2, time), Barrier.Tick);
  }

  // It releases both and starts over.
  lemma Releases(cfg: Config, s: Sim, time: nat) returns (steps: seq<Step>, t: Sim)
    requires s.b == Both(Barrier.TmAcquire, true, time, Barrier.Release(0), 2, time + 1)
    ensures RunsTo(cfg, s, steps, t) && OnlyBarrier(s, t)
    ensures t.b == Both(Barrier.TmAcquire, false, time + 1, Barrier.Scan(0), 0, time + 1)
  {
    hide Barrier.RunFrom;
    ReleaseBoth(time);
    steps, t := ThreadsThen(cfg, s, [Barrier.ReleaseLock, Barrier.ReleasePost, Barrier.ReleaseLock, Barrier.ReleasePost],
                  Both(Barrier.TmAcquire, false, time + 1, Barrier.Release(2), 2, time + 1), Barrier.TimerNext);
  }

  // Both devices have called next_slot: there is a run to the next slot.
  lemma RoundTrip(cfg: Config, s: Sim, time: nat) returns (steps: seq<Step>, t: Sim)
    requires s.b == Both(Barrier.EvAcquire, false, time, Barrier.Scan(0), 0, time)
    ensures RunsTo(cfg, s, steps, t) && OnlyBarrier(s, t) && t.b == Quiet(time + 1)
  {
    hide Barrier.RunFrom, Barrier.Apply, Barrier.Enabled;
    var post := [Barrier.EvLock(0), Barrier.Post(0), Barrier.EvLock(1), Barrier.Post(1)];
    PostBoth(time);
    var s1 := ThreadsRun(cfg, s, post, Both(Barrier.TmAcquire, true, time, Barrier.Scan(0), 0, time));
    var tick, s2 := Ticks(cfg, s1, time);
    var release, s3 := Releases(cfg, s2, time);
    var back := [Barrier.TmLock(0), Barrier.Check(0), Barrier.TmLock(1), Barrier.Check(1)];
    ReturnBoth(time + 1);
    t := ThreadsRun(cfg, s3, back, Quiet(time + 1));
    RunsOn(cfg, s, Threads(post), s1, tick, s2);
    RunsOn(cfg, s, Threads(post) + tick, s2, release, s3);
    RunsOn(cfg, s, Threads(post) + tick + release, s3, Threads(back), t);
    steps := Threads(post) + tick + release + Threads(back);
  }

  // ---- eleven processes of one priority --------------------------------------------

  function Eleven(): Config { Config(11, seq(11, _ => 0)) }

  // Programs of twelve instructions, of which the first process has run i.
  function Programs(i: nat): seq<Proc> {
    seq(11, j => Proc(if j == 0 then i else 0, 12, 0))
  }

  // The processes queued when slot i begins: all that are added but the first.
  function Waiting(i: nat): seq<nat> {
    if i == 0 then [] else seq(i - 1, j requires 0 <= j => j + 1)
  }

  // Slot i begins: i processes have been added, the first is on the only CPU.
  ghost predicate Begins(s: Sim, i: nat) {
    && s.b == Quiet(i) && |s.cpus| == 1 && s.cpus[0].pc == Top
    && s.cpus[0].proc == (if i == 0 then None else Some(0))
    && s.cpus[0].left == (if i == 0 then 0 else 11 - i)
    && s.loader == LTop && s.next == i && s.procs == Programs(i) && !s.done && s.freed == {}
    && |s.levels| == MAX_PRIO && s.levels[0] == Waiting(i)
    && forall k :: 0 < k < MAX_PRIO ==> s.levels[k] == []
  }

  // The loader adds process i and calls next_slot.
  lemma LoaderAdds(s: Sim, i: nat) returns (t: Sim)
    requires Begins(s, i) && i < 11
    ensures RunsTo(Eleven(), s, [LoaderStep, LoaderStep], t)
    ensures t.b == s.b.(devs := [Dev(Barrier.EvAcquire, false, i), Dev(Barrier.Working, false, i)])
    ensures t.cpus == s.cpus && t.procs == s.procs && t.freed == s.freed && !t.done
    ensures t.loader == LTop && t.next == i + 1
    ensures |t.levels| == MAX_PRIO && t.levels[0] == Waiting(i) + [i] && t.levels[1..] == s.levels[1..]
  {
    var cfg := Eleven();
    assert LoaderWellFormed(cfg, s);
    var m := Apply(cfg, s, LoaderStep);
    assert m.loader == LAdd && m.b == s.b;
    t := Apply(cfg, m, LoaderStep);
    assert [LoaderStep, LoaderStep][1..] == [LoaderStep] && [LoaderStep][1..] == [];
  }

  // The CPU takes the first process in slot 0, keeps it later, and runs it.
  lemma CpuRuns(s: Sim, i: nat) returns (t: Sim)
    requires i < 11 && |s.cpus| == 1 && s.cpus[0].pc == Top
    requires s.b == Quiet(i).(devs := [Dev(Barrier.EvAcquire, false, i), Dev(Barrier.Working, false, i)])
    requires s.cpus[0].proc == (if i == 0 then None else Some(0)) && s.cpus[0].left == (if i == 0 then 0 else 11 - i)
    requires s.procs == Programs(i) && |s.levels| == MAX_PRIO && s.levels[0] == Waiting(i) + [i]
    ensures RunsTo(Eleven(), s, [CpuStep(0), CpuStep(0)], t)
    ensures t == s.(b := t.b, cpus := t.cpus, levels := t.levels, procs := Programs(i + 1), ran := t.ran)
    ensures t.b == Both(Barrier.EvAcquire, false, i, Barrier.Scan(0), 0, i)
    ensures |t.cpus| == 1 && t.cpus[0].pc == Top && t.cpus[0].proc == Some(0) && t.cpus[0].left == 10 - i
    ensures |t.levels| == MAX_PRIO && t.levels[0] == Waiting(i + 1) && t.levels[1..] == s.levels[1..]
  {
    var cfg := Eleven();
    assert CpuWellFormed(s, 0);
    var m := Apply(cfg, s, CpuStep(0));
    TakesFirst(s, m, i);
    t := RunsFirst(m, i);
    assert [CpuStep(0), CpuStep(0)][1..] == [CpuStep(0)];
    OneStep(cfg, m, CpuStep(0));
  }

  lemma TakesFirst(s: Sim, m: Sim, i: nat)
    requires i < 11 && Enabled(Eleven(), s, CpuStep(0)) && m == Apply(Eleven(), s, CpuStep(0))
    requires |s.cpus| == 1 && s.cpus[0].pc == Top && s.procs == Programs(i)
    requires s.cpus[0].proc == (if i == 0 then None else Some(0)) && s.cpus[0].left == (if i == 0 then 0 else 11 - i)
    requires |s.levels| == MAX_PRIO && s.levels[0] == Waiting(i) + [i]
    ensures m == s.(cpus := m.cpus, levels := m.levels)
    ensures |m.cpus| == 1 && m.cpus[0].pc == Recheck && m.cpus[0].proc == Some(0) && m.cpus[0].left == s.cpus[0].left
    ensures |m.levels| == MAX_PRIO && m.levels[0] == Waiting(i + 1) && m.levels[1..] == s.levels[1..]
  {
    if i == 0 {
      GetIsHighest(s.levels, 0);
    }
  }

  lemma RunsFirst(m: Sim, i: nat) returns (t: Sim)
    requires i < 11 && |m.cpus| == 1 && m.cpus[0].pc == Recheck && m.cpus[0].proc == Some(0)
    requires m.cpus[0].left == (if i == 0 then 0 else 11 - i)
    requires m.b == Quiet(i).(devs := [Dev(Barrier.EvAcquire, false, i), Dev(Barrier.Working, false, i)])
    requires m.procs == Programs(i) && |m.levels| == MAX_PRIO
    ensures Enabled(Eleven(), m, CpuStep(0)) && t == Apply(Eleven(), m, CpuStep(0))
    ensures t == m.(b := t.b, cpus := t.cpus, procs := Programs(i + 1), ran := t.ran)
    ensures t.b == Both(Barrier.EvAcquire, false, i, Barrier.Scan(0), 0, i)
    ensures |t.cpus| == 1 && t.cpus[0].pc == Top && t.cpus[0].proc == Some(0) && t.cpus[0].left == 10 - i
  {
    t := Apply(Eleven(), m, CpuStep(0));
    assert Programs(i)[0 := RunOne(Programs(i)[0])] == Programs(i + 1);
  }

  lemma NextSlotBegins(s: Sim, i: nat) returns (steps: seq<Step>, t: Sim)
    requires Begins(s, i) && i < 11
    ensures RunsTo(Eleven(), s, steps, t) && Begins(t, i + 1)
  {
    hide Apply, Enabled;
    var cfg := Eleven();
    var a := LoaderAdds(s, i);
    var b := CpuRuns(a, i);
    RunsOn(cfg, s, [LoaderStep, LoaderStep], a, [CpuStep(0), CpuStep(0)], b);
    var round, c := RoundTrip(cfg, b, i);
    steps := [LoaderStep, LoaderStep] + [CpuStep(0), CpuStep(0)] + round;
    RunsOn(cfg, s, [LoaderStep, LoaderStep] + [CpuStep(0), CpuStep(0)], b, round, c);
    t := c;
    forall k | 0 < k < MAX_PRIO ensures t.levels[k] == [] {
      assert t.levels[k] == t.levels[1..][k - 1] == s.levels[1..][k - 1] == s.levels[k];
    }
  }

  lemma {:induction false} SlotBegins(i: nat) returns (steps: seq<Step>, t: Sim)
    requires i <= 11
    ensures RunsTo(Eleven(), Init(1, Programs(0)), steps, t) && Begins(t, i)
    decreases i
  {
    if i == 0 {
      steps, t := [], Init(1, Programs(0));
      assert Barrier.Init(2).devs == [Dev(Barrier.Working, false, 0), Dev(Barrier.Working, false, 0)];
    } else {
      var before, s := SlotBegins(i - 1);
      var more, n := NextSlotBegins(s, i - 1);
      RunsOn(Eleven(), Init(1, Programs(0)), before, s, more, n);
      steps, t := before + more, n;
    }
  }

  // A process that is loaded, unfinished, and nowhere.
  ghost predicate Lost(s: Sim, j: nat) {
    && j < s.next <= |s.procs| && s.procs[j].pc < s.procs[j].size
    && j !in s.freed && !Queued(s, j) && forall c: nat :: !HeldBy(s, j, c)
  }

  lemma LastPut(s: Sim) returns (t: Sim)
    requires Begins(s, 11)
    ensures RunsTo(Eleven(), s, [CpuStep(0), CpuStep(0)], t) && Lost(t, 0)
  {
    var cfg := Eleven();
    assert CpuWellFormed(s, 0);
    var m := Apply(cfg, s, CpuStep(0));
    assert m.cpus[0].pc == PutQueue && m.levels == s.levels;
    assert |Waiting(11)| == 10 && 0 !in Waiting(11);
    t := Apply(cfg, m, CpuStep(0));
    OneStep(cfg, m, CpuStep(0));
    assert [CpuStep(0), CpuStep(0)][1..] == [CpuStep(0)];
    assert t.levels[0] == s.levels[0];
  }

  // Eleven processes of one priority, one CPU: when the first slice ends the level
  // is full, and put_proc loses the process. Ten is the most that is safe.
  lemma ElevenLoseOne()
    ensures exists steps, t :: RunsTo(Eleven(), Init(1, Programs(0)), steps, t) && Lost(t, 0)
  {
    hide RunsTo, Lost, Begins;
    var before, s := SlotBegins(11);
    var t := LastPut(s);
    RunsOn(Eleven(), Init(1, Programs(0)), before, s, [CpuStep(0), CpuStep(0)], t);
  }
}

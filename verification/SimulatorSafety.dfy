// Invariants of every run of the simulator: where threads stand against the
// barrier, and that a waiting process always has a CPU that will come for it.
module SimulatorSafety {
  import Barrier
  import opened Options
  import opened Queue
  import opened Scheduler
  import opened Simulator

  predicate InNext(m: Barrier.Mode) {
    m in {Barrier.EvAcquire, Barrier.EvHold, Barrier.TmAcquire, Barrier.TmHold, Barrier.Asleep}
  }

  predicate InDetach(m: Barrier.Mode) {
    m in {Barrier.DetAcquire, Barrier.DetHold, Barrier.Gone}
  }

  // Back from next_slot, or about to come back without sleeping again.
  predicate Passed(x: Barrier.Device) {
    x.mode == Barrier.Working || (x.mode in {Barrier.TmAcquire, Barrier.TmHold} && !x.done)
  }

  // ---- what barrier actions do to one device ----------------------------------------

  lemma ThreadDevice(b: Barrier.State, a: Barrier.Action, d: nat)
    requires Barrier.Inv(b) && Barrier.Enabled(b, a) && !Barrier.UserAction(a) && d < |b.devs|
    ensures var n := Barrier.Apply(b, a);
            && |n.devs| == |b.devs|
            && (b.devs[d].mode == Barrier.Working ==> n.devs[d].mode == Barrier.Working)
            && (InDetach(b.devs[d].mode) <==> InDetach(n.devs[d].mode))
            && (InNext(n.devs[d].mode) ==> InNext(b.devs[d].mode))
            && b.devs[d].released <= n.devs[d].released
            && (Passed(n.devs[d]) ==> Passed(b.devs[d]) || n.devs[d].released == b.devs[d].released + 1)
            && (Passed(b.devs[d]) ==> Passed(n.devs[d]))
  {
    assert Barrier.DevInv(b, d);
  }

  lemma UserDevice(b: Barrier.State, call: Call, d: nat, e: nat)
    requires Barrier.Inv(b) && d < |b.devs| && b.devs[d].mode == Barrier.Working && e < |b.devs|
    ensures var n := Barrier.Apply(b, Called(call, d));
            && |n.devs| == |b.devs| && n.time == b.time && n.timer == b.timer
            && (e != d ==> n.devs[e] == b.devs[e])
            && n.devs[d].released == b.devs[d].released == b.time && !n.devs[d].done
            && n.devs[d].mode == (match call
                                  case Stay => Barrier.Working
                                  case NextSlot => Barrier.EvAcquire
                                  case Leave => Barrier.DetAcquire)
  {
    assert Barrier.DevInv(b, d);
  }

  // ---- threads and flags ----------------------------------------------------------

  predicate CpuModes(s: Sim, c: nat)
    requires c < |s.cpus| && |s.b.devs| == |s.cpus| + 1
  {
    var m := s.b.devs[c + 1].mode;
    && (InNext(m) ==> s.cpus[c].pc == Top)
    && (InDetach(m) <==> s.cpus[c].pc == Halted)
    && (s.cpus[c].pc == Halted ==> s.cpus[c].proc == None && s.done)
  }

  predicate LoaderModes(cfg: Config, s: Sim)
    requires |s.b.devs| > 0
  {
    var m := s.b.devs[0].mode;
    && LoaderWellFormed(cfg, s) && s.next <= |s.procs|
    && (InNext(m) ==> s.loader == LTop)
    && (InDetach(m) <==> s.loader == LEnded) && (s.loader == LEnded <==> s.done)
    && (s.done ==> s.next == |s.procs|)
  }

  // The slot of the last add_proc is over before the loader acts again, and so
  // before done is set.
  predicate LoaderTime(s: Sim)
    requires |s.b.devs| > 0
  {
    var x := s.b.devs[0];
    && s.lastAdd <= x.released && s.lastAdd <= s.b.time
    && (s.loader == LTop && Passed(x) ==> s.lastAdd < x.released)
    && (s.done ==> s.lastAdd < s.b.time)
  }

  ghost predicate Modes(cfg: Config, s: Sim) {
    && Barrier.Inv(s.b) && |s.b.devs| == |s.cpus| + 1
    && (forall c :: 0 <= c < |s.cpus| ==> CpuModes(s, c))
    && LoaderModes(cfg, s) && LoaderTime(s)
  }

  lemma ThreadModes(cfg: Config, s: Sim, a: Barrier.Action)
    requires Modes(cfg, s) && Enabled(cfg, s, Thread(a))
    ensures Modes(cfg, Apply(cfg, s, Thread(a)))
  {
    var n := Apply(cfg, s, Thread(a));
    Barrier.StepInv(s.b, a);
    ThreadDevice(s.b, a, 0);
    assert Barrier.DevInv(n.b, 0) && Barrier.DevInv(s.b, 0);
    forall c | 0 <= c < |n.cpus| ensures CpuModes(n, c) {
      assert CpuModes(s, c);
      ThreadDevice(s.b, a, c + 1);
    }
  }

  lemma OwnModes(cfg: Config, s: Sim, c: nat)
    requires Modes(cfg, s) && Enabled(cfg, s, CpuStep(c))
    ensures |Apply(cfg, s, CpuStep(c)).b.devs| == |s.b.devs| && CpuModes(Apply(cfg, s, CpuStep(c)), c)
  {
    assert CpuModes(s, c);
    UserDevice(s.b, MoveOf(cfg, s, c).call, c + 1, c + 1);
  }

  lemma CpuStepShape(cfg: Config, s: Sim, c: nat)
    requires LoaderWellFormed(cfg, s) && Enabled(cfg, s, CpuStep(c))
    ensures LoaderWellFormed(cfg, Apply(cfg, s, CpuStep(c)))
    ensures |Apply(cfg, s, CpuStep(c)).procs| == |s.procs|
  {
  }

  lemma CpuStepModes(cfg: Config, s: Sim, c: nat)
    requires Modes(cfg, s) && Enabled(cfg, s, CpuStep(c))
    ensures Modes(cfg, Apply(cfg, s, CpuStep(c)))
  {
    hide MoveOf, LoaderWellFormed, Barrier.DevInv, Barrier.TimerInv;
    var n := Apply(cfg, s, CpuStep(c));
    var call := MoveOf(cfg, s, c).call;
    CpuStepShape(cfg, s, c);
    Barrier.StepInv(s.b, Called(call, c + 1));
    UserDevice(s.b, call, c + 1, 0);
    OwnModes(cfg, s, c);
    forall e | 0 <= e < |n.cpus| ensures CpuModes(n, e) {
      if e != c {
        assert CpuModes(s, e);
        UserDevice(s.b, call, c + 1, e + 1);
      }
    }
  }

  lemma LoaderStepModes(cfg: Config, s: Sim)
    requires Modes(cfg, s) && Enabled(cfg, s, LoaderStep)
    ensures Modes(cfg, Apply(cfg, s, LoaderStep))
  {
    var n := Apply(cfg, s, LoaderStep);
    var m := LoaderMoveOf(cfg, s);
    Barrier.StepInv(s.b, Called(m.call, 0));
    UserDevice(s.b, m.call, 0, 0);
    forall e | 0 <= e < |n.cpus| ensures CpuModes(n, e) {
      assert CpuModes(s, e);
      UserDevice(s.b, m.call, 0, e + 1);
    }
  }

  // ---- a waiting process has a CPU that will come for it -----------------------------

  predicate Empty(levels: seq<seq<nat>>) {
    forall k :: 0 <= k < |levels| ==> levels[k] == []
  }

  lemma GotNoneIffEmpty(levels: seq<seq<nat>>)
    ensures Got(levels).None? <==> Empty(levels)
  {
  }

  // Stopped, or about to test `done` after get_proc returned NULL.
  predicate Doomed(u: Cpu) {
    u.pc == Halted || (u.pc == Recheck && u.proc.None?)
  }

  // The last process has been added and that slot is over.
  predicate Loaded(s: Sim) {
    s.next == |s.procs| && s.lastAdd < s.b.time
  }

  ghost predicate SomeoneComes(s: Sim) {
    Loaded(s) ==> Empty(s.levels) || exists c :: 0 <= c < |s.cpus| && !Doomed(s.cpus[c])
  }

  lemma ThreadComes(cfg: Config, s: Sim, a: Barrier.Action)
    requires Modes(cfg, s) && SomeoneComes(s) && |s.cpus| > 0 && Enabled(cfg, s, Thread(a))
    ensures SomeoneComes(Apply(cfg, s, Thread(a)))
  {
    var n := Apply(cfg, s, Thread(a));
    if Loaded(n) && !Loaded(s) {
      Barrier.TickWhenAllWait(s.b, a, 1);
      assert CpuModes(s, 0) && Barrier.DevInv(s.b, 1);
      assert !Doomed(n.cpus[0]);
    }
  }

  lemma CpuStepComes(cfg: Config, s: Sim, c: nat)
    requires Modes(cfg, s) && SomeoneComes(s) && Enabled(cfg, s, CpuStep(c))
    ensures SomeoneComes(Apply(cfg, s, CpuStep(c)))
  {
    var n := Apply(cfg, s, CpuStep(c));
    var m := MoveOf(cfg, s, c);
    UserDevice(s.b, m.call, c + 1, 0);
    if Loaded(n) {
      GotNoneIffEmpty(s.levels);
      if !Doomed(m.cpu) {
        assert !Doomed(n.cpus[c]);
      } else if Doomed(s.cpus[c]) {
        if e :| 0 <= e < |s.cpus| && !Doomed(s.cpus[e]) {
          assert !Doomed(n.cpus[e]);
        }
      } else {
        assert Got(s.levels).None? && AfterGet(s.levels) == s.levels;
      }
    }
  }

  lemma LoaderStepComes(cfg: Config, s: Sim)
    requires Modes(cfg, s) && SomeoneComes(s) && Enabled(cfg, s, LoaderStep)
    ensures SomeoneComes(Apply(cfg, s, LoaderStep))
  {
    UserDevice(s.b, LoaderMoveOf(cfg, s).call, 0, 0);
  }
}

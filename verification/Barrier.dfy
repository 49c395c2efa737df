// The time-slot barrier (timer.c:21-93) at the granularity of lock operations.
// Every device has a flag pair, two mutexes and two condition variables; each
// critical section is one action, and sleeping on a condition variable releases
// the mutex in the same action. A signal moves the sleeper, if there is one, to
// the point where it asks for the mutex again.
module Barrier {

  datatype Holder = Free | ByDevice | ByTimer

  // Where the thread of a device stands.
  datatype Mode =
    | Working       // outside next_slot and detach_event
    | EvAcquire     // next_slot, asking for event_lock
    | EvHold        //   holding it, done not yet set
    | TmAcquire     //   asking for timer_lock
    | TmHold        //   holding it, about to test done
    | Asleep        //   waiting on timer_cond
    | DetAcquire    // detach_event, asking for event_lock
    | DetHold       //   holding it, fsh not yet set
    | Gone          // detached

  // released counts how often the timer has cleared done (a history).
  datatype Device = Device(mode: Mode, done: bool, fsh: bool, event: Holder, timer: Holder, released: nat)

  // Where the timer thread stands in its loop over the device list.
  datatype Timer =
    | Scan(k: nat)        // asking for event_lock of device k, or past the last
    | ScanHold(k: nat)    // holding it
    | ScanSleep(k: nat)   // waiting on event_cond of device k
    | Release(k: nat)     // asking for timer_lock of device k, or past the last
    | ReleaseHold(k: nat) // holding it
    | Stopped

  datatype State = State(
    devs: seq<Device>,
    timer: Timer,
    finished: nat,        // the counters fsh and event of timer_routine
    counted: nat,
    time: nat,
    stop: bool)           // timer_stop

  datatype Action =
    | Work(d: nat)
    | Enter(d: nat)
    | EvLock(d: nat)
    | Post(d: nat)
    | TmLock(d: nat)
    | Check(d: nat)
    | Detach(d: nat)
    | DetLock(d: nat)
    | Finish(d: nat)
    | SpuriousDevice(d: nat)
    | TimerLock
    | TimerCheck
    | SpuriousTimer
    | Tick
    | ReleaseLock
    | ReleasePost
    | TimerNext
    | StopTimer

  predicate Enabled(s: State, a: Action) {
    match a
    case Work(d) => d < |s.devs| && s.devs[d].mode == Working
    case Enter(d) => d < |s.devs| && s.devs[d].mode == Working
    case EvLock(d) => d < |s.devs| && s.devs[d].mode == EvAcquire && s.devs[d].event == Free
    case Post(d) => d < |s.devs| && s.devs[d].mode == EvHold
    case TmLock(d) => d < |s.devs| && s.devs[d].mode == TmAcquire && s.devs[d].timer == Free
    case Check(d) => d < |s.devs| && s.devs[d].mode == TmHold
    case Detach(d) => d < |s.devs| && s.devs[d].mode == Working
    case DetLock(d) => d < |s.devs| && s.devs[d].mode == DetAcquire && s.devs[d].event == Free
    case Finish(d) => d < |s.devs| && s.devs[d].mode == DetHold
    case SpuriousDevice(d) => d < |s.devs| && s.devs[d].mode == Asleep
    case TimerLock => s.timer.Scan? && s.timer.k < |s.devs| && s.devs[s.timer.k].event == Free
    case TimerCheck => s.timer.ScanHold? && s.timer.k < |s.devs|
    case SpuriousTimer => s.timer.ScanSleep?
    case Tick => s.timer == Scan(|s.devs|)
    case ReleaseLock => s.timer.Release? && s.timer.k < |s.devs| && s.devs[s.timer.k].timer == Free
    case ReleasePost => s.timer.ReleaseHold? && s.timer.k < |s.devs|
    case TimerNext => s.timer == Release(|s.devs|)
    case StopTimer => !s.stop && forall d :: 0 <= d < |s.devs| ==> s.devs[d].mode == Gone
  }

  function Set(s: State, d: nat, x: Device): State
    requires d < |s.devs|
  {
    s.(devs := s.devs[d := x])
  }

  // pthread_cond_signal on event_cond of device d
  function SignalTimer(t: Timer, d: nat): Timer {
    if t == ScanSleep(d) then Scan(d) else t
  }

  function Apply(s: State, a: Action): State
    requires Enabled(s, a)
  {
    match a
    case Work(d) => s
    case Enter(d) => Set(s, d, s.devs[d].(mode := EvAcquire))
    case EvLock(d) => Set(s, d, s.devs[d].(mode := EvHold, event := ByDevice))
    case Post(d) =>
      Set(s, d, s.devs[d].(mode := TmAcquire, event := Free, done := true)).(timer := SignalTimer(s.timer, d))
    case TmLock(d) => Set(s, d, s.devs[d].(mode := TmHold, timer := ByDevice))
    case Check(d) =>
      Set(s, d, s.devs[d].(mode := if s.devs[d].done then Asleep else Working, timer := Free))
    case Detach(d) => Set(s, d, s.devs[d].(mode := DetAcquire))
    case DetLock(d) => Set(s, d, s.devs[d].(mode := DetHold, event := ByDevice))
    case Finish(d) =>
      Set(s, d, s.devs[d].(mode := Gone, event := Free, fsh := true)).(timer := SignalTimer(s.timer, d))
    case SpuriousDevice(d) => Set(s, d, s.devs[d].(mode := TmAcquire))
    case TimerLock =>
      Set(s, s.timer.k, s.devs[s.timer.k].(event := ByTimer)).(timer := ScanHold(s.timer.k))
    case TimerCheck =>
      var k := s.timer.k;
      var x := s.devs[k];
      var t := Set(s, k, x.(event := Free));
      if !x.done && !x.fsh then t.(timer := ScanSleep(k))
      else t.(timer := Scan(k + 1), finished := s.finished + (if x.fsh then 1 else 0), counted := s.counted + 1)
    case SpuriousTimer => s.(timer := Scan(s.timer.k))
    case Tick => s.(time := s.time + 1, timer := Release(0))
    case ReleaseLock =>
      Set(s, s.timer.k, s.devs[s.timer.k].(timer := ByTimer)).(timer := ReleaseHold(s.timer.k))
    case ReleasePost =>
      var k := s.timer.k;
      var x := s.devs[k];
      Set(s, k, x.(done := false, timer := Free, released := x.released + 1,
                   mode := if x.mode == Asleep then TmAcquire else x.mode)).(timer := Release(k + 1))
    case TimerNext =>
      if s.finished == s.counted || s.stop then s.(timer := Stopped)
      else s.(timer := Scan(0), finished := 0, counted := 0)
    case StopTimer => s.(stop := true)
  }

  // n devices attached, every thread about to start its work.
  function Init(n: nat): State {
    State(seq(n, _ => Device(Working, false, false, Free, Free, 0)), Scan(0), 0, 0, 0, false)
  }

  // ---- the invariant -------------------------------------------------------------

  predicate Waiting(m: Mode) { m in {TmAcquire, TmHold, Asleep} }

  // Flags and mutexes of one device, read with the position of its thread.
  predicate DeviceOk(x: Device) {
    && (x.done ==> Waiting(x.mode))
    && (x.mode == Asleep ==> x.done)
    && (x.fsh <==> x.mode == Gone)
    && (x.event == ByDevice <==> x.mode in {EvHold, DetHold})
    && (x.timer == ByDevice <==> x.mode == TmHold)
  }

  // The timer has seen device d ready in this slot and not yet released it.
  predicate Due(t: Timer, d: nat) {
    match t
    case Scan(k) => d < k
    case ScanHold(k) => d < k
    case ScanSleep(k) => d < k
    case Release(k) => d >= k
    case ReleaseHold(k) => d >= k
    case Stopped => false
  }

  predicate Releasing(t: Timer) { t.Release? || t.ReleaseHold? }

  predicate DevInv(s: State, d: nat)
    requires d < |s.devs|
  {
    var x := s.devs[d];
    && DeviceOk(x)
    && (x.event == ByTimer <==> s.timer == ScanHold(d))
    && (x.timer == ByTimer <==> s.timer == ReleaseHold(d))
    && (Due(s.timer, d) ==> x.done || x.fsh)
    && x.released + (if Releasing(s.timer) && Due(s.timer, d) then 1 else 0) == s.time
    && (s.timer == ScanSleep(d) ==> !x.done && !x.fsh)
    && (s.stop || s.timer == Stopped ==> x.fsh)
  }

  predicate TimerInv(s: State) {
    && (s.timer.Scan? || s.timer.Release? ==> s.timer.k <= |s.devs|)
    && (s.timer.ScanHold? || s.timer.ScanSleep? || s.timer.ReleaseHold? ==> s.timer.k < |s.devs|)
    && (s.timer.Scan? || s.timer.ScanHold? || s.timer.ScanSleep? ==> s.counted == s.timer.k)
    && (Releasing(s.timer) ==> s.counted == |s.devs|)
    && s.finished <= s.counted <= |s.devs|
    && (s.finished == s.counted ==> forall d :: 0 <= d < s.counted ==> s.devs[d].fsh)
  }

  ghost predicate Inv(s: State) {
    TimerInv(s) && forall d :: 0 <= d < |s.devs| ==> DevInv(s, d)
  }

  lemma InitInv(n: nat)
    ensures Inv(Init(n))
  {
  }

  predicate TimerAction(a: Action) {
    a.TimerLock? || a.TimerCheck? || a.Tick? || a.ReleaseLock? || a.ReleasePost? || a.TimerNext? || a.StopTimer?
  }

  lemma StepDevInv(s: State, a: Action, d: nat)
    requires Inv(s) && Enabled(s, a) && d < |s.devs|
    ensures |Apply(s, a).devs| == |s.devs| && DevInv(Apply(s, a), d)
  {
    assert DevInv(s, d);
    if TimerAction(a) {
      TimerStepDevInv(s, a, d);
    }
  }

  lemma TimerStepDevInv(s: State, a: Action, d: nat)
    requires Inv(s) && Enabled(s, a) && d < |s.devs| && TimerAction(a)
    ensures |Apply(s, a).devs| == |s.devs| && DevInv(Apply(s, a), d)
  {
    assert DevInv(s, d);
  }

  lemma StepTimerInv(s: State, a: Action)
    requires Inv(s) && Enabled(s, a)
    ensures TimerInv(Apply(s, a))
  {
    if TimerAction(a) {
      TimerStepTimerInv(s, a);
    }
  }

  lemma TimerStepTimerInv(s: State, a: Action)
    requires Inv(s) && Enabled(s, a) && TimerAction(a)
    ensures TimerInv(Apply(s, a))
  {
    if a.TimerCheck? {
      assert DevInv(s, s.timer.k);
    }
  }

  lemma StepInv(s: State, a: Action)
    requires Inv(s) && Enabled(s, a)
    ensures Inv(Apply(s, a))
  {
    StepTimerInv(s, a);
    forall d | 0 <= d < |Apply(s, a).devs| ensures DevInv(Apply(s, a), d) {
      StepDevInv(s, a, d);
    }
  }

  // ---- lock step ------------------------------------------------------------------

  // A device that has not posted its slot has been released once per tick, and
  // no device is in a slot that another unfinished device has not posted.
  lemma LockStep(s: State, d: nat, e: nat)
    requires Inv(s) && d < |s.devs| && e < |s.devs|
    requires !s.devs[d].fsh && !s.devs[e].fsh
    ensures !s.devs[d].done ==> s.devs[d].released == s.time
    ensures s.devs[e].released <= s.devs[d].released + 1
    ensures s.devs[e].released == s.devs[d].released + 1 ==> s.devs[d].done && Waiting(s.devs[d].mode)
  {
    assert DevInv(s, d) && DevInv(s, e);
  }

  // Time moves only while every device waits inside next_slot or is detached.
  lemma TickWhenAllWait(s: State, a: Action, d: nat)
    requires Inv(s) && Enabled(s, a) && Apply(s, a).time != s.time && d < |s.devs|
    ensures Apply(s, a).time == s.time + 1
    ensures s.devs[d].fsh || (s.devs[d].done && Waiting(s.devs[d].mode))
  {
    assert DevInv(s, d);
  }

  // The timer ends only after every device has detached.
  lemma StoppedAllGone(s: State, d: nat)
    requires Inv(s) && s.timer == Stopped && d < |s.devs|
    ensures s.devs[d].mode == Gone
  {
    assert DevInv(s, d);
  }

  // No wakeup is lost: nobody sleeps on a condition that already holds.
  lemma NoLostWakeup(s: State, d: nat)
    requires Inv(s) && d < |s.devs|
    ensures s.timer == ScanSleep(d) ==> !s.devs[d].done && !s.devs[d].fsh
    ensures s.devs[d].mode == Asleep ==> s.devs[d].done
  {
    assert DevInv(s, d);
  }

  // ---- progress --------------------------------------------------------------------

  predicate Spurious(a: Action) { a.SpuriousDevice? || a.SpuriousTimer? }

  // A device that is neither asleep nor detached can step, or waits for a mutex
  // that the timer holds and is about to give back.
  lemma AwakeCanStep(s: State, d: nat) returns (a: Action)
    requires Inv(s) && d < |s.devs| && s.devs[d].mode != Asleep && s.devs[d].mode != Gone
    ensures Enabled(s, a) && !Spurious(a) && !a.Enter? && !a.Detach?
  {
    assert DevInv(s, d);
    var x := s.devs[d];
    match x.mode
    case Working => a := Work(d);
    case EvAcquire => a := if x.event == Free then EvLock(d) else TimerCheck;
    case EvHold => a := Post(d);
    case TmAcquire => a := if x.timer == Free then TmLock(d) else ReleasePost;
    case TmHold => a := Check(d);
    case DetAcquire => a := if x.event == Free then DetLock(d) else TimerCheck;
    case DetHold => a := Finish(d);
  }

  lemma TimerCanStep(s: State) returns (a: Action)
    requires Inv(s) && s.timer != Stopped
    ensures Enabled(s, a) && !Spurious(a) && !a.Enter? && !a.Detach?
  {
    match s.timer
    case Scan(k) =>
      if k == |s.devs| {
        a := Tick;
      } else if s.devs[k].event == Free {
        a := TimerLock;
      } else {
        assert DevInv(s, k);
        a := AwakeCanStep(s, k);
      }
    case ScanHold(k) => a := TimerCheck;
    case ScanSleep(k) =>
      assert DevInv(s, k);
      a := AwakeCanStep(s, k);
    case Release(k) =>
      if k == |s.devs| {
        a := TimerNext;
      } else if s.devs[k].timer == Free {
        a := ReleaseLock;
      } else {
        assert DevInv(s, k);
        a := AwakeCanStep(s, k);
      }
    case ReleaseHold(k) => a := ReleasePost;
  }

  // As long as some device is not detached, some thread can take a step that is
  // not a spurious wakeup.
  lemma Progress(s: State, d: nat) returns (a: Action)
    requires Inv(s) && d < |s.devs| && s.devs[d].mode != Gone
    ensures Enabled(s, a) && !Spurious(a) && !a.Enter? && !a.Detach?
  {
    assert DevInv(s, d);
    a := TimerCanStep(s);
  }

  // ---- every slot ends -----------------------------------------------------------

  // How far a device is from posting its slot. Enter drops by five, which leaves
  // room for the work of one slot.
  function Rank(x: Device): nat {
    match x.mode
    case Working => 13
    case EvAcquire => 8
    case EvHold => 7
    case DetAcquire => 8
    case DetHold => 7
    case TmAcquire => if x.done then 3 else 15
    case TmHold => if x.done then 2 else 14
    case Asleep => 1
    case Gone => 0
  }

  function TimerRank(t: Timer, n: nat): int {
    match t
    case Scan(k) => 4 * (n - k)
    case ScanHold(k) => 4 * (n - k) - 1
    case ScanSleep(k) => 4 * (n - k) - 2
    case Release(k) => 4 * n + 1 + 18 * (n - k)
    case ReleaseHold(k) => 4 * n + 18 * (n - k)
    case Stopped => 0
  }

  function Ranks(devs: seq<Device>): nat {
    if devs == [] then 0 else Rank(devs[0]) + Ranks(devs[1..])
  }

  lemma {:induction false} RanksSet(devs: seq<Device>, d: nat, x: Device)
    requires d < |devs|
    ensures Ranks(devs[d := x]) == Ranks(devs) - Rank(devs[d]) + Rank(x)
  {
    if d == 0 {
      assert devs[d := x][1..] == devs[1..];
    } else {
      RanksSet(devs[1..], d - 1, x);
      assert devs[d := x][1..] == devs[1..][d - 1 := x];
    }
  }

  function Measure(s: State): int {
    Ranks(s.devs) + TimerRank(s.timer, |s.devs|) + (if s.stop then 0 else 1)
  }

  lemma MeasureNat(s: State)
    requires Inv(s)
    ensures Measure(s) >= 0
  {
  }

  // The device an action changes, its own or the one the timer is looking at;
  // the number of devices when it changes none.
  function Subject(s: State, a: Action): (d: nat)
    requires Enabled(s, a)
    ensures d <= |s.devs|
  {
    match a
    case EvLock(e) => e
    case Post(e) => e
    case TmLock(e) => e
    case Check(e) => e
    case DetLock(e) => e
    case Finish(e) => e
    case Enter(e) => e
    case Detach(e) => e
    case SpuriousDevice(e) => e
    case TimerLock => s.timer.k
    case TimerCheck => s.timer.k
    case ReleaseLock => s.timer.k
    case ReleasePost => s.timer.k
    case _ => |s.devs|
  }

  predicate UserAction(a: Action) { a.Work? || a.Enter? || a.Detach? }

  lemma RanksApply(s: State, a: Action, d: nat)
    requires Enabled(s, a) && d == Subject(s, a) < |s.devs|
    ensures |Apply(s, a).devs| == |s.devs|
    ensures Ranks(Apply(s, a).devs) == Ranks(s.devs) - Rank(s.devs[d]) + Rank(Apply(s, a).devs[d])
  {
    RanksSet(s.devs, d, Apply(s, a).devs[d]);
    assert Apply(s, a).devs == s.devs[d := Apply(s, a).devs[d]];
  }

  lemma DeviceActionNearer(s: State, a: Action)
    requires Inv(s) && Enabled(s, a) && !Spurious(a) && !a.Work? && !TimerAction(a)
    ensures Measure(Apply(s, a)) <= Measure(s) - (if UserAction(a) then 5 else 1)
  {
    var d := Subject(s, a);
    RanksApply(s, a, d);
    assert DevInv(s, d);
  }

  // Releasing a sleeper lifts its rank by less than the timer's falls.
  lemma TimerActionRank(s: State, a: Action, d: nat)
    requires Inv(s) && Enabled(s, a) && TimerAction(a) && d == Subject(s, a) < |s.devs|
    ensures |Apply(s, a).devs| == |s.devs|
    ensures Rank(Apply(s, a).devs[d]) <= Rank(s.devs[d]) + (if a.ReleasePost? then 14 else 0)
  {
    assert DevInv(s, d);
  }

  lemma TimerActionNearer(s: State, a: Action)
    requires Inv(s) && Enabled(s, a) && !a.Tick? && TimerAction(a)
    ensures Measure(Apply(s, a)) < Measure(s)
  {
    var d := Subject(s, a);
    if d < |s.devs| {
      RanksApply(s, a, d);
      TimerActionRank(s, a, d);
    }
  }

  // Calling next_slot or detach_event costs at least five; every other action
  // that is neither a tick nor a spurious wakeup brings the end of the slot
  // nearer.
  lemma SlotEnds(s: State, a: Action)
    requires Inv(s) && Enabled(s, a) && !Spurious(a) && !a.Tick? && !a.Work?
    ensures Measure(Apply(s, a)) <= Measure(s) - (if UserAction(a) then 5 else 1)
  {
    if TimerAction(a) {
      TimerActionNearer(s, a);
    } else {
      DeviceActionNearer(s, a);
    }
  }

  // ---- runs -------------------------------------------------------------------------

  ghost predicate Reachable(s: State, n: nat) {
    exists trace: seq<Action> :: RunFrom(Init(n), trace, s)
  }

  ghost predicate RunFrom(s: State, trace: seq<Action>, t: State)
    decreases |trace|
  {
    if trace == [] then t == s else Enabled(s, trace[0]) && RunFrom(Apply(s, trace[0]), trace[1..], t)
  }

  lemma {:induction false} RunInv(s: State, trace: seq<Action>, t: State)
    requires Inv(s) && RunFrom(s, trace, t)
    ensures Inv(t)
    decreases |trace|
  {
    if trace != [] {
      StepInv(s, trace[0]);
      RunInv(Apply(s, trace[0]), trace[1..], t);
    }
  }

  lemma ReachableInv(s: State, n: nat)
    requires Reachable(s, n)
    ensures Inv(s)
  {
    var trace :| RunFrom(Init(n), trace, s);
    InitInv(n);
    RunInv(Init(n), trace, s);
  }
}

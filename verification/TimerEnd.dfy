// The timer ends: once every device has detached it ticks at most twice more and
// then stops, whatever happens.
module TimerEnd {
  import opened Barrier

  ghost predicate AllGone(s: State) {
    forall d :: 0 <= d < |s.devs| ==> s.devs[d].mode == Gone
  }

  // Everyone the timer has counted in this round had finished, or it has been told
  // to stop: the round is its last.
  predicate LastRound(s: State) {
    s.finished == s.counted || s.stop
  }

  predicate Scanning(t: Timer) { t.Scan? || t.ScanHold? || t.ScanSleep? }

  // How often the time can still move.
  function TicksLeft(s: State): nat {
    (if Scanning(s.timer) then 1 else 0) + (if LastRound(s) || s.timer == Stopped then 0 else 1)
  }

  // Actions left in this round.
  function RoundLeft(t: Timer, n: nat): int {
    match t
    case Scan(k) => 2 * (n - k) + 2 * n + 2
    case ScanHold(k) => 2 * (n - k) + 2 * n + 1
    case ScanSleep(k) => 2 * (n - k) + 2 * n + 2
    case Release(k) => 2 * (n - k) + 1
    case ReleaseHold(k) => 2 * (n - k)
    case Stopped => 0
  }

  // Actions left in all.
  function ActionsLeft(s: State): int {
    RoundLeft(s.timer, |s.devs|)
    + (if LastRound(s) || s.timer == Stopped then 0 else 4 * |s.devs| + 2)
    + (if s.stop then 0 else 1)
  }

  lemma ActionsLeftNat(s: State)
    requires Inv(s)
    ensures ActionsLeft(s) >= 0
  {
  }

  // With every device detached only the timer acts. Every action keeps it so and
  // uses one up; a tick uses up one of the ticks.
  lemma GoneStep(s: State, a: Action)
    requires Inv(s) && AllGone(s) && Enabled(s, a)
    ensures TimerAction(a) && AllGone(Apply(s, a))
    ensures ActionsLeft(Apply(s, a)) < ActionsLeft(s)
    ensures Apply(s, a).time + TicksLeft(Apply(s, a)) <= s.time + TicksLeft(s)
  {
    OnlyTimer(s, a);
    if a.TimerCheck? || a.ReleasePost? || a.TimerLock? || a.ReleaseLock? {
      assert DevInv(s, s.timer.k);
    }
  }

  lemma OnlyTimer(s: State, a: Action)
    requires Inv(s) && AllGone(s) && Enabled(s, a)
    ensures TimerAction(a)
  {
    assert s.timer.ScanSleep? ==> s.timer.k < |s.devs| && DevInv(s, s.timer.k);
  }

  // A step other than telling the timer to stop is possible if and only if it has
  // not stopped.
  lemma GoesOnIffNotStopped(s: State)
    requires Inv(s) && AllGone(s)
    ensures (exists a :: Enabled(s, a) && a != StopTimer) <==> s.timer != Stopped
  {
    if s.timer != Stopped {
      var a := TimerGoes(s);
    }
  }

  lemma TimerGoes(s: State) returns (a: Action)
    requires Inv(s) && AllGone(s) && s.timer != Stopped
    ensures Enabled(s, a) && a != StopTimer
  {
    match s.timer
    case Scan(k) =>
      if k < |s.devs| {
        assert DevInv(s, k);
        a := TimerLock;
      } else {
        a := Tick;
      }
    case ScanHold(k) => a := TimerCheck;
    case ScanSleep(k) => a := SpuriousTimer;
    case Release(k) =>
      if k < |s.devs| {
        assert DevInv(s, k);
        a := ReleaseLock;
      } else {
        a := TimerNext;
      }
    case ReleaseHold(k) => a := ReleasePost;
  }

  // So every run from there is short, ticks at most twice, and can only end with
  // the timer stopped.
  lemma {:induction false} TimerStops(s: State, trace: seq<Action>, t: State)
    requires Inv(s) && AllGone(s) && RunFrom(s, trace, t)
    ensures Inv(t) && AllGone(t) && |trace| <= ActionsLeft(s) && t.time <= s.time + TicksLeft(s) <= s.time + 2
    ensures (forall a :: Enabled(t, a) ==> a == StopTimer) <==> t.timer == Stopped
    decreases |trace|
  {
    if trace == [] {
      ActionsLeftNat(s);
      GoesOnIffNotStopped(s);
    } else {
      StepInv(s, trace[0]);
      GoneStep(s, trace[0]);
      TimerStops(Apply(s, trace[0]), trace[1..], t);
    }
  }

  // The timer stops at the end of a round if and only if everyone it counted in
  // the round had finished or it has been told to stop.
  lemma StopsAfterLastRound(s: State)
    requires Inv(s) && Enabled(s, TimerNext)
    ensures Apply(s, TimerNext).timer == Stopped <==> LastRound(s)
  {
  }
}

// Every loaded process is in exactly one place: queued once at its own level,
// with one CPU, or finished and freed.
module Conservation {
  import Barrier
  import opened Options
  import opened Queue
  import opened Scheduler
  import opened Simulator

  // The process a CPU is responsible for. After put_proc its variable still
  // names the process it has given away.
  function Held(u: Cpu): Option<nat> {
    if u.pc == GetNext || u.pc == Halted then None else u.proc
  }

  ghost predicate HeldBy(s: Sim, j: nat, c: nat) {
    c < |s.cpus| && Held(s.cpus[c]) == Some(j)
  }

  predicate Queued(s: Sim, j: nat) {
    j < |s.procs| && s.procs[j].prio < |s.levels| && j in s.levels[s.procs[j].prio]
  }

  predicate Once(q: seq<nat>) {
    forall i, j :: 0 <= i < j < |q| ==> q[i] != q[j]
  }

  // Queues hold loaded processes of their own level, each once.
  ghost predicate LevelOk(s: Sim, k: nat)
    requires k < |s.levels| && s.next <= |s.procs|
  {
    && Once(s.levels[k])
    && (forall j :: j in s.levels[k] ==> j < s.next && s.procs[j].prio == k)
  }

  ghost predicate QueuesOk(s: Sim) {
    && |s.levels| == MAX_PRIO && s.next <= |s.procs|
    && (forall k :: 0 <= k < MAX_PRIO ==> LevelOk(s, k))
  }

  // At most one place: not queued and held, not held twice, and a freed process
  // is neither and has run to its end.
  ghost predicate OnePlace(s: Sim) {
    && (forall c: nat, j: nat :: HeldBy(s, j, c) ==> j < s.next && !Queued(s, j) && j !in s.freed)
    && (forall c: nat, e: nat, j: nat :: HeldBy(s, j, c) && HeldBy(s, j, e) ==> c == e)
    && (forall j: nat :: j in s.freed ==> j < s.next <= |s.procs| && !Queued(s, j) && s.procs[j].pc == s.procs[j].size)
  }

  // At least one place.
  ghost predicate SomePlace(s: Sim) {
    forall j: nat :: j < s.next ==> j in s.freed || Queued(s, j) || exists c: nat :: HeldBy(s, j, c)
  }

  ghost predicate CpuOk(s: Sim, c: nat)
    requires c < |s.cpus|
  {
    var u := s.cpus[c];
    && (u.proc.Some? ==> u.proc.value < s.next)
    && (u.pc == PutQueue ==> u.proc.Some?)
  }

  ghost predicate Places(s: Sim) {
    QueuesOk(s) && OnePlace(s) && SomePlace(s) && forall c :: 0 <= c < |s.cpus| ==> CpuOk(s, c)
  }

  // ---- room: a level never overflows when at most ten processes share it ------------

  function Peers(procs: seq<Proc>, k: nat): set<nat> {
    set j | 0 <= j < |procs| && procs[j].prio == k
  }

  ghost predicate Roomy(procs: seq<Proc>) {
    forall k :: 0 <= k < MAX_PRIO ==> |Peers(procs, k)| <= MAX_QUEUE_SIZE
  }

  function Elements(q: seq<nat>): set<nat> {
    set x | x in q
  }

  lemma {:induction false} OnceSize(q: seq<nat>)
    requires Once(q)
    ensures |Elements(q)| == |q|
  {
    if q != [] {
      var rest := q[1..];
      OnceSize(rest);
      assert Elements(q) == {q[0]} + Elements(rest);
      assert q[0] !in rest;
    }
  }

  lemma SubsetSize(a: set<nat>, b: set<nat>)
    requires a <= b
    ensures |a| <= |b|
  {
    if a != {} {
      var x :| x in a;
      SubsetSize(a - {x}, b - {x});
    }
  }

  lemma HasRoom(s: Sim, j: nat)
    requires QueuesOk(s) && Roomy(s.procs) && j < |s.procs| && s.procs[j].prio < MAX_PRIO && !Queued(s, j)
    ensures |s.levels[s.procs[j].prio]| < MAX_QUEUE_SIZE
  {
    var k := s.procs[j].prio;
    var q := s.levels[k];
    assert LevelOk(s, k);
    OnceSize(q);
    SubsetSize(Elements(q) + {j}, Peers(s.procs, k));
  }

  // The level that a step puts or adds a process to is not full.
  predicate RoomFor(s: Sim, st: Step) {
    match st
    case Thread(_) => true
    case CpuStep(c) =>
      c < |s.cpus| && s.cpus[c].pc == PutQueue ==> s.cpus[c].proc.Some? && LevelHasRoom(s, s.cpus[c].proc.value)
    case LoaderStep => s.loader == LAdd ==> LevelHasRoom(s, s.next)
  }

  predicate LevelHasRoom(s: Sim, j: nat) {
    j < |s.procs| && s.procs[j].prio < |s.levels| && |s.levels[s.procs[j].prio]| < MAX_QUEUE_SIZE
  }

  // ---- the moves of a process --------------------------------------------------

  // A CPU with nothing in hand takes the head of the first non-empty level.
  lemma TakePlaces(s: Sim, n: Sim, c: nat)
    requires Places(s) && c < |s.cpus| && Held(s.cpus[c]).None?
    requires n.levels == AfterGet(s.levels) && n.procs == s.procs && n.next == s.next && n.freed == s.freed
    requires |n.cpus| == |s.cpus| && n.cpus[c].pc == Recheck && n.cpus[c].proc == Got(s.levels)
    requires forall e :: 0 <= e < |s.cpus| && e != c ==> n.cpus[e] == s.cpus[e]
    ensures Places(n)
  {
    var k := FirstReady(s.levels, 0);
    if k < |s.levels| {
      assert LevelOk(s, k) && s.levels[k][0] in s.levels[k];
    }
    forall e | 0 <= e < |n.cpus| ensures CpuOk(n, e) {
      assert CpuOk(s, e);
    }
    assert forall e: nat, j: nat :: e != c ==> (HeldBy(n, j, e) <==> HeldBy(s, j, e));
    assert forall j: nat :: !HeldBy(s, j, c);
    if k < |s.levels| {
      TakeSome(s, n, c, k);
    } else {
      assert forall j: nat :: !HeldBy(n, j, c);
      assert n.levels == s.levels;
      assert forall j: nat :: Queued(n, j) <==> Queued(s, j);
      assert forall e: nat, j: nat :: HeldBy(n, j, e) <==> HeldBy(s, j, e);
    }
  }

  lemma TakeSome(s: Sim, n: Sim, c: nat, k: nat)
    requires Places(s) && c < |s.cpus| && Held(s.cpus[c]).None?
    requires k == FirstReady(s.levels, 0) < |s.levels|
    requires n.levels == s.levels[k := s.levels[k][1..]] && n.procs == s.procs && n.next == s.next && n.freed == s.freed
    requires |n.cpus| == |s.cpus| && Held(n.cpus[c]) == Some(s.levels[k][0])
    requires forall e: nat, j: nat :: e != c ==> (HeldBy(n, j, e) <==> HeldBy(s, j, e))
    requires forall j: nat :: !HeldBy(s, j, c)
    ensures QueuesOk(n) && OnePlace(n) && SomePlace(n)
  {
    var p := s.levels[k][0];
    var rest := s.levels[k][1..];
    assert LevelOk(s, k);
    assert p in s.levels[k] && p !in rest;
    assert forall j :: j in rest ==> j in s.levels[k];
    assert forall j :: j in s.levels[k] ==> j == p || j in rest;
    assert Queued(s, p);
    assert forall j: nat :: Queued(n, j) <==> Queued(s, j) && j != p;
    assert forall j: nat :: HeldBy(n, j, c) <==> j == p;
    assert HeldBy(n, p, c) && p < s.next;
    TakenQueues(s, n, k);
    forall j: nat | j < n.next && j !in n.freed && !Queued(n, j) ensures exists e: nat :: HeldBy(n, j, e) {
      if j != p {
        var e: nat :| HeldBy(s, j, e);
        assert HeldBy(n, j, e);
      }
    }
  }

  lemma TakenQueues(s: Sim, n: Sim, k: nat)
    requires QueuesOk(s) && k < |s.levels| && s.levels[k] != []
    requires n.levels == s.levels[k := s.levels[k][1..]] && n.procs == s.procs && n.next == s.next
    ensures QueuesOk(n)
  {
    assert forall j :: j in s.levels[k][1..] ==> j in s.levels[k];
    forall i | 0 <= i < MAX_PRIO ensures LevelOk(n, i) {
      assert LevelOk(s, i);
    }
  }

  // A finished process leaves the hands of its CPU for good.
  lemma FreePlaces(s: Sim, n: Sim, c: nat, p: nat)
    requires Places(s) && HeldBy(s, p, c) && s.procs[p].pc == s.procs[p].size
    requires n.levels == s.levels && n.procs == s.procs && n.next == s.next && n.freed == s.freed + {p}
    requires |n.cpus| == |s.cpus| && n.cpus[c].proc == None && n.cpus[c].pc == Top
    requires forall e :: 0 <= e < |s.cpus| && e != c ==> n.cpus[e] == s.cpus[e]
    ensures Places(n)
  {
    assert CpuOk(s, c);
    forall e | 0 <= e < |n.cpus| ensures CpuOk(n, e) {
      assert CpuOk(s, e);
    }
    assert forall k :: 0 <= k < MAX_PRIO ==> LevelOk(s, k) ==> LevelOk(n, k);
    assert forall j: nat :: Queued(n, j) <==> Queued(s, j);
    assert forall e: nat, j: nat :: HeldBy(n, j, e) <==> HeldBy(s, j, e) && e != c;
    forall j: nat | j < n.next && j !in n.freed && !Queued(n, j) ensures exists e: nat :: HeldBy(n, j, e) {
      var e: nat :| HeldBy(s, j, e);
      assert HeldBy(n, j, e);
    }
  }

  // One process goes to the end of its level; nobody holds it any more.
  lemma EnqueuePlaces(s: Sim, n: Sim, p: nat)
    requires QueuesOk(s) && OnePlace(s) && SomePlace(s)
    requires p < n.next <= |s.procs| && s.procs[p].prio < MAX_PRIO && !Queued(s, p) && p !in s.freed
    requires |s.levels[s.procs[p].prio]| < MAX_QUEUE_SIZE
    requires n.levels == AfterPut(s.levels, s.procs[p].prio, p) && n.procs == s.procs && n.freed == s.freed
    requires n.next == s.next || (n.next == s.next + 1 && p == s.next)
    requires forall e: nat, j: nat :: HeldBy(n, j, e) <==> HeldBy(s, j, e) && j != p
    ensures QueuesOk(n) && OnePlace(n) && SomePlace(n)
  {
    var k := s.procs[p].prio;
    assert n.levels[k] == s.levels[k] + [p];
    forall i | 0 <= i < MAX_PRIO ensures LevelOk(n, i) {
      assert LevelOk(s, i);
    }
    assert forall j: nat :: Queued(n, j) <==> Queued(s, j) || j == p;
    forall j: nat | j < n.next && j !in n.freed && !Queued(n, j) ensures exists e: nat :: HeldBy(n, j, e) {
      var e: nat :| HeldBy(s, j, e);
      assert HeldBy(n, j, e);
    }
  }

  // Neither queues nor hands changed; programs may have advanced, but not
  // those of freed processes.
  lemma SamePlaces(s: Sim, n: Sim)
    requires Places(s)
    requires n.levels == s.levels && n.next == s.next && n.freed == s.freed && |n.procs| == |s.procs|
    requires forall j :: 0 <= j < |s.procs| ==> n.procs[j].prio == s.procs[j].prio
    requires forall j :: j in s.freed && j < |s.procs| ==> n.procs[j] == s.procs[j]
    requires |n.cpus| == |s.cpus|
    requires forall e :: 0 <= e < |s.cpus| ==> Held(n.cpus[e]) == Held(s.cpus[e])
    requires forall e :: 0 <= e < |s.cpus| ==> CpuOk(n, e)
    ensures Places(n)
  {
    assert forall k :: 0 <= k < MAX_PRIO ==> LevelOk(s, k) ==> LevelOk(n, k);
    assert forall j: nat :: Queued(n, j) <==> Queued(s, j);
    assert forall e: nat, j: nat :: HeldBy(n, j, e) <==> HeldBy(s, j, e);
    forall j: nat | j < n.next && j !in n.freed && !Queued(n, j) ensures exists e: nat :: HeldBy(n, j, e) {
      var e: nat :| HeldBy(s, j, e);
      assert HeldBy(n, j, e);
    }
  }

  // ---- every step ------------------------------------------------------------------

  lemma CpuStepTakes(cfg: Config, s: Sim, c: nat)
    requires Places(s) && Enabled(cfg, s, CpuStep(c))
    requires s.cpus[c].pc == GetNext || (s.cpus[c].pc == Top && s.cpus[c].proc.None? && Got(s.levels).Some?)
    ensures Places(Apply(cfg, s, CpuStep(c)))
  {
    TakePlaces(s, Apply(cfg, s, CpuStep(c)), c);
  }

  lemma CpuStepFrees(cfg: Config, s: Sim, c: nat)
    requires Places(s) && Enabled(cfg, s, CpuStep(c))
    requires s.cpus[c].pc == Top && s.cpus[c].proc.Some?
    requires var p := s.procs[s.cpus[c].proc.value]; p.pc == p.size
    ensures Places(Apply(cfg, s, CpuStep(c)))
  {
    var p := s.cpus[c].proc.value;
    var mid := s.(cpus := s.cpus[c := Cpu(Top, None, 0, s.cpus[c].since)], freed := s.freed + {p});
    FreePlaces(s, mid, c, p);
    TakePlaces(mid, Apply(cfg, s, CpuStep(c)), c);
  }

  // put_proc keeps its process if and only if the level has room; a full queue
  // drops it.
  lemma PutKeepsIffRoom(cfg: Config, s: Sim, c: nat)
    requires Places(s) && Enabled(cfg, s, CpuStep(c)) && s.cpus[c].pc == PutQueue
    ensures Places(Apply(cfg, s, CpuStep(c))) <==> RoomFor(s, CpuStep(c))
  {
    var n := Apply(cfg, s, CpuStep(c));
    var p := s.cpus[c].proc.value;
    assert HeldBy(s, p, c) && CpuOk(s, c);
    assert forall e: nat, j: nat :: HeldBy(n, j, e) <==> HeldBy(s, j, e) && e != c;
    if RoomFor(s, CpuStep(c)) {
      EnqueuePlaces(s, n, p);
      forall e | 0 <= e < |n.cpus| ensures CpuOk(n, e) {
        assert CpuOk(s, e);
      }
    } else {
      assert n.levels == s.levels;
      assert !Queued(n, p) && p !in n.freed && forall e: nat :: !HeldBy(n, p, e);
    }
  }

  lemma CpuStepStays(cfg: Config, s: Sim, c: nat)
    requires Places(s) && Enabled(cfg, s, CpuStep(c))
    requires var m := MoveOf(cfg, s, c);
             m.levels == s.levels && m.freed == s.freed && Held(m.cpu) == Held(s.cpus[c])
             && m.cpu.proc == s.cpus[c].proc
    ensures Places(Apply(cfg, s, CpuStep(c)))
  {
    var n := Apply(cfg, s, CpuStep(c));
    forall e | 0 <= e < |n.cpus| ensures CpuOk(n, e) {
      assert CpuOk(s, e);
    }
    forall j | j in s.freed && j < |s.procs| ensures n.procs[j] == s.procs[j] {
      assert s.procs[j].pc == s.procs[j].size;
    }
    SamePlaces(s, n);
  }

  lemma CpuStepPlaces(cfg: Config, s: Sim, c: nat)
    requires Places(s) && Enabled(cfg, s, CpuStep(c))
    ensures Places(Apply(cfg, s, CpuStep(c))) <==> RoomFor(s, CpuStep(c))
  {
    var u := s.cpus[c];
    if u.pc == PutQueue {
      PutKeepsIffRoom(cfg, s, c);
    } else if u.pc == GetNext || (u.pc == Top && u.proc.None? && Got(s.levels).Some?) {
      CpuStepTakes(cfg, s, c);
    } else if u.pc == Top && u.proc.Some? && s.procs[u.proc.value].pc == s.procs[u.proc.value].size {
      CpuStepFrees(cfg, s, c);
    } else {
      CpuStepStays(cfg, s, c);
    }
  }

  // Likewise add_proc.
  lemma AddKeepsIffRoom(cfg: Config, s: Sim)
    requires Places(s) && Enabled(cfg, s, LoaderStep) && s.loader == LAdd
    ensures Places(Apply(cfg, s, LoaderStep)) <==> RoomFor(s, LoaderStep)
  {
    var n := Apply(cfg, s, LoaderStep);
    var p := s.next;
    forall e | 0 <= e < |n.cpus| ensures CpuOk(n, e) {
      assert CpuOk(s, e);
    }
    assert LevelOk(s, s.procs[p].prio);
    assert forall e: nat, j: nat :: HeldBy(n, j, e) <==> HeldBy(s, j, e);
    if RoomFor(s, LoaderStep) {
      EnqueuePlaces(s, n, p);
    } else {
      assert n.levels == s.levels;
      assert !Queued(n, p) && p !in n.freed && forall e: nat :: !HeldBy(n, p, e);
    }
  }

  lemma LoaderStepPlaces(cfg: Config, s: Sim)
    requires Places(s) && Enabled(cfg, s, LoaderStep)
    ensures Places(Apply(cfg, s, LoaderStep)) <==> RoomFor(s, LoaderStep)
  {
    if s.loader == LAdd {
      AddKeepsIffRoom(cfg, s);
    } else {
      var n := Apply(cfg, s, LoaderStep);
      forall e | 0 <= e < |n.cpus| ensures CpuOk(n, e) {
        assert CpuOk(s, e);
      }
      SamePlaces(s, n);
    }
  }

  // Whatever the processes are, a step keeps each of them in exactly one place
  // if and only if it does not put or add one to a full level.
  lemma StepPlacesIff(cfg: Config, s: Sim, st: Step)
    requires Places(s) && Enabled(cfg, s, st)
    ensures Places(Apply(cfg, s, st)) <==> RoomFor(s, st)
  {
    match st
    case Thread(_) =>
      var n := Apply(cfg, s, st);
      forall e | 0 <= e < |n.cpus| ensures CpuOk(n, e) {
        assert CpuOk(s, e);
      }
      SamePlaces(s, n);
    case CpuStep(c) => CpuStepPlaces(cfg, s, c);
    case LoaderStep => LoaderStepPlaces(cfg, s);
  }

  lemma RoomyHasRoom(cfg: Config, s: Sim, st: Step)
    requires Places(s) && Roomy(s.procs) && Enabled(cfg, s, st)
    ensures RoomFor(s, st)
  {
    match st
    case Thread(_) =>
    case CpuStep(c) =>
      if s.cpus[c].pc == PutQueue {
        assert HeldBy(s, s.cpus[c].proc.value, c) && CpuOk(s, c);
        HasRoom(s, s.cpus[c].proc.value);
      }
    case LoaderStep =>
      if s.loader == LAdd {
        assert LevelOk(s, s.procs[s.next].prio);
        HasRoom(s, s.next);
      }
  }

  // With at most ten processes per priority, in every step a loaded process
  // stays in exactly one place.
  lemma StepPlaces(cfg: Config, s: Sim, st: Step)
    requires Places(s) && Roomy(s.procs) && Enabled(cfg, s, st)
    ensures Places(Apply(cfg, s, st)) && Roomy(Apply(cfg, s, st).procs)
  {
    var n := Apply(cfg, s, st);
    RoomyHasRoom(cfg, s, st);
    StepPlacesIff(cfg, s, st);
    assert forall k :: 0 <= k < MAX_PRIO ==> Peers(n.procs, k) == Peers(s.procs, k);
  }
}

// CPUs, loader, ready queues and timer together (os.c:47-141 over timer.c and
// sched.c). Device 0 of the barrier is the loader and device c + 1 is CPU c. One
// step is one action of the barrier or one action of a working thread: a
// critical section on queue_lock, or a read or write of the shared `done`,
// together with the local code up to the next such point.
module Simulator {
  import Barrier
  import opened Options
  import opened Queue
  import opened Scheduler

  datatype Proc = Proc(pc: nat, size: nat, prio: nat)

  datatype CpuPc =
    | Top        // head of the while loop
    | PutQueue   // inside put_proc, between its two critical sections
    | GetNext    // put_proc returned
    | Recheck    // "recheck process status"
    | Halted     // left the loop

  // since counts the instructions run since the dispatch (a history).
  datatype Cpu = Cpu(pc: CpuPc, proc: Option<nat>, left: int, since: nat)

  datatype LoaderPc = LTop | LAdd | LEnded

  datatype Config = Config(slot: nat, starts: seq<nat>)

  datatype Sim = Sim(
    b: Barrier.State,
    cpus: seq<Cpu>,
    loader: LoaderPc,
    next: nat,               // i of ld_routine
    levels: seq<seq<nat>>,   // process numbers, in load order
    running: seq<nat>,       // running_list
    procs: seq<Proc>,
    done: bool,
    freed: set<nat>,         // histories: processes seen finished and freed,
    lastAdd: int,            // the slot of the last add_proc,
    ran: bool,               // whether an instruction ran in this slot,
    owed: nat)               // and the work left at the last add_proc (or at the start)

  datatype Step = Thread(a: Barrier.Action) | CpuStep(c: nat) | LoaderStep

  // ---- work left ------------------------------------------------------------------

  function Left(p: Proc): nat { if p.pc <= p.size then p.size - p.pc else 0 }

  function Remaining(procs: seq<Proc>): nat {
    if procs == [] then 0 else Left(procs[0]) + Remaining(procs[1..])
  }

  lemma {:induction false} RemainingSet(procs: seq<Proc>, j: nat, p: Proc)
    requires j < |procs|
    ensures Remaining(procs[j := p]) == Remaining(procs) - Left(procs[j]) + Left(p)
  {
    if j == 0 {
      assert procs[j := p][1..] == procs[1..];
    } else {
      RemainingSet(procs[1..], j - 1, p);
      assert procs[j := p][1..] == procs[1..][j - 1 := p];
    }
  }

  lemma {:induction false} RemainingZero(procs: seq<Proc>)
    ensures Remaining(procs) == 0 <==> forall j :: 0 <= j < |procs| ==> Left(procs[j]) == 0
  {
    if procs != [] {
      RemainingZero(procs[1..]);
      assert forall j :: 0 < j < |procs| ==> procs[j] == procs[1..][j - 1];
    }
  }

  // run(proc): advance the program counter (cpu.c:61-70)
  function RunOne(p: Proc): Proc {
    if p.pc >= p.size then p else p.(pc := p.pc + 1)
  }

  // ---- one action of a CPU (os.c:53-98) -------------------------------------------

  datatype CpuMove = CpuMove(cpu: Cpu, levels: seq<seq<nat>>, running: seq<nat>, procs: seq<Proc>,
                             freed: set<nat>, ran: bool, call: Call)

  datatype Call = Stay | NextSlot | Leave

  predicate CpuWellFormed(s: Sim, c: nat) {
    && c < |s.cpus| && |s.levels| == MAX_PRIO
    && (s.cpus[c].proc.Some? ==> s.cpus[c].proc.value < |s.procs| && s.procs[s.cpus[c].proc.value].prio < MAX_PRIO)
    && (s.cpus[c].pc == PutQueue ==> s.cpus[c].proc.Some?)
  }

  function Fetch(s: Sim, u: Cpu): CpuMove {
    CpuMove(u.(pc := Recheck, proc := Got(s.levels), since := 0), AfterGet(s.levels), s.running, s.procs, s.freed, s.ran, Stay)
  }

  function MoveOf(cfg: Config, s: Sim, c: nat): CpuMove
    requires CpuWellFormed(s, c)
  {
    var u := s.cpus[c];
    var same := CpuMove(u, s.levels, s.running, s.procs, s.freed, s.ran, Stay);
    match u.pc
    case Top =>
      if u.proc.None? then
        (if Got(s.levels).None? then same.(call := NextSlot) else Fetch(s, u))
      else
        var p := u.proc.value;
        if s.procs[p].pc == s.procs[p].size then
          Fetch(s, u.(left := 0)).(freed := s.freed + {p})
        else if u.left == 0 then
          same.(cpu := u.(pc := PutQueue), running := Enqueued(s.running, p))
        else same.(cpu := u.(pc := Recheck))
    case PutQueue =>
      var p := u.proc.value;
      same.(cpu := u.(pc := GetNext), levels := AfterPut(s.levels, s.procs[p].prio, p))
    case GetNext => Fetch(s, u)
    case Recheck =>
      if u.proc.None? then
        (if s.done then same.(cpu := u.(pc := Halted), call := Leave)
         else same.(cpu := u.(pc := Top), call := NextSlot))
      else
        var p := u.proc.value;
        var left := if u.left == 0 then cfg.slot else u.left;
        same.(cpu := u.(pc := Top, left := left - 1, since := u.since + 1), procs := s.procs[p := RunOne(s.procs[p])],
              ran := s.ran || s.procs[p].pc < s.procs[p].size, call := NextSlot)
    case Halted => same
  }

  function Called(call: Call, d: nat): Barrier.Action {
    match call
    case Stay => Barrier.Work(d)
    case NextSlot => Barrier.Enter(d)
    case Leave => Barrier.Detach(d)
  }

  // ---- one action of the loader (os.c:114-139) --------------------------------------

  datatype LoaderMove = LoaderMove(pc: LoaderPc, next: nat, levels: seq<seq<nat>>, running: seq<nat>,
                                   done: bool, lastAdd: int, owed: nat, call: Call)

  predicate LoaderWellFormed(cfg: Config, s: Sim) {
    && |cfg.starts| == |s.procs| && |s.levels| == MAX_PRIO
    && (s.loader == LAdd ==> s.next < |s.procs|)
    && (forall j :: 0 <= j < |s.procs| ==> s.procs[j].prio < MAX_PRIO)
  }

  function LoaderMoveOf(cfg: Config, s: Sim): LoaderMove
    requires LoaderWellFormed(cfg, s)
  {
    var same := LoaderMove(s.loader, s.next, s.levels, s.running, s.done, s.lastAdd, s.owed, Stay);
    match s.loader
    case LTop =>
      if s.next >= |s.procs| then same.(pc := LEnded, done := true, call := Leave)
      else if s.b.time < cfg.starts[s.next] then same.(call := NextSlot)
      else same.(pc := LAdd, running := Enqueued(s.running, s.next))
    case LAdd =>
      same.(pc := LTop, next := s.next + 1, levels := AfterPut(s.levels, s.procs[s.next].prio, s.next),
            lastAdd := s.b.time, owed := Remaining(s.procs), call := NextSlot)
    case LEnded => same
  }

  // ---- steps -----------------------------------------------------------------------

  predicate Enabled(cfg: Config, s: Sim, st: Step) {
    match st
    case Thread(a) => !Barrier.UserAction(a) && Barrier.Enabled(s.b, a)
    case CpuStep(c) => CpuWellFormed(s, c) && c + 1 < |s.b.devs| && s.b.devs[c + 1].mode == Barrier.Working
    case LoaderStep => LoaderWellFormed(cfg, s) && 0 < |s.b.devs| && s.b.devs[0].mode == Barrier.Working
  }

  function Apply(cfg: Config, s: Sim, st: Step): Sim
    requires Enabled(cfg, s, st)
  {
    match st
    case Thread(a) =>
      s.(b := Barrier.Apply(s.b, a), ran := s.ran && !a.Tick?)
    case CpuStep(c) =>
      var m := MoveOf(cfg, s, c);
      s.(b := Barrier.Apply(s.b, Called(m.call, c + 1)), cpus := s.cpus[c := m.cpu], levels := m.levels,
         running := m.running, procs := m.procs, freed := m.freed, ran := m.ran)
    case LoaderStep =>
      var m := LoaderMoveOf(cfg, s);
      s.(b := Barrier.Apply(s.b, Called(m.call, 0)), loader := m.pc, next := m.next, levels := m.levels,
         running := m.running, done := m.done, lastAdd := m.lastAdd, owed := m.owed)
  }

  function Init(cpus: nat, procs: seq<Proc>): Sim {
    Sim(Barrier.Init(cpus + 1), seq(cpus, _ => Cpu(Top, None, 0, 0)), LTop, 0, seq(MAX_PRIO, _ => []), [],
        procs, false, {}, -1, false, Remaining(procs))
  }
}

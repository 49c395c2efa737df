// The flat view of memory: one byte per process and address, over every run.
module FlatMemory {
  import opened Options
  import opened Bits
  import opened Paging
  import opened FrameSafety
  import opened Overmap
  import opened PageAccess
  import opened Regions
  import opened System

  function Peek(s: Sys, p: nat, addr: nat): Option<Byte> {
    if InM(s.m, p, addr / PAGE) && !At(s.m, p, addr / PAGE).Absent?
    then Some(Cell(s.m, p, addr / PAGE, addr % PAGE)) else None
  }

  ghost predicate OnResident(m: Machine, p: nat, addr: nat) {
    InM(m, p, Pgn(addr)) && At(m, p, Pgn(addr)).Resident?
  }

  // The page an access lands on is resident in RAM.
  ghost predicate Resides(s: Sys, op: Op)
    requires Defined(s, op)
  {
    match op
    case Read(p, id, off) => OnResident(s.m, p, Addr(s, p, id, off))
    case Write(p, id, off, _) => OnResident(s.m, p, Addr(s, p, id, off))
    case _ => true
  }

  function Output(s: Sys, p: nat, id: nat, off: nat): Option<Byte>
    requires HasSymbol(s, p, id) && InM(s.m, p, Pgn(Addr(s, p, id, off)))
  {
    var addr := Addr(s, p, id, off);
    ReadRam(s.m.dev, At(s.m, p, Pgn(addr)), Offst(addr))
  }

  // ---- what an operation puts at an address --------------------------------------

  // Growth maps the page, and gives it the frame that stands in the list of
  // alloc_pages_range where the page stands in the range.
  predicate MapsPage(s: Sys, p: nat, size: nat, g: nat) {
    && CanGrow(s, p, size) && GrowMap(s, p, size).code == 0
    && FirstPage(s, p) <= g < FirstPage(s, p) + Pages(size)
  }

  function NewFrame(s: Sys, p: nat, size: nat, g: nat): nat
    requires MapsPage(s, p, size, g)
  {
    AllocPages(LocalOf(s.m, p), Pages(size), []).frames[g - FirstPage(s, p)]
  }

  // The value written there, or what the frame mapped there held.
  function Deposited(s: Sys, op: Op, q: nat, b: nat): Option<Byte>
    requires Defined(s, op)
  {
    match op
    case Write(p, id, off, v) =>
      if p == q && b == Addr(s, p, id, off) % SPACE_LIMIT then Some(v) else None
    case Alloc(p, id, size) =>
      if p == q && !Fits(s.areas[p].free, size) && MapsPage(s, p, size, b / PAGE)
      then Some(CellOf(s.m.dev.ram, NewFrame(s, p, size, b / PAGE), b % PAGE)) else None
    case _ => None
  }

  // ---- one step ---------------------------------------------------------------

  // A page of the range shows what its new frame holds, whether or not it was
  // mapped before, and no other page of the process appears or changes.
  lemma GrowPeek(s: Sys, p: nat, size: nat, g: nat, off: nat)
    requires SysInv(s) && CanGrow(s, p, size) && InM(s.m, p, g) && off < PAGE
    ensures var n := Put(s.m, p, GrowMap(s, p, size).l);
            && InM(n, p, g)
            && (MapsPage(s, p, size, g) ==>
                  At(n, p, g).Resident? && Cell(n, p, g, off) == CellOf(s.m.dev.ram, NewFrame(s, p, size, g), off))
            && (!MapsPage(s, p, size, g) ==>
                  (At(n, p, g).Absent? <==> At(s.m, p, g).Absent?)
                  && (!At(s.m, p, g).Absent? ==> Cell(n, p, g, off) == Cell(s.m, p, g, off)))
  {
    var g0, k := FirstPage(s, p), Pages(size);
    var a := AllocPages(LocalOf(s.m, p), k, []);
    AllocKeepsInv(s.m, p, k, []);
    var m := Put(s.m, p, a.l);
    assert InM(m, p, g);
    if MapsPage(s, p, size, g) {
      GrowthReplaces(s.m, p, g0, k, g, off);
    } else if a.code == 0 {
      assert DeviceOk(a.l.dev.ram, FPN_LIMIT);
      MapRangeTable(a.l.space, g0, a.frames, g);
    }
  }

  // The bytes of the other processes stay where they are.
  lemma OtherPeek(s: Sys, p: nat, size: nat, q: nat, g: nat, off: nat)
    requires SysInv(s) && CanGrow(s, p, size) && q != p && InM(s.m, q, g) && off < PAGE
    ensures var n := Put(s.m, p, GrowMap(s, p, size).l);
            && InM(n, q, g) && At(n, q, g) == At(s.m, q, g)
            && (!At(s.m, q, g).Absent? ==> Cell(n, q, g, off) == Cell(s.m, q, g, off))
  {
    var a := AllocPages(LocalOf(s.m, p), Pages(size), []);
    AllocKeepsInv(s.m, p, Pages(size), []);
    assert InM(Put(s.m, p, a.l), q, g);
  }

  lemma AllocPeek(s: Sys, p: nat, id: nat, size: nat, q: nat, b: nat)
    requires SysInv(s) && Defined(s, Alloc(p, id, size))
    ensures var op := Alloc(p, id, size);
            Peek(Step(s, op), q, b) == if Deposited(s, op, q, b).Some? then Deposited(s, op, q, b) else Peek(s, q, b)
  {
    if !Fits(s.areas[p].free, size) {
      var n := Step(s, Alloc(p, id, size)).m;
      SameTables(s, p, size);
      if InM(s.m, q, b / PAGE) {
        if q == p {
          GrowPeek(s, p, size, b / PAGE, b % PAGE);
        } else {
          OtherPeek(s, p, size, q, b / PAGE, b % PAGE);
        }
      }
    }
  }

  lemma SameTables(s: Sys, p: nat, size: nat)
    requires SysInv(s) && CanGrow(s, p, size)
    ensures var n := Put(s.m, p, GrowMap(s, p, size).l); forall q: nat, g: nat :: InM(n, q, g) <==> InM(s.m, q, g)
  {
    assert FifoOk(s.m.spaces[p], s.m.dev.ram.Frames());
  }

  // The two fields of an address name the byte at the address modulo 2^22.
  lemma Wraps(addr: nat, b: nat)
    ensures Pgn(addr) == b / PAGE && Offst(addr) == b % PAGE <==> b == addr % SPACE_LIMIT
  {
    assert addr % SPACE_LIMIT == Pgn(addr) * PAGE + Offst(addr);
    assert b == b / PAGE * PAGE + b % PAGE;
  }

  lemma WritePeek(s: Sys, p: nat, id: nat, off: nat, v: Byte, q: nat, b: nat)
    requires SysInv(s) && Defined(s, Write(p, id, off, v)) && Resides(s, Write(p, id, off, v))
    ensures Peek(Step(s, Write(p, id, off, v)), q, b)
         == if q == p && b == Addr(s, p, id, off) % SPACE_LIMIT then Some(v) else Peek(s, q, b)
  {
    var addr := Addr(s, p, id, off);
    Wraps(addr, b);
    if InM(s.m, q, b / PAGE) && !At(s.m, q, b / PAGE).Absent? {
      WriteResident(s.m, p, Pgn(addr), Offst(addr), v, q, b / PAGE, b % PAGE);
    }
  }

  // What one operation does to the flat view, at every address of every process:
  // a write puts its value at its own address, growth shows what the new frames
  // hold, and nothing else changes.
  lemma StepPeek(s: Sys, op: Op, q: nat, b: nat)
    requires SysInv(s) && Defined(s, op) && Resides(s, op)
    ensures Peek(Step(s, op), q, b) == if Deposited(s, op, q, b).Some? then Deposited(s, op, q, b) else Peek(s, q, b)
  {
    match op
    case Spawn(symbols) =>
      var n := Step(s, op);
      assert q < |s.m.spaces| ==> n.m.spaces[q] == s.m.spaces[q];
      assert InM(s.m, q, b / PAGE) ==> InM(n.m, q, b / PAGE) && At(n.m, q, b / PAGE) == At(s.m, q, b / PAGE);
    case Alloc(p, id, size) => AllocPeek(s, p, id, size, q, b);
    case Free(p, id) =>
    case Read(p, id, off) =>
    case Write(p, id, off, v) => WritePeek(s, p, id, off, v, q, b);
  }

  // A read of a resident page returns the byte of the flat view.
  lemma ReadPeek(s: Sys, p: nat, id: nat, off: nat)
    requires SysInv(s) && HasSymbol(s, p, id) && OnResident(s.m, p, Addr(s, p, id, off))
    ensures Output(s, p, id, off) == Peek(s, p, Addr(s, p, id, off) % SPACE_LIMIT) && Output(s, p, id, off).Some?
  {
    var addr := Addr(s, p, id, off);
    Wraps(addr, addr % SPACE_LIMIT);
    ReadResident(s.m, p, Pgn(addr), Offst(addr));
  }

  // ---- runs ----------------------------------------------------------------------

  ghost predicate ResidentRun(s: Sys, ops: seq<Op>)
    requires DefinedRun(s, ops)
    decreases |ops|
  {
    ops == [] || (Resides(s, ops[0]) && ResidentRun(Step(s, ops[0]), ops[1..]))
  }

  // The last value a run puts at the address: the last write since the page was
  // mapped, or else what its frame held at that moment.
  ghost function LastDeposit(s: Sys, ops: seq<Op>, q: nat, b: nat): Option<Byte>
    requires DefinedRun(s, ops)
    decreases |ops|
  {
    if ops == [] then None
    else
      var later := LastDeposit(Step(s, ops[0]), ops[1..], q, b);
      if later.Some? then later else Deposited(s, ops[0], q, b)
  }

  // Memory is flat: whatever the processes do on resident pages, as long as the
  // invariant holds, an address holds the last value put there, or what it held
  // before the run.
  lemma {:induction false} RunPeek(s: Sys, ops: seq<Op>, q: nat, b: nat)
    requires SysInv(s) && DefinedRun(s, ops) && SafeRun(s, ops) && ResidentRun(s, ops)
    ensures Peek(Run(s, ops), q, b)
         == if LastDeposit(s, ops, q, b).Some? then LastDeposit(s, ops, q, b) else Peek(s, q, b)
    decreases |ops|
  {
    if ops != [] {
      StepKeepsIff(s, ops[0]);
      StepPeek(s, ops[0], q, b);
      RunPeek(Step(s, ops[0]), ops[1..], q, b);
    }
  }

  // From the start every byte there is has been put there by the run.
  lemma StartPeek(ram: nat, swaps: seq<nat>, active: nat, ops: seq<Op>, q: nat, b: nat)
    requires Sized(ram, swaps, active) && DefinedRun(InitSys(ram, swaps, active), ops)
    requires SafeRun(InitSys(ram, swaps, active), ops) && ResidentRun(InitSys(ram, swaps, active), ops)
    ensures Peek(Run(InitSys(ram, swaps, active), ops), q, b) == LastDeposit(InitSys(ram, swaps, active), ops, q, b)
  {
    InitSysInv(ram, swaps, active);
    RunPeek(InitSys(ram, swaps, active), ops, q, b);
  }

  // ---- isolation of regions -------------------------------------------------------

  // An access inside a live region.
  predicate InRegion(s: Sys, p: nat, id: nat, off: nat) {
    HasSymbol(s, p, id) && id in s.areas[p].live && In(s.areas[p].symbols[id], Addr(s, p, id, off))
  }

  lemma RegionBelow(s: Sys, p: nat, id: nat, off: nat)
    requires SysInv(s) && InRegion(s, p, id, off)
    ensures Addr(s, p, id, off) < s.areas[p].sbrk <= SPACE_LIMIT
    ensures Addr(s, p, id, off) % SPACE_LIMIT == Addr(s, p, id, off)
  {
    assert AreaOk(s.areas[p]);
    assert Below(s.areas[p].symbols[id], s.areas[p].sbrk);
  }

  // A write inside one live region never changes a read inside another, of the
  // same process or of a different one.
  lemma RegionsIsolated(s: Sys, p: nat, id: nat, off: nat, v: Byte, q: nat, jd: nat, o: nat)
    requires SysInv(s) && (p != q || id != jd)
    requires InRegion(s, p, id, off) && OnResident(s.m, p, Addr(s, p, id, off))
    requires InRegion(s, q, jd, o) && OnResident(s.m, q, Addr(s, q, jd, o))
    ensures var n := Step(s, Write(p, id, off, v));
            && InRegion(n, q, jd, o) && OnResident(n.m, q, Addr(n, q, jd, o))
            && Output(n, q, jd, o) == Output(s, q, jd, o)
  {
    RegionBelow(s, p, id, off);
    RegionBelow(s, q, jd, o);
    var op := Write(p, id, off, v);
    var n := Step(s, op);
    assert AreaOk(s.areas[p]);
    if p == q {
      assert Apart(s.areas[p].symbols[id], s.areas[p].symbols[jd]);
    }
    assert n.m.spaces == s.m.spaces;
    StepPeek(s, op, q, Addr(s, q, jd, o));
    StepKeepsIff(s, op);
    ReadPeek(s, q, jd, o);
    ReadPeek(n, q, jd, o);
  }
}

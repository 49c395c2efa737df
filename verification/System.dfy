// The memory system as a whole: processes that start, allocate, free, read and
// write through their regions, over one RAM and four swap devices, in any order.
module System {
  import opened Bits
  import opened Paging
  import opened FrameSafety
  import opened Overmap
  import opened PageAccess
  import opened Regions

  datatype Sys = Sys(m: Machine, areas: seq<Area>)

  datatype Op =
    | Spawn(symbols: seq<Region>)
    | Alloc(p: nat, id: nat, size: nat)
    | Free(p: nat, id: nat)
    | Read(p: nat, id: nat, off: nat)
    | Write(p: nat, id: nat, off: nat, value: Byte)

  predicate HasSymbol(s: Sys, p: nat, id: nat) {
    p < |s.areas| && p < |s.m.spaces| && id < |s.areas[p].symbols|
  }

  // Start of the symbol plus offset: no test against the region or the break.
  function Addr(s: Sys, p: nat, id: nat, off: nat): nat
    requires HasSymbol(s, p, id)
  {
    s.areas[p].symbols[id].start + off
  }

  // ---- one operation (__alloc, __free, __read, __write) -----------------------

  function FirstPage(s: Sys, p: nat): nat
    requires p < |s.areas|
  {
    s.areas[p].vmEnd / PAGE
  }

  function Pages(size: nat): nat { Align(size) / PAGE }

  // Growth of the break: the new pages lie in the address space.
  predicate CanGrow(s: Sys, p: nat, size: nat) {
    && p < |s.areas| && p < |s.m.spaces| && Shape(LocalOf(s.m, p))
    && FirstPage(s, p) + Pages(size) <= MAX_PGN
  }

  function GrowMap(s: Sys, p: nat, size: nat): Mapped
    requires CanGrow(s, p, size)
  {
    MapRam(LocalOf(s.m, p), FirstPage(s, p), Pages(size))
  }

  // A process the loader starts (init_mm): no page mapped, no page listed.
  function EmptySpace(): Space {
    Space(seq(MAX_PGN, _ => Absent(0)), [])
  }

  // What the operation needs in order to be defined: symbols in range, a break
  // within the address space, no double free, and, wherever the address points,
  // a page that is present or that pg_getpage has a victim and a swap frame for.
  ghost predicate Defined(s: Sys, op: Op) {
    match op
    case Spawn(symbols) =>
      |symbols| == SYMBOLS
    case Alloc(p, id, size) =>
      && HasSymbol(s, p, id) && Allocatable(s.areas[p], id, size)
      && (!Fits(s.areas[p].free, size) ==> CanGrow(s, p, size))
    case Free(p, id) =>
      HasSymbol(s, p, id) && id in s.areas[p].live
    case Read(p, id, off) =>
      HasSymbol(s, p, id) && Reachable(s.m, p, Addr(s, p, id, off))
    case Write(p, id, off, _) =>
      HasSymbol(s, p, id) && Reachable(s.m, p, Addr(s, p, id, off))
  }

  ghost predicate Reachable(m: Machine, p: nat, addr: nat) {
    && InM(m, p, Pgn(addr))
    && (At(m, p, Pgn(addr)).Absent? ==> CanFault(LocalOf(m, p), Pgn(addr)))
  }

  // The machine in which pg_getpage has made the page of addr present.
  function Fetched(m: Machine, p: nat, addr: nat): (n: Machine)
    requires Reachable(m, p, addr)
    ensures InM(n, p, Pgn(addr))
  {
    if At(m, p, Pgn(addr)).Absent? then FaultMachine(m, p, Pgn(addr)) else m
  }

  function Saved(m: Machine, p: nat, addr: nat, v: Byte): Machine
    requires Reachable(m, p, addr)
  {
    Written(Fetched(m, p, addr), p, Pgn(addr), Offst(addr), v)
  }

  function Step(s: Sys, op: Op): Sys
    requires Defined(s, op)
  {
    match op
    case Spawn(symbols) =>
      Sys(s.m.(spaces := s.m.spaces + [EmptySpace()]), s.areas + [InitArea(symbols)])
    case Alloc(p, id, size) =>
      var a := s.areas[p];
      if Fits(a.free, size) then s.(areas := s.areas[p := Reused(a, id, size)])
      else
        var r := GrowMap(s, p, size);
        Sys(Put(s.m, p, r.l), s.areas[p := Grown(a, id, size, r.code == 0)])
    case Free(p, id) => s.(areas := s.areas[p := FreeArea(s.areas[p], id)])
    case Read(p, id, off) => s.(m := Fetched(s.m, p, Addr(s, p, id, off)))
    case Write(p, id, off, v) => s.(m := Saved(s.m, p, Addr(s, p, id, off), v))
  }

  // ---- the invariant of every run ---------------------------------------------

  // Frames and swap slots are exclusive, regions are disjoint below the break.
  ghost predicate SysInv(s: Sys) {
    && Inv(s.m, []) && |s.areas| == |s.m.spaces|
    && (forall p :: 0 <= p < |s.areas| ==> AreaOk(s.areas[p]))
  }

  lemma GrowthFits(s: Sys, p: nat, id: nat, size: nat)
    requires SysInv(s) && HasSymbol(s, p, id) && s.areas[p].sbrk + Align(size) <= SPACE_LIMIT
    ensures CanGrow(s, p, size)
    ensures FirstPage(s, p) * PAGE == s.areas[p].sbrk && Pages(size) * PAGE == Align(size)
  {
    assert AreaOk(s.areas[p]);
  }

  lemma FetchedInv(m: Machine, p: nat, addr: nat)
    requires Inv(m, []) && Reachable(m, p, addr)
    ensures Inv(Fetched(m, p, addr), [])
    ensures !At(Fetched(m, p, addr), p, Pgn(addr)).Absent?
    ensures |Fetched(m, p, addr).spaces| == |m.spaces|
  {
    if At(m, p, Pgn(addr)).Absent? {
      FaultKeepsInv(m, p, Pgn(addr));
    }
  }

  lemma SavedInv(m: Machine, p: nat, addr: nat, v: Byte)
    requires Inv(m, []) && Reachable(m, p, addr)
    ensures Inv(Saved(m, p, addr, v), []) && |Saved(m, p, addr, v).spaces| == |m.spaces|
  {
    FetchedInv(m, p, addr);
    WrittenKeepsInv(Fetched(m, p, addr), p, Pgn(addr), Offst(addr), v);
  }

  // In such a state growth only needs room below 2^22.
  lemma AllocDefined(s: Sys, p: nat, id: nat, size: nat)
    requires SysInv(s) && HasSymbol(s, p, id)
    ensures Defined(s, Alloc(p, id, size)) <==> Allocatable(s.areas[p], id, size)
  {
    if Allocatable(s.areas[p], id, size) && !Fits(s.areas[p].free, size) {
      assert AreaOk(s.areas[p]);
      GrowthFits(s, p, id, size);
    }
  }

  // ---- which growth is safe ------------------------------------------------------

  // No page of the new range is on the replacement list, but for those that the
  // request itself evicts; or the request fails.
  predicate SafeGrowth(s: Sys, p: nat, size: nat)
    requires CanGrow(s, p, size)
  {
    var l := LocalOf(s.m, p);
    var g, k, fifo := FirstPage(s, p), Pages(size), s.m.spaces[p].fifo;
    || k > Capacity(l)
    || forall i :: 0 <= i < |fifo| - Evictions(l, k) ==> !(g <= fifo[i] < g + k)
  }

  ghost predicate Safe(s: Sys, op: Op)
    requires Defined(s, op)
  {
    op.Alloc? && !Fits(s.areas[op.p].free, op.size) ==> SafeGrowth(s, op.p, op.size)
  }

  lemma GrowKeepsIff(s: Sys, p: nat, size: nat)
    requires SysInv(s) && CanGrow(s, p, size)
    ensures Inv(Put(s.m, p, GrowMap(s, p, size).l), []) <==> SafeGrowth(s, p, size)
  {
    var l := LocalOf(s.m, p);
    var k := Pages(size);
    AllocSucceedsIff(l, k, []);
    if k <= Capacity(l) {
      GrowthKeepsInvIff(s.m, p, FirstPage(s, p), k);
    } else {
      var a := AllocPages(l, k, []);
      AllocKeepsInv(s.m, p, k, []);
      ForgetPending(Put(s.m, p, a.l), a.frames);
    }
  }

  // __alloc keeps frames, slots and regions exclusive if and only if it is served
  // from the free list or its growth is safe.
  lemma AllocKeepsIff(s: Sys, p: nat, id: nat, size: nat)
    requires SysInv(s) && Defined(s, Alloc(p, id, size))
    ensures SysInv(Step(s, Alloc(p, id, size)))
       <==> Fits(s.areas[p].free, size) || SafeGrowth(s, p, size)
  {
    var a := s.areas[p];
    assert AreaOk(a);
    if Fits(a.free, size) {
      ReusedOk(a, id, size);
    } else {
      GrowKeepsIff(s, p, size);
      GrownOk(a, id, size, GrowMap(s, p, size).code == 0);
    }
  }

  // A region that growth hands out is made of the pages that it maps: a byte is in
  // the region if and only if its page is in the new range.
  lemma RegionIsItsPages(s: Sys, p: nat, id: nat, size: nat, addr: nat)
    requires SysInv(s) && Defined(s, Alloc(p, id, size)) && !Fits(s.areas[p].free, size)
    ensures var r := Step(s, Alloc(p, id, size)).areas[p].symbols[id];
            In(r, addr) <==> FirstPage(s, p) <= addr / PAGE < FirstPage(s, p) + Pages(size)
  {
    assert AreaOk(s.areas[p]);
    GrowthFits(s, p, id, size);
    GrownIsNewRange(s.areas[p], id, size, GrowMap(s, p, size).code == 0);
  }

  lemma SpawnInv(m: Machine)
    requires Inv(m, [])
    ensures Inv(m.(spaces := m.spaces + [EmptySpace()]), [])
  {
    var n := m.(spaces := m.spaces + [EmptySpace()]);
    assert forall q: nat, h: nat :: q < |m.spaces| ==> (InM(n, q, h) <==> InM(m, q, h));
    assert forall q, h :: InM(m, q, h) ==> At(n, q, h) == At(m, q, h);
    assert forall q, h :: InM(n, q, h) && q == |m.spaces| ==> At(n, q, h) == Absent(0);
    forall q: nat, h: nat | InM(n, q, h) ensures Owned(n.dev, At(n, q, h)) {
      if q < |m.spaces| {
        assert InM(m, q, h) && Owned(m.dev, At(m, q, h));
      }
    }
    forall p | 0 <= p < |n.spaces| ensures FifoOk(n.spaces[p], n.dev.ram.Frames()) {
      if p < |m.spaces| {
        assert FifoOk(m.spaces[p], m.dev.ram.Frames());
      }
    }
  }

  lemma SpawnKeeps(s: Sys, symbols: seq<Region>)
    requires SysInv(s) && |symbols| == SYMBOLS
    ensures SysInv(Step(s, Spawn(symbols)))
  {
    SpawnInv(s.m);
    InitAreaOk(symbols);
  }

  lemma FreeKeeps(s: Sys, p: nat, id: nat)
    requires SysInv(s) && Defined(s, Free(p, id))
    ensures SysInv(Step(s, Free(p, id)))
  {
    assert AreaOk(s.areas[p]);
    FreeAreaOk(s.areas[p], id);
  }

  // An operation, with accesses anywhere in the address space, keeps frames, swap
  // slots and regions exclusive if and only if it is not an unsafe growth.
  lemma StepKeepsIff(s: Sys, op: Op)
    requires SysInv(s) && Defined(s, op)
    ensures SysInv(Step(s, op)) <==> Safe(s, op)
  {
    match op
    case Spawn(symbols) => SpawnKeeps(s, symbols);
    case Alloc(p, id, size) => AllocKeepsIff(s, p, id, size);
    case Free(p, id) => FreeKeeps(s, p, id);
    case Read(p, id, off) => FetchedInv(s.m, p, Addr(s, p, id, off));
    case Write(p, id, off, v) => SavedInv(s.m, p, Addr(s, p, id, off), v);
  }

  // ---- runs ------------------------------------------------------------------------

  ghost predicate DefinedRun(s: Sys, ops: seq<Op>)
    decreases |ops|
  {
    ops == [] || (Defined(s, ops[0]) && DefinedRun(Step(s, ops[0]), ops[1..]))
  }

  ghost function Run(s: Sys, ops: seq<Op>): Sys
    requires DefinedRun(s, ops)
    decreases |ops|
  {
    if ops == [] then s else Run(Step(s, ops[0]), ops[1..])
  }

  ghost predicate InvThroughout(s: Sys, ops: seq<Op>)
    requires DefinedRun(s, ops)
    decreases |ops|
  {
    SysInv(s) && (ops == [] || InvThroughout(Step(s, ops[0]), ops[1..]))
  }

  ghost predicate SafeRun(s: Sys, ops: seq<Op>)
    requires DefinedRun(s, ops)
    decreases |ops|
  {
    ops == [] || (Safe(s, ops[0]) && SafeRun(Step(s, ops[0]), ops[1..]))
  }

  // A run keeps the invariant throughout if and only if every growth in it is safe.
  lemma {:induction false} RunKeepsIff(s: Sys, ops: seq<Op>)
    requires SysInv(s) && DefinedRun(s, ops)
    ensures InvThroughout(s, ops) <==> SafeRun(s, ops)
    decreases |ops|
  {
    if ops != [] {
      StepKeepsIff(s, ops[0]);
      if Safe(s, ops[0]) {
        RunKeepsIff(Step(s, ops[0]), ops[1..]);
      } else {
        assert !InvThroughout(Step(s, ops[0]), ops[1..]);
      }
    }
  }

  lemma {:induction false} RunKeepsInv(s: Sys, ops: seq<Op>)
    requires SysInv(s) && DefinedRun(s, ops) && SafeRun(s, ops)
    ensures SysInv(Run(s, ops))
    decreases |ops|
  {
    if ops != [] {
      StepKeepsIff(s, ops[0]);
      RunKeepsInv(Step(s, ops[0]), ops[1..]);
    }
  }

  // ---- where every run starts -----------------------------------------------------

  function InitSys(ram: nat, swaps: seq<nat>, active: nat): Sys {
    Sys(Machine(Devices(FreshDevice(ram), seq(|swaps|, i requires 0 <= i < |swaps| => FreshDevice(swaps[i])), active), []), [])
  }

  // A fresh device has every whole frame free, once and in order, and holds zeros.
  lemma FreshDeviceFrames(size: nat, f: nat, off: nat)
    ensures var d := FreshDevice(size);
            && d.Frames() == size / PAGE == |d.free|
            && (f < size / PAGE ==> d.free[f] == f && CellOf(d, f, off) == 0)
            && (f in d.free <==> f < size / PAGE)
  {
    assert f < size / PAGE ==> FreshDevice(size).free[f] == f;
  }

  // Four swap devices, and frame numbers that fit their fields.
  predicate Sized(ram: nat, swaps: seq<nat>, active: nat) {
    && ram / PAGE <= FPN_LIMIT && |swaps| == MAX_SWP && active < MAX_SWP
    && forall t :: 0 <= t < MAX_SWP ==> swaps[t] / PAGE <= OFF_LIMIT
  }

  lemma InitSysInv(ram: nat, swaps: seq<nat>, active: nat)
    requires Sized(ram, swaps, active)
    ensures SysInv(InitSys(ram, swaps, active))
  {
  }
}

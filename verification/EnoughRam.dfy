// When a run asks for no more pages than RAM has frames, nothing is ever moved
// out, and every access below the break is right.
module EnoughRam {
  import opened Options
  import opened Bits
  import opened Paging
  import opened FrameSafety
  import opened Overmap
  import opened PageAccess
  import opened Regions
  import opened System
  import opened FlatMemory
  import opened BreakCoverage

  // The pages all allocations of a run ask for, served from a free list or not.
  function PagesAsked(ops: seq<Op>): nat {
    if ops == [] then 0
    else (if ops[0].Alloc? then Pages(ops[0].size) else 0) + PagesAsked(ops[1..])
  }

  // Covered, every mapping has succeeded, and no page is in swap.
  ghost predicate AllInRam(s: Sys) {
    && Tidy(s)
    && (forall p :: 0 <= p < |s.areas| ==> s.areas[p].intact)
    && (forall q: nat, g: nat :: InM(s.m, q, g) ==> !At(s.m, q, g).Swapped?)
  }

  lemma BelowBreakResident(s: Sys, p: nat, addr: nat)
    requires AllInRam(s) && p < |s.areas| && InM(s.m, p, Pgn(addr)) && BelowBreak(s, p, addr)
    ensures OnResident(s.m, p, addr)
  {
    assert Covered(s.m, p, s.areas[p]);
  }

  // Growth within the free frames takes them and moves no page.
  lemma GrowInRam(s: Sys, p: nat, size: nat)
    requires AllInRam(s) && p < |s.areas| && CanGrow(s, p, size) && Pages(size) <= |s.m.dev.ram.free|
    ensures var r := GrowMap(s, p, size); var n := Put(s.m, p, r.l);
            && r.code == 0 && |n.dev.ram.free| == |s.m.dev.ram.free| - Pages(size)
            && forall q: nat, g: nat :: InM(n, q, g) ==> !At(n, q, g).Swapped?
  {
    var l := LocalOf(s.m, p);
    var k := Pages(size);
    FramesFromFreeList(l, k, []);
    var a := AllocPages(l, k, []);
    AllocKeepsInv(s.m, p, k, []);
    assert DeviceOk(a.l.dev.ram, FPN_LIMIT);
    var n := Put(s.m, p, GrowMap(s, p, size).l);
    forall q: nat, g: nat | InM(n, q, g) ensures !At(n, q, g).Swapped? {
      assert InM(s.m, q, g);
      if q == p {
        MapRangeTable(l.space, FirstPage(s, p), a.frames, g);
      } else {
        assert At(n, q, g) == At(s.m, q, g);
      }
    }
  }

  lemma AllocInRam(s: Sys, p: nat, id: nat, size: nat)
    requires AllInRam(s) && Defined(s, Alloc(p, id, size)) && Pages(size) <= |s.m.dev.ram.free|
    ensures var n := Step(s, Alloc(p, id, size));
            AllInRam(n) && |n.m.dev.ram.free| >= |s.m.dev.ram.free| - Pages(size)
  {
    AllocTidy(s, p, id, size);
    if !Fits(s.areas[p].free, size) {
      GrowInRam(s, p, size);
    }
  }

  lemma SpawnInRam(s: Sys, symbols: seq<Region>)
    requires AllInRam(s) && |symbols| == SYMBOLS
    ensures AllInRam(Step(s, Spawn(symbols)))
  {
    SpawnTidy(s, symbols);
    var n := Step(s, Spawn(symbols));
    forall q: nat, g: nat | InM(n.m, q, g) ensures !At(n.m, q, g).Swapped? {
      if q < |s.m.spaces| {
        assert InM(s.m, q, g) && At(n.m, q, g) == At(s.m, q, g);
      }
    }
  }

  lemma AccessInRam(s: Sys, p: nat, addr: nat, v: Byte)
    requires AllInRam(s) && p < |s.areas| && Reachable(s.m, p, addr) && BelowBreak(s, p, addr)
    ensures Fetched(s.m, p, addr) == s.m && OnResident(s.m, p, addr)
    ensures AllInRam(s.(m := Saved(s.m, p, addr, v)))
    ensures Saved(s.m, p, addr, v).dev.ram.free == s.m.dev.ram.free
  {
    BelowBreakResident(s, p, addr);
    WriteTidy(s, p, Pgn(addr), Offst(addr), v);
    var n := Saved(s.m, p, addr, v);
    assert forall q: nat, g: nat :: InM(n, q, g) ==> InM(s.m, q, g) && At(n, q, g) == At(s.m, q, g);
  }

  lemma StepInRam(s: Sys, op: Op)
    requires AllInRam(s) && Defined(s, op) && Stays(s, op) && PagesAsked([op]) <= |s.m.dev.ram.free|
    ensures AllInRam(Step(s, op)) && Resides(s, op)
    ensures |Step(s, op).m.dev.ram.free| >= |s.m.dev.ram.free| - PagesAsked([op])
  {
    match op
    case Spawn(symbols) => SpawnInRam(s, symbols);
    case Alloc(p, id, size) => AllocInRam(s, p, id, size);
    case Free(p, id) => FreeTidy(s, p, id);
    case Read(p, id, off) => AccessInRam(s, p, Addr(s, p, id, off), 0);
    case Write(p, id, off, v) => AccessInRam(s, p, Addr(s, p, id, off), v);
  }

  lemma {:induction false} RunInRam(s: Sys, ops: seq<Op>)
    requires AllInRam(s) && DefinedRun(s, ops) && StayingRun(s, ops) && PagesAsked(ops) <= |s.m.dev.ram.free|
    ensures ResidentRun(s, ops) && AllInRam(Run(s, ops))
    decreases |ops|
  {
    if ops != [] {
      assert PagesAsked(ops) == PagesAsked([ops[0]]) + PagesAsked(ops[1..]);
      StepInRam(s, ops[0]);
      RunInRam(Step(s, ops[0]), ops[1..]);
    }
  }

  // A read below the break after such a run returns what was last put there, and
  // nothing has gone to swap.
  lemma ReadsLastDeposit(ram: nat, swaps: seq<nat>, active: nat, ops: seq<Op>, p: nat, id: nat, off: nat)
    requires Sized(ram, swaps, active) && DefinedRun(InitSys(ram, swaps, active), ops)
    requires StayingRun(InitSys(ram, swaps, active), ops) && PagesAsked(ops) <= ram / PAGE
    ensures var start := InitSys(ram, swaps, active); var s := Run(start, ops);
            && AllInRam(s)
            && (HasSymbol(s, p, id) && InM(s.m, p, Pgn(Addr(s, p, id, off))) && BelowBreak(s, p, Addr(s, p, id, off)) ==>
                  && Defined(s, Read(p, id, off)) && Output(s, p, id, off).Some?
                  && Output(s, p, id, off) == LastDeposit(start, ops, p, Addr(s, p, id, off) % SPACE_LIMIT))
  {
    var start := InitSys(ram, swaps, active);
    InitTidy(ram, swaps, active);
    RunInRam(start, ops);
    RunTidy(start, ops);
    var s := Run(start, ops);
    if HasSymbol(s, p, id) && InM(s.m, p, Pgn(Addr(s, p, id, off))) && BelowBreak(s, p, Addr(s, p, id, off)) {
      BelowBreakResident(s, p, Addr(s, p, id, off));
      ReadPeek(s, p, id, off);
      StartPeek(ram, swaps, active, ops, p, Addr(s, p, id, off) % SPACE_LIMIT);
    }
  }
}

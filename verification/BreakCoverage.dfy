// Runs whose accesses stay below the break: the mapped pages are those below it,
// growth always finds fresh pages, and no access ever faults.
module BreakCoverage {
  import opened Bits
  import opened Paging
  import opened FrameSafety
  import opened Overmap
  import opened PageAccess
  import opened Regions
  import opened System

  // Mapped pages lie below the break, and are all the pages below it as long as
  // no mapping has failed.
  ghost predicate Covered(m: Machine, p: nat, a: Area) {
    && (forall g: nat :: InM(m, p, g) && !At(m, p, g).Absent? ==> g * PAGE < a.sbrk)
    && (a.intact ==> forall g: nat :: InM(m, p, g) && g * PAGE < a.sbrk ==> !At(m, p, g).Absent?)
  }

  // Once a mapping has failed, the process can have no further frame, ever.
  predicate Spent(m: Machine, p: nat, a: Area)
    requires p < |m.spaces| && |m.dev.swaps| == MAX_SWP
  {
    !a.intact ==> Capacity(LocalOf(m, p)) == 0
  }

  ghost predicate Tidy(s: Sys) {
    && SysInv(s)
    && (forall p :: 0 <= p < |s.areas| ==> Covered(s.m, p, s.areas[p]))
    && (forall p :: 0 <= p < |s.areas| ==> Spent(s.m, p, s.areas[p]))
  }

  predicate BelowBreak(s: Sys, p: nat, addr: nat)
    requires p < |s.areas|
  {
    Pgn(addr) * PAGE < s.areas[p].sbrk
  }

  ghost predicate Stays(s: Sys, op: Op)
    requires Defined(s, op)
  {
    match op
    case Read(p, id, off) => BelowBreak(s, p, Addr(s, p, id, off))
    case Write(p, id, off, _) => BelowBreak(s, p, Addr(s, p, id, off))
    case _ => true
  }

  // ---- faults ------------------------------------------------------------------

  // pg_getpage takes its fault path exactly for pages beyond the break: inside,
  // a page can only be absent when there is nothing left to fetch it with.
  lemma FaultsIffBeyondBreak(s: Sys, p: nat, addr: nat)
    requires Tidy(s) && p < |s.areas| && Reachable(s.m, p, addr)
    ensures At(s.m, p, Pgn(addr)).Absent? <==> !BelowBreak(s, p, addr)
  {
    assert Covered(s.m, p, s.areas[p]) && Spent(s.m, p, s.areas[p]);
    if At(s.m, p, Pgn(addr)).Absent? {
      ActiveHasRoom(s.m.dev);
    }
  }

  lemma ActiveHasRoom(dev: Devices)
    requires |dev.swaps| == MAX_SWP && dev.active < MAX_SWP
    ensures dev.swaps[dev.active].free != [] ==> Room(dev) > 0
  {
    PickSwapRoom(dev);
  }

  // ---- growth ------------------------------------------------------------------

  // The new pages are always absent, so that growth is safe.
  lemma GrowthIsFresh(s: Sys, p: nat, size: nat)
    requires Tidy(s) && CanGrow(s, p, size) && p < |s.areas| && s.areas[p].sbrk + Align(size) <= SPACE_LIMIT
    ensures AbsentRange(s.m, p, FirstPage(s, p), Pages(size)) && SafeGrowth(s, p, size)
  {
    assert AreaOk(s.areas[p]) && Covered(s.m, p, s.areas[p]);
    var g, fifo := FirstPage(s, p), s.m.spaces[p].fifo;
    forall h: nat | g <= h < g + Pages(size) ensures InM(s.m, p, h) && At(s.m, p, h).Absent? {
      assert FifoOk(s.m.spaces[p], s.m.dev.ram.Frames());
    }
    forall i | 0 <= i < |fifo| ensures !(g <= fifo[i] < g + Pages(size)) {
      assert FifoOk(s.m.spaces[p], s.m.dev.ram.Frames()) && fifo[i] in fifo;
      assert InM(s.m, p, fifo[i]) && At(s.m, p, fifo[i]).Resident?;
    }
  }

  lemma GrowCovered(s: Sys, p: nat, id: nat, size: nat)
    requires Tidy(s) && Defined(s, Alloc(p, id, size)) && !Fits(s.areas[p].free, size)
    ensures CanGrow(s, p, size)
    ensures var r := GrowMap(s, p, size);
            Covered(Put(s.m, p, r.l), p, Grown(s.areas[p], id, size, r.code == 0))
  {
    GrowthIsFresh(s, p, size);
    GrowthFits(s, p, id, size);
    assert Covered(s.m, p, s.areas[p]);
    MapRamPages(s.m, p, FirstPage(s, p), Pages(size));
    MapRamKeeps(s.m, p, FirstPage(s, p), Pages(size));
    var n := Put(s.m, p, GrowMap(s, p, size).l);
    forall h | InM(n, p, h) ensures InM(s.m, p, h) {
      assert FifoOk(n.spaces[p], n.dev.ram.Frames()) && FifoOk(s.m.spaces[p], s.m.dev.ram.Frames());
    }
  }

  // Processes whose page table did not change are covered as before.
  lemma OtherCovered(m: Machine, n: Machine, q: nat, a: Area)
    requires q < |m.spaces| && q < |n.spaces| && n.spaces[q] == m.spaces[q] && Covered(m, q, a)
    ensures Covered(n, q, a)
  {
    assert forall g: nat :: InM(n, q, g) <==> InM(m, q, g);
    assert forall g: nat :: InM(n, q, g) ==> At(n, q, g) == At(m, q, g);
  }

  lemma GrowSpent(s: Sys, p: nat, id: nat, size: nat, q: nat)
    requires Tidy(s) && Defined(s, Alloc(p, id, size)) && !Fits(s.areas[p].free, size) && q < |s.areas|
    ensures var n := Step(s, Alloc(p, id, size));
            q < |n.m.spaces| && |n.m.dev.swaps| == MAX_SWP && Spent(n.m, q, n.areas[q])
  {
    GrowthFits(s, p, id, size);
    var k := Pages(size);
    AllocUsesUp(LocalOf(s.m, p), k, []);
    AllocSucceedsIff(LocalOf(s.m, p), k, []);
    assert Spent(s.m, q, s.areas[q]);
  }

  lemma AllocTidy(s: Sys, p: nat, id: nat, size: nat)
    requires Tidy(s) && Defined(s, Alloc(p, id, size))
    ensures Tidy(Step(s, Alloc(p, id, size)))
  {
    AllocKeepsIff(s, p, id, size);
    var n := Step(s, Alloc(p, id, size));
    if Fits(s.areas[p].free, size) {
      assert Covered(s.m, p, s.areas[p]) && Spent(s.m, p, s.areas[p]);
    } else {
      GrowthIsFresh(s, p, size);
      GrowCovered(s, p, id, size);
      MapRamKeeps(s.m, p, FirstPage(s, p), Pages(size));
      forall q | 0 <= q < |n.areas| ensures Covered(n.m, q, n.areas[q]) && Spent(n.m, q, n.areas[q]) {
        GrowSpent(s, p, id, size, q);
        if q != p {
          assert Covered(s.m, q, s.areas[q]);
          OtherCovered(s.m, n.m, q, s.areas[q]);
        }
      }
    }
  }

  // ---- every step and every run -------------------------------------------------

  lemma SpawnTidy(s: Sys, symbols: seq<Region>)
    requires Tidy(s) && |symbols| == SYMBOLS
    ensures Tidy(Step(s, Spawn(symbols)))
  {
    SpawnKeeps(s, symbols);
    var n := Step(s, Spawn(symbols));
    forall q | 0 <= q < |n.areas| ensures Covered(n.m, q, n.areas[q]) && Spent(n.m, q, n.areas[q]) {
      if q < |s.areas| {
        assert Covered(s.m, q, s.areas[q]) && Spent(s.m, q, s.areas[q]);
        OtherCovered(s.m, n.m, q, s.areas[q]);
      }
    }
  }

  lemma FreeTidy(s: Sys, p: nat, id: nat)
    requires Tidy(s) && Defined(s, Free(p, id))
    ensures Tidy(Step(s, Free(p, id)))
  {
    FreeKeeps(s, p, id);
    assert Covered(s.m, p, s.areas[p]) && Spent(s.m, p, s.areas[p]);
  }

  lemma WriteTidy(s: Sys, p: nat, g: nat, off: nat, v: Byte)
    requires Tidy(s) && InM(s.m, p, g)
    ensures Tidy(s.(m := Written(s.m, p, g, off, v)))
  {
    WrittenKeepsInv(s.m, p, g, off, v);
    var n := Written(s.m, p, g, off, v);
    forall q | 0 <= q < |s.areas| ensures Covered(n, q, s.areas[q]) && Spent(n, q, s.areas[q]) {
      assert Covered(s.m, q, s.areas[q]) && Spent(s.m, q, s.areas[q]);
      OtherCovered(s.m, n, q, s.areas[q]);
    }
  }

  // An access beyond the break faults and leaves a page mapped there.
  lemma StrayFetch(s: Sys, p: nat, addr: nat)
    requires Tidy(s) && p < |s.areas| && Reachable(s.m, p, addr) && !BelowBreak(s, p, addr)
    ensures p < |s.m.spaces| && !Covered(Fetched(s.m, p, addr), p, s.areas[p])
  {
    FetchedInv(s.m, p, addr);
  }

  // A step keeps the coverage if and only if it stays below the break.
  lemma StepTidyIff(s: Sys, op: Op)
    requires Tidy(s) && Defined(s, op)
    ensures Tidy(Step(s, op)) <==> Stays(s, op)
  {
    match op
    case Spawn(symbols) => SpawnTidy(s, symbols);
    case Alloc(p, id, size) => AllocTidy(s, p, id, size);
    case Free(p, id) => FreeTidy(s, p, id);
    case Read(p, id, off) =>
      var addr := Addr(s, p, id, off);
      FaultsIffBeyondBreak(s, p, addr);
      if !BelowBreak(s, p, addr) {
        StrayFetch(s, p, addr);
      }
    case Write(p, id, off, v) => WriteTidyIff(s, p, id, off, v);
  }

  lemma WriteTidyIff(s: Sys, p: nat, id: nat, off: nat, v: Byte)
    requires Tidy(s) && Defined(s, Write(p, id, off, v))
    ensures Tidy(Step(s, Write(p, id, off, v))) <==> BelowBreak(s, p, Addr(s, p, id, off))
  {
    var addr := Addr(s, p, id, off);
    FaultsIffBeyondBreak(s, p, addr);
    if BelowBreak(s, p, addr) {
      WriteTidy(s, p, Pgn(addr), Offst(addr), v);
    } else {
      StrayFetch(s, p, addr);
      var f := Fetched(s.m, p, addr);
      var n := Step(s, Write(p, id, off, v));
      assert n.m.spaces == f.spaces && n.areas == s.areas;
      if Covered(n.m, p, s.areas[p]) {
        OtherCovered(n.m, f, p, s.areas[p]);
        assert false;
      }
    }
  }

  ghost predicate StayingRun(s: Sys, ops: seq<Op>)
    requires DefinedRun(s, ops)
    decreases |ops|
  {
    ops == [] || (Stays(s, ops[0]) && StayingRun(Step(s, ops[0]), ops[1..]))
  }

  ghost predicate TidyThroughout(s: Sys, ops: seq<Op>)
    requires DefinedRun(s, ops)
    decreases |ops|
  {
    Tidy(s) && (ops == [] || TidyThroughout(Step(s, ops[0]), ops[1..]))
  }

  // In a run the pages below the break are mapped and those above are not, unless
  // a mapping has failed, throughout if and only if every access stays below it.
  lemma {:induction false} RunTidyIff(s: Sys, ops: seq<Op>)
    requires Tidy(s) && DefinedRun(s, ops)
    ensures TidyThroughout(s, ops) <==> StayingRun(s, ops)
    decreases |ops|
  {
    if ops != [] {
      StepTidyIff(s, ops[0]);
      if Stays(s, ops[0]) {
        RunTidyIff(Step(s, ops[0]), ops[1..]);
      } else {
        assert !TidyThroughout(Step(s, ops[0]), ops[1..]);
      }
    }
  }

  lemma {:induction false} RunTidy(s: Sys, ops: seq<Op>)
    requires Tidy(s) && DefinedRun(s, ops) && StayingRun(s, ops)
    ensures Tidy(Run(s, ops)) && SafeRun(s, ops)
    decreases |ops|
  {
    if ops != [] {
      StepTidyIff(s, ops[0]);
      StepKeepsIff(s, ops[0]);
      RunTidy(Step(s, ops[0]), ops[1..]);
    }
  }

  lemma InitTidy(ram: nat, swaps: seq<nat>, active: nat)
    requires Sized(ram, swaps, active)
    ensures Tidy(InitSys(ram, swaps, active))
  {
    InitSysInv(ram, swaps, active);
  }

  // No access below the break ever faults.
  lemma NoFaultInRun(ram: nat, swaps: seq<nat>, active: nat, ops: seq<Op>, p: nat, addr: nat)
    requires Sized(ram, swaps, active) && DefinedRun(InitSys(ram, swaps, active), ops)
    requires StayingRun(InitSys(ram, swaps, active), ops)
    ensures var s := Run(InitSys(ram, swaps, active), ops);
            p < |s.areas| && Reachable(s.m, p, addr) && BelowBreak(s, p, addr) ==> Fetched(s.m, p, addr) == s.m
  {
    InitTidy(ram, swaps, active);
    RunTidy(InitSys(ram, swaps, active), ops);
    var s := Run(InitSys(ram, swaps, active), ops);
    if p < |s.areas| && Reachable(s.m, p, addr) && BelowBreak(s, p, addr) {
      FaultsIffBeyondBreak(s, p, addr);
    }
  }
}

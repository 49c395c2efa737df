// One run from the start on a RAM of two frames: a fault beyond the break, then a
// growth that maps the same page again and breaks the frame invariant.
module TwoFrameRun {
  import opened Bits
  import opened Paging
  import opened FrameSafety
  import opened Overmap
  import opened PageAccess
  import opened Regions
  import opened System
  import opened OneFrameRun

  function Begin(): Sys { InitSys(512, [256, 0, 0, 0], 0) }

  // A page, an access one page beyond the break, and a second page.
  function Calls(symbols: seq<Region>): seq<Op> {
    [Spawn(symbols), Alloc(0, 0, 256), Read(0, 0, 256), Alloc(0, 1, 256)]
  }

  function Spawned(symbols: seq<Region>): Sys {
    Sys(Begin().m.(spaces := [EmptySpace()]), [InitArea(symbols)])
  }

  // Page 0 in frame 0, frame 1 free.
  function Allocated(symbols: seq<Region>): Sys
    requires |symbols| == SYMBOLS
  {
    var dev := Begin().m.dev;
    Sys(Machine(dev.(ram := dev.ram.(free := [1])), [Space(EmptySpace().table[0 := Resident(0)], [0])]),
        [Grown(InitArea(symbols), 0, 256, true)])
  }

  lemma Spawns(symbols: seq<Region>)
    requires |symbols| == SYMBOLS
    ensures SysInv(Begin()) && Step(Begin(), Spawn(symbols)) == Spawned(symbols) && SysInv(Spawned(symbols))
  {
    InitSysInv(512, [256, 0, 0, 0], 0);
    assert [] + [EmptySpace()] == [EmptySpace()];
    StepKeepsIff(Begin(), Spawn(symbols));
  }

  lemma Allocates(symbols: seq<Region>)
    requires |symbols| == SYMBOLS && SysInv(Spawned(symbols))
    ensures var s := Spawned(symbols); var op := Alloc(0, 0, 256);
            Defined(s, op) && Safe(s, op) && Step(s, op) == Allocated(symbols)
    ensures SysInv(Allocated(symbols))
  {
    var s := Spawned(symbols);
    OnePage();
    var l := LocalOf(s.m, 0);
    assert Upto(2) == [0, 1] && [0, 1][1..] == [1];
    MapOnePage(l, 0);
    assert [0] + EmptySpace().fifo == [0];
    StepKeepsIff(s, Alloc(0, 0, 256));
  }

  // The fault lists page 1, which lies beyond the break.
  lemma Faults(symbols: seq<Region>)
    requires |symbols| == SYMBOLS && SysInv(Allocated(symbols))
    ensures var s := Allocated(symbols); var op := Read(0, 0, 256);
            && Defined(s, op) && Safe(s, op) && SysInv(Step(s, op))
            && Step(s, op).areas == s.areas && |Step(s, op).m.spaces| == 1
            && Step(s, op).m.spaces[0].fifo == [1] && Step(s, op).m.dev.ram.free == [1]
  {
    var s := Allocated(symbols);
    var l := LocalOf(s.m, 0);
    assert At(s.m, 0, 1) == Absent(0) && Upto(1) == [0];
    assert l.dev.swaps[0] == FreshDevice(256);
    assert CanFault(l, 1);
    assert [1] + l.space.fifo[..0] == [1];
    StepKeepsIff(s, Read(0, 0, 256));
  }

  // One page more is page 1 again, on a free frame.
  lemma Overmaps(symbols: seq<Region>, s: Sys)
    requires |symbols| == SYMBOLS && SysInv(s)
    requires s.areas == Allocated(symbols).areas && |s.m.spaces| == 1
    requires s.m.spaces[0].fifo == [1] && s.m.dev.ram.free == [1]
    ensures var op := Alloc(0, 1, 256); Defined(s, op) && !Safe(s, op) && !SysInv(Step(s, op))
    ensures GrowMap(s, 0, 256).code == 0
  {
    OnePage();
    var l := LocalOf(s.m, 0);
    AllocDefined(s, 0, 1, 256);
    assert Evictions(l, 1) == 0 && FirstPage(s, 0) == 1;
    assert 1 <= s.m.spaces[0].fifo[0] < 2;
    AllocSucceedsIff(l, 1, []);
    StepKeepsIff(s, Alloc(0, 1, 256));
  }

  // The invariant holds until the last call, whose mapping succeeds, and not
  // after it.
  lemma OvermapInRun(symbols: seq<Region>)
    requires |symbols| == SYMBOLS
    ensures SysInv(Begin()) && DefinedRun(Begin(), Calls(symbols))
    ensures !SafeRun(Begin(), Calls(symbols)) && !SysInv(Run(Begin(), Calls(symbols)))
  {
    Spawns(symbols);
    Allocates(symbols);
    Faults(symbols);
    Unrolled(symbols);
  }

  lemma Unrolled(symbols: seq<Region>)
    requires |symbols| == SYMBOLS && SysInv(Allocated(symbols))
    requires Step(Begin(), Spawn(symbols)) == Spawned(symbols)
    requires var op := Alloc(0, 0, 256); Defined(Spawned(symbols), op) && Step(Spawned(symbols), op) == Allocated(symbols)
    requires var s := Allocated(symbols); var op := Read(0, 0, 256);
             && Defined(s, op) && SysInv(Step(s, op)) && Step(s, op).areas == s.areas && |Step(s, op).m.spaces| == 1
             && Step(s, op).m.spaces[0].fifo == [1] && Step(s, op).m.dev.ram.free == [1]
    ensures DefinedRun(Begin(), Calls(symbols))
    ensures !SafeRun(Begin(), Calls(symbols)) && !SysInv(Run(Begin(), Calls(symbols)))
  {
    var a, b, c, d := Spawn(symbols), Alloc(0, 0, 256), Read(0, 0, 256), Alloc(0, 1, 256);
    var s := Step(Allocated(symbols), c);
    Overmaps(symbols, s);
    assert Defined(Begin(), a);
    hide Step, Defined, Safe, SysInv, Begin, Spawned, Allocated;
    Last(s, d);
    Before(Allocated(symbols), c, [d]);
    Before(Spawned(symbols), b, [c] + [d]);
    Before(Begin(), a, [b] + ([c] + [d]));
    assert [a] + ([b] + ([c] + [d])) == Calls(symbols);
  }

  lemma Last(s: Sys, op: Op)
    requires Defined(s, op) && !Safe(s, op)
    ensures DefinedRun(s, [op]) && !SafeRun(s, [op]) && Run(s, [op]) == Step(s, op)
  {
    hide Step, Defined, Safe;
    assert [op][1..] == [];
  }

  lemma Before(s: Sys, op: Op, rest: seq<Op>)
    requires Defined(s, op) && DefinedRun(Step(s, op), rest) && !SafeRun(Step(s, op), rest)
    ensures DefinedRun(s, [op] + rest) && !SafeRun(s, [op] + rest)
    ensures Run(s, [op] + rest) == Run(Step(s, op), rest)
  {
    hide Step, Defined, Safe;
    assert ([op] + rest)[1..] == rest;
  }
}

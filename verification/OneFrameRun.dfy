// One run from the start on a RAM of a single frame, after which a read returns
// another page's byte and a fault destroys a page.
module OneFrameRun {
  import opened Options
  import opened Bits
  import opened Paging
  import opened FrameSafety
  import opened PageAccess
  import opened Regions
  import opened System
  import opened FlatMemory

  // One RAM frame and one swap device of two.
  function Start(): Sys { InitSys(256, [512, 0, 0, 0], 0) }

  // A process, two pages, and a byte written to each while it is resident.
  function Ops(symbols: seq<Region>): seq<Op> {
    [Spawn(symbols), Alloc(0, 0, 256), Write(0, 0, 0, 7), Alloc(0, 1, 256), Write(0, 1, 0, 9)]
  }

  // ---- requests of one page ------------------------------------------------------

  lemma OnePage()
    ensures Align(256) == 256 && Pages(256) == 1
  {
  }

  lemma MapOnePage(l: Local, g: nat)
    requires Shape(l) && g + 1 <= MAX_PGN && GrabFrame(l).code == 0
    ensures var x := GrabFrame(l);
            && |x.l.space.table| == MAX_PGN
            && MapRam(l, g, 1) == Mapped(x.l.(space := MapOne(x.l.space, g, x.frame)), 0)
  {
    GrabShape(l);
    var x := GrabFrame(l);
    assert AllocPages(x.l, 0, [x.frame] + []) == Taken(x.l, 0, [x.frame] + []);
    assert [x.frame] + [] == [x.frame];
    assert AllocPages(l, 1, []) == Taken(x.l, 0, [x.frame]);
    MapRangeOne(x.l.space, g, x.frame);
  }

  lemma MapRangeOne(s: Space, g: nat, frame: nat)
    requires g + 1 <= |s.table|
    ensures MapRange(s, g, [frame]) == MapOne(s, g, frame)
  {
    assert [frame][1..] == [];
  }

  // ---- the states of the run -------------------------------------------------------

  function Swaps(): seq<Device> {
    seq(4, i requires 0 <= i < 4 => FreshDevice([512, 0, 0, 0][i]))
  }

  function Ram(first: Byte, free: seq<nat>): Device {
    Device(FreshDevice(256).bytes[0 := first], free)
  }

  function Mem(first: Byte, free: seq<nat>, swaps: seq<Device>, s: Space): Machine {
    Machine(Devices(Ram(first, free), swaps, 0), [s])
  }

  function Area1(symbols: seq<Region>): Area
    requires |symbols| == SYMBOLS
  {
    Grown(InitArea(symbols), 0, 256, true)
  }

  function Area2(symbols: seq<Region>): Area
    requires |symbols| == SYMBOLS
  {
    Grown(Area1(symbols), 1, 256, true)
  }

  // Page 0 in the only frame.
  function Space1(): Space { Space(EmptySpace().table[0 := Resident(0)], [0]) }

  // Page 0 in swap, page 1 in the only frame.
  function Space2(): Space { Space(EmptySpace().table[0 := Swapped(0, 0)][1 := Resident(0)], [1]) }

  // Swap frame 0 taken by a copy of a frame whose first byte is x.
  function Swapped1(x: Byte): seq<Device> {
    var s := FreshDevice(512);
    Swaps()[0 := Device(CopyFrame(Ram(x, []).bytes, 0, s.bytes, 0), s.free[1..])]
  }

  function AfterSpawn(symbols: seq<Region>): Sys {
    Sys(Mem(0, [0], Swaps(), EmptySpace()), [InitArea(symbols)])
  }

  function AfterFirst(symbols: seq<Region>, x: Byte): Sys
    requires |symbols| == SYMBOLS
  {
    Sys(Mem(x, [], Swaps(), Space1()), [Area1(symbols)])
  }

  function AfterSecond(symbols: seq<Region>, x: Byte): Sys
    requires |symbols| == SYMBOLS
  {
    Sys(Mem(x, [], Swapped1(7), Space2()), [Area2(symbols)])
  }

  // ---- the steps -------------------------------------------------------------------

  lemma StartInv()
    ensures SysInv(Start())
  {
    InitSysInv(256, [512, 0, 0, 0], 0);
  }

  lemma Step1(symbols: seq<Region>)
    requires |symbols| == SYMBOLS
    ensures SysInv(Start()) && Step(Start(), Spawn(symbols)) == AfterSpawn(symbols)
    ensures SysInv(AfterSpawn(symbols))
  {
    StartInv();
    assert Start().m.dev.swaps == Swaps();
    assert FreshDevice(256).bytes == FreshDevice(256).bytes[0 := 0];
    assert Upto(1) == [0];
    assert [] + [EmptySpace()] == [EmptySpace()];
    StepKeepsIff(Start(), Spawn(symbols));
  }

  lemma Step2(symbols: seq<Region>)
    requires |symbols| == SYMBOLS && SysInv(AfterSpawn(symbols))
    ensures var s := AfterSpawn(symbols); var op := Alloc(0, 0, 256);
            Defined(s, op) && Step(s, op) == AfterFirst(symbols, 0)
    ensures SysInv(AfterFirst(symbols, 0))
  {
    var s := AfterSpawn(symbols);
    OnePage();
    assert AbsentRange(s.m, 0, 0, 1);
    assert Defined(s, Alloc(0, 0, 256));
    var l := LocalOf(s.m, 0);
    var x := GrabFrame(l);
    MapOnePage(l, 0);
    assert l.dev.ram.free[1..] == [];
    assert MapOne(EmptySpace(), 0, 0) == Space1();
    StepKeepsIff(s, Alloc(0, 0, 256));
  }

  // A write to the page in the only frame.
  lemma Poke(x: Byte, y: Byte, swaps: seq<Device>, space: Space, g: nat)
    requires g < |space.table| && space.table[g] == Resident(0)
    ensures Written(Mem(x, [], swaps, space), 0, g, 0, y) == Mem(y, [], swaps, space)
  {
    assert Ram(x, []).bytes[0 := y] == Ram(y, []).bytes;
  }

  lemma Step3(symbols: seq<Region>)
    requires |symbols| == SYMBOLS && SysInv(AfterFirst(symbols, 0))
    ensures var s := AfterFirst(symbols, 0); var op := Write(0, 0, 0, 7);
            Defined(s, op) && Step(s, op) == AfterFirst(symbols, 7)
    ensures SysInv(AfterFirst(symbols, 7))
  {
    var s := AfterFirst(symbols, 0);
    hide Ram, Written, FreshDevice;
    assert At(s.m, 0, 0) == Resident(0);
    Poke(0, 7, Swaps(), Space1(), 0);
    StepKeepsIff(s, Write(0, 0, 0, 7));
  }

  lemma Step4(symbols: seq<Region>)
    requires |symbols| == SYMBOLS && SysInv(AfterFirst(symbols, 7))
    ensures var s := AfterFirst(symbols, 7); var op := Alloc(0, 1, 256);
            Defined(s, op) && Step(s, op) == AfterSecond(symbols, 7)
    ensures SysInv(AfterSecond(symbols, 7))
  {
    var s := AfterFirst(symbols, 7);
    OnePage();
    assert AbsentRange(s.m, 0, 1, 1);
    assert Defined(s, Alloc(0, 1, 256));
    var l := LocalOf(s.m, 0);
    Evicts();
    MapOnePage(l, 1);
    StepKeepsIff(s, Alloc(0, 1, 256));
  }

  lemma Evicts()
    ensures var l := Local(Devices(Ram(7, []), Swaps(), 0), Space1());
            && Shape(l) && GrabFrame(l).code == 0 && GrabFrame(l).frame == 0
            && GrabFrame(l).l.dev == Devices(Ram(7, []), Swapped1(7), 0)
            && |GrabFrame(l).l.space.table| == MAX_PGN
            && MapOne(GrabFrame(l).l.space, 1, 0) == Space2()
  {
    var l := Local(Devices(Ram(7, []), Swaps(), 0), Space1());
    assert l.dev.swaps[0] == FreshDevice(512) && Upto(2)[0] == 0;
    assert [1] + Space1().fifo[..0] == [1];
  }

  lemma Step5(symbols: seq<Region>)
    requires |symbols| == SYMBOLS && SysInv(AfterSecond(symbols, 7))
    ensures var s := AfterSecond(symbols, 7); var op := Write(0, 1, 0, 9);
            Defined(s, op) && Step(s, op) == AfterSecond(symbols, 9)
    ensures SysInv(AfterSecond(symbols, 9))
  {
    var s := AfterSecond(symbols, 7);
    hide Ram, Written, FreshDevice;
    assert At(s.m, 0, 1) == Resident(0);
    Poke(7, 9, Swapped1(7), Space2(), 1);
    StepKeepsIff(s, Write(0, 1, 0, 9));
  }

  lemma RunStep(s: Sys, op: Op, rest: seq<Op>)
    requires SysInv(s) && Defined(s, op) && SysInv(Step(s, op)) && DefinedRun(Step(s, op), rest)
    ensures DefinedRun(s, [op] + rest) && Run(s, [op] + rest) == Run(Step(s, op), rest)
  {
    assert ([op] + rest)[1..] == rest;
  }

  lemma Reached(symbols: seq<Region>)
    requires |symbols| == SYMBOLS
    ensures SysInv(Start()) && DefinedRun(Start(), Ops(symbols))
    ensures Run(Start(), Ops(symbols)) == AfterSecond(symbols, 9) && SysInv(AfterSecond(symbols, 9))
  {
    hide SysInv, Defined, Step, Start, AfterSpawn, AfterFirst, AfterSecond;
    Step1(symbols);
    Step2(symbols);
    Step3(symbols);
    Step4(symbols);
    Step5(symbols);
    var a, b, c, d, e := Spawn(symbols), Alloc(0, 0, 256), Write(0, 0, 0, 7), Alloc(0, 1, 256), Write(0, 1, 0, 9);
    RunStep(AfterSecond(symbols, 7), e, []);
    RunStep(AfterFirst(symbols, 7), d, [e] + []);
    RunStep(AfterFirst(symbols, 0), c, [d] + ([e] + []));
    RunStep(AfterSpawn(symbols), b, [c] + ([d] + ([e] + [])));
    RunStep(Start(), a, [b] + ([c] + ([d] + ([e] + []))));
    assert [a] + ([b] + ([c] + ([d] + ([e] + [])))) == Ops(symbols);
  }

  // ---- what goes wrong there ---------------------------------------------------------

  // The first page holds 7, and reading it gives 9.
  lemma MisreadInRun(symbols: seq<Region>)
    requires |symbols| == SYMBOLS
    ensures SysInv(Start()) && DefinedRun(Start(), Ops(symbols))
    ensures var s := Run(Start(), Ops(symbols));
            && SysInv(s) && Defined(s, Read(0, 0, 0))
            && Peek(s, 0, 0) == Some(7) && Output(s, 0, 0, 0) == Some(9)
  {
    Reached(symbols);
    var s := AfterSecond(symbols, 9);
    assert At(s.m, 0, 0) == Swapped(0, 0);
  }

  // An access to the absent page 5, beyond the break, leaves 9 in the first page.
  lemma FaultDamagesInRun(symbols: seq<Region>)
    requires |symbols| == SYMBOLS
    ensures SysInv(Start()) && DefinedRun(Start(), Ops(symbols))
    ensures var s := Run(Start(), Ops(symbols)); var op := Read(0, 0, 5 * PAGE);
            && SysInv(s) && Defined(s, op)
            && Peek(s, 0, 0) == Some(7) && Peek(Step(s, op), 0, 0) == Some(9)
  {
    hide Ops, Start;
    Reached(symbols);
    FaultDamages(symbols);
  }

  lemma FaultDamages(symbols: seq<Region>)
    requires |symbols| == SYMBOLS && SysInv(AfterSecond(symbols, 9))
    ensures var s := AfterSecond(symbols, 9); var op := Read(0, 0, 5 * PAGE);
            && Defined(s, op) && Peek(s, 0, 0) == Some(7) && Peek(Step(s, op), 0, 0) == Some(9)
  {
    var s := AfterSecond(symbols, 9);
    assert At(s.m, 0, 0) == Swapped(0, 0) && At(s.m, 0, 5) == Absent(0) && At(s.m, 0, 1) == Resident(0);
    assert CanFault(LocalOf(s.m, 0), 5);
    FaultCell(s.m, 0, 5, 0, 0, 0);
    FaultTable(s.m, 0, 5, 0, 0);
  }

  // A write to the first page leaves it at 7 and puts its value in the second.
  lemma StrayWriteInRun(symbols: seq<Region>, v: Byte)
    requires |symbols| == SYMBOLS
    ensures DefinedRun(Start(), Ops(symbols))
    ensures var s := Run(Start(), Ops(symbols)); var op := Write(0, 0, 0, v);
            && SysInv(s) && Defined(s, op)
            && Peek(s, 0, 256) == Some(9)
            && Peek(Step(s, op), 0, 0) == Some(7) && Peek(Step(s, op), 0, 256) == Some(v)
  {
    hide Ops, Start;
    Reached(symbols);
    StrayWrite(symbols, v);
  }

  lemma StrayWrite(symbols: seq<Region>, v: Byte)
    requires |symbols| == SYMBOLS && SysInv(AfterSecond(symbols, 9))
    ensures var s := AfterSecond(symbols, 9); var op := Write(0, 0, 0, v);
            && Defined(s, op) && Peek(s, 0, 256) == Some(9)
            && Peek(Step(s, op), 0, 0) == Some(7) && Peek(Step(s, op), 0, 256) == Some(v)
  {
    var s := AfterSecond(symbols, 9);
    assert At(s.m, 0, 0) == Swapped(0, 0) && At(s.m, 0, 1) == Resident(0);
    WrittenCell(s.m, 0, 0, 0, v, 0, 0, 0);
    WrittenCell(s.m, 0, 0, 0, v, 0, 1, 0);
  }
}

// pg_getpage, pg_getval and pg_setval (libmem.c:213-396): what one access does
// to every byte of every process, and when it does what it should.
module PageAccess {
  import opened Options
  import opened Bits
  import opened Paging
  import opened FrameSafety

  // ---- pg_getpage ---------------------------------------------------------------

  // An absent page is brought in at the cost of the oldest resident page. Both
  // copies go from RAM to the active swap device: the victim's frame to a free
  // swap frame, then the RAM frame numbered by the absent entry to the swap
  // frame numbered like the victim's RAM frame.
  ghost predicate CanFault(l: Local, pgn: nat) {
    && Shape(l) && pgn < MAX_PGN
    && l.space.table[pgn].Absent? && l.space.table[pgn].off < l.dev.ram.Frames()
    && l.space.fifo != [] && l.dev.swaps[l.dev.active].free != []
  }

  function CopyOver(dev: Devices, frame: nat, t: nat, to: nat): Devices
    requires t < |dev.swaps| && frame < dev.ram.Frames()
  {
    dev.(swaps := dev.swaps[t := dev.swaps[t].(bytes := CopyFrame(dev.ram.bytes, frame, dev.swaps[t].bytes, to))])
  }

  function Fault(l: Local, pgn: nat): Local
    requires CanFault(l, pgn)
  {
    var s := l.space;
    var last := |s.fifo| - 1;
    var victim := s.fifo[last];
    assert victim in s.fifo;
    var frame := s.table[victim].fpn;
    var t := l.dev.active;
    var off := l.dev.swaps[t].free[0];
    var out := SwapOut(l.dev, frame, t);
    Local(CopyOver(out, s.table[pgn].off, t, frame),
          MapOne(Space(s.table[victim := SwapEntry(t, off)], s.fifo[..last]), pgn, frame))
  }

  lemma FaultedResident(l: Local, pgn: nat)
    requires CanFault(l, pgn)
    ensures pgn < |Fault(l, pgn).space.table| && Fault(l, pgn).space.table[pgn].Resident?
  {
  }

  // The page is present, or pg_getpage can make it so.
  ghost predicate Gettable(l: Local, pgn: nat) {
    pgn < |l.space.table| && (l.space.table[pgn].Absent? ==> CanFault(l, pgn))
  }

  function Present(l: Local, pgn: nat): (r: Local)
    requires Gettable(l, pgn)
    ensures pgn < |r.space.table|
  {
    if l.space.table[pgn].Absent? then Fault(l, pgn) else l
  }

  function FaultMachine(m: Machine, p: nat, g: nat): Machine
    requires p < |m.spaces| && CanFault(LocalOf(m, p), g)
  {
    Put(m, p, Fault(LocalOf(m, p), g))
  }

  // The fault as three moves: evict, overwrite one swap frame, map.
  lemma FaultInSteps(m: Machine, p: nat, g: nat)
    requires Inv(m, []) && p < |m.spaces| && CanFault(LocalOf(m, p), g)
    ensures InM(m, p, g) && CanEvict(m, p, m.dev.active) && InM(m, p, Victim(m, p)) && At(m, p, Victim(m, p)).Resident?
    ensures var v := At(m, p, Victim(m, p)).fpn;
            var e := Evicted(m, p, m.dev.active);
            && InM(e, p, g) && At(e, p, g) == At(m, p, g) && At(m, p, g) == Absent(0)
            && v < m.dev.ram.Frames() && m.dev.active < |e.dev.swaps| && e.dev.ram == m.dev.ram
            && FaultMachine(m, p, g)
               == Put(m, p, Local(CopyOver(e.dev, 0, m.dev.active, v), MapOne(e.spaces[p], g, v)))
  {
    var t := m.dev.active;
    EvictedTable(m, p, t);
    EvictedDevices(m, p, t);
    assert Owned(m.dev, At(m, p, g));
    assert m.dev.swaps[t].free[0] in m.dev.swaps[t].free;
    assert DeviceOk(m.dev.swaps[t], OFF_LIMIT);
  }

  // Overwriting swap cells moves no frame.
  lemma CopyOverKeepsInv(e: Machine, t: nat, to: nat, pend: seq<nat>)
    requires Inv(e, pend) && t < MAX_SWP && e.dev.ram.Frames() > 0
    ensures Inv(e.(dev := CopyOver(e.dev, 0, t, to)), pend)
  {
    var n := e.(dev := CopyOver(e.dev, 0, t, to));
    assert forall u :: 0 <= u < MAX_SWP ==> n.dev.swaps[u].free == e.dev.swaps[u].free && n.dev.swaps[u].Frames() == e.dev.swaps[u].Frames();
    forall u | 0 <= u < MAX_SWP ensures DeviceOk(n.dev.swaps[u], OFF_LIMIT) {
      assert DeviceOk(e.dev.swaps[u], OFF_LIMIT);
    }
    forall q, h | InM(n, q, h) ensures Owned(n.dev, At(n, q, h)) {
      assert InM(e, q, h) && Owned(e.dev, At(e, q, h));
    }
    assert forall q, h :: InM(n, q, h) ==> InM(e, q, h) && At(n, q, h) == At(e, q, h);
  }

  lemma EvictedInv(m: Machine, p: nat, t: nat)
    requires Inv(m, []) && CanEvict(m, p, t)
    ensures InM(m, p, Victim(m, p)) && At(m, p, Victim(m, p)).Resident?
    ensures Inv(Evicted(m, p, t), [At(m, p, Victim(m, p)).fpn]) && Keeps(m, Evicted(m, p, t))
  {
    EvictedTable(m, p, t);
    EvictedDevices(m, p, t);
    EvictedFifo(m, p, t);
    EvictedOwned(m, p, t);
    EvictedExclusive(m, p, t);
    EvictedPending(m, p, t, []);
    EvictedCells(m, p, t);
    var f := At(m, p, Victim(m, p)).fpn;
    assert [f] + [] == [f];
  }

  // The fault keeps frames and slots exclusive, for every process.
  lemma FaultKeepsInv(m: Machine, p: nat, g: nat)
    requires Inv(m, []) && p < |m.spaces| && CanFault(LocalOf(m, p), g)
    ensures Inv(FaultMachine(m, p, g), [])
    ensures InM(FaultMachine(m, p, g), p, g) && At(FaultMachine(m, p, g), p, g).Resident?
  {
    var t := m.dev.active;
    FaultInSteps(m, p, g);
    EvictedInv(m, p, t);
    var e := Evicted(m, p, t);
    var v := At(m, p, Victim(m, p)).fpn;
    CopyOverKeepsInv(e, t, v, [v]);
    var c := e.(dev := CopyOver(e.dev, 0, t, v));
    MapOneKeepsInv(c, p, g, [v]);
    assert FaultMachine(m, p, g) == Put(c, p, Local(c.dev, MapOne(c.spaces[p], g, v)));
  }

  lemma CopyOverCell(e: Machine, t: nat, to: nat, q: nat, h: nat, off: nat)
    requires Inv(e, []) && t < MAX_SWP && e.dev.ram.Frames() > 0
    requires InM(e, q, h) && !At(e, q, h).Absent? && off < PAGE
    ensures Cell(e.(dev := CopyOver(e.dev, 0, t, to)), q, h, off)
         == if At(e, q, h) == Swapped(t, to) then CellOf(e.dev.ram, 0, off) else Cell(e, q, h, off)
  {
    var x := At(e, q, h);
    assert Owned(e.dev, x);
    if x.Swapped? && x.typ == t && x.off != to {
      DifferentFrames(x.off, to, off);
    }
  }

  // The entries after a fault, for pages that were present before.
  lemma FaultTable(m: Machine, p: nat, g: nat, q: nat, h: nat)
    requires Inv(m, []) && p < |m.spaces| && CanFault(LocalOf(m, p), g)
    requires InM(m, q, h) && !At(m, q, h).Absent?
    ensures InM(FaultMachine(m, p, g), q, h)
    ensures At(FaultMachine(m, p, g), q, h)
         == if q == p && h == Victim(m, p) then Swapped(m.dev.active, m.dev.swaps[m.dev.active].free[0])
            else At(m, q, h)
  {
    FaultInSteps(m, p, g);
    EvictedTable(m, p, m.dev.active);
    var e := Evicted(m, p, m.dev.active);
    assert InM(e, q, h) && !At(e, q, h).Absent?;
  }

  // Where a fault leaves the page that is in danger: in the swap frame numbered
  // like the RAM frame of the victim.
  predicate InHarmsWay(m: Machine, p: nat, q: nat, h: nat)
    requires p < |m.spaces| && m.spaces[p].fifo != [] && InM(m, p, Victim(m, p)) && At(m, p, Victim(m, p)).Resident?
    requires m.dev.active < |m.dev.swaps| && m.dev.swaps[m.dev.active].free != [] && InM(m, q, h)
  {
    var t, v := m.dev.active, At(m, p, Victim(m, p)).fpn;
    || At(m, q, h) == Swapped(t, v)
    || (q == p && h == Victim(m, p) && m.dev.swaps[t].free[0] == v)
  }

  // Every byte after a fault: RAM frame 0 for the page in harm's way, for the
  // others what they held.
  lemma FaultCell(m: Machine, p: nat, g: nat, q: nat, h: nat, off: nat)
    requires Inv(m, []) && p < |m.spaces| && CanFault(LocalOf(m, p), g)
    requires InM(m, q, h) && !At(m, q, h).Absent? && off < PAGE
    ensures InM(m, p, Victim(m, p)) && At(m, p, Victim(m, p)).Resident?
    ensures InM(FaultMachine(m, p, g), q, h)
    ensures Cell(FaultMachine(m, p, g), q, h, off)
         == if InHarmsWay(m, p, q, h) then CellOf(m.dev.ram, 0, off) else Cell(m, q, h, off)
  {
    var t := m.dev.active;
    FaultTable(m, p, g, q, h);
    FaultInSteps(m, p, g);
    EvictedInv(m, p, t);
    EvictedTable(m, p, t);
    var e := Evicted(m, p, t);
    var v := At(m, p, Victim(m, p)).fpn;
    assert InM(e, q, h) && !At(e, q, h).Absent?;
    assert Cell(e, q, h, off) == Cell(m, q, h, off);
    CopyOverKeepsInv(e, t, v, [v]);
    CopyOverCell(e, t, v, q, h, off);
    var c := e.(dev := CopyOver(e.dev, 0, t, v));
    MapOneKeepsInv(c, p, g, [v]);
    assert FaultMachine(m, p, g) == Put(c, p, Local(c.dev, MapOne(c.spaces[p], g, v)));
    assert InM(c, q, h) && !(q == p && h == g);
  }

  // ---- reading and writing through a present entry -----------------------------

  // PAGING_PHYADDR of the frame field: the code never looks at the swapped bit.
  function PhyAddr(e: Entry, off: nat): nat {
    FpnField(e) * PAGE + off
  }

  // None when MEMPHY_read refuses the address and the caller's byte stays unset.
  function ReadRam(dev: Devices, e: Entry, off: nat): Option<Byte> {
    if PhyAddr(e, off) < |dev.ram.bytes| then Some(dev.ram.bytes[PhyAddr(e, off)]) else None
  }

  function WriteRam(dev: Devices, e: Entry, off: nat, v: Byte): Devices {
    if PhyAddr(e, off) < |dev.ram.bytes| then
      dev.(ram := dev.ram.(bytes := dev.ram.bytes[PhyAddr(e, off) := v]))
    else dev
  }

  // The same at a virtual address of one process.
  function LoadAt(l: Local, addr: nat): Option<Byte>
    requires Pgn(addr) < |l.space.table|
  {
    ReadRam(l.dev, l.space.table[Pgn(addr)], Offst(addr))
  }

  function StoreAt(l: Local, addr: nat, v: Byte): Local
    requires Pgn(addr) < |l.space.table|
  {
    l.(dev := WriteRam(l.dev, l.space.table[Pgn(addr)], Offst(addr), v))
  }

  function Written(m: Machine, p: nat, g: nat, off: nat, v: Byte): Machine
    requires InM(m, p, g)
  {
    m.(dev := WriteRam(m.dev, At(m, p, g), off, v))
  }

  lemma WrittenKeepsInv(m: Machine, p: nat, g: nat, off: nat, v: Byte)
    requires Inv(m, []) && InM(m, p, g)
    ensures Inv(Written(m, p, g, off, v), [])
  {
    var n := Written(m, p, g, off, v);
    assert forall q, h :: InM(n, q, h) <==> InM(m, q, h);
    assert forall q, h :: InM(n, q, h) ==> At(n, q, h) == At(m, q, h);
    forall q, h | InM(n, q, h) ensures Owned(n.dev, At(n, q, h)) {
      assert InM(m, q, h) && Owned(m.dev, At(m, q, h));
    }
  }

  // One write changes one byte: that of the page, of whatever process, that is
  // resident in the frame the entry's low bits name.
  lemma WrittenCell(m: Machine, p: nat, g: nat, off: nat, v: Byte, q: nat, h: nat, o: nat)
    requires Inv(m, []) && InM(m, p, g) && InM(m, q, h)
    requires !At(m, q, h).Absent? && off < PAGE && o < PAGE
    ensures Cell(Written(m, p, g, off, v), q, h, o)
         == if At(m, q, h) == Resident(FpnField(At(m, p, g))) && o == off then v else Cell(m, q, h, o)
  {
    var e, x := At(m, p, g), At(m, q, h);
    assert Owned(m.dev, x);
    if x.Resident? && x.fpn != FpnField(e) {
      DifferentFrames(x.fpn, FpnField(e), o);
    }
  }

  // For a resident page the byte written is its own, and no other.
  lemma WriteResident(m: Machine, p: nat, g: nat, off: nat, v: Byte, q: nat, h: nat, o: nat)
    requires Inv(m, []) && InM(m, p, g) && InM(m, q, h) && At(m, p, g).Resident?
    requires !At(m, q, h).Absent? && off < PAGE && o < PAGE
    ensures Cell(Written(m, p, g, off, v), q, h, o)
         == if q == p && h == g && o == off then v else Cell(m, q, h, o)
  {
    ResidentField(m, p, g);
    WrittenCell(m, p, g, off, v, q, h, o);
  }

  lemma ResidentField(m: Machine, p: nat, g: nat)
    requires Inv(m, []) && InM(m, p, g) && At(m, p, g).Resident?
    ensures At(m, p, g).fpn < m.dev.ram.Frames() && FpnField(At(m, p, g)) == At(m, p, g).fpn
  {
    assert Owned(m.dev, At(m, p, g));
    assert DeviceOk(m.dev.ram, FPN_LIMIT);
  }

  lemma ReadResident(m: Machine, p: nat, g: nat, off: nat)
    requires Inv(m, []) && InM(m, p, g) && At(m, p, g).Resident? && off < PAGE
    ensures ReadRam(m.dev, At(m, p, g), off) == Some(Cell(m, p, g, off))
  {
    ResidentField(m, p, g);
  }

  // ---- accesses are right exactly for resident pages -----------------------------

  // Same frames, same tables, any bytes.
  ghost predicate SameShape(m: Machine, n: Machine) {
    && n.spaces == m.spaces && n.dev.active == m.dev.active
    && n.dev.ram.free == m.dev.ram.free && |n.dev.ram.bytes| == |m.dev.ram.bytes|
    && |n.dev.swaps| == |m.dev.swaps|
    && forall t :: 0 <= t < |m.dev.swaps| ==>
      n.dev.swaps[t].free == m.dev.swaps[t].free && |n.dev.swaps[t].bytes| == |m.dev.swaps[t].bytes|
  }

  lemma SameShapeInv(m: Machine, n: Machine)
    requires Inv(m, []) && SameShape(m, n)
    ensures Inv(n, [])
  {
    assert forall q, h :: InM(n, q, h) <==> InM(m, q, h);
    assert forall q, h :: InM(n, q, h) ==> At(n, q, h) == At(m, q, h);
    forall t | 0 <= t < MAX_SWP ensures DeviceOk(n.dev.swaps[t], OFF_LIMIT) {
      assert DeviceOk(m.dev.swaps[t], OFF_LIMIT);
    }
    forall q, h | InM(n, q, h) ensures Owned(n.dev, At(n, q, h)) {
      assert InM(m, q, h) && Owned(m.dev, At(m, q, h));
    }
  }

  // A read of a swapped page returns the byte of whatever page is resident in the
  // frame that its type and offset spell, of whatever process.
  lemma SwappedReadsOther(m: Machine, p: nat, g: nat, off: nat, q: nat, h: nat)
    requires Inv(m, []) && InM(m, p, g) && At(m, p, g).Swapped? && off < PAGE && InM(m, q, h)
    requires At(m, q, h) == Resident((At(m, p, g).off * 32 + At(m, p, g).typ) % FPN_LIMIT)
    ensures ReadRam(m.dev, At(m, p, g), off) == Some(Cell(m, q, h, off))
  {
    assert Owned(m.dev, At(m, q, h));
  }

  // A swapped page has contents for which reading it gives some other byte.
  lemma SwappedMisread(m: Machine, p: nat, g: nat, off: nat) returns (n: Machine)
    requires Inv(m, []) && InM(m, p, g) && At(m, p, g).Swapped? && off < PAGE
    ensures SameShape(m, n) && InM(n, p, g)
    ensures ReadRam(n.dev, At(n, p, g), off) != Some(Cell(n, p, g, off))
  {
    var e := At(m, p, g);
    assert Owned(m.dev, e);
    var s := m.dev.swaps[e.typ];
    var wrong: Byte := if ReadRam(m.dev, e, off) == Some(0) then 1 else 0;
    n := m.(dev := m.dev.(swaps := m.dev.swaps[e.typ := s.(bytes := s.bytes[e.off * PAGE + off := wrong])]));
  }

  lemma ReadRightIffResident(m: Machine, p: nat, g: nat, off: nat)
    requires Inv(m, []) && InM(m, p, g) && !At(m, p, g).Absent? && off < PAGE
    ensures (forall n :: SameShape(m, n) ==> ReadRam(n.dev, At(n, p, g), off) == Some(Cell(n, p, g, off)))
       <==> At(m, p, g).Resident?
  {
    if At(m, p, g).Resident? {
      forall n | SameShape(m, n) ensures ReadRam(n.dev, At(n, p, g), off) == Some(Cell(n, p, g, off)) {
        SameShapeInv(m, n);
        ReadResident(n, p, g, off);
      }
    } else {
      var n := SwappedMisread(m, p, g, off);
    }
  }

  // A write reaches the page it was meant for exactly when that page is resident.
  lemma WriteRightIffResident(m: Machine, p: nat, g: nat, off: nat)
    requires Inv(m, []) && InM(m, p, g) && !At(m, p, g).Absent? && off < PAGE
    ensures (forall v: Byte :: Cell(Written(m, p, g, off, v), p, g, off) == v) <==> At(m, p, g).Resident?
  {
    forall v: Byte
      ensures Cell(Written(m, p, g, off, v), p, g, off) == if At(m, p, g).Resident? then v else Cell(m, p, g, off)
    {
      WrittenCell(m, p, g, off, v, p, g, off);
      if At(m, p, g).Resident? {
        ResidentField(m, p, g);
      }
    }
    var other: Byte := if Cell(m, p, g, off) == 0 then 1 else 0;
    assert Cell(Written(m, p, g, off, other), p, g, off) == other || !At(m, p, g).Resident?;
  }

  // ---- which faults keep every byte --------------------------------------------

  // Whatever the devices hold, the fault keeps it.
  ghost predicate FaultSafe(m: Machine, p: nat, g: nat) {
    forall n :: SameShape(m, n) ==>
      p < |n.spaces| && CanFault(LocalOf(n, p), g) && Keeps(n, FaultMachine(n, p, g))
  }

  // The condition, read off before the fault: no page is in the active device's
  // frame numbered like the victim's RAM frame v, and the victim does not go
  // there itself, unless v is 0.
  ghost predicate OutOfTheWay(m: Machine, p: nat)
    requires p < |m.spaces| && m.spaces[p].fifo != [] && InM(m, p, Victim(m, p)) && At(m, p, Victim(m, p)).Resident?
    requires m.dev.active < |m.dev.swaps| && m.dev.swaps[m.dev.active].free != []
  {
    var t, v := m.dev.active, At(m, p, Victim(m, p)).fpn;
    && (forall q: nat, h: nat :: InM(m, q, h) ==> At(m, q, h) != Swapped(t, v))
    && (m.dev.swaps[t].free[0] != v || v == 0)
  }

  lemma OutOfTheWayKeeps(n: Machine, p: nat, g: nat)
    requires Inv(n, []) && p < |n.spaces| && CanFault(LocalOf(n, p), g)
    requires InM(n, p, Victim(n, p)) && At(n, p, Victim(n, p)).Resident? && OutOfTheWay(n, p)
    ensures Keeps(n, FaultMachine(n, p, g))
  {
    var f := FaultMachine(n, p, g);
    FaultKeepsInv(n, p, g);
    FaultSpaces(n, p, g);
    forall q: nat, h: nat | InM(n, q, h) && !At(n, q, h).Absent? ensures !At(f, q, h).Absent? {
      FaultTable(n, p, g, q, h);
    }
    forall q: nat, h: nat, off: nat | InM(n, q, h) && !At(n, q, h).Absent? && off < PAGE
      ensures Cell(f, q, h, off) == Cell(n, q, h, off)
    {
      FaultCell(n, p, g, q, h, off);
    }
  }

  lemma FaultSpaces(m: Machine, p: nat, g: nat)
    requires Inv(m, []) && p < |m.spaces| && CanFault(LocalOf(m, p), g)
    ensures |FaultMachine(m, p, g).spaces| == |m.spaces|
    ensures forall q: nat, h: nat :: InM(FaultMachine(m, p, g), q, h) <==> InM(m, q, h)
  {
    FaultInSteps(m, p, g);
    EvictedTable(m, p, m.dev.active);
  }

  // A page in harm's way loses some contents.
  lemma HarmedSwapped(m: Machine, p: nat, g: nat, q: nat, h: nat)
    requires Inv(m, []) && p < |m.spaces| && CanFault(LocalOf(m, p), g) && InM(m, q, h)
    requires InM(m, p, Victim(m, p)) && At(m, p, Victim(m, p)).Resident?
    requires At(m, q, h) == Swapped(m.dev.active, At(m, p, Victim(m, p)).fpn)
    ensures !FaultSafe(m, p, g)
  {
    assert Owned(m.dev, At(m, q, h));
    var t, v := m.dev.active, At(m, p, Victim(m, p)).fpn;
    var s := m.dev.swaps[t];
    var wrong: Byte := if CellOf(m.dev.ram, 0, 0) == 0 then 1 else 0;
    var n := m.(dev := m.dev.(swaps := m.dev.swaps[t := s.(bytes := s.bytes[v * PAGE := wrong])]));
    assert SameShape(m, n);
    SameShapeInv(m, n);
    FaultCell(n, p, g, q, h, 0);
    assert Cell(n, q, h, 0) == wrong;
  }

  lemma HarmedVictim(m: Machine, p: nat, g: nat)
    requires Inv(m, []) && p < |m.spaces| && CanFault(LocalOf(m, p), g)
    requires InM(m, p, Victim(m, p)) && At(m, p, Victim(m, p)).Resident?
    requires m.dev.swaps[m.dev.active].free[0] == At(m, p, Victim(m, p)).fpn != 0
    ensures !FaultSafe(m, p, g)
  {
    var v := At(m, p, Victim(m, p)).fpn;
    assert Owned(m.dev, At(m, p, Victim(m, p)));
    var wrong: Byte := if CellOf(m.dev.ram, 0, 0) == 0 then 1 else 0;
    var n := m.(dev := m.dev.(ram := m.dev.ram.(bytes := m.dev.ram.bytes[v * PAGE := wrong])));
    assert SameShape(m, n);
    SameShapeInv(m, n);
    FaultCell(n, p, g, p, Victim(m, p), 0);
    assert Cell(n, p, Victim(m, p), 0) == wrong;
  }

  lemma FaultKeepsIff(m: Machine, p: nat, g: nat)
    requires Inv(m, []) && p < |m.spaces| && CanFault(LocalOf(m, p), g)
    ensures InM(m, p, Victim(m, p)) && At(m, p, Victim(m, p)).Resident?
    ensures FaultSafe(m, p, g) <==> OutOfTheWay(m, p)
  {
    FaultInSteps(m, p, g);
    var t, v := m.dev.active, At(m, p, Victim(m, p)).fpn;
    if OutOfTheWay(m, p) {
      forall n | SameShape(m, n)
        ensures p < |n.spaces| && CanFault(LocalOf(n, p), g) && Keeps(n, FaultMachine(n, p, g))
      {
        SameShapeInv(m, n);
        assert forall q: nat, h: nat :: InM(n, q, h) ==> InM(m, q, h) && At(n, q, h) == At(m, q, h);
        OutOfTheWayKeeps(n, p, g);
      }
    } else if q: nat, h: nat :| InM(m, q, h) && At(m, q, h) == Swapped(t, v) {
      HarmedSwapped(m, p, g, q, h);
    } else {
      HarmedVictim(m, p, g);
    }
  }
}

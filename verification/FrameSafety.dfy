// Several processes over one RAM and four swap devices: no frame is held
// twice, and allocation keeps every byte a process already has.
module FrameSafety {
  import opened Bits
  import opened Paging

  datatype Machine = Machine(dev: Devices, spaces: seq<Space>)

  predicate InM(m: Machine, p: nat, g: nat) {
    p < |m.spaces| && g < |m.spaces[p].table|
  }

  function At(m: Machine, p: nat, g: nat): Entry
    requires InM(m, p, g)
  {
    m.spaces[p].table[g]
  }

  function LocalOf(m: Machine, p: nat): Local
    requires p < |m.spaces|
  {
    Local(m.dev, m.spaces[p])
  }

  function Put(m: Machine, p: nat, l: Local): Machine
    requires p < |m.spaces|
  {
    Machine(l.dev, m.spaces[p := l.space])
  }

  // ---- the invariant; pend are frames taken and not yet mapped --------------

  predicate DeviceOk(d: Device, limit: nat) {
    d.Frames() <= limit && Distinct(d.free) && forall f :: f in d.free ==> f < d.Frames()
  }

  predicate DevicesOk(dev: Devices) {
    && |dev.swaps| == MAX_SWP && dev.active < MAX_SWP
    && DeviceOk(dev.ram, FPN_LIMIT)
    && forall t :: 0 <= t < MAX_SWP ==> DeviceOk(dev.swaps[t], OFF_LIMIT)
  }

  // The frame an entry names exists and is not on a free list.
  predicate Owned(dev: Devices, e: Entry)
    requires |dev.swaps| == MAX_SWP
  {
    match e
    case Absent(off) => off == 0
    case Resident(f) => f < dev.ram.Frames() && f !in dev.ram.free
    case Swapped(t, o) => t < MAX_SWP && o < dev.swaps[t].Frames() && o !in dev.swaps[t].free
  }

  ghost predicate AllOwned(m: Machine)
    requires |m.dev.swaps| == MAX_SWP
  {
    forall p, g :: InM(m, p, g) ==> Owned(m.dev, At(m, p, g))
  }

  // Two present entries never name the same frame of the same device.
  ghost predicate Exclusive(m: Machine) {
    forall p, g, q, h :: InM(m, p, g) && InM(m, q, h) && At(m, p, g) == At(m, q, h) && !At(m, p, g).Absent?
      ==> p == q && g == h
  }

  ghost predicate PendingOk(m: Machine, pend: seq<nat>) {
    && Distinct(pend)
    && (forall f :: f in pend ==> f < m.dev.ram.Frames() && f !in m.dev.ram.free)
    && (forall p, g :: InM(m, p, g) && At(m, p, g).Resident? ==> At(m, p, g).fpn !in pend)
  }

  ghost predicate Inv(m: Machine, pend: seq<nat>) {
    && DevicesOk(m.dev)
    && (forall p :: 0 <= p < |m.spaces| ==> FifoOk(m.spaces[p], m.dev.ram.Frames()))
    && AllOwned(m) && Exclusive(m) && PendingOk(m, pend)
  }

  // ---- contents ----------------------------------------------------------------

  function CellOf(d: Device, f: nat, off: nat): Byte {
    if f * PAGE + off < |d.bytes| then d.bytes[f * PAGE + off] else 0
  }

  // The byte an entry stands for: through the FPN when resident, through the
  // swap type and offset when swapped.
  function ByteAt(dev: Devices, e: Entry, off: nat): Byte {
    match e
    case Absent(_) => 0
    case Resident(f) => CellOf(dev.ram, f, off)
    case Swapped(t, o) => if t < |dev.swaps| then CellOf(dev.swaps[t], o, off) else 0
  }

  function Cell(m: Machine, p: nat, g: nat, off: nat): Byte
    requires InM(m, p, g)
  {
    ByteAt(m.dev, At(m, p, g), off)
  }

  // Every page mapped in m is mapped in n with the same 256 bytes.
  ghost predicate Keeps(m: Machine, n: Machine) {
    && |n.spaces| == |m.spaces|
    && (forall p, g :: InM(m, p, g) ==> InM(n, p, g))
    && (forall p, g :: InM(m, p, g) && !At(m, p, g).Absent? ==> !At(n, p, g).Absent?)
    && (forall p, g, off :: InM(m, p, g) && !At(m, p, g).Absent? && 0 <= off < PAGE
          ==> Cell(n, p, g, off) == Cell(m, p, g, off))
  }

  lemma KeepsTrans(a: Machine, b: Machine, c: Machine)
    requires Keeps(a, b) && Keeps(b, c)
    ensures Keeps(a, c)
  {
    forall p, g, off | InM(a, p, g) && !At(a, p, g).Absent? && 0 <= off < PAGE
      ensures Cell(c, p, g, off) == Cell(a, p, g, off)
    {
      assert InM(b, p, g) && !At(b, p, g).Absent?;
    }
  }

  // Only process p changed, and its absent pages stayed absent.
  ghost predicate Only(m: Machine, n: Machine, p: nat) {
    && |n.spaces| == |m.spaces|
    && (forall q :: 0 <= q < |m.spaces| && q != p ==> n.spaces[q] == m.spaces[q])
    && (forall g :: InM(m, p, g) ==> InM(n, p, g) && (At(m, p, g).Absent? ==> At(n, p, g) == At(m, p, g)))
  }

  // ---- one frame taken from the RAM free list ------------------------------

  lemma PopKeepsInv(m: Machine, p: nat, pend: seq<nat>)
    requires Inv(m, pend) && p < |m.spaces| && m.dev.ram.free != []
    ensures Shape(LocalOf(m, p))
    ensures var g := GrabFrame(LocalOf(m, p));
            g.code == 0 && Inv(Put(m, p, g.l), [g.frame] + pend) && Keeps(m, Put(m, p, g.l)) && Only(m, Put(m, p, g.l), p)
  {
    var g := GrabFrame(LocalOf(m, p));
    var n := Put(m, p, g.l);
    assert n.spaces == m.spaces;
    assert forall q, h :: InM(n, q, h) ==> InM(m, q, h) && At(n, q, h) == At(m, q, h);
    var free := m.dev.ram.free;
    assert free[0] in free;
    assert forall f :: f in free[1..] ==> f in free;
    assert free[0] !in free[1..];
    assert Distinct([g.frame] + pend);
    assert PendingOk(n, [g.frame] + pend);
  }

  // ---- eviction ------------------------------------------------------------------

  ghost predicate MustEvict(m: Machine, p: nat) {
    p < |m.spaces| && m.dev.ram.free == [] && m.spaces[p].fifo != []
  }

  lemma FifoPrefix(s: Space, frames: nat, k: nat)
    requires FifoOk(s, frames) && k <= |s.fifo|
    ensures FifoOk(s.(fifo := s.fifo[..k]), frames)
  {
    assert forall g :: g in s.fifo[..k] ==> g in s.fifo;
  }

  function Victim(m: Machine, p: nat): nat
    requires p < |m.spaces| && m.spaces[p].fifo != []
  {
    m.spaces[p].fifo[|m.spaces[p].fifo| - 1]
  }

  // No swap device has room: the victim has left the list, nothing else moved.
  lemma NoSwapKeepsInv(m: Machine, p: nat, pend: seq<nat>)
    requires Inv(m, pend) && MustEvict(m, p)
    requires PickSwap(m.dev) == MAX_SWP
    ensures Shape(LocalOf(m, p))
    ensures var g := GrabFrame(LocalOf(m, p));
            g.code == NO_SWAP && Inv(Put(m, p, g.l), pend) && Keeps(m, Put(m, p, g.l)) && Only(m, Put(m, p, g.l), p)
    ensures var n := Put(m, p, GrabFrame(LocalOf(m, p)).l); var v := Victim(m, p);
            && v !in n.spaces[p].fifo && InM(n, p, v) && At(n, p, v).Resident? && n.dev == m.dev
            && n.spaces[p].fifo + [v] == m.spaces[p].fifo
  {
    var g := GrabFrame(LocalOf(m, p));
    var n := Put(m, p, g.l);
    FifoPrefix(m.spaces[p], m.dev.ram.Frames(), |m.spaces[p].fifo| - 1);
    assert Victim(m, p) in m.spaces[p].fifo;
    assert forall q, h :: InM(n, q, h) ==> InM(m, q, h) && At(n, q, h) == At(m, q, h);
  }

  // The machine after the oldest page of p went to the first free frame of
  // swap device t.
  function Evicted(m: Machine, p: nat, t: nat): Machine
    requires p < |m.spaces| && m.spaces[p].fifo != [] && t < |m.dev.swaps| && m.dev.swaps[t].free != []
    requires FifoOk(m.spaces[p], m.dev.ram.Frames())
  {
    var s := m.spaces[p];
    var last := |s.fifo| - 1;
    var v := s.fifo[last];
    assert v in s.fifo;
    Put(m, p, Local(SwapOut(m.dev, s.table[v].fpn, t),
                    Space(s.table[v := Swapped(t, m.dev.swaps[t].free[0])], s.fifo[..last])))
  }

  ghost predicate CanEvict(m: Machine, p: nat, t: nat) {
    && p < |m.spaces| && m.spaces[p].fifo != []
    && t < |m.dev.swaps| && m.dev.swaps[t].free != []
    && FifoOk(m.spaces[p], m.dev.ram.Frames())
  }

  lemma EvictedTable(m: Machine, p: nat, t: nat)
    requires CanEvict(m, p, t)
    ensures var n := Evicted(m, p, t); var v := Victim(m, p);
            && InM(m, p, v) && At(m, p, v).Resident? && At(m, p, v).fpn < m.dev.ram.Frames()
            && (forall q, h :: InM(n, q, h) <==> InM(m, q, h))
            && (forall q, h :: InM(n, q, h) && !(q == p && h == v) ==> At(n, q, h) == At(m, q, h))
            && At(n, p, v) == Swapped(t, m.dev.swaps[t].free[0])
  {
    assert Victim(m, p) in m.spaces[p].fifo;
  }

  lemma EvictedDevices(m: Machine, p: nat, t: nat)
    requires CanEvict(m, p, t) && DevicesOk(m.dev)
    ensures var n := Evicted(m, p, t); var off := m.dev.swaps[t].free[0];
            && DevicesOk(n.dev) && n.dev.ram == m.dev.ram
            && off < m.dev.swaps[t].Frames() && off !in n.dev.swaps[t].free
            && (forall u :: 0 <= u < MAX_SWP ==> n.dev.swaps[u].Frames() == m.dev.swaps[u].Frames())
            && (forall u, o :: 0 <= u < MAX_SWP && o !in m.dev.swaps[u].free ==> o !in n.dev.swaps[u].free)
  {
    EvictedTable(m, p, t);
    var n := Evicted(m, p, t);
    var free := m.dev.swaps[t].free;
    assert free[0] in free;
    assert forall f :: f in free[1..] ==> f in free;
    assert n.dev.swaps[t].free == free[1..];
    assert DeviceOk(m.dev.swaps[t], OFF_LIMIT);
    assert DeviceOk(n.dev.swaps[t], OFF_LIMIT);
  }

  lemma EvictedFifo(m: Machine, p: nat, t: nat)
    requires CanEvict(m, p, t)
    ensures FifoOk(Evicted(m, p, t).spaces[p], m.dev.ram.Frames())
  {
    var fifo := m.spaces[p].fifo;
    var rest := fifo[..|fifo| - 1];
    assert forall g :: g in rest ==> g in fifo && g != Victim(m, p);
  }

  lemma EvictedOwned(m: Machine, p: nat, t: nat)
    requires CanEvict(m, p, t) && DevicesOk(m.dev) && AllOwned(m)
    ensures AllOwned(Evicted(m, p, t))
  {
    EvictedTable(m, p, t);
    EvictedDevices(m, p, t);
    var n := Evicted(m, p, t);
    forall q, h | InM(n, q, h) ensures Owned(n.dev, At(n, q, h)) {
      assert InM(m, q, h);
      assert Owned(m.dev, At(m, q, h));
    }
  }

  lemma EvictedExclusive(m: Machine, p: nat, t: nat)
    requires CanEvict(m, p, t) && DevicesOk(m.dev) && AllOwned(m) && Exclusive(m)
    ensures Exclusive(Evicted(m, p, t))
  {
    EvictedTable(m, p, t);
    var n := Evicted(m, p, t);
    var e := Swapped(t, m.dev.swaps[t].free[0]);
    assert e.off in m.dev.swaps[t].free;
    forall q, h | InM(m, q, h) ensures At(m, q, h) != e {
      assert Owned(m.dev, At(m, q, h));
    }
    forall q, h, q', h' | InM(n, q, h) && InM(n, q', h') && At(n, q, h) == At(n, q', h') && !At(n, q, h).Absent?
      ensures q == q' && h == h'
    {
      assert InM(m, q, h) && InM(m, q', h');
    }
  }

  lemma EvictedPending(m: Machine, p: nat, t: nat, pend: seq<nat>)
    requires CanEvict(m, p, t) && DevicesOk(m.dev) && AllOwned(m) && Exclusive(m) && PendingOk(m, pend)
    ensures InM(m, p, Victim(m, p)) && At(m, p, Victim(m, p)).Resident?
    ensures PendingOk(Evicted(m, p, t), [At(m, p, Victim(m, p)).fpn] + pend)
  {
    EvictedTable(m, p, t);
    var n := Evicted(m, p, t);
    var v := Victim(m, p);
    var f := At(m, p, v).fpn;
    assert Owned(m.dev, At(m, p, v));
    forall q, h | InM(n, q, h) && At(n, q, h).Resident? ensures At(n, q, h).fpn !in [f] + pend {
      assert InM(m, q, h) && At(n, q, h) == At(m, q, h);
      assert At(m, q, h) != At(m, p, v);
    }
  }

  // The victim reads the same from swap, and no other page is touched.
  lemma EvictedCells(m: Machine, p: nat, t: nat)
    requires CanEvict(m, p, t) && DevicesOk(m.dev) && AllOwned(m)
    ensures Keeps(m, Evicted(m, p, t))
  {
    EvictedTable(m, p, t);
    EvictedDevices(m, p, t);
    var n := Evicted(m, p, t);
    forall q, h, off | InM(m, q, h) && !At(m, q, h).Absent? && 0 <= off < PAGE
      ensures Cell(n, q, h, off) == Cell(m, q, h, off)
    {
      assert Owned(m.dev, At(m, q, h));
      SwapOutCell(m.dev, At(m, p, Victim(m, p)).fpn, t, At(m, q, h), off);
    }
  }

  // SwapOut changes no owned cell, and the copy shows the frame it came from.
  lemma SwapOutCell(dev: Devices, f: nat, t: nat, e: Entry, off: nat)
    requires DevicesOk(dev) && f < dev.ram.Frames() && t < MAX_SWP && dev.swaps[t].free != []
    requires Owned(dev, e) && off < PAGE
    ensures ByteAt(SwapOut(dev, f, t), e, off) == ByteAt(dev, e, off)
    ensures ByteAt(SwapOut(dev, f, t), Swapped(t, dev.swaps[t].free[0]), off) == ByteAt(dev, Resident(f), off)
  {
    var s := dev.swaps[t];
    assert DeviceOk(s, OFF_LIMIT);
    assert s.free[0] in s.free;
    if e.Swapped? && e.typ == t {
      assert e.off != s.free[0];
      DifferentFrames(e.off, s.free[0], off);
    }
  }

  lemma DifferentFrames(f: nat, g: nat, off: nat)
    requires f != g && off < PAGE
    ensures f * PAGE + off < g * PAGE || g * PAGE + PAGE <= f * PAGE + off
  {
  }

  lemma EvictKeepsInv(m: Machine, p: nat, pend: seq<nat>)
    requires Inv(m, pend) && MustEvict(m, p)
    requires PickSwap(m.dev) != MAX_SWP
    ensures Shape(LocalOf(m, p))
    ensures var g := GrabFrame(LocalOf(m, p));
            g.code == 0 && Inv(Put(m, p, g.l), [g.frame] + pend) && Keeps(m, Put(m, p, g.l)) && Only(m, Put(m, p, g.l), p)
  {
    var t := PickSwap(m.dev);
    GrabIsEvicted(m, p);
    EvictedTable(m, p, t);
    EvictedDevices(m, p, t);
    EvictedFifo(m, p, t);
    EvictedOwned(m, p, t);
    EvictedExclusive(m, p, t);
    EvictedPending(m, p, t, pend);
    EvictedCells(m, p, t);
  }

  lemma GrabIsEvicted(m: Machine, p: nat)
    requires DevicesOk(m.dev) && MustEvict(m, p) && FifoOk(m.spaces[p], m.dev.ram.Frames())
    requires PickSwap(m.dev) != MAX_SWP
    ensures CanEvict(m, p, PickSwap(m.dev)) && InM(m, p, Victim(m, p)) && At(m, p, Victim(m, p)).Resident?
    ensures var g := GrabFrame(LocalOf(m, p));
            g.code == 0 && g.frame == At(m, p, Victim(m, p)).fpn && Put(m, p, g.l) == Evicted(m, p, PickSwap(m.dev))
  {
    var t := PickSwap(m.dev);
    EvictedTable(m, p, t);
    assert m.dev.swaps[t].free[0] in m.dev.swaps[t].free;
    assert DeviceOk(m.dev.swaps[t], OFF_LIMIT);
    assert m.dev.swaps[t].free[0] < OFF_LIMIT;
  }

  // ---- alloc_pages_range ------------------------------------------------------

  lemma GrabKeepsInv(m: Machine, p: nat, pend: seq<nat>)
    requires Inv(m, pend) && p < |m.spaces|
    ensures Shape(LocalOf(m, p))
    ensures var g := GrabFrame(LocalOf(m, p)); var n := Put(m, p, g.l);
            Inv(n, if g.code == 0 then [g.frame] + pend else pend) && Keeps(m, n) && Only(m, n, p)
  {
    if m.dev.ram.free != [] {
      PopKeepsInv(m, p, pend);
    } else if m.spaces[p].fifo != [] {
      if PickSwap(m.dev) == MAX_SWP {
        NoSwapKeepsInv(m, p, pend);
      } else {
        EvictKeepsInv(m, p, pend);
      }
    } else {
      assert Put(m, p, LocalOf(m, p)) == m;
    }
  }

  lemma OnlyTrans(a: Machine, b: Machine, c: Machine, p: nat)
    requires Only(a, b, p) && Only(b, c, p)
    ensures Only(a, c, p)
  {
  }

  lemma PutTwice(m: Machine, p: nat, l: Local, r: Local)
    requires p < |m.spaces|
    ensures Put(Put(m, p, l), p, r) == Put(m, p, r) && LocalOf(Put(m, p, l), p) == l
  {
  }

  lemma {:induction false} AllocKeepsInv(m: Machine, p: nat, k: nat, got: seq<nat>)
    requires Inv(m, got) && p < |m.spaces|
    ensures Shape(LocalOf(m, p))
    ensures var r := AllocPages(LocalOf(m, p), k, got); var n := Put(m, p, r.l);
            Inv(n, r.frames) && Keeps(m, n) && Only(m, n, p)
    decreases k, 1
  {
    if k == 0 {
      assert Put(m, p, LocalOf(m, p)) == m;
    } else {
      var g := GrabFrame(LocalOf(m, p));
      GrabKeepsInv(m, p, got);
      if g.code == 0 {
        AllocAfterGrab(m, p, k, got, g);
      }
    }
  }

  lemma AllocAfterGrab(m: Machine, p: nat, k: nat, got: seq<nat>, g: Grab)
    requires p < |m.spaces| && k > 0
    requires Inv(Put(m, p, g.l), [g.frame] + got) && Keeps(m, Put(m, p, g.l)) && Only(m, Put(m, p, g.l), p)
    ensures Shape(g.l)
    ensures var r := AllocPages(g.l, k - 1, [g.frame] + got); var n := Put(m, p, r.l);
            Inv(n, r.frames) && Keeps(m, n) && Only(m, n, p)
    decreases k, 0
  {
    var n := Put(m, p, g.l);
    PutTwice(m, p, g.l, g.l);
    AllocKeepsInv(n, p, k - 1, [g.frame] + got);
    var r := AllocPages(g.l, k - 1, [g.frame] + got);
    PutTwice(m, p, g.l, r.l);
    KeepsTrans(m, n, Put(m, p, r.l));
    OnlyTrans(m, n, Put(m, p, r.l), p);
  }

  // ---- vmap_page_range --------------------------------------------------------

  // Mapping one taken frame at an absent page.
  lemma MapOneKeepsInv(m: Machine, p: nat, g: nat, pend: seq<nat>)
    requires Inv(m, pend) && InM(m, p, g) && At(m, p, g).Absent? && pend != []
    ensures var n := Put(m, p, Local(m.dev, MapOne(m.spaces[p], g, pend[0])));
            && Inv(n, pend[1..]) && Keeps(m, n) && InM(n, p, g) && At(n, p, g) == Resident(pend[0])
            && forall q: nat, h: nat :: InM(m, q, h) && !(q == p && h == g) ==> InM(n, q, h) && At(n, q, h) == At(m, q, h)
  {
    var n := Put(m, p, Local(m.dev, MapOne(m.spaces[p], g, pend[0])));
    assert pend[0] in pend;
    assert forall f :: f in pend[1..] ==> f in pend;
    assert pend[0] !in pend[1..];
    assert DeviceOk(m.dev.ram, FPN_LIMIT);
    assert At(n, p, g) == Resident(pend[0]);
    MapOneParts(m, n, p, g, pend);
    assert forall h :: h in n.spaces[p].fifo ==> h == g || h in m.spaces[p].fifo;
    assert FifoOk(n.spaces[p], n.dev.ram.Frames());
  }

  lemma MapOneParts(m: Machine, n: Machine, p: nat, g: nat, pend: seq<nat>)
    requires Inv(m, pend) && InM(m, p, g) && At(m, p, g).Absent? && pend != []
    requires pend[0] in pend && pend[0] !in pend[1..] && forall f :: f in pend[1..] ==> f in pend
    requires n == Machine(m.dev, m.spaces[p := Space(m.spaces[p].table[g := Resident(pend[0])], [g] + m.spaces[p].fifo)])
    ensures AllOwned(n) && Exclusive(n) && PendingOk(n, pend[1..]) && Keeps(m, n)
  {
    assert forall q, h :: InM(n, q, h) <==> InM(m, q, h);
    assert forall q, h :: InM(n, q, h) && !(q == p && h == g) ==> At(n, q, h) == At(m, q, h);
    forall q, h, q', h' | InM(n, q, h) && InM(n, q', h') && At(n, q, h) == At(n, q', h') && !At(n, q, h).Absent?
      ensures q == q' && h == h'
    {
      assert InM(m, q, h) && InM(m, q', h');
    }
  }

  // Pages g, g + 1, ... get the frames of the list in order.
  ghost predicate MapsInOrder(m: Machine, n: Machine, p: nat, g: nat, frames: seq<nat>) {
    && (forall h: nat :: g <= h < g + |frames| ==> InM(n, p, h) && At(n, p, h) == Resident(frames[h - g]))
    && (forall q: nat, h: nat :: InM(m, q, h) && !(q == p && g <= h < g + |frames|) ==> InM(n, q, h) && At(n, q, h) == At(m, q, h))
  }

  lemma {:induction false} MapRangeKeepsInv(m: Machine, p: nat, g: nat, frames: seq<nat>)
    requires Inv(m, frames) && p < |m.spaces| && g + |frames| <= MAX_PGN
    requires forall h: nat :: g <= h < g + |frames| ==> At(m, p, h).Absent?
    ensures |m.spaces[p].table| == MAX_PGN
    ensures var n := Put(m, p, Local(m.dev, MapRange(m.spaces[p], g, frames)));
            Inv(n, []) && Keeps(m, n) && MapsInOrder(m, n, p, g, frames)
    decreases |frames|
  {
    if frames == [] {
      assert Put(m, p, LocalOf(m, p)) == m;
    } else {
      assert At(m, p, g).Absent?;
      var n := Put(m, p, Local(m.dev, MapOne(m.spaces[p], g, frames[0])));
      MapOneKeepsInv(m, p, g, frames);
      forall h: nat | g + 1 <= h < g + |frames| ensures InM(n, p, h) && At(n, p, h).Absent? {
        assert InM(m, p, h) && At(m, p, h).Absent?;
      }
      MapRangeKeepsInv(n, p, g + 1, frames[1..]);
      var o := Put(n, p, Local(n.dev, MapRange(n.spaces[p], g + 1, frames[1..])));
      KeepsTrans(m, n, o);
      assert o == Put(m, p, Local(m.dev, MapRange(m.spaces[p], g, frames)));
      MapsInOrderStep(m, n, o, p, g, frames);
    }
  }

  lemma MapsInOrderStep(m: Machine, n: Machine, o: Machine, p: nat, g: nat, frames: seq<nat>)
    requires frames != [] && InM(m, p, g)
    requires n == Put(m, p, Local(m.dev, MapOne(m.spaces[p], g, frames[0])))
    requires InM(n, p, g) && At(n, p, g) == Resident(frames[0])
    requires MapsInOrder(n, o, p, g + 1, frames[1..])
    ensures MapsInOrder(m, o, p, g, frames)
  {
    forall h: nat | g <= h < g + |frames| ensures InM(o, p, h) && At(o, p, h) == Resident(frames[h - g]) {
      if h == g {
        assert InM(n, p, g) && At(n, p, g) == At(o, p, g);
      } else {
        assert At(o, p, h) == Resident(frames[1..][h - (g + 1)]);
      }
    }
    forall q: nat, h: nat | InM(m, q, h) && !(q == p && g <= h < g + |frames|) ensures InM(o, q, h) && At(o, q, h) == At(m, q, h) {
      assert InM(n, q, h) && At(n, q, h) == At(m, q, h);
    }
  }

  // ---- vm_map_ram ---------------------------------------------------------------

  lemma ForgetPending(m: Machine, pend: seq<nat>)
    requires Inv(m, pend)
    ensures Inv(m, [])
  {
  }

  ghost predicate AbsentRange(m: Machine, p: nat, g: nat, k: nat) {
    p < |m.spaces| && forall h: nat :: g <= h < g + k ==> InM(m, p, h) && At(m, p, h).Absent?
  }

  // Whether it succeeds or fails on the way, mapping k fresh pages for process
  // p keeps the frame invariant, every byte of every process, and the tables
  // of the other processes.
  lemma MapRamKeeps(m: Machine, p: nat, g: nat, k: nat)
    requires Inv(m, []) && AbsentRange(m, p, g, k) && g + k <= MAX_PGN
    ensures Shape(LocalOf(m, p))
    ensures var r := MapRam(LocalOf(m, p), g, k); var n := Put(m, p, r.l);
            && Inv(n, []) && Keeps(m, n)
            && (forall q :: 0 <= q < |m.spaces| && q != p ==> n.spaces[q] == m.spaces[q])
  {
    var a := AllocPages(LocalOf(m, p), k, []);
    var n := Put(m, p, a.l);
    AllocKeepsInv(m, p, k, []);
    if a.code != 0 {
      ForgetPending(n, a.frames);
    } else {
      MapAfterAlloc(m, p, g, k, a, n);
    }
  }

  lemma MapAfterAlloc(m: Machine, p: nat, g: nat, k: nat, a: Taken, n: Machine)
    requires AbsentRange(m, p, g, k) && g + k <= MAX_PGN
    requires |a.frames| == k && n == Put(m, p, a.l)
    requires Inv(n, a.frames) && Keeps(m, n) && Only(m, n, p)
    ensures |a.l.space.table| == MAX_PGN
    ensures var o := Put(m, p, a.l.(space := MapRange(a.l.space, g, a.frames)));
            && Inv(o, []) && Keeps(m, o) && MapsInOrder(n, o, p, g, a.frames)
            && (forall q :: 0 <= q < |m.spaces| && q != p ==> o.spaces[q] == m.spaces[q])
  {
    forall h: nat | g <= h < g + |a.frames| ensures InM(n, p, h) && At(n, p, h).Absent? {
      assert InM(m, p, h) && At(m, p, h).Absent?;
    }
    MapRangeKeepsInv(n, p, g, a.frames);
    var o := Put(m, p, a.l.(space := MapRange(a.l.space, g, a.frames)));
    assert o == Put(n, p, Local(n.dev, MapRange(n.spaces[p], g, a.frames)));
    KeepsTrans(m, n, o);
  }

  // Which pages are mapped afterwards: all of the range on success, none of it
  // on failure, and nothing else appears.
  lemma MapRamPages(m: Machine, p: nat, g: nat, k: nat)
    requires Inv(m, []) && AbsentRange(m, p, g, k) && g + k <= MAX_PGN
    ensures Shape(LocalOf(m, p))
    ensures var r := MapRam(LocalOf(m, p), g, k); var n := Put(m, p, r.l);
            forall h: nat :: InM(m, p, h) ==>
              InM(n, p, h) && (!At(n, p, h).Absent? <==> !At(m, p, h).Absent? || (r.code == 0 && g <= h < g + k))
  {
    var a := AllocPages(LocalOf(m, p), k, []);
    var n := Put(m, p, a.l);
    AllocKeepsInv(m, p, k, []);
    if a.code == 0 {
      MapAfterAlloc(m, p, g, k, a, n);
      var o := Put(m, p, a.l.(space := MapRange(a.l.space, g, a.frames)));
      forall h: nat | InM(m, p, h)
        ensures InM(o, p, h) && (!At(o, p, h).Absent? <==> !At(m, p, h).Absent? || g <= h < g + k)
      {
        assert InM(n, p, h);
        if !(g <= h < g + k) {
          assert At(o, p, h) == At(n, p, h);
        }
      }
    }
  }

  // The RAM cells themselves never change during allocation, so a fresh page
  // shows what its frame held before.
  lemma {:induction false} AllocKeepsRam(l: Local, k: nat, got: seq<nat>)
    requires Shape(l)
    ensures AllocPages(l, k, got).l.dev.ram.bytes == l.dev.ram.bytes
    decreases k
  {
    if k > 0 {
      var g := GrabFrame(l);
      GrabShape(l);
      if g.code == 0 {
        AllocKeepsRam(g.l, k - 1, [g.frame] + got);
      }
    }
  }

  // ---- when does it succeed? ---------------------------------------------------

  function Room(dev: Devices): nat
    requires |dev.swaps| == MAX_SWP
  {
    |dev.swaps[0].free| + |dev.swaps[1].free| + |dev.swaps[2].free| + |dev.swaps[3].free|
  }

  lemma PickSwapRoom(dev: Devices)
    requires |dev.swaps| == MAX_SWP && dev.active < MAX_SWP
    ensures PickSwap(dev) == MAX_SWP <==> Room(dev) == 0
  {
    assert FirstFree(dev.swaps, 4) == 4;
    assert FirstFree(dev.swaps, 3) == (if dev.swaps[3].free != [] then 3 else 4);
    assert FirstFree(dev.swaps, 2) == (if dev.swaps[2].free != [] then 2 else FirstFree(dev.swaps, 3));
    assert FirstFree(dev.swaps, 1) == (if dev.swaps[1].free != [] then 1 else FirstFree(dev.swaps, 2));
  }

  // The active device is used while it has room; after that the lowest-numbered
  // one that has.
  lemma PickSwapOrder(dev: Devices, t: nat)
    requires |dev.swaps| == MAX_SWP && dev.active < MAX_SWP && t < MAX_SWP
    ensures PickSwap(dev) == t <==>
      dev.swaps[t].free != []
      && (t == dev.active || (dev.swaps[dev.active].free == [] && forall u :: 0 <= u < t ==> dev.swaps[u].free == []))
  {
    var first := FirstFree(dev.swaps, 0);
    assert first < t ==> dev.swaps[first].free != [];
  }

  function Capacity(l: Local): nat
    requires |l.dev.swaps| == MAX_SWP
  {
    var out := if |l.space.fifo| <= Room(l.dev) then |l.space.fifo| else Room(l.dev);
    |l.dev.ram.free| + out
  }

  lemma GrabCapacity(l: Local)
    requires Shape(l)
    ensures var g := GrabFrame(l);
            && (g.code == 0 <==> Capacity(l) > 0)
            && (g.code == 0 ==> |g.l.dev.swaps| == MAX_SWP && Capacity(g.l) == Capacity(l) - 1)
  {
    PickSwapRoom(l.dev);
    var g := GrabFrame(l);
    if l.dev.ram.free == [] && g.code == 0 {
      var t := PickSwap(l.dev);
      assert l.space.fifo[|l.space.fifo| - 1] in l.space.fifo;
      assert g.l.dev.swaps[t].free == l.dev.swaps[t].free[1..];
      assert forall u :: 0 <= u < MAX_SWP && u != t ==> g.l.dev.swaps[u] == l.dev.swaps[u];
      assert Room(g.l.dev) == Room(l.dev) - 1;
    }
  }

  // k frames can be had exactly when the free RAM frames, plus the pages of this
  // process that can move out to swap, are enough.
  lemma {:induction false} AllocSucceedsIff(l: Local, k: nat, got: seq<nat>)
    requires Shape(l)
    ensures AllocPages(l, k, got).code == 0 <==> k <= Capacity(l)
    decreases k
  {
    if k > 0 {
      var g := GrabFrame(l);
      GrabShape(l);
      GrabCapacity(l);
      if g.code == 0 {
        AllocSucceedsIff(g.l, k - 1, [g.frame] + got);
      }
    }
  }

  // ---- which frames -------------------------------------------------------------

  // From the free list: the j-th page of the range gets the (k - 1 - j)-th free
  // frame, because the list is built newest first.
  lemma {:induction false} FramesFromFreeList(l: Local, k: nat, got: seq<nat>)
    requires Shape(l) && k <= |l.dev.ram.free|
    ensures var r := AllocPages(l, k, got); var free := l.dev.ram.free;
            && r.code == 0 && r.l.space == l.space && r.l.dev == l.dev.(ram := l.dev.ram.(free := free[k..]))
            && (forall j :: 0 <= j < k ==> r.frames[j] == free[k - 1 - j]) && r.frames[k..] == got
    decreases k
  {
    if k > 0 {
      var g := GrabFrame(l);
      GrabShape(l);
      FramesFromFreeList(g.l, k - 1, [g.frame] + got);
      var frames := AllocPages(l, k, got).frames;
      assert frames[k..] == frames[k - 1..][1..];
      assert frames[k - 1] == frames[k - 1..][0];
    }
  }

  predicate ListedFrame(l: Local, i: nat, frame: nat) {
    i < |l.space.fifo| && l.space.fifo[i] < |l.space.table| && l.space.table[l.space.fifo[i]] == Resident(frame)
  }

  // The first k of frames are those of the k oldest pages, the oldest page last.
  ghost predicate FromVictims(l: Local, k: nat, frames: seq<nat>) {
    && k <= |l.space.fifo| && k <= |frames|
    && forall j: nat :: j < k ==> ListedFrame(l, |l.space.fifo| - k + j, frames[j])
  }

  // A fresh device hands out its frames from 0 on, so that page j of the first
  // request of n pages gets frame n - 1 - j.
  lemma FirstRequestFrames(l: Local, k: nat, size: nat, j: nat)
    requires Shape(l) && l.dev.ram == FreshDevice(size) && k <= size / PAGE && j < k
    ensures var r := AllocPages(l, k, []); r.code == 0 && |r.frames| == k && r.frames[j] == k - 1 - j
  {
    FramesFromFreeList(l, k, []);
  }

  // With RAM full: the victims are the k oldest pages, oldest first, and the
  // j-th page of the range gets the frame of the (k - 1 - j)-th victim.
  lemma {:induction false} FramesFromVictims(l: Local, k: nat, got: seq<nat>)
    requires Shape(l) && l.dev.ram.free == [] && AllocPages(l, k, got).code == 0
    ensures var r := AllocPages(l, k, got);
            && FromVictims(l, k, r.frames) && r.frames[k..] == got
            && r.l.space.fifo == l.space.fifo[..|l.space.fifo| - k]
    decreases k
  {
    if k > 0 {
      var g := GrabFrame(l);
      GrabShape(l);
      FramesFromVictims(g.l, k - 1, [g.frame] + got);
      var frames := AllocPages(l, k, got).frames;
      assert frames[k..] == frames[k - 1..][1..];
      assert frames[k - 1] == frames[k - 1..][0];
      VictimFrames(l, k, frames);
    }
  }

  lemma VictimFrames(l: Local, k: nat, frames: seq<nat>)
    requires Shape(l) && l.dev.ram.free == [] && k > 0
    requires var g := GrabFrame(l);
             g.code == 0 && FromVictims(g.l, k - 1, frames) && k <= |frames| && frames[k - 1] == g.frame
    ensures FromVictims(l, k, frames)
  {
    var g := GrabFrame(l);
    var fifo := l.space.fifo;
    var last := |fifo| - 1;
    assert fifo[last] in fifo;
    forall j: nat | j < k ensures ListedFrame(l, |fifo| - k + j, frames[j]) {
      if j < k - 1 {
        assert ListedFrame(g.l, |g.l.space.fifo| - (k - 1) + j, frames[j]);
        assert fifo[|fifo| - k + j] != fifo[last];
      }
    }
  }

  // A failed request leaves nothing: no RAM frame is free, and either all pages
  // of the process have been swapped out or no swap frame is left. The frames it
  // had taken, as many as there were to have, are on no list afterwards.
  lemma {:induction false} FailedAllocDrains(l: Local, k: nat, got: seq<nat>)
    requires Shape(l) && k > Capacity(l)
    ensures var r := AllocPages(l, k, got);
            && r.l.dev.ram.free == [] && |r.l.dev.swaps| == MAX_SWP
            && (r.code == FAILED ==> r.l.space.fifo == [])
            && (r.code == NO_SWAP ==> Room(r.l.dev) == 0)
            && r.code != 0 && |r.frames| == |got| + Capacity(l)
    decreases k
  {
    var g := GrabFrame(l);
    GrabShape(l);
    GrabCapacity(l);
    PickSwapRoom(l.dev);
    if g.code == 0 {
      FailedAllocDrains(g.l, k - 1, [g.frame] + got);
    }
  }

  // Allocation never adds to a free list, so that what is short for one process
  // stays short for all.
  lemma {:induction false} AllocUsesUp(l: Local, k: nat, got: seq<nat>)
    requires Shape(l)
    ensures var r := AllocPages(l, k, got);
            && |r.l.dev.swaps| == MAX_SWP && Room(r.l.dev) <= Room(l.dev)
            && |r.l.dev.ram.free| <= |l.dev.ram.free|
            && (r.code != 0 ==> Capacity(r.l) == 0)
    decreases k
  {
    if k > 0 {
      var g := GrabFrame(l);
      GrabShape(l);
      GrabUsesUp(l);
      GrabCapacity(l);
      if g.code == 0 {
        AllocUsesUp(g.l, k - 1, [g.frame] + got);
      }
    }
  }

  lemma GrabUsesUp(l: Local)
    requires Shape(l)
    ensures var g := GrabFrame(l);
            && |g.l.dev.swaps| == MAX_SWP && Room(g.l.dev) <= Room(l.dev)
            && |g.l.dev.ram.free| <= |l.dev.ram.free|
            && (g.code != 0 ==> Capacity(g.l) == 0)
  {
    PickSwapRoom(l.dev);
    var g := GrabFrame(l);
    if l.dev.ram.free == [] && g.code == 0 {
      var t := PickSwap(l.dev);
      assert l.space.fifo[|l.space.fifo| - 1] in l.space.fifo;
      assert g.l.dev.swaps[t].free == l.dev.swaps[t].free[1..];
      assert forall u :: 0 <= u < MAX_SWP && u != t ==> g.l.dev.swaps[u] == l.dev.swaps[u];
    }
  }
}

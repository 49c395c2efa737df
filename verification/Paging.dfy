// Frames, eviction and mapping as functions on values: what alloc_pages_range,
// vmap_page_range and vm_map_ram (mm.c) compute. The classes in Memphy.dfy and
// Process.dfy do the same work in place and are proved against these functions.
module Paging {
  import opened Bits

  newtype Byte = b: int | -128 <= b < 128      // BYTE is a signed char
  const MAX_SWP: nat := 4                      // PAGING_MAX_MMSWP
  const FAILED: int := -1
  const NO_SWAP: int := -3000

  // A physical device: its cells and its list of free frames, head first.
  datatype Device = Device(bytes: seq<Byte>, free: seq<nat>) {
    function Frames(): nat { |bytes| / PAGE }
  }

  function Upto(n: nat): seq<nat> { seq(n, i => i) }

  // init_memphy: zeroed storage, all whole frames free in order.
  function FreshDevice(size: nat): Device {
    Device(seq(size, _ => 0), Upto(size / PAGE))
  }

  datatype Devices = Devices(ram: Device, swaps: seq<Device>, active: nat)

  // The page table and the replacement list of one process. The list is kept
  // as the source keeps it, newest page first.
  datatype Space = Space(table: seq<Entry>, fifo: seq<nat>)

  datatype Local = Local(dev: Devices, space: Space)

  predicate Distinct(s: seq<nat>) {
    forall i, j :: 0 <= i < j < |s| ==> s[i] != s[j]
  }

  predicate FifoOk(s: Space, frames: nat) {
    && |s.table| == MAX_PGN
    && Distinct(s.fifo)
    && forall g :: g in s.fifo ==> g < MAX_PGN && s.table[g].Resident? && s.table[g].fpn < frames
  }

  // What the code relies on without checking: four swap devices, and a
  // replacement list that names resident pages.
  predicate Shape(l: Local) {
    && |l.dev.swaps| == MAX_SWP && l.dev.active < MAX_SWP
    && FifoOk(l.space, l.dev.ram.Frames())
  }

  // ---- copying one frame between devices (__swap_cp_page) -----------------

  // Writes beyond the end of the destination are refused cell by cell.
  function CopyFrame(src: seq<Byte>, sf: nat, dst: seq<Byte>, df: nat): (r: seq<Byte>)
    requires sf * PAGE + PAGE <= |src|
    ensures |r| == |dst|
  {
    seq(|dst|, j requires 0 <= j < |dst| =>
      if df * PAGE <= j < df * PAGE + PAGE then src[sf * PAGE + (j - df * PAGE)] else dst[j])
  }

  // ---- one iteration of alloc_pages_range (mm.c:143-209) --------------------

  function FirstFree(swaps: seq<Device>, i: nat): (t: nat)
    requires i <= |swaps|
    ensures i <= t <= |swaps|
    ensures t < |swaps| ==> swaps[t].free != []
    ensures forall u :: i <= u < t ==> swaps[u].free == []
    decreases |swaps| - i
  {
    if i == |swaps| || swaps[i].free != [] then i else FirstFree(swaps, i + 1)
  }

  // The active device if it has a free frame, else the first that has one;
  // MAX_SWP when none has.
  function PickSwap(dev: Devices): (t: nat)
    requires |dev.swaps| == MAX_SWP && dev.active < MAX_SWP
    ensures t <= MAX_SWP
    ensures t < MAX_SWP ==> dev.swaps[t].free != []
  {
    if dev.swaps[dev.active].free != [] then dev.active else FirstFree(dev.swaps, 0)
  }

  // Copy a RAM frame to the first free frame of swap device t and take it.
  function SwapOut(dev: Devices, frame: nat, t: nat): Devices
    requires t < |dev.swaps| && dev.swaps[t].free != []
    requires frame * PAGE + PAGE <= |dev.ram.bytes|
  {
    var s := dev.swaps[t];
    dev.(swaps := dev.swaps[t := Device(CopyFrame(dev.ram.bytes, frame, s.bytes, s.free[0]), s.free[1..])])
  }

  // What the two setters store: the fields drop the bits that do not fit.
  function FpnEntry(fpn: nat): Entry { Resident(fpn % FPN_LIMIT) }
  function SwapEntry(typ: nat, off: nat): Entry { Swapped(typ % TYP_LIMIT, off % OFF_LIMIT) }

  datatype Grab = Grab(l: Local, code: int, frame: nat)

  function GrabFrame(l: Local): Grab
    requires Shape(l)
  {
    var s := l.space;
    if l.dev.ram.free != [] then
      var free := l.dev.ram.free;
      Grab(l.(dev := l.dev.(ram := l.dev.ram.(free := free[1..]))), 0, free[0])
    else if s.fifo == [] then
      Grab(l, FAILED, 0)
    else
      var last := |s.fifo| - 1;
      var victim := s.fifo[last];
      assert victim in s.fifo;
      var frame := s.table[victim].fpn;
      var rest := s.fifo[..last];
      var t := PickSwap(l.dev);
      if t == MAX_SWP then
        Grab(l.(space := s.(fifo := rest)), NO_SWAP, frame)
      else
        var off := l.dev.swaps[t].free[0];
        Grab(Local(SwapOut(l.dev, frame, t), Space(s.table[victim := SwapEntry(t, off)], rest)), 0, frame)
  }

  lemma GrabShape(l: Local)
    requires Shape(l)
    ensures Shape(GrabFrame(l).l)
  {
    var s := l.space;
    if l.dev.ram.free == [] && s.fifo != [] {
      var rest := s.fifo[..|s.fifo| - 1];
      assert forall g :: g in rest ==> g in s.fifo && g != s.fifo[|s.fifo| - 1];
    }
  }

  // ---- alloc_pages_range: frames obtained so far, newest first --------------

  datatype Taken = Taken(l: Local, code: int, frames: seq<nat>)

  function AllocPages(l: Local, n: nat, got: seq<nat>): (r: Taken)
    requires Shape(l)
    ensures Shape(r.l)
    ensures r.code in {0, FAILED, NO_SWAP}
    ensures r.code == 0 ==> |r.frames| == n + |got|
    decreases n
  {
    if n == 0 then Taken(l, 0, got)
    else
      var g := GrabFrame(l);
      GrabShape(l);
      if g.code != 0 then Taken(g.l, g.code, got) else AllocPages(g.l, n - 1, [g.frame] + got)
  }

  // ---- vmap_page_range: page pgn + j gets the j-th frame of the list --------

  function MapOne(s: Space, pgn: nat, frame: nat): Space
    requires pgn < |s.table|
  {
    Space(s.table[pgn := FpnEntry(frame)], [pgn] + s.fifo)
  }

  function MapRange(s: Space, pgn: nat, frames: seq<nat>): (r: Space)
    requires pgn + |frames| <= |s.table|
    ensures |r.table| == |s.table|
    decreases |frames|
  {
    if frames == [] then s else MapRange(MapOne(s, pgn, frames[0]), pgn + 1, frames[1..])
  }

  lemma MapRangeStep(s: Space, pgn: nat, frames: seq<nat>, k: nat)
    requires k < |frames| && pgn + |frames| <= |s.table|
    ensures MapRange(s, pgn + k, frames[k..]) == MapRange(MapOne(s, pgn + k, frames[k]), pgn + k + 1, frames[k + 1..])
  {
    assert frames[k..][1..] == frames[k + 1..];
  }

  // ---- vm_map_ram -------------------------------------------------------------

  datatype Mapped = Mapped(l: Local, code: int)

  function MapRam(l: Local, pgn: nat, n: nat): Mapped
    requires Shape(l) && pgn + n <= MAX_PGN
  {
    var r := AllocPages(l, n, []);
    if r.code != 0 then Mapped(r.l, FAILED)
    else Mapped(r.l.(space := MapRange(r.l.space, pgn, r.frames)), 0)
  }
}

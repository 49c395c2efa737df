// One process in place: page table words, linked replacement list and shared
// devices. Each method is proved against the functions of Paging.dfy.
module Process {
  import opened Bits
  import opened Paging
  import opened PageTable
  import opened FifoList
  import opened FrameList
  import opened PageAccess
  import opened Regions
  import VmArea
  import Memphy

  class Memory {
    const mram: Memphy.Device
    const mswp: seq<Memphy.Device>
    const active: nat
    ghost const repr: set<FrameNode>   // the nodes of the free lists

    // The devices main hands to the loader (os.c:230-246).
    constructor (mram: Memphy.Device, mswp: seq<Memphy.Device>, active: nat)
      requires |mswp| == MAX_SWP && active < MAX_SWP
      requires forall t :: 0 <= t < MAX_SWP ==> mswp[t] != mram && mswp[t].storage != mram.storage
      requires forall t, u :: 0 <= t < u < MAX_SWP ==> mswp[t] != mswp[u] && mswp[t].storage != mswp[u].storage
      requires mram.Valid() && forall t :: 0 <= t < MAX_SWP ==> mswp[t].Valid()
      ensures Valid() && this.mram == mram && this.mswp == mswp && this.active == active
    {
      this.mram := mram;
      this.mswp := mswp;
      this.active := active;
      repr := mram.NodeSet() + set t, n | 0 <= t < |mswp| && n in mswp[t].NodeSet() :: n;
    }

    ghost predicate Apart() {
      && |mswp| == MAX_SWP && active < MAX_SWP
      && (forall t :: 0 <= t < MAX_SWP ==> mswp[t] != mram && mswp[t].storage != mram.storage)
      && (forall t, u :: 0 <= t < u < MAX_SWP ==> mswp[t] != mswp[u] && mswp[t].storage != mswp[u].storage)
    }

    // Frames are only ever taken from the free lists.
    ghost predicate Lists()
      reads mram, mswp, repr
    {
      && mram.NodeSet() <= repr && mram.Valid()
      && forall t :: 0 <= t < |mswp| ==> mswp[t].NodeSet() <= repr && mswp[t].Valid()
    }

    ghost predicate Valid()
      reads mram, mswp, repr
    {
      Apart() && Lists()
    }

    ghost function Cells(): set<object>
    {
      set t | 0 <= t < |mswp| :: mswp[t].storage
    }

    ghost function Swaps(): seq<Device>
      reads mswp, Cells()
    {
      seq(|mswp|, t requires 0 <= t < |mswp| reads mswp, Cells() => mswp[t].View())
    }

    ghost function View(): Devices
      reads mram, mram.storage, mswp, Cells()
    {
      Devices(mram.View(), Swaps(), active)
    }

    // Take the first free frame of swap device t and copy the RAM frame there;
    // -1 when the device has none.
    method CopyOut(frame: nat, t: nat) returns (swpfpn: int)
      requires Valid() && t < MAX_SWP && frame * PAGE + PAGE <= mram.storage.Length
      modifies mswp[t], mswp[t].storage
      ensures Valid()
      ensures var was := old(View());
              if was.swaps[t].free == [] then swpfpn == -1 && View() == was
              else swpfpn == was.swaps[t].free[0] < 0x8000_0000 && View() == SwapOut(was, frame, t)
    {
      ghost var was := View();
      var code, fpn := mswp[t].GetFreeFp();
      if code != 0 {
        assert Swaps() == was.swaps;
        return -1;
      }
      swpfpn := fpn;
      assert Lists();
      Memphy.SwapCopyPage(mram, frame, mswp[t], fpn);
      hide Lists;
      assert forall u :: 0 <= u < MAX_SWP && u != t ==> mswp[u].View() == was.swaps[u];
      assert Swaps() == SwapOut(was, frame, t).swaps;
    }

    // Copy a RAM frame over a frame of swap device t, free or not.
    method CopyAcross(frame: nat, t: nat, to: nat)
      requires Valid() && t < MAX_SWP && frame * PAGE + PAGE <= mram.storage.Length
      modifies mswp[t].storage
      ensures Valid() && View() == CopyOver(old(View()), frame, t, to)
    {
      ghost var was := View();
      Memphy.SwapCopyPage(mram, frame, mswp[t], to);
      assert forall u :: 0 <= u < MAX_SWP && u != t ==> mswp[u].View() == was.swaps[u];
      assert Swaps() == CopyOver(was, frame, t, to).swaps;
    }

    // Both copies of a fault, on the active device.
    method CopyTwice(frame: nat, other: nat) returns (swpfpn: int)
      requires Valid() && View().swaps[active].free != []
      requires frame * PAGE + PAGE <= mram.storage.Length && other * PAGE + PAGE <= mram.storage.Length
      modifies mswp[active], mswp[active].storage
      ensures Valid()
      ensures var was := old(View());
              && swpfpn == was.swaps[active].free[0] < 0x8000_0000
              && View() == CopyOver(SwapOut(was, frame, active), other, active, frame)
    {
      hide Lists, CopyFrame;
      swpfpn := CopyOut(frame, active);
      CopyAcross(other, active, frame);
    }

    // The swap half of an eviction: the active device first, then the first
    // device with a free frame; -1 when no device has one.
    method SwapFrameOut(frame: nat) returns (typ: nat, swpfpn: int)
      requires Valid() && frame * PAGE + PAGE <= mram.storage.Length
      modifies mswp, Cells()
      ensures Valid()
      ensures var t := PickSwap(old(View()));
              if t == MAX_SWP then swpfpn == -1 && View() == old(View())
              else typ == t && swpfpn == old(View()).swaps[t].free[0] < 0x8000_0000 && View() == SwapOut(old(View()), frame, t)
    {
      ghost var was := View();
      typ := 0;
      swpfpn := CopyOut(frame, active);
      if swpfpn != -1 {
        while typ < MAX_SWP
          invariant typ <= active
          decreases MAX_SWP - typ
        {
          if mswp[typ] == mswp[active] {
            break;
          }
          typ := typ + 1;
        }
      } else {
        while typ < MAX_SWP
          invariant typ <= MAX_SWP && swpfpn == -1
          invariant Valid() && View() == was
          invariant FirstFree(was.swaps, 0) == FirstFree(was.swaps, typ)
          decreases MAX_SWP - typ
        {
          swpfpn := CopyOut(frame, typ);
          if swpfpn != -1 {
            break;
          }
          typ := typ + 1;
        }
      }
    }
  }

  class Process {
    const mem: Memory
    const pgd: array<bv32>
    const fifo: PgnList
    const area: VmArea.Area

    ghost predicate Valid()
      reads mem.mram, mem.mswp, mem.repr, fifo, fifo.repr
    {
      && mem.Valid() && fifo.Valid() && pgd.Length == MAX_PGN
      && pgd as object !in mem.Cells() && pgd as object != mem.mram.storage
    }

    ghost function Space(): Paging.Space
      reads pgd, fifo
    {
      Paging.Space(Table(pgd[..]), fifo.View())
    }

    ghost function View(): Local
      reads mem.mram, mem.mram.storage, mem.mswp, mem.Cells(), pgd, fifo
    {
      Local(mem.View(), Space())
    }

    // init_mm: no page mapped, no page listed
    constructor (mem: Memory)
      requires mem.Valid()
      ensures Valid() && area.Valid() && this.mem == mem
      ensures fresh(pgd) && fresh(fifo) && fresh(area) && fresh(area.nodes)
      ensures Space() == Paging.Space(seq(MAX_PGN, _ => Absent(0)), [])
      ensures area.View() == InitArea(seq(SYMBOLS, _ => Region(0, 0)))
    {
      this.mem := mem;
      pgd := new bv32[MAX_PGN](_ => 0);
      fifo := new PgnList();
      area := new VmArea.Area(seq(SYMBOLS, _ => Region(0, 0)));
      new;
      assert Nat(GetVal(0, SWPOFF_MASK, 5)) == 0;
      assert Table(pgd[..]) == seq(MAX_PGN, _ => Absent(0));
    }

    // Copy the victim's frame to swap and point its entry there.
    method MoveOut(victim: nat) returns (code: int, frame: FrameNo)
      requires Valid() && victim < MAX_PGN && Space().table[victim].Resident?
      requires Space().table[victim].fpn * PAGE + PAGE <= mem.mram.storage.Length
      modifies pgd, mem.mswp, mem.Cells()
      ensures Valid()
      ensures var was := old(View()); var t := PickSwap(was.dev);
              && frame == was.space.table[victim].fpn
              && code == (if t == MAX_SWP then NO_SWAP else 0)
              && View() == if t == MAX_SWP then was
                 else Local(SwapOut(was.dev, frame, t),
                            was.space.(table := was.space.table[victim := SwapEntry(t, was.dev.swaps[t].free[0])]))
    {
      hide Memory.Lists, Decode, CopyFrame, SwapOut, SwapEntry, FirstFree;
      ghost var was := View();
      var _, fpn := Look(pgd, victim);
      frame := fpn;
      var typ, swpfpn := mem.SwapFrameOut(frame);
      assert Space() == was.space;
      if swpfpn == -1 {
        return NO_SWAP, frame;
      }
      ghost var out := mem.View();
      SetSwap(pgd, victim, typ, swpfpn);
      assert mem.View() == out;
      code := 0;
    }

    // The else branch of alloc_pages_range: take the frame of the oldest page.
    method Evict() returns (code: int, frame: FrameNo)
      requires Valid() && Shape(View()) && mem.mram.nodes == []
      modifies pgd, fifo, fifo.repr, mem.mswp, mem.Cells()
      ensures Valid() && fifo.repr == old(fifo.repr)
      ensures var g := GrabFrame(old(View())); code == g.code && View() == g.l && (code == 0 ==> frame == g.frame)
    {
      hide Memory.Lists, Decode, CopyFrame;
      ghost var was := View();
      frame := 0;
      var found, victim := fifo.FindVictim();
      if found < 0 {
        return FAILED, frame;
      }
      assert victim in was.space.fifo;
      assert Space() == was.space.(fifo := was.space.fifo[..|was.space.fifo| - 1]);
      assert mem.View() == was.dev;
      code, frame := MoveOut(victim);
    }

    // MEMPHY_get_freefp on RAM, as the first attempt of an iteration
    method PopFrame() returns (code: int, frame: FrameNo)
      requires Valid() && Shape(View())
      modifies mem.mram`freeList, mem.mram`nodes
      ensures Valid()
      ensures var g := GrabFrame(old(View()));
              if old(View()).dev.ram.free != [] then code == 0 == g.code && View() == g.l && frame == g.frame
              else code == FAILED && View() == old(View())
    {
      ghost var was := View();
      code, frame := mem.mram.GetFreeFp();
      assert mem.Swaps() == was.dev.swaps && Space() == was.space;
    }

    // The new node's link is set to the caller's list and then overwritten to
    // thread the node onto the used list.
    method ThreadTwice(list: FrameNode?, frame: FrameNo, ghost nodes: seq<FrameNode>, ghost got: seq<nat>)
      returns (head: FrameNode)
      requires Valid() && Threaded(list, nodes, got) && (list != null ==> mem.mram.used == list)
      modifies mem.mram`used
      ensures Valid() && mem.mram.used == head && View() == old(View())
      ensures Threaded(head, [head] + nodes, [frame] + got)
    {
      hide Decode, CopyFrame, Table;
      ghost var was := View();
      head := InFront(list, frame, nodes, got);
      head.next := mem.mram.used;
      mem.mram.used := head;
      assert View() == was;
    }

    // One iteration of alloc_pages_range: a frame from the RAM free list or from
    // an eviction goes to the front of the caller's list.
    method TakeFrame(list: FrameNode?, ghost nodes: seq<FrameNode>, ghost got: seq<nat>)
      returns (code: int, head: FrameNode?, ghost chain: seq<FrameNode>)
      requires Valid() && Shape(View()) && Threaded(list, nodes, got)
      requires mem.mram.nodes != [] && list != null ==> mem.mram.used == list
      modifies mem.mram, pgd, fifo, fifo.repr, mem.mswp, mem.Cells()
      ensures Valid() && fifo.repr == old(fifo.repr)
      ensures var g := GrabFrame(old(View()));
              && code == g.code && View() == g.l
              && (code == 0 ==> Threaded(head, chain, [g.frame] + got))
      ensures code == 0 && mem.mram.nodes != [] && head != null ==> mem.mram.used == head
    {
      hide Memory.Lists, GrabFrame, Decode;
      head, chain := list, nodes;
      var frame: FrameNo;
      code, frame := PopFrame();
      if code == 0 {
        var node := ThreadTwice(list, frame, nodes, got);
        head, chain := node, [node] + nodes;
      } else {
        code, frame := Evict();
        if code == 0 {
          head := InFront(list, frame, nodes, got);
          chain := [head] + nodes;
        }
      }
    }

    // alloc_pages_range: on success the first n nodes from the returned head hold
    // the frames obtained, newest first, whatever the used list leads on to.
    method AllocPagesRange(n: nat) returns (code: int, list: FrameNode?, ghost chain: seq<FrameNode>)
      requires Valid() && Shape(View())
      modifies mem.mram, pgd, fifo, fifo.repr, mem.mswp, mem.Cells()
      ensures Valid() && fifo.repr == old(fifo.repr)
      ensures var r := AllocPages(old(View()), n, []);
              code == r.code && View() == r.l && (code == 0 ==> Threaded(list, chain, r.frames))
    {
      hide Memory.Lists, GrabFrame, Decode, FifoOk;
      ghost var was := View();
      ghost var got := [];
      list, chain := null, [];
      for pgit := 0 to n
        invariant Valid() && Shape(View()) && Threaded(list, chain, got)
        invariant mem.mram.nodes != [] && list != null ==> mem.mram.used == list
        invariant fifo.repr == old(fifo.repr)
        invariant AllocPages(was, n, []) == AllocPages(View(), n - pgit, got)
      {
        ghost var before := View();
        GrabShape(before);
        code, list, chain := TakeFrame(list, chain, got);
        if code != 0 {
          return;
        }
        got := [GrabFrame(before).frame] + got;
      }
      code := 0;
    }

    // One page of vmap_page_range: set the entry, then list the page as newest.
    method MapPage(g: nat, fpn: FrameNo)
      requires Valid() && g < MAX_PGN
      modifies pgd, fifo
      ensures Valid() && fresh(fifo.repr - old(fifo.repr))
      ensures Space() == MapOne(old(Space()), g, fpn)
    {
      hide Memory.Lists, Decode, FpnEntry;
      SetFpn(pgd, g, fpn);
      fifo.Enlist(g);
    }

    // vmap_page_range: pages from the one of addr on get the frames of the list
    // in order. The link after the last frame is loaded but never followed.
    method VmapPageRange(addr: nat, pgnum: nat, frames: FrameNode?, ghost chain: seq<FrameNode>, ghost numbers: seq<nat>)
      requires Valid() && Threaded(frames, chain, numbers) && |numbers| == pgnum
      requires addr < WORD_LIMIT && Pgn(addr) + pgnum <= MAX_PGN
      modifies pgd, fifo
      ensures Valid() && fresh(fifo.repr - old(fifo.repr))
      ensures Space() == MapRange(old(Space()), Pgn(addr), numbers)
    {
      hide Memory.Lists, Decode, FpnEntry;
      var pgn, _ := Locate(addr);
      ghost var goal := MapRange(Space(), pgn, numbers);
      var fpit := frames;
      var pgit := 0;
      while pgit < pgnum && fpit != null
        invariant pgit <= pgnum && (pgit < pgnum ==> fpit == chain[pgit])
        invariant Valid() && fresh(fifo.repr - old(fifo.repr))
        invariant goal == MapRange(Space(), pgn + pgit, numbers[pgit..])
      {
        MapRangeStep(Space(), pgn, numbers, pgit);
        MapPage(pgn + pgit, fpit.fpn);
        pgit := pgit + 1;
        fpit := fpit.next;
      }
    }

    // vm_map_ram
    method VmMapRam(mapstart: nat, incpgnum: nat) returns (code: int)
      requires Valid() && Shape(View()) && mapstart < WORD_LIMIT && Pgn(mapstart) + incpgnum <= MAX_PGN
      modifies mem.mram, pgd, fifo, fifo.repr, mem.mswp, mem.Cells()
      ensures Valid() && fresh(fifo.repr - old(fifo.repr))
      ensures var r := MapRam(old(View()), Pgn(mapstart), incpgnum); code == r.code && View() == r.l
    {
      hide Memory.Lists;
      ghost var r := AllocPages(View(), incpgnum, []);
      var alloc, list, chain := AllocPagesRange(incpgnum);
      if alloc < 0 {
        return FAILED;
      }
      VmapPageRange(mapstart, incpgnum, list, chain, r.frames);
      assert mem.View() == r.l.dev;
      return 0;
    }

    // inc_vma_limit: the break moves whether or not the mapping succeeds.
    method IncVmaLimit(incSz: nat) returns (code: int)
      requires Valid() && Shape(View())
      requires area.vmEnd < WORD_LIMIT && Pgn(area.vmEnd) + Align(incSz) / PAGE <= MAX_PGN
      modifies area`vmEnd, area`sbrk, area`intact, mem.mram, pgd, fifo, fifo.repr, mem.mswp, mem.Cells()
      ensures Valid() && fresh(fifo.repr - old(fifo.repr))
      ensures area.vmEnd == old(area.vmEnd) + incSz && area.sbrk == old(area.sbrk) + incSz
      ensures area.intact == (old(area.intact) && code == 0)
      ensures var r := MapRam(old(View()), Pgn(old(area.vmEnd)), Align(incSz) / PAGE); code == r.code && View() == r.l
    {
      hide Memory.Lists, MapRam, FifoOk, Decode;
      var incAmt := (incSz + PAGE - 1) / PAGE * PAGE;
      var incNumPage := incAmt / PAGE;
      var oldEnd := area.vmEnd;
      area.vmEnd := area.vmEnd + incSz;
      area.sbrk := area.sbrk + incSz;
      code := VmMapRam(oldEnd, incNumPage);
      area.intact := area.intact && code == 0;
    }

    // The system call of __alloc, with a size that is rounded up already
    method GrowBreak(size: nat)
      requires Valid() && area.Valid() && Shape(View()) && size > 0
      requires area.vmEnd == area.sbrk && area.vmEnd % PAGE == 0 && area.vmEnd + Align(size) <= SPACE_LIMIT
      modifies area`vmEnd, area`sbrk, area`intact, mem.mram, pgd, fifo, fifo.repr, mem.mswp, mem.Cells()
      ensures Valid() && area.Valid() && fresh(fifo.repr - old(fifo.repr))
      ensures var r := MapRam(old(View()), old(area.vmEnd) / PAGE, Align(size) / PAGE);
              && View() == r.l && area.intact == (old(area.intact) && r.code == 0)
      ensures area.vmEnd == old(area.vmEnd) + Align(size) && area.sbrk == old(area.sbrk) + Align(size)
    {
      hide Memory.Lists, MapRam, FifoOk, Align, Decode, Shape, Pgn;
      AlignIdempotent(size);
      BreakPage(area.vmEnd, Align(size));
      var _ := IncVmaLimit(Align(size));
    }

    // The second half of __alloc. The system call always reports success, so the
    // symbol is bound even when no frame could be mapped behind it.
    method Grow(id: nat, size: nat) returns (addr: nat)
      requires Valid() && area.Valid() && Shape(View()) && id < |area.symbols| && size > 0
      requires area.vmEnd == area.sbrk && area.vmEnd % PAGE == 0 && area.vmEnd + Align(size) <= SPACE_LIMIT
      modifies area, mem.mram, pgd, fifo, fifo.repr, mem.mswp, mem.Cells()
      ensures Valid() && area.Valid() && area.nodes == old(area.nodes) && fresh(fifo.repr - old(fifo.repr))
      ensures var r := MapRam(old(View()), old(area.vmEnd) / PAGE, Align(size) / PAGE);
              && View() == r.l && area.View() == Grown(old(area.View()), id, size, r.code == 0)
              && addr == area.View().symbols[id].start
    {
      hide Memory.Lists, MapRam, FifoOk, Align, Decode, Shape, CopyFrame, Table;
      addr := area.sbrk;
      var incSz := Align(size);
      GrowBreak(size);
      ghost var now := View();
      area.BindSymbol(id, addr, addr + incSz);
      assert mem.View() == now.dev && Space() == now.space;
    }

    // __alloc
    method Alloc(id: nat, size: nat) returns (code: int, addr: nat)
      requires Valid() && area.Valid() && Shape(View()) && Allocatable(area.View(), id, size)
      requires area.vmEnd == area.sbrk && area.vmEnd % PAGE == 0
      modifies area, area.nodes, mem.mram, pgd, fifo, fifo.repr, mem.mswp, mem.Cells()
      ensures Valid() && area.Valid() && code == 0 && id < |area.symbols| && addr == area.symbols[id].start
      ensures Fits(old(area.free), size) ==> View() == old(View()) && area.View() == Reused(old(area.View()), id, size)
      ensures !Fits(old(area.free), size) ==>
        var r := MapRam(old(View()), old(area.vmEnd) / PAGE, Align(size) / PAGE);
        View() == r.l && area.View() == Grown(old(area.View()), id, size, r.code == 0)
    {
      hide Memory.Lists;
      code, addr := area.Reuse(id, size);
      if code != 0 {
        addr := Grow(id, size);
        code := 0;
      }
    }

    // The two copies of a fault and the victim's new entry.
    method TradePlaces(vicpgn: nat, tgtfpn: nat) returns (vicfpn: FrameNo)
      requires Valid() && vicpgn < MAX_PGN && Space().table[vicpgn].Resident?
      requires Space().table[vicpgn].fpn * PAGE + PAGE <= mem.mram.storage.Length
      requires tgtfpn * PAGE + PAGE <= mem.mram.storage.Length && View().dev.swaps[mem.active].free != []
      modifies pgd, mem.mswp, mem.Cells()
      ensures Valid() && old(Space().table[vicpgn]) == Resident(vicfpn)
      ensures var was := old(View()); var t := mem.active;
              && mem.View() == CopyOver(SwapOut(was.dev, vicfpn, t), tgtfpn, t, vicfpn)
              && Space() == was.space.(table := was.space.table[vicpgn := SwapEntry(t, was.dev.swaps[t].free[0])])
    {
      hide Memory.Lists, Decode, CopyFrame, SwapEntry, SwapOut, CopyOver;
      var _, fpn := Look(pgd, vicpgn);
      vicfpn := fpn;
      ghost var was := Space();
      var swpfpn := mem.CopyTwice(vicfpn, tgtfpn);
      assert Space() == was;
      ghost var now := mem.View();
      SetSwap(pgd, vicpgn, mem.active, swpfpn);
      assert mem.View() == now;
    }

    // Make room for an absent page with the frame of the oldest one.
    method Vacate(tgtfpn: nat) returns (vicfpn: FrameNo)
      requires Valid() && Shape(View()) && Space().fifo != [] && tgtfpn < View().dev.ram.Frames()
      requires View().dev.swaps[mem.active].free != []
      modifies pgd, fifo, fifo.repr, mem.mswp, mem.Cells()
      ensures Valid() && fifo.repr == old(fifo.repr)
      ensures var was := old(View()); var s := was.space; var t := mem.active;
              var victim := s.fifo[|s.fifo| - 1];
              && victim < |s.table| && s.table[victim] == Resident(vicfpn)
              && vicfpn * PAGE + PAGE <= |was.dev.ram.bytes|
              && mem.View() == CopyOver(SwapOut(was.dev, vicfpn, t), tgtfpn, t, vicfpn)
              && Space() == Paging.Space(s.table[victim := SwapEntry(t, was.dev.swaps[t].free[0])], s.fifo[..|s.fifo| - 1])
    {
      hide Memory.Lists, Decode, CopyFrame, FpnEntry, SwapEntry, SwapOut, CopyOver;
      ghost var was := View();
      var _, vicpgn := fifo.FindVictim();
      assert vicpgn in was.space.fifo;
      assert mem.View() == was.dev && Space().table == was.space.table;
      vicfpn := TradePlaces(vicpgn, tgtfpn);
    }

    // The fault path of pg_getpage: the absent page goes into that frame.
    method Fetch(pgn: nat)
      requires Valid() && CanFault(View(), pgn)
      modifies pgd, fifo, fifo.repr, mem.mswp, mem.Cells()
      ensures Valid() && View() == Fault(old(View()), pgn)
    {
      hide Memory.Lists, Decode, CopyFrame, FpnEntry, SwapEntry, SwapOut, CopyOver, Table, FifoOk;
      var tgtfpn := SwapOffset(pgd, pgn);
      var vicfpn := Vacate(tgtfpn);
      ghost var now := mem.View();
      MapPage(pgn, vicfpn);
      assert mem.View() == now;
    }

    // pg_getpage
    method GetPage(pgn: nat) returns (fpn: FrameNo)
      requires Valid() && Gettable(View(), pgn)
      modifies pgd, fifo, fifo.repr, mem.mswp, mem.Cells()
      ensures Valid() && View() == Present(old(View()), pgn)
      ensures fpn == FpnField(View().space.table[pgn])
    {
      hide Memory.Lists, Fault, CanFault, FpnField, Decode;
      var present, frame := Look(pgd, pgn);
      if !present {
        FaultedResident(View(), pgn);
        Fetch(pgn);
        present, frame := Look(pgd, pgn);
      }
      fpn := frame;
    }

    // SYSMEM_IO_READ: the result code of the device is dropped.
    method FromRam(phyaddr: nat) returns (code: int, data: Byte)
      ensures code == 0 && View() == old(View())
      ensures phyaddr < |View().dev.ram.bytes| ==> data == View().dev.ram.bytes[phyaddr]
    {
      hide Memory.Lists;
      code, data := mem.mram.Read(phyaddr);
      assert View() == old(View());
      code := 0;
    }

    // SYSMEM_IO_WRITE, its result code dropped likewise
    method ToRam(phyaddr: nat, value: Byte) returns (code: int)
      requires Valid()
      modifies mem.mram.storage
      ensures Valid() && code == 0
      ensures var was := old(View()); var ram := was.dev.ram;
              View() == if phyaddr < |ram.bytes| then was.(dev := was.dev.(ram := ram.(bytes := ram.bytes[phyaddr := value])))
                        else was
    {
      hide Memory.Lists;
      ghost var was := View();
      code := mem.mram.Write(phyaddr, value);
      assert mem.Swaps() == was.dev.swaps && Space() == was.space;
      code := 0;
    }

    // pg_getval: the byte is whatever RAM holds at the address, or unset when
    // the address is outside RAM
    method ReadByte(addr: nat) returns (code: int, data: Byte)
      requires Valid() && addr < WORD_LIMIT && Gettable(View(), Pgn(addr))
      modifies pgd, fifo, fifo.repr, mem.mswp, mem.Cells()
      ensures var l := Present(old(View()), Pgn(addr));
              && Valid() && code == 0 && View() == l
              && (LoadAt(l, addr).Some? ==> data == LoadAt(l, addr).value)
    {
      hide Memory.Lists, Fault, CanFault, FpnField, Decode;
      var pgn, off := Locate(addr);
      var fpn := GetPage(pgn);
      code, data := FromRam(fpn * PAGE + off);
    }

    // pg_setval
    method WriteByte(addr: nat, value: Byte) returns (code: int)
      requires Valid() && addr < WORD_LIMIT && Gettable(View(), Pgn(addr))
      modifies mem.mram.storage, pgd, fifo, fifo.repr, mem.mswp, mem.Cells()
      ensures Valid() && code == 0
      ensures View() == StoreAt(Present(old(View()), Pgn(addr)), addr, value)
    {
      hide Memory.Lists, Fault, CanFault, FpnField, Decode;
      var pgn, off := Locate(addr);
      var fpn := GetPage(pgn);
      code := ToRam(fpn * PAGE + off, value);
    }

    // __read and __write: the address is the symbol's start plus the offset,
    // with no test against its end. A symbol number outside the table is refused
    // (30, one past the table, is let through by the source and excluded here).
    method Read(id: int, offset: nat) returns (code: int, data: Byte)
      requires Valid() && |area.symbols| == SYMBOLS && id != SYMBOLS
      requires 0 <= id < SYMBOLS ==>
        var addr := area.symbols[id].start + offset; addr < WORD_LIMIT && Gettable(View(), Pgn(addr))
      modifies pgd, fifo, fifo.repr, mem.mswp, mem.Cells()
      ensures Valid() && code == (if 0 <= id < SYMBOLS then 0 else FAILED)
      ensures 0 <= id < SYMBOLS ==>
        var addr := area.symbols[id].start + offset; var l := Present(old(View()), Pgn(addr));
        View() == l && (LoadAt(l, addr).Some? ==> data == LoadAt(l, addr).value)
      ensures !(0 <= id < SYMBOLS) ==> View() == old(View())
    {
      hide Memory.Lists, Present, Gettable, LoadAt, Pgn, Offst;
      if id < 0 || id > SYMBOLS {
        return FAILED, 0;
      }
      code, data := ReadByte(area.symbols[id].start + offset);
    }

    method Write(id: int, offset: nat, value: Byte) returns (code: int)
      requires Valid() && |area.symbols| == SYMBOLS && id != SYMBOLS
      requires 0 <= id < SYMBOLS ==>
        var addr := area.symbols[id].start + offset; addr < WORD_LIMIT && Gettable(View(), Pgn(addr))
      modifies mem.mram.storage, pgd, fifo, fifo.repr, mem.mswp, mem.Cells()
      ensures Valid() && code == (if 0 <= id < SYMBOLS then 0 else FAILED)
      ensures 0 <= id < SYMBOLS ==>
        var addr := area.symbols[id].start + offset;
        View() == StoreAt(Present(old(View()), Pgn(addr)), addr, value)
      ensures !(0 <= id < SYMBOLS) ==> View() == old(View())
    {
      hide Memory.Lists, Present, Gettable, StoreAt, Pgn, Offst;
      if id < 0 || id > SYMBOLS {
        return FAILED;
      }
      code := WriteByte(area.symbols[id].start + offset, value);
    }
  }

  lemma BreakPage(vmEnd: nat, inc: nat)
    requires vmEnd + inc <= SPACE_LIMIT && inc % PAGE == 0 && vmEnd % PAGE == 0
    requires inc > 0
    ensures vmEnd < WORD_LIMIT && Pgn(vmEnd) == vmEnd / PAGE
    ensures Pgn(vmEnd) + inc / PAGE <= MAX_PGN
  {
  }
}

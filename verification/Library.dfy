// liballoc, libfree, libread and libwrite (libmem.c:164-204, 420-486): each call
// on one process takes the system of all processes one step further.
module Library {
  import opened Options
  import opened Bits
  import opened Paging
  import opened FrameSafety
  import opened PageAccess
  import opened Regions
  import opened System
  import opened FlatMemory
  import opened Process

  // Process number p of the system is the one that the object holds.
  ghost predicate Represents(s: Sys, p: nat, proc: Process)
    reads proc.mem.mram, proc.mem.mram.storage, proc.mem.mswp, proc.mem.Cells(), proc.pgd, proc.fifo, proc.area
  {
    && p < |s.areas| == |s.m.spaces|
    && proc.View() == LocalOf(s.m, p) && proc.area.View() == s.areas[p]
  }

  // ---- the steps as changes to one process -------------------------------------------

  lemma AllocLocal(s: Sys, p: nat, id: nat, size: nat)
    requires SysInv(s) && Defined(s, Alloc(p, id, size))
    ensures Shape(LocalOf(s.m, p)) && s.areas[p].vmEnd == s.areas[p].sbrk && s.areas[p].vmEnd % PAGE == 0
    ensures Allocatable(s.areas[p], id, size)
    ensures var n := Step(s, Alloc(p, id, size)); var a := s.areas[p];
            && p < |n.areas| == |n.m.spaces|
            && (Fits(a.free, size) ==> LocalOf(n.m, p) == LocalOf(s.m, p) && n.areas[p] == Reused(a, id, size))
            && (!Fits(a.free, size) ==>
                  a.vmEnd / PAGE + Align(size) / PAGE <= MAX_PGN
                  && var r := MapRam(LocalOf(s.m, p), a.vmEnd / PAGE, Align(size) / PAGE);
                     LocalOf(n.m, p) == r.l && n.areas[p] == Grown(a, id, size, r.code == 0))
  {
    assert AreaOk(s.areas[p]);
    if !Fits(s.areas[p].free, size) {
      GrowthFits(s, p, id, size);
    }
  }

  lemma ReadLocal(s: Sys, p: nat, id: nat, off: nat)
    requires SysInv(s) && Defined(s, Read(p, id, off))
    ensures |s.areas[p].symbols| == SYMBOLS && id < SYMBOLS
    ensures var n := Step(s, Read(p, id, off)); var addr := Addr(s, p, id, off);
            && p < |n.areas| == |n.m.spaces| && n.areas == s.areas && Gettable(LocalOf(s.m, p), Pgn(addr))
            && LocalOf(n.m, p) == Present(LocalOf(s.m, p), Pgn(addr))
            && InM(n.m, p, Pgn(addr)) && Output(n, p, id, off) == LoadAt(LocalOf(n.m, p), addr)
  {
    assert AreaOk(s.areas[p]);
    FetchedInv(s.m, p, Addr(s, p, id, off));
  }

  lemma WriteLocal(s: Sys, p: nat, id: nat, off: nat, v: Byte)
    requires SysInv(s) && Defined(s, Write(p, id, off, v))
    ensures |s.areas[p].symbols| == SYMBOLS && id < SYMBOLS
    ensures var n := Step(s, Write(p, id, off, v)); var addr := Addr(s, p, id, off);
            && p < |n.areas| == |n.m.spaces| && n.areas == s.areas && Gettable(LocalOf(s.m, p), Pgn(addr))
            && LocalOf(n.m, p) == StoreAt(Present(LocalOf(s.m, p), Pgn(addr)), addr, v)
  {
    assert AreaOk(s.areas[p]);
    FetchedInv(s.m, p, Addr(s, p, id, off));
  }

  // ---- the calls ------------------------------------------------------------------

  method LibAlloc(proc: Process, size: nat, id: nat, ghost s: Sys, ghost p: nat) returns (val: int)
    requires proc.Valid() && proc.area.Valid() && SysInv(s) && Represents(s, p, proc)
    requires Defined(s, Alloc(p, id, size))
    modifies proc.area, proc.area.nodes, proc.mem.mram, proc.pgd, proc.fifo, proc.fifo.repr, proc.mem.mswp, proc.mem.Cells()
    ensures proc.Valid() && proc.area.Valid() && val == 0
    ensures Represents(Step(s, Alloc(p, id, size)), p, proc)
  {
    hide Step, Defined, SysInv, MapRam, Reused, Grown, Memory.Lists;
    AllocLocal(s, p, id, size);
    var _, _ := proc.Alloc(id, size);
    val := 0;
  }

  method LibFree(proc: Process, id: nat, ghost s: Sys, ghost p: nat) returns (val: int)
    requires proc.Valid() && proc.area.Valid() && SysInv(s) && Represents(s, p, proc)
    requires Defined(s, Free(p, id))
    modifies proc.area
    ensures proc.Valid() && proc.area.Valid() && val == 0
    ensures Represents(Step(s, Free(p, id)), p, proc)
  {
    assert AreaOk(s.areas[p]);
    ghost var was := proc.View();
    val := proc.area.Free(id);
    assert proc.View() == was;
  }

  method LibRead(proc: Process, id: nat, offset: nat, ghost s: Sys, ghost p: nat) returns (val: int, data: Byte)
    requires proc.Valid() && SysInv(s) && Represents(s, p, proc)
    requires Defined(s, Read(p, id, offset)) && Addr(s, p, id, offset) < WORD_LIMIT
    modifies proc.pgd, proc.fifo, proc.fifo.repr, proc.mem.mswp, proc.mem.Cells()
    ensures proc.Valid() && val == 0
    ensures var n := Step(s, Read(p, id, offset));
            && Represents(n, p, proc) && HasSymbol(n, p, id) && InM(n.m, p, Pgn(Addr(n, p, id, offset)))
            && (Output(n, p, id, offset).Some? ==> data == Output(n, p, id, offset).value)
  {
    hide Step, Defined, SysInv, Present, Gettable, LoadAt, Output, Memory.Lists;
    ReadLocal(s, p, id, offset);
    val, data := proc.Read(id, offset);
  }

  method LibWrite(proc: Process, data: Byte, id: nat, offset: nat, ghost s: Sys, ghost p: nat) returns (val: int)
    requires proc.Valid() && SysInv(s) && Represents(s, p, proc)
    requires Defined(s, Write(p, id, offset, data)) && Addr(s, p, id, offset) < WORD_LIMIT
    modifies proc.mem.mram.storage, proc.pgd, proc.fifo, proc.fifo.repr, proc.mem.mswp, proc.mem.Cells()
    ensures proc.Valid() && val == 0
    ensures Represents(Step(s, Write(p, id, offset, data)), p, proc)
  {
    hide Step, Defined, SysInv, Present, Gettable, StoreAt, Memory.Lists;
    WriteLocal(s, p, id, offset, data);
    val := proc.Write(id, offset, data);
  }
}

// The region allocator of one process (libmem.c:33-157, 562-595) and the break
// (mm-vm.c:106-132), without the frames: free list, symbol table and break.
module Regions {
  import opened Bits

  const SYMBOLS: nat := 30              // PAGING_MAX_SYMTBL_SZ
  const SPACE_LIMIT: nat := 4194304     // 2^22, MAX_PGN pages

  // As stored in the symbol table and the free list. The bytes a region can
  // count on are those in [start, end).
  datatype Region = Region(start: nat, end: nat)

  // live: the symbols allocated and not freed since (a history; the code keeps
  // a freed symbol's entry). intact: every mapping behind the break succeeded.
  datatype Area = Area(
    vmEnd: nat, sbrk: nat, free: seq<Region>, symbols: seq<Region>, live: set<nat>, intact: bool)

  // PAGING_PAGE_ALIGNSZ
  function Align(size: nat): (n: nat)
    ensures n % PAGE == 0 && size <= n < size + PAGE
  {
    (size + PAGE - 1) / PAGE * PAGE
  }

  lemma AlignIdempotent(size: nat)
    ensures Align(Align(size)) == Align(size)
  {
  }

  // ---- get_free_vmrg_area: only the head of the list is ever considered --------

  predicate Fits(free: seq<Region>, size: nat) {
    free != [] && free[0].start <= free[0].end && size <= free[0].end - free[0].start + 1
  }

  function TakenRegion(free: seq<Region>, size: nat): Region
    requires size > 0 && Fits(free, size)
  {
    Region(free[0].start, free[0].start + size - 1)
  }

  function AfterTake(free: seq<Region>, size: nat): seq<Region>
    requires size > 0 && Fits(free, size)
  {
    if free[0].end - free[0].start + 1 > size then free[0 := Region(free[0].start + size, free[0].end)]
    else free[1..]
  }

  // ---- __alloc and __free --------------------------------------------------------

  predicate Allocatable(a: Area, id: nat, size: nat) {
    id < |a.symbols| && size > 0 && (Fits(a.free, size) || a.sbrk + Align(size) <= SPACE_LIMIT)
  }

  function Bind(a: Area, id: nat, r: Region): Area
    requires id < |a.symbols|
  {
    a.(symbols := a.symbols[id := r], live := a.live + {id})
  }

  // ok: whether the frames behind a larger break could be mapped. The code
  // moves the break and binds the symbol either way.
  function Grown(a: Area, id: nat, size: nat, ok: bool): Area
    requires id < |a.symbols|
  {
    var inc := Align(size);
    Bind(a.(vmEnd := a.vmEnd + inc, sbrk := a.sbrk + inc, intact := a.intact && ok), id,
         Region(a.sbrk, a.sbrk + inc))
  }

  function Reused(a: Area, id: nat, size: nat): Area
    requires id < |a.symbols| && size > 0 && Fits(a.free, size)
  {
    Bind(a.(free := AfterTake(a.free, size)), id, TakenRegion(a.free, size))
  }

  function AllocArea(a: Area, id: nat, size: nat, ok: bool): Area
    requires Allocatable(a, id, size)
  {
    if Fits(a.free, size) then Reused(a, id, size) else Grown(a, id, size, ok)
  }

  function FreeArea(a: Area, id: nat): Area
    requires id < |a.symbols|
  {
    var r := a.symbols[id];
    a.(free := if r.start >= r.end then a.free else [r] + a.free, live := a.live - {id})
  }

  // init_mm: an empty area whose free list holds the region [0, 0].
  function InitArea(symbols: seq<Region>): Area {
    Area(0, 0, [Region(0, 0)], symbols, {}, true)
  }

  // ---- regions never overlap -----------------------------------------------------

  predicate In(r: Region, addr: nat) { r.start <= addr < r.end }

  predicate Apart(r: Region, s: Region) {
    r.start >= r.end || s.start >= s.end || r.end <= s.start || s.end <= r.start
  }

  lemma ApartMeansNoSharedByte(r: Region, s: Region)
    ensures Apart(r, s) <==> forall a :: !(In(r, a) && In(s, a))
  {
    var a := if r.start <= s.start then s.start else r.start;
    if !Apart(r, s) {
      assert In(r, a) && In(s, a);
    }
  }

  predicate Below(r: Region, limit: nat) { r.start <= r.end <= limit }

  ghost predicate AreaOk(a: Area) {
    && a.vmEnd == a.sbrk <= SPACE_LIMIT && a.sbrk % PAGE == 0
    && |a.symbols| == SYMBOLS && (forall i :: i in a.live ==> i < SYMBOLS)
    && (forall k :: 0 <= k < |a.free| ==> Below(a.free[k], a.sbrk))
    && (forall i :: i in a.live ==> Below(a.symbols[i], a.sbrk))
    && (forall j, k :: 0 <= j < k < |a.free| ==> Apart(a.free[j], a.free[k]))
    && (forall i, j :: i in a.live && j in a.live && i != j ==> Apart(a.symbols[i], a.symbols[j]))
    && (forall i, k :: i in a.live && 0 <= k < |a.free| ==> Apart(a.symbols[i], a.free[k]))
  }

  lemma InitAreaOk(symbols: seq<Region>)
    requires |symbols| == SYMBOLS
    ensures AreaOk(InitArea(symbols))
  {
  }

  lemma ReusedOk(a: Area, id: nat, size: nat)
    requires AreaOk(a) && id < SYMBOLS && size > 0 && Fits(a.free, size)
    ensures AreaOk(Reused(a, id, size))
  {
    var b := Reused(a, id, size);
    var head := a.free[0];
    if |b.free| == |a.free| {
      assert forall k :: 0 < k < |a.free| ==> b.free[k] == a.free[k] && Apart(head, a.free[k]);
    } else {
      assert forall k :: 0 <= k < |b.free| ==> b.free[k] == a.free[k + 1] && Apart(head, a.free[k + 1]);
    }
    assert forall i :: i in a.live ==> Apart(a.symbols[i], head);
  }

  lemma GrownOk(a: Area, id: nat, size: nat, ok: bool)
    requires AreaOk(a) && id < SYMBOLS && size > 0 && a.sbrk + Align(size) <= SPACE_LIMIT
    ensures AreaOk(Grown(a, id, size, ok))
  {
    var b := Grown(a, id, size, ok);
    assert forall i :: i in b.live && i != id ==> b.symbols[i] == a.symbols[i];
  }

  // Every allocation keeps live and free regions apart and below the break,
  // whether or not the frames behind it could be mapped.
  lemma AllocAreaOk(a: Area, id: nat, size: nat, ok: bool)
    requires AreaOk(a) && Allocatable(a, id, size)
    ensures AreaOk(AllocArea(a, id, size, ok))
  {
    if Fits(a.free, size) {
      ReusedOk(a, id, size);
    } else {
      GrownOk(a, id, size, ok);
    }
  }

  lemma FreeAreaOk(a: Area, id: nat)
    requires AreaOk(a) && id in a.live
    ensures AreaOk(FreeArea(a, id))
  {
    var b := FreeArea(a, id);
    if |b.free| > |a.free| {
      assert forall k :: 0 < k < |b.free| ==> b.free[k] == a.free[k - 1];
    }
  }

  // A freed region is served first: the next request gets its start if and only
  // if it is large enough by its inclusive size. A larger request is not served
  // from the list at all, whatever lies behind.
  lemma FreedServedFirst(a: Area, id: nat, jd: nat, size: nat, ok: bool)
    requires AreaOk(a) && id in a.live && a.symbols[id].start < a.symbols[id].end
    requires Allocatable(FreeArea(a, id), jd, size)
    ensures var r := a.symbols[id]; var b := FreeArea(a, id);
            && (Fits(b.free, size) <==> size <= r.end - r.start + 1)
            && (AllocArea(b, jd, size, ok).symbols[jd].start == r.start <==> size <= r.end - r.start + 1)
            && (size > r.end - r.start + 1 ==> AllocArea(b, jd, size, ok).free == b.free)
  {
    var b := FreeArea(a, id);
    assert b.free[0] == a.symbols[id];
    assert Below(a.symbols[id], a.sbrk);
  }

  // The addresses of a region on the free list, both ends included.
  predicate Holds(r: Region, addr: nat) { r.start <= addr <= r.end }

  // Taking size bytes divides the head between the request, which gets its first
  // addresses, and the list, which keeps the others; the rest of the list is kept.
  lemma TakeDivides(free: seq<Region>, size: nat)
    requires size > 0 && Fits(free, size)
    ensures var taken, rest := TakenRegion(free, size), AfterTake(free, size);
            var more := free[0].end - free[0].start + 1 > size;
            && taken.start == free[0].start && taken.end - taken.start + 1 == size
            && (more ==> rest != [] && rest[1..] == free[1..])
            && (!more ==> rest == free[1..])
            && forall addr: nat :: Holds(free[0], addr) <==>
                 Holds(taken, addr) || (more && Holds(rest[0], addr))
  {
  }

  // After a request of m bytes has been split off the head, one of k bytes is
  // served from the list, right behind the first, if and only if both together
  // fit in the head.
  lemma SplitServesNext(a: Area, id: nat, m: nat, jd: nat, k: nat, ok: bool)
    requires AreaOk(a) && id < SYMBOLS && m > 0 && Fits(a.free, m) && k > 0
    requires m < a.free[0].end - a.free[0].start + 1
    requires Allocatable(AllocArea(a, id, m, ok), jd, k)
    ensures var head := a.free[0]; var b := AllocArea(a, id, m, ok); var c := AllocArea(b, jd, k, ok);
            && b.symbols[id].start == head.start
            && (Fits(b.free, k) <==> m + k <= head.end - head.start + 1)
            && (m + k <= head.end - head.start + 1 ==>
                  c.symbols[jd] == Region(head.start + m, head.start + m + k - 1) && c.sbrk == a.sbrk)
            && b.free != [] && b.free[1..] == a.free[1..]
            && (m + k == head.end - head.start + 1 ==> c.free == a.free[1..])
  {
    assert Below(a.free[0], a.sbrk);
  }

  // An exact fit unlinks the head: the next request is tried on the old second.
  lemma ExactFitUnlinks(a: Area, id: nat, m: nat, k: nat, ok: bool)
    requires AreaOk(a) && id < SYMBOLS && m > 0 && Fits(a.free, m) && k > 0
    requires m == a.free[0].end - a.free[0].start + 1
    ensures var b := AllocArea(a, id, m, ok);
            && b.free == a.free[1..] && b.symbols[id] == a.free[0]
            && (Fits(b.free, k) <==> |a.free| > 1 && Fits([a.free[1]], k))
  {
  }

  // A region of one byte from the list is empty by its stored range, so that
  // freeing it loses it.
  lemma OneByteIsLost(a: Area, id: nat, ok: bool)
    requires AreaOk(a) && id < SYMBOLS && Fits(a.free, 1)
    ensures var b := AllocArea(a, id, 1, ok); FreeArea(b, id).free == b.free
  {
  }

  // The first request of a process is served from the list if and only if it is
  // for one byte; then the break does not move and no page lies behind it.
  lemma FirstRequest(symbols: seq<Region>, id: nat, size: nat, ok: bool)
    requires |symbols| == SYMBOLS && Allocatable(InitArea(symbols), id, size)
    ensures var b := AllocArea(InitArea(symbols), id, size, ok);
            && (Fits(InitArea(symbols).free, size) <==> size == 1)
            && b.symbols[id].start == 0 && (b.sbrk == 0 <==> size == 1)
  {
  }

  // ---- where growth puts a region -----------------------------------------------

  // A request not served from the list gets exactly the addresses between the old
  // break and the new, from a page boundary on.
  lemma GrownIsNewRange(a: Area, id: nat, size: nat, ok: bool)
    requires AreaOk(a) && Allocatable(a, id, size) && !Fits(a.free, size)
    ensures var n := AllocArea(a, id, size, ok); var r := n.symbols[id];
            && r.start == a.sbrk && r.start % PAGE == 0 && r.end == n.sbrk == a.sbrk + Align(size)
            && n.free == a.free
            && forall addr: nat :: In(r, addr) <==> a.sbrk <= addr < n.sbrk
  {
  }

  // ---- how much of a request is protected ------------------------------------

  // The range [start, end) covers the requested bytes exactly when the break
  // grew; a region from the free list ends one byte early.
  lemma CoversRequestIffGrown(a: Area, id: nat, size: nat, ok: bool)
    requires AreaOk(a) && Allocatable(a, id, size)
    ensures var r := AllocArea(a, id, size, ok).symbols[id];
            && (r.end - r.start >= size <==> !Fits(a.free, size))
            && r.end - r.start >= size - 1
  {
  }

  // That byte can belong to another region: two pages allocated, the first
  // freed and reused for 257 bytes, and the last of these is the second's first.
  lemma LastByteCanBeShared(symbols: seq<Region>)
    requires |symbols| == SYMBOLS
    ensures
      var a := InitArea(symbols);
      && Allocatable(a, 0, 256)
      && var b := AllocArea(a, 0, 256, true);
      && Allocatable(b, 1, 256)
      && var c := AllocArea(b, 1, 256, true);
      && 0 in c.live
      && var d := FreeArea(c, 0);
      && Allocatable(d, 2, 257)
      && var e := AllocArea(d, 2, 257, true);
      && 1 in e.live && 2 in e.live
      && In(e.symbols[1], e.symbols[2].start + 256)
  {
    assert Align(256) == 256;
    var a := InitArea(symbols);
    assert !Fits(a.free, 256);
    var b := AllocArea(a, 0, 256, true);
    var c := AllocArea(b, 1, 256, true);
    assert c.symbols[0] == Region(0, 256) && c.symbols[1] == Region(256, 512);
    var d := FreeArea(c, 0);
    assert d.free == [Region(0, 256), Region(0, 0)];
  }
}

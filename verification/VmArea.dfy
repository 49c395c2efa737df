// The memory area of one process in place: break, free-region list and symbol
// table (libmem.c:33-157, 562-595), proved against Regions.dfy.
module VmArea {
  import opened Regions

  // struct vm_rg_struct, as a node of the free-region list
  class RegionNode {
    var start: nat
    var end: nat
    var next: RegionNode?

    constructor (start: nat, end: nat, next: RegionNode?)
      ensures this.start == start && this.end == end && this.next == next
    {
      this.start, this.end, this.next := start, end, next;
    }
  }

  class Area {
    var vmEnd: nat
    var sbrk: nat
    var freeList: RegionNode?
    var symbols: seq<Region>      // the fixed table, indexed by symbol
    ghost var nodes: seq<RegionNode>
    ghost var free: seq<Region>   // what the nodes hold
    ghost var live: set<nat>
    ghost var intact: bool

    ghost predicate Valid()
      reads this, nodes
    {
      && |nodes| == |free|
      && (freeList == null <==> nodes == [])
      && (nodes != [] ==> freeList == nodes[0] && nodes[|nodes| - 1].next == null)
      && (forall i :: 0 <= i < |nodes| - 1 ==> nodes[i].next == nodes[i + 1])
      && (forall i :: 0 <= i < |nodes| ==> free[i] == Region(nodes[i].start, nodes[i].end))
      && (forall i, j :: 0 <= i < j < |nodes| ==> nodes[i] != nodes[j])
    }

    ghost function View(): Regions.Area
      reads this
    {
      Regions.Area(vmEnd, sbrk, free, symbols, live, intact)
    }

    // init_mm: the free list starts with the region [0, 0]
    constructor (symbols: seq<Region>)
      ensures Valid() && View() == InitArea(symbols) && fresh(nodes)
    {
      this.symbols := symbols;
      vmEnd, sbrk := 0, 0;
      var first := new RegionNode(0, 0, null);
      freeList := first;
      nodes, free := [first], [Region(0, 0)];
      live, intact := {}, true;
    }

    // get_free_vmrg_area. The walk in the source gives up at the first region
    // that is too small and stops at the first that is not, so that it never
    // reaches a second one.
    method GetFreeArea(size: nat) returns (code: int, start: nat, end: nat)
      requires Valid() && size > 0
      modifies this`freeList, this`nodes, this`free, nodes
      ensures Valid() && (nodes == old(nodes) || (old(nodes) != [] && nodes == old(nodes)[1..]))
      ensures code == (if Fits(old(free), size) then 0 else -1)
      ensures code == 0 ==> Region(start, end) == TakenRegion(old(free), size) && free == AfterTake(old(free), size)
      ensures code != 0 ==> free == old(free)
    {
      start, end := 0, 0;
      var curr := freeList;
      if curr == null {
        return -1, start, end;
      }
      assert |nodes| > 1 ==> nodes[0].next == nodes[1];
      var freesize := curr.end - curr.start + 1;
      if freesize < size || curr.start > curr.end {
        return -1, start, end;
      }
      start, end := curr.start, curr.start + size - 1;
      if freesize > size {
        curr.start := curr.start + size;
        free := free[0 := Region(curr.start, curr.end)];
      } else {
        freeList := curr.next;
        nodes, free := nodes[1..], free[1..];
      }
      code := 0;
    }

    // enlist_vm_freerg_list: the node goes in front; an empty region is refused.
    // On an empty list the node's link stays as it is.
    method EnlistFree(node: RegionNode) returns (code: int)
      requires Valid() && node.next == null && node !in nodes
      modifies this`freeList, this`nodes, this`free, node
      ensures Valid() && code == (if node.start >= node.end then -1 else 0)
      ensures nodes == if code == 0 then [node] + old(nodes) else old(nodes)
      ensures free == if code == 0 then [Region(node.start, node.end)] + old(free) else old(free)
      ensures node.start == old(node.start) && node.end == old(node.end)
    {
      if node.start >= node.end {
        return -1;
      }
      if freeList != null {
        node.next := freeList;
      }
      freeList := node;
      nodes, free := [node] + nodes, [Region(node.start, node.end)] + free;
      code := 0;
    }

    method BindSymbol(id: nat, start: nat, end: nat)
      requires Valid() && id < |symbols|
      modifies this`symbols, this`live
      ensures Valid() && View() == Bind(old(View()), id, Region(start, end))
    {
      symbols := symbols[id := Region(start, end)];
      live := live + {id};
    }

    // The first half of __alloc: serve the request from the free list.
    method Reuse(id: nat, size: nat) returns (code: int, addr: nat)
      requires Valid() && id < |symbols| && size > 0
      modifies this, nodes
      ensures Valid() && (nodes == old(nodes) || (old(nodes) != [] && nodes == old(nodes)[1..]))
      ensures code == (if Fits(old(free), size) then 0 else -1)
      ensures code == 0 ==> View() == Reused(old(View()), id, size) && addr == View().symbols[id].start
      ensures code != 0 ==> View() == old(View())
    {
      var start, end: nat;
      code, start, end := GetFreeArea(size);
      addr := start;
      if code == 0 {
        BindSymbol(id, start, end);
      }
    }

    // __free: a copy of the symbol's region goes to the list; the symbol keeps its
    // range and is no longer live. The bound lets id 30 through, one past the
    // table; that case is excluded here. The copy is a new object, where the
    // source enlists a local variable.
    method Free(id: int) returns (code: int)
      requires Valid() && |symbols| == SYMBOLS && id != SYMBOLS
      modifies this`freeList, this`nodes, this`free, this`live
      ensures Valid() && (nodes == old(nodes) || (nodes != [] && fresh(nodes[0]) && nodes[1..] == old(nodes)))
      ensures code == (if 0 <= id < SYMBOLS then 0 else -1)
      ensures View() == if 0 <= id < SYMBOLS then FreeArea(old(View()), id) else old(View())
    {
      if id < 0 || id > SYMBOLS {
        return -1;
      }
      var rgnode := new RegionNode(symbols[id].start, symbols[id].end, null);
      var _ := EnlistFree(rgnode);
      live := live - {id};
      code := 0;
    }
  }
}

// Physical devices (mm-memphy.c) and the copy between two of them (mm.c:261-277).
module Memphy {
  import opened Bits
  import opened Paging
  import opened FrameList

  // A random-access device. Its free frames are a linked list; the used list is
  // linked through the same field of other nodes.
  class Device {
    const storage: array<Byte>
    var freeList: FrameNode?
    var used: FrameNode?
    ghost var nodes: seq<FrameNode>      // the nodes of the free list

    ghost function NodeSet(): set<FrameNode>
      reads this
    {
      set n | n in nodes
    }

    ghost predicate Valid()
      reads this, NodeSet()
    {
      && (freeList == null <==> nodes == [])
      && (nodes != [] ==> freeList == nodes[0] && nodes[|nodes| - 1].next == null)
      && (forall i :: 0 <= i < |nodes| - 1 ==> nodes[i].next == nodes[i + 1])
    }

    ghost function Free(): (s: seq<nat>)
      reads this
      ensures |s| == |nodes|
    {
      seq(|nodes|, i requires 0 <= i < |nodes| reads this => nodes[i].fpn)
    }

    ghost function View(): Paging.Device
      reads this, storage
    {
      Paging.Device(storage[..], Free())
    }

    // init_memphy: zeroed storage, then MEMPHY_format
    constructor (size: nat)
      requires size < 0x8000_0000
      ensures Valid() && fresh(storage) && fresh(nodes) && used == null
      ensures View() == FreshDevice(size)
    {
      storage := new Byte[size](_ => 0);
      freeList, used, nodes := null, null, [];
      new;
      Format();
      assert storage[..] == seq(size, _ => 0 as Byte);
    }

    // MEMPHY_format: frame 0, then the others appended one by one
    method Format()
      requires freeList == null && nodes == [] && storage.Length < 0x8000_0000
      modifies this`freeList, this`nodes
      ensures Valid() && fresh(nodes) && Free() == Upto(storage.Length / PAGE)
    {
      var numfp := storage.Length / PAGE;
      if numfp <= 0 {
        return;
      }
      var fst := new FrameNode(0);
      fst.next := null;
      freeList := fst;
      nodes := [fst];
      for iter := 1 to numfp
        invariant Valid() && fresh(nodes) && |nodes| == iter && fst == nodes[iter - 1]
        invariant forall i :: 0 <= i < iter ==> nodes[i].fpn == i
        invariant forall i :: 0 <= i < iter - 1 ==> nodes[i] != fst
      {
        var newfst := new FrameNode(iter);
        newfst.next := null;
        fst.next := newfst;
        fst := newfst;
        nodes := nodes + [newfst];
      }
    }

    // MEMPHY_get_freefp: unlink the first node
    method GetFreeFp() returns (code: int, fpn: FrameNo)
      requires Valid()
      modifies this`freeList, this`nodes
      ensures Valid() && nodes == (if old(nodes) == [] then [] else old(nodes)[1..])
      ensures old(Free()) == [] ==> code == FAILED && Free() == []
      ensures old(Free()) != [] ==> code == 0 && fpn == old(Free())[0] && Free() == old(Free())[1..]
    {
      var fp := freeList;
      if fp == null {
        return FAILED, 0;
      }
      assert |nodes| > 1 ==> nodes[0].next == nodes[1];
      fpn := fp.fpn;
      freeList := fp.next;
      nodes := nodes[1..];
      code := 0;
    }

    // MEMPHY_put_freefp: link a new node in front, for the next get to find
    method PutFreeFp(fpn: FrameNo)
      requires Valid()
      modifies this`freeList, this`nodes
      ensures Valid() && |nodes| == |old(nodes)| + 1 && fresh(nodes[0]) && nodes[1..] == old(nodes)
      ensures Free() == [fpn] + old(Free())
    {
      var newnode := new FrameNode(fpn);
      newnode.next := freeList;
      freeList := newnode;
      nodes := [newnode] + nodes;
    }

    // An address outside the device is refused and the value stays unset.
    method Read(addr: int) returns (code: int, value: Byte)
      ensures 0 <= addr < storage.Length ==> code == 0 && value == storage[addr]
      ensures !(0 <= addr < storage.Length) ==> code == FAILED
    {
      value := *;
      if addr < 0 || addr >= storage.Length {
        return FAILED, value;
      }
      return 0, storage[addr];
    }

    method Write(addr: int, data: Byte) returns (code: int)
      modifies storage
      ensures 0 <= addr < storage.Length ==> code == 0 && storage[..] == old(storage[..])[addr := data]
      ensures !(0 <= addr < storage.Length) ==> code == FAILED && storage[..] == old(storage[..])
    {
      if addr < 0 || addr >= storage.Length {
        return FAILED;
      }
      storage[addr] := data;
      return 0;
    }
  }

  // A frame put back is the one the next get returns, and the list is as before.
  method PutThenGet(d: Device, fpn: FrameNo) returns (code: int, again: FrameNo)
    requires d.Valid()
    modifies d`freeList, d`nodes
    ensures d.Valid() && code == 0 && again == fpn
    ensures d.nodes == old(d.nodes) && d.Free() == old(d.Free())
  {
    d.PutFreeFp(fpn);
    code, again := d.GetFreeFp();
  }

  // __swap_cp_page: cell by cell through the two devices
  method SwapCopyPage(src: Device, srcfpn: nat, dst: Device, dstfpn: nat)
    requires src.storage != dst.storage
    requires srcfpn * PAGE + PAGE <= src.storage.Length
    modifies dst.storage
    ensures dst.storage[..] == CopyFrame(src.storage[..], srcfpn, old(dst.storage[..]), dstfpn)
  {
    ghost var was := dst.storage[..];
    for cell := 0 to PAGE
      invariant forall j :: 0 <= j < dst.storage.Length ==>
        dst.storage[j] == if dstfpn * PAGE <= j < dstfpn * PAGE + cell
                          then src.storage[srcfpn * PAGE + (j - dstfpn * PAGE)] else was[j]
    {
      var code, data := src.Read(srcfpn * PAGE + cell);
      ghost var before := dst.storage[..];
      code := dst.Write(dstfpn * PAGE + cell, data);
      assert forall j :: 0 <= j < dst.storage.Length ==> dst.storage[j] == dst.storage[..][j];
      assert forall j :: 0 <= j < dst.storage.Length && j != dstfpn * PAGE + cell ==> dst.storage[j] == before[j];
    }
  }
}

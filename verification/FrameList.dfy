// Linked frame nodes (struct framephy_struct). alloc_pages_range threads the same
// nodes onto two lists through their one link.
module FrameList {

  // Frame numbers are a C int.
  type FrameNo = n: nat | n < 0x8000_0000

  // A new node's link is whatever the allocator left there.
  class FrameNode {
    const fpn: FrameNo
    var next: FrameNode?

    constructor (fpn: FrameNo)
      ensures this.fpn == fpn
    {
      this.fpn := fpn;
    }
  }

  // The first nodes from head carry the numbers of frames in order. Where the
  // link of the last of them leads is left open.
  ghost predicate Threaded(head: FrameNode?, nodes: seq<FrameNode>, frames: seq<nat>)
    reads nodes
  {
    && |nodes| == |frames|
    && (nodes == [] ==> head == null)
    && (nodes != [] ==> head == nodes[0])
    && (forall i :: 0 <= i < |nodes| ==> nodes[i].fpn == frames[i])
    && (forall i :: 0 <= i < |nodes| - 1 ==> nodes[i].next == nodes[i + 1])
  }

  // mm.c:149-158 and 171-180: a new node in front of the caller's list. On an
  // empty list the new node's link stays as it was allocated.
  method InFront(list: FrameNode?, fpn: FrameNo, ghost nodes: seq<FrameNode>, ghost frames: seq<nat>)
    returns (node: FrameNode)
    requires Threaded(list, nodes, frames)
    ensures fresh(node) && Threaded(node, [node] + nodes, [fpn] + frames)
    ensures list != null ==> node.next == list
  {
    node := new FrameNode(fpn);
    if list != null {
      node.next := list;
    }
  }
}

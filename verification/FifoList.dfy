// The replacement list of one process: head insertion (mm.c:330-339) and
// removal of the last node (libmem.c:522-554), on linked nodes.
module FifoList {

  class PgnNode {
    const pgn: nat
    var next: PgnNode?

    constructor (pgn: nat, next: PgnNode?)
      ensures this.pgn == pgn && this.next == next
    {
      this.pgn := pgn;
      this.next := next;
    }
  }

  class PgnList {
    var head: PgnNode?
    ghost var nodes: seq<PgnNode>      // the nodes from the head on
    ghost var repr: set<PgnNode>       // these and nodes cut off earlier

    ghost predicate Valid()
      reads this, repr
    {
      && (forall i :: 0 <= i < |nodes| ==> nodes[i] in repr)
      && (head == null <==> nodes == [])
      && (nodes != [] ==> head == nodes[0] && nodes[|nodes| - 1].next == null)
      && (forall i :: 0 <= i < |nodes| - 1 ==> nodes[i].next == nodes[i + 1])
      && (forall i, j :: 0 <= i < j < |nodes| ==> nodes[i] != nodes[j])
    }

    ghost function View(): (s: seq<nat>)
      reads this
      ensures |s| == |nodes|
    {
      seq(|nodes|, i requires 0 <= i < |nodes| reads this => nodes[i].pgn)
    }

    constructor ()
      ensures Valid() && View() == [] && nodes == []
    {
      head := null;
      nodes := [];
      repr := {};
    }

    // enlist_pgn_node
    method Enlist(pgn: nat)
      requires Valid()
      modifies this
      ensures Valid() && View() == After(old(View()), Enlisted(pgn)) && fresh(repr - old(repr))
    {
      var node := new PgnNode(pgn, head);
      head := node;
      nodes := [node] + nodes;
      repr := repr + {node};
    }

    // find_victim_page: walk to the last node but one and cut off the last
    method FindVictim() returns (code: int, pgn: nat)
      requires Valid()
      modifies this, repr
      ensures Valid() && repr == old(repr)
      ensures View() == After(old(View()), VictimTaken)
      ensures if old(View()) == [] then code == -1 else code == 0 && pgn == old(View())[|old(View())| - 1]
    {
      if head == null {
        return -1, 0;
      }
      assert |nodes| > 1 ==> nodes[0].next == nodes[1];
      if head.next == null {
        pgn := head.pgn;
        head := null;
        nodes := [];
        return 0, pgn;
      }
      var pg := head;
      ghost var i := 0;
      assert head == nodes[0];
      while pg.next.next != null
        invariant 0 <= i && i + 1 < |nodes| && pg == nodes[i] && pg.next == nodes[i + 1]
        invariant i + 2 < |nodes| ==> nodes[i + 1].next == nodes[i + 2]
        decreases |nodes| - i
      {
        pg := pg.next;
        i := i + 1;
      }
      pgn := pg.next.pgn;
      pg.next := null;
      nodes := nodes[..i + 1];
      code := 0;
    }
  }

  // ---- the list is a queue ---------------------------------------------------------

  datatype Event = Enlisted(pgn: nat) | VictimTaken

  function Reverse(s: seq<nat>): seq<nat> {
    if s == [] then [] else Reverse(s[1..]) + [s[0]]
  }

  // The list after an event, as Enlist and FindVictim leave it, and the victim.
  function After(list: seq<nat>, e: Event): seq<nat> {
    match e
    case Enlisted(pgn) => [pgn] + list
    case VictimTaken => if list == [] then [] else list[..|list| - 1]
  }

  function Victims(list: seq<nat>, events: seq<Event>): seq<nat>
    decreases |events|
  {
    if events == [] then []
    else
      var here := if events[0].VictimTaken? && list != [] then [list[|list| - 1]] else [];
      here + Victims(After(list, events[0]), events[1..])
  }

  function Arrivals(events: seq<Event>): seq<nat>
    decreases |events|
  {
    if events == [] then []
    else (if events[0].Enlisted? then [events[0].pgn] else []) + Arrivals(events[1..])
  }

  lemma {:induction false} ReverseLast(s: seq<nat>)
    requires s != []
    ensures Reverse(s) == [s[|s| - 1]] + Reverse(s[..|s| - 1])
  {
    if |s| > 1 {
      ReverseLast(s[1..]);
      assert s[1..][..|s[1..]| - 1] == s[..|s| - 1][1..];
    } else {
      assert s[..0] == [] && s[1..] == [];
    }
  }

  // An enlisted page queues behind the pages on the list.
  lemma QueueAfterEnlist(pgn: nat, list: seq<nat>, later: seq<nat>)
    ensures Reverse([pgn] + list) + later == Reverse(list) + ([pgn] + later)
  {
    assert ([pgn] + list)[1..] == list;
  }

  // The victim is the first in the queue.
  lemma QueueAfterVictim(list: seq<nat>, later: seq<nat>, victims: seq<nat>)
    requires list != [] && victims <= Reverse(list[..|list| - 1]) + later
    ensures [list[|list| - 1]] + victims <= Reverse(list) + later
  {
    ReverseLast(list);
    PrefixCons(list[|list| - 1], victims, Reverse(list[..|list| - 1]), later);
  }

  lemma PrefixCons(x: nat, victims: seq<nat>, queue: seq<nat>, later: seq<nat>)
    requires victims <= queue + later
    ensures [x] + victims <= [x] + queue + later
  {
    assert [x] + queue + later == [x] + (queue + later);
  }

  // For any interleaving, the pages leave in the order in which they came:
  // first those on the list, oldest first, then the new ones in enlist order.
  lemma {:induction false} VictimsInEnlistOrder(list: seq<nat>, events: seq<Event>)
    ensures Victims(list, events) <= Reverse(list) + Arrivals(events)
    decreases |events|
  {
    if events != [] {
      var e, rest := events[0], events[1..];
      var victims := Victims(After(list, e), rest);
      VictimsInEnlistOrder(After(list, e), rest);
      match e
      case Enlisted(pgn) =>
        QueueAfterEnlist(pgn, list, Arrivals(rest));
        assert [] + victims == victims;
      case VictimTaken =>
        assert [] + Arrivals(rest) == Arrivals(rest);
        if list == [] {
          assert [] + victims == victims;
        } else {
          QueueAfterVictim(list, Arrivals(rest), victims);
        }
    }
  }
}

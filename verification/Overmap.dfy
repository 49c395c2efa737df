// Growth over pages that a fault beyond the break has already mapped: nothing in
// the code looks at the old entry.
module Overmap {
  import opened Bits
  import opened Paging
  import opened FrameSafety

  ghost predicate Unlisted(s: Space, g: nat, k: nat) {
    forall h: nat :: g <= h < g + k ==> h !in s.fifo
  }

  // ---- the frame invariant ---------------------------------------------------------

  // Mapping at a page that is not on the replacement list keeps the frame
  // invariant, whatever the entry named before.
  lemma MapUnlisted(m: Machine, p: nat, g: nat, pend: seq<nat>)
    requires Inv(m, pend) && InM(m, p, g) && pend != [] && g !in m.spaces[p].fifo
    ensures Inv(Put(m, p, Local(m.dev, MapOne(m.spaces[p], g, pend[0]))), pend[1..])
  {
    var n := Put(m, p, Local(m.dev, MapOne(m.spaces[p], g, pend[0])));
    assert pend[0] in pend && pend[0] !in pend[1..];
    assert forall f :: f in pend[1..] ==> f in pend;
    assert DeviceOk(m.dev.ram, FPN_LIMIT);
    assert At(n, p, g) == Resident(pend[0]);
    assert forall q, h :: InM(n, q, h) <==> InM(m, q, h);
    assert forall q, h :: InM(n, q, h) && !(q == p && h == g) ==> At(n, q, h) == At(m, q, h);
    assert forall h :: h in n.spaces[p].fifo ==> h == g || h in m.spaces[p].fifo;
    MapUnlistedExclusive(m, n, p, g, pend);
  }

  lemma MapUnlistedExclusive(m: Machine, n: Machine, p: nat, g: nat, pend: seq<nat>)
    requires Inv(m, pend) && InM(m, p, g) && pend != [] && pend[0] in pend && |n.dev.swaps| == MAX_SWP
    requires n.dev == m.dev && InM(n, p, g) && At(n, p, g) == Resident(pend[0])
    requires forall q, h :: InM(n, q, h) <==> InM(m, q, h)
    requires forall q, h :: InM(n, q, h) && !(q == p && h == g) ==> At(n, q, h) == At(m, q, h)
    ensures AllOwned(n) && Exclusive(n)
  {
    forall q, h | InM(n, q, h) ensures Owned(n.dev, At(n, q, h)) {
      assert InM(m, q, h) && Owned(m.dev, At(m, q, h));
    }
    forall q, h, q', h' | InM(n, q, h) && InM(n, q', h') && At(n, q, h) == At(n, q', h') && !At(n, q, h).Absent?
      ensures q == q' && h == h'
    {
      assert InM(m, q, h) && InM(m, q', h');
    }
  }

  lemma {:induction false} MapRangeUnlisted(m: Machine, p: nat, g: nat, frames: seq<nat>)
    requires Inv(m, frames) && p < |m.spaces| && g + |frames| <= MAX_PGN
    requires Unlisted(m.spaces[p], g, |frames|)
    ensures |m.spaces[p].table| == MAX_PGN
    ensures Inv(Put(m, p, Local(m.dev, MapRange(m.spaces[p], g, frames))), [])
    decreases |frames|
  {
    assert FifoOk(m.spaces[p], m.dev.ram.Frames());
    if frames == [] {
      assert Put(m, p, LocalOf(m, p)) == m;
    } else {
      MapUnlisted(m, p, g, frames);
      var n := Put(m, p, Local(m.dev, MapOne(m.spaces[p], g, frames[0])));
      MapRangeUnlisted(n, p, g + 1, frames[1..]);
      assert Put(n, p, Local(n.dev, MapRange(n.spaces[p], g + 1, frames[1..])))
          == Put(m, p, Local(m.dev, MapRange(m.spaces[p], g, frames)));
    }
  }

  // The list keeps its pages and gains those of the range in front of them.
  lemma {:induction false} MapRangeFifo(s: Space, g: nat, frames: seq<nat>)
    requires g + |frames| <= |s.table|
    ensures var fifo := MapRange(s, g, frames).fifo; var k := |frames|;
            && |fifo| == k + |s.fifo| && fifo[k..] == s.fifo
            && forall i: nat :: i < k ==> fifo[i] == g + k - 1 - i
    decreases |frames|
  {
    if frames != [] {
      var n := MapOne(s, g, frames[0]);
      MapRangeFifo(n, g + 1, frames[1..]);
      var fifo, k := MapRange(s, g, frames).fifo, |frames|;
      assert fifo[k - 1..] == n.fifo == [g] + s.fifo;
      assert fifo[k..] == fifo[k - 1..][1..];
      assert fifo[k - 1] == fifo[k - 1..][0];
    }
  }

  // A listed page is then listed twice.
  lemma MapRangeTwice(s: Space, g: nat, frames: seq<nat>, i: nat)
    requires g + |frames| <= |s.table| && i < |s.fifo| && g <= s.fifo[i] < g + |frames|
    ensures !Distinct(MapRange(s, g, frames).fifo)
  {
    MapRangeFifo(s, g, frames);
    var fifo, k := MapRange(s, g, frames).fifo, |frames|;
    var first := g + k - 1 - s.fifo[i];
    assert fifo[first] == s.fifo[i] == fifo[k..][i] == fifo[k + i];
  }

  // ---- which pages are still listed when the mapping begins -----------------------

  // How many pages a request evicts.
  function Evictions(l: Local, k: nat): nat {
    if k <= |l.dev.ram.free| then 0 else k - |l.dev.ram.free|
  }

  lemma {:induction false} FifoAfterAlloc(l: Local, k: nat, got: seq<nat>)
    requires Shape(l) && AllocPages(l, k, got).code == 0
    ensures Evictions(l, k) <= |l.space.fifo|
    ensures AllocPages(l, k, got).l.space.fifo == l.space.fifo[..|l.space.fifo| - Evictions(l, k)]
    decreases k
  {
    if k > 0 {
      var g := GrabFrame(l);
      GrabShape(l);
      FifoAfterAlloc(g.l, k - 1, [g.frame] + got);
    }
  }

  // Growth keeps frames exclusive if and only if the range holds no listed page
  // that the request itself does not evict.
  lemma GrowthKeepsInvIff(m: Machine, p: nat, g: nat, k: nat)
    requires Inv(m, []) && p < |m.spaces| && g + k <= MAX_PGN
    requires Shape(LocalOf(m, p)) && MapRam(LocalOf(m, p), g, k).code == 0
    ensures var fifo := m.spaces[p].fifo;
            Inv(Put(m, p, MapRam(LocalOf(m, p), g, k).l), [])
            <==> forall i :: 0 <= i < |fifo| - Evictions(LocalOf(m, p), k) ==> !(g <= fifo[i] < g + k)
  {
    var l := LocalOf(m, p);
    var a := AllocPages(l, k, []);
    var n := Put(m, p, a.l);
    AllocKeepsInv(m, p, k, []);
    FifoAfterAlloc(l, k, []);
    var fifo := m.spaces[p].fifo;
    var kept := |fifo| - Evictions(l, k);
    assert a.l.space.fifo == fifo[..kept];
    var o := Put(m, p, MapRam(l, g, k).l);
    assert o == Put(n, p, Local(n.dev, MapRange(n.spaces[p], g, a.frames)));
    if i :| 0 <= i < kept && g <= fifo[i] < g + k {
      MapRangeTwice(a.l.space, g, a.frames, i);
      assert !FifoOk(o.spaces[p], o.dev.ram.Frames());
    } else {
      MapRangeUnlisted(n, p, g, a.frames);
    }
  }

  // ---- what the pages hold ------------------------------------------------------------

  lemma {:induction false} MapRangeTable(s: Space, g: nat, frames: seq<nat>, h: nat)
    requires g + |frames| <= |s.table| && h < |s.table|
    requires forall f :: f in frames ==> f < FPN_LIMIT
    ensures MapRange(s, g, frames).table[h]
         == if g <= h < g + |frames| then Resident(frames[h - g]) else s.table[h]
    decreases |frames|
  {
    if frames != [] {
      assert frames[0] in frames && forall f :: f in frames[1..] ==> f in frames;
      MapRangeTable(MapOne(s, g, frames[0]), g + 1, frames[1..], h);
    }
  }

  // A page of the range loses what it held: it shows a frame that no page had,
  // with what is in it.
  lemma GrowthReplaces(m: Machine, p: nat, g: nat, k: nat, h: nat, off: nat)
    requires Inv(m, []) && p < |m.spaces| && g + k <= MAX_PGN && g <= h < g + k && off < PAGE
    requires Shape(LocalOf(m, p)) && MapRam(LocalOf(m, p), g, k).code == 0
    ensures var frames := AllocPages(LocalOf(m, p), k, []).frames;
            var n := Put(m, p, MapRam(LocalOf(m, p), g, k).l);
            && |frames| == k && InM(n, p, h) && At(n, p, h) == Resident(frames[h - g])
            && Cell(n, p, h, off) == CellOf(m.dev.ram, frames[h - g], off)
  {
    var l := LocalOf(m, p);
    var a := AllocPages(l, k, []);
    AllocKeepsInv(m, p, k, []);
    AllocKeepsRam(l, k, []);
    assert DeviceOk(a.l.dev.ram, FPN_LIMIT);
    MapRangeTable(a.l.space, g, a.frames, h);
  }

  // Pages that are still listed after a request are where they were.
  lemma {:induction false} ListedStay(l: Local, k: nat, got: seq<nat>, h: nat)
    requires Shape(l) && h in AllocPages(l, k, got).l.space.fifo
    ensures h in l.space.fifo && AllocPages(l, k, got).l.space.table[h] == l.space.table[h]
    decreases k
  {
    if k > 0 {
      var g := GrabFrame(l);
      GrabShape(l);
      if g.code == 0 {
        ListedStay(g.l, k - 1, [g.frame] + got, h);
      }
      GrabListed(l, h);
    }
  }

  lemma GrabListed(l: Local, h: nat)
    requires Shape(l) && h in GrabFrame(l).l.space.fifo
    ensures h in l.space.fifo && |GrabFrame(l).l.space.table| == MAX_PGN && h < MAX_PGN
    ensures GrabFrame(l).l.space.table[h] == l.space.table[h]
  {
    GrabShape(l);
    if l.dev.ram.free == [] && l.space.fifo != [] {
      var last := |l.space.fifo| - 1;
      var i :| 0 <= i < last && l.space.fifo[..last][i] == h;
      assert l.space.fifo[i] == h && l.space.fifo[i] != l.space.fifo[last];
    }
  }

  // A listed page that is mapped over takes its frame with it: the frame is on no
  // free list and in no page table.
  lemma GrowthLosesFrame(m: Machine, p: nat, g: nat, k: nat, h: nat)
    requires Inv(m, []) && p < |m.spaces| && g + k <= MAX_PGN && g <= h < g + k
    requires Shape(LocalOf(m, p)) && MapRam(LocalOf(m, p), g, k).code == 0
    requires h in AllocPages(LocalOf(m, p), k, []).l.space.fifo
    ensures InM(m, p, h) && At(m, p, h).Resident?
    ensures var n := Put(m, p, MapRam(LocalOf(m, p), g, k).l);
            && At(m, p, h).fpn !in n.dev.ram.free
            && forall q: nat, i: nat :: InM(n, q, i) ==> At(n, q, i) != At(m, p, h)
  {
    var l := LocalOf(m, p);
    var a := AllocPages(l, k, []);
    ListedStay(l, k, [], h);
    AllocKeepsInv(m, p, k, []);
    var b := Put(m, p, a.l);
    assert InM(b, p, h) && At(b, p, h) == At(m, p, h) && Owned(b.dev, At(b, p, h));
    assert DeviceOk(a.l.dev.ram, FPN_LIMIT);
    var n := Put(m, p, MapRam(l, g, k).l);
    forall q: nat, i: nat | InM(n, q, i) ensures At(n, q, i) != At(m, p, h) {
      assert InM(b, q, i);
      if q == p {
        MapRangeTable(a.l.space, g, a.frames, i);
      }
      if q == p && g <= i < g + k {
        assert a.frames[i - g] in a.frames;
      } else {
        assert At(n, q, i) == At(b, q, i);
      }
    }
  }
}

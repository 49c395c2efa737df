// A page table in place: an array of 32-bit words, and the entries they encode.
module PageTable {
  import opened Bits
  import opened Paging

  function Table(words: seq<bv32>): (t: seq<Entry>)
    ensures |t| == |words|
  {
    seq(|words|, i requires 0 <= i < |words| => Decode(words[i]))
  }

  lemma TableUpdate(words: seq<bv32>, g: nat, w: bv32)
    requires g < |words|
    ensures Table(words[g := w]) == Table(words)[g := Decode(w)]
  {
  }

  // pte_set_fpn on the entry of page g
  method SetFpn(pgd: array<bv32>, g: nat, fpn: nat)
    requires g < pgd.Length && fpn < WORD_LIMIT
    modifies pgd
    ensures Table(pgd[..]) == Table(old(pgd[..]))[g := FpnEntry(fpn)]
  {
    WordWidth();
    SetFpnEntry(pgd[g], fpn);
    var w := PteSetFpn(pgd[g], Word(fpn));
    TableUpdate(pgd[..], g, w);
    pgd[g] := w;
    assert pgd[..] == old(pgd[..])[g := w];
  }

  // pte_set_swap on the entry of page g
  method SetSwap(pgd: array<bv32>, g: nat, typ: nat, off: nat)
    requires g < pgd.Length && typ < WORD_LIMIT && off < WORD_LIMIT
    modifies pgd
    ensures Table(pgd[..]) == Table(old(pgd[..]))[g := SwapEntry(typ, off)]
  {
    WordWidth();
    SetSwapEntry(pgd[g], typ, off);
    var w := PteSetSwap(pgd[g], Word(typ), Word(off));
    TableUpdate(pgd[..], g, w);
    pgd[g] := w;
    assert pgd[..] == old(pgd[..])[g := w];
  }

  // PAGING_PAGE_PRESENT and PAGING_FPN of the entry of page g
  method Look(pgd: array<bv32>, g: nat) returns (present: bool, fpn: nat)
    requires g < pgd.Length
    ensures present == !Table(pgd[..])[g].Absent?
    ensures present ==> fpn == FpnField(Table(pgd[..])[g])
    ensures Table(pgd[..])[g].Resident? ==> fpn == Table(pgd[..])[g].fpn
    ensures fpn < FPN_LIMIT
  {
    var pte := pgd[g];
    FpnIsLow(pte);
    present := pte & PRESENT != 0;
    fpn := Nat(GetVal(pte, FPN_MASK, 0));
    if present {
      FpnFieldOfPresent(pte);
    }
  }

  // PAGING_PTE_SWP of the entry of an absent page
  method SwapOffset(pgd: array<bv32>, g: nat) returns (off: nat)
    requires g < pgd.Length && Table(pgd[..])[g].Absent?
    ensures off == Table(pgd[..])[g].off
  {
    off := Nat(GetVal(pgd[g], SWPOFF_MASK, 5));
  }

  // PAGING_PGN and PAGING_OFFST of an address
  method Locate(addr: nat) returns (pgn: nat, off: nat)
    requires addr < WORD_LIMIT
    ensures pgn == Pgn(addr) && off == Offst(addr)
  {
    WordWidth();
    PgnOfWord(addr);
    OffstOfWord(addr);
    pgn := Nat(GetVal(Word(addr), PGN_MASK, 8));
    off := Nat(GetVal(Word(addr), OFFST_MASK, 0));
  }
}

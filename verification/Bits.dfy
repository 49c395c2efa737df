// Bit packing of 32-bit words: bitops.h, the field macros of mm.h and the two
// page-table setters of mm.c. Words are `bv32`; `Nat` and `Word` are the two
// readings of a word, so that everything outside this module is arithmetic.
module Bits {

  // ---- reading a word as a number and back -------------------------------

  function Nat(w: bv32): (n: nat)
    decreases w
  {
    if w == 0 then 0 else 2 * Nat(w >> 1) + (if w & 1 == 1 then 1 else 0)
  }

  function Word(n: nat): bv32 {
    if n == 0 then 0 else (Word(n / 2) << 1) | (if n % 2 == 1 then 1 else 0)
  }

  function Pow2(k: nat): (p: nat)
    ensures p > 0
  {
    if k == 0 then 1 else 2 * Pow2(k - 1)
  }

  lemma {:induction false} WordFits(n: nat, k: nat)
    requires k <= 32 && n < Pow2(k)
    ensures k < 32 ==> Word(n) < (1 << k)
  {
    if k > 0 && n > 0 {
      WordFits(n / 2, k - 1);
    }
  }

  lemma ShiftInBit(w: bv32, bit: bool)
    requires w < 0x8000_0000
    ensures var v := (w << 1) | (if bit then 1 else 0);
            v >> 1 == w && (v & 1 == 1 <==> bit) && (v == 0 ==> w == 0 && !bit)
  {
  }

  lemma {:induction false} NatOfWord(n: nat)
    requires n < Pow2(32)
    ensures Nat(Word(n)) == n
  {
    if n > 0 {
      WordFits(n / 2, 31);
      NatOfWord(n / 2);
      ShiftInBit(Word(n / 2), n % 2 == 1);
    }
  }

  // ---- shifting right divides, masking low bits takes the remainder ------

  function Shr(w: bv32, k: nat): bv32
    decreases k
  {
    if k == 0 then w else Shr(w >> 1, k - 1)
  }

  function LowMask(k: nat): bv32 {
    if k == 0 then 0 else (LowMask(k - 1) << 1) | 1
  }

  lemma {:induction false} NatShr(w: bv32, k: nat)
    ensures Nat(Shr(w, k)) == Nat(w) / Pow2(k)
    decreases k
  {
    if k > 0 {
      NatShr(w >> 1, k - 1);
      assert Nat(w >> 1) == Nat(w) / 2;
      DivTwice(Nat(w), Pow2(k - 1));
    }
  }

  lemma DivTwice(n: nat, d: nat)
    requires d > 0
    ensures (n / 2) / d == n / (2 * d)
  {
    var q, r := (n / 2) / d, (n / 2) % d;
    assert n == 2 * (q * d + r) + n % 2;
    assert n == q * (2 * d) + (2 * r + n % 2);
    DivUnique(n, 2 * d, q, 2 * r + n % 2);
  }

  lemma DivUnique(n: nat, d: nat, q: nat, r: nat)
    requires r < d && n == q * d + r
    ensures n / d == q && n % d == r
  {
    var q', r' := n / d, n % d;
    assert (q' - q) * d == r - r';
    if q' > q {
      AtLeast(q' - q, d);
    } else if q' < q {
      AtLeast(q - q', d);
    }
  }

  lemma AtLeast(x: nat, d: nat)
    requires x >= 1
    ensures x * d >= d
  {
    assert x * d == (x - 1) * d + d;
  }

  lemma MaskBit(w: bv32, m: bv32)
    requires m < 0x8000_0000
    ensures (w & ((m << 1) | 1)) >> 1 == (w >> 1) & m
    ensures (w & ((m << 1) | 1)) & 1 == w & 1
    ensures (w & ((m << 1) | 1)) == 0 ==> (w >> 1) & m == 0 && w & 1 == 0
  {
  }

  lemma {:induction false} LowMaskFits(k: nat)
    requires k < 32
    ensures LowMask(k) < (1 << k)
  {
    if k > 0 {
      LowMaskFits(k - 1);
    }
  }

  lemma {:induction false} LowMaskSmall(k: nat)
    requires k < 32
    ensures LowMask(k) < 0x8000_0000
  {
    LowMaskFits(k);
  }

  lemma NatHalf(w: bv32)
    ensures Nat(w) == 2 * Nat(w >> 1) + (if w & 1 == 1 then 1 else 0)
  {
    if w == 0 {
      assert w >> 1 == 0;
    }
  }

  lemma {:induction false} NatLow(w: bv32, k: nat)
    requires k <= 32
    ensures Nat(w & LowMask(k)) == Nat(w) % Pow2(k)
    decreases k
  {
    if k == 0 {
      NatLowNone(w);
    } else {
      NatLow(w >> 1, k - 1);
      NatLowStep(w, k);
    }
  }

  lemma NatLowNone(w: bv32)
    ensures Nat(w & LowMask(0)) == Nat(w) % Pow2(0)
  {
    assert w & 0 == 0;
  }

  lemma NatLowStep(w: bv32, k: nat)
    requires 0 < k <= 32
    requires Nat((w >> 1) & LowMask(k - 1)) == Nat(w >> 1) % Pow2(k - 1)
    ensures Nat(w & LowMask(k)) == Nat(w) % Pow2(k)
  {
    LowMaskSmall(k - 1);
    NatLowBit(w, LowMask(k - 1), Pow2(k - 1));
  }

  lemma NatLowBit(w: bv32, m: bv32, d: nat)
    requires m < 0x8000_0000 && d > 0
    requires Nat((w >> 1) & m) == Nat(w >> 1) % d
    ensures Nat(w & ((m << 1) | 1)) == Nat(w) % (2 * d)
  {
    var v := w & ((m << 1) | 1);
    MaskBit(w, m);
    NatHalf(w);
    NatHalf(v);
    ModTwice(Nat(w >> 1), d, if w & 1 == 1 then 1 else 0);
  }

  lemma ModTwice(n: nat, d: nat, b: nat)
    requires d > 0 && b < 2
    ensures (2 * n + b) % (2 * d) == 2 * (n % d) + b
  {
    var q, r := n / d, n % d;
    assert 2 * n + b == q * (2 * d) + (2 * r + b);
    DivUnique(2 * n + b, 2 * d, q, 2 * r + b);
  }

  // ---- constants and field operators (mm.h:7-59, bitops.h:10-38) ---------

  const PRESENT: bv32 := 1 << 31
  const SWAPPED: bv32 := 1 << 30

  function GenMask(h: nat, l: nat): bv32
    requires l <= h < 32
  {
    (0xFFFF_FFFF << l) & (0xFFFF_FFFF >> (31 - h))
  }

  const FPN_MASK: bv32 := GenMask(12, 0)
  const SWPTYP_MASK: bv32 := GenMask(4, 0)
  const SWPOFF_MASK: bv32 := GenMask(25, 5)
  const OFFST_MASK: bv32 := GenMask(7, 0)
  const PGN_MASK: bv32 := GenMask(21, 8)

  lemma MaskValues()
    ensures FPN_MASK == 0x1FFF && SWPTYP_MASK == 0x1F && SWPOFF_MASK == 0x3FF_FFE0
    ensures OFFST_MASK == 0xFF && PGN_MASK == 0x3F_FF00
  {
  }

  function GetVal(v: bv32, mask: bv32, lo: nat): bv32
    requires lo < 32
  {
    (v & mask) >> lo
  }

  function SetVal(v: bv32, value: bv32, mask: bv32, lo: nat): bv32
    requires lo < 32
  {
    (v & !mask) | ((value << lo) & mask)
  }

  // pte_set_fpn and pte_set_swap (mm.c:58-82), on the word they update
  function PteSetFpn(pte: bv32, fpn: bv32): bv32 {
    SetVal((pte | PRESENT) & !SWAPPED, fpn, FPN_MASK, 0)
  }

  function PteSetSwap(pte: bv32, typ: bv32, off: bv32): bv32 {
    SetVal(SetVal(pte | PRESENT | SWAPPED, typ, SWPTYP_MASK, 0), off, SWPOFF_MASK, 5)
  }

  // What the word of a page-table entry says. An absent page still has the
  // bits that PAGING_PTE_SWP extracts, which pg_getpage reads.
  datatype Entry =
    | Absent(off: nat)
    | Resident(fpn: nat)
    | Swapped(typ: nat, off: nat)

  function Decode(pte: bv32): Entry {
    if pte & PRESENT == 0 then Absent(Nat(GetVal(pte, SWPOFF_MASK, 5)))
    else if pte & SWAPPED == 0 then Resident(Nat(GetVal(pte, FPN_MASK, 0)))
    else Swapped(Nat(GetVal(pte, SWPTYP_MASK, 0)), Nat(GetVal(pte, SWPOFF_MASK, 5)))
  }

  lemma SetFpnWord(p: bv32, f: bv32)
    ensures var q := PteSetFpn(p, f);
            q & PRESENT != 0 && q & SWAPPED == 0 && GetVal(q, FPN_MASK, 0) == f & 0x1FFF
            && q & 0x3FFF_E000 == p & 0x3FFF_E000
  {
    hide GenMask;
    MaskValues();
  }

  lemma SetSwapWord(p: bv32, t: bv32, o: bv32)
    ensures var q := PteSetSwap(p, t, o);
            q & PRESENT != 0 && q & SWAPPED != 0
            && GetVal(q, SWPTYP_MASK, 0) == t & 0x1F && GetVal(q, SWPOFF_MASK, 5) == o & 0x1F_FFFF
            && q & 0x3C00_0000 == p & 0x3C00_0000
  {
    hide GenMask;
    MaskValues();
  }

  // ---- the entry that each setter leaves behind, for every input word ----

  const FPN_LIMIT: nat := 8192        // 2^13, the FPN field
  const TYP_LIMIT: nat := 32          // 2^5, the SWPTYP field
  const OFF_LIMIT: nat := 2097152     // 2^21, the SWPOFF field

  lemma Widths()
    ensures Pow2(5) == TYP_LIMIT && Pow2(8) == 256 && Pow2(13) == FPN_LIMIT
    ensures Pow2(14) == 16384 && Pow2(21) == OFF_LIMIT
  {
    assert Pow2(5) == 32;
    assert Pow2(8) == 256;
    assert Pow2(13) == 8192;
    assert Pow2(18) == 262144;
  }

  const WORD_LIMIT: nat := 0x1_0000_0000

  lemma WordWidth()
    ensures Pow2(32) == WORD_LIMIT
  {
    assert Pow2(8) == 256;
    assert Pow2(14) == 16384;
    assert Pow2(20) == 1048576;
    assert Pow2(26) == 67108864;
  }

  lemma Masks()
    ensures LowMask(5) == 0x1F && LowMask(8) == 0xFF && LowMask(13) == 0x1FFF
    ensures LowMask(14) == 0x3FFF && LowMask(21) == 0x1F_FFFF
  {
    assert LowMask(5) == 0x1F;
    assert LowMask(8) == 0xFF;
    assert LowMask(13) == 0x1FFF;
    assert LowMask(14) == 0x3FFF;
    assert LowMask(18) == 0x3_FFFF;
  }

  // The low bits of a stored number are the number modulo the field.
  lemma StoredLow(n: nat, k: nat)
    requires n < Pow2(32) && k <= 32
    ensures Nat(Word(n) & LowMask(k)) == n % Pow2(k)
  {
    NatOfWord(n);
    NatLow(Word(n), k);
  }

  lemma Stored(n: nat, k: nat, mask: bv32, limit: nat)
    requires n < Pow2(32) && k <= 32 && mask == LowMask(k) && limit == Pow2(k)
    ensures Nat(Word(n) & mask) == n % limit
  {
    StoredLow(n, k);
  }

  lemma SetFpnEntry(pte: bv32, fpn: nat)
    requires fpn < Pow2(32)
    ensures Decode(PteSetFpn(pte, Word(fpn))) == Resident(fpn % FPN_LIMIT)
  {
    SetFpnWord(pte, Word(fpn));
    Masks();
    Widths();
    Stored(fpn, 13, 0x1FFF, FPN_LIMIT);
  }

  lemma SetSwapEntry(pte: bv32, typ: nat, off: nat)
    requires typ < Pow2(32) && off < Pow2(32)
    ensures Decode(PteSetSwap(pte, Word(typ), Word(off))) == Swapped(typ % TYP_LIMIT, off % OFF_LIMIT)
  {
    SetSwapWord(pte, Word(typ), Word(off));
    Masks();
    Widths();
    Stored(typ, 5, 0x1F, TYP_LIMIT);
    Stored(off, 21, 0x1F_FFFF, OFF_LIMIT);
  }

  // A frame number comes back out of an entry exactly when it fits the field,
  // and so do a swap type and offset.
  lemma FpnRoundTrip(pte: bv32, fpn: nat)
    requires fpn < Pow2(32)
    ensures Decode(PteSetFpn(pte, Word(fpn))) == Resident(fpn) <==> fpn < FPN_LIMIT
  {
    var e := Decode(PteSetFpn(pte, Word(fpn)));
    assert e == Resident(fpn % FPN_LIMIT) by { SetFpnEntry(pte, fpn); }
    ModIsSelf(fpn, FPN_LIMIT);
  }

  lemma ModIsSelf(n: nat, limit: nat)
    requires limit > 0
    ensures n % limit == n <==> n < limit
  {
  }

  lemma SwapRoundTrip(pte: bv32, typ: nat, off: nat)
    requires typ < Pow2(32) && off < Pow2(32)
    ensures Decode(PteSetSwap(pte, Word(typ), Word(off))) == Swapped(typ, off)
       <==> typ < TYP_LIMIT && off < OFF_LIMIT
  {
    var e := Decode(PteSetSwap(pte, Word(typ), Word(off)));
    assert e == Swapped(typ % TYP_LIMIT, off % OFF_LIMIT) by { SetSwapEntry(pte, typ, off); }
    ModIsSelf(typ, TYP_LIMIT);
    ModIsSelf(off, OFF_LIMIT);
  }

  // PAGING_FPN of an entry, whatever its form: of a swapped page it mixes the
  // swap type and the low bits of the swap offset.
  function FpnField(e: Entry): nat {
    match e
    case Absent(off) => off * 32 % FPN_LIMIT
    case Resident(fpn) => fpn % FPN_LIMIT
    case Swapped(typ, off) => (off * 32 + typ) % FPN_LIMIT
  }

  lemma FpnFieldOfPresent(pte: bv32)
    requires pte & PRESENT != 0
    ensures Nat(GetVal(pte, FPN_MASK, 0)) == FpnField(Decode(pte))
  {
    var low := GetVal(pte, FPN_MASK, 0);
    FpnIsLow(pte);
    if pte & SWAPPED != 0 {
      SwappedFields(pte, low, GetVal(pte, SWPTYP_MASK, 0), GetVal(pte, SWPOFF_MASK, 5));
    }
  }

  lemma FpnIsLow(pte: bv32)
    ensures Nat(GetVal(pte, FPN_MASK, 0)) < FPN_LIMIT
  {
    hide Nat, GenMask;
    MaskValues();
    assert GetVal(pte, FPN_MASK, 0) == pte & 0x1FFF;
    Masks();
    Widths();
    NatLow(pte, 13);
  }

  // The FPN field of a swapped entry: five bits of type under eight of offset.
  lemma SwappedFields(pte: bv32, low: bv32, typ: bv32, off: bv32)
    requires low == GetVal(pte, FPN_MASK, 0) && typ == GetVal(pte, SWPTYP_MASK, 0)
    requires off == GetVal(pte, SWPOFF_MASK, 5)
    ensures Nat(low) == (Nat(off) * 32 + Nat(typ)) % FPN_LIMIT
  {
    assert low >> 5 == off & 0xFF && low & 0x1F == typ;
    FieldNumbers(low, typ, off);
  }

  lemma FieldNumbers(low: bv32, typ: bv32, off: bv32)
    requires low >> 5 == off & 0xFF && low & 0x1F == typ
    ensures Nat(low) == (Nat(off) * 32 + Nat(typ)) % FPN_LIMIT
  {
    ShrFive(low);
    Masks();
    Widths();
    NatShr(low, 5);
    NatLow(low, 5);
    NatLow(off, 8);
    Reassemble(Nat(low), Nat(off), Nat(typ));
  }

  lemma ShrFive(w: bv32)
    ensures Shr(w, 5) == w >> 5
  {
  }

  lemma Reassemble(low: nat, off: nat, typ: nat)
    requires low / 32 == off % 256 && low % 32 == typ
    ensures low == (off * 32 + typ) % FPN_LIMIT
  {
  }

  // ---- virtual addresses ---------------------------------------------------

  const PAGE: nat := 256
  const MAX_PGN: nat := 16384

  function Pgn(addr: nat): nat { addr / PAGE % MAX_PGN }
  function Offst(addr: nat): nat { addr % PAGE }

  lemma PgnOfWord(addr: nat)
    requires addr < Pow2(32)
    ensures Nat(GetVal(Word(addr), PGN_MASK, 8)) == Pgn(addr)
  {
    PgnBits(Word(addr));
    NatOfWord(addr);
  }

  lemma PgnBits(w: bv32)
    ensures Nat(GetVal(w, PGN_MASK, 8)) == Nat(w) / PAGE % MAX_PGN
  {
    hide Nat, GenMask;
    MaskValues();
    assert GetVal(w, PGN_MASK, 8) == (w >> 8) & 0x3FFF;
    ShrEight(w);
    Masks();
    Widths();
    NatShr(w, 8);
    NatLow(w >> 8, 14);
  }

  lemma ShrEight(w: bv32)
    ensures Shr(w, 8) == w >> 8
  {
  }

  lemma OffstOfWord(addr: nat)
    requires addr < Pow2(32)
    ensures Nat(GetVal(Word(addr), OFFST_MASK, 0)) == Offst(addr)
  {
    OffstBits(Word(addr));
    NatOfWord(addr);
  }

  lemma OffstBits(w: bv32)
    ensures Nat(GetVal(w, OFFST_MASK, 0)) == Nat(w) % PAGE
  {
    hide Nat, GenMask;
    MaskValues();
    assert GetVal(w, OFFST_MASK, 0) == w & 0xFF;
    Masks();
    Widths();
    NatLow(w, 8);
  }

  // The two fields give an address back exactly when it lies in the 4 MB space.
  lemma AddressRebuilt(addr: nat)
    requires addr < Pow2(32)
    ensures Nat(GetVal(Word(addr), PGN_MASK, 8)) * PAGE + Nat(GetVal(Word(addr), OFFST_MASK, 0)) == addr
       <==> addr < MAX_PGN * PAGE
  {
    hide Nat, Word, GetVal, Pow2;
    PgnOfWord(addr);
    OffstOfWord(addr);
    Rebuilt(addr);
  }

  lemma Rebuilt(addr: nat)
    ensures Pgn(addr) * PAGE + Offst(addr) == addr <==> addr < MAX_PGN * PAGE
  {
  }

  // ---- NBITS (bitops.h:29-34) ------------------------------------------------

  function NBits2(n: bv32): nat { if n & 2 != 0 then 1 else 0 }
  function NBits4(n: bv32): nat { if n & 0xC != 0 then 2 + NBits2(n >> 2) else NBits2(n) }
  function NBits8(n: bv32): nat { if n & 0xF0 != 0 then 4 + NBits4(n >> 4) else NBits4(n) }
  function NBits16(n: bv32): nat { if n & 0xFF00 != 0 then 8 + NBits8(n >> 8) else NBits8(n) }
  function NBits32(n: bv32): nat { if n & 0xFFFF_0000 != 0 then 16 + NBits16(n >> 16) else NBits16(n) }
  function NBits(n: bv32): nat { if n == 0 then 0 else NBits32(n) }

  lemma NBitsHalf(n: bv32)
    requires n > 1
    ensures n >> 1 != 0 && NBits(n) == NBits(n >> 1) + 1
  {
  }

  // NBITS is the floor of the base-two logarithm.
  lemma {:induction false} NBitsIsLog(n: bv32)
    requires n != 0
    ensures Pow2(NBits(n)) <= Nat(n) < 2 * Pow2(NBits(n))
    decreases n
  {
    if n == 1 {
      assert Nat(1) == 1;
    } else {
      NBitsHalf(n);
      NBitsIsLog(n >> 1);
      NatHalf(n);
    }
  }
}

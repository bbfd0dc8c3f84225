/** The Sv39 address translation of the RISC-V Privileged Architecture, sections 4.3.2 and
    4.4, over physical memory given as page-table frames of 512 entries. */
module Sv39 {
  import opened Bits
  import opened Machine
  import opened Wrappers

  /** Frame number to the 512 entries stored in that frame. */
  type Tables = map<nat, seq<nat>>

  const VA_HALF: nat := 0x40_0000_0000
  const TWO_TO_THE_54: nat := 0x40_0000_0000_0000

  /** A translation: the physical address and the low ten bits of the leaf entry, from which
      permissions and the A and D bits are read. */
  datatype Mapping = Mapping(pa: nat, flags: nat)

  /** Binary digit `k` of an entry. */
  predicate Bit(e: nat, k: nat) {
    if k == 0 then e % 2 == 1 else Bit(e / 2, k - 1)
  }

  /** Step 3: V is set, not writable without being readable, and no reserved high bit is set. */
  predicate ValidEntry(e: nat) {
    Bit(e, 0) && !(Bit(e, 2) && !Bit(e, 1)) && e < TWO_TO_THE_54
  }

  /** Step 4: an entry that is readable or executable is a leaf. */
  predicate LeafEntry(e: nat) {
    Bit(e, 1) || Bit(e, 3)
  }

  /** Which accesses the flags of a leaf allow (bits R, W, X), and whether user mode may make
      them (bit U); V, A and D are set, so that the hardware need not write the entry. */
  predicate Allows(flags: nat, read: bool, write: bool, execute: bool, user: bool) {
    && Bit(flags, 0) && Bit(flags, 1) == read && Bit(flags, 2) == write && Bit(flags, 3) == execute
    && Bit(flags, 4) == user && Bit(flags, 6) && Bit(flags, 7)
  }

  function Ppn(e: nat): nat {
    e / 1024
  }

  /** Number of 4 KiB pages below one entry of a table at `level`. */
  function Span(level: nat): (r: nat)
    ensures r > 0
  {
    if level == 0 then 1 else if level == 1 then 512 else 0x4_0000
  }

  /** The nine bits of page number `vpn` that index a table at `level`. */
  function Index(vpn: nat, level: nat): (r: nat)
    ensures r < 512
  {
    vpn / Span(level) % 512
  }

  function Vpn(va: nat, level: nat): (r: nat)
    ensures r < 512
  {
    Index(va / 4096, level)
  }

  /** Bits 63 to 39 of an address must equal bit 38. */
  predicate CanonicalAddress(va: nat) {
    va < VA_HALF || TWO_TO_THE_64 - VA_HALF <= va < TWO_TO_THE_64
  }

  /** Steps 5 to 8: a leaf found at `level`; a misaligned superpage faults. */
  function LeafMapping(e: nat, va: nat, level: nat): Option<Mapping> {
    if Ppn(e) % Span(level) != 0 then None
    else Some(Mapping(Ppn(e) * 4096 + va % (4096 * Span(level)), e % 1024))
  }

  /** Steps 2 to 8, from the table in `frame`. */
  function Walk(m: Tables, frame: nat, va: nat, level: nat): Option<Mapping>
    decreases level
  {
    if frame !in m || |m[frame]| != 512 then None
    else
      var e := m[frame][Vpn(va, level)];
      if !ValidEntry(e) then None
      else if LeafEntry(e) then LeafMapping(e, va, level)
      else if level == 0 then None
      else Walk(m, Ppn(e), va, level - 1)
  }

  /** Translation of a virtual address; `None` is a page fault. */
  function Translate(m: Tables, root: nat, va: nat): Option<Mapping> {
    if CanonicalAddress(va) then Walk(m, root, va, 2) else None
  }

  /** The three index fields determine the page of a low-half address. */
  lemma VpnsDeterminePage(v: nat, w: nat)
    requires v < VA_HALF && w < VA_HALF
    requires Vpn(v, 0) == Vpn(w, 0) && Vpn(v, 1) == Vpn(w, 1) && Vpn(v, 2) == Vpn(w, 2)
    ensures v / 4096 == w / 4096
  {
    Recompose(v / 4096);
    Recompose(w / 4096);
  }

  lemma Recompose(p: nat)
    requires p < 0x400_0000
    ensures p == p % 512 + 512 * (p / 512 % 512) + 0x4_0000 * (p / 0x4_0000 % 512)
  {
    var q := p / 512;
    assert q / 512 == p / 0x4_0000;
    assert p / 0x4_0000 < 512;
  }

  /** Low-half addresses use the lower 256 root entries, high-half addresses the upper 256. */
  lemma RootHalves(va: nat)
    requires CanonicalAddress(va)
    ensures Vpn(va, 2) < 256 <==> va < VA_HALF
  {
    if va >= VA_HALF {
      HighHalfIndex(va - (TWO_TO_THE_64 - VA_HALF));
    }
  }

  /** Root index of the address `d` bytes into the high half. */
  lemma HighHalfIndex(d: nat)
    requires d < VA_HALF
    ensures Vpn(TWO_TO_THE_64 - VA_HALF + d, 2) == 256 + d / 0x4000_0000
  {
    var va := TWO_TO_THE_64 - VA_HALF + d;
    assert va / 4096 == 0xF_FFFF_FC00_0000 + d / 4096;
    assert va / 4096 / 0x4_0000 == 0x3_FFFF_FF00 + d / 4096 / 0x4_0000;
    assert d / 4096 / 0x4_0000 == d / 0x4000_0000;
  }

  /** A digit below bit `j` does not depend on the bits from `j` up. */
  lemma {:induction false} BitLow(x: nat, p: nat, j: nat, k: nat)
    requires k < j
    ensures Bit(x * Pow2(j) + p, k) == Bit(p, k)
  {
    var y := x * Pow2(j - 1);
    assert x * Pow2(j) == 2 * y;
    if k > 0 {
      BitLow(x, p / 2, j - 1, k - 1);
      assert (2 * y + p) / 2 == y + p / 2;
    }
  }

  /** The flag bits of an entry are those of its low ten bits. */
  lemma LeafBits(ppn: nat, prot: nat)
    requires prot < 1024 && ppn < 0x1000_0000_0000
    ensures var e := ppn * 1024 + prot;
      && (ValidEntry(e) <==> ValidEntry(prot)) && (LeafEntry(e) <==> LeafEntry(prot))
      && Ppn(e) == ppn && e % 1024 == prot
  {
    hide Bit;
    Powers();
    BitLow(ppn, prot, 10, 0);
    BitLow(ppn, prot, 10, 1);
    BitLow(ppn, prot, 10, 2);
    BitLow(ppn, prot, 10, 3);
  }

  // ----- addresses that share tables -----

  /** The addresses use the same entry of the same table at `level`: at level 2 they lie in the
      same GiB, at level 1 in the same 2 MiB. */
  predicate SameSlot(v: nat, w: nat, level: nat) {
    v / 4096 / Span(level) == w / 4096 / Span(level)
  }

  /** Number of tables below the root that two addresses share. */
  function Shared(v: nat, w: nat): nat {
    if SameSlot(v, w, 1) then 2 else if SameSlot(v, w, 2) then 1 else 0
  }

  function Min(a: nat, b: nat): nat {
    if a < b then a else b
  }

  function Max(a: nat, b: nat): nat {
    if a < b then b else a
  }

  lemma SlotsNest(v: nat, w: nat)
    requires SameSlot(v, w, 1)
    ensures SameSlot(v, w, 2)
  {
    assert v / 4096 / 0x4_0000 == v / 4096 / 512 / 512;
    assert w / 4096 / 0x4_0000 == w / 4096 / 512 / 512;
  }

  lemma SameSlotAs(w: nat, x: nat, v: nat, level: nat)
    ensures w / 4096 == x / 4096 ==> (SameSlot(w, v, level) <==> SameSlot(x, v, level))
    ensures SameSlot(v, w, level) <==> SameSlot(w, v, level)
  {
  }

  /** In the user half, slots are given by the index fields. */
  lemma SlotsAreIndices(v: nat, w: nat)
    requires v < VA_HALF && w < VA_HALF
    ensures SameSlot(v, w, 2) <==> Vpn(v, 2) == Vpn(w, 2)
    ensures SameSlot(v, w, 1) <==> Vpn(v, 2) == Vpn(w, 2) && Vpn(v, 1) == Vpn(w, 1)
  {
    HalfIndices(v);
    HalfIndices(w);
  }

  lemma HalfIndices(v: nat)
    requires v < VA_HALF
    ensures Vpn(v, 2) == v / 4096 / Span(2) < 256
    ensures v / 4096 / Span(1) == 512 * Vpn(v, 2) + Vpn(v, 1)
  {
    var q := v / 4096 / 512;
    assert q / 512 == v / 4096 / 0x4_0000;
  }
}

/** Properties of the allocator over several calls and over whole runs. */
module BuddyTheorems {
  import opened Bits
  import opened Machine
  import opened Sequences
  import opened Tilings
  import opened PageLists
  import opened Reservation
  import opened ReservedLists
  import opened BuddyAllocator

  /** The zone of both programs: NUM_PAGES 0x280000, MAX_ORDER 10. */
  lemma {:induction false} SourceZone()
    ensures Zone(10, 0x280000).Valid()
  {
  }

  /** A block that is handed out overlaps no block already in use. */
  lemma AllocDisjoint(z: Zone, t: Tiling, u: Tiling, r: nat, o: nat, h: nat)
    requires Tiles(z, t) && AllocStep(z, t, u, r, o) && h in t && t[h].live
    ensures End(t, h) <= r || r + Pow2(o) <= h
  {
    if r < End(t, h) && h < r + Pow2(o) {
      var p := if r < h then h else r;
      assert InBlock(t, h, p) && FreePage(t, p);
      Partition(z, t, p);
      assert LivePage(t, p);
    }
  }

  /** Whatever the order of earlier calls, the free lists hold the same blocks whenever the
      live blocks are the same. */
  lemma CanonicalLists(z: Zone, t: Tiling, mem: seq<Page>, free: seq<seq<nat>>,
                       u: Tiling, mem': seq<Page>, free': seq<seq<nat>>, o: nat)
    requires Tiles(z, t) && Coalesced(z, t) && Rep(z, t, mem, free)
    requires Tiles(z, u) && Coalesced(z, u) && Rep(z, u, mem', free')
    requires LiveBlocks(t) == LiveBlocks(u) && o <= z.maxOrder
    ensures multiset(free[o]) == multiset(free'[o])
  {
    Canonical(z, t, u);
    assert forall h: nat :: h in free[o] <==> h in free'[o];
    SameElements(free[o], free'[o]);
  }

  lemma {:induction false} SameElements(a: seq<nat>, b: seq<nat>)
    requires Distinct(a) && Distinct(b) && forall h: nat :: h in a <==> h in b
    ensures multiset(a) == multiset(b)
  {
    DistinctMultiplicity(a);
    DistinctMultiplicity(b);
    forall h: nat ensures multiset(a)[h] == multiset(b)[h] {
      assert h in a <==> h in multiset(a);
      assert h in b <==> h in multiset(b);
    }
  }

  lemma {:induction false} DistinctMultiplicity(s: seq<nat>)
    requires Distinct(s)
    ensures forall h :: multiset(s)[h] <= 1
  {
    if s != [] {
      DistinctMultiplicity(s[1..]);
      assert s == [s[0]] + s[1..];
      assert s[0] !in s[1..];
    }
  }

  /** Once every block is free again, in whatever order they were freed, memory is back to
      free MAX_ORDER blocks only. */
  lemma AllFreeIsInitial(z: Zone, t: Tiling)
    requires z.Valid() && Tiles(z, t) && Coalesced(z, t) && LiveBlocks(t) == map[]
    ensures t == Initial(z)
  {
    InitialTiles(z);
    assert LiveBlocks(Initial(z)) == map[];
    Canonical(z, t, Initial(z));
  }

  /** Freeing a block right after it was allocated restores the state before. */
  lemma FreeUndoesAlloc(z: Zone, t: Tiling, u: Tiling, v: Tiling, r: nat, o: nat)
    requires Tiles(z, t) && Coalesced(z, t) && Tiles(z, v) && Coalesced(z, v)
    requires AllocStep(z, t, u, r, o) && FreeStep(u, v, r)
    ensures v == t
  {
    assert FreePage(t, r);
    FreePageNotHead(z, t, r);
    assert LiveBlocks(v) == LiveBlocks(t);
    Canonical(z, v, t);
  }

  lemma FreePageNotHead(z: Zone, t: Tiling, p: nat)
    requires Tiles(z, t) && FreePage(t, p)
    ensures p !in LiveBlocks(t)
  {
  }

  /** Two frees commute. */
  lemma FreesCommute(z: Zone, t: Tiling, a: Tiling, ab: Tiling, b: Tiling, ba: Tiling, p: nat, q: nat)
    requires Tiles(z, ab) && Coalesced(z, ab) && Tiles(z, ba) && Coalesced(z, ba)
    requires FreeStep(t, a, p) && FreeStep(a, ab, q) && FreeStep(t, b, q) && FreeStep(b, ba, p)
    ensures ab == ba
  {
    assert LiveBlocks(ab) == LiveBlocks(t) - {p} - {q} == LiveBlocks(ba);
    Canonical(z, ab, ba);
  }

  // ----- memory_reserve -----

  /** The outcome of a reservation is determined: it is the coalesced tiling in which exactly
      pages `lo..hi` have become live, as the largest aligned blocks that fit. */
  lemma CarvedUnique(z: Zone, t: Tiling, u: Tiling, v: Tiling, lo: nat, hi: nat)
    requires Tiles(z, t) && Tiles(z, u) && Coalesced(z, u) && Tiles(z, v) && Coalesced(z, v)
    requires Carved(z, t, u, lo, hi + 1, hi) && Carved(z, t, v, lo, hi + 1, hi)
    ensures u == v
  {
    forall h | h in LiveBlocks(u) ensures h in LiveBlocks(v) && LiveBlocks(v)[h] == LiveBlocks(u)[h] {
      CarvedSame(z, t, u, v, lo, hi, h);
    }
    forall h | h in LiveBlocks(v) ensures h in LiveBlocks(u) && LiveBlocks(u)[h] == LiveBlocks(v)[h] {
      CarvedSame(z, t, v, u, lo, hi, h);
    }
    Canonical(z, u, v);
  }

  lemma CarvedSame(z: Zone, t: Tiling, u: Tiling, v: Tiling, lo: nat, hi: nat, h: nat)
    requires Tiles(z, t) && Tiles(z, u) && Tiles(z, v) && h in u && u[h].live
    requires Carved(z, t, u, lo, hi + 1, hi) && Carved(z, t, v, lo, hi + 1, hi)
    ensures h in v && v[h] == u[h]
  {
    assert OldOrCarved(z, t, u, lo, hi + 1, hi, h);
    if !(h in t && t[h] == u[h]) {
      assert FreePage(t, h) && !FreePage(v, h);
      var g := LiveBlockAt(z, t, v, h);
      if g in t && t[g] == v[g] {
        assert InBlock(t, g, h) && LivePage(t, h);
        Partition(z, t, h);
        assert false;
      }
      assert OldOrCarved(z, t, v, lo, hi + 1, hi, g);
      LargestFits(z, u, v, lo, hi, h, g, h);
    }
  }

  lemma LiveBlockAt(z: Zone, t: Tiling, v: Tiling, p: nat) returns (g: nat)
    requires Tiles(z, t) && Tiles(z, v) && FreePage(t, p) && !FreePage(v, p)
    ensures InBlock(v, g, p) && v[g].live
  {
    Partition(z, t, p);
    Partition(z, v, p);
    g :| InBlock(v, g, p) && v[g].live;
  }

  /** Two blocks that share a page and are both the largest that fit are the same block. */
  lemma LargestFits(z: Zone, u: Tiling, v: Tiling, lo: nat, hi: nat, h: nat, g: nat, p: nat)
    requires Tiles(z, u) && Tiles(z, v) && InBlock(u, h, p) && InBlock(v, g, p)
    requires lo <= h && End(u, h) <= hi + 1 && lo <= g && End(v, g) <= hi + 1
    requires u[h].order == z.maxOrder || ParentOut(lo, hi, h, u[h].order)
    requires v[g].order == z.maxOrder || ParentOut(lo, hi, g, v[g].order)
    ensures h == g && u[h].order == v[g].order
  {
    var a, b := u[h].order, v[g].order;
    if a < b {
      ParentFits(h, a, g, b, p);
    } else if b < a {
      ParentFits(g, b, h, a, p);
    } else {
      RoundDownUnique(p, a, h);
      RoundDownUnique(p, a, g);
    }
  }

  /** The parent of a block lies inside any larger block that shares a page with it. */
  lemma ParentFits(h: nat, a: nat, g: nat, b: nat, p: nat)
    requires a < b && Aligned(h, a) && Aligned(g, b) && h <= p < h + Pow2(a) && g <= p < g + Pow2(b)
    ensures g <= RoundDown(h, a + 1) && RoundDown(h, a + 1) + Pow2(a + 1) <= g + Pow2(b)
  {
    hide Aligned, RoundDown, Pow2;
    var parent := RoundDown(h, a + 1);
    RoundDownIs(h, a + 1);
    ParentHolds(h, a, p);
    AlignedWeaken(g, a + 1, b);
    if parent < g { AlignedGap(parent, g, a + 1); }
    Nested(g, b, parent, a + 1);
  }

  /** All pages of a block lie in its parent. */
  lemma ParentHolds(h: nat, a: nat, p: nat)
    requires Aligned(h, a) && h <= p < h + Pow2(a)
    ensures RoundDown(h, a + 1) <= p < RoundDown(h, a + 1) + Pow2(a + 1)
  {
    hide Aligned, RoundDown;
    RoundDownIs(h, a + 1);
    Nested(RoundDown(h, a + 1), a + 1, h, a);
  }

  /** A reservation leaves every MAX_ORDER block outside its range whole and free, so a later
      reservation there succeeds as well. */
  lemma ReserveElsewhere(z: Zone, t: Tiling, u: Tiling, lo: nat, hi: nat, top: nat)
    requires Tiles(z, t) && Tiles(z, u) && Coalesced(z, u) && Carved(z, t, u, lo, hi + 1, hi)
    requires TopFree(z, t, top) && (hi < top || top + Pow2(z.maxOrder) <= lo)
    ensures TopFree(z, u, top)
  {
    TopBlockIsRun(z, t, top);
    assert FreeRun(z, u, top, z.maxOrder);
    TopRunIsBlock(z, u, top);
  }

  /** With a reserved page in it, a MAX_ORDER block makes every later reservation that touches
      it end in "Not found". */
  lemma ReserveTwiceFails(z: Zone, t: Tiling, u: Tiling, lo: nat, hi: nat, lo': nat, hi': nat, top: nat)
    requires Tiles(z, t) && Tiles(z, u) && Carved(z, t, u, lo, hi + 1, hi) && lo <= hi && lo' <= hi'
    requires Aligned(top, z.maxOrder) && top <= hi && lo < top + Pow2(z.maxOrder)
    requires top <= hi' && lo' < top + Pow2(z.maxOrder)
    ensures !TopsFree(z, u, lo', hi' + 1)
  {
    var p := if lo < top then top else lo;
    if TopFree(z, u, top) {
      assert InBlock(u, top, p);
      assert FreePage(u, p);
    }
  }

  /** A reservation that ends normally keeps memory coalesced exactly if its page range is not
      empty or the block it would have split was not free. */
  lemma ReserveCoalesced(z: Zone, t: Tiling, u: Tiling, lo: nat, hi: nat)
    requires z.Valid() && Tiles(z, t) && Coalesced(z, t) && Finished(z, t, u, lo, hi)
    ensures Coalesced(z, u) <==> lo <= hi || !TopFree(z, t, RoundDown(lo, z.maxOrder))
  {
    if hi < lo && TopFree(z, t, RoundDown(lo, z.maxOrder)) {
      EmptyRangeSplits(z, t, RoundDown(lo, z.maxOrder));
    }
  }

  /** Bytes that 32-bit page numbers tell apart: 2^44. */
  const PFN_SPAN: nat := PAGE_SIZE * TWO_TO_THE_32

  /** Narrowing a page number to 32 bits takes the address modulo 2^44. */
  lemma NarrowPage(n: nat)
    ensures n / PAGE_SIZE % TWO_TO_THE_32 == n % PFN_SPAN / PAGE_SIZE
  {
    var q, r := n / PFN_SPAN, n % PFN_SPAN;
    assert n == PAGE_SIZE * (q * TWO_TO_THE_32) + r;
    assert n / PAGE_SIZE == q * TWO_TO_THE_32 + r / PAGE_SIZE;
    ModUnique(n / PAGE_SIZE, TWO_TO_THE_32, q, r / PAGE_SIZE);
  }

  lemma EndPage(n: nat)
    ensures n % TWO_TO_THE_64 / PAGE_SIZE % TWO_TO_THE_32 == n % PFN_SPAN / PAGE_SIZE
  {
    NarrowPage(n % TWO_TO_THE_64);
    var q, x := n / TWO_TO_THE_64, n % TWO_TO_THE_64;
    assert n == (q * 0x10_0000 + x / PFN_SPAN) * PFN_SPAN + x % PFN_SPAN;
    ModUnique(n, PFN_SPAN, q * 0x10_0000 + x / PFN_SPAN, x % PFN_SPAN);
  }

  /** The narrowed numbers are those of the first and last page meant exactly below 2^44. */
  lemma PageRange(base: nat, size: nat)
    requires base + size > 0
    ensures StartPfn(base) == base / PAGE_SIZE <==> base < PFN_SPAN
    ensures base + size <= TWO_TO_THE_64 ==>
              (EndPfn(base, size) == (base + size - 1) / PAGE_SIZE <==> base + size <= PFN_SPAN)
  {
    NarrowedSame(base);
    NarrowedSame(base + size - 1);
  }

  lemma NarrowedSame(n: nat)
    ensures n / PAGE_SIZE % TWO_TO_THE_32 == n / PAGE_SIZE <==> n < PFN_SPAN
  {
  }

  /** When the page range is empty, for every address and size: with size 0, at a page boundary
      that is no multiple of 2^44; otherwise, if the range crosses a multiple of 2^44 and does
      not reach its first page again. */
  lemma EmptyRange(base: nat, size: nat)
    ensures var b, m := base % PFN_SPAN, (size - 1) % PFN_SPAN;
      EndPfn(base, size) < StartPfn(base)
      <==> if size == 0 then b > 0 && b % PAGE_SIZE == 0
           else b + m >= PFN_SPAN && (b + m - PFN_SPAN) / PAGE_SIZE < b / PAGE_SIZE
  {
    hide EndPfn;
    NarrowPage(base);
    if base + size == 0 {
      assert EndPfn(0, 0) == TWO_TO_THE_32 - 1 by { EndOfNothing(); }
    } else {
      var b, n := base % PFN_SPAN, base + size - 1;
      EndPage(n);
      EndIs(base, size);
      if size == 0 {
        BeforeBase(base);
      } else {
        SumModulo(base, size - 1);
      }
    }
  }

  lemma EndIs(base: nat, size: nat)
    requires base + size > 0
    ensures EndPfn(base, size) == (base + size - 1) % TWO_TO_THE_64 / PAGE_SIZE % TWO_TO_THE_32
  {
  }

  lemma EndOfNothing()
    ensures EndPfn(0, 0) == TWO_TO_THE_32 - 1
  {
  }

  /** The last byte before `base`, modulo 2^44. */
  lemma BeforeBase(base: nat)
    requires base > 0
    ensures var b, e := base % PFN_SPAN, (base - 1) % PFN_SPAN;
      e / PAGE_SIZE < b / PAGE_SIZE <==> b > 0 && b % PAGE_SIZE == 0
  {
    var b := base % PFN_SPAN;
    if b > 0 { ModUnique(base - 1, PFN_SPAN, base / PFN_SPAN, b - 1); }
  }

  lemma SumModulo(x: nat, y: nat)
    ensures var b, m := x % PFN_SPAN, y % PFN_SPAN;
      (x + y) % PFN_SPAN == if b + m < PFN_SPAN then b + m else b + m - PFN_SPAN
  {
    var b, m, q := x % PFN_SPAN, y % PFN_SPAN, x / PFN_SPAN + y / PFN_SPAN;
    if b + m < PFN_SPAN {
      ModUnique(x + y, PFN_SPAN, q, b + m);
    } else {
      ModUnique(x + y, PFN_SPAN, q + 1, b + m - PFN_SPAN);
    }
  }

  /** Below 2^44 that leaves size 0 at a page boundary other than address 0. */
  lemma EmptyRangeBelow(base: nat, size: nat)
    requires base + size <= PFN_SPAN
    ensures EndPfn(base, size) < StartPfn(base) <==> size == 0 && 0 < base < PFN_SPAN && base % PAGE_SIZE == 0
  {
    EmptyRange(base, size);
  }

  /** Reserving almost 2^44 bytes at 0x1000 in fresh memory reserves nothing, and splits the
      first MAX_ORDER block for good. */
  lemma NarrowedToNothing(z: Zone, u: Tiling)
    requires z.Valid() && Finished(z, Initial(z), u, StartPfn(0x1000), EndPfn(0x1000, 0xfff_ffff_f001))
    ensures LiveBlocks(u) == map[] && !Coalesced(z, u)
  {
    hide Finished, StartPfn, EndPfn, LiveBlocks, Coalesced, Initial, Zone.Valid;
    NarrowedNumbers();
    FirstBlockSplit(z, u);
  }

  lemma NarrowedNumbers()
    ensures StartPfn(0x1000) == 1 && EndPfn(0x1000, 0xfff_ffff_f001) == 0
  {
  }

  lemma FirstBlockSplit(z: Zone, u: Tiling)
    requires z.Valid() && Finished(z, Initial(z), u, 1, 0)
    ensures LiveBlocks(u) == map[] && !Coalesced(z, u)
  {
    hide RoundDown, Aligned, Pow2, Tiles, Coalesced, Initial, LiveBlocks, Split, Zone.Valid;
    InitialTiles(z);
    FirstBlockFree(z);
    ReserveCoalesced(z, Initial(z), u, 1, 0);
    SplitNoneLive(z, RoundDown(1, z.maxOrder));
  }

  lemma SplitNoneLive(z: Zone, top: nat)
    requires z.maxOrder > 0 && TopFree(z, Initial(z), top)
    ensures LiveBlocks(Split(Initial(z), top, false, false)) == map[]
  {
    hide Aligned, Pow2;
  }

  /** One page at 2^44 is taken for page 0. */
  lemma NarrowedToZero()
    ensures StartPfn(PFN_SPAN) == 0 && EndPfn(PFN_SPAN, 0x1000) == 0
  {
  }

  /** On fresh memory a reservation finds all its blocks exactly if it ends inside memory. */
  lemma FirstReservation(z: Zone, lo: nat, hi: nat)
    requires z.Valid() && lo <= hi
    ensures TopsFree(z, Initial(z), lo, hi + 1) <==> hi < z.numPages
  {
    hide RoundDown, Aligned, Pow2;
    InitialTiles(z);
    var top := RoundDown(hi, z.maxOrder);
    RoundDownIs(hi, z.maxOrder);
    if hi >= z.numPages {
      if TopFree(z, Initial(z), top) { TopInside(z, Initial(z), top); }
    }
  }

  /** `mm_init`: all of memory is freed and the first 0x82a69510 bytes are reserved. */
  method MmInit() returns (a: Allocator)
    ensures a.Valid() && a.zone == Zone(10, 0x28_0000)
    ensures Carved(a.zone, Initial(a.zone), a.tiles, 0, 0x8_2a6a, 0x8_2a69)
    ensures forall p: nat :: FreePage(a.tiles, p) <==> 0x8_2a69 < p < 0x28_0000
    ensures a.freeArea.Length == 11 && Ascending(a.freeArea[10])
    ensures forall k :: 0 <= k < 10 ==> Descending(a.freeArea[k])
  {
    hide Finished, ListsFinished, TopsFree, Carved, FreePage, Coalesced, Initial, StartPfn, EndPfn;
    hide Allocator.Sound, Zone.Valid, Pow2;
    SourceZone();
    MmPages();
    a := new Allocator(Zone(10, 0x28_0000));
    FirstReservation(a.zone, 0, 0x8_2a69);
    ghost var lists := a.freeArea[..];
    var ok := a.MemoryReserve(0, 0x82a6_9510);
    MmInitDone(a.zone, a.tiles);
    MmInitLists(a.zone, Initial(a.zone), lists, a.freeArea[..], 0x8_2a69);
  }

  lemma MmInitLists(z: Zone, t: Tiling, was: seq<seq<nat>>, now: seq<seq<nat>>, hi: nat)
    requires ListsFinished(z, t, was, now, 0, hi)
    requires |was| == z.maxOrder + 1 && Ascending(was[z.maxOrder]) && forall k :: 0 <= k < z.maxOrder ==> was[k] == []
    ensures |now| == |was| && Ascending(now[z.maxOrder])
    ensures forall k :: 0 <= k < z.maxOrder ==> Descending(now[k])
  {
    AmongAscending(was[z.maxOrder], now[z.maxOrder]);
    assert forall k :: 0 <= k < z.maxOrder ==> Front(was[k], now[k]) == now[k];
  }

  lemma {:induction false} AmongAscending(s: seq<nat>, c: seq<nat>)
    requires Ascending(s)
    ensures Ascending(Among(s, c))
  {
    if s != [] {
      AmongAscending(s[1..], c);
      var rest := Among(s[1..], c);
      assert forall i :: 0 <= i < |rest| ==> rest[i] in rest;
      assert forall i :: 0 <= i < |rest| ==> s[0] < rest[i];
    }
  }

  lemma MmPages()
    ensures StartPfn(0) == 0 && EndPfn(0, 0x82a6_9510) == 0x8_2a69
  {
  }

  lemma MmInitDone(z: Zone, u: Tiling)
    requires z.Valid() && z == Zone(10, 0x28_0000) && Finished(z, Initial(z), u, 0, 0x8_2a69)
    ensures Coalesced(z, u) && Carved(z, Initial(z), u, 0, 0x8_2a6a, 0x8_2a69)
    ensures forall p: nat :: FreePage(u, p) <==> 0x8_2a69 < p < 0x28_0000
  {
    hide FreePage, Coalesced, Initial, Zone.Valid, TopsFree, OldOrCarved;
    forall p: nat ensures FreePage(Initial(z), p) <==> p < 0x28_0000 { InitialFree(z, p); }
  }

  lemma InitialFree(z: Zone, p: nat)
    requires z.Valid()
    ensures FreePage(Initial(z), p) <==> p < z.numPages
  {
    InitialTiles(z);
    Partition(z, Initial(z), p);
  }

  /** At address 0 the last page of no bytes wraps to the last 32-bit page number, so that
      `memory_reserve(0, 0)` asks for all of memory and more, and ends in "Not found". */
  lemma ReserveNothingAtZero(z: Zone, t: Tiling)
    requires Tiles(z, t) && z.numPages < TWO_TO_THE_32
    ensures StartPfn(0) == 0 && EndPfn(0, 0) == TWO_TO_THE_32 - 1
    ensures !TopsFree(z, t, StartPfn(0), EndPfn(0, 0) + 1)
  {
    var top := RoundDown(z.numPages, z.maxOrder);
    RoundDownIs(z.numPages, z.maxOrder);
    if TopFree(z, t, top) { TopInside(z, t, top); }
  }

  lemma TopInside(z: Zone, t: Tiling, top: nat)
    requires Tiles(z, t) && TopFree(z, t, top)
    ensures top + Pow2(z.maxOrder) <= z.numPages
  {
    assert End(t, top) == top + Pow2(z.maxOrder);
  }

  /** Reserving no bytes at 0x1000 in fresh memory splits the first MAX_ORDER block for good. */
  lemma {:induction false} ReserveNothing(z: Zone)
    requires z.Valid()
    ensures EndPfn(0x1000, 0) < StartPfn(0x1000)
    ensures TopFree(z, Initial(z), RoundDown(StartPfn(0x1000), z.maxOrder))
  {
    assert StartPfn(0x1000) == 1;
    FirstBlockFree(z);
  }

  lemma FirstBlockFree(z: Zone)
    requires z.Valid()
    ensures TopFree(z, Initial(z), RoundDown(1, z.maxOrder))
  {
    hide RoundDown, Aligned;
    AlignedZero(z.maxOrder);
    Pow2Monotone(1, z.maxOrder);
    RoundDownUnique(1, z.maxOrder, 0);
  }

  // ----- runs -----

  /** What a client sees: the blocks it holds, and the pages set aside by reservations. */
  datatype Client = Client(tiles: Tiling, owned: map<nat, nat>, reserved: set<nat>)

  /** The pages `lo` to `hi`, inclusive. */
  ghost function Pages(lo: nat, hi: nat): (r: set<nat>)
    ensures forall p :: p in r <==> lo <= p <= hi
    decreases hi - lo
  {
    if hi < lo then {} else {lo} + Pages(lo + 1, hi)
  }

  datatype Event =
    | Alloc(page: nat, order: nat)
    | AllocFail
    | Free(page: nat)
    | Reserve(lo: nat, hi: nat)

  /** One call. A client frees only blocks that it was given. */
  ghost predicate Step(z: Zone, c: Client, e: Event, d: Client) {
    && Tiles(z, d.tiles) && Coalesced(z, d.tiles)
    && match e
       case Alloc(r, o) =>
         AllocStep(z, c.tiles, d.tiles, r, o) && d.owned == c.owned[r := o] && d.reserved == c.reserved
       case AllocFail => d == c
       case Free(p) =>
         p in c.owned && FreeStep(c.tiles, d.tiles, p) && d.owned == c.owned - {p} && d.reserved == c.reserved
       case Reserve(lo, hi) =>
         && Carved(z, c.tiles, d.tiles, lo, hi + 1, hi) && d.owned == c.owned
         && d.reserved == c.reserved + Pages(lo, hi)
  }

  /** Reserved pages lie in live blocks that no client holds; held blocks are live. */
  ghost predicate Kept(z: Zone, c: Client) {
    && Tiles(z, c.tiles) && Coalesced(z, c.tiles)
    && (forall h :: h in c.owned ==> h in LiveBlocks(c.tiles) && LiveBlocks(c.tiles)[h] == c.owned[h])
    && (forall p :: p in c.reserved ==> Withheld(c, p))
  }

  ghost predicate Withheld(c: Client, p: nat) {
    exists h :: InBlock(c.tiles, h, p) && c.tiles[h].live && h !in c.owned
  }

  ghost predicate Run(z: Zone, cs: seq<Client>, es: seq<Event>) {
    && |cs| == |es| + 1
    && forall i :: 0 <= i < |es| ==> Step(z, cs[i], es[i], cs[i + 1])
  }

  lemma StepKeeps(z: Zone, c: Client, e: Event, d: Client)
    requires Kept(z, c) && Step(z, c, e, d)
    ensures Kept(z, d)
  {
    assert forall h :: h in c.tiles && c.tiles[h].live <==> h in LiveBlocks(c.tiles);
    match e {
      case Alloc(r, o) => AllocKeeps(z, c, r, o, d);
      case AllocFail =>
      case Free(q) => FreeKeeps(z, c, q, d);
      case Reserve(lo, hi) => ReserveKeeps(z, c, lo, hi, d);
    }
  }

  lemma StillLive(t: Tiling, u: Tiling, h: nat, p: nat)
    requires InBlock(t, h, p) && t[h].live && h in LiveBlocks(u) && LiveBlocks(u)[h] == t[h].order
    ensures InBlock(u, h, p) && u[h].live
  {
  }

  lemma AllocKeeps(z: Zone, c: Client, r: nat, o: nat, d: Client)
    requires Kept(z, c) && Step(z, c, Alloc(r, o), d)
    ensures Kept(z, d)
  {
    hide Tiles, Coalesced;
    forall p | p in d.reserved ensures Withheld(d, p) {
      assert Withheld(c, p);
      var h :| InBlock(c.tiles, h, p) && c.tiles[h].live && h !in c.owned;
      AllocDisjoint(z, c.tiles, d.tiles, r, o, h);
      assert h in LiveBlocks(c.tiles) && LiveBlocks(c.tiles)[h] == c.tiles[h].order;
      StillLive(c.tiles, d.tiles, h, p);
    }
  }

  lemma FreeKeeps(z: Zone, c: Client, q: nat, d: Client)
    requires Kept(z, c) && Step(z, c, Free(q), d)
    ensures Kept(z, d)
  {
    forall p | p in d.reserved ensures Withheld(d, p) {
      assert Withheld(c, p);
      var h :| InBlock(c.tiles, h, p) && c.tiles[h].live && h !in c.owned;
      assert h in LiveBlocks(c.tiles) && LiveBlocks(c.tiles)[h] == c.tiles[h].order;
      StillLive(c.tiles, d.tiles, h, p);
    }
  }

  lemma ReserveKeeps(z: Zone, c: Client, lo: nat, hi: nat, d: Client)
    requires Kept(z, c) && Step(z, c, Reserve(lo, hi), d)
    ensures Kept(z, d)
  {
    forall h | h in d.owned ensures h in LiveBlocks(d.tiles) && LiveBlocks(d.tiles)[h] == d.owned[h] {
      assert h in LiveBlocks(c.tiles) && h in c.tiles && c.tiles[h].live;
    }
    forall p | p in d.reserved ensures Withheld(d, p) {
      if p in c.reserved {
        assert Withheld(c, p);
        var h :| InBlock(c.tiles, h, p) && c.tiles[h].live && h !in c.owned;
        assert InBlock(d.tiles, h, p) && d.tiles[h].live;
      } else {
        assert FreePage(c.tiles, p) && !FreePage(d.tiles, p);
        var h := LiveBlockAt(z, c.tiles, d.tiles, p);
        if h in c.owned {
          assert h in LiveBlocks(c.tiles) && InBlock(c.tiles, h, p) && LivePage(c.tiles, p);
          Partition(z, c.tiles, p);
        }
      }
    }
  }

  /** Memory as the initialisation leaves it, with nothing handed out. */
  lemma StartKept(z: Zone)
    requires z.Valid()
    ensures Kept(z, Client(Initial(z), map[], {}))
  {
    InitialTiles(z);
  }

  lemma {:induction false} RunKeeps(z: Zone, cs: seq<Client>, es: seq<Event>, i: nat)
    requires Run(z, cs, es) && Kept(z, cs[0]) && i < |cs|
    ensures Kept(z, cs[i])
  {
    if i > 0 {
      RunKeeps(z, cs, es, i - 1);
      StepKeeps(z, cs[i - 1], es[i - 1], cs[i]);
    }
  }

  /** Reserved stays reserved: in every run, a reserved page is never free again and no block
      handed out later contains it. */
  lemma {:induction false} ReservedStays(z: Zone, cs: seq<Client>, es: seq<Event>, i: nat, j: nat, p: nat)
    requires Run(z, cs, es) && Kept(z, cs[0]) && i <= j < |cs| && p in cs[i].reserved
    ensures p in cs[j].reserved && LivePage(cs[j].tiles, p) && !FreePage(cs[j].tiles, p)
    ensures j < |es| && es[j].Alloc? ==> !(es[j].page <= p < es[j].page + Pow2(es[j].order))
    decreases j
  {
    hide Step, Kept, FreePage, LivePage, Pow2;
    if i < j {
      ReservedStays(z, cs, es, i, j - 1, p);
      assert Step(z, cs[j - 1], es[j - 1], cs[j]);
      ReservedGrows(z, cs[j - 1], es[j - 1], cs[j]);
    }
    RunKeeps(z, cs, es, j);
    ReservedIsLive(z, cs[j], p);
    if j < |es| {
      assert Step(z, cs[j], es[j], cs[j + 1]);
      NotHandedOut(z, cs[j], es[j], cs[j + 1], p);
    }
  }

  lemma ReservedGrows(z: Zone, c: Client, e: Event, d: Client)
    requires Step(z, c, e, d)
    ensures c.reserved <= d.reserved
  {
    hide Tiles, Coalesced, Carved;
  }

  lemma ReservedIsLive(z: Zone, c: Client, p: nat)
    requires Kept(z, c) && p in c.reserved
    ensures LivePage(c.tiles, p) && !FreePage(c.tiles, p)
  {
    assert Withheld(c, p);
    Partition(z, c.tiles, p);
  }

  /** A block that is handed out holds no page that was not free. */
  lemma NotHandedOut(z: Zone, c: Client, e: Event, d: Client, p: nat)
    requires Step(z, c, e, d) && !FreePage(c.tiles, p)
    ensures e.Alloc? ==> !(e.page <= p < e.page + Pow2(e.order))
  {
    hide Tiles, Coalesced, FreePage;
  }
}

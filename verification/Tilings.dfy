/** The abstract view of the page array: memory is cut into aligned power-of-two blocks.
    A tiling maps the first page of each block to the block's order and whether it is in
    use. Interior pages do not occur, so nothing here depends on their stale fields. */
module Tilings {
  import opened Bits

  datatype Tile = Tile(order: nat, live: bool)

  type Tiling = map<nat, Tile>

  /** MAX_ORDER and NUM_PAGES. */
  datatype Zone = Zone(maxOrder: nat, numPages: nat) {
    predicate Valid() {
      0 < numPages && 0 < maxOrder && Aligned(numPages, maxOrder)
    }
  }

  ghost function End(t: Tiling, h: nat): nat
    requires h in t
  {
    h + Pow2(t[h].order)
  }

  /** The blocks are aligned, start at page 0, and each one ends where the next begins. */
  ghost predicate Tiles(z: Zone, t: Tiling) {
    && 0 in t
    && (forall h :: h in t ==> t[h].order <= z.maxOrder && Aligned(h, t[h].order))
    && (forall h {:trigger End(t, h)} :: h in t ==>
          End(t, h) == z.numPages || (End(t, h) < z.numPages && End(t, h) in t))
    && (forall h, g {:trigger End(t, h), g in t} :: h in t && g in t && h < g ==> End(t, h) <= g)
  }

  ghost predicate InBlock(t: Tiling, h: nat, p: nat) {
    h in t && h <= p < End(t, h)
  }

  ghost predicate FreePage(t: Tiling, p: nat) {
    exists h :: InBlock(t, h, p) && !t[h].live
  }

  ghost predicate LivePage(t: Tiling, p: nat) {
    exists h :: InBlock(t, h, p) && t[h].live
  }

  /** The aligned run of `Pow2(o)` pages at `q` lies in the zone and is wholly free. */
  ghost predicate FreeRun(z: Zone, t: Tiling, q: nat, o: nat) {
    && Aligned(q, o)
    && forall p :: q <= p < q + Pow2(o) ==> FreePage(t, p)
  }

  /** The block `h` and its upper buddy are both free, of equal order, below MAX_ORDER. */
  ghost predicate Mergeable(z: Zone, t: Tiling, h: nat) {
    && h in t && !t[h].live && t[h].order < z.maxOrder && Aligned(h, t[h].order + 1)
    && End(t, h) in t && t[End(t, h)] == t[h]
  }

  ghost predicate Coalesced(z: Zone, t: Tiling) {
    forall h :: !Mergeable(z, t, h)
  }

  /** The blocks in use, with their orders. */
  ghost function LiveBlocks(t: Tiling): map<nat, nat> {
    map h | h in t && t[h].live :: t[h].order
  }

  // ----- tiling facts -----

  /** Every page of the zone lies in a block. */
  lemma {:induction false} Covered(z: Zone, t: Tiling, p: nat) returns (h: nat)
    requires Tiles(z, t) && p < z.numPages
    ensures InBlock(t, h, p)
  {
    if p in t {
      h := p;
    } else {
      h := Covered(z, t, p - 1);
    }
  }

  lemma BlockUnique(z: Zone, t: Tiling, p: nat, h: nat, g: nat)
    requires Tiles(z, t) && InBlock(t, h, p) && InBlock(t, g, p)
    ensures h == g
  {
  }

  /** Every page of the zone is either free or live, never both. */
  lemma Partition(z: Zone, t: Tiling, p: nat)
    requires Tiles(z, t)
    ensures p < z.numPages <==> FreePage(t, p) || LivePage(t, p)
    ensures !(FreePage(t, p) && LivePage(t, p))
  {
    if p < z.numPages {
      var h := Covered(z, t, p);
    }
  }

  /** In a coalesced tiling every wholly free aligned run lies inside one free block. */
  lemma {:induction false} FreeRunInOneBlock(z: Zone, t: Tiling, q: nat, o: nat) returns (h: nat)
    requires Tiles(z, t) && Coalesced(z, t)
    requires o <= z.maxOrder && FreeRun(z, t, q, o)
    ensures h in t && !t[h].live && t[h].order >= o
    ensures h <= q && q + Pow2(o) <= End(t, h)
    decreases o
  {
    if o == 0 {
      assert FreePage(t, q);
      h :| InBlock(t, h, q) && !t[h].live;
    } else {
      var m := q + Pow2(o - 1);
      AlignedWeaken(q, o - 1, o);
      AlignedShift(q, o - 1);
      h := FreeRunInOneBlock(z, t, m, o - 1);
      if t[h].order >= o {
        SpansBothHalves(h, t[h].order, q, o);
      } else {
        var g := FreeRunInOneBlock(z, t, q, o - 1);
        HalvesMerge(z, t, q, o, g, h);
        assert false;
      }
    }
  }

  /** A block of order at least `o` that meets the upper half of an aligned run of order `o`
      contains the run. */
  lemma SpansBothHalves(h: nat, b: nat, q: nat, o: nat)
    requires 0 < o <= b && Aligned(h, b) && Aligned(q, o)
    requires h <= q + Pow2(o - 1) < h + Pow2(b)
    ensures h <= q && q + Pow2(o) <= h + Pow2(b)
  {
  }

  /** Free blocks covering the two halves of a run, the upper one no larger than its half. */
  lemma HalvesMerge(z: Zone, t: Tiling, q: nat, o: nat, h: nat, g: nat)
    requires Tiles(z, t) && 0 < o <= z.maxOrder && Aligned(q, o)
    requires h in t && !t[h].live && t[h].order >= o - 1
    requires h <= q && q + Pow2(o - 1) <= End(t, h)
    requires g in t && !t[g].live && t[g].order == o - 1
    requires g <= q + Pow2(o - 1) && q + Pow2(o) <= End(t, g)
    ensures Mergeable(z, t, h)
  {
    hide Aligned;
    assert End(t, h) == g == q + Pow2(o - 1);
    LowerHalf(h, t[h].order, q, o);
  }

  /** A block that covers the lower half of a run and ends with it is that half. */
  lemma LowerHalf(h: nat, b: nat, q: nat, o: nat)
    requires 0 < o <= b + 1 && Aligned(h, b) && Aligned(q, o) && h <= q && h + Pow2(b) == q + Pow2(o - 1)
    ensures b == o - 1 && h == q && Aligned(h, b + 1)
  {
    hide Aligned, Pow2;
    AlignedWeaken(q, o - 1, o);
    AlignedShift(q, o - 1);
    AlignedShift(h, b);
    if b >= o { AlignedWeaken(h + Pow2(b), o, b); }
  }

  lemma LiveInBoth(t: Tiling, u: Tiling, h: nat, p: nat)
    requires LiveBlocks(t) == LiveBlocks(u) && InBlock(u, h, p) && u[h].live
    ensures InBlock(t, h, p) && t[h].live
  {
    assert h in LiveBlocks(u) && LiveBlocks(u)[h] == u[h].order;
    assert h in LiveBlocks(t) && LiveBlocks(t)[h] == t[h].order;
  }

  /** Two tilings with the same live blocks have the same free pages. */
  lemma SameFreePages(z: Zone, t: Tiling, u: Tiling, p: nat)
    requires Tiles(z, t) && Tiles(z, u) && LiveBlocks(t) == LiveBlocks(u)
    requires FreePage(t, p)
    ensures FreePage(u, p)
  {
    Partition(z, t, p);
    Partition(z, u, p);
    if h: nat :| InBlock(u, h, p) && u[h].live {
      LiveInBoth(t, u, h, p);
      assert false;
    }
  }

  lemma SameTile(z: Zone, t: Tiling, u: Tiling, h: nat)
    requires Tiles(z, t) && Coalesced(z, t) && Tiles(z, u) && Coalesced(z, u)
    requires LiveBlocks(t) == LiveBlocks(u) && h in t
    ensures h in u && u[h] == t[h]
  {
    if t[h].live {
      assert h in LiveBlocks(t) && LiveBlocks(t)[h] == t[h].order;
      assert h in LiveBlocks(u) && LiveBlocks(u)[h] == u[h].order;
    } else {
      assert FreeRun(z, u, h, t[h].order) by {
        forall p | h <= p < End(t, h) ensures FreePage(u, p) {
          assert InBlock(t, h, p);
          SameFreePages(z, t, u, p);
        }
      }
      var g := FreeRunInOneBlock(z, u, h, t[h].order);
      assert FreeRun(z, t, g, u[g].order) by {
        forall p | g <= p < End(u, g) ensures FreePage(t, p) {
          assert InBlock(u, g, p);
          SameFreePages(z, u, t, p);
        }
      }
      var k := FreeRunInOneBlock(z, t, g, u[g].order);
      BlockUnique(z, t, h, h, k);
      Pow2Monotone(t[h].order, u[g].order);
    }
  }

  /** Canonicity: a coalesced tiling is determined by its live blocks. */
  lemma Canonical(z: Zone, t: Tiling, u: Tiling)
    requires Tiles(z, t) && Coalesced(z, t) && Tiles(z, u) && Coalesced(z, u)
    requires LiveBlocks(t) == LiveBlocks(u)
    ensures t == u
  {
    forall h | h in t ensures h in u && u[h] == t[h] { SameTile(z, t, u, h); }
    forall h | h in u ensures h in t && t[h] == u[h] { SameTile(z, u, t, h); }
  }

  // ----- the steps the allocator takes -----

  /** The block `h` cut into halves; `up` and `low` say whether each half is live. */
  ghost function Split(t: Tiling, h: nat, low: bool, up: bool): Tiling
    requires h in t && t[h].order > 0
  {
    var k := t[h].order - 1;
    t[h := Tile(k, low)][h + Pow2(k) := Tile(k, up)]
  }

  lemma SplitMiddle(z: Zone, t: Tiling, h: nat)
    requires Tiles(z, t) && h in t && t[h].order > 0
    ensures var k := t[h].order - 1; var m := h + Pow2(k);
      m !in t && Aligned(h, k) && Aligned(m, k) && End(t, h) == m + Pow2(k)
  {
    var k := t[h].order - 1;
    AlignedWeaken(h, k, k + 1);
    AlignedShift(h, k);
    assert End(t, h) == h + Pow2(k) + Pow2(k);
  }

  lemma SplitBlock(z: Zone, t: Tiling, h: nat, low: bool, up: bool, g: nat)
    requires Tiles(z, t) && h in t && t[h].order > 0 && g in Split(t, h, low, up)
    ensures var u := Split(t, h, low, up);
      && u[g].order <= z.maxOrder && Aligned(g, u[g].order)
      && (End(u, g) == z.numPages || (End(u, g) < z.numPages && End(u, g) in u))
  {
    hide Aligned, Pow2;
    SplitMiddle(z, t, h);
    var u := Split(t, h, low, up);
    if g in t && g != h { assert End(u, g) == End(t, g); }
  }

  lemma SplitApart(z: Zone, t: Tiling, h: nat, low: bool, up: bool, g: nat, f: nat)
    requires Tiles(z, t) && h in t && t[h].order > 0
    requires g in Split(t, h, low, up) && f in Split(t, h, low, up) && g < f
    ensures End(Split(t, h, low, up), g) <= f
  {
    SplitMiddle(z, t, h);
    hide Aligned, Pow2;
    if g in t && g != h {
      assert End(Split(t, h, low, up), g) == End(t, g);
      assert g < h ==> End(t, g) <= h;
    }
  }

  lemma SplitTiles(z: Zone, t: Tiling, h: nat, low: bool, up: bool)
    requires Tiles(z, t) && h in t && t[h].order > 0
    ensures h + Pow2(t[h].order - 1) !in t
    ensures Tiles(z, Split(t, h, low, up))
  {
    SplitMiddle(z, t, h);
    var u := Split(t, h, low, up);
    assert 0 in u;
    hide Aligned, Pow2, Split;
    forall g {:trigger u[g]} | g in u ensures u[g].order <= z.maxOrder && Aligned(g, u[g].order) {
      SplitBlock(z, t, h, low, up, g);
    }
    forall g {:trigger End(u, g)} | g in u
      ensures End(u, g) == z.numPages || (End(u, g) < z.numPages && End(u, g) in u)
    {
      SplitBlock(z, t, h, low, up, g);
    }
    forall g, f {:trigger End(u, g), f in u} | g in u && f in u && g < f ensures End(u, g) <= f {
      SplitApart(z, t, h, low, up, g, f);
    }
  }

  /** Blocks at `h` and its upper buddy replaced by one block of the next order. */
  ghost function Merge(t: Tiling, h: nat, live: bool): Tiling
    requires h in t
  {
    map g | g in t && g != End(t, h) :: if g == h then Tile(t[h].order + 1, live) else t[g]
  }

  lemma MergeTiles(z: Zone, t: Tiling, h: nat, live: bool)
    requires Tiles(z, t) && h in t && t[h].order < z.maxOrder && Aligned(h, t[h].order + 1)
    requires End(t, h) in t && t[End(t, h)].order == t[h].order
    ensures Tiles(z, Merge(t, h, live))
  {
    var m := End(t, h);
    var u := Merge(t, h, live);
    assert End(u, h) == End(t, m);
    assert m == h + Pow2(t[h].order);
    assert forall g {:trigger End(u, g)} :: g in u && g != h ==> End(u, g) == End(t, g);
    forall g {:trigger End(u, g)} | g in u ensures End(u, g) != m {
      assert g < h ==> End(t, g) <= h;
    }
  }

  /** The covering block of a block's buddy is no larger than the block itself, so it
      starts exactly at the buddy: the head fields `free_pages` reads are never stale. */
  lemma BuddyIsHead(z: Zone, t: Tiling, h: nat, b: nat)
    requires z.Valid() && Tiles(z, t) && h in t && t[h].order < z.maxOrder
    requires b == Xor(h, Pow2(t[h].order))
    ensures b in t && t[b].order <= t[h].order
    ensures b < z.numPages
    ensures if Aligned(h, t[h].order + 1) then b == End(t, h)
            else h == b + Pow2(t[h].order) && Aligned(b, t[h].order + 1)
  {
    var o := t[h].order;
    XorFlip(h, o);
    AlignedShift(h, o);
    hide Xor;
    if Aligned(h, o + 1) {
      UpperBuddyIsHead(z, t, h);
    } else {
      assert End(t, h) <= z.numPages;
      var g := Covered(z, t, b);
      LowerBuddyIsHead(z, t, h, b, g);
    }
  }

  lemma UpperBuddyIsHead(z: Zone, t: Tiling, h: nat)
    requires z.Valid() && Tiles(z, t) && h in t && t[h].order < z.maxOrder && Aligned(h, t[h].order + 1)
    ensures var b := End(t, h); b in t && t[b].order <= t[h].order && b < z.numPages
  {
    var o, b := t[h].order, End(t, h);
    AlignedWeaken(z.numPages, o + 1, z.maxOrder);
    SplitBuddyNotLower(t, h, b);
    assert b != z.numPages;
    if t[b].order > o { AlignedWeaken(b, o + 1, t[b].order); }
  }

  lemma LowerBuddyIsHead(z: Zone, t: Tiling, h: nat, b: nat, g: nat)
    requires Tiles(z, t) && h in t && h == b + Pow2(t[h].order)
    requires Aligned(b, t[h].order + 1) && InBlock(t, g, b)
    ensures g == b && t[b].order <= t[h].order
  {
    var o, a := t[h].order, t[g].order;
    assert End(t, g) <= h;
    if a <= o {
      AlignedWeaken(b, a, o + 1);
      if g < b { AlignedGap(g, b, a); }
    } else {
      Nested(g, a, b, o + 1);
    }
  }

  // ----- what the steps keep -----

  /** The tiling with block `h` set aside: it no longer counts as free. */
  ghost function Hold(t: Tiling, h: nat): Tiling
    requires h in t
  {
    t[h := Tile(t[h].order, true)]
  }

  ghost function Release(t: Tiling, h: nat): Tiling
    requires h in t
  {
    t[h := Tile(t[h].order, false)]
  }

  lemma HoldTiles(z: Zone, t: Tiling, h: nat)
    requires Tiles(z, t) && h in t
    ensures Tiles(z, Hold(t, h)) && Tiles(z, Release(t, h))
    ensures Coalesced(z, t) ==> Coalesced(z, Hold(t, h))
  {
    hide Tiles, Mergeable;
    SameTiles(z, t, Hold(t, h));
    SameTiles(z, t, Release(t, h));
    forall g: nat ensures Mergeable(z, Hold(t, h), g) ==> Mergeable(z, t, g) { HoldMergeable(z, t, h, g); }
  }

  /** Which blocks are live does not matter for being a tiling. */
  lemma SameTiles(z: Zone, t: Tiling, u: Tiling)
    requires Tiles(z, t) && u.Keys == t.Keys && forall g :: g in t ==> u[g].order == t[g].order
    ensures Tiles(z, u)
  {
    hide Aligned, Pow2;
    assert forall g {:trigger End(u, g)} :: g in t ==> End(u, g) == End(t, g);
  }

  lemma HoldMergeable(z: Zone, t: Tiling, h: nat, g: nat)
    requires h in t
    ensures Mergeable(z, Hold(t, h), g) ==> Mergeable(z, t, g)
  {
    if g in t { assert End(Hold(t, h), g) == End(t, g); }
  }

  /** The live blocks after a block was taken or given back. */
  lemma HoldLive(t: Tiling, h: nat)
    requires h in t
    ensures LiveBlocks(Hold(t, h)) == LiveBlocks(t)[h := t[h].order]
    ensures LiveBlocks(Release(t, h)) == LiveBlocks(t) - {h}
  {
  }

  lemma HoldFree(z: Zone, t: Tiling, h: nat, p: nat)
    requires Tiles(z, t) && h in t && !t[h].live
    ensures FreePage(Hold(t, h), p) <==> FreePage(t, p) && !InBlock(t, h, p)
  {
    var u := Hold(t, h);
    assert forall g {:trigger InBlock(u, g, p)} :: InBlock(u, g, p) <==> InBlock(t, g, p);
    if g: nat :| InBlock(t, g, p) && !t[g].live {
      assert InBlock(u, g, p);
      if InBlock(t, h, p) { BlockUnique(z, t, p, g, h); }
    }
  }

  lemma SplitMergeable(z: Zone, t: Tiling, h: nat, low: bool, up: bool, g: nat)
    requires Tiles(z, t) && h in t && t[h].order > 0 && (low || up)
    requires Mergeable(z, Split(t, h, low, up), g)
    ensures Mergeable(z, Hold(t, h), g)
  {
    hide Aligned, Pow2, Tiles;
    SplitMiddle(z, t, h);
    var u, v := Split(t, h, low, up), Hold(t, h);
    var k := t[h].order - 1;
    AlignedShift(h, k);
    OrderPositive(z, t, h);
    assert g != h && g != h + Pow2(k);
    assert End(v, g) == End(t, g) == End(u, g);
    NoEndInside(z, t, h, g);
    if End(u, g) == h { SplitBuddyNotLower(t, g, h); }
  }

  lemma OrderPositive(z: Zone, t: Tiling, h: nat)
    requires Tiles(z, t) && h in t && t[h].order > 0
    ensures Aligned(h, t[h].order - 1 + 1) && End(t, h) > h + Pow2(t[h].order - 1)
  {
    assert Pow2(t[h].order) == 2 * Pow2(t[h].order - 1);
  }

  /** No other block ends inside a block. */
  lemma NoEndInside(z: Zone, t: Tiling, h: nat, g: nat)
    requires Tiles(z, t) && h in t && g in t && g != h
    ensures End(t, g) <= h || End(t, h) < End(t, g)
  {
  }

  /** Setting aside one half of a held block and freeing the other creates no mergeable pair. */
  lemma SplitCoalesced(z: Zone, t: Tiling, h: nat, low: bool, up: bool)
    requires Tiles(z, t) && h in t && t[h].order > 0
    requires Coalesced(z, Hold(t, h)) && (low || up)
    ensures Coalesced(z, Split(t, h, low, up))
  {
    forall g: nat ensures !Mergeable(z, Split(t, h, low, up), g) {
      if Mergeable(z, Split(t, h, low, up), g) { SplitMergeable(z, t, h, low, up, g); }
    }
  }

  /** An unsplit lower buddy of order `k` cannot end at a block aligned to order `k + 1`. */
  lemma SplitBuddyNotLower(t: Tiling, g: nat, h: nat)
    requires g in t && End(t, g) == h && Aligned(g, t[g].order + 1)
    ensures !Aligned(h, t[g].order + 1)
  {
    AlignedWeaken(g, t[g].order, t[g].order + 1);
    AlignedShift(g, t[g].order);
  }

  lemma SplitFree(z: Zone, t: Tiling, h: nat, p: nat)
    requires Tiles(z, t) && h in t && t[h].order > 0 && !t[h].live
    ensures FreePage(Split(t, h, false, false), p) <==> FreePage(t, p)
  {
    hide Aligned, Tiles, Pow2;
    var u := Split(t, h, false, false);
    var m := h + Pow2(t[h].order - 1);
    SplitMiddle(z, t, h);
    assert End(u, h) == m && End(u, m) == End(t, h);
    assert u[h] == Tile(t[h].order - 1, false) == u[m] && h in u && m in u;
    assert forall g :: g != h && g != m ==> (g in t <==> g in u) && (g in t ==> t[g] == u[g]);
    if g: nat :| InBlock(t, g, p) && !t[g].live {
      var f := if g != h then g else if p < m then h else m;
      assert InBlock(u, f, p) && !u[f].live;
    }
    if g: nat :| InBlock(u, g, p) && !u[g].live {
      var f := if g == m then h else g;
      assert InBlock(t, f, p) && !t[f].live;
    }
  }

  lemma MergeMergeable(z: Zone, t: Tiling, h: nat, g: nat)
    requires Tiles(z, t) && h in t && Mergeable(z, Merge(t, h, true), g)
    ensures Mergeable(z, t, g)
  {
  }

  lemma MergeCoalesced(z: Zone, t: Tiling, h: nat)
    requires Tiles(z, t) && Coalesced(z, t) && h in t
    ensures Coalesced(z, Merge(t, h, true))
  {
    forall g: nat ensures !Mergeable(z, Merge(t, h, true), g) {
      if Mergeable(z, Merge(t, h, true), g) { MergeMergeable(z, t, h, g); }
    }
  }

  /** The block `h` could not be merged if it were free: its buddy is missing, in use or split. */
  ghost predicate BuddyBusy(z: Zone, t: Tiling, h: nat)
    requires h in t
  {
    var o := t[h].order;
    o < z.maxOrder ==> var b := Xor(h, Pow2(o)); b in t ==> t[b] != Tile(o, false)
  }

  lemma ReleaseMergeable(z: Zone, t: Tiling, h: nat, g: nat)
    requires Tiles(z, t) && h in t && BuddyBusy(z, t, h)
    requires Mergeable(z, Release(t, h), g)
    ensures Mergeable(z, t, g)
  {
    XorFlip(h, t[h].order);
    hide Xor;
    assert End(Release(t, h), g) == End(t, g);
    if g != h && End(t, g) == h { SplitBuddyNotLower(t, g, h); }
  }

  /** Releasing a block whose buddy cannot be merged with it keeps the tiling coalesced. */
  lemma ReleaseCoalesced(z: Zone, t: Tiling, h: nat)
    requires Tiles(z, t) && Coalesced(z, t) && h in t && BuddyBusy(z, t, h)
    ensures Coalesced(z, Release(t, h))
  {
    forall g: nat ensures !Mergeable(z, Release(t, h), g) {
      if Mergeable(z, Release(t, h), g) { ReleaseMergeable(z, t, h, g); }
    }
  }

  lemma SplitLive(t: Tiling, h: nat)
    requires h in t && t[h].order > 0 && !t[h].live
    requires h + Pow2(t[h].order - 1) !in t
    ensures LiveBlocks(Split(t, h, false, false)) == LiveBlocks(t)
  {
  }
}

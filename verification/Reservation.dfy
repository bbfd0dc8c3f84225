/** What `memory_reserve` keeps while it carves a page range out of the free blocks. `t` is
    the tiling before the call, `u` the current one; pages `lo..s` are already reserved and
    pages `s..hi` (inclusive) are still to do. */
module Reservation {
  import opened Bits
  import opened Tilings

  /** The MAX_ORDER block at `top` is whole and free. */
  ghost predicate TopFree(z: Zone, t: Tiling, top: nat) {
    top in t && t[top] == Tile(z.maxOrder, false)
  }

  /** Every MAX_ORDER block that starts below `x` and ends above `lo` is whole and free. */
  ghost predicate TopsFree(z: Zone, t: Tiling, lo: nat, x: nat) {
    forall top: nat :: Aligned(top, z.maxOrder) && top < x && lo < top + Pow2(z.maxOrder) ==> TopFree(z, t, top)
  }

  /** The block of order `k + 1` around page `q` does not fit into pages `lo..hi`. */
  ghost predicate ParentOut(lo: nat, hi: nat, q: nat, k: nat) {
    RoundDown(q, k + 1) < lo || hi + 1 < RoundDown(q, k + 1) + Pow2(k + 1)
  }

  /** The live block `h` of `u` was live before, or is one of the largest aligned blocks that
      fit into pages `lo..hi`, and ends by `s`. */
  ghost predicate OldOrCarved(z: Zone, t: Tiling, u: Tiling, lo: nat, s: nat, hi: nat, h: nat)
    requires h in u
  {
    || (h in t && t[h] == u[h])
    || (lo <= h && End(u, h) <= s && (u[h].order == z.maxOrder || ParentOut(lo, hi, h, u[h].order)))
  }

  /** Pages `lo..s` have moved from the free to the live side and nothing else has changed. */
  ghost predicate Carved(z: Zone, t: Tiling, u: Tiling, lo: nat, s: nat, hi: nat) {
    && (forall p: nat {:trigger FreePage(u, p)} {:trigger FreePage(t, p)} ::
          FreePage(u, p) <==> FreePage(t, p) && !(lo <= p < s))
    && (forall p: nat :: lo <= p < s ==> FreePage(t, p))
    && (forall h :: h in t && t[h].live ==> h in u && u[h] == t[h])
    && (forall h :: h in u && u[h].live ==> OldOrCarved(z, t, u, lo, s, hi, h))
  }

  /** At MAX_ORDER, before looking for the block around `s`. */
  ghost predicate AtTop(z: Zone, t: Tiling, u: Tiling, lo: nat, s: nat, hi: nat) {
    && Tiles(z, u) && Coalesced(z, u) && Carved(z, t, u, lo, s, hi)
    && lo <= s <= hi && (s == lo || Aligned(s, z.maxOrder))
    && TopsFree(z, t, lo, RoundDown(s, z.maxOrder))
  }

  /** The block of order `o` around `s` is free; with it set aside, `u` is fully coalesced. */
  ghost predicate AtBlock(z: Zone, t: Tiling, u: Tiling, lo: nat, s: nat, hi: nat, o: nat) {
    var h := RoundDown(s, o);
    && Tiles(z, u) && Carved(z, t, u, lo, s, hi)
    && lo <= s <= hi && o <= z.maxOrder && (s == lo || s == h)
    && h in u && u[h] == Tile(o, false) && Coalesced(z, Hold(u, h))
    && (o < z.maxOrder ==> ParentOut(lo, hi, s, o))
    && TopsFree(z, t, lo, s + 1)
  }

  lemma Start(z: Zone, t: Tiling, lo: nat, hi: nat)
    requires Tiles(z, t) && Coalesced(z, t) && lo <= hi
    ensures AtTop(z, t, t, lo, lo, hi)
  {
    RoundDownIs(lo, z.maxOrder);
    forall top: nat {:trigger TopFree(z, t, top)} | Aligned(top, z.maxOrder) && top < RoundDown(lo, z.maxOrder)
      ensures top + Pow2(z.maxOrder) <= lo
    {
      AlignedGap(top, RoundDown(lo, z.maxOrder), z.maxOrder);
    }
  }

  /** A wholly free MAX_ORDER run is one block. */
  lemma TopRunIsBlock(z: Zone, t: Tiling, top: nat)
    requires Tiles(z, t) && Coalesced(z, t) && FreeRun(z, t, top, z.maxOrder)
    ensures TopFree(z, t, top)
  {
    var h := FreeRunInOneBlock(z, t, top, z.maxOrder);
  }

  lemma TopBlockIsRun(z: Zone, t: Tiling, top: nat)
    requires Tiles(z, t) && TopFree(z, t, top)
    ensures FreeRun(z, t, top, z.maxOrder)
  {
  }

  /** At MAX_ORDER the search around `s` succeeds exactly if the block was free before the call. */
  lemma SearchAtTop(z: Zone, t: Tiling, u: Tiling, lo: nat, s: nat, hi: nat)
    requires Tiles(z, t) && Coalesced(z, t) && AtTop(z, t, u, lo, s, hi)
    ensures var top := RoundDown(s, z.maxOrder);
      && Aligned(top, z.maxOrder) && top <= s <= hi && lo < top + Pow2(z.maxOrder)
      && (TopFree(z, u, top) <==> TopFree(z, t, top))
      && (TopFree(z, u, top) ==> AtBlock(z, t, u, lo, s, hi, z.maxOrder))
  {
    var maxOrder := z.maxOrder;
    var top := RoundDown(s, maxOrder);
    RoundDownIs(s, maxOrder);
    if Aligned(s, maxOrder) { RoundDownUnique(s, maxOrder, s); }
    if TopFree(z, t, top) {
      TopBlockIsRun(z, t, top);
      assert FreeRun(z, u, top, maxOrder);
      TopRunIsBlock(z, u, top);
    }
    if TopFree(z, u, top) {
      TopBlockIsRun(z, u, top);
      assert FreeRun(z, t, top, maxOrder);
      TopRunIsBlock(z, t, top);
      HoldTiles(z, u, top);
      TopsFreeUpTo(z, t, lo, s);
    }
  }

  lemma TopsFreeUpTo(z: Zone, t: Tiling, lo: nat, s: nat)
    requires TopsFree(z, t, lo, RoundDown(s, z.maxOrder)) && TopFree(z, t, RoundDown(s, z.maxOrder))
    ensures TopsFree(z, t, lo, s + 1)
  {
    var maxOrder := z.maxOrder;
    RoundDownIs(s, maxOrder);
    forall top: nat | Aligned(top, maxOrder) && top < s + 1 && lo < top + Pow2(maxOrder) ensures TopFree(z, t, top) {
      if top > RoundDown(s, maxOrder) { AlignedGap(RoundDown(s, maxOrder), top, maxOrder); }
    }
  }

  /** The half of a split block that contains page `s` can be set aside in its turn. */
  lemma HalfAround(z: Zone, u: Tiling, h: nat, s: nat)
    requires Tiles(z, u) && InBlock(u, h, s) && u[h].order > 0 && !u[h].live && Coalesced(z, Hold(u, h))
    ensures var k := u[h].order - 1; var g := RoundDown(s, k); var v := Split(u, h, false, false);
      && (s == h ==> s == g)
      && Tiles(z, v) && g in v && v[g] == Tile(k, false) && Coalesced(z, Hold(v, g))
  {
    var k := u[h].order - 1;
    SplitMiddle(z, u, h);
    var m := h + Pow2(k);
    var g := if s < m then h else m;
    RoundDownUnique(s, k, g);
    hide Tiles, Coalesced, RoundDown, Aligned, Pow2;
    SplitTiles(z, u, h, false, false);
    SplitCoalesced(z, u, h, s < m, s >= m);
    assert Hold(Split(u, h, false, false), g) == Split(u, h, s < m, s >= m);
  }

  /** A partially overlapped block is split and the search goes on in the half around `s`. */
  lemma CarveSplit(z: Zone, t: Tiling, u: Tiling, lo: nat, s: nat, hi: nat, o: nat)
    requires AtBlock(z, t, u, lo, s, hi, o)
    requires var h := RoundDown(s, o); h != s || hi + 1 < h + Pow2(o)
    ensures o > 0
    ensures AtBlock(z, t, Split(u, RoundDown(s, o), false, false), lo, s, hi, o - 1)
  {
    RoundDownIs(s, o);
    hide Tiles, Carved, Coalesced, TopsFree, Aligned, RoundDown;
    var h := RoundDown(s, o);
    assert o > 0;
    assert ParentOut(lo, hi, s, o - 1);
    HalfAround(z, u, h, s);
    CarvedSplit(z, t, u, lo, s, hi, h);
  }

  lemma CarvedSplit(z: Zone, t: Tiling, u: Tiling, lo: nat, s: nat, hi: nat, h: nat)
    requires Tiles(z, u) && Carved(z, t, u, lo, s, hi)
    requires h in u && !u[h].live && u[h].order > 0
    ensures Carved(z, t, Split(u, h, false, false), lo, s, hi)
  {
    var v := Split(u, h, false, false);
    SplitMiddle(z, u, h);
    forall p: nat ensures FreePage(v, p) <==> FreePage(u, p) { SplitFree(z, u, h, p); }
    hide FreePage, ParentOut, Tiles, Pow2, Aligned;
    forall g | g in v && v[g].live ensures OldOrCarved(z, t, v, lo, s, hi, g) {
      assert g in u && u[g] == v[g] && OldOrCarved(z, t, u, lo, s, hi, g);
    }
  }

  /** A fully overlapped block is taken as a whole. */
  lemma CarveTake(z: Zone, t: Tiling, u: Tiling, lo: nat, s: nat, hi: nat, o: nat)
    requires AtBlock(z, t, u, lo, s, hi, o) && RoundDown(s, o) == s && s + Pow2(o) <= hi + 1
    ensures var v := Hold(u, s); var s' := s + Pow2(o);
      && Tiles(z, v) && Coalesced(z, v) && Carved(z, t, v, lo, s', hi)
      && Aligned(s', o) && TopsFree(z, t, lo, s')
  {
    hide Tiles, Carved, Coalesced, RoundDown, ParentOut, Aligned;
    var s' := s + Pow2(o);
    HoldTiles(z, u, s);
    RoundDownIs(s, o);
    AlignedShift(s, o);
    CarvedTake(z, t, u, lo, s, hi);
    forall top: nat {:trigger TopFree(z, t, top)} | Aligned(top, z.maxOrder) && s < top ensures s' <= top {
      AlignedWeaken(top, o, z.maxOrder);
      AlignedGap(s, top, o);
    }
  }

  lemma CarvedTake(z: Zone, t: Tiling, u: Tiling, lo: nat, s: nat, hi: nat)
    requires Tiles(z, u) && Carved(z, t, u, lo, s, hi) && lo <= s
    requires s in u && !u[s].live && (u[s].order == z.maxOrder || ParentOut(lo, hi, s, u[s].order))
    ensures Carved(z, t, Hold(u, s), lo, End(u, s), hi)
  {
    var v := Hold(u, s);
    forall p: nat ensures FreePage(v, p) <==> FreePage(u, p) && !InBlock(u, s, p) { HoldFree(z, u, s, p); }
    forall p: nat | s <= p < End(u, s) ensures FreePage(u, p) { assert InBlock(u, s, p); }
    hide FreePage, ParentOut, Tiles, Pow2, Aligned;
    forall g | g in v && v[g].live ensures OldOrCarved(z, t, v, lo, End(u, s), hi, g) {
      if g != s { assert g in u && u[g] == v[g] && OldOrCarved(z, t, u, lo, s, hi, g); }
    }
  }

  /** After a full overlap that ends inside a MAX_ORDER block, the next free block starts at
      the new `s` and its order is the largest to which `s` is aligned. */
  lemma NextBlock(z: Zone, t: Tiling, u: Tiling, lo: nat, s: nat, hi: nat, o: nat, k: nat)
    requires Tiles(z, t) && Coalesced(z, t)
    requires AtBlock(z, t, u, lo, s, hi, o) && RoundDown(s, o) == s && s + Pow2(o) <= hi
    requires k < z.maxOrder && Aligned(s + Pow2(o), k) && !Aligned(s + Pow2(o), k + 1)
    ensures AtBlock(z, t, Hold(u, s), lo, s + Pow2(o), hi, k)
  {
    hide Tiles, Carved, Coalesced, RoundDown, ParentOut, FreeRun;
    var v, s', maxOrder := Hold(u, s), s + Pow2(o), z.maxOrder;
    CarveTake(z, t, u, lo, s, hi, o);
    NextRunFree(z, t, v, lo, s, s', hi, k);
    FreeAfterLive(z, v, s, s', k);
    NextParent(z, lo, s, hi, o, k);
    RoundDownUnique(s', k, s');
    if Aligned(s', maxOrder) { AlignedWeaken(s', k + 1, maxOrder); }
    HoldTiles(z, v, s');
  }

  /** A free run right after a live block starts a block; if the run is as large as its start
      is aligned, it is that block. */
  lemma FreeAfterLive(z: Zone, v: Tiling, s: nat, s': nat, k: nat)
    requires Tiles(z, v) && Coalesced(z, v) && k <= z.maxOrder && FreeRun(z, v, s', k)
    requires s in v && v[s].live && End(v, s) == s' && !Aligned(s', k + 1)
    ensures s' in v && v[s'] == Tile(k, false)
  {
    var g := FreeRunInOneBlock(z, v, s', k);
    assert g == s';
    if v[g].order > k { AlignedWeaken(s', k + 1, v[g].order); }
  }

  lemma NextRunFree(z: Zone, t: Tiling, v: Tiling, lo: nat, s: nat, s': nat, hi: nat, k: nat)
    requires Tiles(z, t) && Carved(z, t, v, lo, s', hi) && TopsFree(z, t, lo, s')
    requires lo <= s < s' && k < z.maxOrder && Aligned(s', k) && !Aligned(s', k + 1)
    ensures FreeRun(z, v, s', k)
  {
    var maxOrder := z.maxOrder;
    var top := RoundDown(s', maxOrder);
    RoundDownIs(s', maxOrder);
    if top == s' { AlignedWeaken(s', k + 1, maxOrder); }
    TopBlockIsRun(z, t, top);
    Nested(top, maxOrder, s', k);
  }

  lemma NextParent(z: Zone, lo: nat, s: nat, hi: nat, o: nat, k: nat)
    requires lo <= s && RoundDown(s, o) == s && s + Pow2(o) <= hi + 1
    requires o <= z.maxOrder && (o < z.maxOrder ==> ParentOut(lo, hi, s, o))
    requires k < z.maxOrder && Aligned(s + Pow2(o), k) && !Aligned(s + Pow2(o), k + 1)
    ensures ParentOut(lo, hi, s + Pow2(o), k)
  {
    hide RoundDown, Aligned;
    var s' := s + Pow2(o);
    RoundDownIs(s, o);
    AlignedShift(s, o);
    if o > k { AlignedWeaken(s', k + 1, o); }
    AlignedShift(s', k);
    var parent := s' - Pow2(k);
    RoundDownUnique(s', k + 1, parent);
    if o == k {
      RoundDownUnique(s, k + 1, parent);
    } else if parent >= lo {
      AlignedWeaken(s', o + 1, k);
      Pow2Monotone(o + 1, k);
      RoundDownUniqueBelow(s', o);
    }
  }

  /** The block of order `o + 1` that ends at `e`. */
  lemma RoundDownUniqueBelow(e: nat, o: nat)
    requires Aligned(e, o + 1) && e >= Pow2(o + 1)
    ensures RoundDown(e - Pow2(o), o + 1) == e - Pow2(o + 1)
  {
    RoundDownIs(e - Pow2(o), o + 1);
    var r := RoundDown(e - Pow2(o), o + 1);
    if r < e { AlignedGap(r, e, o + 1); }
    AlignedShift(r, o + 1);
    if r + Pow2(o + 1) < e { AlignedGap(r + Pow2(o + 1), e, o + 1); }
  }

  // ----- the loop of `memory_reserve`, one case at a time -----

  lemma BlockFound(z: Zone, t: Tiling, u: Tiling, lo: nat, s: nat, hi: nat, o: nat)
    requires AtBlock(z, t, u, lo, s, hi, o)
    ensures var h := RoundDown(s, o); h in u && u[h] == Tile(o, false) && lo <= s <= hi && h <= s
  {
  }

  /** The next order after a full overlap: MAX_ORDER at the start of a MAX_ORDER block, else
      the largest order to which the new start is aligned. */
  predicate NextOrder(z: Zone, s: nat, k: nat) {
    if Aligned(s, z.maxOrder) then k == z.maxOrder
    else k < z.maxOrder && Aligned(s, k) && !Aligned(s, k + 1)
  }

  lemma NextTop(z: Zone, t: Tiling, u: Tiling, lo: nat, s: nat, hi: nat)
    requires Tiles(z, u) && Coalesced(z, u) && Carved(z, t, u, lo, s, hi) && TopsFree(z, t, lo, s)
    requires lo <= s <= hi && Aligned(s, z.maxOrder)
    ensures AtTop(z, t, u, lo, s, hi)
  {
  }

  lemma CarveNext(z: Zone, t: Tiling, u: Tiling, lo: nat, s: nat, hi: nat, o: nat, k: nat)
    requires Tiles(z, t) && Coalesced(z, t)
    requires AtBlock(z, t, u, lo, s, hi, o) && RoundDown(s, o) == s && s + Pow2(o) <= hi
    requires NextOrder(z, s + Pow2(o), k)
    ensures s in u && k <= z.maxOrder
    ensures k == z.maxOrder ==> AtTop(z, t, Hold(u, s), lo, s + Pow2(o), hi)
    ensures k < z.maxOrder ==> AtBlock(z, t, Hold(u, s), lo, s + Pow2(o), hi, k)
  {
    hide AtBlock, AtTop, Tiles, Coalesced, Carved, TopsFree, RoundDown, Aligned, Pow2;
    BlockFound(z, t, u, lo, s, hi, o);
    if k < z.maxOrder {
      NextBlock(z, t, u, lo, s, hi, o, k);
    } else {
      CarveTake(z, t, u, lo, s, hi, o);
      NextTop(z, t, Hold(u, s), lo, s + Pow2(o), hi);
    }
  }

  /** The order found from the offset inside the MAX_ORDER block is that of the address. */
  lemma OffsetOrder(z: Zone, s: nat, k: nat)
    requires var offset := s % Pow2(z.maxOrder);
      if offset == 0 then k == z.maxOrder
      else k < z.maxOrder && Aligned(offset, k) && !Aligned(offset, k + 1)
    ensures NextOrder(z, s, k)
  {
    var maxOrder := z.maxOrder;
    RoundDownIs(s, maxOrder);
    AlignedIsMod(s, maxOrder);
    if k < maxOrder {
      AlignedWeaken(RoundDown(s, maxOrder), k, maxOrder);
      AlignedSum(RoundDown(s, maxOrder), s % Pow2(maxOrder), k);
      AlignedWeaken(RoundDown(s, maxOrder), k + 1, maxOrder);
      AlignedSum(RoundDown(s, maxOrder), s % Pow2(maxOrder), k + 1);
    }
  }

  lemma CarveEnd(z: Zone, t: Tiling, u: Tiling, lo: nat, s: nat, hi: nat, o: nat)
    requires AtBlock(z, t, u, lo, s, hi, o) && RoundDown(s, o) == s && s + Pow2(o) == hi + 1
    ensures s in u && Coalesced(z, Hold(u, s)) && Carved(z, t, Hold(u, s), lo, hi + 1, hi)
    ensures TopsFree(z, t, lo, hi + 1)
  {
    BlockFound(z, t, u, lo, s, hi, o);
    CarveTake(z, t, u, lo, s, hi, o);
  }

  /** What holds at the head of the loop, also for an empty range (`hi < lo`). */
  ghost predicate Looping(z: Zone, t: Tiling, u: Tiling, lo: nat, s: nat, hi: nat, o: nat) {
    && o <= z.maxOrder && Tiles(z, t) && Coalesced(z, t)
    && if hi < lo then s == lo && o == z.maxOrder && u == t
       else if o == z.maxOrder then AtTop(z, t, u, lo, s, hi)
       else AtBlock(z, t, u, lo, s, hi, o)
  }

  /** What holds when the loop ends normally. */
  ghost predicate Finished(z: Zone, t: Tiling, u: Tiling, lo: nat, hi: nat) {
    if hi < lo then
      var top := RoundDown(lo, z.maxOrder);
      if TopFree(z, t, top) then z.maxOrder > 0 && u == Split(t, top, false, false) else u == t
    else
      Coalesced(z, u) && Carved(z, t, u, lo, hi + 1, hi) && TopsFree(z, t, lo, hi + 1)
  }

  lemma LoopBlock(z: Zone, t: Tiling, u: Tiling, lo: nat, s: nat, hi: nat, o: nat)
    requires Looping(z, t, u, lo, s, hi, o) && lo <= hi
    requires RoundDown(s, o) in u && u[RoundDown(s, o)] == Tile(o, false)
    ensures AtBlock(z, t, u, lo, s, hi, o)
  {
    if o == z.maxOrder { SearchAtTop(z, t, u, lo, s, hi); }
  }

  lemma LoopTake(z: Zone, t: Tiling, u: Tiling, lo: nat, s: nat, hi: nat, o: nat, k: nat)
    requires Looping(z, t, u, lo, s, hi, o)
    requires RoundDown(s, o) == s && s in u && u[s] == Tile(o, false) && s + Pow2(o) <= hi + 1
    requires s + Pow2(o) <= hi ==> NextOrder(z, s + Pow2(o), k)
    ensures s + Pow2(o) <= hi ==> Looping(z, t, Hold(u, s), lo, s + Pow2(o), hi, k)
    ensures s + Pow2(o) > hi ==> Finished(z, t, Hold(u, s), lo, hi)
  {
    LoopBlock(z, t, u, lo, s, hi, o);
    hide AtBlock, AtTop, Tiles, Coalesced, Carved, TopsFree, RoundDown, Aligned;
    if s + Pow2(o) <= hi {
      CarveNext(z, t, u, lo, s, hi, o, k);
    } else {
      CarveEnd(z, t, u, lo, s, hi, o);
    }
  }

  lemma LoopSplit(z: Zone, t: Tiling, u: Tiling, lo: nat, s: nat, hi: nat, o: nat)
    requires z.Valid() && Looping(z, t, u, lo, s, hi, o)
    requires var h := RoundDown(s, o); h in u && u[h] == Tile(o, false) && (h != s || hi + 1 < h + Pow2(o))
    ensures o > 0
    ensures s <= hi ==> Looping(z, t, Split(u, RoundDown(s, o), false, false), lo, s, hi, o - 1)
    ensures s > hi ==> Finished(z, t, Split(u, RoundDown(s, o), false, false), lo, hi)
  {
    if lo <= hi {
      LoopBlock(z, t, u, lo, s, hi, o);
      hide AtTop, Tiles, Coalesced, Carved, TopsFree, RoundDown, Aligned;
      CarveSplit(z, t, u, lo, s, hi, o);
    }
  }

  lemma LoopMiss(z: Zone, t: Tiling, u: Tiling, lo: nat, s: nat, hi: nat, o: nat)
    requires Looping(z, t, u, lo, s, hi, o)
    requires !(RoundDown(s, o) in u && u[RoundDown(s, o)] == Tile(o, false))
    ensures s <= hi ==> lo <= hi && !TopsFree(z, t, lo, hi + 1)
    ensures s > hi ==> hi < lo && Finished(z, t, u, lo, hi)
  {
    if lo <= hi { SearchAtTop(z, t, u, lo, s, hi); }
  }

  /** With an empty range the first round splits a whole MAX_ORDER block and the loop ends:
      the two halves are left unmerged. */
  lemma EmptyRangeSplits(z: Zone, t: Tiling, top: nat)
    requires z.Valid() && Tiles(z, t) && TopFree(z, t, top)
    ensures !Coalesced(z, Split(t, top, false, false))
  {
    SplitMiddle(z, t, top);
    AlignedWeaken(top, z.maxOrder - 1, z.maxOrder);
    assert Mergeable(z, Split(t, top, false, false), top);
  }
}
